/** The Python string operations the drivers rely on, over `seq<char>`:
    `sep.join`, `startswith`/`endswith`, `find`/`rfind`, `strip`, `in` on
    strings and `str()` of a non-negative integer. */
module Text {

  /** `sep.join(parts)`: the parts in order with `sep` between neighbours. */
  function Join(sep: string, parts: seq<string>): string
  {
    if |parts| == 0 then ""
    else if |parts| == 1 then parts[0]
    else parts[0] + sep + Join(sep, parts[1..])
  }

  /** What stands before `parts[i]` in `Join(sep, parts)`. */
  function JoinedBefore(sep: string, parts: seq<string>, i: nat): string
    requires i <= |parts|
  {
    if i == 0 then "" else Join(sep, parts[..i]) + sep
  }

  /** What stands after `parts[i]` in `Join(sep, parts)`. */
  function JoinedAfter(sep: string, parts: seq<string>, i: nat): string
    requires i < |parts|
  {
    if i == |parts| - 1 then "" else sep + Join(sep, parts[i + 1..])
  }

  /** Every part sits in the joined string between what the parts before it
      and the parts after it contribute. */
  lemma {:induction false} JoinAround(sep: string, parts: seq<string>, i: nat)
    requires i < |parts|
    ensures Join(sep, parts) == JoinedBefore(sep, parts, i) + parts[i] + JoinedAfter(sep, parts, i)
  {
    if i > 0 {
      var tail := parts[1..];
      JoinAround(sep, tail, i - 1);
      JoinedBeforeTail(sep, parts, i);
      JoinedAfterTail(sep, parts, i);
      var before, after := JoinedBefore(sep, tail, i - 1), JoinedAfter(sep, tail, i - 1);
      assert Join(sep, parts) == parts[0] + sep + (before + parts[i] + after);
      assert parts[0] + sep + (before + parts[i] + after) == (parts[0] + sep + before) + parts[i] + after;
    }
  }

  lemma JoinedBeforeTail(sep: string, parts: seq<string>, i: nat)
    requires 1 <= i < |parts|
    ensures JoinedBefore(sep, parts, i) == parts[0] + sep + JoinedBefore(sep, parts[1..], i - 1)
  {
    if i == 1 {
      assert parts[..1] == [parts[0]];
    } else {
      assert parts[..i][1..] == parts[1..][..i - 1];
    }
  }

  lemma JoinedAfterTail(sep: string, parts: seq<string>, i: nat)
    requires 1 <= i < |parts|
    ensures JoinedAfter(sep, parts, i) == JoinedAfter(sep, parts[1..], i - 1)
  {
    assert parts[1..][i..] == parts[i + 1..];
  }

  /** Changing a single part always changes the joined string, whatever the
      parts contain: the key built from a list of components tells apart two
      lists that differ in exactly one place. */
  lemma JoinInjectiveInOnePart(sep: string, parts: seq<string>, i: nat, a: string, b: string)
    requires i < |parts|
    ensures Join(sep, parts[i := a]) == Join(sep, parts[i := b]) <==> a == b
  {
    var pa, pb := parts[i := a], parts[i := b];
    JoinAround(sep, pa, i);
    JoinAround(sep, pb, i);
    assert pa[..i] == pb[..i];
    assert pa[i + 1..] == pb[i + 1..];
    var before, after := JoinedBefore(sep, pa, i), JoinedAfter(sep, pa, i);
    assert JoinedBefore(sep, pb, i) == before && JoinedAfter(sep, pb, i) == after;
    if Join(sep, pa) == Join(sep, pb) {
      var s := Join(sep, pa);
      assert |a| == |b|;
      assert a == s[|before|..|before| + |a|];
      assert b == s[|before|..|before| + |b|];
    }
  }

  /** With a non-empty separator, `sep.join(parts) == ""` exactly when there
      is no part or a single empty one. */
  lemma {:induction false} JoinEmpty(sep: string, parts: seq<string>)
    requires sep != ""
    ensures Join(sep, parts) == "" <==> |parts| == 0 || parts == [""]
  {
    if |parts| >= 2 {
      assert |Join(sep, parts)| >= |sep|;
    }
  }

  /** `s.startswith(prefix)` */
  predicate StartsWith(s: string, prefix: string)
  {
    |prefix| <= |s| && s[..|prefix|] == prefix
  }

  /** `s.endswith(suffix)` */
  predicate EndsWith(s: string, suffix: string)
  {
    |suffix| <= |s| && s[|s| - |suffix|..] == suffix
  }

  /** `pattern in s` for two strings: `pattern` occurs as a contiguous slice. */
  predicate IsInfix(pattern: string, s: string)
  {
    |pattern| <= |s| && (s[..|pattern|] == pattern || IsInfix(pattern, s[1..]))
  }

  /** `s.find(c)`: the first index holding `c`, or -1. */
  function Find(s: string, c: char): (r: int)
    ensures -1 <= r < |s|
    ensures r == -1 <==> c !in s
    ensures r >= 0 ==> s[r] == c && c !in s[..r]
  {
    if |s| == 0 then -1
    else if s[0] == c then 0
    else
      var k := Find(s[1..], c);
      assert s == [s[0]] + s[1..];
      if k == -1 then -1
      else
        assert s[..k + 1] == [s[0]] + s[1..][..k];
        k + 1
  }

  /** `s.rfind(c)`: the last index holding `c`, or -1. */
  function RFind(s: string, c: char): (r: int)
    ensures -1 <= r < |s|
    ensures r == -1 <==> c !in s
    ensures r >= 0 ==> s[r] == c && c !in s[r + 1..]
  {
    if |s| == 0 then -1
    else if s[|s| - 1] == c then |s| - 1
    else
      var r := RFind(s[..|s| - 1], c);
      InInitOrLast(s, c);
      if r >= 0 then
        AbsentAfterInit(s, r, c);
        r
      else r
  }

  /** A character occurs in a non-empty text iff it occurs before the last
      position or at it. */
  lemma InInitOrLast(s: string, c: char)
    requires |s| >= 1
    ensures c in s <==> c in s[..|s| - 1] || s[|s| - 1] == c
  {
    assert s == s[..|s| - 1] + [s[|s| - 1]];
  }

  /** A character absent after position `r` of all but the last element,
      and not the last element either, is absent after `r` in the text. */
  lemma AbsentAfterInit(s: string, r: nat, c: char)
    requires r < |s| - 1
    requires c !in s[..|s| - 1][r + 1..] && s[|s| - 1] != c
    ensures c !in s[r + 1..]
  {
    assert s[r + 1..] == s[..|s| - 1][r + 1..] + [s[|s| - 1]];
  }

  /** `c.isspace()`: the characters Python's `str.strip()` removes. */
  predicate IsSpace(c: char)
  {
    var u := c as int;
    || 0x09 <= u <= 0x0D || 0x1C <= u <= 0x20 || u == 0x85 || u == 0xA0 || u == 0x1680
    || 0x2000 <= u <= 0x200A || u == 0x2028 || u == 0x2029 || u == 0x202F || u == 0x205F
    || u == 0x3000
  }

  /** `s.lstrip()`: the longest suffix of `s` not starting with whitespace. */
  function LStrip(s: string): (r: string)
    ensures |r| <= |s| && r == s[|s| - |r|..]
    ensures forall k :: 0 <= k < |s| - |r| ==> IsSpace(s[k])
    ensures r == "" || !IsSpace(r[0])
  {
    if |s| > 0 && IsSpace(s[0]) then LStrip(s[1..]) else s
  }

  /** `s.rstrip()`: the longest prefix of `s` not ending in whitespace. */
  function RStrip(s: string): (r: string)
    ensures |r| <= |s| && r == s[..|r|]
    ensures forall k :: |r| <= k < |s| ==> IsSpace(s[k])
    ensures r == "" || !IsSpace(r[|r| - 1])
  {
    if |s| > 0 && IsSpace(s[|s| - 1]) then RStrip(s[..|s| - 1]) else s
  }

  /** `s.strip()` */
  function Strip(s: string): string
  {
    RStrip(LStrip(s))
  }

  /** `r` is `t` with whitespace taken off both ends and nothing else: the
      contiguous slice of `t` from `i`, with only whitespace outside it and
      no whitespace at either of its ends. */
  ghost predicate StrippedAt(r: string, t: string, i: nat)
  {
    && i + |r| <= |t| && r == t[i..i + |r|]
    && (forall k :: 0 <= k < i ==> IsSpace(t[k]))
    && (forall k :: i + |r| <= k < |t| ==> IsSpace(t[k]))
    && (r == "" || (!IsSpace(r[0]) && !IsSpace(r[|r| - 1])))
  }

  /** `s.strip()` keeps the contiguous slice of the input that starts after
      the leading whitespace, removes only whitespace around it, and leaves
      neither end on whitespace. */
  lemma {:induction false} StripSlice(s: string)
    ensures StrippedAt(Strip(s), s, |s| - |LStrip(s)|)
  {
    var l := LStrip(s);
    var r := RStrip(l);
    assert Strip(s) == r;
    StrippedFrom(s, l, r);
  }

  /** The facts `lstrip` and then `rstrip` establish, put together: the
      second result is `s` stripped at the length the first one dropped. */
  lemma StrippedFrom(s: string, l: string, r: string)
    requires |l| <= |s| && l == s[|s| - |l|..]
    requires forall k :: 0 <= k < |s| - |l| ==> IsSpace(s[k])
    requires l == "" || !IsSpace(l[0])
    requires |r| <= |l| && r == l[..|r|]
    requires forall k :: |r| <= k < |l| ==> IsSpace(l[k])
    requires r == "" || !IsSpace(r[|r| - 1])
    ensures StrippedAt(r, s, |s| - |l|)
  {
    var i := |s| - |l|;
    assert s[i..][..|r|] == s[i..i + |r|];
    forall k | i + |r| <= k < |s|
      ensures IsSpace(s[k])
    {
      assert s[k] == l[k - i];
    }
  }

  /** Stripping twice strips nothing more. */
  lemma {:induction false} StripIdempotent(s: string)
    ensures Strip(Strip(s)) == Strip(s)
  {
    var r := Strip(s);
    StripSlice(s);
    assert r == "" || (!IsSpace(r[0]) && !IsSpace(r[|r| - 1]));
    if r != "" {
      assert LStrip(r) == r;
      assert RStrip(r) == r;
    }
  }

  /** The decimal digit `d` as a character. */
  function DigitChar(d: nat): (c: char)
    requires d < 10
    ensures '0' <= c <= '9'
  {
    ('0' as int + d) as char
  }

  predicate IsDigits(s: string)
  {
    forall k :: 0 <= k < |s| ==> '0' <= s[k] <= '9'
  }

  /** `str(n)` for a non-negative integer: its decimal digits, most
      significant first, without leading zeros. */
  function NatToString(n: nat): (s: string)
    ensures |s| >= 1 && IsDigits(s)
    ensures |s| > 1 ==> s[0] != '0'
  {
    if n < 10 then [DigitChar(n)] else NatToString(n / 10) + [DigitChar(n % 10)]
  }

  /** `int(s)` for a string of decimal digits. */
  function ParseDigits(s: string): nat
    requires IsDigits(s)
  {
    if s == "" then 0
    else ParseDigits(s[..|s| - 1]) * 10 + (s[|s| - 1] as int - '0' as int)
  }

  /** `int(str(n)) == n`. */
  lemma {:induction false} ParseNatToString(n: nat)
    ensures ParseDigits(NatToString(n)) == n
  {
    var s := NatToString(n);
    if n >= 10 {
      ParseNatToString(n / 10);
      assert s[..|s| - 1] == NatToString(n / 10);
    }
  }

  /** Distinct iteration numbers give distinct iteration keys. */
  lemma NatToStringInjective(a: nat, b: nat)
    ensures NatToString(a) == NatToString(b) <==> a == b
  {
    ParseNatToString(a);
    ParseNatToString(b);
  }
}
