/** The clean-up `process_v3_prompt` applies to a v3 reply before decoding
    it, and `parse_v3_answers`. */
module V3Response {
  import opened Wrappers
  import opened Values
  import opened Text

  const JsonFence: string := "```json"
  const Fence: string := "```"

  /** `if inference.startswith('```json'): inference = inference[7:].strip()` */
  function DropOpeningFence(s: string): string
  {
    if StartsWith(s, JsonFence) then Strip(s[|JsonFence|..]) else s
  }

  /** `if inference.endswith('```'): inference = inference[:-3].strip()` */
  function DropClosingFence(s: string): string
  {
    if EndsWith(s, Fence) then Strip(s[..|s| - |Fence|]) else s
  }

  /** `inference[start_index:end_index+1]` when both a '{' and a '}' occur,
      the text unchanged otherwise. A Python slice whose start lies past its
      end is empty, which is what happens when the last '}' comes before the
      first '{'. */
  function BraceSpan(s: string): string
  {
    var start, end := Find(s, '{'), RFind(s, '}');
    if start != -1 && end != -1 then
      if start <= end then s[start..end + 1] else ""
    else s
  }

  /** The whole clean-up, in the source's order. */
  function CleanV3Reply(s: string): string
  {
    BraceSpan(DropClosingFence(DropOpeningFence(s)))
  }

  /** A text holding both braces, the first '{' before the last '}', is cut to
      the span from that '{' to that '}' inclusive: the result opens with '{',
      closes with '}', and nothing cut away held a '{' before it or a '}'
      after it. */
  lemma {:induction false} BraceSpanBothPresent(s: string)
    requires '{' in s && '}' in s && Find(s, '{') <= RFind(s, '}')
    ensures var r, start, end := BraceSpan(s), Find(s, '{'), RFind(s, '}');
      && r == s[start..end + 1]
      && |r| >= 1 && r[0] == '{' && r[|r| - 1] == '}'
      && '{' !in s[..start] && '}' !in s[end + 1..]
  {
    var start, end := Find(s, '{'), RFind(s, '}');
    BraceSpanAt(s, start, end);
    SliceEnds(s, start, end);
  }

  lemma SliceEnds(s: string, start: nat, end: nat)
    requires start <= end < |s|
    ensures var r := s[start..end + 1]; |r| >= 1 && r[0] == s[start] && r[|r| - 1] == s[end]
  {
  }

  /** When the last '}' precedes the first '{', the span is empty. */
  lemma {:induction false} BraceSpanReversed(s: string)
    requires '{' in s && '}' in s && RFind(s, '}') < Find(s, '{')
    ensures BraceSpan(s) == ""
  {
  }

  /** Without a '{' or without a '}', the text is left as it is. */
  lemma {:induction false} BraceSpanAbsent(s: string)
    requires '{' !in s || '}' !in s
    ensures BraceSpan(s) == s
  {
  }

  /** Cutting to the brace span a second time changes nothing. */
  lemma {:induction false} BraceSpanIdempotent(s: string)
    ensures BraceSpan(BraceSpan(s)) == BraceSpan(s)
  {
    var start, end := Find(s, '{'), RFind(s, '}');
    if start != -1 && end != -1 && start <= end {
      var r := s[start..end + 1];
      assert r[0] == '{' && r[|r| - 1] == '}';
      assert Find(r, '{') == 0;
      assert RFind(r, '}') == |r| - 1;
      assert r[0..|r|] == r;
    }
  }

  /** A leading ```` ```json ```` is removed together with the whitespace
      around what follows it: the result is a contiguous slice of the text
      after the 7-character fence, everything else dropped is whitespace,
      and neither end of the result is whitespace. A text without the fence
      passes unchanged. */
  lemma {:induction false} DropOpeningFenceSpec(s: string)
    ensures StartsWith(s, JsonFence) ==>
      exists i: nat :: StrippedAt(DropOpeningFence(s), s[7..], i)
    ensures !StartsWith(s, JsonFence) ==> DropOpeningFence(s) == s
  {
    if StartsWith(s, JsonFence) {
      var rest := s[7..];
      StripSlice(rest);
      assert StrippedAt(DropOpeningFence(s), rest, |rest| - |LStrip(rest)|);
    }
  }

  /** A trailing ```` ``` ```` is removed together with the whitespace
      around what precedes it: the result is a contiguous slice of the text
      before the 3-character fence, everything else dropped is whitespace,
      and neither end of the result is whitespace. A text without the fence
      passes unchanged. */
  lemma {:induction false} DropClosingFenceSpec(s: string)
    ensures EndsWith(s, Fence) ==>
      var before := s[..|s| - 3];
      exists i: nat :: StrippedAt(DropClosingFence(s), before, i)
    ensures !EndsWith(s, Fence) ==> DropClosingFence(s) == s
  {
    if EndsWith(s, Fence) {
      var rest := s[..|s| - 3];
      StripSlice(rest);
      assert StrippedAt(DropClosingFence(s), rest, |rest| - |LStrip(rest)|);
    }
  }

  /** After the fences are gone, a text holding a '{' before its last '}'
      is cleaned to a JSON-object-shaped span: it opens with that first '{'
      and closes with that last '}'. A text lacking either brace is
      returned as the fence removal left it. */
  lemma {:induction false} CleanV3ReplyBraces(s: string)
    ensures var t := DropClosingFence(DropOpeningFence(s));
      && ('{' in t && '}' in t && Find(t, '{') <= RFind(t, '}') ==>
            var r := CleanV3Reply(s);
            && r == t[Find(t, '{')..RFind(t, '}') + 1]
            && |r| >= 1 && r[0] == '{' && r[|r| - 1] == '}')
      && ('{' !in t || '}' !in t ==> CleanV3Reply(s) == t)
  {
    BraceSpanCases(DropClosingFence(DropOpeningFence(s)));
  }

  lemma {:induction false} BraceSpanCases(t: string)
    ensures '{' in t && '}' in t && Find(t, '{') <= RFind(t, '}') ==>
      var r := BraceSpan(t);
      && r == t[Find(t, '{')..RFind(t, '}') + 1]
      && |r| >= 1 && r[0] == '{' && r[|r| - 1] == '}'
    ensures '{' !in t || '}' !in t ==> BraceSpan(t) == t
  {
    if '{' in t && '}' in t && Find(t, '{') <= RFind(t, '}') {
      BraceSpanBothPresent(t);
    }
  }

  /** A fenced reply with prose in front is reduced to the JSON object:
      "Here you go:\n```json\n{\"a\":1}\n```" becomes "{\"a\":1}". */
  lemma CleanFencedReplyExample()
    ensures CleanV3Reply("Here you go:\n```json\n{\"a\":1}\n```") == "{\"a\":1}"
  {
    var s := "Here you go:\n```json\n{\"a\":1}\n```";
    var u := "Here you go:\n```json\n{\"a\":1}";
    assert !StartsWith(s, JsonFence) by { assert s[0] != JsonFence[0]; }
    ExampleClosingFence(s, u);
    ExampleBraceSpan(u);
  }

  lemma ExampleClosingFence(s: string, u: string)
    requires s == "Here you go:\n```json\n{\"a\":1}\n```"
    requires u == "Here you go:\n```json\n{\"a\":1}"
    ensures DropClosingFence(s) == u
  {
    assert EndsWith(s, Fence) by { assert s[29..] == Fence; }
    var t := s[..29];
    assert t == u + "\n";
    assert !IsSpace(t[0]);
    assert LStrip(t) == t;
    assert IsSpace(t[28]);
    assert t[..28] == u;
    assert !IsSpace(u[27]);
    assert RStrip(u) == u;
    assert RStrip(t) == u;
  }

  lemma ExampleBraceSpan(u: string)
    requires u == "Here you go:\n```json\n{\"a\":1}"
    ensures BraceSpan(u) == "{\"a\":1}"
  {
    ExampleFind(u);
    ExampleRFind(u);
    BraceSpanAt(u, 21, 27);
    ExampleSlice(u);
  }

  lemma {:induction false} BraceSpanAt(u: string, start: nat, end: nat)
    requires start <= end < |u|
    requires Find(u, '{') == start && RFind(u, '}') == end
    ensures BraceSpan(u) == u[start..end + 1]
  {
  }

  lemma ExampleSlice(u: string)
    requires u == "Here you go:\n```json\n{\"a\":1}"
    ensures u[21..28] == "{\"a\":1}"
  {
  }

  lemma ExampleFind(u: string)
    requires u == "Here you go:\n```json\n{\"a\":1}"
    ensures Find(u, '{') == 21
  {
    var prose := "Here you go:\n```json\n";
    assert u[..21] == prose;
    assert forall i :: 0 <= i < |prose| ==> prose[i] != '{';
    assert u[21] == '{';
  }

  lemma ExampleRFind(u: string)
    requires u == "Here you go:\n```json\n{\"a\":1}"
    ensures RFind(u, '}') == 27
  {
    assert u[27] == '}' && |u| == 28;
  }

  /** `parse_v3_answers`: `json.loads(inference)`, with a decode error turned
      into `None` rather than raised. `decode` stands for `json.loads` and
      answers `None` where it would raise `JSONDecodeError`. */
  function ParseV3Answers(decode: string -> Option<Json>, inference: string): (r: Json)
    ensures decode(inference).None? ==> r == Null
    ensures decode(inference).Some? ==> r == decode(inference).value
  {
    match decode(inference)
    case Some(v) => v
    case None => Null
  }
}
