/** JSON-shaped Python values: what `json.loads` produces and what the
    results store holds under each item id. */
module Values {
  import opened Wrappers

  /** A dictionary is kept as its ordered list of members, as Python dicts
      keep insertion order. */
  datatype Json =
    | Null
    | Bool(b: bool)
    | Num(n: real)
    | Str(s: string)
    | Arr(items: seq<Json>)
    | Obj(members: seq<(string, Json)>)

  /** Python truthiness (`if x:` / `not x`). */
  predicate Truthy(j: Json)
  {
    match j
    case Null => false
    case Bool(b) => b
    case Num(n) => n != 0.0
    case Str(s) => s != ""
    case Arr(items) => items != []
    case Obj(members) => members != []
  }

  /** `key in d` for a dictionary given by its members. */
  predicate HasKey(members: seq<(string, Json)>, key: string)
  {
    members != [] && (members[|members| - 1].0 == key || HasKey(members[..|members| - 1], key))
  }

  /** `d.get(key)`: the value of the last member with that key (when a JSON
      text repeats a key, `json.loads` keeps the last value), `None` when the
      key is absent. */
  function Lookup(members: seq<(string, Json)>, key: string): (r: Option<Json>)
    ensures r.Some? <==> HasKey(members, key)
    ensures r.Some? ==> (key, r.value) in members
  {
    if members == [] then None
    else if members[|members| - 1].0 == key then Some(members[|members| - 1].1)
    else
      var r := Lookup(members[..|members| - 1], key);
      assert r.Some? ==> members[..|members| - 1] <= members;
      r
  }

  /** Some member holds the key of the member at `i`. */
  lemma {:induction false} HasKeyAt(members: seq<(string, Json)>, i: nat)
    requires i < |members|
    ensures HasKey(members, members[i].0)
  {
    if i < |members| - 1 {
      HasKeyAt(members[..|members| - 1], i);
    }
  }

  /** `key in d` read from the front: the first member, or one of the rest. */
  lemma {:induction false} HasKeyCons(x: (string, Json), t: seq<(string, Json)>, key: string)
    ensures HasKey([x] + t, key) <==> x.0 == key || HasKey(t, key)
  {
    var s := [x] + t;
    if t == [] {
      assert s[..0] == [];
    } else {
      assert s[..|s| - 1] == [x] + t[..|t| - 1];
      HasKeyCons(x, t[..|t| - 1], key);
    }
  }

  /** `d.get(key)` read from the front: a later member with the key wins over
      the first one. */
  lemma {:induction false} LookupCons(x: (string, Json), t: seq<(string, Json)>, key: string)
    ensures Lookup([x] + t, key) ==
      if HasKey(t, key) then Lookup(t, key) else if x.0 == key then Some(x.1) else None
  {
    var s := [x] + t;
    if t == [] {
      assert s[..0] == [];
    } else {
      assert s[..|s| - 1] == [x] + t[..|t| - 1];
      LookupCons(x, t[..|t| - 1], key);
    }
  }

  /** The members whose key is not `key`, in order. */
  function Without(members: seq<(string, Json)>, key: string): (r: seq<(string, Json)>)
    ensures |r| <= |members|
  {
    if members == [] then []
    else
      var last := members[|members| - 1];
      Without(members[..|members| - 1], key) + (if last.0 == key then [] else [last])
  }

  lemma {:induction false} WithoutHasKey(members: seq<(string, Json)>, key: string, k: string)
    ensures HasKey(Without(members, key), k) <==> k != key && HasKey(members, k)
  {
    if members != [] {
      var init, last := members[..|members| - 1], members[|members| - 1];
      WithoutHasKey(init, key, k);
      var w := Without(init, key);
      if last.0 != key {
        var r := w + [last];
        assert Without(members, key) == r;
        assert r[..|r| - 1] == w && r[|r| - 1] == last;
      } else {
        assert Without(members, key) == w;
      }
    }
  }

  lemma {:induction false} WithoutLookup(members: seq<(string, Json)>, key: string, k: string)
    requires k != key
    ensures Lookup(Without(members, key), k) == Lookup(members, k)
  {
    if members != [] {
      var init, last := members[..|members| - 1], members[|members| - 1];
      WithoutLookup(init, key, k);
      var w := Without(init, key);
      if last.0 != key {
        var r := w + [last];
        assert Without(members, key) == r;
        assert r[..|r| - 1] == w && r[|r| - 1] == last;
      } else {
        assert Without(members, key) == w;
      }
    }
  }

  /** `d.items()` of the dictionary `json.loads` builds from these members: a
      key that the JSON text repeats appears once, at the place where it
      first occurs, with the value of its last occurrence. */
  function Items(members: seq<(string, Json)>): seq<(string, Json)>
    decreases |members|
  {
    if members == [] then []
    else
      var key := members[0].0;
      HasKeyAt(members, 0);
      [(key, Lookup(members, key).value)] + Items(Without(members[1..], key))
  }

  /** The items hold exactly the keys of the members. */
  lemma {:induction false} ItemsKeys(members: seq<(string, Json)>)
    ensures forall k :: HasKey(Items(members), k) <==> HasKey(members, k)
    decreases |members|
  {
    if members != [] {
      var x := members[0];
      var rest := Without(members[1..], x.0);
      ItemsKeys(rest);
      assert members == [x] + members[1..];
      HasKeyAt(members, 0);
      var first := (x.0, Lookup(members, x.0).value);
      forall k
        ensures HasKey(Items(members), k) <==> HasKey(members, k)
      {
        HasKeyCons(first, Items(rest), k);
        WithoutHasKey(members[1..], x.0, k);
        HasKeyCons(x, members[1..], k);
      }
    }
  }

  /** Each item carries the value `d[key]` has: that of the last member with
      its key. */
  lemma {:induction false} ItemsValues(members: seq<(string, Json)>)
    ensures forall i :: 0 <= i < |Items(members)| ==>
      Lookup(members, Items(members)[i].0) == Some(Items(members)[i].1)
    decreases |members|
  {
    if members != [] {
      var x := members[0];
      var rest := Without(members[1..], x.0);
      ItemsValues(rest);
      ItemsKeys(rest);
      assert members == [x] + members[1..];
      var r := Items(members);
      HasKeyAt(members, 0);
      forall i | 0 <= i < |r|
        ensures Lookup(members, r[i].0) == Some(r[i].1)
      {
        if i > 0 {
          var it := Items(rest)[i - 1];
          assert r[i] == it;
          HasKeyAt(Items(rest), i - 1);
          WithoutHasKey(members[1..], x.0, it.0);
          WithoutLookup(members[1..], x.0, it.0);
          LookupCons(x, members[1..], it.0);
        }
      }
    }
  }

  /** No key appears twice among the items. */
  lemma {:induction false} ItemsDistinct(members: seq<(string, Json)>)
    ensures forall i, j :: 0 <= i < j < |Items(members)| ==> Items(members)[i].0 != Items(members)[j].0
    decreases |members|
  {
    if members != [] {
      var x := members[0];
      var rest := Without(members[1..], x.0);
      ItemsDistinct(rest);
      ItemsKeys(rest);
      var r := Items(members);
      forall i, j | 0 <= i < j < |r|
        ensures r[i].0 != r[j].0
      {
        assert r[j] == Items(rest)[j - 1];
        if i == 0 {
          HasKeyAt(Items(rest), j - 1);
          WithoutHasKey(members[1..], x.0, r[j].0);
        } else {
          assert r[i] == Items(rest)[i - 1];
        }
      }
    }
  }

  /** A dictionary whose keys are already distinct is its own item list. */
  lemma {:induction false} ItemsOfDistinct(members: seq<(string, Json)>)
    requires forall i, j :: 0 <= i < j < |members| ==> members[i].0 != members[j].0
    ensures Items(members) == members
    decreases |members|
  {
    if members != [] {
      var x := members[0];
      var t := members[1..];
      assert members == [x] + t;
      assert !HasKey(t, x.0) by {
        if HasKey(t, x.0) {
          var j := KeyIndex(t, x.0);
          assert false;
        }
      }
      LookupCons(x, t, x.0);
      WithoutNoKey(t, x.0);
      ItemsOfDistinct(t);
    }
  }

  /** A position holding the key, when some member holds it. */
  lemma {:induction false} KeyIndex(members: seq<(string, Json)>, key: string) returns (i: nat)
    requires HasKey(members, key)
    ensures i < |members| && members[i].0 == key
  {
    if members[|members| - 1].0 == key {
      i := |members| - 1;
    } else {
      i := KeyIndex(members[..|members| - 1], key);
    }
  }

  lemma {:induction false} WithoutNoKey(members: seq<(string, Json)>, key: string)
    requires !HasKey(members, key)
    ensures Without(members, key) == members
  {
    if members != [] {
      var init := members[..|members| - 1];
      WithoutNoKey(init, key);
      assert members == init + [members[|members| - 1]];
    }
  }

  /** `d.get(key)` with the Python default `None` turned into JSON null. */
  function GetOrNull(j: Json, key: string): Json
  {
    if j.Obj? then
      match Lookup(j.members, key)
      case Some(v) => v
      case None => Null
    else Null
  }
}
