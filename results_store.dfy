/** The results store both benchmarks share:
    `results[run_index]['iterations'][str(run_iter)][field][item_id]`. */
module ResultsStore {
  import opened Wrappers
  import opened Values
  import Text

  /** item id -> stored record */
  type Entries = map<string, Json>
  /** field name (`individual_scores`, `raw_inference`, ...) -> entries */
  type Iteration = map<string, Entries>
  /** `results[run_index]`; only its `iterations` member is modelled. */
  datatype RunRecord = RunRecord(iterations: map<string, Iteration>)
  /** run_index -> run */
  type Results = map<string, RunRecord>

  const IndividualScores: string := "individual_scores"
  const RespondentAnswers: string := "respondent_answers"
  const IndividualScoresFullscale: string := "individual_scores_fullscale"
  const RawInference: string := "raw_inference"
  const TestModelResponse: string := "test_model_response"
  const JudgeModelResponse: string := "judge_model_response"

  /** `str(run_iter)` */
  function IterKey(runIter: nat): string
  {
    Text.NatToString(runIter)
  }

  /** The value of `get_iteration_template()`: each field mapped to an empty
      dictionary. */
  function Template(fields: seq<string>): (it: Iteration)
    ensures it.Keys == set f | f in fields
    ensures forall f :: f in it ==> it[f] == map[]
  {
    map f | f in fields :: map[]
  }

  /** The record stored at one path, `None` when any step of the path is
      missing. */
  function Get(res: Results, run: string, iterKey: string, field: string, id: string): Option<Json>
  {
    if run in res && iterKey in res[run].iterations && field in res[run].iterations[iterKey]
      && id in res[run].iterations[iterKey][field]
    then Some(res[run].iterations[iterKey][field][id])
    else None
  }

  /** The iteration exists and holds (at least) the given fields. */
  predicate HasIteration(res: Results, run: string, iterKey: string, fields: set<string>)
  {
    run in res && iterKey in res[run].iterations && fields <= res[run].iterations[iterKey].Keys
  }

  /** Every iteration of the run holds the benchmark's template fields, so the
      subscripts the drivers write never raise `KeyError`. */
  ghost predicate WellFormedRun(res: Results, run: string, fields: set<string>)
  {
    run in res ==> forall i :: i in res[run].iterations ==> fields <= res[run].iterations[i].Keys
  }

  /** `is_question_completed` / `is_prompt_completed`: the run exists, the
      iteration exists, and the id has an entry in that iteration's
      `individual_scores`. The requires stands for the `KeyError` the last
      subscript would raise on an iteration without that field. */
  predicate IsCompleted(res: Results, run: string, iterKey: string, id: string)
    requires run in res && iterKey in res[run].iterations ==> IndividualScores in res[run].iterations[iterKey]
    ensures IsCompleted(res, run, iterKey, id) <==> Get(res, run, iterKey, IndividualScores, id).Some?
  {
    && run in res
    && iterKey in res[run].iterations
    && id in res[run].iterations[iterKey][IndividualScores]
  }

  /** Completion of iteration `runIter`, item `id`, read through `Get`. */
  predicate Done(res: Results, run: string, runIter: nat, id: string)
  {
    Get(res, run, IterKey(runIter), IndividualScores, id).Some?
  }

  /** The set of runs, of iterations per run and of fields per iteration. */
  ghost predicate SameShape(a: Results, b: Results)
  {
    && a.Keys == b.Keys
    && forall r :: r in a ==>
         && a[r].iterations.Keys == b[r].iterations.Keys
         && forall i :: i in a[r].iterations ==> a[r].iterations[i].Keys == b[r].iterations[i].Keys
  }

  /** Every record outside item `id` of iteration `iterKey` of run `run` is
      the same in `a` and `b`. */
  ghost predicate SameItemsExcept(a: Results, b: Results, run: string, iterKey: string, id: string)
  {
    forall r, i, f, q :: !(r == run && i == iterKey && q == id) ==> Get(b, r, i, f, q) == Get(a, r, i, f, q)
  }

  /** `iter_results[field][id] = v` */
  function SetItem(res: Results, run: string, iterKey: string, field: string, id: string, v: Json): Results
    requires HasIteration(res, run, iterKey, {field})
  {
    var it := res[run].iterations[iterKey];
    res[run := RunRecord(res[run].iterations[iterKey := it[field := it[field][id := v]]])]
  }

  /** After `iter_results[field][id] = v` that record is `v`, and every other
      record, run, iteration and field is as before. */
  lemma SetItemSpec(res: Results, run: string, iterKey: string, field: string, id: string, v: Json)
    requires HasIteration(res, run, iterKey, {field})
    ensures var res' := SetItem(res, run, iterKey, field, id, v);
      && Get(res', run, iterKey, field, id) == Some(v)
      && (forall r, i, f, q :: !(r == run && i == iterKey && f == field && q == id) ==>
            Get(res', r, i, f, q) == Get(res, r, i, f, q))
      && SameShape(res, res')
  {
  }

  /** The list stored at a path, `[]` when nothing is stored there yet. */
  function ListAt(res: Results, run: string, iterKey: string, field: string, id: string): seq<Json>
  {
    match Get(res, run, iterKey, field, id)
    case Some(Arr(items)) => items
    case _ => []
  }

  /** A path holding a list after an append holds one element more. */
  lemma ListAtAppended(a: Results, b: Results, run: string, iterKey: string, field: string, id: string, v: Json)
    requires Get(b, run, iterKey, field, id) == Some(Arr(ListAt(a, run, iterKey, field, id) + [v]))
    ensures ListAt(b, run, iterKey, field, id) == ListAt(a, run, iterKey, field, id) + [v]
    ensures |ListAt(b, run, iterKey, field, id)| == |ListAt(a, run, iterKey, field, id)| + 1
  {
  }

  /** `.append` is only defined on a list: the record is absent or a list. */
  predicate ListOrAbsent(res: Results, run: string, iterKey: string, field: string, id: string)
  {
    Get(res, run, iterKey, field, id).None? || Get(res, run, iterKey, field, id).value.Arr?
  }

  /** `if id not in iter_results[field]: iter_results[field][id] = []`
      followed by `iter_results[field][id].append(v)`. */
  function AppendItem(res: Results, run: string, iterKey: string, field: string, id: string, v: Json): Results
    requires HasIteration(res, run, iterKey, {field})
    requires ListOrAbsent(res, run, iterKey, field, id)
  {
    var created := if Get(res, run, iterKey, field, id).None? then SetItem(res, run, iterKey, field, id, Arr([])) else res;
    SetItem(created, run, iterKey, field, id, Arr(ListAt(created, run, iterKey, field, id) + [v]))
  }

  /** An append adds exactly one element at the end of that list (created
      empty first when absent); nothing else changes. */
  lemma AppendItemSpec(res: Results, run: string, iterKey: string, field: string, id: string, v: Json)
    requires HasIteration(res, run, iterKey, {field})
    requires ListOrAbsent(res, run, iterKey, field, id)
    ensures var res' := AppendItem(res, run, iterKey, field, id, v);
      && Get(res', run, iterKey, field, id) == Some(Arr(ListAt(res, run, iterKey, field, id) + [v]))
      && (forall r, i, f, q :: !(r == run && i == iterKey && f == field && q == id) ==>
            Get(res', r, i, f, q) == Get(res, r, i, f, q))
      && SameShape(res, res')
  {
    var created := if Get(res, run, iterKey, field, id).None? then SetItem(res, run, iterKey, field, id, Arr([])) else res;
    if Get(res, run, iterKey, field, id).None? {
      SetItemSpec(res, run, iterKey, field, id, Arr([]));
    }
    assert ListAt(created, run, iterKey, field, id) == ListAt(res, run, iterKey, field, id);
    SetItemSpec(created, run, iterKey, field, id, Arr(ListAt(created, run, iterKey, field, id) + [v]));
    SameShapeTransitive(res, created, AppendItem(res, run, iterKey, field, id, v));
  }

  /** The stand-in for `initialize_results()`: the run gets a record if it has
      none, and each iteration "1".."n" it lacks gets a fresh template. */
  function EnsureIterations(res: Results, run: string, n: int, fields: seq<string>): Results
    requires WellFormedRun(res, run, set f | f in fields)
  {
    var existing := if run in res then res[run].iterations else map[];
    var wanted := set k: nat | 1 <= k <= n :: IterKey(k);
    var its := map i | i in existing.Keys + wanted :: if i in existing then existing[i] else Template(fields);
    res[run := RunRecord(its)]
  }

  /** `initialize_results()` creates the run and the iterations 1..n, each
      with the template fields; no existing run, iteration or record is
      touched. */
  lemma EnsureIterationsSpec(res: Results, run: string, n: int, fields: seq<string>)
    requires WellFormedRun(res, run, set f | f in fields)
    ensures var res' := EnsureIterations(res, run, n, fields);
      && run in res' && res'.Keys == res.Keys + {run}
      && (forall k: nat :: 1 <= k <= n ==> HasIteration(res', run, IterKey(k), set f | f in fields))
      && WellFormedRun(res', run, set f | f in fields)
      && (forall r, i, f, q :: Get(res', r, i, f, q) == Get(res, r, i, f, q))
      && (forall r, i :: HasIteration(res, r, i, {}) ==>
            HasIteration(res', r, i, {}) && res'[r].iterations[i] == res[r].iterations[i])
  {
    EnsureIterationsKeeps(res, run, n, fields);
    EnsureIterationsCreates(res, run, n, fields);
    EnsureIterationsRecords(res, run, n, fields);
  }

  lemma EnsureIterationsKeeps(res: Results, run: string, n: int, fields: seq<string>)
    requires WellFormedRun(res, run, set f | f in fields)
    ensures var res' := EnsureIterations(res, run, n, fields);
      && run in res' && res'.Keys == res.Keys + {run}
      && (forall r, i :: HasIteration(res, r, i, {}) ==>
            HasIteration(res', r, i, {}) && res'[r].iterations[i] == res[r].iterations[i])
  {
  }

  lemma EnsureIterationsCreates(res: Results, run: string, n: int, fields: seq<string>)
    requires WellFormedRun(res, run, set f | f in fields)
    ensures var res' := EnsureIterations(res, run, n, fields);
      && (forall k: nat :: 1 <= k <= n ==> HasIteration(res', run, IterKey(k), set f | f in fields))
      && WellFormedRun(res', run, set f | f in fields)
  {
    var wanted := set k: nat | 1 <= k <= n :: IterKey(k);
    assert forall k: nat :: 1 <= k <= n ==> IterKey(k) in wanted;
  }

  lemma EnsureIterationsRecords(res: Results, run: string, n: int, fields: seq<string>)
    requires WellFormedRun(res, run, set f | f in fields)
    ensures var res' := EnsureIterations(res, run, n, fields);
      forall r, i, f, q :: Get(res', r, i, f, q) == Get(res, r, i, f, q)
  {
  }

  /** Once the run and its iterations 1..n exist, `initialize_results`
      changes nothing. */
  lemma EnsureIterationsIdle(res: Results, run: string, n: int, fields: seq<string>)
    requires WellFormedRun(res, run, set f | f in fields)
    requires run in res && forall k: nat :: 1 <= k <= n ==> IterKey(k) in res[run].iterations
    ensures EnsureIterations(res, run, n, fields) == res
  {
    var existing := res[run].iterations;
    var wanted := set k: nat | 1 <= k <= n :: IterKey(k);
    assert wanted <= existing.Keys;
    var its := map i | i in existing.Keys + wanted :: if i in existing then existing[i] else Template(fields);
    assert its == existing;
    assert res[run := RunRecord(existing)] == res;
  }

  /** Stores of the same shape hold the same iterations and fields. */
  lemma SameShapeHasIteration(a: Results, b: Results, run: string, iterKey: string, fields: set<string>)
    requires SameShape(a, b)
    ensures HasIteration(a, run, iterKey, fields) <==> HasIteration(b, run, iterKey, fields)
  {
  }

  lemma SameShapeTransitive(a: Results, b: Results, c: Results)
    requires SameShape(a, b) && SameShape(b, c)
    ensures SameShape(a, c)
  {
  }

  /** Well-formedness only depends on the shape. */
  lemma SameShapeWellFormed(a: Results, b: Results, run: string, fields: set<string>)
    requires SameShape(a, b)
    ensures WellFormedRun(a, run, fields) <==> WellFormedRun(b, run, fields)
  {
  }

  /** A benchmark's items (questions, writing prompts) as the JSON object
      they are loaded from: (id, item) members in file order. Object keys
      are unique. */
  predicate DistinctIds<T>(items: seq<(string, T)>)
  {
    forall a, b :: 0 <= a < b < |items| ==> items[a].0 != items[b].0
  }

  /** The item ids in file order. */
  function Ids<T>(items: seq<(string, T)>): (ids: seq<string>)
    ensures |ids| == |items|
    ensures forall k :: 0 <= k < |ids| ==> ids[k] == items[k].0
  {
    seq(|items|, k requires 0 <= k < |items| => items[k].0)
  }

  /** The item an id names (the first member with that id). */
  function Named<T>(items: seq<(string, T)>, id: string): T
    requires id in Ids(items)
  {
    if items[0].0 == id then items[0].1
    else
      assert id in Ids(items[1..]) by {
        var k :| 0 <= k < |items| && Ids(items)[k] == id;
        assert Ids(items[1..])[k - 1] == id;
      }
      Named(items[1..], id)
  }

  /** With distinct ids, the item named by an id is the one stored under
      it. */
  lemma {:induction false} NamedAt<T>(items: seq<(string, T)>, k: nat)
    requires DistinctIds(items) && k < |items|
    ensures items[k].0 in Ids(items)
    ensures Named(items, items[k].0) == items[k].1
  {
    assert Ids(items)[k] == items[k].0;
    if k > 0 {
      assert DistinctIds(items[1..]);
      NamedAt(items[1..], k - 1);
    }
  }

  /** The number of iterations `range(1, n + 1)` visits: none for n <= 0. */
  function IterationCount(n: int): nat
  {
    if n < 0 then 0 else n
  }

  /** The (iteration, id) pairs of iteration `runIter` that are not completed,
      in the order of `ids`. */
  function PendingIn(res: Results, run: string, runIter: nat, ids: seq<string>): seq<(nat, string)>
  {
    if ids == [] then []
    else
      PendingIn(res, run, runIter, ids[..|ids| - 1])
        + (if Done(res, run, runIter, ids[|ids| - 1]) then [] else [(runIter, ids[|ids| - 1])])
  }

  /** Looking at one more id adds its pair exactly when it is not
      completed. */
  lemma PendingInExtend(res: Results, run: string, runIter: nat, before: seq<(nat, string)>, ids: seq<string>, j: nat)
    requires j < |ids|
    ensures before + PendingIn(res, run, runIter, ids[..j + 1])
         == before + PendingIn(res, run, runIter, ids[..j])
            + (if Done(res, run, runIter, ids[j]) then [] else [(runIter, ids[j])])
  {
    assert ids[..j + 1][..j] == ids[..j];
  }

  /** The pairs of iterations 1..n, in iteration order, whose item is not
      completed: the work a run over `res` has left. */
  function Pending(res: Results, run: string, n: nat, ids: seq<string>): seq<(nat, string)>
  {
    if n == 0 then [] else Pending(res, run, n - 1, ids) + PendingIn(res, run, n, ids)
  }

  /** An iteration whose ids have all been looked at closes `Pending`, and
      the next one starts from it with nothing added. */
  lemma PendingIterationBoundary(res: Results, run: string, r: nat, ids: seq<string>)
    requires r >= 1
    ensures Pending(res, run, r - 1, ids) + PendingIn(res, run, r, ids[..|ids|]) == Pending(res, run, r, ids)
    ensures Pending(res, run, r, ids) + PendingIn(res, run, r + 1, ids[..0]) == Pending(res, run, r, ids)
  {
    assert ids[..|ids|] == ids;
    assert ids[..0] == [];
  }

  /** Nothing is pending before the first item of the first iteration. */
  lemma PendingFirstIteration(res: Results, run: string, r: nat, ids: seq<string>)
    requires r == 1
    ensures Pending(res, run, r - 1, ids) + PendingIn(res, run, r, ids[..0]) == []
  {
  }

  /** The pending pairs of iterations up to `r - 1`, all of whose `m` items
      have been looked at, are those before the first item of iteration
      `r`. */
  lemma PendingNextIteration(res: Results, run: string, r: nat, ids: seq<string>, m: nat, done: seq<(nat, string)>)
    requires r >= 2 && m == |ids|
    requires done == Pending(res, run, r - 1 - 1, ids) + PendingIn(res, run, r - 1, ids[..m])
    ensures done == Pending(res, run, r - 1, ids) + PendingIn(res, run, r, ids[..0])
  {
    assert ids[..m] == ids;
  }

  /** The pairs pending in `b` after its last iteration are those pending in
      any store that agrees with `b` on what is completed. */
  lemma PendingAfterLast(a: Results, b: Results, run: string, n: nat, ids: seq<string>, done: seq<(nat, string)>, last: nat, m: nat)
    requires forall k: nat, q :: 1 <= k <= n && q in ids ==> Done(a, run, k, q) == Done(b, run, k, q)
    requires n == 0 ==> done == []
    requires n >= 1 ==> last == n && m == |ids| && done == Pending(b, run, last - 1, ids) + PendingIn(b, run, last, ids[..m])
    ensures done == Pending(a, run, n, ids)
  {
    PendingSameDone(a, b, run, n, ids);
    if n >= 1 {
      assert ids[..|ids|] == ids;
    }
  }

  lemma {:induction false} PendingInMembership(res: Results, run: string, runIter: nat, ids: seq<string>, p: (nat, string))
    ensures p in PendingIn(res, run, runIter, ids) <==> p.0 == runIter && p.1 in ids && !Done(res, run, runIter, p.1)
  {
    if ids != [] {
      var init := ids[..|ids| - 1];
      PendingInMembership(res, run, runIter, init, p);
      assert ids == init + [ids[|ids| - 1]];
    }
  }

  /** A pair is pending exactly when its iteration is one of 1..n, its id is
      one of the items and the store does not record it as completed: a
      resumed run redoes all unfinished work and nothing else. */
  lemma {:induction false} PendingMembership(res: Results, run: string, n: nat, ids: seq<string>, p: (nat, string))
    ensures p in Pending(res, run, n, ids) <==> 1 <= p.0 <= n && p.1 in ids && !Done(res, run, p.0, p.1)
  {
    if n > 0 {
      PendingMembership(res, run, n - 1, ids, p);
      PendingInMembership(res, run, n, ids, p);
    }
  }

  /** Over a store that holds nothing for the run, every (iteration, item)
      pair is pending: n * |ids| of them. */
  lemma {:induction false} PendingFreshRun(res: Results, run: string, n: nat, ids: seq<string>)
    requires run !in res
    ensures |Pending(res, run, n, ids)| == n * |ids|
  {
    if n > 0 {
      PendingFreshRun(res, run, n - 1, ids);
      PendingInFresh(res, run, n, ids);
      assert n * |ids| == (n - 1) * |ids| + |ids|;
    }
  }

  lemma {:induction false} PendingInFresh(res: Results, run: string, runIter: nat, ids: seq<string>)
    requires run !in res
    ensures |PendingIn(res, run, runIter, ids)| == |ids|
  {
    if ids != [] {
      PendingInFresh(res, run, runIter, ids[..|ids| - 1]);
    }
  }

  /** Only `Done` of the pairs decides `PendingIn`. */
  lemma {:induction false} PendingInSameDone(a: Results, b: Results, run: string, runIter: nat, ids: seq<string>)
    requires forall q :: q in ids ==> Done(a, run, runIter, q) == Done(b, run, runIter, q)
    ensures PendingIn(a, run, runIter, ids) == PendingIn(b, run, runIter, ids)
  {
    if ids != [] {
      PendingInSameDone(a, b, run, runIter, ids[..|ids| - 1]);
    }
  }

  /** Only `Done` of the pairs decides `Pending`. */
  lemma {:induction false} PendingSameDone(a: Results, b: Results, run: string, n: nat, ids: seq<string>)
    requires forall k: nat, q :: 1 <= k <= n && q in ids ==> Done(a, run, k, q) == Done(b, run, k, q)
    ensures Pending(a, run, n, ids) == Pending(b, run, n, ids)
  {
    if n > 0 {
      PendingSameDone(a, b, run, n - 1, ids);
      PendingInSameDone(a, b, run, n, ids);
    }
  }

  /** Pending work only grows as more iterations or items are considered. */
  lemma {:induction false} PendingInPrefix(res: Results, run: string, runIter: nat, ids: seq<string>, j: nat)
    requires j <= |ids|
    ensures PendingIn(res, run, runIter, ids[..j]) <= PendingIn(res, run, runIter, ids)
  {
    if j < |ids| {
      PendingInPrefix(res, run, runIter, ids[..|ids| - 1], j);
      assert ids[..|ids| - 1][..j] == ids[..j];
    } else {
      assert ids[..j] == ids;
    }
  }

  lemma {:induction false} PendingPrefix(res: Results, run: string, m: nat, n: nat, ids: seq<string>)
    requires m <= n
    ensures Pending(res, run, m, ids) <= Pending(res, run, n, ids)
  {
    if m < n {
      PendingPrefix(res, run, m, n - 1, ids);
    }
  }
}
