/** EQ-Bench v3 scoring (`calculate_v3_score`, the v3 branch of
    `calculate_question_score`) and the parseability check of
    `print_results`. Python floats are modelled as reals. */
module Scoring {
  import opened Wrappers
  import opened Values
  import Text

  /** The calibration constant of the v3 rubric. */
  const AdjustConst: real := 0.7477
  /** The score of an answer that matches the reference exactly. */
  const MaxScore: real := 10.0
  /** Below this fraction of parseable questions the run is reported failed. */
  const ParseableThreshold: real := 0.8333

  function Abs(x: real): (r: real)
    ensures r >= 0.0 && (r == x || r == -x)
  {
    if x < 0.0 then -x else x
  }

  /** `float(v)`; `parseFloat` stands for `float()` on a string and answers
      `None` where it would raise `ValueError`. */
  function ToFloat(parseFloat: string -> Option<real>, v: Json): Attempt<real>
  {
    match v
    case Num(n) => Returned(n)
    case Bool(b) => Returned(if b then 1.0 else 0.0)
    case Str(s) => if parseFloat(s).Some? then Returned(parseFloat(s).value) else Raised
    case _ => Raised
  }

  /** `key in user`: a key of a dict, an element of a list, a substring of a
      string; a number or a boolean raises `TypeError`. */
  function Contains(user: Json, key: string): Attempt<bool>
  {
    match user
    case Obj(members) => Returned(HasKey(members, key))
    case Arr(items) => Returned(Str(key) in items)
    case Str(s) => Returned(Text.IsInfix(key, s))
    case _ => Raised
  }

  /** `user[key]` once `key in user` holds: only a dict can be indexed by a
      string. */
  function Index(user: Json, key: string): Attempt<Json>
  {
    if user.Obj? && Lookup(user.members, key).Some? then Returned(Lookup(user.members, key).value)
    else Raised
  }

  /** What one reference member adds to `difference_tally`: nothing when the
      key is not in the answer, `abs(float(user[key]) - float(ref_score))`
      otherwise. */
  function Difference(parseFloat: string -> Option<real>, user: Json, key: string, refScore: Json): Attempt<real>
  {
    match Contains(user, key)
    case Raised => Raised
    case Returned(present) =>
      if !present then Returned(0.0)
      else
        match Index(user, key)
        case Raised => Raised
        case Returned(v) =>
          match ToFloat(parseFloat, v)
          case Raised => Raised
          case Returned(x) =>
            match ToFloat(parseFloat, refScore)
            case Raised => Raised
            case Returned(y) => Returned(Abs(x - y))
  }

  /** `difference_tally` after the loop over the given reference members. */
  function Tally(parseFloat: string -> Option<real>, reference: seq<(string, Json)>, user: Json): Attempt<real>
  {
    if reference == [] then Returned(0.0)
    else
      var last := reference[|reference| - 1];
      match Tally(parseFloat, reference[..|reference| - 1], user)
      case Raised => Raised
      case Returned(t) =>
        match Difference(parseFloat, user, last.0, last.1)
        case Raised => Raised
        case Returned(d) => Returned(t + d)
  }

  /** `calculate_v3_score(reference, user)`: the loop runs over
      `reference.items()`, so a key the reference's JSON text repeats is
      counted once, with its last value. */
  function V3Score(parseFloat: string -> Option<real>, reference: Json, user: Json): Attempt<Option<real>>
  {
    if !Truthy(user) then Returned(None)
    else if !reference.Obj? then Raised
    else
      match Tally(parseFloat, Items(reference.members), user)
      case Raised => Raised
      case Returned(t) => Returned(Some(MaxScore - t * AdjustConst))
  }

  /** Once a prefix of the reference raises, the whole loop raises. */
  lemma {:induction false} TallyRaisedPrefix(parseFloat: string -> Option<real>, reference: seq<(string, Json)>, user: Json, i: nat)
    requires i <= |reference|
    requires Tally(parseFloat, reference[..i], user).Raised?
    ensures Tally(parseFloat, reference, user).Raised?
  {
    if i < |reference| {
      var init := reference[..|reference| - 1];
      assert init[..i] == reference[..i];
      TallyRaisedPrefix(parseFloat, init, user, i);
    } else {
      assert reference[..i] == reference;
    }
  }

  /** One more reference member adds its difference to the tally, or raises. */
  lemma TallyExtend(parseFloat: string -> Option<real>, reference: seq<(string, Json)>, user: Json, i: nat)
    requires i < |reference|
    ensures var d := Difference(parseFloat, user, reference[i].0, reference[i].1);
      Tally(parseFloat, reference[..i + 1], user) ==
        match Tally(parseFloat, reference[..i], user)
        case Raised => Raised
        case Returned(t) => if d.Raised? then Raised else Returned(t + d.value)
  {
    assert reference[..i + 1][..i] == reference[..i];
  }

  /** `calculate_v3_score`, with its accumulation loop. */
  method CalculateV3Score(parseFloat: string -> Option<real>, reference: Json, user: Json) returns (r: Attempt<Option<real>>)
    ensures r == V3Score(parseFloat, reference, user)
  {
    if !Truthy(user) {
      return Returned(None);
    }
    if !reference.Obj? {
      return Raised;
    }
    var members := Items(reference.members);
    var tally := 0.0;
    var i := 0;
    while i < |members|
      invariant 0 <= i <= |members|
      invariant Tally(parseFloat, members[..i], user) == Returned(tally)
    {
      TallyExtend(parseFloat, members, user, i);
      var key, refScore := members[i].0, members[i].1;
      var d := Difference(parseFloat, user, key, refScore);
      if d.Raised? {
        TallyRaisedPrefix(parseFloat, members, user, i + 1);
        return Raised;
      }
      tally := tally + d.value;
      i := i + 1;
    }
    assert members[..i] == members;
    r := Returned(Some(MaxScore - tally * AdjustConst));
  }

  lemma {:induction false} TallyNonNegative(parseFloat: string -> Option<real>, reference: seq<(string, Json)>, user: Json)
    ensures Tally(parseFloat, reference, user).Returned? ==> Tally(parseFloat, reference, user).value >= 0.0
  {
    if reference != [] {
      TallyNonNegative(parseFloat, reference[..|reference| - 1], user);
    }
  }

  /** A v3 score never exceeds 10. */
  lemma V3ScoreAtMostTen(parseFloat: string -> Option<real>, reference: Json, user: Json)
    ensures var r := V3Score(parseFloat, reference, user);
      r.Returned? && r.value.Some? ==> r.value.value <= MaxScore
  {
    if Truthy(user) && reference.Obj? {
      TallyNonNegative(parseFloat, Items(reference.members), user);
    }
  }

  /** An empty or falsy answer scores `None`, never 0 and never an
      exception; a truthy one never scores `None`. */
  lemma V3ScoreAbsence(parseFloat: string -> Option<real>, reference: Json, user: Json)
    ensures V3Score(parseFloat, reference, user) == Returned(None) <==> !Truthy(user)
  {
  }

  /** The reference members whose key the (dict) answer holds. */
  function PresentKeys(reference: seq<(string, Json)>, user: seq<(string, Json)>): seq<(string, Json)>
  {
    if reference == [] then []
    else
      var last := reference[|reference| - 1];
      PresentKeys(reference[..|reference| - 1], user) + (if HasKey(user, last.0) then [last] else [])
  }

  /** Reference keys missing from a dict answer contribute nothing: the tally
      is the same as over the keys the answer holds. */
  lemma {:induction false} TallyOverPresentKeys(parseFloat: string -> Option<real>, reference: seq<(string, Json)>, user: seq<(string, Json)>)
    ensures Tally(parseFloat, reference, Obj(user)) == Tally(parseFloat, PresentKeys(reference, user), Obj(user))
  {
    if reference != [] {
      var init, last := reference[..|reference| - 1], reference[|reference| - 1];
      TallyOverPresentKeys(parseFloat, init, user);
      var p := PresentKeys(init, user);
      if HasKey(user, last.0) {
        var q := p + [last];
        assert PresentKeys(reference, user) == q;
        assert q[..|q| - 1] == p && q[|q| - 1] == last;
      } else {
        assert PresentKeys(reference, user) == p;
        assert Difference(parseFloat, Obj(user), last.0, last.1) == Returned(0.0);
      }
    }
  }

  /** Reference {a: 5, b: 3} against the answer {a: 4, b: 3}: the tally is 1
      and the score 10 - 0.7477 = 9.2523. */
  lemma V3ScoreWorkedExample(parseFloat: string -> Option<real>)
    ensures V3Score(parseFloat, Obj([("a", Num(5.0)), ("b", Num(3.0))]), Obj([("a", Num(4.0)), ("b", Num(3.0))]))
            == Returned(Some(9.2523))
  {
    var reference := [("a", Num(5.0)), ("b", Num(3.0))];
    var user := Obj([("a", Num(4.0)), ("b", Num(3.0))]);
    ItemsOfDistinct(reference);
    assert reference[..1] == [("a", Num(5.0))];
    assert Tally(parseFloat, [], user) == Returned(0.0);
    assert Tally(parseFloat, reference[..1], user) == Returned(1.0);
    assert Tally(parseFloat, reference, user) == Returned(1.0);
  }

  /** A reference whose JSON text repeats a key is read as the dict
      `json.loads` builds: {"a": 1, "a": 3} is {"a": 3}, so the answer
      {"a": 3} matches it exactly and scores 10. */
  lemma V3ScoreRepeatedReferenceKey(parseFloat: string -> Option<real>)
    ensures V3Score(parseFloat, Obj([("a", Num(1.0)), ("a", Num(3.0))]), Obj([("a", Num(3.0))]))
            == Returned(Some(10.0))
  {
    var members := [("a", Num(1.0)), ("a", Num(3.0))];
    var user := Obj([("a", Num(3.0))]);
    var tail := members[1..];
    assert tail[..0] == [];
    assert Without(tail, "a") == [];
    assert Lookup(members, "a") == Some(Num(3.0));
    var items := [("a", Num(3.0))];
    assert Items(members) == items;
    assert items[..0] == [];
    assert Difference(parseFloat, user, "a", Num(3.0)) == Returned(0.0);
    assert Tally(parseFloat, items, user) == Returned(0.0);
  }

  /** `[calculate_v3_score(reference, user) for user in user_answers]` */
  function V3Scores(parseFloat: string -> Option<real>, reference: Json, answers: seq<Json>): (r: Attempt<seq<Option<real>>>)
    ensures r.Returned? ==> |r.value| == |answers|
  {
    if answers == [] then Returned([])
    else
      match V3Scores(parseFloat, reference, answers[..|answers| - 1])
      case Raised => Raised
      case Returned(init) =>
        match V3Score(parseFloat, reference, answers[|answers| - 1])
        case Raised => Raised
        case Returned(s) => Returned(init + [s])
  }

  /** `sum(score for score in scores if score is not None)` */
  function SumPresent(scores: seq<Option<real>>): real
  {
    if scores == [] then 0.0
    else
      SumPresent(scores[..|scores| - 1])
        + (match scores[|scores| - 1] case Some(x) => x case None => 0.0)
  }

  /** The v3 branch of `calculate_question_score`: the sum of the present
      scores divided by the number of ALL scores, `None` for no answers. */
  function QuestionScoreV3(parseFloat: string -> Option<real>, reference: Json, answers: seq<Json>): Attempt<Option<real>>
  {
    match V3Scores(parseFloat, reference, answers)
    case Raised => Raised
    case Returned(scores) =>
      if scores == [] then Returned(None)
      else Returned(Some(SumPresent(scores) / |scores| as real))
  }

  lemma {:induction false} SumPresentAtMost(scores: seq<Option<real>>, bound: real)
    requires bound >= 0.0
    requires forall k :: 0 <= k < |scores| && scores[k].Some? ==> scores[k].value <= bound
    ensures SumPresent(scores) <= bound * |scores| as real
  {
    if scores != [] {
      SumPresentAtMost(scores[..|scores| - 1], bound);
    }
  }

  /** Each listed score is the score of the answer at the same position. */
  lemma {:induction false} V3ScoresAt(parseFloat: string -> Option<real>, reference: Json, answers: seq<Json>, k: nat)
    requires V3Scores(parseFloat, reference, answers).Returned? && k < |answers|
    ensures V3Score(parseFloat, reference, answers[k]) == Returned(V3Scores(parseFloat, reference, answers).value[k])
  {
    var init := answers[..|answers| - 1];
    if k < |answers| - 1 {
      V3ScoresAt(parseFloat, reference, init, k);
    }
  }

  /** Every score in the list is at most 10. */
  lemma V3ScoresAtMostTen(parseFloat: string -> Option<real>, reference: Json, answers: seq<Json>)
    requires V3Scores(parseFloat, reference, answers).Returned?
    ensures var scores := V3Scores(parseFloat, reference, answers).value;
      forall k :: 0 <= k < |scores| && scores[k].Some? ==> scores[k].value <= MaxScore
  {
    var scores := V3Scores(parseFloat, reference, answers).value;
    forall k | 0 <= k < |scores| && scores[k].Some?
      ensures scores[k].value <= MaxScore
    {
      V3ScoresAt(parseFloat, reference, answers, k);
      V3ScoreAtMostTen(parseFloat, reference, answers[k]);
    }
  }

  lemma MeanAtMost(sum: real, n: real, bound: real)
    requires n > 0.0 && sum <= bound * n
    ensures sum / n <= bound
  {
  }

  /** A question's v3 score never exceeds 10 either. */
  lemma QuestionScoreV3AtMostTen(parseFloat: string -> Option<real>, reference: Json, answers: seq<Json>)
    ensures var r := QuestionScoreV3(parseFloat, reference, answers);
      r.Returned? && r.value.Some? ==> r.value.value <= MaxScore
  {
    var v := V3Scores(parseFloat, reference, answers);
    if v.Returned? && v.value != [] {
      var scores := v.value;
      V3ScoresAtMostTen(parseFloat, reference, answers);
      SumPresentAtMost(scores, MaxScore);
      MeanAtMost(SumPresent(scores), |scores| as real, MaxScore);
      assert QuestionScoreV3(parseFloat, reference, answers) == Returned(Some(SumPresent(scores) / |scores| as real));
    }
  }

  /** An unparseable answer (stored as `None`, so scored `None`) still counts
      in the divisor: a perfect answer next to an unparseable one averages 5. */
  lemma QuestionScoreCountsUnparseable(parseFloat: string -> Option<real>)
    ensures QuestionScoreV3(parseFloat, Obj([("a", Num(5.0))]), [Obj([("a", Num(5.0))]), Null]) == Returned(Some(5.0))
  {
    var reference := Obj([("a", Num(5.0))]);
    var perfect := Obj([("a", Num(5.0))]);
    var answers := [perfect, Null];
    ItemsOfDistinct(reference.members);
    assert reference.members[..0] == [];
    assert V3Score(parseFloat, reference, perfect) == Returned(Some(10.0));
    var one := [perfect];
    assert one[..0] == [];
    var none: seq<Option<real>> := [];
    assert V3Scores(parseFloat, reference, one[..0]) == Returned(none);
    assert none + [Some(10.0)] == [Some(10.0)];
    assert V3Scores(parseFloat, reference, one) == Returned([Some(10.0)]);
    assert |answers| - 1 == 1 && answers[..|answers| - 1] == one;
    assert answers[..1] == one && answers[1] == Null;
    assert V3Score(parseFloat, reference, Null) == Returned(None);
    assert V3Scores(parseFloat, reference, answers) == Returned([Some(10.0)] + [None]);
    var scores := [Some(10.0), None];
    assert scores[..1] == [Some(10.0)];
    assert SumPresent(scores) == 10.0;
  }

  /** `parseable / len(self.questions) < 0.8333`: `True` flags the run as
      failed; no questions at all raises `ZeroDivisionError`. */
  function ParseabilityFailed(parseable: real, questionCount: nat): (r: Attempt<bool>)
    ensures r.Raised? <==> questionCount == 0
    ensures r.Returned? ==> (r.value <==> parseable < ParseableThreshold * questionCount as real)
  {
    if questionCount == 0 then Raised
    else Returned(parseable / questionCount as real < ParseableThreshold)
  }

  /** 4 parseable of 5 is flagged (0.8 < 0.8333); 5 of 5 is not, nor is 5
      of 6. */
  lemma ParseabilityExamples()
    ensures ParseabilityFailed(4.0, 5) == Returned(true)
    ensures ParseabilityFailed(5.0, 5) == Returned(false)
    ensures ParseabilityFailed(5.0, 6) == Returned(false)
  {
  }
}
