/** Run keys: both benchmarks name a run by joining an ordered list of
    configuration components with "--", writing a missing (`None`)
    component as the empty string. */
module RunIndex {
  import opened Wrappers
  import Text

  const Separator: string := "--"

  /** `component if component is not None else ''` */
  function OrEmpty(c: Option<string>): string
  {
    match c
    case Some(s) => s
    case None => ""
  }

  /** The component list with every `None` replaced by "". */
  function Normalize(components: seq<Option<string>>): (r: seq<string>)
    ensures |r| == |components|
    ensures forall i :: 0 <= i < |r| ==> r[i] == OrEmpty(components[i])
  {
    seq(|components|, i requires 0 <= i < |components| => OrEmpty(components[i]))
  }

  /** `"--".join(components)` after the `None` substitution. */
  function RunKey(components: seq<Option<string>>): string
  {
    Text.Join(Separator, Normalize(components))
  }

  /** Two component lists that differ in one place give the same key exactly
      when the two components read the same once `None` is written as "":
      changing any single component to a different string changes the key,
      and `None` and "" are the same component. */
  lemma RunKeyOneComponent(components: seq<Option<string>>, i: nat, a: Option<string>, b: Option<string>)
    requires i < |components|
    ensures RunKey(components[i := a]) == RunKey(components[i := b]) <==> OrEmpty(a) == OrEmpty(b)
  {
    var n := Normalize(components);
    assert Normalize(components[i := a]) == n[i := OrEmpty(a)];
    assert Normalize(components[i := b]) == n[i := OrEmpty(b)];
    Text.JoinInjectiveInOnePart(Separator, n, i, OrEmpty(a), OrEmpty(b));
  }

  /** Keys are not injective across several components: a component ending
      in '-' next to one starting with '-' can trade the dash. */
  lemma RunKeyCollidesAcrossComponents()
    ensures RunKey([Some("m-"), Some("lora")]) == RunKey([Some("m"), Some("-lora")]) == "m---lora"
  {
    assert Normalize([Some("m-"), Some("lora")]) == ["m-", "lora"];
    assert Normalize([Some("m"), Some("-lora")]) == ["m", "-lora"];
  }
}
