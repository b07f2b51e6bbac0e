/**
  Benchmark keys as triples, their `bench:vm:variant` spelling, and the
  skip-rule match restated field by field on triples.
 */
module BenchKeys {
  import opened ColonSplit
  import opened SkipRules

  /** One (benchmark, VM, variant) combination; also the shape of a skip rule,
      whose fields may be the wildcard `*`. */
  datatype Key = Key(bench: string, vm: string, variant: string)

  datatype Option<T> = None | Some(value: T)

  /** No field may contain ':', which has no escape in the key syntax. */
  predicate ValidKey(k: Key) {
    ColonFree(k.bench) && ColonFree(k.vm) && ColonFree(k.variant)
  }

  function Render(k: Key): string {
    Join([k.bench, k.vm, k.variant])
  }

  function ParseKey(s: string): (r: Option<Key>)
    ensures r.Some? <==> WellFormed(s)
    ensures r.Some? ==> ValidKey(r.value) && Render(r.value) == s
  {
    var parts := Split(s);
    if |parts| == 3 then
      JoinSplit(s);
      assert parts == [parts[0], parts[1], parts[2]];
      Some(Key(parts[0], parts[1], parts[2]))
    else None
  }

  /** Rendering a valid key gives a well-formed string that parses back. */
  lemma ParseRender(k: Key)
    requires ValidKey(k)
    ensures Split(Render(k)) == [k.bench, k.vm, k.variant]
    ensures WellFormed(Render(k))
    ensures ParseKey(Render(k)) == Some(k)
  {
    SplitJoin([k.bench, k.vm, k.variant]);
  }

  /** A rule field accepts a key field when it is `*` or the same string. */
  predicate FieldMatches(ruleField: string, keyField: string) {
    ruleField == Wildcard || ruleField == keyField
  }

  /** A typed rule matches a typed key field by field, each in its own position. */
  predicate KeyMatches(rule: Key, key: Key) {
    FieldMatches(rule.bench, key.bench) && FieldMatches(rule.vm, key.vm) && FieldMatches(rule.variant, key.variant)
  }

  /** Matching is positional: each rule field constrains only the key field
      in the same position, and a non-wildcard field demands equality. */
  lemma MatchPositional(rule: Key, key: Key)
    requires ValidKey(rule) && ValidKey(key)
    ensures RuleMatches(Render(rule), Render(key)) <==> KeyMatches(rule, key)
    ensures ShouldSkip([Render(rule)], Render(key)) == Skip <==> RuleMatches(Render(rule), Render(key))
  {
    ParseRender(rule);
    ParseRender(key);
    var rs, ks := Split(Render(rule)), Split(Render(key));
    assert rs[0] == rule.bench && rs[1] == rule.vm && rs[2] == rule.variant;
    assert ks[0] == key.bench && ks[1] == key.vm && ks[2] == key.variant;
    MaskMatchIff(Render(rule), Render(key));
  }
}
