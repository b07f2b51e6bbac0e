/**
  The skip-rule matcher: does a `bench:vm:variant` key fall under one of the
  configured SKIP rules, where any rule position may be the wildcard `*`?

  The configuration is reduced to its list of rule strings. The assertion that
  both strings split into three fields is an outcome of its own, `Malformed`,
  reached only when the scan gets to the offending rule.
 */
module SkipRules {
  import opened ColonSplit

  const Wildcard: string := "*"

  /** What `should_skip` does: return True, return False, or fail its assertion. */
  datatype Outcome = Skip | NoSkip | Malformed

  /** A key or rule that splits into exactly the three fields bench, vm, variant. */
  predicate WellFormed(s: string) {
    |Split(s)| == 3
  }

  /** A string is a triple exactly when it holds two separators. */
  lemma WellFormedIffTwoColons(s: string)
    ensures WellFormed(s) <==> CountColons(s) == 2
  {
    SplitLength(s);
  }

  predicate AllWellFormed(rules: seq<string>) {
    forall k :: 0 <= k < |rules| ==> WellFormed(rules[k])
  }

  /** The key's fields with every field the rule marks `*` overwritten by `*`. */
  function Mask(ruleElems: seq<string>, keyElems: seq<string>): (masked: seq<string>)
    requires |ruleElems| == |keyElems|
    ensures |masked| == |keyElems|
    ensures forall i :: 0 <= i < |keyElems| && ruleElems[i] != Wildcard ==> masked[i] == keyElems[i]
    ensures forall i :: 0 <= i < |keyElems| && ruleElems[i] == Wildcard ==> masked[i] == Wildcard
    ensures masked == ruleElems <==>
      forall i :: 0 <= i < |ruleElems| ==> ruleElems[i] == Wildcard || ruleElems[i] == keyElems[i]
  {
    seq(|keyElems|, i requires 0 <= i < |keyElems| =>
      if ruleElems[i] == Wildcard then Wildcard else keyElems[i])
  }

  /** One rule against one key, stated position by position: both are
      triples, and every rule field is `*` or equals the key's field. */
  predicate RuleMatches(rule: string, key: string) {
    && WellFormed(rule)
    && WellFormed(key)
    && forall i :: 0 <= i < 3 ==> Split(rule)[i] == Wildcard || Split(rule)[i] == Split(key)[i]
  }

  /** The matcher, scanning the rules in order and stopping at the first
      rule that is malformed (or finds the key malformed) or that matches. */
  function ShouldSkip(rules: seq<string>, key: string): (r: Outcome)
    ensures |rules| == 0 ==> r == NoSkip
    ensures |rules| > 0 && !WellFormed(key) ==> r == Malformed
    decreases |rules|
  {
    if |rules| == 0 then NoSkip
    else
      var ruleElems := Split(rules[0]);
      var keyElems := Split(key);
      if !(|ruleElems| == 3 && |keyElems| == 3) then Malformed
      else if Mask(ruleElems, keyElems) == ruleElems then Skip
      else ShouldSkip(rules[1..], key)
  }

  /** The inner loop as written: overwrite with `*` each of the three key
      fields whose rule field is `*`, leaving the others as they were. */
  method MaskInPlace(ruleElems: seq<string>, keyElems: seq<string>) returns (masked: seq<string>)
    requires |ruleElems| == 3 && |keyElems| == 3
    ensures |masked| == 3
    ensures forall j :: 0 <= j < 3 ==> masked[j] == (if ruleElems[j] == Wildcard then Wildcard else keyElems[j])
  {
    masked := keyElems;
    var i := 0;
    while i < 3
      invariant 0 <= i <= 3
      invariant |masked| == 3
      invariant forall j :: 0 <= j < 3 ==>
        masked[j] == (if j < i && ruleElems[j] == Wildcard then Wildcard else keyElems[j])
    {
      if ruleElems[i] == Wildcard {
        masked := masked[i := Wildcard];
      }
      i := i + 1;
    }
  }

  /** The scan as written: a loop over the rules that re-splits both strings
      each time, masks the key's fields and compares, stopping at the first
      malformed or matching rule. */
  method ShouldSkipLoop(rules: seq<string>, key: string) returns (r: Outcome)
    ensures r == ShouldSkip(rules, key)
  {
    var n := 0;
    while n < |rules|
      invariant 0 <= n <= |rules|
      invariant ShouldSkip(rules[n..], key) == ShouldSkip(rules, key)
      decreases |rules| - n
    {
      var ruleElems := Split(rules[n]);
      var keyElems := Split(key);
      if !(|ruleElems| == 3 && |keyElems| == 3) {
        return Malformed;
      }
      keyElems := MaskInPlace(ruleElems, keyElems);
      assert keyElems == Mask(ruleElems, Split(key));
      if ruleElems == keyElems {
        return Skip;
      }
      assert rules[n..][1..] == rules[n + 1..];
      n := n + 1;
    }
    return NoSkip;
  }

  /** Masking and comparing is exactly the positional wildcard match. */
  lemma MaskMatchIff(rule: string, key: string)
    requires WellFormed(rule) && WellFormed(key)
    ensures Mask(Split(rule), Split(key)) == Split(rule) <==> RuleMatches(rule, key)
  {
    var m := Mask(Split(rule), Split(key));
    if RuleMatches(rule, key) {
      assert forall i :: 0 <= i < 3 ==> m[i] == Split(rule)[i];
    }
    if m == Split(rule) {
      assert forall i :: 0 <= i < 3 ==> m[i] == Split(rule)[i];
    }
  }

  /** Skip exactly when some rule matches and every rule up to and including
      it is well formed, the key too. */
  lemma {:induction false} SkipIff(rules: seq<string>, key: string)
    ensures ShouldSkip(rules, key) == Skip <==>
      exists j :: 0 <= j < |rules| && RuleMatches(rules[j], key)
        && forall k :: 0 <= k <= j ==> WellFormed(rules[k])
    decreases |rules|
  {
    if |rules| > 0 {
      SkipIff(rules[1..], key);
      if WellFormed(rules[0]) && WellFormed(key) {
        MaskMatchIff(rules[0], key);
        if ShouldSkip(rules, key) == Skip && !RuleMatches(rules[0], key) {
          var j :| 0 <= j < |rules[1..]| && RuleMatches(rules[1..][j], key)
            && forall k :: 0 <= k <= j ==> WellFormed(rules[1..][k]);
          assert forall k :: 0 <= k <= j + 1 ==> WellFormed(rules[k]);
        }
        if !RuleMatches(rules[0], key) {
          if j :| (0 <= j < |rules| && RuleMatches(rules[j], key)
                   && forall k :: 0 <= k <= j ==> WellFormed(rules[k])) {
            assert j > 0;
            assert RuleMatches(rules[1..][j - 1], key);
            assert forall k :: 0 <= k <= j - 1 ==> WellFormed(rules[1..][k]);
          }
        }
      }
    }
  }

  /** NoSkip exactly when every rule is well formed, the key is well formed
      whenever there is a rule, and no rule matches. */
  lemma {:induction false} NoSkipIff(rules: seq<string>, key: string)
    ensures ShouldSkip(rules, key) == NoSkip <==>
      forall k :: 0 <= k < |rules| ==>
        WellFormed(rules[k]) && WellFormed(key) && !RuleMatches(rules[k], key)
    decreases |rules|
  {
    if |rules| > 0 {
      NoSkipIff(rules[1..], key);
      if WellFormed(rules[0]) && WellFormed(key) {
        MaskMatchIff(rules[0], key);
        if !RuleMatches(rules[0], key) {
          assert forall k :: 1 <= k < |rules| ==> rules[k] == rules[1..][k - 1];
        }
      }
    }
  }

  /** Malformed exactly when the scan reaches a rule that is malformed (or
      finds the key malformed) before any rule matched. */
  lemma {:induction false} MalformedIff(rules: seq<string>, key: string)
    ensures ShouldSkip(rules, key) == Malformed <==>
      exists j :: 0 <= j < |rules| && !(WellFormed(rules[j]) && WellFormed(key))
        && forall k :: 0 <= k < j ==> !RuleMatches(rules[k], key)
    decreases |rules|
  {
    if |rules| > 0 {
      MalformedIff(rules[1..], key);
      if WellFormed(rules[0]) && WellFormed(key) {
        MaskMatchIff(rules[0], key);
        if !RuleMatches(rules[0], key) {
          if ShouldSkip(rules, key) == Malformed {
            var j :| 0 <= j < |rules[1..]| && !(WellFormed(rules[1..][j]) && WellFormed(key))
              && forall k :: 0 <= k < j ==> !RuleMatches(rules[1..][k], key);
            assert forall k :: 0 <= k < j + 1 ==> !RuleMatches(rules[k], key);
          }
          if j :| (0 <= j < |rules| && !(WellFormed(rules[j]) && WellFormed(key))
                   && forall k :: 0 <= k < j ==> !RuleMatches(rules[k], key)) {
            assert j > 0;
            assert !(WellFormed(rules[1..][j - 1]) && WellFormed(key));
            assert forall k :: 0 <= k < j - 1 ==> !RuleMatches(rules[1..][k], key);
          }
        }
      } else {
        assert !(WellFormed(rules[0]) && WellFormed(key));
      }
    }
  }

  /** With every rule and the key well formed the assertion cannot fail, and
      the key is skipped exactly when some rule matches it, wherever it sits. */
  lemma WellFormedSkipIff(rules: seq<string>, key: string)
    requires AllWellFormed(rules) && WellFormed(key)
    ensures ShouldSkip(rules, key) != Malformed
    ensures ShouldSkip(rules, key) == Skip <==> exists rule :: rule in rules && RuleMatches(rule, key)
  {
    MalformedIff(rules, key);
    SkipIff(rules, key);
    if rule :| rule in rules && RuleMatches(rule, key) {
      var j :| 0 <= j < |rules| && rules[j] == rule;
      assert forall k :: 0 <= k <= j ==> WellFormed(rules[k]);
    }
  }

  /** Scanning `a + b` is scanning `a`, then `b` only if `a` said NoSkip. */
  lemma {:induction false} ShouldSkipAppend(a: seq<string>, b: seq<string>, key: string)
    ensures ShouldSkip(a + b, key) ==
      (if ShouldSkip(a, key) == NoSkip then ShouldSkip(b, key) else ShouldSkip(a, key))
    decreases |a|
  {
    if |a| == 0 {
      assert a + b == b;
    } else {
      assert (a + b)[0] == a[0];
      assert (a + b)[1..] == a[1..] + b;
      ShouldSkipAppend(a[1..], b, key);
    }
  }

  /** Adding a rule at the end never un-skips a key. */
  lemma SkipMonotone(rules: seq<string>, extra: string, key: string)
    requires ShouldSkip(rules, key) == Skip
    ensures ShouldSkip(rules + [extra], key) == Skip
  {
    ShouldSkipAppend(rules, [extra], key);
  }

  /** When every rule is well formed, reordering (or permuting) the rules
      does not change the outcome; a malformed key fails the same way in
      any order. */
  lemma OrderIndependent(rules: seq<string>, reordered: seq<string>, key: string)
    requires AllWellFormed(rules)
    requires multiset(rules) == multiset(reordered)
    ensures ShouldSkip(rules, key) == ShouldSkip(reordered, key)
  {
    assert forall rule :: rule in rules <==> rule in reordered by {
      forall rule ensures rule in rules <==> rule in reordered {
        assert rule in rules <==> rule in multiset(rules);
        assert rule in reordered <==> rule in multiset(reordered);
      }
    }
    assert AllWellFormed(reordered) by {
      forall k | 0 <= k < |reordered| ensures WellFormed(reordered[k]) {
        assert reordered[k] in rules;
        var j :| 0 <= j < |rules| && rules[j] == reordered[k];
      }
    }
    if WellFormed(key) {
      WellFormedSkipIff(rules, key);
      WellFormedSkipIff(reordered, key);
    } else {
      assert |rules| == |multiset(rules)| == |reordered|;
    }
  }

  /** Without well-formedness order matters: a malformed rule placed before a
      matching one fails the assertion, placed after it is never looked at. */
  lemma OrderMattersWhenMalformed()
    ensures ShouldSkip(["a:b:c", "oops"], "a:b:c") == Skip
    ensures ShouldSkip(["oops", "a:b:c"], "a:b:c") == Malformed
  {
    SplitJoin(["a", "b", "c"]);
    assert Join(["a", "b", "c"]) == "a:b:c";
    SplitColonFree("oops");
  }

  /** A rule with no wildcard field matches one key only: itself. */
  lemma ExactRuleMatchesOnlyItself(rule: string, key: string)
    requires WellFormed(rule)
    requires forall i :: 0 <= i < 3 ==> Split(rule)[i] != Wildcard
    ensures RuleMatches(rule, key) <==> key == rule
    ensures ShouldSkip([rule], key) == Skip <==> key == rule
  {
    if RuleMatches(rule, key) {
      assert Split(key) == Split(rule);
      SplitInjective(key, rule);
    }
    SkipIff([rule], key);
  }
}
