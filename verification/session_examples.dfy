/**
  The skip matcher applied to typed keys and rules, and the session of the
  "more complicated" example configuration: six benchmarks on nine VMs, three
  exact skip rules and one rule that drops every CPython key.
 */
module SessionExamples {
  import opened ColonSplit
  import opened SkipRules
  import opened BenchKeys

  predicate AllValid(rules: seq<Key>) {
    forall i :: 0 <= i < |rules| ==> ValidKey(rules[i])
  }

  /** The SKIP list as the configuration spells it. */
  function RenderAll(rules: seq<Key>): (spelled: seq<string>)
  {
    seq(|rules|, i requires 0 <= i < |rules| => Render(rules[i]))
  }

  /** For valid keys and rules the outcome is decided by the field-wise
      match alone: Skip when some rule matches, NoSkip otherwise. */
  lemma KeySkipIff(rules: seq<Key>, key: Key)
    requires AllValid(rules) && ValidKey(key)
    ensures ShouldSkip(RenderAll(rules), Render(key)) ==
      (if exists i :: 0 <= i < |rules| && KeyMatches(rules[i], key) then Skip else NoSkip)
  {
    var spelled := RenderAll(rules);
    ParseRender(key);
    forall i | 0 <= i < |rules|
      ensures WellFormed(spelled[i])
      ensures RuleMatches(spelled[i], Render(key)) <==> KeyMatches(rules[i], key)
    {
      ParseRender(rules[i]);
      MatchPositional(rules[i], key);
    }
    WellFormedSkipIff(spelled, Render(key));
    if exists i :: 0 <= i < |rules| && KeyMatches(rules[i], key) {
      var i :| 0 <= i < |rules| && KeyMatches(rules[i], key);
      assert spelled[i] in spelled;
    } else {
      forall rule | rule in spelled ensures !RuleMatches(rule, Render(key)) {
        var i :| 0 <= i < |spelled| && spelled[i] == rule;
      }
    }
  }

  const Rules: seq<Key> := [
    Key("fasta", "JRubyTruffle", "default-ruby"),
    Key("richards", "HHVM", "default-php"),
    Key("spectralnorm", "JRubyTruffle", "default-ruby"),
    Key("*", "CPython", "*")
  ]

  const Benchmarks: seq<string> :=
    ["binarytrees", "richards", "spectralnorm", "nbody", "fasta", "fannkuch_redux"]

  /** The nine VMs of the example configuration, each with its one variant. */
  const Vms: seq<(string, string)> := [
    ("C", "default-c"), ("CPython", "default-python"), ("Graal", "default-java"),
    ("HHVM", "default-php"), ("Hotspot", "default-java"), ("JRubyTruffle", "default-ruby"),
    ("LuaJIT", "default-lua"), ("PyPy", "default-python"), ("V8", "default-javascript")
  ]

  lemma RulesValid()
    ensures AllValid(Rules)
  {
    assert ValidKey(Rules[0]) && ValidKey(Rules[1]) && ValidKey(Rules[2]) && ValidKey(Rules[3]);
  }

  /** The wildcard rule skips all six CPython keys. */
  lemma CPythonKeysSkipped(bench: string)
    requires bench in Benchmarks
    ensures ShouldSkip(RenderAll(Rules), Render(Key(bench, "CPython", "default-python"))) == Skip
  {
    RulesValid();
    var key := Key(bench, "CPython", "default-python");
    assert ValidKey(key);
    assert KeyMatches(Rules[3], key);
    KeySkipIff(Rules, key);
  }

  /** Each of the three exact rules skips its own key (that it skips no
      other is `ExactRuleMatchesOnlyItself`). */
  lemma ExactKeysSkipped()
    ensures ShouldSkip(RenderAll(Rules), Render(Key("fasta", "JRubyTruffle", "default-ruby"))) == Skip
    ensures ShouldSkip(RenderAll(Rules), Render(Key("richards", "HHVM", "default-php"))) == Skip
    ensures ShouldSkip(RenderAll(Rules), Render(Key("spectralnorm", "JRubyTruffle", "default-ruby"))) == Skip
  {
    RulesValid();
    KeySkipIff(Rules, Rules[0]);
    KeySkipIff(Rules, Rules[1]);
    KeySkipIff(Rules, Rules[2]);
  }

  /** Keys that share a VM or a benchmark with a rule but not all of its
      non-wildcard fields are kept. */
  lemma NeighbourKeysKept()
    ensures ShouldSkip(RenderAll(Rules), Render(Key("richards", "JRubyTruffle", "default-ruby"))) == NoSkip
    ensures ShouldSkip(RenderAll(Rules), Render(Key("nbody", "PyPy", "default-python"))) == NoSkip
  {
    KeptKey(Key("richards", "JRubyTruffle", "default-ruby"));
    KeptKey(Key("nbody", "PyPy", "default-python"));
  }

  /** A key outside CPython that is none of the three exact rules is kept. */
  lemma KeptKey(key: Key)
    requires ValidKey(key) && key.vm != "CPython"
    requires key != Rules[0] && key != Rules[1] && key != Rules[2]
    ensures ShouldSkip(RenderAll(Rules), Render(key)) == NoSkip
  {
    assert Rules[..3] == [Rules[0], Rules[1], Rules[2]];
    RulesSkipIff(key);
  }

  /** For any well-formed key the example rules decide exactly: Skip when
      the VM is CPython or the key is one of the three exact rules, NoSkip
      for every other key. */
  lemma RulesSkipIff(key: Key)
    requires ValidKey(key)
    ensures ShouldSkip(RenderAll(Rules), Render(key)) ==
      (if key.vm == "CPython" || key in Rules[..3] then Skip else NoSkip)
  {
    RulesValid();
    assert KeyMatches(Rules[3], key) <==> key.vm == "CPython";
    assert forall i :: 0 <= i < 3 ==> (KeyMatches(Rules[i], key) <==> key == Rules[i]);
    KeySkipIff(Rules, key);
  }

  /** Every benchmark and VM name of the example session is free of ':'. */
  lemma SessionKeysValid(bench: string, vm: (string, string))
    requires bench in Benchmarks && vm in Vms
    ensures ValidKey(Key(bench, vm.0, vm.1))
  {
    assert forall i :: 0 <= i < |Benchmarks| ==> ColonFree(Benchmarks[i]) by {
      assert ColonFree(Benchmarks[0]) && ColonFree(Benchmarks[1]) && ColonFree(Benchmarks[2]);
      assert ColonFree(Benchmarks[3]) && ColonFree(Benchmarks[4]) && ColonFree(Benchmarks[5]);
    }
    assert forall i :: 0 <= i < |Vms| ==> ColonFree(Vms[i].0) && ColonFree(Vms[i].1) by {
      assert ColonFree(Vms[0].0) && ColonFree(Vms[0].1) && ColonFree(Vms[1].0) && ColonFree(Vms[1].1);
      assert ColonFree(Vms[2].0) && ColonFree(Vms[2].1) && ColonFree(Vms[3].0) && ColonFree(Vms[3].1);
      assert ColonFree(Vms[4].0) && ColonFree(Vms[4].1) && ColonFree(Vms[5].0) && ColonFree(Vms[5].1);
      assert ColonFree(Vms[6].0) && ColonFree(Vms[6].1) && ColonFree(Vms[7].0) && ColonFree(Vms[7].1);
      assert ColonFree(Vms[8].0) && ColonFree(Vms[8].1);
    }
  }

  /** Over the whole cross product of six benchmarks and nine VMs, the
      skipped keys are the six CPython keys and the three exact keys; every
      other key of the cross product gives NoSkip. */
  lemma SessionPartition(bench: string, vm: (string, string))
    requires bench in Benchmarks && vm in Vms
    ensures ShouldSkip(RenderAll(Rules), Render(Key(bench, vm.0, vm.1))) ==
      (if vm.0 == "CPython" || Key(bench, vm.0, vm.1) in Rules[..3] then Skip else NoSkip)
  {
    SessionKeysValid(bench, vm);
    RulesSkipIff(Key(bench, vm.0, vm.1));
  }
}
