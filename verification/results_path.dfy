/**
  The results file that goes with a configuration file: `x.krun` becomes
  `x_results.json`. A path not ending in `.krun` fails an assertion, which
  here is the outcome `WrongSuffix`.
 */
module ResultsPath {

  const ConfigSuffix: string := ".krun"
  const ResultsSuffix: string := "_results.json"

  /** A renamed path, or the failure when the given path does not end in the
      suffix the rename expects (for `output_name`, its `.krun` assertion). */
  datatype PathResult = Renamed(path: string) | WrongSuffix

  /** A suffix appended to any stem is what remains after the stem. */
  lemma SuffixAfterStem()
    ensures forall stem: string, suffix: string :: (stem + suffix)[|stem|..] == suffix
  {
    forall stem: string, suffix: string ensures (stem + suffix)[|stem|..] == suffix {
      assert (stem + suffix)[|stem|..] == suffix;
    }
  }

  /** `s.endswith(suffix)`: `s` is some stem followed by `suffix`. */
  function EndsWith(s: string, suffix: string): (r: bool)
    ensures r <==> exists stem :: s == stem + suffix
  {
    if |suffix| <= |s| && s[|s| - |suffix|..] == suffix then
      assert s == s[..|s| - |suffix|] + suffix;
      true
    else
      SuffixAfterStem();
      false
  }

  /** Any string followed by a suffix ends with that suffix. */
  lemma EndsWithAppend(stem: string, suffix: string)
    ensures EndsWith(stem + suffix, suffix)
  {
    assert (stem + suffix)[|stem|..] == suffix;
  }

  /** `output_name`: drop the trailing `.krun`, append `_results.json`. */
  function OutputName(configPath: string): (r: PathResult)
    ensures r.Renamed? <==> EndsWith(configPath, ConfigSuffix)
    ensures r.Renamed? ==> EndsWith(r.path, ResultsSuffix)
    ensures r.Renamed? ==> |r.path| == |configPath| - |ConfigSuffix| + |ResultsSuffix|
    ensures r.Renamed? ==> r.path[..|configPath| - |ConfigSuffix|] == configPath[..|configPath| - |ConfigSuffix|]
  {
    if EndsWith(configPath, ConfigSuffix) then
      Renamed(configPath[..|configPath| - |ConfigSuffix|] + ResultsSuffix)
    else WrongSuffix
  }

  /** The inverse direction: the configuration path a results path came from. */
  function ConfigPathOf(resultsPath: string): (r: PathResult)
    ensures r.Renamed? <==> EndsWith(resultsPath, ResultsSuffix)
    ensures r.Renamed? ==> EndsWith(r.path, ConfigSuffix)
  {
    if EndsWith(resultsPath, ResultsSuffix) then
      Renamed(resultsPath[..|resultsPath| - |ResultsSuffix|] + ConfigSuffix)
    else WrongSuffix
  }

  /** Mapping a configuration path to its results path and back is the identity. */
  lemma RoundTrip(configPath: string)
    requires EndsWith(configPath, ConfigSuffix)
    ensures ConfigPathOf(OutputName(configPath).path) == Renamed(configPath)
  {
    var stem := configPath[..|configPath| - |ConfigSuffix|];
    var out := OutputName(configPath).path;
    assert out[..|out| - |ResultsSuffix|] == stem;
    assert configPath == stem + configPath[|configPath| - |ConfigSuffix|..];
  }

  /** Distinct configuration paths never share a results path. */
  lemma OutputNameInjective(p: string, q: string)
    requires EndsWith(p, ConfigSuffix) && EndsWith(q, ConfigSuffix)
    requires OutputName(p) == OutputName(q)
    ensures p == q
  {
    RoundTrip(p);
    RoundTrip(q);
  }

  /** The configuration used by the session tests. */
  lemma OutputNameExample()
    ensures OutputName("example.krun") == Renamed("example_results.json")
  {
    var p := "example.krun";
    assert p[7..] == ConfigSuffix;
    assert p[..7] + ResultsSuffix == "example_results.json";
  }

  /** A path with `.krun` elsewhere than at its end fails the assertion. */
  lemma OutputNameRejects()
    ensures OutputName("a.krun.bak") == WrongSuffix
    ensures OutputName("krun") == WrongSuffix
  {
    assert "a.krun.bak"[5..] != ConfigSuffix by {
      assert "a.krun.bak"[5] == 'n' && ConfigSuffix[0] == '.';
    }
  }
}
