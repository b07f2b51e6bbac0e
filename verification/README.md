# krun skip rules and results path, in Dafny

This project models two small pieces of krun, a benchmark runner.

- `should_skip` decides whether a benchmark key is left out of a run. A key is a `bench:vm:variant` string. The configuration's `SKIP` list holds rules of the same shape, and any rule field may be the wildcard `*`.
- `output_name` gives the results file that belongs to a `.krun` configuration file.

Layout:

- `colon_split.dfy` (module `ColonSplit`) models Python's `str.split(":")` as `Split`. It splits on every `:` and keeps empty fields. `Join` is its inverse, and both round trips are proved.
- `skip_rules.dfy` (module `SkipRules`) holds the matcher, in two forms:
  - `ShouldSkip` is a pure function that scans the rules in order.
  - `ShouldSkipLoop` is the loop as written, which masks the key's fields in place.

  Both return one of three outcomes:
  - `Skip` for the source's `True`;
  - `NoSkip` for its `False`;
  - `Malformed` when the assertion that both strings are triples fails.
- `bench_keys.dfy` (module `BenchKeys`) holds keys as typed triples, with parsing and rendering. It also restates the match field by field.
- `session_examples.dfy` (module `SessionExamples`) holds the matcher over typed rules. It also holds the rules and the six benchmarks and nine VMs of the "more complicated" session test. Over that 6 × 9 cross product, `SessionPartition` proves which keys are skipped: the six CPython keys and the three exact keys. Every other key gives NoSkip.
- `results_path.dfy` (module `ResultsPath`) holds `output_name`, its inverse, and injectivity. The failed `.krun` assertion is the outcome `WrongSuffix`, which the inverse also returns for a path without `_results.json`.

What the code does with malformed input and with rule order:

- **Malformed input.** The three-field assertion is checked only for a rule that the loop actually reaches. So an empty `SKIP` list returns `False` for any key, even a malformed one. A matching rule placed before a malformed rule also returns `True` (`MalformedIff`, `OrderMattersWhenMalformed`).
- **Rule order.** Reordering the rules leaves the result unchanged when every rule is well formed, whatever the key (`OrderIndependent`). Otherwise it can change the result.

## Model

| member | source | states |
|---|---|---|
| ColonSplit.Split | krun/util.py:5-6 | `s.split(":")` always gives at least one field, no field contains `:`, empty fields are kept (`""` gives `[""]`); `JoinSplit` and `SplitLength` pin it down |
| ColonSplit.JoinSplit | krun/util.py:5-6 | joining the fields of `s.split(":")` with `:` gives back `s`, so splitting loses nothing |
| ColonSplit.SplitJoin | krun/util.py:5-6 | splitting a `:`-join of `:`-free fields returns exactly those fields |
| ColonSplit.SplitLength | krun/util.py:5-6 | a split has one more field than the string has `:` characters |
| SkipRules.WellFormedIffTwoColons | krun/util.py:9 | a key or rule passes the three-field assertion exactly when it contains two `:` |
| SkipRules.ShouldSkip | krun/util.py:1-18 | an empty SKIP list gives NoSkip for every key; with at least one rule, a key that is not a triple fails the assertion |
| SkipRules.Mask | krun/util.py:11-15 | the masked key equals the rule exactly when every rule field is `*` or equals the key field in the same position; it has the key's length, `*` where the rule has `*`, and the key's value elsewhere |
| SkipRules.MaskInPlace | krun/util.py:11-13 | the result is the key's three fields with exactly those marked `*` by the rule replaced by `*`, the others unchanged |
| SkipRules.ShouldSkipLoop | krun/util.py:4-18 | the loop gives the same outcome as the pure matcher: it re-splits both strings for each rule, overwrites key fields with `*` in place, compares and returns at the first match |
| SkipRules.MaskMatchIff | krun/util.py:11-15 | overwriting the key's fields under the rule's `*` and comparing the lists holds exactly when every rule field is `*` or equals the key field in the same position |
| SkipRules.SkipIff | krun/util.py:4-16 | the result is Skip exactly when some rule matches the key, and that rule, every rule before it and the key are triples |
| SkipRules.NoSkipIff | krun/util.py:4-18 | the result is NoSkip exactly when every rule is a triple, the key is a triple (if any rule exists), and no rule matches |
| SkipRules.MalformedIff | krun/util.py:4-9 | the assertion fails exactly when the scan reaches a rule that is not a triple, or the key is not a triple, before any rule has matched |
| SkipRules.WellFormedSkipIff | krun/util.py:4-18 | with all rules and the key well formed, the assertion never fails, and the result is Skip exactly when some rule in the list matches |
| SkipRules.ShouldSkipAppend | krun/util.py:4-18 | scanning `a + b` gives the outcome of `a` unless that is NoSkip, in which case it gives the outcome of `b` |
| SkipRules.SkipMonotone | krun/util.py:4-16 | adding a rule at the end never turns Skip into anything else |
| SkipRules.OrderIndependent | krun/util.py:4-18 | with well-formed rules and any key, any permutation of the rules gives the same outcome |
| SkipRules.OrderMattersWhenMalformed | krun/util.py:4-16 | a malformed rule after a matching one is never looked at (Skip); before it, the assertion fails (Malformed) |
| SkipRules.ExactRuleMatchesOnlyItself | krun/util.py:11-16 | a triple rule with no `*` field matches one key only, the string equal to the rule |
| BenchKeys.ParseKey | krun/util.py:5-9 | a string parses as a key exactly when it splits into three fields; the parsed fields are `:`-free and rejoin to the string |
| BenchKeys.ParseRender | krun/util.py:5-9 | a key with `:`-free fields renders to a string that splits back into its three fields and parses back to the key |
| BenchKeys.MatchPositional | krun/util.py:11-15 | a rule matches a key exactly when bench, vm and variant each match in their own position (`*` or equal); a single-rule list skips exactly the matching keys |
| SessionExamples.KeySkipIff | krun/util.py:4-18 | for typed, valid rules and key, the outcome is Skip when some rule matches field by field and NoSkip otherwise; it is never Malformed |
| SessionExamples.CPythonKeysSkipped | krun/tests/test_util.py:119-138 | the `*:CPython:*` rule skips the CPython key of each of the six benchmarks |
| SessionExamples.ExactKeysSkipped | krun/tests/test_util.py:127-130 | the three exact rules skip their own keys |
| SessionExamples.NeighbourKeysKept | krun/tests/test_util.py:153-161 | `richards:JRubyTruffle:default-ruby` and `nbody:PyPy:default-python` are not skipped, although they share fields with rules |
| ResultsPath.EndsWith | krun/util.py:34 | `s.endswith(suffix)` holds exactly when `s` is some stem followed by `suffix` |
| ResultsPath.EndsWithAppend | krun/util.py:34-35 | any stem followed by a suffix ends with that suffix |
| SessionExamples.RulesSkipIff | krun/tests/test_util.py:119-138 | for any well-formed key the example rules give Skip exactly when the VM is CPython or the key equals one of the three exact rules, NoSkip otherwise |
| SessionExamples.SessionPartition | krun/tests/test_util.py:117-189 | over every benchmark and VM of the example session, Skip exactly for the six CPython keys and the three exact keys; every other key gives NoSkip |
| ResultsPath.OutputName | krun/util.py:33-35 | the call succeeds exactly for paths ending in `.krun`; the result keeps the path's stem, ends in `_results.json` and is 8 characters longer |
| ResultsPath.RoundTrip | krun/util.py:35 | removing `_results.json` from the output name and appending `.krun` gives back the configuration path |
| ResultsPath.OutputNameInjective | krun/util.py:35 | two different `.krun` paths never share a results path |
| ResultsPath.OutputNameExample | krun/util.py:33-35 | `example.krun` maps to `example_results.json` |
| ResultsPath.OutputNameRejects | krun/util.py:34 | `a.krun.bak` and `krun` fail the `.krun` assertion |

## Left out

- `read_config` (krun/util.py:21-30) is left out because it executes the configuration file as code and prints on failure.
- The configuration object is reduced to its `SKIP` list, because `should_skip` reads nothing else from it.
- The model assumes that the configuration has a `SKIP` entry; without one, `config["SKIP"]` (krun/util.py:2) raises `KeyError`, which is not modelled.
- The model assumes that assertions are enabled. Under `python -O` the check at krun/util.py:9 disappears, and a malformed rule then gives `IndexError` or even `True` (rule and key both `a:b:c:d`); that mode is not modelled.
- The Python `AssertionError` is modelled as an outcome value (`Malformed` or `WrongSuffix`), not as an exception that unwinds the caller.
- SessionExamples: the rules, the benchmark names and the VMs with their variants are reconstructed, not taken from a file.
  - The "more complicated" configuration file is not part of this model.
  - The rules are taken from the test's comment (three exact keys and all CPython keys) and from its expected skip set.
  - `Benchmarks` and `Vms` are read off the expected skipped and non-skipped key lists (krun/tests/test_util.py:127-186).
  - The session-wide counts and the key-set partition belong to `get_session_info`, which is not part of this model.
- The other functions named in the tests are not part of this model: `format_raw_exec_results`, `check_and_parse_execution_results`, `get_session_info`, `run_shell_cmd`, `fatal` and `log_and_mail`. They involve float rounding, JSON parsing, configuration loading, shell, logging and mail.
- The iterations runner and the libkrun tests are left out. They involve clocks, hardware counters, subprocesses and floating-point timing.
