/** Concrete command lines from the source's own test suite, worked through `Classify`. */
module Scenarios {
  import opened Wrappers
  import opened Lexical
  import opened Registry
  import opened Results
  import opened Parser
  import opened ParserFacts

  // Single steps, used to walk a command line one token at a time

  /** The declared option at index `k` is the only one named `name`. */
  ghost predicate OnlyNamed(specs: OptSpecs, k: nat, name: string)
    reads specs
  {
    k < |specs.options| && specs.options[k].name == name
    && forall j :: 0 <= j < |specs.options| && j != k ==> specs.options[j].name != name
  }

  lemma ShortLookup(specs: OptSpecs, k: nat, name: string)
    requires OnlyNamed(specs, k, name) && |name| == 1
    ensures specs.GetShortOptionMatch(name) == Some(specs.options[k])
  {
    assert specs.options[k] in specs.options;
  }

  lemma LongLookup(specs: OptSpecs, k: nat, name: string)
    requires OnlyNamed(specs, k, name) && |name| >= 2
    ensures specs.GetLongOptionMatch(name) == Some(specs.options[k])
  {
    assert specs.options[k] in specs.options;
  }

  lemma ShortUnknown(specs: OptSpecs, name: string)
    requires |name| == 1 && forall j :: 0 <= j < |specs.options| ==> specs.options[j].name != name
    ensures specs.GetShortOptionMatch(name) == None
  {
  }

  lemma ShortStep(specs: OptSpecs, args: seq<string>, i: nat, acc: Args, c: Cursor)
    requires i < |args| && IsShortOptionPrefix(args[i])
    requires c == Cluster(specs, GetShortOptionSeries(args[i]), 0, args, i + 1, acc)
    ensures ClassifyFrom(specs, args, i, acc) == ClassifyFrom(specs, args, c.next, c.parsed)
  {
    PrefixesExclusive(args[i]);
  }

  lemma LongStep(specs: OptSpecs, args: seq<string>, i: nat, acc: Args, c: Cursor)
    requires i < |args| && IsLongOptionPrefix(args[i])
    requires c == LongOption(specs, args, i, acc)
    ensures ClassifyFrom(specs, args, i, acc) == ClassifyFrom(specs, args, c.next, c.parsed)
  {
  }

  /** The search for a character that does not occur runs to the end. */
  lemma {:induction false} IndexOfAbsent(s: string, c: char)
    requires c !in s
    ensures IndexOf(s, c) == |s|
  {
    if s != [] {
      assert c !in s[1..];
      IndexOfAbsent(s[1..], c);
    }
  }

  /** The search for a character finds its first occurrence. */
  lemma IndexOfFirst(s: string, c: char, k: nat)
    requires k < |s| && s[k] == c && c !in s[..k]
    ensures IndexOf(s, c) == k
  {
    var r := IndexOf(s, c);
    assert forall j :: 0 <= j < k ==> s[..k][j] == s[j];
    assert r < |s| ==> s[r] == c;
  }

  /** A long option token without '=': its name is the whole body. */
  lemma LongToken(s: string, body: string)
    requires s == "--" + body && |body| >= 1 && body[0] != '-' && '=' !in body
    ensures IsLongOptionPrefix(s) && GetLongOption(s) == body && GetLongOptionName(s) == body
  {
    assert GetLongOption(s) == body;
    IndexOfAbsent(body, '=');
  }

  /** A long option token `--name=value`. */
  lemma LongTokenWithValue(s: string, name: string, value: string)
    requires s == "--" + name + "=" + value && |name| >= 1 && name[0] != '-' && '=' !in name
    ensures IsLongOptionPrefix(s) && GetLongOption(s) == name + "=" + value
    ensures '=' in GetLongOption(s)
    ensures GetLongOptionName(s) == name && GetLongOptionEqualValue(s) == value
  {
    var body := name + "=" + value;
    assert s == "--" + body;
    assert GetLongOption(s) == body;
    assert body[|name|] == '=';
    assert body[..|name|] == name;
    IndexOfFirst(body, '=', |name|);
    assert body[|name| + 1..] == value;
  }

  /** A declared long option resolved by its exact name. */
  lemma LongExact(specs: OptSpecs, k: nat, name: string)
    requires OnlyNamed(specs, k, name) && |name| >= 2 && IsValidLongOptionName(name)
    requires !specs.IsFlag(PrefixMatchLongOptions)
    ensures ResolveLong(specs, name) == Some(specs.options[k])
  {
    LongLookup(specs, k, name);
  }

  /** One known short option without value, then the rest of the cluster. */
  lemma ClusterFlag(specs: OptSpecs, series: string, k: nat, args: seq<string>, j: nat, acc: Args, spec: OptSpec)
    requires k < |series| && j <= |args| && IsValidShortOptionName([series[k]])
    requires specs.GetShortOptionMatch([series[k]]) == Some(spec) && spec.valueType == NoValue
    ensures Cluster(specs, series, k, args, j, acc) ==
      Cluster(specs, series, k + 1, args, j, AddOption(acc, Opt(spec.id, [series[k]], false, None)))
  {
  }

  /** One unknown short option character, then the rest of the cluster. */
  lemma ClusterUnknown(specs: OptSpecs, series: string, k: nat, args: seq<string>, j: nat, acc: Args)
    requires k < |series| && j <= |args|
    requires specs.GetShortOptionMatch([series[k]]) == None
    ensures Cluster(specs, series, k, args, j, acc) ==
      Cluster(specs, series, k + 1, args, j, AddUnknown(acc, [series[k]]))
  {
  }

  // One token at a time

  /** `-c` naming a declared option without value. */
  lemma ShortFlagToken(specs: OptSpecs, args: seq<string>, i: nat, acc: Args, c: char, spec: OptSpec)
    requires i < |args| && args[i] == ['-', c] && c != ' ' && c != '-'
    requires specs.GetShortOptionMatch([c]) == Some(spec) && spec.valueType == NoValue
    ensures ClassifyFrom(specs, args, i, acc) ==
      ClassifyFrom(specs, args, i + 1, AddOption(acc, Opt(spec.id, [c], false, None)))
  {
    var series := GetShortOptionSeries(args[i]);
    assert series == [c];
    ClusterFlag(specs, series, 0, args, i + 1, acc, spec);
    ShortStep(specs, args, i, acc, Cluster(specs, series, 0, args, i + 1, acc));
  }

  /** `-cVALUE` naming a declared option that requires a value. */
  lemma ShortAttachedValueToken(specs: OptSpecs, args: seq<string>, i: nat, acc: Args, c: char, value: string, spec: OptSpec)
    requires i < |args| && args[i] == ['-', c] + value && |value| >= 1 && c != ' ' && c != '-'
    requires specs.GetShortOptionMatch([c]) == Some(spec) && spec.valueType == Required
    ensures ClassifyFrom(specs, args, i, acc) ==
      ClassifyFrom(specs, args, i + 1, AddOption(acc, Opt(spec.id, [c], true, Some(value))))
  {
    var series := GetShortOptionSeries(args[i]);
    assert series == [c] + value;
    assert series[1..] == value;
    ClusterValueRules(specs, series, 0, args, i + 1, acc, spec);
    ShortStep(specs, args, i, acc, Cluster(specs, series, 0, args, i + 1, acc));
  }

  /** `-c` naming a declared option that requires a value, which the next token supplies. */
  lemma ShortNextValueToken(specs: OptSpecs, args: seq<string>, i: nat, acc: Args, c: char, spec: OptSpec)
    requires i + 1 < |args| && args[i] == ['-', c] && c != ' ' && c != '-'
    requires specs.GetShortOptionMatch([c]) == Some(spec) && spec.valueType == Required
    ensures ClassifyFrom(specs, args, i, acc) ==
      ClassifyFrom(specs, args, i + 2, AddOption(acc, Opt(spec.id, [c], true, Some(args[i + 1]))))
  {
    var series := GetShortOptionSeries(args[i]);
    assert series == [c] && series[1..] == [];
    ClusterValueRules(specs, series, 0, args, i + 1, acc, spec);
    assert Cluster(specs, series, 0, args, i + 1, acc) ==
      Cursor(i + 2, AddOption(acc, Opt(spec.id, [c], true, Some(args[i + 1]))));
    ShortStep(specs, args, i, acc, Cluster(specs, series, 0, args, i + 1, acc));
  }

  /** `-c` as the last token, naming a declared option that requires a value. */
  lemma ShortMissingValueToken(specs: OptSpecs, args: seq<string>, i: nat, acc: Args, c: char, spec: OptSpec)
    requires i + 1 == |args| && args[i] == ['-', c] && c != ' ' && c != '-'
    requires specs.GetShortOptionMatch([c]) == Some(spec) && spec.valueType == Required
    ensures ClassifyFrom(specs, args, i, acc) == AddOption(acc, Opt(spec.id, [c], true, None))
  {
    var series := GetShortOptionSeries(args[i]);
    assert series == [c];
    ClusterValueRules(specs, series, 0, args, i + 1, acc, spec);
    ShortStep(specs, args, i, acc, Cluster(specs, series, 0, args, i + 1, acc));
  }

  /** `--name` resolving to a declared option without value. */
  lemma LongFlagToken(specs: OptSpecs, args: seq<string>, i: nat, acc: Args, name: string, spec: OptSpec)
    requires i < |args| && args[i] == "--" + name && |name| >= 2 && name[0] != '-' && '=' !in name
    requires ResolveLong(specs, name) == Some(spec) && spec.valueType == NoValue
    ensures ClassifyFrom(specs, args, i, acc) ==
      ClassifyFrom(specs, args, i + 1, AddOption(acc, Opt(spec.id, name, false, None)))
  {
    LongToken(args[i], name);
    EqualSignAfterLongName(args[i]);
    LongStep(specs, args, i, acc, LongOption(specs, args, i, acc));
  }

  /** `--name=value` resolving to a declared option that requires a value. */
  lemma LongEqualValueToken(specs: OptSpecs, args: seq<string>, i: nat, acc: Args, name: string, value: string, spec: OptSpec)
    requires i < |args| && args[i] == "--" + name + "=" + value && |name| >= 2 && name[0] != '-' && '=' !in name
    requires ResolveLong(specs, name) == Some(spec) && spec.valueType == Required
    ensures ClassifyFrom(specs, args, i, acc) ==
      ClassifyFrom(specs, args, i + 1, AddOption(acc, Opt(spec.id, name, true, Some(value))))
  {
    LongTokenWithValue(args[i], name, value);
    EqualSignAfterLongName(args[i]);
    LongStep(specs, args, i, acc, LongOption(specs, args, i, acc));
  }

  /** `-c` or `-cVALUE` naming a declared option with an optional value. */
  lemma ShortOptionalToken(specs: OptSpecs, args: seq<string>, i: nat, acc: Args, c: char, rest: string, spec: OptSpec)
    requires i < |args| && args[i] == ['-', c] + rest && c != ' ' && c != '-'
    requires specs.GetShortOptionMatch([c]) == Some(spec) && spec.valueType == Optional
    ensures ClassifyFrom(specs, args, i, acc) ==
      ClassifyFrom(specs, args, i + 1, AddOption(acc, Opt(spec.id, [c], false, if |rest| > 0 then Some(rest) else None)))
  {
    var series := GetShortOptionSeries(args[i]);
    assert series == [c] + rest;
    assert series[1..] == rest;
    ClusterValueRules(specs, series, 0, args, i + 1, acc, spec);
    ShortStep(specs, args, i, acc, Cluster(specs, series, 0, args, i + 1, acc));
  }

  /** `--name` resolving to a declared option that requires a value, which the next token supplies. */
  lemma LongNextValueToken(specs: OptSpecs, args: seq<string>, i: nat, acc: Args, name: string, spec: OptSpec)
    requires i + 1 < |args| && args[i] == "--" + name && |name| >= 2 && name[0] != '-' && '=' !in name
    requires ResolveLong(specs, name) == Some(spec) && spec.valueType == Required
    ensures ClassifyFrom(specs, args, i, acc) ==
      ClassifyFrom(specs, args, i + 2, AddOption(acc, Opt(spec.id, name, true, Some(args[i + 1]))))
  {
    LongToken(args[i], name);
    EqualSignAfterLongName(args[i]);
    LongStep(specs, args, i, acc, LongOption(specs, args, i, acc));
  }

  /** `--name` that resolves to no declared option. */
  lemma LongUnknownToken(specs: OptSpecs, args: seq<string>, i: nat, acc: Args, name: string)
    requires i < |args| && args[i] == "--" + name && |name| >= 1 && name[0] != '-' && '=' !in name
    requires ResolveLong(specs, name) == None
    ensures ClassifyFrom(specs, args, i, acc) == ClassifyFrom(specs, args, i + 1, AddUnknown(acc, name))
  {
    LongToken(args[i], name);
    LongStep(specs, args, i, acc, LongOption(specs, args, i, acc));
  }

  /** `--name` resolving to a declared option with an optional value, given none. */
  lemma LongNoValueGivenToken(specs: OptSpecs, args: seq<string>, i: nat, acc: Args, name: string, spec: OptSpec)
    requires i < |args| && args[i] == "--" + name && |name| >= 2 && name[0] != '-' && '=' !in name
    requires ResolveLong(specs, name) == Some(spec) && spec.valueType == Optional
    ensures ClassifyFrom(specs, args, i, acc) ==
      ClassifyFrom(specs, args, i + 1, AddOption(acc, Opt(spec.id, name, false, None)))
  {
    LongToken(args[i], name);
    EqualSignAfterLongName(args[i]);
    LongStep(specs, args, i, acc, LongOption(specs, args, i, acc));
  }

  /** `--name=value` resolving to a declared option with an optional value. */
  lemma LongOptionalValueToken(specs: OptSpecs, args: seq<string>, i: nat, acc: Args, name: string, value: string, spec: OptSpec)
    requires i < |args| && args[i] == "--" + name + "=" + value && |name| >= 2 && name[0] != '-' && '=' !in name
    requires ResolveLong(specs, name) == Some(spec) && spec.valueType == Optional
    ensures ClassifyFrom(specs, args, i, acc) ==
      ClassifyFrom(specs, args, i + 1, AddOption(acc, Opt(spec.id, name, false, Some(value))))
  {
    LongTokenWithValue(args[i], name, value);
    EqualSignAfterLongName(args[i]);
    LongStep(specs, args, i, acc, LongOption(specs, args, i, acc));
  }

  /** `--name=value` for a declared option that takes no value: the unknown "name=". */
  lemma LongUnwantedValueToken(specs: OptSpecs, args: seq<string>, i: nat, acc: Args, name: string, value: string, spec: OptSpec)
    requires i < |args| && args[i] == "--" + name + "=" + value && |name| >= 2 && name[0] != '-' && '=' !in name
    requires ResolveLong(specs, name) == Some(spec) && spec.valueType == NoValue
    ensures ClassifyFrom(specs, args, i, acc) == ClassifyFrom(specs, args, i + 1, AddUnknown(acc, name + "="))
  {
    LongTokenWithValue(args[i], name, value);
    EqualSignAfterLongName(args[i]);
    LongStep(specs, args, i, acc, LongOption(specs, args, i, acc));
  }

  /** `--name` as the last token, naming a declared option that requires a value. */
  lemma LongMissingValueToken(specs: OptSpecs, args: seq<string>, i: nat, acc: Args, name: string, spec: OptSpec)
    requires i + 1 == |args| && args[i] == "--" + name && |name| >= 2 && name[0] != '-' && '=' !in name
    requires ResolveLong(specs, name) == Some(spec) && spec.valueType == Required
    ensures ClassifyFrom(specs, args, i, acc) == AddOption(acc, Opt(spec.id, name, true, None))
  {
    LongToken(args[i], name);
    EqualSignAfterLongName(args[i]);
    LongStep(specs, args, i, acc, LongOption(specs, args, i, acc));
  }

  /** `-series`: the cluster is read character by character. */
  lemma ClusterToken(specs: OptSpecs, args: seq<string>, i: nat, acc: Args, series: string)
    requires i < |args| && args[i] == "-" + series && |series| >= 1 && series[0] != ' ' && series[0] != '-'
    ensures ClassifyFrom(specs, args, i, acc) ==
      var c := Cluster(specs, series, 0, args, i + 1, acc); ClassifyFrom(specs, args, c.next, c.parsed)
  {
    assert GetShortOptionSeries(args[i]) == series;
    ShortStep(specs, args, i, acc, Cluster(specs, series, 0, args, i + 1, acc));
  }

  /** A token that is not an option and does not start with '-'. */
  lemma PlainOperand(t: string)
    requires |t| >= 1 && t[0] != '-'
    ensures IsOperand(t)
  {
  }

  /** Without prefix matching, a name no declaration carries is unresolved. */
  lemma LongUndeclared(specs: OptSpecs, name: string)
    requires !specs.IsFlag(PrefixMatchLongOptions)
    requires forall j :: 0 <= j < |specs.options| ==> specs.options[j].name != name
    ensures ResolveLong(specs, name) == None
  {
    ResolveLongExact(specs, name);
  }

  // A whole test command line is checked as a chain of single-token steps.
  // The chain is stated on `Run` rather than on `ClassifyFrom` directly:
  // `Run` reaches `ClassifyFrom` only after three unfoldings, so linking two
  // steps is a matter of matching equal terms and the verifier does not
  // re-evaluate every literal token of the line at each link.

  ghost function Countdown(specs: OptSpecs, args: seq<string>, i: nat, acc: Args, d: nat): Args
    reads specs
    requires i <= |args|
    decreases d
  {
    if d == 0 then ClassifyFrom(specs, args, i, acc) else Countdown(specs, args, i, acc, d - 1)
  }

  ghost function Run(specs: OptSpecs, args: seq<string>, i: nat, acc: Args): Args
    reads specs
    requires i <= |args|
  {
    Countdown(specs, args, i, acc, 3)
  }

  lemma RunIsClassifyFrom(specs: OptSpecs, args: seq<string>, i: nat, acc: Args)
    requires i <= |args|
    ensures Run(specs, args, i, acc) == ClassifyFrom(specs, args, i, acc)
  {
    assert Countdown(specs, args, i, acc, 1) == ClassifyFrom(specs, args, i, acc);
    assert Countdown(specs, args, i, acc, 2) == Countdown(specs, args, i, acc, 1);
  }

  /** A whole command line whose chain of steps ends in `result`. */
  lemma ClassifyByRun(specs: OptSpecs, args: seq<string>, result: Args)
    requires Run(specs, args, 0, NewArgs()) == result
    ensures Classify(specs, args) == result
  {
    RunIsClassifyFrom(specs, args, 0, NewArgs());
  }

  /** At the end of the input the result is the accumulator. */
  lemma RunEnd(specs: OptSpecs, args: seq<string>, i: nat, acc: Args)
    requires i == |args|
    ensures Run(specs, args, i, acc) == acc
  {
    RunIsClassifyFrom(specs, args, i, acc);
  }

  /** "--" at the cursor: every later token goes to `other`. */
  lemma RunTerminator(specs: OptSpecs, args: seq<string>, i: nat, acc: Args)
    requires i < |args| && args[i] == "--"
    ensures Run(specs, args, i, acc) == acc.(other := acc.other + args[i + 1..])
  {
    TerminatorStopsScanning(specs, args, i, acc);
    RunIsClassifyFrom(specs, args, i, acc);
  }

  /** A plain operand at the cursor ends option processing without `OptionsEverywhere`. */
  lemma RunOperandStops(specs: OptSpecs, args: seq<string>, i: nat, acc: Args)
    requires !specs.IsFlag(OptionsEverywhere)
    requires i < |args| && |args[i]| >= 1 && args[i][0] != '-'
    ensures Run(specs, args, i, acc) == acc.(other := acc.other + args[i..])
  {
    PlainOperand(args[i]);
    OperandStopsScanning(specs, args, i, acc);
    RunIsClassifyFrom(specs, args, i, acc);
  }

  /** A plain operand at the cursor is kept and scanning goes on with `OptionsEverywhere`. */
  lemma RunOperandEverywhere(specs: OptSpecs, args: seq<string>, i: nat, acc: Args)
    requires specs.IsFlag(OptionsEverywhere)
    requires i < |args| && |args[i]| >= 1 && args[i][0] != '-'
    ensures Run(specs, args, i, acc) == Run(specs, args, i + 1, AddOther(acc, args[i]))
  {
    PlainOperand(args[i]);
    OperandEverywhere(specs, args, i, acc);
    RunIsClassifyFrom(specs, args, i, acc);
    RunIsClassifyFrom(specs, args, i + 1, AddOther(acc, args[i]));
  }

  // Single tokens of the test command lines, each proved once for any
  // argument sequence holding that token at the cursor

  /** `-c` for the declared option `k` without value. */
  lemma StepShortFlag(specs: OptSpecs, args: seq<string>, i: nat, acc: Args, k: nat, id: string, c: char)
    requires OnlyNamed(specs, k, [c]) && specs.options[k] == OptSpec(id, [c], NoValue) && c != ' ' && c != '-'
    requires i < |args| && args[i] == ['-', c]
    ensures Run(specs, args, i, acc) == Run(specs, args, i + 1, AddOption(acc, Opt(id, [c], false, None)))
  {
    ShortLookup(specs, k, [c]);
    ShortFlagToken(specs, args, i, acc, c, specs.options[k]);
    RunIsClassifyFrom(specs, args, i, acc);
    RunIsClassifyFrom(specs, args, i + 1, AddOption(acc, Opt(id, [c], false, None)));
  }

  /** `-cVALUE` for the declared option `k` requiring a value. */
  lemma StepShortAttached(specs: OptSpecs, args: seq<string>, i: nat, acc: Args, k: nat, id: string, c: char, value: string)
    requires OnlyNamed(specs, k, [c]) && specs.options[k] == OptSpec(id, [c], Required) && c != ' ' && c != '-'
    requires i < |args| && args[i] == ['-', c] + value && |value| >= 1
    ensures Run(specs, args, i, acc) == Run(specs, args, i + 1, AddOption(acc, Opt(id, [c], true, Some(value))))
  {
    ShortLookup(specs, k, [c]);
    ShortAttachedValueToken(specs, args, i, acc, c, value, specs.options[k]);
    RunIsClassifyFrom(specs, args, i, acc);
    RunIsClassifyFrom(specs, args, i + 1, AddOption(acc, Opt(id, [c], true, Some(value))));
  }

  /** `-c` followed by a token, for the declared option `k` requiring a value. */
  lemma StepShortNext(specs: OptSpecs, args: seq<string>, i: nat, acc: Args, k: nat, id: string, c: char)
    requires OnlyNamed(specs, k, [c]) && specs.options[k] == OptSpec(id, [c], Required) && c != ' ' && c != '-'
    requires i + 1 < |args| && args[i] == ['-', c]
    ensures Run(specs, args, i, acc) == Run(specs, args, i + 2, AddOption(acc, Opt(id, [c], true, Some(args[i + 1]))))
  {
    ShortLookup(specs, k, [c]);
    ShortNextValueToken(specs, args, i, acc, c, specs.options[k]);
    RunIsClassifyFrom(specs, args, i, acc);
    RunIsClassifyFrom(specs, args, i + 2, AddOption(acc, Opt(id, [c], true, Some(args[i + 1]))));
  }

  /** `-c` as the last token, for the declared option `k` requiring a value. */
  lemma StepShortLast(specs: OptSpecs, args: seq<string>, i: nat, acc: Args, k: nat, id: string, c: char)
    requires OnlyNamed(specs, k, [c]) && specs.options[k] == OptSpec(id, [c], Required) && c != ' ' && c != '-'
    requires i + 1 == |args| && args[i] == ['-', c]
    ensures Run(specs, args, i, acc) == AddOption(acc, Opt(id, [c], true, None))
  {
    ShortLookup(specs, k, [c]);
    ShortMissingValueToken(specs, args, i, acc, c, specs.options[k]);
    RunIsClassifyFrom(specs, args, i, acc);
  }

  /** `-c` or `-cREST` for the declared option `k` with an optional value. */
  lemma StepShortOptional(specs: OptSpecs, args: seq<string>, i: nat, acc: Args, k: nat, id: string, c: char, rest: string)
    requires OnlyNamed(specs, k, [c]) && specs.options[k] == OptSpec(id, [c], Optional) && c != ' ' && c != '-'
    requires i < |args| && args[i] == ['-', c] + rest
    ensures Run(specs, args, i, acc) ==
      Run(specs, args, i + 1, AddOption(acc, Opt(id, [c], false, if |rest| > 0 then Some(rest) else None)))
  {
    ShortLookup(specs, k, [c]);
    ShortOptionalToken(specs, args, i, acc, c, rest, specs.options[k]);
    RunIsClassifyFrom(specs, args, i, acc);
    RunIsClassifyFrom(specs, args, i + 1, AddOption(acc, Opt(id, [c], false, if |rest| > 0 then Some(rest) else None)));
  }

  /** A long name that `option` accepts and that can be spelt as a token. */
  predicate LongSpelling(name: string) {
    |name| >= 2 && name[0] != '-' && ' ' !in name && '=' !in name
  }

  /** `--name=value` for the declared option `k` requiring a value. */
  lemma StepLongEq(specs: OptSpecs, args: seq<string>, i: nat, acc: Args, k: nat, id: string, name: string, value: string)
    requires OnlyNamed(specs, k, name) && specs.options[k] == OptSpec(id, name, Required) && LongSpelling(name)
    requires !specs.IsFlag(PrefixMatchLongOptions)
    requires i < |args| && args[i] == "--" + name + "=" + value
    ensures Run(specs, args, i, acc) == Run(specs, args, i + 1, AddOption(acc, Opt(id, name, true, Some(value))))
  {
    LongExact(specs, k, name);
    LongEqualValueToken(specs, args, i, acc, name, value, specs.options[k]);
    RunIsClassifyFrom(specs, args, i, acc);
    RunIsClassifyFrom(specs, args, i + 1, AddOption(acc, Opt(id, name, true, Some(value))));
  }

  /** `--name` followed by a token, for the declared option `k` requiring a value. */
  lemma StepLongNext(specs: OptSpecs, args: seq<string>, i: nat, acc: Args, k: nat, id: string, name: string)
    requires OnlyNamed(specs, k, name) && specs.options[k] == OptSpec(id, name, Required) && LongSpelling(name)
    requires !specs.IsFlag(PrefixMatchLongOptions)
    requires i + 1 < |args| && args[i] == "--" + name
    ensures Run(specs, args, i, acc) == Run(specs, args, i + 2, AddOption(acc, Opt(id, name, true, Some(args[i + 1]))))
  {
    LongExact(specs, k, name);
    LongNextValueToken(specs, args, i, acc, name, specs.options[k]);
    RunIsClassifyFrom(specs, args, i, acc);
    RunIsClassifyFrom(specs, args, i + 2, AddOption(acc, Opt(id, name, true, Some(args[i + 1]))));
  }

  /** `--name` as the last token, for the declared option `k` requiring a value. */
  lemma StepLongLast(specs: OptSpecs, args: seq<string>, i: nat, acc: Args, k: nat, id: string, name: string)
    requires OnlyNamed(specs, k, name) && specs.options[k] == OptSpec(id, name, Required) && LongSpelling(name)
    requires !specs.IsFlag(PrefixMatchLongOptions)
    requires i + 1 == |args| && args[i] == "--" + name
    ensures Run(specs, args, i, acc) == AddOption(acc, Opt(id, name, true, None))
  {
    LongExact(specs, k, name);
    LongMissingValueToken(specs, args, i, acc, name, specs.options[k]);
    RunIsClassifyFrom(specs, args, i, acc);
  }

  /** `--name` without '=' for the declared option `k` with an optional value: no value. */
  lemma StepLongOptional(specs: OptSpecs, args: seq<string>, i: nat, acc: Args, k: nat, id: string, name: string)
    requires OnlyNamed(specs, k, name) && specs.options[k] == OptSpec(id, name, Optional) && LongSpelling(name)
    requires !specs.IsFlag(PrefixMatchLongOptions)
    requires i < |args| && args[i] == "--" + name
    ensures Run(specs, args, i, acc) == Run(specs, args, i + 1, AddOption(acc, Opt(id, name, false, None)))
  {
    LongExact(specs, k, name);
    LongNoValueGivenToken(specs, args, i, acc, name, specs.options[k]);
    RunIsClassifyFrom(specs, args, i, acc);
    RunIsClassifyFrom(specs, args, i + 1, AddOption(acc, Opt(id, name, false, None)));
  }

  /** `--name=value` for the declared option `k` with an optional value. */
  lemma StepLongOptionalEq(specs: OptSpecs, args: seq<string>, i: nat, acc: Args, k: nat, id: string, name: string, value: string)
    requires OnlyNamed(specs, k, name) && specs.options[k] == OptSpec(id, name, Optional) && LongSpelling(name)
    requires !specs.IsFlag(PrefixMatchLongOptions)
    requires i < |args| && args[i] == "--" + name + "=" + value
    ensures Run(specs, args, i, acc) == Run(specs, args, i + 1, AddOption(acc, Opt(id, name, false, Some(value))))
  {
    LongExact(specs, k, name);
    LongOptionalValueToken(specs, args, i, acc, name, value, specs.options[k]);
    RunIsClassifyFrom(specs, args, i, acc);
    RunIsClassifyFrom(specs, args, i + 1, AddOption(acc, Opt(id, name, false, Some(value))));
  }

  /** `--name=value` for the declared option `k` that takes no value: the unknown "name=". */
  lemma StepLongUnwanted(specs: OptSpecs, args: seq<string>, i: nat, acc: Args, k: nat, name: string, value: string)
    requires OnlyNamed(specs, k, name) && specs.options[k].valueType == NoValue && LongSpelling(name)
    requires !specs.IsFlag(PrefixMatchLongOptions)
    requires i < |args| && args[i] == "--" + name + "=" + value
    ensures Run(specs, args, i, acc) == Run(specs, args, i + 1, AddUnknown(acc, name + "="))
  {
    LongExact(specs, k, name);
    LongUnwantedValueToken(specs, args, i, acc, name, value, specs.options[k]);
    RunIsClassifyFrom(specs, args, i, acc);
    RunIsClassifyFrom(specs, args, i + 1, AddUnknown(acc, name + "="));
  }

  /** A long option token `--name` without '=' naming a declared option without value. */
  lemma StepLongFlag(specs: OptSpecs, args: seq<string>, i: nat, acc: Args, k: nat, name: string)
    requires OnlyNamed(specs, k, name) && specs.options[k].valueType == NoValue
    requires |name| >= 2 && name[0] != '-' && ' ' !in name && '=' !in name
    requires !specs.IsFlag(PrefixMatchLongOptions)
    requires i < |args| && args[i] == "--" + name
    ensures Run(specs, args, i, acc) ==
      Run(specs, args, i + 1, AddOption(acc, Opt(specs.options[k].id, name, false, None)))
  {
    LongExact(specs, k, name);
    LongFlagToken(specs, args, i, acc, name, specs.options[k]);
    RunIsClassifyFrom(specs, args, i, acc);
    RunIsClassifyFrom(specs, args, i + 1, AddOption(acc, Opt(specs.options[k].id, name, false, None)));
  }

  /** Without prefix matching, a long option token `--name` naming no declared option. */
  lemma StepLongUndeclared(specs: OptSpecs, args: seq<string>, i: nat, acc: Args, name: string)
    requires forall j :: 0 <= j < |specs.options| ==> specs.options[j].name != name
    requires |name| >= 1 && name[0] != '-' && '=' !in name
    requires !specs.IsFlag(PrefixMatchLongOptions)
    requires i < |args| && args[i] == "--" + name
    ensures Run(specs, args, i, acc) == Run(specs, args, i + 1, AddUnknown(acc, name))
  {
    LongUndeclared(specs, name);
    LongUnknownToken(specs, args, i, acc, name);
    RunIsClassifyFrom(specs, args, i, acc);
    RunIsClassifyFrom(specs, args, i + 1, AddUnknown(acc, name));
  }

  /** With prefix matching, `--name` abbreviating exactly one of version and verbose. */
  lemma StepPrefixFlag(specs: OptSpecs, args: seq<string>, i: nat, acc: Args, k: nat, name: string)
    requires VersionVerboseSpecs(specs) && specs.flags == [PrefixMatchLongOptions]
    requires k < 2 && |name| >= 2 && name[0] != '-' && ' ' !in name && '=' !in name
    requires name <= specs.options[k].name && !(name <= specs.options[1 - k].name)
    requires i < |args| && args[i] == "--" + name
    ensures Run(specs, args, i, acc) ==
      Run(specs, args, i + 1, AddOption(acc, Opt(specs.options[k].id, name, false, None)))
  {
    PrefixResolves(specs, name, k);
    LongFlagToken(specs, args, i, acc, name, specs.options[k]);
    RunIsClassifyFrom(specs, args, i, acc);
    RunIsClassifyFrom(specs, args, i + 1, AddOption(acc, Opt(specs.options[k].id, name, false, None)));
  }

  /** With prefix matching, `--name` abbreviating both version and verbose. */
  lemma StepPrefixAmbiguous(specs: OptSpecs, args: seq<string>, i: nat, acc: Args, name: string)
    requires VersionVerboseSpecs(specs) && specs.flags == [PrefixMatchLongOptions]
    requires |name| >= 1 && name[0] != '-' && '=' !in name
    requires name <= "version" && name <= "verbose"
    requires i < |args| && args[i] == "--" + name
    ensures Run(specs, args, i, acc) == Run(specs, args, i + 1, AddUnknown(acc, name))
  {
    PrefixOfTwoIsUnresolved(specs, name, specs.options[0], specs.options[1]);
    LongUnknownToken(specs, args, i, acc, name);
    RunIsClassifyFrom(specs, args, i, acc);
    RunIsClassifyFrom(specs, args, i + 1, AddUnknown(acc, name));
  }

  /** The string facts the long option tokens of the test command lines rely on. */
  lemma LongTokenSpellings()
    ensures "--version" == "--" + "version" && "--verbose" == "--" + "verbose"
    ensures "--ver" == "--" + "ver" && "--verb" == "--" + "verb" && "--versi" == "--" + "versi"
    ensures "--debug" == "--" + "debug" && "--foo" == "--" + "foo"
    ensures "--bbb" == "--" + "bbb" && "--eee" == "--" + "eee"
    ensures "ver" <= "version" && "ver" <= "verbose"
    ensures "verb" <= "verbose" && !("verb" <= "version")
    ensures "versi" <= "version" && !("versi" <= "verbose")
    ensures "verbose" <= "verbose" && !("verbose" <= "version")
  {
    assert "verb"[3] != "version"[3];
    assert "versi"[3] != "verbose"[3];
    assert "verbose"[3] != "version"[3];
  }

  /** The characters a, b and c of the cluster "abcd" where only d is declared. */
  lemma AbcUnknown(specs: OptSpecs, args: seq<string>, j: nat, acc: Args)
    requires specs.options == [OptSpec("debug", "d", Optional)]
    requires j <= |args|
    ensures Cluster(specs, "abcd", 0, args, j, acc) ==
      Cluster(specs, "abcd", 3, args, j, AddUnknown(AddUnknown(AddUnknown(acc, "a"), "b"), "c"))
  {
    ShortUnknown(specs, "a");
    ShortUnknown(specs, "b");
    ShortUnknown(specs, "c");
    ClusterUnknown(specs, "abcd", 0, args, j, acc);
    ClusterUnknown(specs, "abcd", 1, args, j, AddUnknown(acc, "a"));
    ClusterUnknown(specs, "abcd", 2, args, j, AddUnknown(AddUnknown(acc, "a"), "b"));
  }

  /** "-abcd" where only d is declared, with an optional value: a, b and c are unknown. */
  lemma StepAbcdDebug(specs: OptSpecs, args: seq<string>, i: nat, acc: Args)
    requires specs.options == [OptSpec("debug", "d", Optional)]
    requires i < |args| && args[i] == "-abcd"
    ensures Run(specs, args, i, acc) ==
      Run(specs, args, i + 1,
        AddOption(AddUnknown(AddUnknown(AddUnknown(acc, "a"), "b"), "c"), Opt("debug", "d", false, None)))
  {
    var debug := specs.options[0];
    assert OnlyNamed(specs, 0, "d");
    ShortLookup(specs, 0, "d");
    var a3 := AddUnknown(AddUnknown(AddUnknown(acc, "a"), "b"), "c");
    AbcUnknown(specs, args, i + 1, acc);
    ClusterValueRules(specs, "abcd", 3, args, i + 1, a3, debug);
    ClusterToken(specs, args, i, acc, "abcd");
    RunIsClassifyFrom(specs, args, i, acc);
    RunIsClassifyFrom(specs, args, i + 1, AddOption(a3, Opt("debug", "d", false, None)));
  }

  /** "-adbc" where only d is declared, with an optional value: a is unknown, d takes "bc". */
  lemma StepAdbcDebug(specs: OptSpecs, args: seq<string>, i: nat, acc: Args)
    requires specs.options == [OptSpec("debug", "d", Optional)]
    requires i < |args| && args[i] == "-adbc"
    ensures Run(specs, args, i, acc) ==
      Run(specs, args, i + 1, AddOption(AddUnknown(acc, "a"), Opt("debug", "d", false, Some("bc"))))
  {
    var debug := specs.options[0];
    assert OnlyNamed(specs, 0, "d");
    ShortLookup(specs, 0, "d");
    ShortUnknown(specs, "a");
    ClusterUnknown(specs, "adbc", 0, args, i + 1, acc);
    ClusterValueRules(specs, "adbc", 1, args, i + 1, AddUnknown(acc, "a"), debug);
    assert "adbc"[2..] == "bc";
    ClusterToken(specs, args, i, acc, "adbc");
    RunIsClassifyFrom(specs, args, i, acc);
    RunIsClassifyFrom(specs, args, i + 1, AddOption(AddUnknown(acc, "a"), Opt("debug", "d", false, Some("bc"))));
  }

  /** "-abcd" with nothing declared: four unknown characters. */
  lemma StepAbcdUndeclared(specs: OptSpecs, args: seq<string>, i: nat, acc: Args)
    requires specs.options == []
    requires i < |args| && args[i] == "-abcd"
    ensures Run(specs, args, i, acc) ==
      Run(specs, args, i + 1, AddUnknown(AddUnknown(AddUnknown(AddUnknown(acc, "a"), "b"), "c"), "d"))
  {
    var a1 := AddUnknown(acc, "a");
    var a2 := AddUnknown(a1, "b");
    var a3 := AddUnknown(a2, "c");
    ClusterUnknown(specs, "abcd", 0, args, i + 1, acc);
    ClusterUnknown(specs, "abcd", 1, args, i + 1, a1);
    ClusterUnknown(specs, "abcd", 2, args, i + 1, a2);
    ClusterUnknown(specs, "abcd", 3, args, i + 1, a3);
    ClusterToken(specs, args, i, acc, "abcd");
    RunIsClassifyFrom(specs, args, i, acc);
    RunIsClassifyFrom(specs, args, i + 1, AddUnknown(AddUnknown(AddUnknown(AddUnknown(acc, "a"), "b"), "c"), "d"));
  }

  /** "-e" with nothing declared: one unknown character. */
  lemma StepEUndeclared(specs: OptSpecs, args: seq<string>, i: nat, acc: Args)
    requires specs.options == []
    requires i < |args| && args[i] == "-e"
    ensures Run(specs, args, i, acc) == Run(specs, args, i + 1, AddUnknown(acc, "e"))
  {
    ClusterUnknown(specs, "e", 0, args, i + 1, acc);
    ClusterToken(specs, args, i, acc, "e");
    RunIsClassifyFrom(specs, args, i, acc);
    RunIsClassifyFrom(specs, args, i + 1, AddUnknown(acc, "e"));
  }

  /** "-aaa" when a is not declared: three unknown entries. */
  lemma StepAaaUndeclared(specs: OptSpecs, args: seq<string>, i: nat, acc: Args)
    requires forall j :: 0 <= j < |specs.options| ==> specs.options[j].name != "a"
    requires i < |args| && args[i] == "-aaa"
    ensures Run(specs, args, i, acc) ==
      Run(specs, args, i + 1, AddUnknown(AddUnknown(AddUnknown(acc, "a"), "a"), "a"))
  {
    ShortUnknown(specs, "a");
    ClusterUnknown(specs, "aaa", 0, args, i + 1, acc);
    ClusterUnknown(specs, "aaa", 1, args, i + 1, AddUnknown(acc, "a"));
    ClusterUnknown(specs, "aaa", 2, args, i + 1, AddUnknown(AddUnknown(acc, "a"), "a"));
    ClusterToken(specs, args, i, acc, "aaa");
    RunIsClassifyFrom(specs, args, i, acc);
    RunIsClassifyFrom(specs, args, i + 1, AddUnknown(AddUnknown(AddUnknown(acc, "a"), "a"), "a"));
  }

  /** "-cd" where c and d are declared without value under one id. */
  lemma StepCdShared(specs: OptSpecs, args: seq<string>, i: nat, acc: Args)
    requires OnlyNamed(specs, 1, "c") && OnlyNamed(specs, 2, "d")
    requires specs.options[1] == OptSpec("aaa", "c", NoValue) && specs.options[2] == OptSpec("aaa", "d", NoValue)
    requires i < |args| && args[i] == "-cd"
    ensures Run(specs, args, i, acc) ==
      Run(specs, args, i + 1, AddOption(AddOption(acc, Opt("aaa", "c", false, None)), Opt("aaa", "d", false, None)))
  {
    ShortLookup(specs, 1, "c");
    ShortLookup(specs, 2, "d");
    ClusterFlag(specs, "cd", 0, args, i + 1, acc, specs.options[1]);
    ClusterFlag(specs, "cd", 1, args, i + 1, AddOption(acc, Opt("aaa", "c", false, None)), specs.options[2]);
    ClusterToken(specs, args, i, acc, "cd");
    RunIsClassifyFrom(specs, args, i, acc);
    RunIsClassifyFrom(specs, args, i + 1, AddOption(AddOption(acc, Opt("aaa", "c", false, None)), Opt("aaa", "d", false, None)));
  }

  // The command lines of the source's tests

  /** Help and file options, each declared with a short and a long name. */
  ghost predicate HelpAndFileSpecs(specs: OptSpecs)
    reads specs
  {
    specs.options == [OptSpec("help", "h", NoValue), OptSpec("help", "help", NoValue),
                      OptSpec("file", "f", Required), OptSpec("file", "file", Required)]
  }

  lemma HelpAndFileNames(specs: OptSpecs)
    requires HelpAndFileSpecs(specs)
    ensures OnlyNamed(specs, 0, "h") && OnlyNamed(specs, 1, "help")
    ensures OnlyNamed(specs, 2, "f") && OnlyNamed(specs, 3, "file")
  {
  }

  lemma HelpAndFileFrom3(specs: OptSpecs, args: seq<string>, acc: Args)
    requires HelpAndFileSpecs(specs) && specs.flags == []
    requires |args| == 7 && args[0] == "-h" && args[1] == "--help" && args[2] == "-f123" &&
      args[3] == "-f" && args[4] == "456" && args[5] == "foo" && args[6] == "bar"
    ensures Run(specs, args, 3, acc) ==
      var a := AddOption(acc, Opt("file", "f", true, Some("456"))); a.(other := a.other + ["foo", "bar"])
  {
    HelpAndFileNames(specs);
    StepShortNext(specs, args, 3, acc, 2, "file", 'f');
    var a := AddOption(acc, Opt("file", "f", true, Some("456")));
    RunOperandStops(specs, args, 5, a);
    assert args[5..] == ["foo", "bar"];
  }

  lemma HelpAndFileFrom1(specs: OptSpecs, args: seq<string>, acc: Args)
    requires HelpAndFileSpecs(specs) && specs.flags == []
    requires |args| == 7 && args[0] == "-h" && args[1] == "--help" && args[2] == "-f123" &&
      args[3] == "-f" && args[4] == "456" && args[5] == "foo" && args[6] == "bar"
    ensures Run(specs, args, 1, acc) ==
      var a := AddOption(AddOption(acc, Opt("help", "help", false, None)), Opt("file", "f", true, Some("123")));
      var b := AddOption(a, Opt("file", "f", true, Some("456")));
      b.(other := b.other + ["foo", "bar"])
  {
    HelpAndFileNames(specs);
    var a1 := AddOption(acc, Opt("help", "help", false, None));
    StepLongFlag(specs, args, 1, acc, 1, "help");
    StepShortAttached(specs, args, 2, a1, 2, "file", 'f', "123");
    HelpAndFileFrom3(specs, args, AddOption(a1, Opt("file", "f", true, Some("123"))));
  }

  lemma HelpAndFileFrom0(specs: OptSpecs, args: seq<string>, acc: Args)
    requires HelpAndFileSpecs(specs) && specs.flags == []
    requires |args| == 7 && args[0] == "-h" && args[1] == "--help" && args[2] == "-f123" &&
      args[3] == "-f" && args[4] == "456" && args[5] == "foo" && args[6] == "bar"
    ensures Run(specs, args, 0, acc) ==
      var a := AddOption(AddOption(acc, Opt("help", "h", false, None)), Opt("help", "help", false, None));
      var b := AddOption(AddOption(a, Opt("file", "f", true, Some("123"))), Opt("file", "f", true, Some("456")));
      b.(other := b.other + ["foo", "bar"])
  {
    HelpAndFileNames(specs);
    StepShortFlag(specs, args, 0, acc, 0, "help", 'h');
    HelpAndFileFrom1(specs, args, AddOption(acc, Opt("help", "h", false, None)));
  }

  /** Short and long names, an attached and a separate required value, then the first operand. */
  lemma HelpAndFile(specs: OptSpecs)
    requires HelpAndFileSpecs(specs) && specs.flags == []
    ensures Classify(specs, ["-h", "--help", "-f123", "-f", "456", "foo", "bar"]) ==
      Args([Opt("help", "h", false, None), Opt("help", "help", false, None),
            Opt("file", "f", true, Some("123")), Opt("file", "f", true, Some("456"))],
           ["foo", "bar"], [], false)
  {
    HelpAndFileFrom0(specs, ["-h", "--help", "-f123", "-f", "456", "foo", "bar"], NewArgs());
    ClassifyByRun(specs, ["-h", "--help", "-f123", "-f", "456", "foo", "bar"],
      Args([Opt("help", "h", false, None), Opt("help", "help", false, None),
            Opt("file", "f", true, Some("123")), Opt("file", "f", true, Some("456"))],
           ["foo", "bar"], [], false));
  }

  /** Without `OptionsEverywhere` the first operand ends option processing. */
  lemma HelpThenOperandFrom0(specs: OptSpecs, args: seq<string>, acc: Args)
    requires specs.options == [OptSpec("help", "h", NoValue)] && specs.flags == []
    requires |args| == 3 && args[0] == "-h" && args[1] == "foo" && args[2] == "-h"
    ensures Run(specs, args, 0, acc) ==
      var a := AddOption(acc, Opt("help", "h", false, None)); a.(other := a.other + ["foo", "-h"])
  {
    var a1 := AddOption(acc, Opt("help", "h", false, None));
    assert OnlyNamed(specs, 0, "h");
    StepShortFlag(specs, args, 0, acc, 0, "help", 'h');
    RunOperandStops(specs, args, 1, a1);
    assert args[1..] == ["foo", "-h"];
  }

  lemma HelpThenOperand(specs: OptSpecs)
    requires specs.options == [OptSpec("help", "h", NoValue)] && specs.flags == []
    ensures Classify(specs, ["-h", "foo", "-h"]) == Args([Opt("help", "h", false, None)], ["foo", "-h"], [], false)
  {
    HelpThenOperandFrom0(specs, ["-h", "foo", "-h"], NewArgs());
    ClassifyByRun(specs, ["-h", "foo", "-h"],
      Args([Opt("help", "h", false, None)], ["foo", "-h"], [], false));
  }

  lemma EverywhereFrom3(specs: OptSpecs, args: seq<string>, acc: Args)
    requires HelpAndFileSpecs(specs) && specs.flags == [OptionsEverywhere]
    requires |args| == 7 && args[0] == "-h" && args[1] == "foo" && args[2] == "--help" &&
      args[3] == "--file=123" && args[4] == "bar" && args[5] == "--file" && args[6] == "456"
    ensures Run(specs, args, 3, acc) ==
      var a := AddOption(acc, Opt("file", "file", true, Some("123")));
      AddOption(AddOther(a, "bar"), Opt("file", "file", true, Some("456")))
  {
    HelpAndFileNames(specs);
    var a1 := AddOption(acc, Opt("file", "file", true, Some("123")));
    StepLongEq(specs, args, 3, acc, 3, "file", "file", "123");
    RunOperandEverywhere(specs, args, 4, a1);
    StepLongNext(specs, args, 5, AddOther(a1, "bar"), 3, "file", "file");
    RunEnd(specs, args, 7, AddOption(AddOther(a1, "bar"), Opt("file", "file", true, Some("456"))));
  }

  lemma EverywhereFrom0(specs: OptSpecs, args: seq<string>, acc: Args)
    requires HelpAndFileSpecs(specs) && specs.flags == [OptionsEverywhere]
    requires |args| == 7 && args[0] == "-h" && args[1] == "foo" && args[2] == "--help" &&
      args[3] == "--file=123" && args[4] == "bar" && args[5] == "--file" && args[6] == "456"
    ensures Run(specs, args, 0, acc) ==
      var a := AddOther(AddOption(acc, Opt("help", "h", false, None)), "foo");
      var b := AddOption(AddOption(a, Opt("help", "help", false, None)), Opt("file", "file", true, Some("123")));
      AddOption(AddOther(b, "bar"), Opt("file", "file", true, Some("456")))
  {
    HelpAndFileNames(specs);
    var a1 := AddOption(acc, Opt("help", "h", false, None));
    var a2 := AddOther(a1, "foo");
    StepShortFlag(specs, args, 0, acc, 0, "help", 'h');
    RunOperandEverywhere(specs, args, 1, a1);
    StepLongFlag(specs, args, 2, a2, 1, "help");
    EverywhereFrom3(specs, args, AddOption(a2, Opt("help", "help", false, None)));
  }

  /** With `OptionsEverywhere` options after operands are still options. */
  lemma Everywhere(specs: OptSpecs)
    requires HelpAndFileSpecs(specs) && specs.flags == [OptionsEverywhere]
    ensures Classify(specs, ["-h", "foo", "--help", "--file=123", "bar", "--file", "456"]) ==
      Args([Opt("help", "h", false, None), Opt("help", "help", false, None),
            Opt("file", "file", true, Some("123")), Opt("file", "file", true, Some("456"))],
           ["foo", "bar"], [], false)
  {
    EverywhereFrom0(specs, ["-h", "foo", "--help", "--file=123", "bar", "--file", "456"], NewArgs());
    ClassifyByRun(specs, ["-h", "foo", "--help", "--file=123", "bar", "--file", "456"],
      Args([Opt("help", "h", false, None), Opt("help", "help", false, None),
            Opt("file", "file", true, Some("123")), Opt("file", "file", true, Some("456"))],
           ["foo", "bar"], [], false));
  }

  /** Optional values: attached to a short name or after '=' on a long one, never the next token. */
  ghost predicate DebugVerboseSpecs(specs: OptSpecs)
    reads specs
  {
    specs.options == [OptSpec("debug", "d", Optional), OptSpec("verbose", "verbose", Optional)] && specs.flags == []
  }

  lemma DebugVerboseNames(specs: OptSpecs)
    requires DebugVerboseSpecs(specs)
    ensures OnlyNamed(specs, 0, "d") && OnlyNamed(specs, 1, "verbose")
  {
  }

  lemma OptionalValuesFrom2(specs: OptSpecs, args: seq<string>, acc: Args)
    requires DebugVerboseSpecs(specs)
    requires |args| == 4 && args[0] == "-d1" && args[1] == "-d" && args[2] == "--verbose" &&
      args[3] == "--verbose=123"
    ensures Run(specs, args, 2, acc) ==
      AddOption(AddOption(acc, Opt("verbose", "verbose", false, None)), Opt("verbose", "verbose", false, Some("123")))
  {
    DebugVerboseNames(specs);
    StepLongOptional(specs, args, 2, acc, 1, "verbose", "verbose");
    StepLongOptionalEq(specs, args, 3, AddOption(acc, Opt("verbose", "verbose", false, None)), 1, "verbose", "verbose", "123");
    RunEnd(specs, args, 4, AddOption(AddOption(acc, Opt("verbose", "verbose", false, None)), Opt("verbose", "verbose", false, Some("123"))));
  }

  lemma OptionalValuesFrom0(specs: OptSpecs, args: seq<string>, acc: Args)
    requires DebugVerboseSpecs(specs)
    requires |args| == 4 && args[0] == "-d1" && args[1] == "-d" && args[2] == "--verbose" &&
      args[3] == "--verbose=123"
    ensures Run(specs, args, 0, acc) ==
      var a := AddOption(AddOption(acc, Opt("debug", "d", false, Some("1"))), Opt("debug", "d", false, None));
      AddOption(AddOption(a, Opt("verbose", "verbose", false, None)), Opt("verbose", "verbose", false, Some("123")))
  {
    DebugVerboseNames(specs);
    var a1 := AddOption(acc, Opt("debug", "d", false, Some("1")));
    StepShortOptional(specs, args, 0, acc, 0, "debug", 'd', "1");
    StepShortOptional(specs, args, 1, a1, 0, "debug", 'd', "");
    OptionalValuesFrom2(specs, args, AddOption(a1, Opt("debug", "d", false, None)));
  }

  lemma OptionalValues(specs: OptSpecs)
    requires DebugVerboseSpecs(specs)
    ensures Classify(specs, ["-d1", "-d", "--verbose", "--verbose=123"]) ==
      Args([Opt("debug", "d", false, Some("1")), Opt("debug", "d", false, None),
            Opt("verbose", "verbose", false, None), Opt("verbose", "verbose", false, Some("123"))], [], [], false)
  {
    OptionalValuesFrom0(specs, ["-d1", "-d", "--verbose", "--verbose=123"], NewArgs());
    ClassifyByRun(specs, ["-d1", "-d", "--verbose", "--verbose=123"],
      Args([Opt("debug", "d", false, Some("1")), Opt("debug", "d", false, None),
            Opt("verbose", "verbose", false, None), Opt("verbose", "verbose", false, Some("123"))], [], [], false));
  }

  /** Unknown characters of a cluster are each reported; an optional value takes the rest of the cluster. */
  lemma ClusterWithUnknownsFrom0(specs: OptSpecs, args: seq<string>, acc: Args)
    requires specs.options == [OptSpec("debug", "d", Optional)] && specs.flags == []
    requires |args| == 2 && args[0] == "-abcd" && args[1] == "-adbc"
    ensures Run(specs, args, 0, acc) ==
      var a := AddOption(AddUnknown(AddUnknown(AddUnknown(acc, "a"), "b"), "c"), Opt("debug", "d", false, None));
      AddOption(AddUnknown(a, "a"), Opt("debug", "d", false, Some("bc")))
  {
    var a4 := AddOption(AddUnknown(AddUnknown(AddUnknown(acc, "a"), "b"), "c"), Opt("debug", "d", false, None));
    StepAbcdDebug(specs, args, 0, acc);
    StepAdbcDebug(specs, args, 1, a4);
    RunEnd(specs, args, 2, AddOption(AddUnknown(a4, "a"), Opt("debug", "d", false, Some("bc"))));
  }

  lemma ClusterWithUnknowns(specs: OptSpecs)
    requires specs.options == [OptSpec("debug", "d", Optional)] && specs.flags == []
    ensures Classify(specs, ["-abcd", "-adbc"]) ==
      Args([Opt("debug", "d", false, None), Opt("debug", "d", false, Some("bc"))], [], ["a", "b", "c", "a"], false)
  {
    ClusterWithUnknownsFrom0(specs, ["-abcd", "-adbc"], NewArgs());
    ClassifyByRun(specs, ["-abcd", "-adbc"],
      Args([Opt("debug", "d", false, None), Opt("debug", "d", false, Some("bc"))], [], ["a", "b", "c", "a"], false));
  }

  /** Prefix matching: a unique prefix resolves, an ambiguous one is unknown. */
  ghost predicate VersionVerboseSpecs(specs: OptSpecs)
    reads specs
  {
    specs.options == [OptSpec("version", "version", NoValue), OptSpec("verbose", "verbose", NoValue)]
  }

  /** With prefix matching, `name` abbreviates only the declaration at index `k`. */
  lemma PrefixResolves(specs: OptSpecs, name: string, k: nat)
    requires VersionVerboseSpecs(specs) && specs.flags == [PrefixMatchLongOptions]
    requires k < 2 && |name| >= 2 && name[0] != '-' && ' ' !in name && '=' !in name
    requires name <= specs.options[k].name && !(name <= specs.options[1 - k].name)
    ensures ResolveLong(specs, name) == Some(specs.options[k])
  {
    assert "version"[3] != "verbose"[3];
    assert specs.Valid();
    ResolveLongByPrefixComplete(specs, name, k);
  }

  lemma PrefixMatchFrom2(specs: OptSpecs, args: seq<string>, acc: Args)
    requires VersionVerboseSpecs(specs) && specs.flags == [PrefixMatchLongOptions]
    requires |args| == 4 && args[0] == "--ver" && args[1] == "--verb" && args[2] == "--versi" &&
      args[3] == "--verbose"
    ensures Run(specs, args, 2, acc) ==
      AddOption(AddOption(acc, Opt("version", "versi", false, None)), Opt("verbose", "verbose", false, None))
  {
    LongTokenSpellings();
    StepPrefixFlag(specs, args, 2, acc, 0, "versi");
    StepPrefixFlag(specs, args, 3, AddOption(acc, Opt("version", "versi", false, None)), 1, "verbose");
    RunEnd(specs, args, 4, AddOption(AddOption(acc, Opt("version", "versi", false, None)), Opt("verbose", "verbose", false, None)));
  }

  lemma PrefixMatchFrom0(specs: OptSpecs, args: seq<string>, acc: Args)
    requires VersionVerboseSpecs(specs) && specs.flags == [PrefixMatchLongOptions]
    requires |args| == 4 && args[0] == "--ver" && args[1] == "--verb" && args[2] == "--versi" &&
      args[3] == "--verbose"
    ensures Run(specs, args, 0, acc) ==
      var a := AddOption(AddUnknown(acc, "ver"), Opt("verbose", "verb", false, None));
      AddOption(AddOption(a, Opt("version", "versi", false, None)), Opt("verbose", "verbose", false, None))
  {
    LongTokenSpellings();
    StepPrefixAmbiguous(specs, args, 0, acc, "ver");
    StepPrefixFlag(specs, args, 1, AddUnknown(acc, "ver"), 1, "verb");
    PrefixMatchFrom2(specs, args, AddOption(AddUnknown(acc, "ver"), Opt("verbose", "verb", false, None)));
  }

  lemma PrefixMatch(specs: OptSpecs)
    requires VersionVerboseSpecs(specs) && specs.flags == [PrefixMatchLongOptions]
    ensures Classify(specs, ["--ver", "--verb", "--versi", "--verbose"]) ==
      Args([Opt("verbose", "verb", false, None), Opt("version", "versi", false, None),
            Opt("verbose", "verbose", false, None)], [], ["ver"], false)
  {
    PrefixMatchFrom0(specs, ["--ver", "--verb", "--versi", "--verbose"], NewArgs());
    ClassifyByRun(specs, ["--ver", "--verb", "--versi", "--verbose"],
      Args([Opt("verbose", "verb", false, None), Opt("version", "versi", false, None),
            Opt("verbose", "verbose", false, None)], [], ["ver"], false));
  }

  lemma VersionVerboseNames(specs: OptSpecs)
    requires VersionVerboseSpecs(specs)
    ensures OnlyNamed(specs, 0, "version") && OnlyNamed(specs, 1, "verbose")
    ensures forall j :: 0 <= j < |specs.options| ==> specs.options[j].name != "ver"
    ensures forall j :: 0 <= j < |specs.options| ==> specs.options[j].name != "verb"
    ensures forall j :: 0 <= j < |specs.options| ==> specs.options[j].name != "versi"
  {
  }

  lemma ExactMatchFrom3(specs: OptSpecs, args: seq<string>, acc: Args)
    requires VersionVerboseSpecs(specs) && specs.flags == []
    requires |args| == 5 && args[0] == "--version" && args[1] == "--ver" && args[2] == "--verb" &&
      args[3] == "--versi" && args[4] == "--verbose"
    ensures Run(specs, args, 3, acc) ==
      AddOption(AddUnknown(acc, "versi"), Opt("verbose", "verbose", false, None))
  {
    VersionVerboseNames(specs);
    LongTokenSpellings();
    StepLongUndeclared(specs, args, 3, acc, "versi");
    StepLongFlag(specs, args, 4, AddUnknown(acc, "versi"), 1, "verbose");
    RunEnd(specs, args, 5, AddOption(AddUnknown(acc, "versi"), Opt("verbose", "verbose", false, None)));
  }

  lemma ExactMatchFrom1(specs: OptSpecs, args: seq<string>, acc: Args)
    requires VersionVerboseSpecs(specs) && specs.flags == []
    requires |args| == 5 && args[0] == "--version" && args[1] == "--ver" && args[2] == "--verb" &&
      args[3] == "--versi" && args[4] == "--verbose"
    ensures Run(specs, args, 1, acc) ==
      AddOption(AddUnknown(AddUnknown(AddUnknown(acc, "ver"), "verb"), "versi"), Opt("verbose", "verbose", false, None))
  {
    VersionVerboseNames(specs);
    LongTokenSpellings();
    StepLongUndeclared(specs, args, 1, acc, "ver");
    StepLongUndeclared(specs, args, 2, AddUnknown(acc, "ver"), "verb");
    ExactMatchFrom3(specs, args, AddUnknown(AddUnknown(acc, "ver"), "verb"));
  }

  lemma ExactMatchFrom0(specs: OptSpecs, args: seq<string>, acc: Args)
    requires VersionVerboseSpecs(specs) && specs.flags == []
    requires |args| == 5 && args[0] == "--version" && args[1] == "--ver" && args[2] == "--verb" &&
      args[3] == "--versi" && args[4] == "--verbose"
    ensures Run(specs, args, 0, acc) ==
      var a := AddUnknown(AddUnknown(AddUnknown(AddOption(acc, Opt("version", "version", false, None)), "ver"), "verb"), "versi");
      AddOption(a, Opt("verbose", "verbose", false, None))
  {
    VersionVerboseNames(specs);
    LongTokenSpellings();
    StepLongFlag(specs, args, 0, acc, 0, "version");
    ExactMatchFrom1(specs, args, AddOption(acc, Opt("version", "version", false, None)));
  }

  /** Without prefix matching only whole names match. */
  lemma ExactMatch(specs: OptSpecs)
    requires VersionVerboseSpecs(specs) && specs.flags == []
    ensures Classify(specs, ["--version", "--ver", "--verb", "--versi", "--verbose"]) ==
      Args([Opt("version", "version", false, None), Opt("verbose", "verbose", false, None)], [],
           ["ver", "verb", "versi"], false)
  {
    ExactMatchFrom0(specs, ["--version", "--ver", "--verb", "--versi", "--verbose"], NewArgs());
    ClassifyByRun(specs, ["--version", "--ver", "--verb", "--versi", "--verbose"],
      Args([Opt("version", "version", false, None), Opt("verbose", "verbose", false, None)], [],
           ["ver", "verb", "versi"], false));
  }

  /** "--" ends option processing even when options may follow operands. */
  ghost predicate HelpFileEverywhereSpecs(specs: OptSpecs)
    reads specs
  {
    specs.options == [OptSpec("help", "h", NoValue), OptSpec("file", "file", Required)]
    && specs.flags == [OptionsEverywhere]
  }

  lemma TerminatorEverywhereFrom0(specs: OptSpecs, args: seq<string>, acc: Args)
    requires HelpFileEverywhereSpecs(specs)
    requires |args| == 7 && args[0] == "-h" && args[1] == "foo" && args[2] == "--file=123" &&
      args[3] == "--" && args[4] == "bar" && args[5] == "--file" && args[6] == "456"
    ensures Run(specs, args, 0, acc) ==
      var a := AddOption(AddOther(AddOption(acc, Opt("help", "h", false, None)), "foo"), Opt("file", "file", true, Some("123")));
      a.(other := a.other + ["bar", "--file", "456"])
  {
    assert OnlyNamed(specs, 0, "h") && OnlyNamed(specs, 1, "file");
    var a1 := AddOption(acc, Opt("help", "h", false, None));
    var a2 := AddOther(a1, "foo");
    var a3 := AddOption(a2, Opt("file", "file", true, Some("123")));
    StepShortFlag(specs, args, 0, acc, 0, "help", 'h');
    RunOperandEverywhere(specs, args, 1, a1);
    StepLongEq(specs, args, 2, a2, 1, "file", "file", "123");
    RunTerminator(specs, args, 3, a3);
    assert args[4..] == ["bar", "--file", "456"];
  }

  lemma TerminatorEverywhere(specs: OptSpecs)
    requires HelpFileEverywhereSpecs(specs)
    ensures Classify(specs, ["-h", "foo", "--file=123", "--", "bar", "--file", "456"]) ==
      Args([Opt("help", "h", false, None), Opt("file", "file", true, Some("123"))],
           ["foo", "bar", "--file", "456"], [], false)
  {
    TerminatorEverywhereFrom0(specs, ["-h", "foo", "--file=123", "--", "bar", "--file", "456"], NewArgs());
    ClassifyByRun(specs, ["-h", "foo", "--file=123", "--", "bar", "--file", "456"],
      Args([Opt("help", "h", false, None), Opt("file", "file", true, Some("123"))],
           ["foo", "bar", "--file", "456"], [], false));
  }

  /** An empty '=' value is a value; a required value at the end of input is missing. */
  lemma EmptyThenMissingFrom0(specs: OptSpecs, args: seq<string>, acc: Args)
    requires specs.options == [OptSpec("file", "file", Required)] && specs.flags == []
    requires |args| == 2 && args[0] == "--file=" && args[1] == "--file"
    ensures Run(specs, args, 0, acc) ==
      AddOption(AddOption(acc, Opt("file", "file", true, Some(""))), Opt("file", "file", true, None))
  {
    assert OnlyNamed(specs, 0, "file");
    StepLongEq(specs, args, 0, acc, 0, "file", "file", "");
    StepLongLast(specs, args, 1, AddOption(acc, Opt("file", "file", true, Some(""))), 0, "file", "file");
  }

  lemma EmptyThenMissing(specs: OptSpecs)
    requires specs.options == [OptSpec("file", "file", Required)] && specs.flags == []
    ensures Classify(specs, ["--file=", "--file"]) ==
      Args([Opt("file", "file", true, Some("")), Opt("file", "file", true, None)], [], [], false)
  {
    EmptyThenMissingFrom0(specs, ["--file=", "--file"], NewArgs());
    ClassifyByRun(specs, ["--file=", "--file"],
      Args([Opt("file", "file", true, Some("")), Opt("file", "file", true, None)], [], [], false));
  }

  /** Required short values: attached, the next token (even an empty one), or missing at the end. */
  ghost predicate FileDebugSpecs(specs: OptSpecs)
    reads specs
  {
    specs.options == [OptSpec("file", "f", Required), OptSpec("debug", "d", Required)] && specs.flags == []
  }

  lemma RequiredShortValuesFrom3(specs: OptSpecs, args: seq<string>, acc: Args)
    requires FileDebugSpecs(specs)
    requires |args| == 6 && args[0] == "-f123" && args[1] == "-d" && args[2] == "" &&
      args[3] == "-f" && args[4] == "456" && args[5] == "-f"
    ensures Run(specs, args, 3, acc) ==
      AddOption(AddOption(acc, Opt("file", "f", true, Some("456"))), Opt("file", "f", true, None))
  {
    assert OnlyNamed(specs, 0, "f");
    StepShortNext(specs, args, 3, acc, 0, "file", 'f');
    StepShortLast(specs, args, 5, AddOption(acc, Opt("file", "f", true, Some("456"))), 0, "file", 'f');
  }

  lemma RequiredShortValuesFrom0(specs: OptSpecs, args: seq<string>, acc: Args)
    requires FileDebugSpecs(specs)
    requires |args| == 6 && args[0] == "-f123" && args[1] == "-d" && args[2] == "" &&
      args[3] == "-f" && args[4] == "456" && args[5] == "-f"
    ensures Run(specs, args, 0, acc) ==
      var a := AddOption(AddOption(acc, Opt("file", "f", true, Some("123"))), Opt("debug", "d", true, Some("")));
      AddOption(AddOption(a, Opt("file", "f", true, Some("456"))), Opt("file", "f", true, None))
  {
    assert OnlyNamed(specs, 0, "f") && OnlyNamed(specs, 1, "d");
    var a1 := AddOption(acc, Opt("file", "f", true, Some("123")));
    StepShortAttached(specs, args, 0, acc, 0, "file", 'f', "123");
    StepShortNext(specs, args, 1, a1, 1, "debug", 'd');
    RequiredShortValuesFrom3(specs, args, AddOption(a1, Opt("debug", "d", true, Some(""))));
  }

  lemma RequiredShortValues(specs: OptSpecs)
    requires FileDebugSpecs(specs)
    ensures Classify(specs, ["-f123", "-d", "", "-f", "456", "-f"]) ==
      Args([Opt("file", "f", true, Some("123")), Opt("debug", "d", true, Some("")),
            Opt("file", "f", true, Some("456")), Opt("file", "f", true, None)], [], [], false)
  {
    RequiredShortValuesFrom0(specs, ["-f123", "-d", "", "-f", "456", "-f"], NewArgs());
    ClassifyByRun(specs, ["-f123", "-d", "", "-f", "456", "-f"],
      Args([Opt("file", "f", true, Some("123")), Opt("debug", "d", true, Some("")),
            Opt("file", "f", true, Some("456")), Opt("file", "f", true, None)], [], [], false));
  }

  /** A required value is taken from the next token even when that token is "--". */
  lemma TerminatorAsValueFrom0(specs: OptSpecs, args: seq<string>, acc: Args)
    requires specs.options == [OptSpec("file", "file", Required)] && specs.flags == []
    requires |args| == 4 && args[0] == "--file" && args[1] == "--" && args[2] == "--" && args[3] == "--"
    ensures Run(specs, args, 0, acc) ==
      var a := AddOption(acc, Opt("file", "file", true, Some("--"))); a.(other := a.other + ["--"])
  {
    assert OnlyNamed(specs, 0, "file");
    var a1 := AddOption(acc, Opt("file", "file", true, Some("--")));
    StepLongNext(specs, args, 0, acc, 0, "file", "file");
    RunTerminator(specs, args, 2, a1);
    assert args[3..] == ["--"];
  }

  lemma TerminatorAsValue(specs: OptSpecs)
    requires specs.options == [OptSpec("file", "file", Required)] && specs.flags == []
    ensures Classify(specs, ["--file", "--", "--", "--"]) ==
      Args([Opt("file", "file", true, Some("--"))], ["--"], [], false)
  {
    TerminatorAsValueFrom0(specs, ["--file", "--", "--", "--"], NewArgs());
    ClassifyByRun(specs, ["--file", "--", "--", "--"],
      Args([Opt("file", "file", true, Some("--"))], ["--"], [], false));
  }

  /** With nothing declared every option is unknown; the tokens after "--" are operands. */
  lemma NothingDeclaredFrom0(specs: OptSpecs, args: seq<string>, acc: Args)
    requires specs.options == [] && specs.flags == []
    requires |args| == 7 && args[0] == "-abcd" && args[1] == "-e" && args[2] == "--debug" &&
      args[3] == "--" && args[4] == "--debug=" && args[5] == "foo" && args[6] == "--debug=456"
    ensures Run(specs, args, 0, acc) ==
      var a := AddUnknown(AddUnknown(AddUnknown(AddUnknown(acc, "a"), "b"), "c"), "d");
      var b := AddUnknown(AddUnknown(a, "e"), "debug");
      b.(other := b.other + ["--debug=", "foo", "--debug=456"])
  {
    var a4 := AddUnknown(AddUnknown(AddUnknown(AddUnknown(acc, "a"), "b"), "c"), "d");
    var a6 := AddUnknown(AddUnknown(a4, "e"), "debug");
    LongTokenSpellings();
    StepAbcdUndeclared(specs, args, 0, acc);
    StepEUndeclared(specs, args, 1, a4);
    StepLongUndeclared(specs, args, 2, AddUnknown(a4, "e"), "debug");
    RunTerminator(specs, args, 3, a6);
    assert args[4..] == ["--debug=", "foo", "--debug=456"];
  }

  lemma NothingDeclared(specs: OptSpecs)
    requires specs.options == [] && specs.flags == []
    ensures Classify(specs, ["-abcd", "-e", "--debug", "--", "--debug=", "foo", "--debug=456"]) ==
      Args([], ["--debug=", "foo", "--debug=456"], ["a", "b", "c", "d", "e", "debug"], false)
  {
    NothingDeclaredFrom0(specs, ["-abcd", "-e", "--debug", "--", "--debug=", "foo", "--debug=456"], NewArgs());
    ClassifyByRun(specs, ["-abcd", "-e", "--debug", "--", "--debug=", "foo", "--debug=456"],
      Args([], ["--debug=", "foo", "--debug=456"], ["a", "b", "c", "d", "e", "debug"], false));
  }

  /** Only operands: no option is found under any id. */
  lemma OnlyOperands(specs: OptSpecs)
    requires specs.options == [] && specs.flags == []
    ensures Classify(specs, ["foo", "bar"]) == Args([], ["foo", "bar"], [], false)
    ensures Classify(specs, ["foo", "bar"]).OptionsFirst("not-at-all") == None
    ensures Classify(specs, ["foo", "bar"]).OptionsLast("not-at-all") == None
  {
    RunOperandStops(specs, ["foo", "bar"], 0, NewArgs());
    ClassifyByRun(specs, ["foo", "bar"],
      Args([], ["foo", "bar"], [], false));
    assert ["foo", "bar"][0..] == ["foo", "bar"];
  }

  /** Every unknown occurrence is recorded, repeats included; `Deduplicated` keeps the first of each. */
  lemma RepeatedUnknownsFrom1(specs: OptSpecs, args: seq<string>, acc: Args)
    requires specs.options == [OptSpec("bar", "bar", NoValue)] && specs.flags == []
    requires |args| == 5 && args[0] == "-aaa" && args[1] == "--foo" && args[2] == "--foo" &&
      args[3] == "--bar=" && args[4] == "--bar="
    ensures Run(specs, args, 1, acc) ==
      AddUnknown(AddUnknown(AddUnknown(AddUnknown(acc, "foo"), "foo"), "bar="), "bar=")
  {
    assert OnlyNamed(specs, 0, "bar");
    var a2 := AddUnknown(AddUnknown(acc, "foo"), "foo");
    LongTokenSpellings();
    StepLongUndeclared(specs, args, 1, acc, "foo");
    StepLongUndeclared(specs, args, 2, AddUnknown(acc, "foo"), "foo");
    assert "--bar=" == "--" + "bar" + "=" + "" && "bar" + "=" == "bar=";
    StepLongUnwanted(specs, args, 3, a2, 0, "bar", "");
    StepLongUnwanted(specs, args, 4, AddUnknown(a2, "bar="), 0, "bar", "");
    RunEnd(specs, args, 5, AddUnknown(AddUnknown(AddUnknown(AddUnknown(acc, "foo"), "foo"), "bar="), "bar="));
  }

  lemma RepeatedUnknownsFrom0(specs: OptSpecs, args: seq<string>, acc: Args)
    requires specs.options == [OptSpec("bar", "bar", NoValue)] && specs.flags == []
    requires |args| == 5 && args[0] == "-aaa" && args[1] == "--foo" && args[2] == "--foo" &&
      args[3] == "--bar=" && args[4] == "--bar="
    ensures Run(specs, args, 0, acc) ==
      var a := AddUnknown(AddUnknown(AddUnknown(acc, "a"), "a"), "a");
      AddUnknown(AddUnknown(AddUnknown(AddUnknown(a, "foo"), "foo"), "bar="), "bar=")
  {
    StepAaaUndeclared(specs, args, 0, acc);
    RepeatedUnknownsFrom1(specs, args, AddUnknown(AddUnknown(AddUnknown(acc, "a"), "a"), "a"));
  }

  lemma RepeatedUnknowns(specs: OptSpecs)
    requires specs.options == [OptSpec("bar", "bar", NoValue)] && specs.flags == []
    ensures Classify(specs, ["-aaa", "--foo", "--foo", "--bar=", "--bar="]) ==
      Args([], [], ["a", "a", "a", "foo", "foo", "bar=", "bar="], false)
    ensures Deduplicated(Classify(specs, ["-aaa", "--foo", "--foo", "--bar=", "--bar="]).unknown) ==
      ["a", "foo", "bar="]
  {
    RepeatedUnknownsFrom0(specs, ["-aaa", "--foo", "--foo", "--bar=", "--bar="], NewArgs());
    ClassifyByRun(specs, ["-aaa", "--foo", "--foo", "--bar=", "--bar="],
      Args([], [], ["a", "a", "a", "foo", "foo", "bar=", "bar="], false));
    DeduplicatedRepeats();
  }

  lemma DeduplicatedRepeats()
    ensures Deduplicated(["a", "a", "a", "foo", "foo", "bar=", "bar="]) == ["a", "foo", "bar="]
  {
    var u := ["a", "a", "a", "foo", "foo", "bar=", "bar="];
    assert u[..6] == ["a", "a", "a", "foo", "foo", "bar="];
    assert u[..6][..5] == ["a", "a", "a", "foo", "foo"];
    assert u[..6][..5][..4] == ["a", "a", "a", "foo"];
    assert u[..6][..5][..4][..3] == ["a", "a", "a"];
    assert ["a", "a", "a"][..2] == ["a", "a"];
    assert ["a", "a"][..1] == ["a"];
    assert ["a"][..0] == [];
    assert Deduplicated(["a"]) == ["a"];
    assert Deduplicated(["a", "a"]) == ["a"];
    assert Deduplicated(["a", "a", "a"]) == ["a"];
    assert Deduplicated(["a", "a", "a", "foo"]) == ["a", "foo"];
    assert Deduplicated(["a", "a", "a", "foo", "foo"]) == ["a", "foo"];
    assert Deduplicated(u[..6]) == ["a", "foo", "bar="];
  }

  /** A required short value may be attached, a separate empty token, or missing at the end. */
  lemma AttachedEmptyMissingFrom0(specs: OptSpecs, args: seq<string>, acc: Args)
    requires FileDebugSpecs(specs)
    requires |args| == 4 && args[0] == "-fx" && args[1] == "-d" && args[2] == "" && args[3] == "-f"
    ensures Run(specs, args, 0, acc) ==
      var a := AddOption(AddOption(acc, Opt("file", "f", true, Some("x"))), Opt("debug", "d", true, Some("")));
      AddOption(a, Opt("file", "f", true, None))
  {
    assert OnlyNamed(specs, 0, "f") && OnlyNamed(specs, 1, "d");
    var a1 := AddOption(acc, Opt("file", "f", true, Some("x")));
    var a2 := AddOption(a1, Opt("debug", "d", true, Some("")));
    StepShortAttached(specs, args, 0, acc, 0, "file", 'f', "x");
    StepShortNext(specs, args, 1, a1, 1, "debug", 'd');
    StepShortLast(specs, args, 3, a2, 0, "file", 'f');
  }

  lemma AttachedEmptyMissing(specs: OptSpecs)
    requires FileDebugSpecs(specs)
    ensures Classify(specs, ["-fx", "-d", "", "-f"]) ==
      Args([Opt("file", "f", true, Some("x")), Opt("debug", "d", true, Some("")),
            Opt("file", "f", true, None)], [], [], false)
  {
    AttachedEmptyMissingFrom0(specs, ["-fx", "-d", "", "-f"], NewArgs());
    ClassifyByRun(specs, ["-fx", "-d", "", "-f"],
      Args([Opt("file", "f", true, Some("x")), Opt("debug", "d", true, Some("")),
            Opt("file", "f", true, None)], [], [], false));
  }

  /** Long options that both require a value. */
  ghost predicate LongFileDebugSpecs(specs: OptSpecs)
    reads specs
  {
    specs.options == [OptSpec("file", "file", Required), OptSpec("debug", "debug", Required)] && specs.flags == []
  }

  lemma RequiredLongValuesFrom3(specs: OptSpecs, args: seq<string>, acc: Args)
    requires LongFileDebugSpecs(specs)
    requires |args| == 6 && args[0] == "--file=123" && args[1] == "--debug" && args[2] == "" &&
      args[3] == "--file" && args[4] == "456" && args[5] == "--file"
    ensures Run(specs, args, 3, acc) ==
      AddOption(AddOption(acc, Opt("file", "file", true, Some("456"))), Opt("file", "file", true, None))
  {
    assert OnlyNamed(specs, 0, "file");
    StepLongNext(specs, args, 3, acc, 0, "file", "file");
    StepLongLast(specs, args, 5, AddOption(acc, Opt("file", "file", true, Some("456"))), 0, "file", "file");
  }

  lemma RequiredLongValuesFrom0(specs: OptSpecs, args: seq<string>, acc: Args)
    requires LongFileDebugSpecs(specs)
    requires |args| == 6 && args[0] == "--file=123" && args[1] == "--debug" && args[2] == "" &&
      args[3] == "--file" && args[4] == "456" && args[5] == "--file"
    ensures Run(specs, args, 0, acc) ==
      var a := AddOption(AddOption(acc, Opt("file", "file", true, Some("123"))), Opt("debug", "debug", true, Some("")));
      AddOption(AddOption(a, Opt("file", "file", true, Some("456"))), Opt("file", "file", true, None))
  {
    assert OnlyNamed(specs, 0, "file") && OnlyNamed(specs, 1, "debug");
    var a1 := AddOption(acc, Opt("file", "file", true, Some("123")));
    StepLongEq(specs, args, 0, acc, 0, "file", "file", "123");
    StepLongNext(specs, args, 1, a1, 1, "debug", "debug");
    RequiredLongValuesFrom3(specs, args, AddOption(a1, Opt("debug", "debug", true, Some(""))));
  }

  lemma RequiredLongValues(specs: OptSpecs)
    requires LongFileDebugSpecs(specs)
    ensures Classify(specs, ["--file=123", "--debug", "", "--file", "456", "--file"]) ==
      Args([Opt("file", "file", true, Some("123")), Opt("debug", "debug", true, Some("")),
            Opt("file", "file", true, Some("456")), Opt("file", "file", true, None)], [], [], false)
  {
    RequiredLongValuesFrom0(specs, ["--file=123", "--debug", "", "--file", "456", "--file"], NewArgs());
    ClassifyByRun(specs, ["--file=123", "--debug", "", "--file", "456", "--file"],
      Args([Opt("file", "file", true, Some("123")), Opt("debug", "debug", true, Some("")),
            Opt("file", "file", true, Some("456")), Opt("file", "file", true, None)], [], [], false));
  }

  /** A short and a long name for one id with an optional value, options everywhere. */
  ghost predicate DebugEverywhereSpecs(specs: OptSpecs)
    reads specs
  {
    specs.options == [OptSpec("debug", "d", Optional), OptSpec("debug", "debug", Optional)] &&
    specs.flags == [OptionsEverywhere]
  }

  lemma OptionalEverywhereFrom6(specs: OptSpecs, args: seq<string>, acc: Args)
    requires DebugEverywhereSpecs(specs)
    requires |args| == 8 && args[6] == "--debug=456" && args[7] == "-d"
    ensures Run(specs, args, 6, acc) ==
      AddOption(AddOption(acc, Opt("debug", "debug", false, Some("456"))), Opt("debug", "d", false, None))
  {
    assert OnlyNamed(specs, 0, "d") && OnlyNamed(specs, 1, "debug");
    var a1 := AddOption(acc, Opt("debug", "debug", false, Some("456")));
    StepLongOptionalEq(specs, args, 6, acc, 1, "debug", "debug", "456");
    StepShortOptional(specs, args, 7, a1, 0, "debug", 'd', "");
    RunEnd(specs, args, 8, AddOption(a1, Opt("debug", "d", false, None)));
  }

  lemma OptionalEverywhereFrom3(specs: OptSpecs, args: seq<string>, acc: Args)
    requires DebugEverywhereSpecs(specs)
    requires |args| == 8 && args[3] == "--debug" && args[4] == "--debug=" && args[5] == "foo" &&
      args[6] == "--debug=456" && args[7] == "-d"
    ensures Run(specs, args, 3, acc) ==
      var a := AddOption(AddOption(acc, Opt("debug", "debug", false, None)), Opt("debug", "debug", false, Some("")));
      AddOption(AddOption(AddOther(a, "foo"), Opt("debug", "debug", false, Some("456"))), Opt("debug", "d", false, None))
  {
    assert OnlyNamed(specs, 1, "debug");
    var a1 := AddOption(acc, Opt("debug", "debug", false, None));
    var a2 := AddOption(a1, Opt("debug", "debug", false, Some("")));
    StepLongOptional(specs, args, 3, acc, 1, "debug", "debug");
    assert args[4] == "--debug=" + "";
    StepLongOptionalEq(specs, args, 4, a1, 1, "debug", "debug", "");
    RunOperandEverywhere(specs, args, 5, a2);
    OptionalEverywhereFrom6(specs, args, AddOther(a2, "foo"));
  }

  lemma OptionalEverywhereFrom0(specs: OptSpecs, args: seq<string>, acc: Args)
    requires DebugEverywhereSpecs(specs)
    requires |args| == 8 && args[0] == "-d" && args[1] == "-d123" && args[2] == "-d" &&
      args[3] == "--debug" && args[4] == "--debug=" && args[5] == "foo" &&
      args[6] == "--debug=456" && args[7] == "-d"
    ensures Run(specs, args, 0, acc) ==
      var a := AddOption(AddOption(acc, Opt("debug", "d", false, None)), Opt("debug", "d", false, Some("123")));
      var b := AddOption(AddOption(a, Opt("debug", "d", false, None)), Opt("debug", "debug", false, None));
      var c := AddOther(AddOption(b, Opt("debug", "debug", false, Some(""))), "foo");
      AddOption(AddOption(c, Opt("debug", "debug", false, Some("456"))), Opt("debug", "d", false, None))
  {
    assert OnlyNamed(specs, 0, "d");
    var a1 := AddOption(acc, Opt("debug", "d", false, None));
    var a2 := AddOption(a1, Opt("debug", "d", false, Some("123")));
    StepShortOptional(specs, args, 0, acc, 0, "debug", 'd', "");
    StepShortOptional(specs, args, 1, a1, 0, "debug", 'd', "123");
    StepShortOptional(specs, args, 2, a2, 0, "debug", 'd', "");
    OptionalEverywhereFrom3(specs, args, AddOption(a2, Opt("debug", "d", false, None)));
  }

  lemma OptionalEverywhere(specs: OptSpecs)
    requires DebugEverywhereSpecs(specs)
    ensures Classify(specs, ["-d", "-d123", "-d", "--debug", "--debug=", "foo", "--debug=456", "-d"]) ==
      Args([Opt("debug", "d", false, None), Opt("debug", "d", false, Some("123")), Opt("debug", "d", false, None),
            Opt("debug", "debug", false, None), Opt("debug", "debug", false, Some("")),
            Opt("debug", "debug", false, Some("456")), Opt("debug", "d", false, None)], ["foo"], [], false)
  {
    OptionalEverywhereFrom0(specs, ["-d", "-d123", "-d", "--debug", "--debug=", "foo", "--debug=456", "-d"], NewArgs());
    ClassifyByRun(specs, ["-d", "-d123", "-d", "--debug", "--debug=", "foo", "--debug=456", "-d"],
      Args([Opt("debug", "d", false, None), Opt("debug", "d", false, Some("123")), Opt("debug", "d", false, None),
            Opt("debug", "debug", false, None), Opt("debug", "debug", false, Some("")),
            Opt("debug", "debug", false, Some("456")), Opt("debug", "d", false, None)], ["foo"], [], false));
  }

  /** Names and values beyond ASCII are read character by character. */
  ghost predicate NonAsciiSpecs(specs: OptSpecs)
    reads specs
  {
    specs.options == [OptSpec("äiti", "äiti", Required), OptSpec("€uro", "€uro", Required)] && specs.flags == []
  }

  lemma NonAsciiFrom3(specs: OptSpecs, args: seq<string>, acc: Args)
    requires NonAsciiSpecs(specs)
    requires |args| == 6 && args[0] == "--äiti=ööö" && args[1] == "--€uro" && args[2] == "€€€" &&
      args[3] == "--äiti" && args[4] == "ää" && args[5] == "--äiti"
    ensures Run(specs, args, 3, acc) ==
      AddOption(AddOption(acc, Opt("äiti", "äiti", true, Some("ää"))), Opt("äiti", "äiti", true, None))
  {
    assert OnlyNamed(specs, 0, "äiti");
    StepLongNext(specs, args, 3, acc, 0, "äiti", "äiti");
    StepLongLast(specs, args, 5, AddOption(acc, Opt("äiti", "äiti", true, Some("ää"))), 0, "äiti", "äiti");
  }

  lemma NonAsciiFrom0(specs: OptSpecs, args: seq<string>, acc: Args)
    requires NonAsciiSpecs(specs)
    requires |args| == 6 && args[0] == "--äiti=ööö" && args[1] == "--€uro" && args[2] == "€€€" &&
      args[3] == "--äiti" && args[4] == "ää" && args[5] == "--äiti"
    ensures Run(specs, args, 0, acc) ==
      var a := AddOption(AddOption(acc, Opt("äiti", "äiti", true, Some("ööö"))), Opt("€uro", "€uro", true, Some("€€€")));
      AddOption(AddOption(a, Opt("äiti", "äiti", true, Some("ää"))), Opt("äiti", "äiti", true, None))
  {
    assert OnlyNamed(specs, 0, "äiti") && OnlyNamed(specs, 1, "€uro");
    var a1 := AddOption(acc, Opt("äiti", "äiti", true, Some("ööö")));
    StepLongEq(specs, args, 0, acc, 0, "äiti", "äiti", "ööö");
    StepLongNext(specs, args, 1, a1, 1, "€uro", "€uro");
    NonAsciiFrom3(specs, args, AddOption(a1, Opt("€uro", "€uro", true, Some("€€€"))));
  }

  lemma NonAscii(specs: OptSpecs)
    requires NonAsciiSpecs(specs)
    ensures Classify(specs, ["--äiti=ööö", "--€uro", "€€€", "--äiti", "ää", "--äiti"]) ==
      Args([Opt("äiti", "äiti", true, Some("ööö")), Opt("€uro", "€uro", true, Some("€€€")),
            Opt("äiti", "äiti", true, Some("ää")), Opt("äiti", "äiti", true, None)], [], [], false)
  {
    NonAsciiFrom0(specs, ["--äiti=ööö", "--€uro", "€€€", "--äiti", "ää", "--äiti"], NewArgs());
    ClassifyByRun(specs, ["--äiti=ööö", "--€uro", "€€€", "--äiti", "ää", "--äiti"],
      Args([Opt("äiti", "äiti", true, Some("ööö")), Opt("€uro", "€uro", true, Some("€€€")),
            Opt("äiti", "äiti", true, Some("ää")), Opt("äiti", "äiti", true, None)], [], [], false));
  }

  /** Several names may share one id; all their occurrences are found under it, in order. */
  ghost predicate SharedIdSpecs(specs: OptSpecs)
    reads specs
  {
    specs.options == [OptSpec("aaa", "bbb", NoValue), OptSpec("aaa", "c", NoValue),
                      OptSpec("aaa", "d", NoValue), OptSpec("aaa", "eee", NoValue)]
    && specs.flags == []
  }

  lemma SharedIdFrom0(specs: OptSpecs, args: seq<string>, acc: Args)
    requires SharedIdSpecs(specs)
    requires |args| == 3 && args[0] == "--bbb" && args[1] == "-cd" && args[2] == "--eee"
    ensures Run(specs, args, 0, acc) ==
      var a := AddOption(AddOption(acc, Opt("aaa", "bbb", false, None)), Opt("aaa", "c", false, None));
      AddOption(AddOption(a, Opt("aaa", "d", false, None)), Opt("aaa", "eee", false, None))
  {
    assert OnlyNamed(specs, 0, "bbb") && OnlyNamed(specs, 1, "c") && OnlyNamed(specs, 2, "d") && OnlyNamed(specs, 3, "eee");
    var a1 := AddOption(acc, Opt("aaa", "bbb", false, None));
    var a3 := AddOption(AddOption(a1, Opt("aaa", "c", false, None)), Opt("aaa", "d", false, None));
    LongTokenSpellings();
    StepLongFlag(specs, args, 0, acc, 0, "bbb");
    StepCdShared(specs, args, 1, a1);
    StepLongFlag(specs, args, 2, a3, 3, "eee");
    RunEnd(specs, args, 3, AddOption(a3, Opt("aaa", "eee", false, None)));
  }

  lemma SharedId(specs: OptSpecs)
    requires SharedIdSpecs(specs)
    ensures Classify(specs, ["--bbb", "-cd", "--eee"]) ==
      Args([Opt("aaa", "bbb", false, None), Opt("aaa", "c", false, None),
            Opt("aaa", "d", false, None), Opt("aaa", "eee", false, None)], [], [], false)
  {
    SharedIdFrom0(specs, ["--bbb", "-cd", "--eee"], NewArgs());
    ClassifyByRun(specs, ["--bbb", "-cd", "--eee"],
      Args([Opt("aaa", "bbb", false, None), Opt("aaa", "c", false, None),
            Opt("aaa", "d", false, None), Opt("aaa", "eee", false, None)], [], [], false));
  }
}
