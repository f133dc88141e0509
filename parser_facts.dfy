/** Properties of the classification that `Parse` is proved to compute. */
module ParserFacts {
  import opened Wrappers
  import opened Seqs
  import opened Lexical
  import opened Registry
  import opened Results
  import opened Parser

  /** Neither the terminator nor an option token: a non-option argument. */
  predicate IsOperand(t: string) {
    !IsOptionTerminator(t) && !IsLongOptionPrefix(t) && !IsShortOptionPrefix(t)
  }

  /** `r` was obtained from `acc` by appending only. */
  ghost predicate Extends(acc: Args, r: Args) {
    && acc.options <= r.options
    && acc.other <= r.other
    && acc.unknown <= r.unknown
    && r.argLimitExceeded == acc.argLimitExceeded
  }

  lemma PrefixTrans<T>(a: seq<T>, b: seq<T>, c: seq<T>)
    requires a <= b && b <= c
    ensures a <= c
  {
    assert b[..|a|] == a;
    assert c[..|b|][..|a|] == c[..|a|];
  }

  lemma ExtendsTrans(a: Args, b: Args, c: Args)
    requires Extends(a, b) && Extends(b, c)
    ensures Extends(a, c)
  {
    PrefixTrans(a.options, b.options, c.options);
    PrefixTrans(a.other, b.other, c.other);
    PrefixTrans(a.unknown, b.unknown, c.unknown);
  }

  // Long option resolution

  /** Without prefix matching a long name resolves only to the declared option of that exact name. */
  lemma ResolveLongExact(specs: OptSpecs, name: string)
    requires !specs.IsFlag(PrefixMatchLongOptions)
    ensures ResolveLong(specs, name).Some? <==>
      IsValidLongOptionName(name) && |name| >= 2 && exists e :: e in specs.options && e.name == name
    ensures ResolveLong(specs, name).Some? ==> ResolveLong(specs, name).value.name == name
  {
  }

  /** With prefix matching, a resolved name starts exactly one declared name: the one it resolves to. */
  lemma ResolveLongByPrefixSound(specs: OptSpecs, name: string)
    requires specs.IsFlag(PrefixMatchLongOptions) && ResolveLong(specs, name).Some?
    ensures IsValidLongOptionName(name) && |name| >= 2
    ensures forall e :: e in specs.options && name <= e.name ==> e == ResolveLong(specs, name).value
  {
    var matches := specs.PrefixMatching(name);
    assert |matches| == 1;
    assert forall e :: e in specs.options && name <= e.name ==> e in matches;
  }

  /** With prefix matching, a valid name that starts exactly one declared name resolves to it. */
  lemma ResolveLongByPrefixComplete(specs: OptSpecs, name: string, k: nat)
    requires specs.Valid() && specs.IsFlag(PrefixMatchLongOptions)
    requires IsValidLongOptionName(name) && |name| >= 2
    requires k < |specs.options| && name <= specs.options[k].name
    requires forall e :: e in specs.options && name <= e.name ==> e == specs.options[k]
    ensures ResolveLong(specs, name) == Some(specs.options[k])
  {
    FilterUnique(specs.options, NameStartsWith(name), k);
  }

  lemma TwoMembers<T>(s: seq<T>, a: T, b: T)
    requires a in s && b in s && a != b
    ensures |s| >= 2
  {
    var ia :| 0 <= ia < |s| && s[ia] == a;
    var ib :| 0 <= ib < |s| && s[ib] == b;
    assert ia != ib;
  }

  /**
   * With prefix matching, a name that starts two declared names is unknown,
   * even when one of them is exactly that name.
   */
  lemma PrefixOfTwoIsUnresolved(specs: OptSpecs, name: string, e1: OptSpec, e2: OptSpec)
    requires specs.IsFlag(PrefixMatchLongOptions)
    requires e1 in specs.options && e2 in specs.options && e1 != e2
    requires name <= e1.name && name <= e2.name
    ensures ResolveLong(specs, name) == None
  {
    TwoMembers(specs.PrefixMatching(name), e1, e2);
  }

  // Value rules of a long option

  /**
   * A resolved long option: a required value is the '=' value, else the very
   * next token, else absent at the end of input; an optional value is only
   * the '=' value; a no-value option given '=' is the unknown "name=".
   */
  lemma LongOptionValueRules(specs: OptSpecs, args: seq<string>, i: nat, acc: Args, spec: OptSpec)
    requires i < |args| && IsLongOptionPrefix(args[i])
    requires ResolveLong(specs, GetLongOptionName(args[i])) == Some(spec)
    ensures var opt, c := args[i], LongOption(specs, args, i, acc);
      var name, hasEqual, value := GetLongOptionName(opt), '=' in GetLongOption(opt), GetLongOptionEqualValue(opt);
      match spec.valueType
      case Required =>
        if hasEqual then c == Cursor(i + 1, AddOption(acc, Opt(spec.id, name, true, Some(value))))
        else if i + 1 < |args| then c == Cursor(i + 2, AddOption(acc, Opt(spec.id, name, true, Some(args[i + 1]))))
        else c == Cursor(i + 1, AddOption(acc, Opt(spec.id, name, true, None)))
      case Optional =>
        c == Cursor(i + 1, AddOption(acc, Opt(spec.id, name, false, if hasEqual then Some(value) else None)))
      case NoValue =>
        if hasEqual then c == Cursor(i + 1, AddUnknown(acc, name + "="))
        else c == Cursor(i + 1, AddOption(acc, Opt(spec.id, name, false, None)))
  {
    EqualSignAfterLongName(args[i]);
  }

  /** An unresolved long option records its name, without any "=value", as unknown. */
  lemma LongOptionUnresolved(specs: OptSpecs, args: seq<string>, i: nat, acc: Args)
    requires i < |args| && IsLongOptionPrefix(args[i])
    requires ResolveLong(specs, GetLongOptionName(args[i])) == None
    ensures LongOption(specs, args, i, acc) == Cursor(i + 1, AddUnknown(acc, GetLongOptionName(args[i])))
    ensures '=' !in GetLongOptionName(args[i])
  {
  }

  // Short option clusters

  /** One single-character string per character of `s`. */
  function Singletons(s: string): (r: seq<string>)
    ensures |r| == |s| && forall m :: 0 <= m < |s| ==> r[m] == [s[m]]
  {
    seq(|s|, m requires 0 <= m < |s| => [s[m]])
  }

  /** The declared option a cluster character names, if any. */
  function ShortSpec(specs: OptSpecs, name: string): Option<OptSpec>
    reads specs
  {
    if IsValidShortOptionName(name) then specs.GetShortOptionMatch(name) else None
  }

  /** An undeclared cluster character is recorded as unknown and scanning goes on. */
  lemma ClusterUnknownStep(specs: OptSpecs, series: string, k: nat, args: seq<string>, j: nat, acc: Args)
    requires k < |series| && j <= |args| && ShortSpec(specs, [series[k]]) == None
    ensures Cluster(specs, series, k, args, j, acc) == Cluster(specs, series, k + 1, args, j, AddUnknown(acc, [series[k]]))
  {
  }

  /** A declared no-value cluster character is recorded as an option and scanning goes on. */
  lemma ClusterNoValueStep(specs: OptSpecs, series: string, k: nat, args: seq<string>, j: nat, acc: Args, spec: OptSpec)
    requires k < |series| && j <= |args| && ShortSpec(specs, [series[k]]) == Some(spec) && spec.valueType == NoValue
    ensures Cluster(specs, series, k, args, j, acc) ==
      Cluster(specs, series, k + 1, args, j, AddOption(acc, Opt(spec.id, [series[k]], false, None)))
  {
  }

  lemma SingletonsCons(series: string, k: nat)
    requires k < |series|
    ensures Singletons(series[k..]) == [[series[k]]] + Singletons(series[k + 1..])
  {
  }

  /** Characters that name no declared short option each become one unknown entry. */
  lemma {:induction false} ClusterAllUnknown(specs: OptSpecs, series: string, k: nat, args: seq<string>, j: nat, acc: Args)
    requires k <= |series| && j <= |args|
    requires forall m :: k <= m < |series| ==> specs.GetShortOptionMatch([series[m]]) == None
    ensures Cluster(specs, series, k, args, j, acc) == Cursor(j, acc.(unknown := acc.unknown + Singletons(series[k..])))
    decreases |series| - k
  {
    if k == |series| {
      assert Singletons(series[k..]) == [];
      assert acc.unknown + [] == acc.unknown;
    } else {
      var name := [series[k]];
      assert specs.GetShortOptionMatch(name) == None;
      ClusterUnknownStep(specs, series, k, args, j, acc);
      ClusterAllUnknown(specs, series, k + 1, args, j, AddUnknown(acc, name));
      SingletonsCons(series, k);
      AppendAssoc(acc.unknown, [name], Singletons(series[k + 1..]));
    }
  }

  /**
   * A value-taking short option takes the rest of the cluster as its value;
   * when nothing is left a required one takes the next token, an optional
   * one gets no value.
   */
  lemma ClusterValueRules(specs: OptSpecs, series: string, k: nat, args: seq<string>, j: nat, acc: Args, spec: OptSpec)
    requires k < |series| && j <= |args| && IsValidShortOptionName([series[k]])
    requires specs.GetShortOptionMatch([series[k]]) == Some(spec) && spec.valueType != NoValue
    ensures var c, name, rest := Cluster(specs, series, k, args, j, acc), [series[k]], series[k + 1..];
      if spec.valueType == Required then
        if |rest| > 0 then c == Cursor(j, AddOption(acc, Opt(spec.id, name, true, Some(rest))))
        else if j < |args| then c == Cursor(j + 1, AddOption(acc, Opt(spec.id, name, true, Some(args[j]))))
        else c == Cursor(j, AddOption(acc, Opt(spec.id, name, true, None)))
      else
        c == Cursor(j, AddOption(acc, Opt(spec.id, name, false, if |rest| > 0 then Some(rest) else None)))
  {
  }

  // The main loop

  /** The first "--" the loop reaches ends scanning; it is emitted nowhere and the rest is `other`. */
  lemma TerminatorStopsScanning(specs: OptSpecs, args: seq<string>, i: nat, acc: Args)
    requires i < |args| && args[i] == "--"
    ensures ClassifyFrom(specs, args, i, acc) == acc.(other := acc.other + args[i + 1..])
  {
  }

  /** A leading "--" sends every later token to `other` verbatim, even option-like ones. */
  lemma LeadingTerminator(specs: OptSpecs, rest: seq<string>)
    ensures Classify(specs, ["--"] + rest) == Args([], rest, [], false)
  {
    assert (["--"] + rest)[1..] == rest;
  }

  /** Without `OptionsEverywhere` the first non-option token and everything after it are `other`. */
  lemma OperandStopsScanning(specs: OptSpecs, args: seq<string>, i: nat, acc: Args)
    requires !specs.IsFlag(OptionsEverywhere)
    requires i < |args| && IsOperand(args[i])
    ensures ClassifyFrom(specs, args, i, acc) == acc.(other := acc.other + args[i..])
  {
    assert ClassifyFrom(specs, args, i, acc) == Drain(args, i + 1, AddOther(acc, args[i]));
    DrainAfterOperand(args, i, acc);
  }

  /** Keeping the token at `i` and draining after it drains from `i`. */
  lemma DrainAfterOperand(args: seq<string>, i: nat, acc: Args)
    requires i < |args|
    ensures Drain(args, i + 1, AddOther(acc, args[i])) == acc.(other := acc.other + args[i..])
  {
    assert args[i..] == [args[i]] + args[i + 1..];
    AppendAssoc(acc.other, [args[i]], args[i + 1..]);
  }

  /** With `OptionsEverywhere` a non-option token is appended to `other` and scanning goes on. */
  lemma OperandEverywhere(specs: OptSpecs, args: seq<string>, i: nat, acc: Args)
    requires specs.IsFlag(OptionsEverywhere)
    requires i < |args| && IsOperand(args[i])
    ensures ClassifyFrom(specs, args, i, acc) == ClassifyFrom(specs, args, i + 1, AddOther(acc, args[i]))
  {
  }

  lemma LongOptionExtends(specs: OptSpecs, args: seq<string>, i: nat, acc: Args)
    requires i < |args| && IsLongOptionPrefix(args[i])
    ensures Extends(acc, LongOption(specs, args, i, acc).parsed)
  {
    var r := ResolveLong(specs, GetLongOptionName(args[i]));
    if r.Some? {
      LongOptionValueRules(specs, args, i, acc, r.value);
    } else {
      LongOptionUnresolved(specs, args, i, acc);
    }
  }

  lemma {:induction false} ClusterExtends(specs: OptSpecs, series: string, k: nat, args: seq<string>, j: nat, acc: Args)
    requires k <= |series| && j <= |args|
    ensures Extends(acc, Cluster(specs, series, k, args, j, acc).parsed)
    decreases |series| - k
  {
    if k < |series| {
      var name := [series[k]];
      var spec := ShortSpec(specs, name);
      if spec.None? {
        var acc' := AddUnknown(acc, name);
        ClusterUnknownStep(specs, series, k, args, j, acc);
        ClusterExtends(specs, series, k + 1, args, j, acc');
        ExtendsTrans(acc, acc', Cluster(specs, series, k + 1, args, j, acc').parsed);
      } else if spec.value.valueType == NoValue {
        var acc' := AddOption(acc, Opt(spec.value.id, name, false, None));
        ClusterNoValueStep(specs, series, k, args, j, acc, spec.value);
        ClusterExtends(specs, series, k + 1, args, j, acc');
        ExtendsTrans(acc, acc', Cluster(specs, series, k + 1, args, j, acc').parsed);
      } else {
        ClusterValueRules(specs, series, k, args, j, acc, spec.value);
      }
    }
  }

  /** The loop only appends to the three lists. */
  lemma {:induction false} ClassifyExtends(specs: OptSpecs, args: seq<string>, i: nat, acc: Args)
    requires i <= |args|
    ensures Extends(acc, ClassifyFrom(specs, args, i, acc))
    decreases |args| - i
  {
    if i < |args| {
      var opt := args[i];
      if IsOptionTerminator(opt) {
      } else if IsLongOptionPrefix(opt) {
        var c := LongOption(specs, args, i, acc);
        LongOptionExtends(specs, args, i, acc);
        ClassifyExtends(specs, args, c.next, c.parsed);
        ExtendsTrans(acc, c.parsed, ClassifyFrom(specs, args, c.next, c.parsed));
      } else if IsShortOptionPrefix(opt) {
        var c := Cluster(specs, GetShortOptionSeries(opt), 0, args, i + 1, acc);
        ClusterExtends(specs, GetShortOptionSeries(opt), 0, args, i + 1, acc);
        ClassifyExtends(specs, args, c.next, c.parsed);
        ExtendsTrans(acc, c.parsed, ClassifyFrom(specs, args, c.next, c.parsed));
      } else if specs.IsFlag(OptionsEverywhere) {
        ClassifyExtends(specs, args, i + 1, AddOther(acc, opt));
        ExtendsTrans(acc, AddOther(acc, opt), ClassifyFrom(specs, args, i + 1, AddOther(acc, opt)));
      }
    }
  }

  /** What was appended to `other` between `acc` and `r` is a subsequence of `t`. */
  ghost predicate OtherAddsSubseqOf(acc: Args, r: Args, t: seq<string>) {
    acc.other <= r.other && IsSubseq(r.other[|acc.other|..], t)
  }

  /** A subsequence of the input from a later cursor is one of the input from `i`. */
  lemma OtherAddsFromLater(acc: Args, r: Args, args: seq<string>, i: nat, n: nat)
    requires i <= n <= |args| && OtherAddsSubseqOf(acc, r, args[n..])
    ensures OtherAddsSubseqOf(acc, r, args[i..])
  {
    assert args[i..][n - i..] == args[n..];
    SubseqSuffix(r.other[|acc.other|..], args[i..], n - i);
  }

  /** The token at the cursor followed by a subsequence of the rest. */
  lemma OtherAddsToken(acc: Args, r: Args, args: seq<string>, i: nat)
    requires i < |args| && OtherAddsSubseqOf(AddOther(acc, args[i]), r, args[i + 1..])
    ensures OtherAddsSubseqOf(acc, r, args[i..])
  {
    var acc' := AddOther(acc, args[i]);
    PrefixTrans(acc.other, acc'.other, r.other);
    assert r.other[|acc.other|..] == [args[i]] + r.other[|acc'.other|..];
    assert args[i..] == [args[i]] + args[i + 1..];
    SubseqCons(args[i], r.other[|acc'.other|..], args[i + 1..]);
  }

  /** The drain appends a suffix of the input from `i`. */
  lemma OtherAddsDrain(acc: Args, args: seq<string>, i: nat, n: nat)
    requires i <= n <= |args|
    ensures OtherAddsSubseqOf(acc, Drain(args, n, acc), args[i..])
  {
    var r := Drain(args, n, acc);
    assert r.other[|acc.other|..] == args[n..];
    SubseqRefl(args[n..]);
    OtherAddsFromLater(acc, r, args, i, n);
  }

  /** The loop stops at the terminator, and at an operand unless options go everywhere. */
  predicate StopsAt(specs: OptSpecs, t: string)
    reads specs
  {
    IsOptionTerminator(t) || (!IsLongOptionPrefix(t) && !IsShortOptionPrefix(t) && !specs.IsFlag(OptionsEverywhere))
  }

  /**
   * One pass of the loop at a token: the loop either stops there and drains
   * from the new cursor, or goes on from it. An operand is appended to
   * `other` and consumes only its own token; the terminator, a long option
   * and a cluster leave `other` as it was.
   */
  function Step(specs: OptSpecs, args: seq<string>, i: nat, acc: Args): (c: Cursor)
    reads specs
    requires i < |args|
    ensures i < c.next <= |args|
    ensures ClassifyFrom(specs, args, i, acc) ==
      if StopsAt(specs, args[i]) then Drain(args, c.next, c.parsed) else ClassifyFrom(specs, args, c.next, c.parsed)
    ensures c.parsed.other == if IsOperand(args[i]) then acc.other + [args[i]] else acc.other
    ensures IsOperand(args[i]) ==> c.next == i + 1
  {
    var opt := args[i];
    if IsOptionTerminator(opt) then Cursor(i + 1, acc)
    else if IsLongOptionPrefix(opt) then LongOption(specs, args, i, acc)
    else if IsShortOptionPrefix(opt) then Cluster(specs, GetShortOptionSeries(opt), 0, args, i + 1, acc)
    else Cursor(i + 1, AddOther(acc, opt))
  }

  /**
   * `other` grows only by tokens of the command line, taken from the cursor
   * on, in input order: what the loop adds to `other` is a subsequence of
   * the remaining input. Which tokens are kept is decided one pass at a
   * time, as `Step` states.
   */
  lemma {:induction false} OtherIsSubseqOfInput(specs: OptSpecs, args: seq<string>, i: nat, acc: Args)
    requires i <= |args|
    ensures OtherAddsSubseqOf(acc, ClassifyFrom(specs, args, i, acc), args[i..])
    decreases |args| - i
  {
    if i == |args| {
      OtherAddsDrain(acc, args, i, i);
      assert Drain(args, i, acc) == acc;
    } else {
      var c := Step(specs, args, i, acc);
      var r := ClassifyFrom(specs, args, i, acc);
      if StopsAt(specs, args[i]) {
        OtherAddsDrain(c.parsed, args, c.next, c.next);
      } else {
        OtherIsSubseqOfInput(specs, args, c.next, c.parsed);
      }
      if c.parsed.other == acc.other {
        OtherAddsFromLater(acc, r, args, i, c.next);
      } else {
        OtherAddsToken(acc, r, args, i);
      }
    }
  }

  /** Every token in `other` is a token of the command line. */
  lemma OtherComesFromInput(specs: OptSpecs, args: seq<string>)
    ensures forall x :: x in Classify(specs, args).other ==> x in args
  {
    OtherIsSubseqOfInput(specs, args, 0, NewArgs());
    assert Classify(specs, args).other[0..] == Classify(specs, args).other;
    assert args[0..] == args;
    SubseqMembers(Classify(specs, args).other, args);
  }

  // Options-everywhere and no-value registries

  ghost predicate OnlyNoValue(specs: OptSpecs)
    reads specs
  {
    forall e :: e in specs.options ==> e.valueType == NoValue
  }

  lemma LongOptionNoValueStep(specs: OptSpecs, args: seq<string>, i: nat, acc: Args)
    requires i < |args| && IsLongOptionPrefix(args[i]) && OnlyNoValue(specs)
    ensures LongOption(specs, args, i, acc).next == i + 1
    ensures LongOption(specs, args, i, acc).parsed.other == acc.other
  {
    var r := ResolveLong(specs, GetLongOptionName(args[i]));
    if r.Some? {
      LongOptionValueRules(specs, args, i, acc, r.value);
    } else {
      LongOptionUnresolved(specs, args, i, acc);
    }
  }

  lemma {:induction false} ClusterNoValueKeepsCursor(specs: OptSpecs, series: string, k: nat, args: seq<string>, j: nat, acc: Args)
    requires k <= |series| && j <= |args| && OnlyNoValue(specs)
    ensures Cluster(specs, series, k, args, j, acc).next == j
    decreases |series| - k
  {
    if k < |series| {
      var name := [series[k]];
      var spec := if IsValidShortOptionName(name) then specs.GetShortOptionMatch(name) else None;
      if spec.None? {
        ClusterNoValueKeepsCursor(specs, series, k + 1, args, j, AddUnknown(acc, name));
      } else {
        ClusterNoValueKeepsCursor(specs, series, k + 1, args, j, AddOption(acc, Opt(spec.value.id, name, false, None)));
      }
    }
  }

  /**
   * With `OptionsEverywhere`, no value-taking options and no "--", `other`
   * is exactly the non-option tokens, in input order.
   */
  lemma {:induction false} EverywhereOtherIsOperands(specs: OptSpecs, args: seq<string>, i: nat, acc: Args)
    requires i <= |args| && specs.IsFlag(OptionsEverywhere) && OnlyNoValue(specs)
    requires forall m :: i <= m < |args| ==> args[m] != "--"
    ensures ClassifyFrom(specs, args, i, acc).other == acc.other + Filter(args[i..], IsOperand)
    decreases |args| - i
  {
    if i == |args| {
      assert args[i..] == [];
      assert acc.other + [] == acc.other;
    } else {
      var opt := args[i];
      assert opt != "--";
      FilterFrom(args, i, IsOperand);
      var acc': Args;
      if IsLongOptionPrefix(opt) {
        acc' := LongOption(specs, args, i, acc).parsed;
        LongOptionNoValueStep(specs, args, i, acc);
        assert ClassifyFrom(specs, args, i, acc) == ClassifyFrom(specs, args, i + 1, acc');
        assert acc'.other == acc.other + [];
      } else if IsShortOptionPrefix(opt) {
        acc' := Cluster(specs, GetShortOptionSeries(opt), 0, args, i + 1, acc).parsed;
        ClusterNoValueKeepsCursor(specs, GetShortOptionSeries(opt), 0, args, i + 1, acc);
        assert ClassifyFrom(specs, args, i, acc) == ClassifyFrom(specs, args, i + 1, acc');
        assert acc'.other == acc.other + [];
      } else {
        acc' := AddOther(acc, opt);
        OperandEverywhere(specs, args, i, acc);
      }
      var kept := if IsOperand(opt) then [opt] else [];
      assert acc'.other == acc.other + kept;
      EverywhereOtherIsOperands(specs, args, i + 1, acc');
      AppendAssoc(acc.other, kept, Filter(args[i + 1..], IsOperand));
    }
  }

  /** Index of the first non-option token at or after `i`, or `|args|`. */
  function FirstOperand(args: seq<string>, i: nat): (p: nat)
    requires i <= |args|
    ensures i <= p <= |args|
    ensures forall m :: i <= m < p ==> !IsOperand(args[m])
    ensures p < |args| ==> IsOperand(args[p])
    decreases |args| - i
  {
    if i == |args| || IsOperand(args[i]) then i else FirstOperand(args, i + 1)
  }

  /**
   * Without `OptionsEverywhere`, with no value-taking options and no "--",
   * `other` is the input from its first non-option token on.
   */
  lemma {:induction false} PosixOtherIsTail(specs: OptSpecs, args: seq<string>, i: nat, acc: Args)
    requires i <= |args| && !specs.IsFlag(OptionsEverywhere) && OnlyNoValue(specs)
    requires forall m :: i <= m < |args| ==> args[m] != "--"
    ensures ClassifyFrom(specs, args, i, acc).other == acc.other + args[FirstOperand(args, i)..]
    decreases |args| - i
  {
    if i == |args| {
      assert acc.other + [] == acc.other;
    } else {
      var opt := args[i];
      if IsLongOptionPrefix(opt) {
        var c := LongOption(specs, args, i, acc);
        LongOptionNoValueStep(specs, args, i, acc);
        PosixOtherIsTail(specs, args, i + 1, c.parsed);
        assert FirstOperand(args, i) == FirstOperand(args, i + 1);
      } else if IsShortOptionPrefix(opt) {
        var c := Cluster(specs, GetShortOptionSeries(opt), 0, args, i + 1, acc);
        ClusterNoValueKeepsCursor(specs, GetShortOptionSeries(opt), 0, args, i + 1, acc);
        PosixOtherIsTail(specs, args, i + 1, c.parsed);
        assert FirstOperand(args, i) == FirstOperand(args, i + 1);
      } else {
        assert args[i..] == [opt] + args[i + 1..];
      }
    }
  }

  // The no-flags round trip

  /** What one short cluster `series` yields, character by character, when no option takes a value. */
  function SeriesOptions(specs: OptSpecs, series: string): seq<Opt>
    reads specs
    decreases |series|
  {
    if series == [] then []
    else
      var head := match ShortSpec(specs, [series[0]])
        case None => []
        case Some(e) => [Opt(e.id, [series[0]], false, None)];
      head + SeriesOptions(specs, series[1..])
  }

  function SeriesUnknowns(specs: OptSpecs, series: string): seq<string>
    reads specs
    decreases |series|
  {
    if series == [] then []
    else (if ShortSpec(specs, [series[0]]) == None then [[series[0]]] else []) + SeriesUnknowns(specs, series[1..])
  }

  /**
   * What one option token yields when no option takes a value: a declared
   * name is an option; an unresolved name, or a no-value name given "=",
   * is unknown.
   */
  function TokenOptions(specs: OptSpecs, t: string): seq<Opt>
    reads specs
  {
    if IsLongOptionPrefix(t) then
      var name := GetLongOptionName(t);
      match ResolveLong(specs, name)
      case None => []
      case Some(e) => if '=' in GetLongOption(t) then [] else [Opt(e.id, name, false, None)]
    else if IsShortOptionPrefix(t) then SeriesOptions(specs, GetShortOptionSeries(t))
    else []
  }

  function TokenUnknowns(specs: OptSpecs, t: string): seq<string>
    reads specs
  {
    if IsLongOptionPrefix(t) then
      var name := GetLongOptionName(t);
      match ResolveLong(specs, name)
      case None => [name]
      case Some(e) => if '=' in GetLongOption(t) then [name + "="] else []
    else if IsShortOptionPrefix(t) then SeriesUnknowns(specs, GetShortOptionSeries(t))
    else []
  }

  function LineOptions(specs: OptSpecs, ts: seq<string>): seq<Opt>
    reads specs
    decreases |ts|
  {
    if ts == [] then [] else TokenOptions(specs, ts[0]) + LineOptions(specs, ts[1..])
  }

  function LineUnknowns(specs: OptSpecs, ts: seq<string>): seq<string>
    reads specs
    decreases |ts|
  {
    if ts == [] then [] else TokenUnknowns(specs, ts[0]) + LineUnknowns(specs, ts[1..])
  }

  /** Every token is a long option or a short option cluster. */
  predicate OptionTokensOnly(ts: seq<string>) {
    forall m :: 0 <= m < |ts| ==> IsLongOptionPrefix(ts[m]) || IsShortOptionPrefix(ts[m])
  }

  /** The entries of `series[k..]`: those of its first character, then the rest. */
  lemma SeriesStep(specs: OptSpecs, series: string, k: nat)
    requires k < |series|
    ensures ShortSpec(specs, [series[k]]).None? ==>
      SeriesOptions(specs, series[k..]) == SeriesOptions(specs, series[k + 1..]) &&
      SeriesUnknowns(specs, series[k..]) == [[series[k]]] + SeriesUnknowns(specs, series[k + 1..])
    ensures ShortSpec(specs, [series[k]]).Some? ==>
      SeriesOptions(specs, series[k..]) ==
        [Opt(ShortSpec(specs, [series[k]]).value.id, [series[k]], false, None)] + SeriesOptions(specs, series[k + 1..]) &&
      SeriesUnknowns(specs, series[k..]) == SeriesUnknowns(specs, series[k + 1..])
  {
    assert series[k..][0] == series[k] && series[k..][1..] == series[k + 1..];
  }

  /** With no value-taking options, a cluster records its characters in order and takes no token. */
  lemma {:induction false} ClusterNoValue(specs: OptSpecs, series: string, k: nat, args: seq<string>, j: nat, acc: Args)
    requires k <= |series| && j <= |args| && OnlyNoValue(specs)
    ensures Cluster(specs, series, k, args, j, acc) == Cursor(j, acc.(
      options := acc.options + SeriesOptions(specs, series[k..]),
      unknown := acc.unknown + SeriesUnknowns(specs, series[k..])))
    decreases |series| - k
  {
    if k == |series| {
      assert series[k..] == [];
      assert acc.options + [] == acc.options && acc.unknown + [] == acc.unknown;
    } else {
      var name := [series[k]];
      var spec := ShortSpec(specs, name);
      SeriesStep(specs, series, k);
      if spec.None? {
        ClusterUnknownStep(specs, series, k, args, j, acc);
        ClusterNoValue(specs, series, k + 1, args, j, AddUnknown(acc, name));
        AppendAssoc(acc.unknown, [name], SeriesUnknowns(specs, series[k + 1..]));
      } else {
        var e := spec.value;
        assert e in specs.options;
        ClusterNoValueStep(specs, series, k, args, j, acc, e);
        var o := Opt(e.id, name, false, None);
        ClusterNoValue(specs, series, k + 1, args, j, AddOption(acc, o));
        AppendAssoc(acc.options, [o], SeriesOptions(specs, series[k + 1..]));
      }
    }
  }

  /** With no value-taking options, a long option token takes only itself. */
  lemma LongOptionNoValue(specs: OptSpecs, args: seq<string>, i: nat, acc: Args)
    requires i < |args| && IsLongOptionPrefix(args[i]) && OnlyNoValue(specs)
    ensures LongOption(specs, args, i, acc) == Cursor(i + 1, acc.(
      options := acc.options + TokenOptions(specs, args[i]),
      unknown := acc.unknown + TokenUnknowns(specs, args[i])))
  {
    var r := ResolveLong(specs, GetLongOptionName(args[i]));
    if r.Some? {
      assert r.value.valueType == NoValue;
      EqualSignAfterLongName(args[i]);
      LongOptionValueRules(specs, args, i, acc, r.value);
    } else {
      LongOptionUnresolved(specs, args, i, acc);
    }
  }

  /**
   * With only no-value options and only option tokens, each token yields
   * its own entries in order and `other` gains nothing.
   */
  lemma {:induction false} NoValueLine(specs: OptSpecs, args: seq<string>, i: nat, acc: Args)
    requires i <= |args| && OnlyNoValue(specs)
    requires forall m :: i <= m < |args| ==> IsLongOptionPrefix(args[m]) || IsShortOptionPrefix(args[m])
    ensures ClassifyFrom(specs, args, i, acc) == acc.(
      options := acc.options + LineOptions(specs, args[i..]),
      unknown := acc.unknown + LineUnknowns(specs, args[i..]))
    decreases |args| - i
  {
    if i == |args| {
      assert args[i..] == [];
      assert acc.options + [] == acc.options && acc.unknown + [] == acc.unknown;
    } else {
      var t := args[i];
      assert args[i..][0] == t && args[i..][1..] == args[i + 1..];
      var acc' := acc.(options := acc.options + TokenOptions(specs, t), unknown := acc.unknown + TokenUnknowns(specs, t));
      if IsLongOptionPrefix(t) {
        LongOptionNoValue(specs, args, i, acc);
      } else {
        ClusterNoValue(specs, GetShortOptionSeries(t), 0, args, i + 1, acc);
        assert GetShortOptionSeries(t)[0..] == GetShortOptionSeries(t);
      }
      assert ClassifyFrom(specs, args, i, acc) == ClassifyFrom(specs, args, i + 1, acc');
      NoValueLine(specs, args, i + 1, acc');
      AppendAssoc(acc.options, TokenOptions(specs, t), LineOptions(specs, args[i + 1..]));
      AppendAssoc(acc.unknown, TokenUnknowns(specs, t), LineUnknowns(specs, args[i + 1..]));
    }
  }

  /**
   * The no-flags round trip: with only no-value options and no non-option
   * token, `other` is empty, and `unknown` holds every name that matches no
   * declared option (a no-value name given "=" as "name="), in order.
   */
  lemma NoFlagsRoundTrip(specs: OptSpecs, args: seq<string>)
    requires OnlyNoValue(specs) && OptionTokensOnly(args)
    ensures Classify(specs, args) == Args(LineOptions(specs, args), [], LineUnknowns(specs, args), false)
  {
    assert args[0..] == args;
    NoValueLine(specs, args, 0, NewArgs());
  }

  // What a recorded option says

  /** A recorded option comes from a declared one: same id, typed name a prefix of the declared name. */
  ghost predicate Recorded(specs: OptSpecs, o: Opt)
    reads specs
  {
    exists e :: e in specs.options && e.id == o.id && o.name <= e.name
      && o.valueRequired == (e.valueType == Required)
      && (e.valueType == NoValue ==> o.value == None)
  }

  /**
   * A resolved long option appends at most one option: the declaration's
   * id, the typed name, `value_required` exactly for `Required`, and no
   * value when the declaration takes none.
   */
  lemma LongOptionAppendsOne(specs: OptSpecs, args: seq<string>, i: nat, acc: Args, e: OptSpec)
    requires i < |args| && IsLongOptionPrefix(args[i])
    requires ResolveLong(specs, GetLongOptionName(args[i])) == Some(e)
    ensures var ps := LongOption(specs, args, i, acc).parsed.options;
      ps == acc.options ||
      (|ps| == |acc.options| + 1 && ps == acc.options + [ps[|acc.options|]] && ps[|acc.options|].id == e.id
        && ps[|acc.options|].name == GetLongOptionName(args[i])
        && ps[|acc.options|].valueRequired == (e.valueType == Required)
        && (e.valueType == NoValue ==> ps[|acc.options|].value == None))
  {
    LongOptionValueRules(specs, args, i, acc, e);
  }

  lemma LongOptionRecords(specs: OptSpecs, args: seq<string>, i: nat, acc: Args)
    requires i < |args| && IsLongOptionPrefix(args[i])
    requires forall o :: o in acc.options ==> Recorded(specs, o)
    ensures forall o :: o in LongOption(specs, args, i, acc).parsed.options ==> Recorded(specs, o)
  {
    var r := ResolveLong(specs, GetLongOptionName(args[i]));
    if r.Some? {
      var e := r.value;
      LongOptionAppendsOne(specs, args, i, acc, e);
      var ps := LongOption(specs, args, i, acc).parsed.options;
      if ps != acc.options {
        var o := ps[|acc.options|];
        assert Recorded(specs, o);
        RecordedSnoc(specs, acc, o);
      }
    } else {
      LongOptionUnresolved(specs, args, i, acc);
    }
  }

  /** Appending a recorded option keeps every option recorded. */
  lemma RecordedSnoc(specs: OptSpecs, acc: Args, o: Opt)
    requires forall x :: x in acc.options ==> Recorded(specs, x)
    requires Recorded(specs, o)
    ensures forall x :: x in AddOption(acc, o).options ==> Recorded(specs, x)
  {
  }

  lemma {:induction false} ClusterRecords(specs: OptSpecs, series: string, k: nat, args: seq<string>, j: nat, acc: Args)
    requires k <= |series| && j <= |args|
    requires forall o :: o in acc.options ==> Recorded(specs, o)
    ensures forall o :: o in Cluster(specs, series, k, args, j, acc).parsed.options ==> Recorded(specs, o)
    decreases |series| - k
  {
    if k < |series| {
      var name := [series[k]];
      var spec := if IsValidShortOptionName(name) then specs.GetShortOptionMatch(name) else None;
      if spec.None? {
        ClusterRecords(specs, series, k + 1, args, j, AddUnknown(acc, name));
      } else {
        var e := spec.value;
        assert e in specs.options && e.name == name;
        var rest := series[k + 1..];
        var o := Opt(e.id, name, e.valueType == Required,
          if e.valueType == NoValue then None
          else if |rest| > 0 then Some(rest)
          else if e.valueType == Required && j < |args| then Some(args[j])
          else None);
        assert Recorded(specs, o);
        RecordedSnoc(specs, acc, o);
        if e.valueType == NoValue {
          assert Cluster(specs, series, k, args, j, acc) == Cluster(specs, series, k + 1, args, j, AddOption(acc, o));
          ClusterRecords(specs, series, k + 1, args, j, AddOption(acc, o));
        } else {
          assert Cluster(specs, series, k, args, j, acc).parsed == AddOption(acc, o);
        }
      }
    }
  }

  /**
   * Every recorded option names a declared option by id, carries a typed
   * name that is a prefix of the declared one, says "value required" exactly
   * for `Required` options, and has no value when the option takes none.
   */
  lemma {:induction false} ClassifyRecords(specs: OptSpecs, args: seq<string>, i: nat, acc: Args)
    requires i <= |args|
    requires forall o :: o in acc.options ==> Recorded(specs, o)
    ensures forall o :: o in ClassifyFrom(specs, args, i, acc).options ==> Recorded(specs, o)
    decreases |args| - i
  {
    if i < |args| {
      var opt := args[i];
      if IsOptionTerminator(opt) {
      } else if IsLongOptionPrefix(opt) {
        var c := LongOption(specs, args, i, acc);
        LongOptionRecords(specs, args, i, acc);
        ClassifyRecords(specs, args, c.next, c.parsed);
      } else if IsShortOptionPrefix(opt) {
        var c := Cluster(specs, GetShortOptionSeries(opt), 0, args, i + 1, acc);
        ClusterRecords(specs, GetShortOptionSeries(opt), 0, args, i + 1, acc);
        ClassifyRecords(specs, args, c.next, c.parsed);
      } else if specs.IsFlag(OptionsEverywhere) {
        ClassifyRecords(specs, args, i + 1, AddOther(acc, opt));
      }
    }
  }

  // Missing required values

  ghost predicate NoneMissing(opts: seq<Opt>) {
    forall o :: o in opts ==> !IsMissing(o)
  }

  ghost predicate MissingOnlyLast(opts: seq<Opt>) {
    forall k :: 0 <= k < |opts| && IsMissing(opts[k]) ==> k == |opts| - 1
  }

  lemma LongOptionMissingAtEnd(specs: OptSpecs, args: seq<string>, i: nat, acc: Args)
    requires i < |args| && IsLongOptionPrefix(args[i]) && NoneMissing(acc.options)
    ensures var c := LongOption(specs, args, i, acc);
      NoneMissing(c.parsed.options) || (c.next == |args| && MissingOnlyLast(c.parsed.options))
  {
    var r := ResolveLong(specs, GetLongOptionName(args[i]));
    if r.Some? {
      LongOptionValueRules(specs, args, i, acc, r.value);
    } else {
      LongOptionUnresolved(specs, args, i, acc);
    }
  }

  lemma {:induction false} ClusterMissingAtEnd(specs: OptSpecs, series: string, k: nat, args: seq<string>, j: nat, acc: Args)
    requires k <= |series| && j <= |args| && NoneMissing(acc.options)
    ensures var c := Cluster(specs, series, k, args, j, acc);
      NoneMissing(c.parsed.options) || (c.next == |args| && MissingOnlyLast(c.parsed.options))
    decreases |series| - k
  {
    if k < |series| {
      var name := [series[k]];
      var spec := ShortSpec(specs, name);
      if spec.None? {
        ClusterUnknownStep(specs, series, k, args, j, acc);
        ClusterMissingAtEnd(specs, series, k + 1, args, j, AddUnknown(acc, name));
      } else if spec.value.valueType == NoValue {
        var o := Opt(spec.value.id, name, false, None);
        assert !IsMissing(o);
        ClusterNoValueStep(specs, series, k, args, j, acc, spec.value);
        ClusterMissingAtEnd(specs, series, k + 1, args, j, AddOption(acc, o));
      } else {
        ClusterValueRules(specs, series, k, args, j, acc, spec.value);
      }
    }
  }

  /**
   * A required value is missing only when the input ran out, so at most one
   * recorded option misses its value, and it is the last option recorded.
   */
  lemma {:induction false} MissingValueIsLast(specs: OptSpecs, args: seq<string>, i: nat, acc: Args)
    requires i <= |args| && NoneMissing(acc.options)
    ensures MissingOnlyLast(ClassifyFrom(specs, args, i, acc).options)
    decreases |args| - i
  {
    if i < |args| {
      var opt := args[i];
      if IsOptionTerminator(opt) {
      } else if IsLongOptionPrefix(opt) {
        var c := LongOption(specs, args, i, acc);
        LongOptionMissingAtEnd(specs, args, i, acc);
        if NoneMissing(c.parsed.options) {
          MissingValueIsLast(specs, args, c.next, c.parsed);
        }
      } else if IsShortOptionPrefix(opt) {
        var c := Cluster(specs, GetShortOptionSeries(opt), 0, args, i + 1, acc);
        ClusterMissingAtEnd(specs, GetShortOptionSeries(opt), 0, args, i + 1, acc);
        if NoneMissing(c.parsed.options) {
          MissingValueIsLast(specs, args, c.next, c.parsed);
        }
      } else if specs.IsFlag(OptionsEverywhere) {
        MissingValueIsLast(specs, args, i + 1, AddOther(acc, opt));
      }
    }
  }
}
