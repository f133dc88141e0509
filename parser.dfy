/**
 * `parse`: one forward cursor over the argument sequence sorts every token
 * into `options`, `unknown` or `other`, or consumes it as an option's value.
 *
 * `Classify` is the specification: one step of the main loop per token,
 * `LongOption` and `Cluster` for the two kinds of option tokens, `Drain`
 * for the tokens left after the loop stops. `Parse` is the loop itself.
 */
module Parser {
  import opened Wrappers
  import opened Lexical
  import opened Registry
  import opened Results

  /** Where the shared cursor stands after a step, and the result so far. */
  datatype Cursor = Cursor(next: nat, parsed: Args)

  function AddOption(acc: Args, o: Opt): Args {
    acc.(options := acc.options + [o])
  }

  function AddUnknown(acc: Args, name: string): Args {
    acc.(unknown := acc.unknown + [name])
  }

  function AddOther(acc: Args, arg: string): Args {
    acc.(other := acc.other + [arg])
  }

  /** The remaining arguments, from `i` on, all become other arguments. */
  function Drain(args: seq<string>, i: nat, acc: Args): (r: Args)
    requires i <= |args|
    ensures r.options == acc.options && r.unknown == acc.unknown && r.argLimitExceeded == acc.argLimitExceeded
    ensures acc.other <= r.other && |r.other| == |acc.other| + |args| - i
    ensures forall k :: i <= k < |args| ==> r.other[|acc.other| + k - i] == args[k]
  {
    acc.(other := acc.other + args[i..])
  }

  /**
   * The specification a long option name resolves to: the exact name, or
   * with `PrefixMatchLongOptions` the only declared name it is a prefix of.
   */
  function ResolveLong(specs: OptSpecs, name: string): (r: Option<OptSpec>)
    reads specs
    ensures r.Some? ==> r.value in specs.options && |name| >= 2 && IsValidLongOptionName(name)
    ensures r.Some? ==> name <= r.value.name
  {
    if !IsValidLongOptionName(name) then None
    else if specs.IsFlag(PrefixMatchLongOptions) then
      var matches := specs.PrefixMatching(name);
      if |name| >= 2 && |matches| == 1 then
        assert matches[0] in matches;
        Some(matches[0])
      else None
    else specs.GetLongOptionMatch(name)
  }

  /** The long option token `args[i]`; a required value may take `args[i + 1]`. */
  function LongOption(specs: OptSpecs, args: seq<string>, i: nat, acc: Args): (c: Cursor)
    reads specs
    requires i < |args| && IsLongOptionPrefix(args[i])
    ensures i < c.next <= |args|
    ensures c.parsed.other == acc.other && c.parsed.argLimitExceeded == acc.argLimitExceeded
  {
    var opt := args[i];
    var name := GetLongOptionName(opt);
    match ResolveLong(specs, name)
    case None => Cursor(i + 1, AddUnknown(acc, name))
    case Some(spec) =>
      var hasEqual := IsLongOptionEqualSign(opt);
      match spec.valueType
      case Required =>
        if hasEqual then
          Cursor(i + 1, AddOption(acc, Opt(spec.id, name, true, Some(GetLongOptionEqualValue(opt)))))
        else if i + 1 < |args| then
          Cursor(i + 2, AddOption(acc, Opt(spec.id, name, true, Some(args[i + 1]))))
        else
          Cursor(i + 1, AddOption(acc, Opt(spec.id, name, true, None)))
      case Optional =>
        var value := if hasEqual then Some(GetLongOptionEqualValue(opt)) else None;
        Cursor(i + 1, AddOption(acc, Opt(spec.id, name, false, value)))
      case NoValue =>
        if hasEqual then Cursor(i + 1, AddUnknown(acc, name + "="))
        else Cursor(i + 1, AddOption(acc, Opt(spec.id, name, false, None)))
  }

  /**
   * The characters `series[k..]` of a short option cluster; the cursor `j`
   * points at the token after the cluster, which a required value may take.
   */
  function Cluster(specs: OptSpecs, series: string, k: nat, args: seq<string>, j: nat, acc: Args): (c: Cursor)
    reads specs
    requires k <= |series| && j <= |args|
    ensures j <= c.next <= |args|
    ensures c.parsed.other == acc.other && c.parsed.argLimitExceeded == acc.argLimitExceeded
    decreases |series| - k
  {
    if k == |series| then Cursor(j, acc)
    else
      var name := [series[k]];
      var spec := if IsValidShortOptionName(name) then specs.GetShortOptionMatch(name) else None;
      match spec
      case None => Cluster(specs, series, k + 1, args, j, AddUnknown(acc, name))
      case Some(spec) =>
        var rest := series[k + 1..];
        match spec.valueType
        case Required =>
          if |rest| > 0 then Cursor(j, AddOption(acc, Opt(spec.id, name, true, Some(rest))))
          else if j < |args| then Cursor(j + 1, AddOption(acc, Opt(spec.id, name, true, Some(args[j]))))
          else Cursor(j, AddOption(acc, Opt(spec.id, name, true, None)))
        case Optional =>
          Cursor(j, AddOption(acc, Opt(spec.id, name, false, if |rest| > 0 then Some(rest) else None)))
        case NoValue =>
          Cluster(specs, series, k + 1, args, j, AddOption(acc, Opt(spec.id, name, false, None)))
  }

  /**
   * The main loop from cursor `i` on, followed by the final drain. `other`
   * only grows, by at most one entry per remaining token, and the limit
   * flag is never touched.
   */
  function ClassifyFrom(specs: OptSpecs, args: seq<string>, i: nat, acc: Args): (r: Args)
    reads specs
    requires i <= |args|
    ensures acc.other <= r.other && |r.other| <= |acc.other| + |args| - i
    ensures r.argLimitExceeded == acc.argLimitExceeded
    decreases |args| - i
  {
    if i == |args| then acc
    else
      var opt := args[i];
      if IsOptionTerminator(opt) then Drain(args, i + 1, acc)
      else if IsLongOptionPrefix(opt) then
        var c := LongOption(specs, args, i, acc);
        ClassifyFrom(specs, args, c.next, c.parsed)
      else if IsShortOptionPrefix(opt) then
        var c := Cluster(specs, GetShortOptionSeries(opt), 0, args, i + 1, acc);
        ClassifyFrom(specs, args, c.next, c.parsed)
      else if specs.IsFlag(OptionsEverywhere) then ClassifyFrom(specs, args, i + 1, AddOther(acc, opt))
      else Drain(args, i + 1, AddOther(acc, opt))
  }

  /** `parse`'s result: at most one other argument per token, and `arg_limit_exceeded` is never set. */
  function Classify(specs: OptSpecs, args: seq<string>): (r: Args)
    reads specs
    ensures |r.other| <= |args| && !r.argLimitExceeded
  {
    ClassifyFrom(specs, args, 0, NewArgs())
  }

  /**
   * The long-option branch of the main loop for the token `args[i]`,
   * returning the advanced cursor and the updated result.
   */
  method ParseLongOption(specs: OptSpecs, args: seq<string>, i: nat, parsed: Args) returns (next: nat, parsed': Args)
    requires i < |args| && IsLongOptionPrefix(args[i])
    ensures Cursor(next, parsed') == LongOption(specs, args, i, parsed)
  {
    var opt := args[i];
    next := i + 1;
    var name := GetLongOptionName(opt);
    var specTest: Option<OptSpec> := None;
    if IsValidLongOptionName(name) {
      if specs.IsFlag(PrefixMatchLongOptions) {
        var matches := specs.GetLongOptionPrefixMatches(name);
        if matches.Some? && |matches.value| == 1 {
          specTest := Some(matches.value[0]);
        }
      } else {
        specTest := specs.GetLongOptionMatch(name);
      }
    }
    assert specTest == ResolveLong(specs, name);

    if specTest.Some? {
      var spec := specTest.value;
      var valueRequired: bool;
      var value: Option<string>;
      match spec.valueType {
        case Required =>
          valueRequired := true;
          if IsLongOptionEqualSign(opt) {
            value := Some(GetLongOptionEqualValue(opt));
          } else if next < |args| {
            value := Some(args[next]);
            next := next + 1;
          } else {
            value := None;
          }
        case Optional =>
          valueRequired := false;
          if IsLongOptionEqualSign(opt) {
            value := Some(GetLongOptionEqualValue(opt));
          } else {
            value := None;
          }
        case NoValue =>
          valueRequired := false;
          value := None;
          if IsLongOptionEqualSign(opt) {
            parsed' := parsed.(unknown := parsed.unknown + [name + "="]);
            return;
          }
      }
      parsed' := parsed.(options := parsed.options + [Opt(spec.id, name, valueRequired, value)]);
      return;
    }
    parsed' := parsed.(unknown := parsed.unknown + [name]);
  }

  /**
   * The short-option branch of the main loop: scans the cluster `series`
   * character by character; `i` is the cursor after the cluster's token.
   */
  method ParseShortCluster(specs: OptSpecs, series: string, args: seq<string>, i: nat, parsed: Args) returns (next: nat, parsed': Args)
    requires i <= |args|
    ensures Cursor(next, parsed') == Cluster(specs, series, 0, args, i, parsed)
  {
    ghost var c := Cluster(specs, series, 0, args, i, parsed);
    next, parsed' := i, parsed;
    var k := 0;
    while k < |series|
      invariant 0 <= k <= |series| && i <= next <= |args|
      invariant Cluster(specs, series, k, args, next, parsed') == c
      decreases |series| - k
    {
      var name := [series[k]];
      k := k + 1;
      if IsValidShortOptionName(name) {
        var specTest := specs.GetShortOptionMatch(name);
        if specTest.Some? {
          var spec := specTest.value;
          var valueRequired: bool;
          var value: Option<string>;
          match spec.valueType {
            case Required =>
              valueRequired := true;
              var chars := series[k..];
              while k < |series|
                invariant k <= |series|
              {
                k := k + 1;
              }
              if |chars| > 0 {
                value := Some(chars);
              } else if next < |args| {
                value := Some(args[next]);
                next := next + 1;
              } else {
                value := None;
              }
            case Optional =>
              valueRequired := false;
              var chars := series[k..];
              while k < |series|
                invariant k <= |series|
              {
                k := k + 1;
              }
              if |chars| > 0 {
                value := Some(chars);
              } else {
                value := None;
              }
            case NoValue =>
              valueRequired := false;
              value := None;
          }
          parsed' := parsed'.(options := parsed'.options + [Opt(spec.id, name, valueRequired, value)]);
          continue;
        }
      }
      parsed' := parsed'.(unknown := parsed'.unknown + [name]);
    }
  }

  /**
   * One pass of the main loop of `parse` for the token `args[i]`: the
   * advanced cursor, the updated result, and whether the loop stops here.
   */
  method ParseToken(specs: OptSpecs, args: seq<string>, i: nat, parsed: Args) returns (stop: bool, next: nat, parsed': Args)
    requires i < |args|
    ensures i < next <= |args|
    ensures stop ==> ClassifyFrom(specs, args, i, parsed) == Drain(args, next, parsed')
    ensures !stop ==> ClassifyFrom(specs, args, i, parsed) == ClassifyFrom(specs, args, next, parsed')
  {
    var opt := args[i];
    stop := false;
    if IsOptionTerminator(opt) {
      next, parsed' := i + 1, parsed;
      stop := true;
    } else if IsLongOptionPrefix(opt) {
      next, parsed' := ParseLongOption(specs, args, i, parsed);
    } else if IsShortOptionPrefix(opt) {
      next, parsed' := ParseShortCluster(specs, GetShortOptionSeries(opt), args, i + 1, parsed);
    } else if specs.IsFlag(OptionsEverywhere) {
      next, parsed' := i + 1, parsed.(other := parsed.other + [opt]);
    } else {
      next, parsed' := i + 1, parsed.(other := parsed.other + [opt]);
      stop := true;
    }
  }

  /** `parse`: the classification loop over one shared cursor. */
  method Parse(specs: OptSpecs, args: seq<string>) returns (parsed: Args)
    ensures parsed == Classify(specs, args)
  {
    ghost var target := Classify(specs, args);
    parsed := NewArgs();
    var i, stop := 0, false;
    while i < |args| && !stop
      invariant 0 <= i <= |args|
      invariant (if stop then Drain(args, i, parsed) else ClassifyFrom(specs, args, i, parsed)) == target
      decreases |args| - i
    {
      stop, i, parsed := ParseToken(specs, args, i, parsed);
    }
    parsed := PushRemaining(args, i, parsed);
  }

  /** The tail of `parse`: every argument from `i` on becomes an other argument. */
  method PushRemaining(args: seq<string>, i: nat, parsed: Args) returns (parsed': Args)
    requires i <= |args|
    ensures parsed' == Drain(args, i, parsed)
  {
    parsed' := parsed;
    var k := i;
    while k < |args|
      invariant i <= k <= |args|
      invariant parsed' == parsed.(other := parsed.other + args[i..k])
    {
      assert args[i..k + 1] == args[i..k] + [args[k]];
      parsed' := parsed'.(other := parsed'.other + [args[k]]);
      k := k + 1;
    }
    assert args[i..k] == args[i..];
  }
}
