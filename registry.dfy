/**
 * The option registry `OptSpecs`: declared options, behaviour flags and the
 * argument limit, built by mutating calls, and the lookups the parser uses.
 */
module Registry {
  import opened Wrappers
  import opened Seqs
  import opened Lexical

  newtype u32 = x: int | 0 <= x < 0x1_0000_0000

  /** The default argument limit, `u32::MAX`. */
  const ArgLimitDefault: u32 := 0xFFFF_FFFF

  /** Whether an option takes a value; `NoValue` is the source's `OptValueType::None`. */
  datatype OptValueType = NoValue | Optional | Required

  datatype OptFlags = OptionsEverywhere | PrefixMatchLongOptions

  datatype OptSpec = OptSpec(id: string, name: string, valueType: OptValueType)

  /** A one-character name must be a valid short name, a longer one a valid long name. */
  predicate IsValidOptionName(name: string) {
    if |name| == 1 then IsValidShortOptionName(name)
    else |name| >= 2 && IsValidLongOptionName(name)
  }

  /** The assertions `option` makes before it accepts a declaration. */
  predicate CanDeclare(options: seq<OptSpec>, id: string, name: string) {
    |id| > 0 && IsValidOptionName(name) && forall e :: e in options ==> e.name != name
  }

  /** Declared names are valid, ids non-empty and names pairwise distinct. */
  ghost predicate WellFormed(options: seq<OptSpec>) {
    && (forall k :: 0 <= k < |options| ==> |options[k].id| > 0 && IsValidOptionName(options[k].name))
    && (forall j, k :: 0 <= j < k < |options| ==> options[j].name != options[k].name)
  }

  function NameIs(name: string): OptSpec -> bool {
    (e: OptSpec) => e.name == name
  }

  function NameStartsWith(prefix: string): OptSpec -> bool {
    (e: OptSpec) => prefix <= e.name
  }

  /** What the first declaration carrying a given name looks like, if there is one. */
  lemma FirstNamed(options: seq<OptSpec>, name: string)
    ensures FirstWhere(options, NameIs(name)).Some? <==> exists e :: e in options && e.name == name
    ensures FirstWhere(options, NameIs(name)).Some? ==>
      FirstWhere(options, NameIs(name)).value in options && FirstWhere(options, NameIs(name)).value.name == name
  {
    var f := Filter(options, NameIs(name));
    if f != [] {
      assert f[0] in f;
    } else {
      forall e | e in options ensures e.name != name {
        assert NameIs(name)(e) ==> e in f;
      }
    }
  }

  /** In a well-formed registry a name identifies its declaration. */
  lemma NameIdentifies(options: seq<OptSpec>)
    ensures WellFormed(options) ==>
      forall e1, e2 :: e1 in options && e2 in options && e1.name == e2.name ==> e1 == e2
  {
    if WellFormed(options) {
      forall e1, e2 | e1 in options && e2 in options && e1.name == e2.name ensures e1 == e2 {
        var a :| 0 <= a < |options| && options[a] == e1;
        var b :| 0 <= b < |options| && options[b] == e2;
        assert a == b;
      }
    }
  }

  /** Appending an accepted declaration keeps the registry well formed. */
  lemma {:induction false} DeclareKeepsWellFormed(options: seq<OptSpec>, id: string, name: string, valueType: OptValueType)
    requires WellFormed(options) && CanDeclare(options, id, name)
    ensures WellFormed(options + [OptSpec(id, name, valueType)])
  {
    var options' := options + [OptSpec(id, name, valueType)];
    forall j, k | 0 <= j < k < |options'| ensures options'[j].name != options'[k].name {
      if k == |options| {
        assert options[j] in options;
      }
    }
  }

  class OptSpecs {
    var options: seq<OptSpec>
    var flags: seq<OptFlags>
    var argLimit: u32

    ghost predicate Valid()
      reads this
    {
      WellFormed(options)
    }

    /** `OptSpecs::new`: no options, no flags, the default limit. */
    constructor ()
      ensures Valid()
      ensures options == [] && flags == [] && argLimit == ArgLimitDefault
    {
      options := [];
      flags := [];
      argLimit := ArgLimitDefault;
    }

    /**
     * `option`: declares one option. Where the source panics (empty id,
     * invalid name, duplicate name) this returns `ok == false` and leaves the
     * registry unchanged; otherwise it appends exactly one specification.
     */
    method Option(id: string, name: string, valueType: OptValueType) returns (ok: bool)
      requires Valid()
      modifies this`options
      ensures Valid()
      ensures ok == CanDeclare(old(options), id, name)
      ensures options == if ok then old(options) + [OptSpec(id, name, valueType)] else old(options)
    {
      if |id| == 0 {
        return false;
      }
      var nameCount := |name|;
      if nameCount == 1 {
        if !IsValidShortOptionName(name) {
          return false;
        }
      } else if nameCount >= 2 {
        if !IsValidLongOptionName(name) {
          return false;
        }
      } else {
        return false;
      }
      var k := 0;
      while k < |options|
        invariant 0 <= k <= |options|
        invariant forall j :: 0 <= j < k ==> options[j].name != name
      {
        if options[k].name == name {
          assert options[k] in options;
          return false;
        }
        k := k + 1;
      }
      DeclareKeepsWellFormed(options, id, name, valueType);
      options := options + [OptSpec(id, name, valueType)];
      ok := true;
    }

    /** `flag`: records a behaviour flag; adding one twice changes nothing `IsFlag` sees. */
    method Flag(flag: OptFlags)
      modifies this`flags
      ensures flags == old(flags) + [flag]
      ensures forall f :: IsFlag(f) <==> old(IsFlag(f)) || f == flag
    {
      flags := flags + [flag];
    }

    /** Whether some call of `Flag` added `flag`. */
    function IsFlag(flag: OptFlags): (r: bool)
      reads this
      ensures r <==> exists k :: 0 <= k < |flags| && flags[k] == flag
    {
      flag in flags
    }

    /** `arg_limit`: overwrites the argument limit. */
    method ArgLimit(limit: u32)
      modifies this`argLimit
      ensures argLimit == limit
      ensures forall n :: IsUnderLimit(n) <==> n < limit
    {
      argLimit := limit;
    }

    /** Exact lookup of a one-character name. */
    function GetShortOptionMatch(name: string): (r: Option<OptSpec>)
      reads this
      ensures r.Some? <==> |name| == 1 && exists e :: e in options && e.name == name
      ensures r.Some? ==> r.value in options && r.value.name == name
      ensures Valid() && |name| == 1 ==> forall e :: e in options && e.name == name ==> r == Some(e)
    {
      if |name| != 1 then None
      else
        FirstNamed(options, name);
        NameIdentifies(options);
        FirstWhere(options, NameIs(name))
    }

    /** Exact lookup of a name of two or more characters. */
    function GetLongOptionMatch(name: string): (r: Option<OptSpec>)
      reads this
      ensures r.Some? <==> |name| >= 2 && exists e :: e in options && e.name == name
      ensures r.Some? ==> r.value in options && r.value.name == name
      ensures Valid() && |name| >= 2 ==> forall e :: e in options && e.name == name ==> r == Some(e)
    {
      if |name| < 2 then None
      else
        FirstNamed(options, name);
        NameIdentifies(options);
        FirstWhere(options, NameIs(name))
    }

    /** The declared options whose names start with `prefix`, in declaration order. */
    function PrefixMatching(prefix: string): seq<OptSpec>
      reads this
    {
      Filter(options, NameStartsWith(prefix))
    }

    /** Prefix lookup: `None` for names under two characters or without a match. */
    method GetLongOptionPrefixMatches(name: string) returns (r: Option<seq<OptSpec>>)
      ensures |name| < 2 ==> r == None
      ensures |name| >= 2 ==> r == if PrefixMatching(name) == [] then None else Some(PrefixMatching(name))
      ensures r.Some? ==> r.value != [] && forall e :: e in r.value <==> e in options && name <= e.name
    {
      if |name| < 2 {
        return None;
      }
      var v := [];
      var k := 0;
      while k < |options|
        invariant 0 <= k <= |options|
        invariant v == Filter(options[..k], NameStartsWith(name))
      {
        assert options[..k + 1] == options[..k] + [options[k]];
        FilterSnoc(options[..k], options[k], NameStartsWith(name));
        if name <= options[k].name {
          v := v + [options[k]];
        }
        k := k + 1;
      }
      assert options[..k] == options;
      if v == [] {
        r := None;
      } else {
        r := Some(v);
      }
    }

    /** Whether `n` arguments are still under the limit. */
    function IsUnderLimit(n: u32): (r: bool)
      reads this
      ensures r <==> n < argLimit
    {
      n < argLimit && n < ArgLimitDefault
    }
  }
}
