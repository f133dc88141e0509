/**
 * The parse result `Args` (options, other arguments, unknown options) and
 * its read-only query methods.
 */
module Results {
  import opened Wrappers
  import opened Seqs

  /** One recorded option: its id, the name typed on the command line, and its value. */
  datatype Opt = Opt(id: string, name: string, valueRequired: bool, value: Option<string>)

  function IdIs(id: string): Opt -> bool {
    (o: Opt) => o.id == id
  }

  function IdWithValue(id: string): Opt -> bool {
    (o: Opt) => o.id == id && o.value.Some?
  }

  /** A required value that is absent. */
  predicate IsMissing(o: Opt) {
    o.valueRequired && o.value.None?
  }

  /** The values that are present, in order. */
  function ValuesOf(opts: seq<Opt>): (r: seq<string>)
    ensures |r| <= |opts|
  {
    if opts == [] then []
    else
      (if opts[0].value.Some? then [opts[0].value.value] else []) + ValuesOf(opts[1..])
  }

  /** The loop of `options_value_all`: the values of `opts` that are present, in order. */
  method PresentValues(opts: seq<Opt>) returns (r: seq<string>)
    ensures r == ValuesOf(opts)
  {
    r := [];
    var k := 0;
    while k < |opts|
      invariant 0 <= k <= |opts|
      invariant r == ValuesOf(opts[..k])
    {
      ValuesOfSnoc(opts, k);
      if opts[k].value.Some? {
        r := r + [opts[k].value.value];
      }
      k := k + 1;
    }
    assert opts[..k] == opts;
  }

  /** A value is listed exactly when some option carries it. */
  lemma {:induction false} ValuesOfMembers(opts: seq<Opt>)
    ensures forall v :: v in ValuesOf(opts) <==> exists o :: o in opts && o.value == Some(v)
  {
    if opts != [] {
      ValuesOfMembers(opts[1..]);
      assert forall o :: o in opts <==> o == opts[0] || o in opts[1..];
    }
  }

  lemma {:induction false} ValuesOfAppend(a: seq<Opt>, b: seq<Opt>)
    ensures ValuesOf(a + b) == ValuesOf(a) + ValuesOf(b)
  {
    if a == [] {
      assert a + b == b;
    } else {
      assert (a + b)[0] == a[0] && (a + b)[1..] == a[1..] + b;
      ValuesOfAppend(a[1..], b);
      assert ValuesOf(a + b) == (if a[0].value.Some? then [a[0].value.value] else []) + ValuesOf(a[1..] + b);
    }
  }

  lemma ValuesOfSnoc(opts: seq<Opt>, k: nat)
    requires k < |opts|
    ensures ValuesOf(opts[..k + 1]) == ValuesOf(opts[..k]) + if opts[k].value.Some? then [opts[k].value.value] else []
  {
    assert opts[..k + 1] == opts[..k] + [opts[k]];
    ValuesOfAppend(opts[..k], [opts[k]]);
    ValuesOfSingle(opts[k]);
  }

  /** The first option with `id` that has a value carries the first value of that id. */
  lemma {:induction false} FirstValueOfId(s: seq<Opt>, id: string)
    ensures var v := ValuesOf(Filter(s, IdIs(id)));
            FirstWhere(s, IdWithValue(id)).None? <==> v == []
    ensures var v := ValuesOf(Filter(s, IdIs(id)));
            FirstWhere(s, IdWithValue(id)).Some? ==> FirstWhere(s, IdWithValue(id)).value.value == Some(v[0])
  {
    if s != [] {
      FirstValueOfId(s[1..], id);
      var rest := Filter(s[1..], IdIs(id));
      assert Filter(s, IdIs(id)) == (if s[0].id == id then [s[0]] else []) + rest;
      if s[0].id == id {
        assert ([s[0]] + rest)[1..] == rest;
        assert ValuesOf([s[0]] + rest) == (if s[0].value.Some? then [s[0].value.value] else []) + ValuesOf(rest);
      } else {
        assert Filter(s, IdIs(id)) == rest;
      }
    }
  }

  lemma ValuesOfSingle(o: Opt)
    ensures ValuesOf([o]) == if o.value.Some? then [o.value.value] else []
  {
    assert ValuesOf([o]) == (if o.value.Some? then [o.value.value] else []) + ValuesOf([]);
  }

  /** The last option with `id` that has a value carries the last value of that id. */
  lemma {:induction false} LastValueOfId(s: seq<Opt>, id: string)
    ensures var v := ValuesOf(Filter(s, IdIs(id)));
            LastWhere(s, IdWithValue(id)).None? <==> v == []
    ensures var v := ValuesOf(Filter(s, IdIs(id)));
            LastWhere(s, IdWithValue(id)).Some? ==> LastWhere(s, IdWithValue(id)).value.value == Some(v[|v| - 1])
  {
    if s != [] {
      var init, last := s[..|s| - 1], s[|s| - 1];
      assert s == init + [last];
      LastValueOfId(init, id);
      LastValueStep(init, last, id);
    }
  }

  lemma LastValueStep(init: seq<Opt>, last: Opt, id: string)
    ensures ValuesOf(Filter(init + [last], IdIs(id))) ==
      ValuesOf(Filter(init, IdIs(id))) + if last.id == id && last.value.Some? then [last.value.value] else []
    ensures LastWhere(init + [last], IdWithValue(id)) ==
      if last.id == id && last.value.Some? then Some(last) else LastWhere(init, IdWithValue(id))
  {
    var s := init + [last];
    assert s[..|s| - 1] == init && s[|s| - 1] == last;
    FilterSnoc(init, last, IdIs(id));
    var tail := if last.id == id then [last] else [];
    ValuesOfAppend(Filter(init, IdIs(id)), tail);
    ValuesOfSingle(last);
  }

  /** The parse result; `argLimitExceeded` is never set by the parser. */
  datatype Args = Args(options: seq<Opt>, other: seq<string>, unknown: seq<string>, argLimitExceeded: bool)
  {
    /** The options with `id`, in command-line order. */
    function WithId(id: string): seq<Opt> {
      Filter(options, IdIs(id))
    }

    /** `required_value_missing`: the options whose required value is absent, in order. */
    method RequiredValueMissing() returns (r: seq<Opt>)
      ensures r == Filter(options, IsMissing)
      ensures forall o :: o in r <==> o in options && o.valueRequired && o.value == None
      ensures forall o :: o in options && o.value.Some? ==> o !in r
    {
      r := [];
      var k := 0;
      while k < |options|
        invariant 0 <= k <= |options|
        invariant r == Filter(options[..k], IsMissing)
      {
        assert options[..k + 1] == options[..k] + [options[k]];
        FilterSnoc(options[..k], options[k], IsMissing);
        if options[k].valueRequired && options[k].value.None? {
          r := r + [options[k]];
        }
        k := k + 1;
      }
      assert options[..k] == options;
    }

    /** `options_all`: the options with `id`, in command-line order. */
    method OptionsAll(id: string) returns (r: seq<Opt>)
      ensures r == WithId(id)
      ensures forall o :: o in r <==> o in options && o.id == id
    {
      r := [];
      var k := 0;
      while k < |options|
        invariant 0 <= k <= |options|
        invariant r == Filter(options[..k], IdIs(id))
      {
        assert options[..k + 1] == options[..k] + [options[k]];
        FilterSnoc(options[..k], options[k], IdIs(id));
        if options[k].id == id {
          r := r + [options[k]];
        }
        k := k + 1;
      }
      assert options[..k] == options;
    }

    /** `options_first`: the first element of `options_all`, if any. */
    function OptionsFirst(id: string): (r: Option<Opt>)
      ensures r.None? <==> WithId(id) == []
      ensures r.Some? ==> r.value == WithId(id)[0]
    {
      FirstWhere(options, IdIs(id))
    }

    /** `options_last`: the last element of `options_all`, if any. */
    function OptionsLast(id: string): (r: Option<Opt>)
      ensures r.None? <==> WithId(id) == []
      ensures r.Some? ==> r.value == WithId(id)[|WithId(id)| - 1]
    {
      LastWhere(options, IdIs(id))
    }

    /** `options_value_all`: the present values of the options with `id`, in order. */
    method OptionsValueAll(id: string) returns (r: seq<string>)
      ensures r == ValuesOf(WithId(id))
    {
      var opts := OptionsAll(id);
      r := PresentValues(opts);
    }

    /** A value is listed for `id` exactly when some option with `id` carries it. */
    lemma ValuesOfWithId(id: string)
      ensures forall v :: v in ValuesOf(WithId(id)) <==> exists o :: o in options && o.id == id && o.value == Some(v)
    {
      var opts := WithId(id);
      ValuesOfMembers(opts);
      forall v | v in ValuesOf(opts) ensures exists o :: o in options && o.id == id && o.value == Some(v) {
        var o :| o in opts && o.value == Some(v);
        assert o in options && o.id == id;
      }
      forall o | o in options && o.id == id && o.value.Some? ensures o.value.value in ValuesOf(opts) {
        assert o in opts;
      }
    }

    /** `options_value_first`: the first present value for `id`, if any. */
    function OptionsValueFirst(id: string): (r: Option<string>)
      ensures r.None? <==> ValuesOf(WithId(id)) == []
      ensures r.Some? ==> r.value == ValuesOf(WithId(id))[0]
    {
      FirstValueOfId(options, id);
      match FirstWhere(options, IdWithValue(id))
      case None => None
      case Some(o) => o.value
    }

    /** `options_value_last`: the last present value for `id`, if any. */
    function OptionsValueLast(id: string): (r: Option<string>)
      ensures r.None? <==> ValuesOf(WithId(id)) == []
      ensures r.Some? ==> r.value == ValuesOf(WithId(id))[|ValuesOf(WithId(id))| - 1]
    {
      LastValueOfId(options, id);
      match LastWhere(options, IdWithValue(id))
      case None => None
      case Some(o) => o.value
    }
  }

  /** `Args::new`: everything empty, the limit flag cleared. */
  function NewArgs(): (r: Args)
    ensures forall id :: r.WithId(id) == [] && r.OptionsFirst(id).None? && r.OptionsValueLast(id).None?
    ensures r.other == [] && r.unknown == [] && !r.argLimitExceeded
  {
    Args([], [], [], false)
  }

  /**
   * The de-duplication that the documentation of `Args.unknown` describes
   * (first occurrence kept, order kept). The parser does not apply it.
   */
  function Deduplicated(s: seq<string>): (r: seq<string>)
    ensures forall x :: x in r <==> x in s
    ensures forall j, k :: 0 <= j < k < |r| ==> r[j] != r[k]
  {
    if s == [] then []
    else
      var init, last := s[..|s| - 1], s[|s| - 1];
      assert s == init + [last];
      var r := Deduplicated(init);
      if last in r then r else r + [last]
  }

  /** `Deduplicated` yields a subsequence of its input. */
  lemma {:induction false} DeduplicatedIsSubseq(s: seq<string>)
    ensures IsSubseq(Deduplicated(s), s)
  {
    if s != [] {
      var init, last := s[..|s| - 1], s[|s| - 1];
      assert s == init + [last];
      var r := Deduplicated(init);
      DeduplicatedIsSubseq(init);
      if last in r {
        SubseqExtend(r, init, last);
      } else {
        SubseqSnoc(r, init, last);
      }
    }
  }

  /** The elements of `r` come in the order of their first occurrences in `s`. */
  ghost predicate InFirstOccurrenceOrder(r: seq<string>, s: seq<string>) {
    forall j, k :: 0 <= j < k < |r| ==> FirstIndex(s, r[j]) < FirstIndex(s, r[k])
  }

  lemma FirstOccurrenceOrderSnoc(r: seq<string>, init: seq<string>, last: string)
    requires forall x :: x in r ==> x in init
    requires InFirstOccurrenceOrder(r, init)
    ensures InFirstOccurrenceOrder(r, init + [last])
    ensures last !in init ==> InFirstOccurrenceOrder(r + [last], init + [last])
  {
    var s := init + [last];
    forall j | 0 <= j < |r| ensures FirstIndex(s, r[j]) == FirstIndex(init, r[j]) < |init| {
      assert r[j] in r;
      FirstIndexSnoc(init, last, r[j]);
    }
    if last !in init {
      FirstIndexSnoc(init, last, last);
      var r' := r + [last];
      forall j, k | 0 <= j < k < |r'| ensures FirstIndex(s, r'[j]) < FirstIndex(s, r'[k]) {
        assert r'[j] == r[j];
        if k < |r| {
          assert r'[k] == r[k];
        }
      }
    }
  }

  /** The elements of `Deduplicated(s)` come in the order of their first occurrences in `s`. */
  lemma {:induction false} DeduplicatedKeepsFirstOrder(s: seq<string>)
    ensures InFirstOccurrenceOrder(Deduplicated(s), s)
  {
    if s != [] {
      var init, last := s[..|s| - 1], s[|s| - 1];
      assert s == init + [last];
      DeduplicatedKeepsFirstOrder(init);
      FirstOccurrenceOrderSnoc(Deduplicated(init), init, last);
    }
  }

  /** A missing value is one that is absent; an explicit empty value is not missing. */
  lemma EmptyValueIsNotMissing(a: Args, o: Opt)
    requires o in a.options && o.value == Some("")
    ensures o !in Filter(a.options, IsMissing)
  {
  }
}
