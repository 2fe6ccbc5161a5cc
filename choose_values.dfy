/** The synchronous `Choose`, `ChooseFirst` and `ChooseSingle` extensions of
    Infrastructure.Option/ChooseValues.cs: flattening, map and bind on one option,
    and extraction of the present values of a sequence of options. The LINQ
    pipelines of the source are kept: `OfType<Some<T>>()` is `Where(_, IsSome)` and
    `some => some.Value` is the implicit conversion `Unwrap`. */
module ChooseValues {
  import opened OptionCore
  import opened Linq
  import opened Fallback
  import opened ValueMatching

  /** `Choose` on `Option<Option<T>>`: the inner option, or `None`. */
  function Flatten<T>(o: Option<Option<T>>): (r: Option<T>)
    ensures o.Some? ==> r == o.value
    ensures o.None? ==> r.None?
  {
    match o
    case Some(inner) => inner
    case None => None
  }

  /** `Choose` on `Some<Option<T>>`: the inner option. */
  function FlattenSome<T>(o: Option<Option<T>>): (r: Option<T>)
    requires o.Some?
    ensures r == Flatten(o)
  {
    o.value
  }

  /** `Choose(option, mapping)` with a plain mapping: the mapped value, wrapped as
      `Some` by the implicit conversion, or `None` without calling `mapping`. */
  function Choose<S, R>(o: Option<S>, mapping: S --> R): (r: Option<R>)
    requires o.Some? ==> mapping.requires(o.value)
    ensures r.Some? <==> o.Some?
    ensures o.Some? ==> r.value == mapping(o.value)
  {
    match o
    case Some(v) => Wrap(mapping(v))
    case None => None
  }

  /** `Choose(option, mapping)` with an option-returning mapping (bind): the
      mapping's own result, not re-wrapped, or `None` without calling `mapping`. */
  function ChooseOption<S, R>(o: Option<S>, mapping: S --> Option<R>): (r: Option<R>)
    requires o.Some? ==> mapping.requires(o.value)
    ensures o.Some? ==> r == mapping(o.value)
    ensures o.None? ==> r.None?
  {
    match o
    case Some(v) => mapping(v)
    case None => None
  }

  /** Flattening undoes wrapping, and is bind with the identity. */
  lemma FlattenLaws<T>(o: Option<T>, oo: Option<Option<T>>)
    ensures Flatten(Wrap(o)) == o
    ensures Flatten<T>(None) == None
    ensures Flatten(oo) == ChooseOption(oo, x => x)
  {
  }

  /** A mapping that can never be called is admissible on `None`: `Choose` does
      not invoke its mapping on an absent source. */
  lemma ChooseNotInvokedOnNone<S, R>(m: S -> R, b: S -> Option<R>)
    ensures Choose(None, (x: S) requires false => m(x)) == None
    ensures ChooseOption(None, (x: S) requires false => b(x)) == None
  {
  }

  /** Mapping is bind followed by the implicit wrap. */
  lemma ChooseIsBindOfWrap<S, R>(o: Option<S>, f: S -> R)
    ensures Choose(o, f) == ChooseOption(o, x => Wrap(f(x)))
  {
  }

  /** `Choose` with a plain mapping is a functor: the identity changes nothing and
      two mappings in a row are their composition. */
  lemma ChooseFunctorLaws<A, B, C>(o: Option<A>, f: A -> B, g: B -> C)
    ensures Choose(o, x => x) == o
    ensures Choose(Choose(o, f), g) == Choose(o, x => g(f(x)))
  {
  }

  /** `Choose` with an option mapping is a monad bind with the implicit wrap as
      unit. */
  lemma ChooseOptionMonadLaws<A, B, C>(v: A, o: Option<A>, f: A -> Option<B>, g: B -> Option<C>)
    ensures ChooseOption(Wrap(v), f) == f(v)
    ensures ChooseOption(o, Wrap) == o
    ensures ChooseOption(ChooseOption(o, f), g) == ChooseOption(o, x => ChooseOption(f(x), g))
  {
  }

  /** `Some("Hello").Choose(v => v + " world").Choose(v => v + "!")` is
      `Some("Hello world!")`, and a property of `None` stays `None`. */
  lemma ChainedChoose(f: string -> string)
    ensures Choose(Choose(Some("Hello"), v => v + " world"), v => v + "!") == Some("Hello world!")
    ensures Choose(NoneOf<string>(), f) == None
  {
    assert "Hello" + " world" + "!" == "Hello world!";
  }

  /** `Choose()` on a sequence of options: the values of the `Some` entries, in
      order; `None` entries are dropped. */
  function ChooseAll<T>(os: seq<Option<T>>): (r: seq<T>)
    ensures |r| == Count(os, IsSome) <= |os|
    ensures Select(r, Wrap) == Where(os, IsSome)
  {
    Select(Where(os, IsSome), Unwrap)
  }

  /** `Choose(filter)`: the present values that satisfy `filter`. */
  function ChooseWhere<T>(os: seq<Option<T>>, filter: T -> bool): (r: seq<T>)
    ensures |r| <= |ChooseAll(os)|
    ensures forall v :: v in r ==> filter(v)
  {
    Where(ChooseAll(os), filter)
  }

  /** `Choose(mapping)`: `mapping` applied to each present value. */
  function ChooseMapped<S, R>(os: seq<Option<S>>, mapping: S -> R): (r: seq<R>)
    ensures |r| == Count(os, IsSome)
    ensures r == Select(ChooseAll(os), mapping)
  {
    Select(Where(os, IsSome), (some: Option<S>) requires some.Some? => mapping(Unwrap(some)))
  }

  /** `Choose(source, mapping)` on a raw sequence with an option selector: the
      present results of the selector, in order. */
  function ChooseBy<S, R>(s: seq<S>, mapping: S -> Option<R>): (r: seq<R>)
    ensures |r| <= |s|
  {
    ChooseAll(Select(s, mapping))
  }

  /** `ChooseFirst()`: the earliest `Some` entry, or `None` when there is none. */
  function ChooseFirst<T>(os: seq<Option<T>>): (r: Option<T>)
    ensures r.None? <==> forall i :: 0 <= i < |os| ==> os[i].None?
    ensures r.Some? ==>
      exists i :: 0 <= i < |os| && os[i] == r && forall j :: 0 <= j < i ==> os[j].None?
  {
    WhereHead(os, IsSome);
    First(DefaultIfEmpty(Where(os, IsSome), None))
  }

  /** `ChooseSingle()`: `None` for no `Some` entry, the entry itself for exactly
      one, and an `InvalidOperationException` for two or more. */
  function ChooseSingle<T>(os: seq<Option<T>>): (r: Result<Option<T>>)
    ensures r.InvalidOperation? <==> Count(os, IsSome) >= 2
    ensures Count(os, IsSome) == 0 ==> r == Ok(None)
    ensures Count(os, IsSome) == 1 ==> r.Ok? && r.value.Some? && r.value == ChooseFirst(os)
  {
    Single(DefaultIfEmpty(Where(os, IsSome), None))
  }

  /** `ChooseFirst(filter)`: the earliest entry holding a value that satisfies
      `filter`, or `None` when there is none. */
  function ChooseFirstWhere<T>(os: seq<Option<T>>, filter: T -> bool): (r: Option<T>)
    ensures r.None? <==> forall i :: 0 <= i < |os| ==> !Holds(os[i], filter)
    ensures r.Some? ==>
      exists i :: 0 <= i < |os| && os[i] == r && Holds(r, filter) &&
        forall j :: 0 <= j < i ==> !Holds(os[j], filter)
  {
    var matching := (o: Option<T>) => Holds(o, filter);
    MatchingPresentValues(os, filter, matching);
    WhereHead(os, matching);
    First(DefaultIfEmpty(Select(Where(ChooseAll(os), filter), Wrap), None))
  }

  /** `ChooseSingle(filter)`: like `ChooseSingle()` over the present values that
      satisfy `filter`. */
  function ChooseSingleWhere<T>(os: seq<Option<T>>, filter: T -> bool): (r: Result<Option<T>>)
    ensures r.InvalidOperation? <==> |ChooseWhere(os, filter)| >= 2
    ensures |ChooseWhere(os, filter)| == 0 ==> r == Ok(None)
    ensures |ChooseWhere(os, filter)| == 1 ==>
      r.Ok? && r.value.Some? && r.value == ChooseFirstWhere(os, filter)
  {
    Single(DefaultIfEmpty(Select(Where(ChooseAll(os), filter), Wrap), None))
  }

  /** For `ChooseFirstWhere`: re-wrapping the present values that satisfy `filter`
      gives exactly the entries for which `Holds` is true. */
  lemma {:induction false} MatchingPresentValues<T>(os: seq<Option<T>>, filter: T -> bool, matching: Option<T> -> bool)
    requires forall o :: matching(o) == Holds(o, filter)
    ensures Select(Where(ChooseAll(os), filter), Wrap) == Where(os, matching)
  {
    if os != [] {
      MatchingPresentValues(os[1..], filter, matching);
      assert os == [os[0]] + os[1..];
      ChooseAllConcat([os[0]], os[1..]);
      WhereConcat(ChooseAll([os[0]]), ChooseAll(os[1..]), filter);
      SelectConcat(Where(ChooseAll([os[0]]), filter), Where(ChooseAll(os[1..]), filter), Wrap);
      WhereConcat([os[0]], os[1..], matching);
      ChooseAllUnits(os[0]);
    }
  }

  /** Extraction distributes over concatenation. */
  lemma ChooseAllConcat<T>(a: seq<Option<T>>, b: seq<Option<T>>)
    ensures ChooseAll(a + b) == ChooseAll(a) + ChooseAll(b)
  {
    WhereConcat(a, b, IsSome);
    SelectConcat(Where(a, IsSome), Where(b, IsSome), Unwrap);
  }

  /** Extraction of a single entry: its value for a `Some`, nothing for a `None`.
      With `ChooseAllConcat` this determines `ChooseAll` on every sequence. */
  lemma ChooseAllUnits<T>(o: Option<T>)
    ensures ChooseAll([o]) == if o.Some? then [o.value] else []
  {
  }

  /** A value is extracted exactly when it is the value of some entry. */
  lemma ChooseAllMembership<T>(os: seq<Option<T>>, v: T)
    ensures v in ChooseAll(os) <==> Some(v) in os
  {
    var w := Where(os, IsSome);
    WhereMembership(os, IsSome, Some(v));
    if v in ChooseAll(os) {
      var i :| 0 <= i < |w| && ChooseAll(os)[i] == v;
      assert w[i] == Some(v);
    }
    if Some(v) in os {
      var i :| 0 <= i < |w| && w[i] == Some(v);
      assert ChooseAll(os)[i] == v;
    }
  }

  /** An empty or all-`None` sequence yields nothing. */
  lemma ChooseAllOfNothing<T>(os: seq<Option<T>>)
    requires forall i :: 0 <= i < |os| ==> os[i].None?
    ensures ChooseAll(os) == []
  {
    WhereNothing(os, IsSome);
  }

  /** The tests' example: `["1", None, "2", None, "3"]` yields `["1", "2", "3"]`. */
  lemma ChooseAllExample()
    ensures ChooseAll([Some("1"), None, Some("2"), None, Some("3")]) == ["1", "2", "3"]
  {
    var os: seq<Option<string>> := [Some("1"), None, Some("2"), None, Some("3")];
    assert Where(os, IsSome) == [Some("1"), Some("2"), Some("3")];
  }

  /** Filtering distributes over concatenation and keeps a single entry exactly
      when `Holds` is true of it: filter after `Choose` is `Holds` on each entry. */
  lemma ChooseWhereStructure<T>(a: seq<Option<T>>, b: seq<Option<T>>, o: Option<T>, filter: T -> bool)
    ensures ChooseWhere(a + b, filter) == ChooseWhere(a, filter) + ChooseWhere(b, filter)
    ensures ChooseWhere([o], filter) == if Holds(o, filter) then [o.value] else []
  {
    ChooseAllConcat(a, b);
    WhereConcat(ChooseAll(a), ChooseAll(b), filter);
    ChooseAllUnits(o);
  }

  /** The tests' example: a property of every present record, in order. */
  lemma ChooseMappedExample(prop: string -> string)
    ensures ChooseMapped([Some("1"), None, Some("2"), None, Some("3")], prop) ==
      [prop("1"), prop("2"), prop("3")]
  {
    ChooseAllExample();
  }

  /** With an option selector, a value is chosen exactly when the selector yields
      it for some element. */
  lemma ChooseByMembership<S, R>(s: seq<S>, mapping: S -> Option<R>, v: R)
    ensures v in ChooseBy(s, mapping) <==> exists i :: 0 <= i < |s| && mapping(s[i]) == Some(v)
  {
    ChooseAllMembership(Select(s, mapping), v);
  }

  /** A selector that always answers `Some` makes `Choose(selector)` a plain
      `Select`. */
  lemma ChooseByTotalSelector<S, R>(s: seq<S>, f: S -> R)
    ensures ChooseBy(s, x => Wrap(f(x))) == Select(s, f)
  {
    WhereEverything(Select(s, x => Wrap(f(x))), IsSome);
  }

  /** `ChooseFirst` of a concatenation falls back from the first part to the
      second, and `ChooseFirst([a, b])` is `a.Otherwise(b)`. */
  lemma ChooseFirstConcat<T>(a: seq<Option<T>>, b: seq<Option<T>>, x: Option<T>, y: Option<T>)
    ensures ChooseFirst(a + b) == OtherwiseOption(ChooseFirst(a), ChooseFirst(b))
    ensures ChooseFirst([x, y]) == OtherwiseOption(x, y)
  {
    WhereConcat(a, b, IsSome);
    WhereConcat([x], [y], IsSome);
    assert [x, y] == [x] + [y];
  }

  /** The first present entry is the first extracted value, wrapped. */
  lemma ChooseFirstIsHeadOfChooseAll<T>(os: seq<Option<T>>)
    ensures ChooseFirst(os) == if ChooseAll(os) == [] then None else Some(ChooseAll(os)[0])
  {
  }

  /** The tests' examples of `ChooseSingle`: one present entry among `None`s is
      chosen, two present entries raise. */
  lemma ChooseSingleExamples()
    ensures ChooseSingle([None, Some("Example"), None]) == Ok(Some("Example"))
    ensures ChooseSingle([None, Some("Example"), Some("Example2")]).InvalidOperation?
    ensures ChooseSingle<string>([None, None]) == Ok(None)
  {
    var one: seq<Option<string>> := [None, Some("Example"), None];
    assert Where(one, IsSome) == [Some("Example")];
    var two: seq<Option<string>> := [None, Some("Example"), Some("Example2")];
    assert Where(two, IsSome) == [Some("Example"), Some("Example2")];
    var none: seq<Option<string>> := [None, None];
    assert Where(none, IsSome) == [];
  }

  /** `Holds` is `Choose` with the predicate, falling back to false. */
  lemma HoldsIsChooseOtherwiseFalse<T>(o: Option<T>, p: T -> bool)
    ensures Holds(o, p) == Otherwise(Choose(o, p), false)
  {
  }
}
