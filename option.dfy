/** The `Option<T>` sum type of Infrastructure.Option/Option.cs: the abstract class
    `Option<T>` with its two sealed subclasses `Some<T>` (an immutable `Value`) and
    `None<T>` (one shared `Instance` per `T`). A Dafny datatype value stands for the
    object; since `None` carries nothing, every `None` of one `T` is the same value,
    which is the singleton the source keeps in `None<T>.Instance`. */
module OptionCore {

  datatype Option<T> = None | Some(value: T)

  /** `Option.None<T>()` and the `Option<T>.None` property: the shared instance. */
  function NoneOf<T>(): (r: Option<T>)
    ensures r.None?
  {
    None
  }

  /** Every absent option of one type is the shared instance. */
  lemma NoneIsSingleton<T>(o: Option<T>)
    ensures o.None? <==> o == NoneOf<T>()
  {
  }

  /** The implicit conversion `T -> Option<T>` (and `T -> Some<T>`): a raw value
      becomes a present option through `Option.Some`. */
  function Wrap<T>(v: T): (r: Option<T>)
    ensures r.Some? && r.value == v
  {
    Some(v)
  }

  /** The implicit conversion `Some<T> -> T`: only a `Some` can be converted, since
      the operator is declared on `Some<T>`, not on `Option<T>`. */
  function Unwrap<T>(o: Option<T>): (v: T)
    requires o.Some?
    ensures o == Some(v)
  {
    o.value
  }

  /** Wrapping then unwrapping is the identity, and so is unwrapping a `Some` and
      wrapping the result again. */
  lemma WrapUnwrapRoundTrip<T>(v: T, o: Option<T>)
    ensures Unwrap(Wrap(v)) == v
    ensures o.Some? ==> Wrap(Unwrap(o)) == o
  {
  }

  /** `Option.IsSome`: the runtime type test `option is Some<T>`. */
  predicate IsSome<T>(o: Option<T>)
    ensures IsSome(o) <==> o != NoneOf<T>()
    ensures IsSome(o) ==> o == Wrap(o.value)
  {
    o.Some?
  }

  /** `Option.IsNone`: the runtime type test `option is None<T>`. */
  predicate IsNone<T>(o: Option<T>)
    ensures IsNone(o) <==> o == NoneOf<T>()
  {
    o.None?
  }

  /** Exactly one of the two predicates holds of every option. */
  lemma SomeOrNoneExclusive<T>(o: Option<T>)
    ensures IsSome(o) != IsNone(o)
    ensures IsSome(o) <==> o.Some?
  {
  }

  /** `Option.Or`, the raw-value fallback of the earliest release. */
  function Or<T>(o: Option<T>, fallback: T): (r: T)
    ensures o.Some? ==> r == o.value
    ensures o.None? ==> r == fallback
  {
    if o.Some? then o.value else fallback
  }

  /** `ToString`: a `Some` renders as its value's own string form (`show`), a
      `None` as the empty string. */
  function ToString<T>(o: Option<T>, show: T -> string): (r: string)
    ensures o.Some? ==> r == show(o.value)
    ensures o.None? ==> r == ""
  {
    match o
    case Some(v) => show(v)
    case None => ""
  }

  /** When no value renders as the empty string, the projection is empty exactly
      for `None`. */
  lemma ToStringCases<T>(o: Option<T>, show: T -> string)
    ensures (forall v :: show(v) != "") ==> (ToString(o, show) == "" <==> o.None?)
  {
  }
}
