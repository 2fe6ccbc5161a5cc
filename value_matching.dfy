/** The synchronous `Holds` of Infrastructure.Option/ValueMatching.cs: whether an
    option holds a value satisfying a predicate. The source's short-circuit `&&`
    means the predicate is only evaluated on a present value, so it is a partial
    arrow that need only be defined there. */
module ValueMatching {
  import opened OptionCore

  /** `Holds(option, predicate)`: `option is Some<T> some && predicate(some)`. */
  function Holds<T>(o: Option<T>, p: T --> bool): (r: bool)
    requires o.Some? ==> p.requires(o.value)
    ensures r ==> IsSome(o)
    ensures o.None? ==> !r
    ensures o.Some? ==> (r <==> p(o.value))
  {
    o.Some? && p(o.value)
  }

  /** A predicate that can never be evaluated is admissible on `None`, and `Holds`
      is false there: the predicate is not evaluated. */
  lemma HoldsNotEvaluatedOnNone<T>(p: T -> bool)
    ensures !Holds(NoneOf<T>(), (v: T) requires false => p(v))
  {
  }

  /** The tests' examples: a truthful predicate holds of `Some("Example value")`,
      a false one does not. */
  lemma HoldsExamples()
    ensures Holds(Some("Example value"), v => v == "Example value")
    ensures !Holds(Some("Example value"), v => v == "Something else")
  {
  }
}
