/** `IsSome` and `IsNone` of Infrastructure.Option/IsSomeOrNone.cs: the same type
    tests as `Option.IsSome` and `Option.IsNone` of the first release. */
module IsSomeOrNone {
  import OptionCore

  /** `IsSome`: `option is Some<T>`. */
  predicate IsSome<T>(o: OptionCore.Option<T>)
    ensures IsSome(o) <==> OptionCore.IsSome(o)
  {
    o.Some?
  }

  /** `IsNone`: `option is None<T>`. */
  predicate IsNone<T>(o: OptionCore.Option<T>)
    ensures IsNone(o) <==> OptionCore.IsNone(o)
  {
    o.None?
  }

  /** For every option exactly one of the two holds: `IsSome` of a `Some`, `IsNone`
      of a `None`. */
  lemma ExactlyOne<T>(o: OptionCore.Option<T>, v: T)
    ensures IsSome(o) != IsNone(o)
    ensures IsSome(OptionCore.Some(v)) && !IsNone(OptionCore.Some(v))
    ensures IsNone(OptionCore.NoneOf<T>()) && !IsSome(OptionCore.NoneOf<T>())
  {
  }
}
