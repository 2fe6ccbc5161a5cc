/** The `Otherwise` overloads of Infrastructure.Option/Fallback.cs. A fallback
    producer is a partial arrow that only has to be callable when the option is
    `None`: the body of a function may not call it otherwise, so "the producer is
    not invoked when a value exists" is checked, not assumed. */
module Fallback {
  import opened OptionCore

  /** `Otherwise(option, fallback)`: the value, or the eager fallback value. */
  function Otherwise<T>(o: Option<T>, fallback: T): (r: T)
    ensures o.Some? ==> r == o.value
    ensures o.None? ==> r == fallback
  {
    if o.Some? then o.value else fallback
  }

  /** `Otherwise(option, Func<T> fallback)`: the value, or what the producer
      returns; the producer is called only for `None`. */
  function OtherwiseLazy<T>(o: Option<T>, fallback: () --> T): (r: T)
    requires o.None? ==> fallback.requires()
    ensures o.Some? ==> r == o.value
    ensures o.None? ==> r == fallback()
  {
    if o.Some? then o.value else fallback()
  }

  /** `Otherwise(option, Option<T> another)`: the option itself when it is `Some`,
      otherwise `another`. */
  function OtherwiseOption<T>(o: Option<T>, another: Option<T>): (r: Option<T>)
    ensures o.Some? ==> r == o
    ensures o.None? ==> r == another
    ensures r.Some? <==> o.Some? || another.Some?
  {
    if o.Some? then o else another
  }

  /** `Otherwise(option, Func<Option<T>> another)`: the option itself when it is
      `Some`, otherwise what the producer returns. */
  function OtherwiseOptionLazy<T>(o: Option<T>, another: () --> Option<T>): (r: Option<T>)
    requires o.None? ==> another.requires()
    ensures o.Some? ==> r == o
    ensures o.None? ==> r == another()
  {
    if o.Some? then o else another()
  }

  /** A producer that can never be called is still an admissible fallback for a
      `Some`, and the value is returned unchanged: the producer is not invoked. */
  lemma LazyNotInvokedOnSome<T>(v: T, fallback: T, another: Option<T>)
    ensures OtherwiseLazy(Some(v), () requires false => fallback) == v
    ensures OtherwiseOptionLazy(Some(v), () requires false => another) == Some(v)
  {
  }

  /** On a `Some` the result does not depend on the producer at all. */
  lemma LazyIgnoresProducerOnSome<T>(v: T, f: () --> T, g: () --> T, p: () --> Option<T>, q: () --> Option<T>)
    ensures OtherwiseLazy(Some(v), f) == OtherwiseLazy(Some(v), g)
    ensures OtherwiseOptionLazy(Some(v), p) == OtherwiseOptionLazy(Some(v), q)
  {
  }

  /** The lazy overloads agree with the eager ones on producers of a fixed value. */
  lemma LazyAgreesWithEager<T>(o: Option<T>, fallback: T, another: Option<T>)
    ensures OtherwiseLazy(o, () => fallback) == Otherwise(o, fallback)
    ensures OtherwiseOptionLazy(o, () => another) == OtherwiseOption(o, another)
  {
  }

  /** A raw-value fallback is the option fallback to `Some(fallback)`, unwrapped. */
  lemma ValueFallbackIsOptionFallback<T>(o: Option<T>, fallback: T)
    ensures OtherwiseOption(o, Some(fallback)).Some?
    ensures Otherwise(o, fallback) == OtherwiseOption(o, Some(fallback)).value
  {
  }

  /** Falling back from `None` to `None` stays `None`, eagerly and lazily. */
  lemma NoneOtherwiseNone<T>()
    ensures OtherwiseOption(NoneOf<T>(), NoneOf<T>()) == NoneOf<T>()
    ensures OtherwiseOptionLazy(NoneOf<T>(), NoneOf<T>) == NoneOf<T>()
  {
  }

  /** The option fallback is associative, has `None` as identity on both sides and
      is idempotent: options under `Otherwise` keep the first present value. */
  lemma OtherwiseOptionLaws<T>(a: Option<T>, b: Option<T>, c: Option<T>)
    ensures OtherwiseOption(OtherwiseOption(a, b), c) == OtherwiseOption(a, OtherwiseOption(b, c))
    ensures OtherwiseOption(None, a) == a && OtherwiseOption(a, None) == a
    ensures OtherwiseOption(a, a) == a
  {
  }

  /** `Option.Or` of Infrastructure.Option/Option.cs is the raw-value `Otherwise`. */
  lemma OptionOrIsOtherwise<T>(o: Option<T>, fallback: T)
    ensures Or(o, fallback) == Otherwise(o, fallback)
  {
  }
}
