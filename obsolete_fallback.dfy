/** The obsolete `Or` overloads of Infrastructure.Option/ObsoleteFallback.cs, kept
    for backwards compatibility. Each is written as it stands and proved to be the
    `Otherwise` overload it was replaced by. */
module ObsoleteFallback {
  import opened OptionCore
  import opened Fallback

  /** `Or(option, fallback)`. */
  function OrValue<T>(o: Option<T>, fallback: T): (r: T)
    ensures r == Otherwise(o, fallback)
  {
    if o.Some? then o.value else fallback
  }

  /** `Or(option, Func<T> fallback)`; the producer is called only for `None`. */
  function OrLazy<T>(o: Option<T>, fallback: () --> T): (r: T)
    requires o.None? ==> fallback.requires()
    ensures r == OtherwiseLazy(o, fallback)
  {
    if o.Some? then o.value else fallback()
  }

  /** `Or(option, Option<T> another)`. */
  function OrOption<T>(o: Option<T>, another: Option<T>): (r: Option<T>)
    ensures r == OtherwiseOption(o, another)
  {
    if o.Some? then o else another
  }

  /** `Or(option, Func<Option<T>> another)`; the producer is called only for `None`. */
  function OrOptionLazy<T>(o: Option<T>, another: () --> Option<T>): (r: Option<T>)
    requires o.None? ==> another.requires()
    ensures r == OtherwiseOptionLazy(o, another)
  {
    if o.Some? then o else another()
  }

  /** The lazy `Or` overloads accept producers that can never be called when the
      option is `Some`, and `None.Or(None)` is `None`. */
  lemma OrNotInvokedOnSome<T>(v: T, fallback: T, another: Option<T>)
    ensures OrLazy(Some(v), () requires false => fallback) == v
    ensures OrOptionLazy(Some(v), () requires false => another) == Some(v)
    ensures OrOption(NoneOf<T>(), NoneOf<T>()) == NoneOf<T>()
    ensures OrOptionLazy(NoneOf<T>(), NoneOf<T>) == NoneOf<T>()
  {
  }
}
