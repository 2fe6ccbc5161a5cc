/** `OrNull` and `OrNullValue` of Infrastructure.Option/DefaultValue.cs: the bridge
    from an option to the host's nullable form, `T?` for reference types and
    `Nullable<T>` for value types. Both are modelled by one datatype. */
module DefaultValue {
  import opened OptionCore
  import opened Fallback
  import opened ChooseValues

  /** A nullable `T`: `null` or a value. */
  datatype Nullable<T> = Null | NonNull(value: T)

  /** `OrNull` (reference types): the value, or `null` for `None`. */
  function OrNull<T>(o: Option<T>): (r: Nullable<T>)
    ensures r.Null? <==> o.None?
    ensures o.Some? ==> r == NonNull(o.value)
  {
    if o.Some? then NonNull(o.value) else Null
  }

  /** `OrNullValue` (value types): the same conversion. */
  function OrNullValue<T>(o: Option<T>): (r: Nullable<T>)
    ensures r == OrNull(o)
  {
    if o.Some? then NonNull(o.value) else Null
  }

  /** The conversion is a fallback to `null`: the value made nullable, otherwise
      `null`; and it loses nothing, since the value is read back from the result. */
  lemma OrNullIsFallbackToNull<T>(o: Option<T>)
    ensures OrNull(o) == Otherwise(Choose(o, v => NonNull(v)), Null)
    ensures OrNull(o).NonNull? ==> o == Some(OrNull(o).value)
  {
  }
}
