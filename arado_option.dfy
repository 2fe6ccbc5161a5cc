/** The earlier revision of the library, Arado.Option/Option.cs: the same `Some<T>`
    and `None<T>` classes with equality and hashing, where every `None` hashes to
    the constant 0, and the factories `Option.Some` and `Option.None`. Runtime
    objects are those of the later revision's model. */
module AradoOption {
  import opened OptionCore
  import OE = ObjectEquality

  /** `Equals(object)` of this revision, written as it stands here. */
  function Equals(a: OE.Obj, b: OE.Obj): (r: bool)
    requires OE.Instance(a)
    ensures r == OE.Equals(a, b)
  {
    match a
    case IntObj(_) => b == a
    case StrObj(_) => b == a
    case SomeObj(t, v) =>
      if OE.IsSomeOf(b, t) then Equals(v, b.payload)
      else if OE.IsOf(b, t) then Equals(v, b)
      else false
    case NoneObj(t) => b.NoneObj? && b.t == t
  }

  /** `GetHashCode()` of this revision: a `Some` hashes as its value, every `None`
      as 0. */
  function Hash(o: OE.Obj, strHash: string -> int): (r: int)
    requires OE.Instance(o)
    ensures o.NoneObj? ==> r == 0
    ensures o.SomeObj? ==> r == Hash(o.payload, strHash)
    ensures OE.Innermost(o).NoneObj? ==> r == 0
  {
    OE.Hash(o, strHash, _ => 0)
  }

  /** Equal objects hash equally under this revision's hash too. */
  lemma HashConsistent(a: OE.Obj, b: OE.Obj, strHash: string -> int)
    requires OE.Instance(a) && OE.Instance(b)
    requires Equals(a, b)
    ensures Hash(a, strHash) == Hash(b, strHash)
  {
    OE.HashConsistent(a, b, strHash, _ => 0);
  }

  /** `Option.None<T>()` returns `None<T>.Instance`, the one `None` of its type, and
      that instance equals exactly itself. */
  lemma NoneIsInstance(t: OE.RType, b: OE.Obj)
    ensures Equals(OE.NoneObj(t), b) <==> b == OE.NoneObj(t)
    ensures OE.Box(NoneOf(), t) == OE.NoneObj(t)
  {
  }

  /** The implicit conversions `Some<T> -> T` and `T -> Some<T>` are inverse, and
      equal `Some`s hash alike. */
  lemma ConversionRoundTrip(t: OE.RType, v: OE.Obj, strHash: string -> int)
    requires OE.Instance(OE.SomeObj(t, v))
    ensures Unwrap(Wrap(v)) == v
    ensures OE.Box(Wrap(v), t) == OE.SomeObj(t, v)
    ensures Hash(OE.Box(Wrap(v), t), strHash) == Hash(v, strHash)
  {
  }
}
