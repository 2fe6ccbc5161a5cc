/** `Equals(object)` and `GetHashCode()` of `Some<T>` and `None<T>` in
    Infrastructure.Option/Option.cs. Both take an arbitrary object, so they are
    modelled over a small universe of runtime objects that carry their runtime
    type: boxed integers and strings, `Some<T>` and `None<T>` instances with their
    type argument, and the null reference. */
module ObjectEquality {
  import opened OptionCore

  /** The types a type argument `T` can be. `OptionType(t)` is the abstract class
      `Option<t>`; `ObjectType` is `object`, which every instance belongs to. */
  datatype RType = ObjectType | IntType | StringType | OptionType(arg: RType)

  /** A runtime object. `SomeObj(t, payload)` is an instance of `Some<t>`,
      `NoneObj(t)` the instance of `None<t>`. */
  datatype Obj =
    | Null
    | IntObj(i: int)
    | StrObj(s: string)
    | SomeObj(t: RType, payload: Obj)
    | NoneObj(t: RType)

  /** The type test `obj is T` (and the pattern `case T another`). Classes are
      invariant in their type argument, and `null` matches no type. */
  predicate IsOf(o: Obj, t: RType)
  {
    match t
    case ObjectType => !o.Null?
    case IntType => o.IntObj?
    case StringType => o.StrObj?
    case OptionType(e) =>
      (o.SomeObj? && o.t == e) || (o.NoneObj? && o.t == e)
  }

  /** The pattern `case Some<T> another`. */
  predicate IsSomeOf(o: Obj, t: RType)
  {
    o.SomeObj? && o.t == t
  }

  /** An object the type system can produce: every `Some<t>` holds a non-null
      value of type `t`. */
  predicate WellTyped(o: Obj)
  {
    match o
    case SomeObj(t, v) => !v.Null? && IsOf(v, t) && WellTyped(v)
    case _ => true
  }

  /** A non-null, well-typed object: one whose methods can be called. */
  predicate Instance(o: Obj)
  {
    !o.Null? && WellTyped(o)
  }

  /** `a.Equals(b)`. Boxed integers and strings compare by value with objects of
      their own type. `Some<T>` first looks for another `Some<T>` and compares the
      values, then for a raw `T` and compares its value with it, and otherwise
      answers false. `None<T>` equals exactly the objects that are `None<T>`. */
  function Equals(a: Obj, b: Obj): (r: bool)
    requires Instance(a)
    ensures b == a ==> r
    ensures r ==> !b.Null?
    ensures a.NoneObj? ==> (r <==> b == a)
    ensures a.SomeObj? && !IsSomeOf(b, a.t) && !IsOf(b, a.t) ==> !r
  {
    match a
    case IntObj(_) => b == a
    case StrObj(_) => b == a
    case SomeObj(t, v) =>
      if IsSomeOf(b, t) then Equals(v, b.payload)
      else if IsOf(b, t) then Equals(v, b)
      else false
    case NoneObj(t) => b.NoneObj? && b.t == t
  }

  /** The object at the bottom of a tower of `Some`s: the first one that is not a
      `Some`. */
  function Innermost(o: Obj): (r: Obj)
    requires Instance(o)
    ensures Instance(r) && !r.SomeObj?
    ensures !o.SomeObj? ==> r == o
  {
    if o.SomeObj? then Innermost(o.payload) else o
  }

  /** The hash of an object that is not a `Some`: integers hash to themselves,
      strings by `strHash` and `None<t>` by the hash of its runtime type,
      `noneHash(t)`. */
  function BaseHash(o: Obj, strHash: string -> int, noneHash: RType -> int): int
    requires !o.Null? && !o.SomeObj?
  {
    match o
    case IntObj(i) => i
    case StrObj(s) => strHash(s)
    case NoneObj(t) => noneHash(t)
  }

  /** `GetHashCode()`: a `Some` hashes as its value, everything else by its base
      hash. However deeply `Some`s are nested, they hash as the innermost object. */
  function Hash(o: Obj, strHash: string -> int, noneHash: RType -> int): (r: int)
    requires Instance(o)
    ensures r == BaseHash(Innermost(o), strHash, noneHash)
  {
    match o
    case IntObj(i) => i
    case StrObj(s) => strHash(s)
    case SomeObj(_, v) => Hash(v, strHash, noneHash)
    case NoneObj(t) => noneHash(t)
  }

  /** The object a typed option is at runtime: `None<t>.Instance` or a `Some<t>`. */
  function Box(o: Option<Obj>, t: RType): (r: Obj)
    ensures o.None? <==> r == NoneObj(t)
    ensures o.Some? <==> IsSomeOf(r, t)
    ensures o.Some? ==> r == SomeObj(t, o.value)
  {
    match o
    case Some(v) => SomeObj(t, v)
    case None => NoneObj(t)
  }

  /** No type is its own type argument: `Option<t>` is never `t`. */
  lemma {:induction false} OptionTypeIsNew(t: RType)
    ensures OptionType(t) != t
  {
    if t.OptionType? {
      OptionTypeIsNew(t.arg);
    }
  }

  /** `Some(a).Equals(Some(b))` holds exactly when `a.Equals(b)`. */
  lemma SomeEqualsSome(t: RType, a: Obj, b: Obj)
    requires Instance(SomeObj(t, a))
    ensures Equals(SomeObj(t, a), SomeObj(t, b)) == Equals(a, b)
  {
  }

  /** `Some(a).Equals(v)` for a raw `v` of type `T` holds exactly when
      `a.Equals(v)`; a `Some<T>` argument is handled by the case above, which for
      `T = object` comes first. */
  lemma SomeEqualsRaw(t: RType, a: Obj, v: Obj)
    requires Instance(SomeObj(t, a))
    requires IsOf(v, t) && !IsSomeOf(v, t)
    ensures Equals(SomeObj(t, a), v) == Equals(a, v)
  {
  }

  /** A `Some<T>` is unequal to every object that is neither a `Some<T>` nor a `T`:
      in particular to `null`, to any `None<U>` with `Option<U>` not a `T`, and to
      raw values of other types. */
  lemma SomeUnequalOther(t: RType, a: Obj, b: Obj)
    requires Instance(SomeObj(t, a))
    requires !IsSomeOf(b, t) && !IsOf(b, t)
    ensures !Equals(SomeObj(t, a), b)
  {
  }

  /** A `Some<T>` never equals the `None<T>` of its own type, unless `T` is
      `object`. */
  lemma SomeUnequalItsNone(t: RType, a: Obj)
    requires Instance(SomeObj(t, a))
    requires t != ObjectType
    ensures !Equals(SomeObj(t, a), NoneObj(t))
  {
    OptionTypeIsNew(t);
  }

  /** With `T = object` the raw case reaches the value: a `Some<object>` holding
      `None<object>` equals `None<object>`. */
  lemma SomeOfObjectCanEqualNone()
    ensures Instance(SomeObj(ObjectType, NoneObj(ObjectType)))
    ensures Equals(SomeObj(ObjectType, NoneObj(ObjectType)), NoneObj(ObjectType))
  {
  }

  /** `None<T>.Equals(x)` holds exactly when `x` is `None<T>`: never for a `None`
      of another type, a `Some`, a raw value or `null`. */
  lemma NoneEquality(t: RType, b: Obj)
    ensures Equals(NoneObj(t), b) <==> b == NoneObj(t)
    ensures forall u :: u != t ==> !Equals(NoneObj(t), NoneObj(u))
  {
  }

  /** Every instance equals itself. */
  lemma {:induction false} EqualsReflexive(a: Obj)
    requires Instance(a)
    ensures Equals(a, a)
  {
    if a.SomeObj? {
      EqualsReflexive(a.payload);
    }
  }

  /** Equality is not symmetric: `Some("x").Equals("x")` holds, `"x".Equals(Some("x"))`
      does not. */
  lemma EqualsNotSymmetric()
    ensures Instance(SomeObj(StringType, StrObj("x")))
    ensures Equals(SomeObj(StringType, StrObj("x")), StrObj("x"))
    ensures !Equals(StrObj("x"), SomeObj(StringType, StrObj("x")))
  {
  }

  /** Equal objects have equal hash codes, whatever the string and type hashes:
      a `Some` hashes as its value, and its value is what it is compared by. */
  lemma {:induction false} HashConsistent(a: Obj, b: Obj, strHash: string -> int, noneHash: RType -> int)
    requires Instance(a) && Instance(b)
    requires Equals(a, b)
    ensures Hash(a, strHash, noneHash) == Hash(b, strHash, noneHash)
  {
    match a
    case SomeObj(t, v) =>
      if IsSomeOf(b, t) {
        HashConsistent(v, b.payload, strHash, noneHash);
      } else {
        HashConsistent(v, b, strHash, noneHash);
      }
    case _ =>
  }

  /** Two options of the same type `T`, boxed, are equal exactly when both are
      `None` or both are `Some` with equal values. This holds for every `T` but
      `object`, where a `Some` can also equal a `None` through its value. */
  lemma BoxedEquality(o1: Option<Obj>, o2: Option<Obj>, t: RType)
    requires Instance(Box(o1, t))
    requires t != ObjectType
    ensures Equals(Box(o1, t), Box(o2, t)) <==>
      (o1.None? && o2.None?) ||
      (o1.Some? && o2.Some? && Equals(o1.value, o2.value))
  {
    OptionTypeIsNew(t);
  }
}
