# Infrastructure.Option in Dafny

A model of the C# "optional value" library Infrastructure.Option, with its earlier
revision Arado.Option. An `Option<T>` is either `Some(value)` or the one `None` of
its type; every operation on it is total. The library provides:

- structural equality and hashing over arbitrary objects;
- the string projection;
- implicit conversions;
- fallback (`Otherwise`, the obsolete `Or`);
- map, bind and flatten (`Choose`);
- `Holds`;
- the bridge to nullable values;
- operators that extract values from sequences or build options from them.

The modules follow the library's source files. `Option.cs` is split in two: `OptionCore` holds its datatype and helpers, and `ObjectEquality` holds `Equals(object)` and `GetHashCode()`. `Linq` models the System.Linq operators that the pipelines call, not a file of the repository. The type-test predicates `ObjectEquality.IsOf` and `IsSomeOf` (`obj is T`, `case Some<T>`), `WellTyped` and `Instance` are helpers of the object model, as are the `Linq` operators, so none of them has a row in the table below.

| file | module | source |
|---|---|---|
| `option.dfy` | `OptionCore` | the datatype, `None` singleton, conversions, `IsSome`/`IsNone`, `Or` and `ToString` of `Option.cs` |
| `object_equality.dfy` | `ObjectEquality` | `Equals(object)` and `GetHashCode()` of `Some<T>`/`None<T>` in `Option.cs` |
| `arado_option.dfy` | `AradoOption` | the earlier revision `Arado.Option/Option.cs` |
| `fallback.dfy` | `Fallback` | the four `Otherwise` overloads |
| `obsolete_fallback.dfy` | `ObsoleteFallback` | the four obsolete `Or` overloads |
| `choose_values.dfy` | `ChooseValues` | the synchronous `Choose`, `ChooseFirst`, `ChooseSingle` |
| `choose_singular.dfy` | `ChooseSingularValueFromSequence` | `FirstOrNone`, `SingleOrNone` on raw sequences |
| `obsolete_values.dfy` | `ObsoleteValues` | `ObsoleteValues.Values` and `Options.Values` |
| `is_some_or_none.dfy` | `IsSomeOrNone` | `IsSome`, `IsNone` |
| `value_matching.dfy` | `ValueMatching` | the synchronous `Holds` |
| `default_value.dfy` | `DefaultValue` | `OrNull`, `OrNullValue` |
| `linq.dfy` | `Linq` | the LINQ operators the pipelines use: `Where`, `Select`, `DefaultIfEmpty`, `First`, `Single` |

Design decisions:

- **Laziness.** A fallback producer, a `Choose` mapping and a `Holds` predicate are
  partial arrows (`-->`). Each only has to be callable on the branch where the source
  calls it. Dafny refuses a body that calls such an arrow elsewhere. Lemmas pass
  arrows that can never be called (`() requires false => …`) and still get the
  expected answer. So "the producer is not invoked when a value exists" is proved,
  not assumed.
- **Equality over objects.** `Equals(object)` switches on the runtime type of its
  argument. It is modelled over a universe of runtime objects, `ObjectEquality.Obj`:
  null, boxed integers, strings, `Some<t>` and `None<t>`, each carrying its type
  argument. This lets the model state that a `None<int>` never equals a
  `None<string>`.
- **Consequences of the type-test order.** The model makes two consequences of the
  source's case order explicit:
  - Equality is not symmetric. `Some("x").Equals("x")` holds, while
    `"x".Equals(Some("x"))` does not.
  - For `T = object`, the raw-value case reaches the payload. So a
    `Some<object>` holding `None<object>` equals `None<object>`.
- **LINQ pipelines.** Pipelines are kept as written, built from `Linq`.
  `OfType<Some<T>>()` is `Where(_, IsSome)`, and `some => some.Value` is the
  implicit conversion `Unwrap`.
- **`InvalidOperationException`.** The exception that `Single` raises for two or
  more candidates is the `InvalidOperation` case of `Linq.Result`.
- **Duplicated API.** The source repeats some operations: the `Or` family, the
  `IsSome`/`IsNone`/`Or`/`Values` of `Option.cs`, and `OrNullValue`. Each duplicate
  is written the way it stands in the source.
  - The obsolete `Or` overloads, `Options.Values`, `ObsoleteValues.Values` and
    `OrNullValue` state in their own contract that they equal the newer operation.
  - `Option.Or` (`OptionCore.Or`) is proved equal to `Otherwise` by the lemma
    `Fallback.OptionOrIsOtherwise`.
  - The predicates `IsSomeOrNone.IsSome` and `IsSomeOrNone.IsNone` state in their
    contracts that they agree with `Option.IsSome`/`IsNone` (`OptionCore.IsSome`/`IsNone`).

## Model

| member | source | states |
|---|---|---|
| OptionCore.NoneOf | Infrastructure.Option/Option.cs:77-78 | `Option.None<T>()` returns an absent option |
| OptionCore.NoneIsSingleton | Infrastructure.Option/Option.cs:59-60 | every `None` of a type is the shared instance that `Option<T>.None` and `Option.None<T>()` return |
| OptionCore.Wrap | Infrastructure.Option/Option.cs:14-15 | the implicit `T -> Option<T>` conversion gives `Some` of exactly that value |
| OptionCore.Unwrap | Infrastructure.Option/Option.cs:23-24 | the implicit `Some<T> -> T` conversion is defined only on `Some` and returns its value |
| OptionCore.WrapUnwrapRoundTrip | Infrastructure.Option/Option.cs:23-27 | unwrapping a wrapped value returns it; wrapping an unwrapped `Some` returns the same option |
| OptionCore.IsSome | Infrastructure.Option/Option.cs:80-81 | `option is Some<T>` holds exactly when the option is not the shared `None`; the option is then the wrapped value |
| OptionCore.IsNone | Infrastructure.Option/Option.cs:83-84 | `option is None<T>` holds exactly when the option is the shared `None<T>.Instance` |
| OptionCore.SomeOrNoneExclusive | Infrastructure.Option/Option.cs:80-84 | exactly one of `Option.IsSome`/`Option.IsNone` holds, and `IsSome` means the option is `Some` |
| OptionCore.Or | Infrastructure.Option/Option.cs:86-87 | `Option.Or` returns the value of a `Some`, else the fallback |
| OptionCore.ToString | Infrastructure.Option/Option.cs:47-69 | `Some(a)` renders as its value (`Value.ToString()`), `None` as `string.Empty` |
| OptionCore.ToStringCases | Infrastructure.Option/Option.cs:47-69 | if no value renders as the empty string, the string is empty iff the option is `None` |
| ObjectEquality.Equals | Infrastructure.Option/Option.cs:29-41 | an object equals itself; nothing equals null; `None<T>` equals exactly itself (lines 62-63); `Some<T>` is unequal to anything that is neither a `Some<T>` nor a `T` |
| ObjectEquality.Hash | Infrastructure.Option/Option.cs:44-45 | a `Some` hashes as its value (lines 44-45) and `None<t>` by its runtime type (lines 65-66), so any tower of `Some`s hashes as the innermost non-`Some` object |
| ObjectEquality.Box | Infrastructure.Option/Option.cs:8-12 | a typed `None` is the object `None<t>.Instance`, and a typed `Some(v)` is the `Some<t>` object holding `v` |
| ObjectEquality.SomeEqualsSome | Infrastructure.Option/Option.cs:33-34 | `Some(a).Equals(Some(b))` iff `a.Equals(b)` |
| ObjectEquality.SomeEqualsRaw | Infrastructure.Option/Option.cs:36-37 | `Some(a).Equals(v)`, for a raw `v` of type `T` that is not a `Some<T>`, iff `a.Equals(v)` |
| ObjectEquality.SomeUnequalOther | Infrastructure.Option/Option.cs:39-40 | `Some<T>` is unequal to every object that is neither a `Some<T>` nor a `T` (null, other types, `None`s of other types) |
| ObjectEquality.SomeUnequalItsNone | Infrastructure.Option/Option.cs:29-41 | for `T` other than `object`, `Some<T>` never equals `None<T>` |
| ObjectEquality.SomeOfObjectCanEqualNone | Infrastructure.Option/Option.cs:36-37 | the `case T` branch for `T = object` makes `Some<object>(None<object>)` equal `None<object>` |
| ObjectEquality.NoneEquality | Infrastructure.Option/Option.cs:62-63 | `None<T>.Equals(x)` iff `x` is `None<T>`; the `None` of another type is never equal |
| ObjectEquality.EqualsReflexive | Infrastructure.Option/Option.cs:29-41 | every instance equals itself, at any nesting depth |
| ObjectEquality.EqualsNotSymmetric | Infrastructure.Option/Option.cs:36-37 | `Some("x").Equals("x")` holds but `"x".Equals(Some("x"))` does not |
| ObjectEquality.HashConsistent | Infrastructure.Option/Option.cs:44-45 | equal objects have equal hash codes, whatever the string and type hashes |
| ObjectEquality.BoxedEquality | Infrastructure.Option/Option.cs:29-63 | two boxed options of one type `T` (not `object`) are equal iff both are `None` or both are `Some` with equal values |
| AradoOption.Equals | Arado.Option/Option.cs:17-30 | the earlier `Equals` agrees with the later one on every pair of objects, so the equality lemmas above hold for it |
| AradoOption.Hash | Arado.Option/Option.cs:32-45 | every `None` hashes to 0; a `Some` hashes as its value, so a tower of `Some`s over a `None` hashes to 0 |
| AradoOption.HashConsistent | Arado.Option/Option.cs:32-45 | under the earlier hash too, equal objects hash equally |
| AradoOption.NoneIsInstance | Arado.Option/Option.cs:41-51 | `Option.None<T>()` is `None<T>.Instance`, which equals exactly the objects that are `None<T>` |
| AradoOption.ConversionRoundTrip | Arado.Option/Option.cs:13-15 | `T -> Some<T> -> T` is the identity; the wrapped value is a `Some<T>` object that hashes as the value |
| Fallback.Otherwise | Infrastructure.Option/Fallback.cs:14-15 | `Otherwise(Some v, x) = v` and `Otherwise(None, x) = x` |
| Fallback.OtherwiseLazy | Infrastructure.Option/Fallback.cs:24-25 | the producer need be callable only on `None`: the result is `v` on `Some v` and `f()` on `None` |
| Fallback.OtherwiseOption | Infrastructure.Option/Fallback.cs:34-35 | an original `Some` is returned unchanged, else `another`; the result is `Some` iff either option is |
| Fallback.OtherwiseOptionLazy | Infrastructure.Option/Fallback.cs:44-45 | the original `Some`, or the producer's option on `None`; the producer need be callable only on `None` |
| Fallback.LazyNotInvokedOnSome | Infrastructure.Option/Fallback.cs:24-45 | both lazy overloads accept, on `Some`, a producer that can never be called and return the original value |
| Fallback.LazyIgnoresProducerOnSome | Infrastructure.Option/Fallback.cs:24-45 | on `Some`, the result of both lazy overloads does not depend on the producer |
| Fallback.LazyAgreesWithEager | Infrastructure.Option/Fallback.cs:14-45 | with a constant producer, each lazy overload equals its eager counterpart |
| Fallback.ValueFallbackIsOptionFallback | Infrastructure.Option/Fallback.cs:14-35 | the value fallback is the value of the option fallback to `Some(x)` |
| Fallback.NoneOtherwiseNone | Infrastructure.Option/Fallback.cs:34-45 | `None.Otherwise(None) = None`, both eagerly and through a producer |
| Fallback.OtherwiseOptionLaws | Infrastructure.Option/Fallback.cs:34-35 | the option fallback is associative and idempotent, with `None` as identity on both sides |
| Fallback.OptionOrIsOtherwise | Infrastructure.Option/Option.cs:86-87 | `Option.Or` of the first release equals `Otherwise` on every input |
| ObsoleteFallback.OrValue | Infrastructure.Option/ObsoleteFallback.cs:15-16 | `Or(o, x)` equals `Otherwise(o, x)` |
| ObsoleteFallback.OrLazy | Infrastructure.Option/ObsoleteFallback.cs:22-23 | lazy `Or` equals lazy `Otherwise`; its producer need be callable only on `None` |
| ObsoleteFallback.OrOption | Infrastructure.Option/ObsoleteFallback.cs:29-30 | `Or(o, another)` equals `Otherwise(o, another)` |
| ObsoleteFallback.OrOptionLazy | Infrastructure.Option/ObsoleteFallback.cs:36-37 | `Or` with an option producer equals `Otherwise` with it; the producer need be callable only on `None` |
| ObsoleteFallback.OrNotInvokedOnSome | Infrastructure.Option/ObsoleteFallback.cs:22-37 | the lazy `Or`s accept uncallable producers on `Some`, and `None.Or(None) = None` |
| ChooseValues.Flatten | Infrastructure.Option/ChooseValues.cs:16-21 | `Choose(Some(inner)) = inner` and `Choose(None) = None` |
| ChooseValues.FlattenSome | Infrastructure.Option/ChooseValues.cs:26-27 | `Choose` on a statically known `Some<Option<T>>` agrees with `Flatten` |
| ChooseValues.Choose | Infrastructure.Option/ChooseValues.cs:32-37 | the result is `Some` iff the source is, and then it holds `mapping(v)`; the mapping need be callable only on `Some` |
| ChooseValues.ChooseOption | Infrastructure.Option/ChooseValues.cs:72-77 | on `Some v` the result is `mapping(v)` itself, with no re-wrap; on `None` it is `None` |
| ChooseValues.FlattenLaws | Infrastructure.Option/ChooseValues.cs:16-21 | flatten undoes the implicit wrap, and equals bind with the identity |
| ChooseValues.ChooseNotInvokedOnNone | Infrastructure.Option/ChooseValues.cs:32-77 | on `None`, both `Choose`s accept a mapping that can never be called and return `None` |
| ChooseValues.ChooseIsBindOfWrap | Infrastructure.Option/ChooseValues.cs:32-77 | `Choose` with a plain mapping is bind with the mapping followed by the implicit wrap |
| ChooseValues.ChooseFunctorLaws | Infrastructure.Option/ChooseValues.cs:32-37 | mapping by the identity changes nothing; two mappings in a row equal their composition |
| ChooseValues.ChooseOptionMonadLaws | Infrastructure.Option/ChooseValues.cs:72-77 | bind satisfies left identity, right identity and associativity, with the implicit wrap as unit |
| ChooseValues.ChainedChoose | Infrastructure.Option/ChooseValues.cs:32-37 | `Some("Hello").Choose(+" world").Choose(+"!") = Some("Hello world!")`; mapping `None` gives `None` |
| ChooseValues.ChooseAll | Infrastructure.Option/ChooseValues.cs:112-113 | one result per `Some` entry, never more than the input has entries; re-wrapping the result gives exactly the `Some` entries, in their original order |
| ChooseValues.ChooseAllConcat | Infrastructure.Option/ChooseValues.cs:112-113 | extraction distributes over concatenation |
| ChooseValues.ChooseAllUnits | Infrastructure.Option/ChooseValues.cs:112-113 | a single `Some v` gives `[v]` and a single `None` gives `[]`; with `ChooseAllConcat`, this fixes the result on every sequence |
| ChooseValues.ChooseAllMembership | Infrastructure.Option/ChooseValues.cs:112-113 | `v` is extracted iff `Some(v)` is an entry |
| ChooseValues.ChooseAllOfNothing | Infrastructure.Option/ChooseValues.cs:112-113 | an empty or all-`None` input yields nothing |
| ChooseValues.ChooseAllExample | Infrastructure.Option.Tests/ChooseTests.cs:24-29 | `["1", None, "2", None, "3"]` yields `["1", "2", "3"]` |
| ChooseValues.ChooseWhere | Infrastructure.Option/ChooseValues.cs:118-119 | every value in the result satisfies the filter, and there are no more of them than `Choose()` yields |
| ChooseValues.ChooseWhereStructure | Infrastructure.Option/ChooseValues.cs:118-119 | filtering after `Choose` distributes over concatenation and keeps an entry iff `Holds` is true of it |
| ChooseValues.ChooseMapped | Infrastructure.Option/ChooseValues.cs:124-125 | one mapped value per `Some` entry: `Select` with the mapping applied after `Choose()` |
| ChooseValues.ChooseMappedExample | Infrastructure.Option.Tests/ChooseTests.cs:31-36 | the property of each present record, in order |
| ChooseValues.ChooseBy | Infrastructure.Option/ChooseValues.cs:130-131 | the raw-sequence variant yields at most one value per element |
| ChooseValues.ChooseByMembership | Infrastructure.Option/ChooseValues.cs:130-131 | `v` is chosen iff the selector yields `Some(v)` for some element |
| ChooseValues.ChooseByTotalSelector | Infrastructure.Option/ChooseValues.cs:130-131 | with a selector that always answers `Some`, `Choose(selector)` is `Select` |
| ChooseValues.ChooseFirst | Infrastructure.Option/ChooseValues.cs:149-150 | `None` iff no entry is `Some`; otherwise the earliest `Some` entry |
| ChooseValues.ChooseFirstConcat | Infrastructure.Option/ChooseValues.cs:149-150 | `ChooseFirst(a + b)` is `ChooseFirst(a).Otherwise(ChooseFirst(b))`, and `ChooseFirst([x, y])` is `x.Otherwise(y)` |
| ChooseValues.ChooseFirstIsHeadOfChooseAll | Infrastructure.Option/ChooseValues.cs:149-150 | `ChooseFirst` is the first value of `Choose()`, wrapped, or `None` |
| ChooseValues.ChooseSingle | Infrastructure.Option/ChooseValues.cs:157-158 | raises iff two or more entries are `Some`; none gives `None`; exactly one gives that entry, which is `ChooseFirst` |
| ChooseValues.ChooseSingleExamples | Infrastructure.Option/ChooseValues.cs:157-158 | one `Some` among `None`s is chosen, two raise, all `None` gives `None` |
| ChooseValues.ChooseFirstWhere | Infrastructure.Option/ChooseValues.cs:164-165 | `None` iff `Holds(entry, filter)` is false for every entry; otherwise the earliest entry for which it is true |
| ChooseValues.MatchingPresentValues | Infrastructure.Option/ChooseValues.cs:164-165 | re-wrapping the filtered present values gives exactly the entries for which `Holds` is true |
| ChooseValues.ChooseSingleWhere | Infrastructure.Option/ChooseValues.cs:172-173 | raises iff two or more present values match; none gives `None`; exactly one gives `ChooseFirstWhere` |
| ChooseValues.HoldsIsChooseOtherwiseFalse | Infrastructure.Option/ValueMatching.cs:11-12 | `Holds(o, p)` is `o.Choose(p).Otherwise(false)` |
| ChooseSingularValueFromSequence.FirstOrNone | Infrastructure.Option/ChooseSingularValueFromSequence.cs:16-20 | `None` iff the sequence is empty, otherwise `Some(s[0])` |
| ChooseSingularValueFromSequence.SingleOrNone | Infrastructure.Option/ChooseSingularValueFromSequence.cs:27-31 | raises iff there are two or more elements; `None` for none, `Some(s[0])` for one |
| ChooseSingularValueFromSequence.FirstOrNoneWhere | Infrastructure.Option/ChooseSingularValueFromSequence.cs:37-42 | `None` iff no element satisfies the filter; otherwise `Some` of the earliest element that does |
| ChooseSingularValueFromSequence.SingleOrNoneWhere | Infrastructure.Option/ChooseSingularValueFromSequence.cs:49-54 | raises iff at least two elements satisfy the filter; otherwise equals `FirstOrNone(filter)` |
| ChooseSingularValueFromSequence.ChosenElementMatches | Infrastructure.Option/ChooseSingularValueFromSequence.cs:37-54 | any `Some(x)` the filtered variants return has `x` in the sequence and `filter(x)` true |
| ChooseSingularValueFromSequence.TrivialFilter | Infrastructure.Option/ChooseSingularValueFromSequence.cs:16-54 | a filter that every element satisfies reduces each filtered variant to the unfiltered one |
| ChooseSingularValueFromSequence.Examples | Infrastructure.Option.Tests/ChooseSingularValueFromSequenceTests.cs:11-78 | the tests' results on `["1", "2", "3"]` and `["1", "2", "2"]`, including the two that raise |
| ObsoleteValues.Values | Infrastructure.Option/ObsoleteValues.cs:16-17 | `Values` equals `Choose()`; its length is the number of `Some` entries, never more than the input length |
| ObsoleteValues.OptionsValues | Infrastructure.Option/Option.cs:92-93 | `Options.Values` of the first release equals `Choose()` |
| ObsoleteValues.ValuesOfNothing | Infrastructure.Option/ObsoleteValues.cs:16-17 | an empty or all-`None` input yields nothing |
| ObsoleteValues.ValuesExample | Infrastructure.Option.Tests/OptionCollectionTests.cs:10-23 | the mixed ten-entry sequence yields `"1"` to `"5"` in order |
| IsSomeOrNone.IsSome | Infrastructure.Option/IsSomeOrNone.cs:8-9 | agrees with `Option.IsSome` of `Option.cs` |
| IsSomeOrNone.IsNone | Infrastructure.Option/IsSomeOrNone.cs:14-15 | agrees with `Option.IsNone` of `Option.cs` |
| IsSomeOrNone.ExactlyOne | Infrastructure.Option/IsSomeOrNone.cs:8-15 | exactly one of the two holds of every option; `IsSome(Some v)`, `!IsNone(Some v)`, `IsNone(None)`, `!IsSome(None)` |
| ValueMatching.Holds | Infrastructure.Option/ValueMatching.cs:11-12 | false on `None`, `p(v)` on `Some v`, and true only of a `Some`; the predicate need be defined only on `Some` |
| ValueMatching.HoldsNotEvaluatedOnNone | Infrastructure.Option/ValueMatching.cs:11-12 | on `None`, a predicate that can never be evaluated is accepted, and `Holds` is false |
| ValueMatching.HoldsExamples | Infrastructure.Option.Tests/HoldsTests.cs:9-18 | a true predicate holds of `Some("Example value")` and a false one does not |
| DefaultValue.OrNull | Infrastructure.Option/DefaultValue.cs:11-12 | null iff the option is `None`; the value of a `Some` otherwise |
| DefaultValue.OrNullValue | Infrastructure.Option/DefaultValue.cs:17-18 | the value-type variant converts exactly as `OrNull` |
| DefaultValue.OrNullIsFallbackToNull | Infrastructure.Option/DefaultValue.cs:11-12 | `OrNull(o)` is `o.Choose(NonNull).Otherwise(null)`, and the option can be read back from a non-null result |

## Left out

- Every `Task`-based overload is left out: the asynchronous `Choose`s of `ChooseValues.cs` and the asynchronous `Holds`es of `ValueMatching.cs`. They only defer the same computations. The asynchronous `Otherwise` that the tests use has no source in this model.
- `OptionJsonConverter.cs` is not part of this model. It relies on reflection, a concurrent codec cache and System.Text.Json. It also uses a `ValueOrNull` member that `Option.cs` does not define, so the code does not fix the wire format.
- `Nullable.cs` is not part of this model. It depends on the same undefined `ValueOrNull`, and `DefaultValue.OrNull` covers it.
- Null `Option<T>` references are not modelled: every model option is `Some` or `None`. In C#, both `IsSome` and `IsNone` are false on a null reference (Infrastructure.Option/Option.cs:80-84, Infrastructure.Option/IsSomeOrNone.cs:8-15). So `OptionCore.SomeOrNoneExclusive` and `IsSomeOrNone.ExactlyOne` hold only for non-null options.
- Null payloads are left out. `Some(null)` is excluded by `ObjectEquality.WellTyped`: its `Equals` and `GetHashCode` would throw. So is the C# peculiarity that converting `null` implicitly gives `Some(null)`.
- ObjectEquality.Hash: string hash codes and the runtime-type hash of `None<T>` are parameters, not .NET's algorithms. Integers are unbounded and hash to themselves; the 32-bit width of `int` is not modelled.
- OptionCore.ToString: a value's own `ToString` is a parameter `show`.
- DefaultValue.OrNullValue: the `class`/`struct` constraints that separate `OrNull` from `OrNullValue` are not modelled; both return the same `Nullable` datatype.
- Linq.First and Linq.Single require a non-empty sequence. Every pipeline feeds them through `DefaultIfEmpty`, so the exception for an empty sequence cannot arise.
- Laziness on sequences is not modelled: the short-circuiting of `First` and the deferred evaluation of `IEnumerable` pipelines. Sequences are finite values.
- The test projects, the console demo and the web example are not modelled.
