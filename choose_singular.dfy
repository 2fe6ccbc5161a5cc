/** `FirstOrNone` and `SingleOrNone` of
    Infrastructure.Option/ChooseSingularValueFromSequence.cs: an option built from a
    raw sequence, optionally restricted to the elements satisfying a filter. Each
    is the source's pipeline `Where`, `Select(Option.Some)`, `DefaultIfEmpty(None)`
    and then `First` or `Single`. */
module ChooseSingularValueFromSequence {
  import opened OptionCore
  import opened Linq

  /** `FirstOrNone()`: `Some` of the first element, or `None` for an empty
      sequence. */
  function FirstOrNone<T>(s: seq<T>): (r: Option<T>)
    ensures r.None? <==> |s| == 0
    ensures |s| > 0 ==> r == Some(s[0])
  {
    First(DefaultIfEmpty(Select(s, Wrap), None))
  }

  /** `SingleOrNone()`: `None` for an empty sequence, `Some` of the element for a
      one-element sequence, and an `InvalidOperationException` otherwise. */
  function SingleOrNone<T>(s: seq<T>): (r: Result<Option<T>>)
    ensures r.InvalidOperation? <==> |s| >= 2
    ensures |s| == 0 ==> r == Ok(None)
    ensures |s| == 1 ==> r == Ok(Some(s[0]))
  {
    Single(DefaultIfEmpty(Select(s, Wrap), None))
  }

  /** `FirstOrNone(filter)`: `Some` of the earliest element satisfying `filter`,
      or `None` when no element does. */
  function FirstOrNoneWhere<T>(s: seq<T>, filter: T -> bool): (r: Option<T>)
    ensures r.None? <==> forall i :: 0 <= i < |s| ==> !filter(s[i])
    ensures r.Some? ==>
      exists i :: 0 <= i < |s| && s[i] == r.value && filter(s[i]) &&
        forall j :: 0 <= j < i ==> !filter(s[j])
  {
    WhereHead(s, filter);
    First(DefaultIfEmpty(Select(Where(s, filter), Wrap), None))
  }

  /** `SingleOrNone(filter)`: an `InvalidOperationException` when two or more
      elements satisfy `filter`, and otherwise the same as `FirstOrNone(filter)`. */
  function SingleOrNoneWhere<T>(s: seq<T>, filter: T -> bool): (r: Result<Option<T>>)
    ensures r.InvalidOperation? <==> Count(s, filter) >= 2
    ensures Count(s, filter) < 2 ==> r == Ok(FirstOrNoneWhere(s, filter))
  {
    Single(DefaultIfEmpty(Select(Where(s, filter), Wrap), None))
  }

  /** Whatever the filtered variants choose is an element of the sequence that
      satisfies the filter. */
  lemma ChosenElementMatches<T>(s: seq<T>, filter: T -> bool)
    ensures FirstOrNoneWhere(s, filter).Some? ==>
      FirstOrNoneWhere(s, filter).value in s && filter(FirstOrNoneWhere(s, filter).value)
    ensures SingleOrNoneWhere(s, filter).Ok? && SingleOrNoneWhere(s, filter).value.Some? ==>
      SingleOrNoneWhere(s, filter).value.value in s &&
      filter(SingleOrNoneWhere(s, filter).value.value)
  {
  }

  /** Filtering by a predicate that every element satisfies gives the unfiltered
      variants. */
  lemma TrivialFilter<T>(s: seq<T>, filter: T -> bool)
    requires forall i :: 0 <= i < |s| ==> filter(s[i])
    ensures FirstOrNoneWhere(s, filter) == FirstOrNone(s)
    ensures SingleOrNoneWhere(s, filter) == SingleOrNone(s)
  {
    WhereEverything(s, filter);
  }

  /** The tests' examples over `["1", "2", "3"]` and `["1", "2", "2"]`. */
  lemma Examples()
    ensures FirstOrNone(["1", "2", "3"]) == Some("1")
    ensures SingleOrNone(["1", "2", "3"]).InvalidOperation?
    ensures FirstOrNoneWhere(["1", "2", "2"], v => v == "2") == Some("2")
    ensures SingleOrNoneWhere(["1", "2", "3"], v => v == "2") == Ok(Some("2"))
    ensures SingleOrNoneWhere(["1", "2", "3"], v => v == "4") == Ok(None)
    ensures SingleOrNoneWhere(["1", "2", "2"], v => v == "2").InvalidOperation?
  {
    var s: seq<string> := ["1", "2", "2"];
    assert Where(s, v => v == "2") == ["2", "2"];
    var t: seq<string> := ["1", "2", "3"];
    assert Where(t, v => v == "2") == ["2"];
    assert Where(t, v => v == "4") == [];
  }
}
