/** Two older spellings of value extraction: `Values` of
    Infrastructure.Option/ObsoleteValues.cs, which delegates to `Choose()`, and
    `Options.Values` of Infrastructure.Option/Option.cs, which has `Choose()`'s own
    pipeline. */
module ObsoleteValues {
  import opened OptionCore
  import opened Linq
  import opened ChooseValues

  /** `ObsoleteValues.Values`: `options.Choose()`. The result holds the `Some`
      values in order, as many as there are `Some` entries and never more than
      the input has entries. */
  function Values<T>(os: seq<Option<T>>): (r: seq<T>)
    ensures r == ChooseAll(os)
    ensures |r| == Count(os, IsSome) <= |os|
  {
    ChooseAll(os)
  }

  /** `Options.Values` of the first release: `OfType<Some<T>>().Select(some => some.Value)`. */
  function OptionsValues<T>(os: seq<Option<T>>): (r: seq<T>)
    ensures r == ChooseAll(os)
  {
    Select(Where(os, IsSome), Unwrap)
  }

  /** An empty or all-`None` input yields nothing. */
  lemma ValuesOfNothing<T>(nones: seq<Option<T>>)
    requires forall i :: 0 <= i < |nones| ==> nones[i].None?
    ensures Values(nones) == []
  {
    ChooseAllOfNothing(nones);
  }

  /** The tests' mixed sequence yields `"1"` to `"5"` in order. */
  lemma ValuesExample(os: seq<Option<string>>)
    requires os == [None, Some("1"), None, None, Some("2"), Some("3"), Some("4"), None, Some("5"), None]
    ensures Values(os) == ["1", "2", "3", "4", "5"]
  {
    var front: seq<Option<string>> := [None, Some("1"), None, None, Some("2")];
    var back: seq<Option<string>> := [Some("3"), Some("4"), None, Some("5"), None];
    assert ChooseAll(front) == ["1", "2"] by {
      assert Where(front, IsSome) == [Some("1"), Some("2")];
    }
    assert ChooseAll(back) == ["3", "4", "5"] by {
      assert Where(back, IsSome) == [Some("3"), Some("4"), Some("5")];
    }
    ChooseAllConcat(front, back);
    assert os == front + back;
  }
}
