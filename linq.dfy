/** The handful of LINQ operators the library's pipelines are built from, as
    functions on finite sequences: `Where`, `Select`, `DefaultIfEmpty`, `First`
    and `Single`. `OfType<Some<T>>()` over a sequence of options is `Where` with
    the `is Some<T>` test. */
module Linq {

  /** The outcome of `Single`: the one element, or the `InvalidOperationException`
      it raises when the sequence holds more than one. */
  datatype Result<A> = Ok(value: A) | InvalidOperation

  /** `Where`: the elements satisfying `p`, in their original order. */
  function Where<A>(s: seq<A>, p: A -> bool): (r: seq<A>)
    ensures |r| <= |s|
    ensures forall i :: 0 <= i < |r| ==> p(r[i])
  {
    if s == [] then []
    else if p(s[0]) then [s[0]] + Where(s[1..], p)
    else Where(s[1..], p)
  }

  /** `Select`: `f` applied to every element, in order. `f` need only be defined
      on the elements of `s`. */
  function Select<A, B>(s: seq<A>, f: A --> B): (r: seq<B>)
    requires forall i :: 0 <= i < |s| ==> f.requires(s[i])
    ensures |r| == |s|
    ensures forall i :: 0 <= i < |s| ==> r[i] == f(s[i])
  {
    if s == [] then [] else [f(s[0])] + Select(s[1..], f)
  }

  /** `DefaultIfEmpty(d)`: the sequence itself, or `[d]` when it is empty. */
  function DefaultIfEmpty<A>(s: seq<A>, d: A): (r: seq<A>)
    ensures |r| >= 1
    ensures |s| > 0 ==> r == s
    ensures |s| == 0 ==> r == [d]
  {
    if |s| == 0 then [d] else s
  }

  /** `First`: the leading element. Every caller applies it after `DefaultIfEmpty`,
      so the empty-sequence exception cannot arise. */
  function First<A>(s: seq<A>): (r: A)
    requires |s| > 0
    ensures r in s
  {
    s[0]
  }

  /** `Single`: the only element, or an `InvalidOperationException` when there are
      two or more. */
  function Single<A>(s: seq<A>): (r: Result<A>)
    requires |s| > 0
    ensures r.InvalidOperation? <==> |s| >= 2
    ensures r.Ok? ==> s == [r.value]
  {
    if |s| == 1 then Ok(s[0]) else InvalidOperation
  }

  /** An element survives `Where` exactly when it is in the sequence and
      satisfies `p`. */
  lemma {:induction false} WhereMembership<A>(s: seq<A>, p: A -> bool, x: A)
    ensures x in Where(s, p) <==> x in s && p(x)
  {
    if s != [] {
      WhereMembership(s[1..], p, x);
      assert s == [s[0]] + s[1..];
    }
  }

  /** The number of elements satisfying `p`. */
  function Count<A>(s: seq<A>, p: A -> bool): nat
  {
    |Where(s, p)|
  }

  /** `Where` distributes over concatenation. */
  lemma {:induction false} WhereConcat<A>(a: seq<A>, b: seq<A>, p: A -> bool)
    ensures Where(a + b, p) == Where(a, p) + Where(b, p)
  {
    if a == [] {
      assert a + b == b;
    } else {
      assert (a + b)[0] == a[0];
      assert (a + b)[1..] == a[1..] + b;
      WhereConcat(a[1..], b, p);
    }
  }

  /** `Select` distributes over concatenation. */
  lemma SelectConcat<A, B>(a: seq<A>, b: seq<A>, f: A --> B)
    requires forall i :: 0 <= i < |a + b| ==> f.requires((a + b)[i])
    ensures forall i :: 0 <= i < |a| ==> f.requires(a[i])
    ensures forall i :: 0 <= i < |b| ==> f.requires(b[i])
    ensures Select(a + b, f) == Select(a, f) + Select(b, f)
  {
    assert forall i :: 0 <= i < |a| ==> (a + b)[i] == a[i];
    assert forall i :: 0 <= i < |b| ==> (a + b)[|a| + i] == b[i];
  }

  /** `Where` scans in order: its first element is the earliest one satisfying
      `p`, and it is empty exactly when nothing satisfies `p`. */
  lemma {:induction false} WhereHead<A>(s: seq<A>, p: A -> bool)
    ensures Where(s, p) == [] <==> forall i :: 0 <= i < |s| ==> !p(s[i])
    ensures Where(s, p) != [] ==>
      exists i :: 0 <= i < |s| && Where(s, p)[0] == s[i] && p(s[i]) &&
        forall j :: 0 <= j < i ==> !p(s[j])
  {
    if s != [] {
      WhereHead(s[1..], p);
      if !p(s[0]) && Where(s, p) != [] {
        var i :| 0 <= i < |s[1..]| && Where(s[1..], p)[0] == s[1..][i] && p(s[1..][i]) &&
          forall j :: 0 <= j < i ==> !p(s[1..][j]);
        assert Where(s, p)[0] == s[i + 1];
      }
    }
  }

  /** Filtering by a predicate that holds of nothing gives the empty sequence. */
  lemma WhereNothing<A>(s: seq<A>, p: A -> bool)
    requires forall i :: 0 <= i < |s| ==> !p(s[i])
    ensures Where(s, p) == []
  {
    WhereHead(s, p);
  }

  /** Filtering by a predicate that holds of every element changes nothing. */
  lemma {:induction false} WhereEverything<A>(s: seq<A>, p: A -> bool)
    requires forall i :: 0 <= i < |s| ==> p(s[i])
    ensures Where(s, p) == s
  {
    if s != [] {
      WhereEverything(s[1..], p);
    }
  }
}
