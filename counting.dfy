/**
 * Counting and first-match search over table rows: the `.count()`,
 * `.first()` and `.get()` of the ORM queries, stated once for any row type.
 */
module Counting {
  import opened Wrappers

  /** The number of rows satisfying `p`. */
  function CountWhere<T>(s: seq<T>, p: T -> bool): (n: nat)
    ensures n <= |s|
    ensures n == 0 <==> forall i :: 0 <= i < |s| ==> !p(s[i])
  {
    if s == [] then 0
    else CountWhere(s[..|s| - 1], p) + if p(s[|s| - 1]) then 1 else 0
  }

  lemma {:induction false} CountAppend<T>(s: seq<T>, t: seq<T>, p: T -> bool)
    ensures CountWhere(s + t, p) == CountWhere(s, p) + CountWhere(t, p)
    decreases |t|
  {
    if t != [] {
      var n := |t| - 1;
      CountAppend(s, t[..n], p);
      assert (s + t)[..|s + t| - 1] == s + t[..n];
      assert (s + t)[|s + t| - 1] == t[n];
    } else {
      assert s + t == s;
    }
  }

  /** When no two rows both satisfy `p`, at most one row is counted. */
  lemma {:induction false} CountAtMostOne<T>(s: seq<T>, p: T -> bool)
    requires forall i, j :: 0 <= i < j < |s| && p(s[i]) ==> !p(s[j])
    ensures CountWhere(s, p) <= 1
    decreases |s|
  {
    if s != [] {
      var n := |s| - 1;
      CountAtMostOne(s[..n], p);
      if p(s[n]) {
        assert forall i :: 0 <= i < n ==> !p(s[..n][i]);
      }
    }
  }

  /** The index of the first row satisfying `p`, in table order. */
  function FirstIndex<T>(s: seq<T>, p: T -> bool): (r: Option<nat>)
    ensures r.None? <==> forall i :: 0 <= i < |s| ==> !p(s[i])
    ensures r.Some? ==> r.value < |s| && p(s[r.value]) && forall i :: 0 <= i < r.value ==> !p(s[i])
  {
    if s == [] then None
    else if p(s[0]) then Some(0)
    else match FirstIndex(s[1..], p)
      case None => None
      case Some(i) => Some(i + 1)
  }

  /** The rows satisfying `p`, in table order. */
  function Filter<T>(s: seq<T>, p: T -> bool): (r: seq<T>)
    ensures |r| == CountWhere(s, p)
    ensures forall i :: 0 <= i < |r| ==> r[i] in s && p(r[i])
    ensures forall i :: 0 <= i < |s| && p(s[i]) ==> s[i] in r
  {
    if s == [] then []
    else Filter(s[..|s| - 1], p) + if p(s[|s| - 1]) then [s[|s| - 1]] else []
  }

  /** Filtering keeps table order: the rows kept from a prefix come before those kept from the rest. */
  lemma {:induction false} FilterAppend<T>(a: seq<T>, b: seq<T>, p: T -> bool)
    ensures Filter(a + b, p) == Filter(a, p) + Filter(b, p)
    decreases |b|
  {
    if b == [] {
      assert a + b == a;
    } else {
      var n := |b| - 1;
      assert (a + b)[..|a + b| - 1] == a + b[..n] && (a + b)[|a + b| - 1] == b[n];
      FilterAppend(a, b[..n], p);
    }
  }

  /** The errors of `.get()`: no row matches, or more than one does. */
  datatype GetError = DoesNotExist | MultipleObjectsReturned

  /** `.get()`: the single row satisfying `p`. */
  function Get<T>(s: seq<T>, p: T -> bool): (r: Result<T, GetError>)
    ensures r == Err(DoesNotExist) <==> forall i :: 0 <= i < |s| ==> !p(s[i])
    ensures r == Err(MultipleObjectsReturned) <==> CountWhere(s, p) > 1
    ensures r.Ok? ==> r.value in s && p(r.value)
  {
    var n := CountWhere(s, p);
    if n == 0 then Err(DoesNotExist)
    else if n > 1 then Err(MultipleObjectsReturned)
    else Ok(s[FirstIndex(s, p).value])
  }

  /** `rel` holds of every pair of rows in table order. */
  predicate Pairwise<T>(s: seq<T>, rel: (T, T) -> bool) {
    forall i, j :: 0 <= i < j < |s| ==> rel(s[i], s[j])
  }

  /** Keeping only some rows keeps every pairwise property of the table. */
  lemma {:induction false} FilterPairwise<T>(s: seq<T>, p: T -> bool, rel: (T, T) -> bool)
    requires Pairwise(s, rel)
    ensures Pairwise(Filter(s, p), rel)
    decreases |s|
  {
    if s != [] {
      var n := |s| - 1;
      var front := Filter(s[..n], p);
      assert Pairwise(s[..n], rel);
      FilterPairwise(s[..n], p, rel);
      if p(s[n]) {
        forall i | 0 <= i < |front| ensures rel(front[i], s[n]) {
          var a :| 0 <= a < n && s[..n][a] == front[i];
          assert s[a] == front[i];
        }
        PairwiseAppend(front, s[n], rel);
        assert Filter(s, p) == front + [s[n]];
      } else {
        assert Filter(s, p) == front + [];
        assert front + [] == front;
      }
    }
  }

  /** A row related to every earlier row can be appended without breaking a pairwise property. */
  lemma PairwiseAppend<T>(s: seq<T>, x: T, rel: (T, T) -> bool)
    requires Pairwise(s, rel)
    requires forall i :: 0 <= i < |s| ==> rel(s[i], x)
    ensures Pairwise(s + [x], rel)
  {
    assert forall i :: 0 <= i < |s| ==> (s + [x])[i] == s[i];
  }
}
