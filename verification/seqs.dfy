/** The JavaScript array operations the extension's state updates are built
    from (`filter`, `map`), as functions over immutable sequences, with the
    algebraic facts the note-container proofs rely on. */
module Seqs {

  /** `idx` names, in strictly increasing order, one position of `s` for each
      element of `r`, holding that element. */
  ghost predicate PicksInOrder<T>(r: seq<T>, s: seq<T>, idx: seq<nat>) {
    && |idx| == |r|
    && (forall i :: 0 <= i < |idx| ==> idx[i] < |s| && r[i] == s[idx[i]])
    && (forall i, j :: 0 <= i < j < |idx| ==> idx[i] < idx[j])
  }

  /** `idx` names every position of `s` whose element passes `keep`. */
  ghost predicate Covers<T>(s: seq<T>, keep: T -> bool, idx: seq<nat>) {
    forall j :: 0 <= j < |s| && keep(s[j]) ==> j in idx
  }

  /** `r` is a subsequence of `s` that takes every position whose element
      passes `keep`, in the order of `s`. */
  ghost predicate SelectsInOrder<T>(r: seq<T>, s: seq<T>, keep: T -> bool) {
    exists idx :: PicksInOrder(r, s, idx) && Covers(s, keep, idx)
  }

  /** Every index moved one place to the right. */
  function Shifted(idx: seq<nat>): (r: seq<nat>)
    ensures |r| == |idx| && forall i :: 0 <= i < |idx| ==> r[i] == idx[i] + 1
  {
    seq(|idx|, i requires 0 <= i < |idx| => idx[i] + 1)
  }

  /** Picking from `[x] + t` with every index shifted, and `x` optionally
      picked first at position 0. */
  lemma PicksShifted<T>(x: T, r: seq<T>, t: seq<T>, idx: seq<nat>)
    requires PicksInOrder(r, t, idx)
    ensures PicksInOrder(r, [x] + t, Shifted(idx))
    ensures PicksInOrder([x] + r, [x] + t, [0] + Shifted(idx))
  {
    PicksSkipping(x, r, t, idx);
    var s, r0, up := [x] + t, [x] + r, Shifted(idx);
    var up0 := [0] + up;
    forall i | 0 <= i < |up0|
      ensures up0[i] < |s| && r0[i] == s[up0[i]]
    {
      if i > 0 {
        assert up0[i] == up[i - 1] && r0[i] == r[i - 1];
      }
    }
    forall i, j | 0 <= i < j < |up0|
      ensures up0[i] < up0[j]
    {
      assert up0[j] == up[j - 1];
      if i > 0 {
        assert up0[i] == up[i - 1];
      }
    }
  }

  /** Picking from `[x] + t` with every index shifted past `x`. */
  lemma PicksSkipping<T>(x: T, r: seq<T>, t: seq<T>, idx: seq<nat>)
    requires PicksInOrder(r, t, idx)
    ensures PicksInOrder(r, [x] + t, Shifted(idx))
  {
    var s := [x] + t;
    var up := Shifted(idx);
    assert forall i :: 0 <= i < |up| ==> s[up[i]] == t[idx[i]];
  }

  /** Every passing position of `[x] + t` after the first is a shifted
      passing position of `t`. */
  lemma CoversShifted<T>(x: T, t: seq<T>, keep: T -> bool, idx: seq<nat>, idx2: seq<nat>)
    requires Covers(t, keep, idx)
    requires forall m :: 0 <= m < |idx| ==> idx[m] + 1 in idx2
    requires keep(x) ==> 0 in idx2
    ensures Covers([x] + t, keep, idx2)
  {
    forall j | 0 <= j < |[x] + t| && keep(([x] + t)[j])
      ensures j in idx2
    {
      if j > 0 {
        assert ([x] + t)[j] == t[j - 1];
        var m :| 0 <= m < |idx| && idx[m] == j - 1;
      }
    }
  }

  /** A selection from `t`, preceded by a passing `x`, selects from `[x] + t`. */
  lemma SelectsConsKept<T>(x: T, r: seq<T>, t: seq<T>, keep: T -> bool)
    requires keep(x)
    requires SelectsInOrder(r, t, keep)
    ensures SelectsInOrder([x] + r, [x] + t, keep)
  {
    var idx :| PicksInOrder(r, t, idx) && Covers(t, keep, idx);
    var idx2 := [0] + Shifted(idx);
    PicksShifted(x, r, t, idx);
    assert forall m :: 0 <= m < |idx| ==> idx2[m + 1] == idx[m] + 1;
    CoversShifted(x, t, keep, idx, idx2);
    assert PicksInOrder([x] + r, [x] + t, idx2);
  }

  /** A selection from `t` also selects from `[x] + t` when `x` fails. */
  lemma SelectsConsDropped<T>(x: T, r: seq<T>, t: seq<T>, keep: T -> bool)
    requires !keep(x)
    requires SelectsInOrder(r, t, keep)
    ensures SelectsInOrder(r, [x] + t, keep)
  {
    var idx :| PicksInOrder(r, t, idx) && Covers(t, keep, idx);
    var up := Shifted(idx);
    PicksShifted(x, r, t, idx);
    assert forall m :: 0 <= m < |idx| ==> up[m] == idx[m] + 1;
    CoversShifted(x, t, keep, idx, up);
    assert PicksInOrder(r, [x] + t, up);
  }

  /** The multiplicity claim of `Filter` for one element. */
  ghost predicate CountsKept<T>(r: seq<T>, s: seq<T>, keep: T -> bool, y: T) {
    multiset(r)[y] == if keep(y) then multiset(s)[y] else 0
  }

  /** Multiplicities carry over from `t` to `[x] + t`. */
  lemma CountsCons<T>(x: T, r: seq<T>, t: seq<T>, keep: T -> bool)
    requires forall i :: 0 <= i < |t| ==> CountsKept(r, t, keep, t[i])
    requires forall i :: 0 <= i < |r| ==> r[i] in t
    ensures var r2 := if keep(x) then [x] + r else r;
      forall i :: 0 <= i < |[x] + t| ==> CountsKept(r2, [x] + t, keep, ([x] + t)[i])
  {
    var s := [x] + t;
    var r2 := if keep(x) then [x] + r else r;
    assert multiset(s) == multiset{x} + multiset(t);
    assert multiset(r2) == (if keep(x) then multiset{x} else multiset{}) + multiset(r);
    if x !in t {
      assert x !in r;
    } else {
      var i :| 0 <= i < |t| && t[i] == x;
      assert CountsKept(r, t, keep, t[i]);
    }
    forall i | 0 <= i < |s|
      ensures CountsKept(r2, s, keep, s[i])
    {
      if i > 0 {
        assert s[i] == t[i - 1];
        assert CountsKept(r, t, keep, t[i - 1]);
      }
    }
  }

  /** `Array.prototype.filter`: the elements of `s` that satisfy `keep`, in
      their order in `s`. `FilterSelects` states that the result is exact:
      the passing positions in order, each element as often as in `s`. */
  function Filter<T>(s: seq<T>, keep: T -> bool): (r: seq<T>)
    ensures |r| <= |s|
    ensures forall i :: 0 <= i < |r| ==> keep(r[i])
    ensures forall i :: 0 <= i < |s| && keep(s[i]) ==> s[i] in r
    ensures forall i :: 0 <= i < |r| ==> r[i] in s
    ensures multiset(r) <= multiset(s)
  {
    if |s| == 0 then []
    else
      assert s == [s[0]] + s[1..];
      if keep(s[0]) then [s[0]] + Filter(s[1..], keep)
      else Filter(s[1..], keep)
  }

  /** Filtering is exact: the result is the subsequence of the passing
      positions, in order, and holds each passing element exactly as often as
      `s` does and no failing one. */
  lemma {:induction false} FilterSelects<T>(s: seq<T>, keep: T -> bool)
    ensures SelectsInOrder(Filter(s, keep), s, keep)
    ensures forall i :: 0 <= i < |s| ==> CountsKept(Filter(s, keep), s, keep, s[i])
  {
    if |s| == 0 {
      assert PicksInOrder([], s, []);
    } else {
      assert s == [s[0]] + s[1..];
      var rest := Filter(s[1..], keep);
      FilterSelects(s[1..], keep);
      CountsCons(s[0], rest, s[1..], keep);
      if keep(s[0]) {
        SelectsConsKept(s[0], rest, s[1..], keep);
      } else {
        SelectsConsDropped(s[0], rest, s[1..], keep);
      }
    }
  }

  /** `Array.prototype.map`. */
  function Map<T, U>(s: seq<T>, f: T -> U): (r: seq<U>)
    ensures |r| == |s|
    ensures forall i :: 0 <= i < |s| ==> r[i] == f(s[i])
  {
    if |s| == 0 then [] else [f(s[0])] + Map(s[1..], f)
  }

  /** Mapping distributes over concatenation. */
  lemma MapAppend<T, U>(a: seq<T>, b: seq<T>, f: T -> U)
    ensures Map(a + b, f) == Map(a, f) + Map(b, f)
  {
  }

  /** Filtering distributes over concatenation: appending to a list and then
      filtering is filtering each part. */
  lemma {:induction false} FilterAppend<T>(a: seq<T>, b: seq<T>, keep: T -> bool)
    ensures Filter(a + b, keep) == Filter(a, keep) + Filter(b, keep)
  {
    if |a| == 0 {
      assert a + b == b;
    } else {
      assert (a + b)[0] == a[0];
      assert (a + b)[1..] == a[1..] + b;
      FilterAppend(a[1..], b, keep);
    }
  }

  /** A filter that every element passes changes nothing. */
  lemma {:induction false} FilterKeepsAll<T>(s: seq<T>, keep: T -> bool)
    requires forall i :: 0 <= i < |s| ==> keep(s[i])
    ensures Filter(s, keep) == s
  {
    if |s| > 0 {
      FilterKeepsAll(s[1..], keep);
    }
  }

  /** A filter that no element passes yields the empty list. */
  lemma {:induction false} FilterDropsAll<T>(s: seq<T>, keep: T -> bool)
    requires forall i :: 0 <= i < |s| ==> !keep(s[i])
    ensures Filter(s, keep) == []
  {
    if |s| > 0 {
      FilterDropsAll(s[1..], keep);
    }
  }

  /** Filtering twice by the same predicate is filtering once. */
  lemma FilterIdempotent<T>(s: seq<T>, keep: T -> bool)
    ensures Filter(Filter(s, keep), keep) == Filter(s, keep)
  {
    FilterKeepsAll(Filter(s, keep), keep);
  }

  /** Mapping with a function that never changes the filter's verdict commutes
      with filtering. */
  lemma {:induction false} FilterMapCommute<T>(s: seq<T>, keep: T -> bool, f: T -> T)
    requires forall x :: keep(f(x)) == keep(x)
    ensures Filter(Map(s, f), keep) == Map(Filter(s, keep), f)
  {
    if |s| > 0 {
      assert Map(s, f) == [f(s[0])] + Map(s[1..], f);
      assert Map(s, f)[1..] == Map(s[1..], f);
      FilterMapCommute(s[1..], keep, f);
      if keep(s[0]) {
        assert Filter(s, keep) == [s[0]] + Filter(s[1..], keep);
        assert Map(Filter(s, keep), f) == [f(s[0])] + Map(Filter(s[1..], keep), f);
      }
    }
  }

  /** Filtering `a + [x] + b` drops exactly `x` when only `x` fails. */
  lemma FilterSkipsOne<T>(a: seq<T>, x: T, b: seq<T>, keep: T -> bool)
    requires forall y :: y in a ==> keep(y)
    requires !keep(x)
    requires forall y :: y in b ==> keep(y)
    ensures Filter(a + [x] + b, keep) == a + b
  {
    var ax := a + [x];
    FilterKeepsAll(a, keep);
    FilterDropsAll([x], keep);
    FilterAppend(a, [x], keep);
    assert Filter(ax, keep) == a + [] == a;
    FilterKeepsAll(b, keep);
    FilterAppend(ax, b, keep);
  }

  /** A sequence is its prefix before `i`, the element at `i`, and the rest. */
  lemma SplitAround<T>(s: seq<T>, i: nat)
    requires i < |s|
    ensures s[..i] + [s[i]] + s[i + 1..] == s
  {
    assert s == s[..i] + s[i..] && s[i..] == [s[i]] + s[i + 1..];
  }

  /** The slices on either side of `i` keep every element the filter keeps. */
  lemma KeptAround<T>(s: seq<T>, keep: T -> bool, i: nat)
    requires i < |s|
    requires forall j :: 0 <= j < |s| && j != i ==> keep(s[j])
    ensures forall y :: y in s[..i] ==> keep(y)
    ensures forall y :: y in s[i + 1..] ==> keep(y)
  {
  }

  /** When exactly the element at index `i` fails the filter, filtering removes
      just that element. */
  lemma RemoveOnly<T>(s: seq<T>, keep: T -> bool, i: nat)
    requires i < |s|
    requires !keep(s[i])
    requires forall j :: 0 <= j < |s| && j != i ==> keep(s[j])
    ensures Filter(s, keep) == s[..i] + s[i + 1..]
  {
    SplitAround(s, i);
    KeptAround(s, keep, i);
    FilterSkipsOne(s[..i], s[i], s[i + 1..], keep);
  }
}
