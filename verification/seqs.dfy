/** Order-preserving sequence combinators used by the renderer model (the
    `Array.prototype.map` and `Array.prototype.filter` of the source), and an
    index-based characterisation of what an order-preserving filter selects. */
module Seqs {

  /** `xs.map(f)`. */
  function Map<T, U>(xs: seq<T>, f: T -> U): (r: seq<U>)
    ensures |r| == |xs|
    ensures forall i :: 0 <= i < |xs| ==> r[i] == f(xs[i])
  {
    if |xs| == 0 then [] else [f(xs[0])] + Map(xs[1..], f)
  }

  /** `xs.filter(keep)`. */
  function Filter<T(!new)>(xs: seq<T>, keep: T -> bool): (r: seq<T>)
    ensures |r| <= |xs|
    ensures forall x :: x in r <==> x in xs && keep(x)
  {
    if |xs| == 0 then []
    else
      assert xs == [xs[0]] + xs[1..];
      (if keep(xs[0]) then [xs[0]] else []) + Filter(xs[1..], keep)
  }

  lemma {:induction false} MapAppend<T, U>(a: seq<T>, b: seq<T>, f: T -> U)
    ensures Map(a + b, f) == Map(a, f) + Map(b, f)
  {
  }

  lemma {:induction false} FilterAppend<T(!new)>(a: seq<T>, b: seq<T>, keep: T -> bool)
    ensures Filter(a + b, keep) == Filter(a, keep) + Filter(b, keep)
    decreases |a|
  {
    if |a| == 0 {
      assert a + b == b;
    } else {
      assert (a + b)[0] == a[0];
      assert (a + b)[1..] == a[1..] + b;
      FilterAppend(a[1..], b, keep);
    }
  }

  ghost predicate Increasing(idx: seq<int>) {
    forall j, k :: 0 <= j < k < |idx| ==> idx[j] < idx[k]
  }

  /** `idx` lists, in increasing order, exactly the positions of `xs` whose
      element satisfies `keep`. */
  ghost predicate Selects<T>(idx: seq<int>, xs: seq<T>, keep: T -> bool) {
    && Increasing(idx)
    && (forall k :: 0 <= k < |idx| ==> 0 <= idx[k] < |xs|)
    && (forall i :: 0 <= i < |xs| ==> (keep(xs[i]) <==> i in idx))
  }

  /** Increasing positions below `n` are at most `n` many. */
  lemma {:induction false} PositionsBounded(idx: seq<int>, n: nat)
    requires Increasing(idx)
    requires forall k :: 0 <= k < |idx| ==> 0 <= idx[k] < n
    ensures |idx| <= n
    decreases |idx|
  {
    if |idx| > 0 {
      var last := idx[|idx| - 1];
      PositionsBounded(idx[..|idx| - 1], last);
    }
  }

  /** `r` is the subsequence of `xs` at the positions `idx`, and those are
      exactly the positions whose element satisfies `keep`: nothing kept is
      missing, nothing else is added, nothing is duplicated, and the original
      order is kept. */
  ghost predicate IsSelection<T>(r: seq<T>, xs: seq<T>, keep: T -> bool, idx: seq<int>) {
    && Selects(idx, xs, keep)
    && |r| == |idx|
    && (forall k :: 0 <= k < |idx| ==> r[k] == xs[idx[k]])
  }

  /** Every position in `idx` moved by `d`. */
  function Shift(idx: seq<int>, d: int): (r: seq<int>)
    ensures |r| == |idx|
    ensures forall k :: 0 <= k < |idx| ==> r[k] == idx[k] + d
  {
    seq(|idx|, k requires 0 <= k < |idx| => idx[k] + d)
  }

  lemma ShiftIn(idx: seq<int>, d: int, i: int)
    ensures i in Shift(idx, d) <==> i - d in idx
  {
    var s := Shift(idx, d);
    if i - d in idx {
      var k :| 0 <= k < |idx| && idx[k] == i - d;
      assert s[k] == i;
    }
    if i in s {
      var k :| 0 <= k < |s| && s[k] == i;
      assert idx[k] == i - d;
    }
  }

  /** The selection for `xs` is built from the selection for its tail. */
  lemma SelectionCons<T>(xs: seq<T>, keep: T -> bool, r: seq<T>, idx: seq<int>)
    requires |xs| > 0
    requires IsSelection(r, xs[1..], keep, idx)
    ensures IsSelection((if keep(xs[0]) then [xs[0]] else []) + r, xs, keep,
                        (if keep(xs[0]) then [0] else []) + Shift(idx, 1))
  {
    var head: seq<int> := if keep(xs[0]) then [0] else [];
    var idx' := head + Shift(idx, 1);
    var r' := (if keep(xs[0]) then [xs[0]] else []) + r;
    ConsPositions(xs, keep, idx);
    forall k | 0 <= k < |idx'|
      ensures 0 <= idx'[k] < |xs| && r'[k] == xs[idx'[k]]
    {
      if k >= |head| {
        assert idx'[k] == idx[k - |head|] + 1;
        assert r'[k] == r[k - |head|];
      }
    }
  }

  lemma ConsPositions<T>(xs: seq<T>, keep: T -> bool, idx: seq<int>)
    requires |xs| > 0
    requires Selects(idx, xs[1..], keep)
    ensures Increasing((if keep(xs[0]) then [0] else []) + Shift(idx, 1))
    ensures forall i :: 0 <= i < |xs| ==> (keep(xs[i]) <==> i in (if keep(xs[0]) then [0] else []) + Shift(idx, 1))
  {
    var head: seq<int> := if keep(xs[0]) then [0] else [];
    var idx' := head + Shift(idx, 1);
    forall i | 0 <= i < |xs|
      ensures keep(xs[i]) <==> i in idx'
    {
      ShiftIn(idx, 1, i);
      if i > 0 {
        assert xs[i] == xs[1..][i - 1];
      }
    }
  }

  /** `Filter` produces a selection. */
  lemma {:induction false} FilterSelects<T(!new)>(xs: seq<T>, keep: T -> bool) returns (idx: seq<int>)
    ensures IsSelection(Filter(xs, keep), xs, keep, idx)
    decreases |xs|
  {
    if |xs| == 0 {
      idx := [];
    } else {
      var rest := FilterSelects(xs[1..], keep);
      SelectionCons(xs, keep, Filter(xs[1..], keep), rest);
      idx := (if keep(xs[0]) then [0] else []) + Shift(rest, 1);
    }
  }

  /** A selection for `xs` yields one for its tail. */
  lemma SelectionUncons<T>(r: seq<T>, xs: seq<T>, keep: T -> bool, idx: seq<int>)
    returns (r': seq<T>, idx': seq<int>)
    requires |xs| > 0
    requires IsSelection(r, xs, keep, idx)
    ensures IsSelection(r', xs[1..], keep, idx')
    ensures r == (if keep(xs[0]) then [xs[0]] else []) + r'
  {
    var h := if keep(xs[0]) then 1 else 0;
    HeadPosition(xs, keep, idx);
    UnconsPositions(xs, keep, idx, h);
    idx' := Shift(idx[h..], -1);
    r' := r[h..];
    UnconsElements(r, xs, idx, h);
    if h == 1 {
      assert r[0] == xs[0];
      assert r == [r[0]] + r';
    }
  }

  lemma UnconsElements<T>(r: seq<T>, xs: seq<T>, idx: seq<int>, h: nat)
    requires |xs| > 0 && h <= |idx| == |r|
    requires forall k :: 0 <= k < |idx| ==> 0 <= idx[k] < |xs| && r[k] == xs[idx[k]]
    requires forall k :: h <= k < |idx| ==> idx[k] >= 1
    ensures forall k :: 0 <= k < |idx| - h ==> r[h..][k] == xs[1..][Shift(idx[h..], -1)[k]]
  {
    var idx' := Shift(idx[h..], -1);
    forall k | 0 <= k < |idx| - h
      ensures r[h..][k] == xs[1..][idx'[k]]
    {
      assert idx'[k] == idx[k + h] - 1;
    }
  }

  /** Position 0 is selected exactly when it is the first selected position. */
  lemma HeadPosition<T>(xs: seq<T>, keep: T -> bool, idx: seq<int>)
    requires |xs| > 0
    requires Selects(idx, xs, keep)
    ensures keep(xs[0]) ==> |idx| > 0 && idx[0] == 0
    ensures !keep(xs[0]) ==> forall k :: 0 <= k < |idx| ==> idx[k] >= 1
  {
    if keep(xs[0]) {
      assert 0 in idx;
      var k0 :| 0 <= k0 < |idx| && idx[k0] == 0;
      assert idx[0] <= idx[k0];
    } else {
      forall k | 0 <= k < |idx|
        ensures idx[k] >= 1
      {
        assert idx[k] in idx;
      }
    }
  }

  lemma UnconsPositions<T>(xs: seq<T>, keep: T -> bool, idx: seq<int>, h: int)
    requires |xs| > 0
    requires Selects(idx, xs, keep)
    requires h == if keep(xs[0]) then 1 else 0
    requires keep(xs[0]) ==> |idx| > 0 && idx[0] == 0
    requires !keep(xs[0]) ==> forall k :: 0 <= k < |idx| ==> idx[k] >= 1
    ensures Selects(Shift(idx[h..], -1), xs[1..], keep)
  {
    var tail := xs[1..];
    var rest := idx[h..];
    var idx' := Shift(rest, -1);
    forall k | 0 <= k < |idx'|
      ensures 0 <= idx'[k] < |tail|
    {
      if h == 1 {
        assert idx[0] < idx[k + 1];
      }
    }
    forall i | 0 <= i < |tail|
      ensures keep(tail[i]) <==> i in idx'
    {
      assert tail[i] == xs[i + 1];
      ShiftIn(rest, -1, i);
      if i + 1 in idx {
        var k :| 0 <= k < |idx| && idx[k] == i + 1;
        assert rest[k - h] == i + 1;
      }
      if i + 1 in rest {
        var k :| 0 <= k < |rest| && rest[k] == i + 1;
        assert idx[k + h] == i + 1;
      }
    }
  }

  /** Conversely, a selection is determined by `xs` and `keep`: it is `Filter`. */
  lemma {:induction false} SelectionIsFilter<T(!new)>(r: seq<T>, xs: seq<T>, keep: T -> bool, idx: seq<int>)
    requires IsSelection(r, xs, keep, idx)
    ensures r == Filter(xs, keep)
    decreases |xs|
  {
    if |xs| == 0 {
      PositionsBounded(idx, 0);
    } else {
      var r', idx' := SelectionUncons(r, xs, keep, idx);
      SelectionIsFilter(r', xs[1..], keep, idx');
    }
  }
}
