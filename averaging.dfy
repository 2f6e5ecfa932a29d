/** The row-wise mean of a group of response cells that skips missing cells:
    the present values are kept and averaged, and a group with no present
    value has no mean. Means are exact rationals. */
module Averaging {
  import opened Likert

  /** The values of the cells that hold one, in order; missing cells are
      dropped. */
  function Present(cells: seq<Cell>): (values: seq<int>)
    ensures |values| <= |cells|
    ensures |values| == 0 <==> forall i :: 0 <= i < |cells| ==> cells[i].None?
    ensures forall v :: v in values <==> Some(v) in cells
  {
    if cells == [] then []
    else
      assert cells == [cells[0]] + cells[1..];
      match cells[0]
      case None => Present(cells[1..])
      case Some(v) => [v] + Present(cells[1..])
  }

  function Sum(xs: seq<int>): int {
    if xs == [] then 0 else xs[0] + Sum(xs[1..])
  }

  /** The mean of the present values of a group of cells; None exactly when
      every cell of the group is missing. */
  function Mean(cells: seq<Cell>): (m: Option<real>)
    ensures m.None? <==> forall i :: 0 <= i < |cells| ==> cells[i].None?
  {
    var values := Present(cells);
    if |values| == 0 then None else Some(Sum(values) as real / |values| as real)
  }

  function Min(xs: seq<int>): (m: int)
    requires |xs| > 0
    ensures m in xs && forall i :: 0 <= i < |xs| ==> m <= xs[i]
  {
    if |xs| == 1 then xs[0]
    else
      var rest := Min(xs[1..]);
      if xs[0] <= rest then xs[0] else rest
  }

  function Max(xs: seq<int>): (m: int)
    requires |xs| > 0
    ensures m in xs && forall i :: 0 <= i < |xs| ==> xs[i] <= m
  {
    if |xs| == 1 then xs[0]
    else
      var rest := Max(xs[1..]);
      if xs[0] >= rest then xs[0] else rest
  }

  lemma {:induction false} SumBounds(xs: seq<int>, lo: int, hi: int)
    requires forall i :: 0 <= i < |xs| ==> lo <= xs[i] <= hi
    ensures lo * |xs| <= Sum(xs) <= hi * |xs|
  {
    if xs != [] {
      SumBounds(xs[1..], lo, hi);
    }
  }

  lemma DivisionBounds(s: int, n: int, lo: int, hi: int)
    requires n > 0 && lo * n <= s <= hi * n
    ensures lo as real <= s as real / n as real <= hi as real
  {
    var q := s as real / n as real;
    assert q * n as real == s as real;
    assert (lo * n) as real == lo as real * n as real;
    assert (hi * n) as real == hi as real * n as real;
  }

  /** When every present value lies in [lo, hi], so does the mean. */
  lemma MeanBetween(cells: seq<Cell>, lo: int, hi: int)
    requires forall i :: 0 <= i < |cells| && cells[i].Some? ==> lo <= cells[i].value <= hi
    ensures Mean(cells).Some? ==> lo as real <= Mean(cells).value <= hi as real
  {
    var values := Present(cells);
    if |values| > 0 {
      forall i | 0 <= i < |values| ensures lo <= values[i] <= hi {
        assert values[i] in values;
        var j :| 0 <= j < |cells| && cells[j] == Some(values[i]);
      }
      SumBounds(values, lo, hi);
      DivisionBounds(Sum(values), |values|, lo, hi);
    }
  }

  /** The mean lies between the smallest and the largest present value. */
  lemma MeanWithinPresent(cells: seq<Cell>)
    requires exists i :: 0 <= i < |cells| && cells[i].Some?
    ensures Mean(cells).Some?
    ensures exists i :: 0 <= i < |cells| && cells[i].Some? && cells[i].value as real <= Mean(cells).value
    ensures exists j :: 0 <= j < |cells| && cells[j].Some? && Mean(cells).value <= cells[j].value as real
  {
    var values := Present(cells);
    var lo, hi := Min(values), Max(values);
    forall i | 0 <= i < |cells| && cells[i].Some? ensures lo <= cells[i].value <= hi {
      assert Some(cells[i].value) in cells;
      var k :| 0 <= k < |values| && values[k] == cells[i].value;
    }
    MeanBetween(cells, lo, hi);
    var i :| 0 <= i < |cells| && cells[i] == Some(lo);
    var j :| 0 <= j < |cells| && cells[j] == Some(hi);
  }

  /** A group whose present cells all hold c, and which has one, has mean c. */
  lemma MeanOfConstant(cells: seq<Cell>, c: int)
    requires exists i :: 0 <= i < |cells| && cells[i].Some?
    requires forall i :: 0 <= i < |cells| && cells[i].Some? ==> cells[i].value == c
    ensures Mean(cells) == Some(c as real)
  {
    MeanBetween(cells, c, c);
  }

  /** When no cell is missing, the present values are all the cells' values,
      so the mean is the plain arithmetic mean of the group. */
  lemma {:induction false} PresentOfAnswered(cells: seq<Cell>)
    requires forall i :: 0 <= i < |cells| ==> cells[i].Some?
    ensures Present(cells) == seq(|cells|, i requires 0 <= i < |cells| => cells[i].value)
  {
    if cells != [] {
      PresentOfAnswered(cells[1..]);
    }
  }

  lemma {:induction false} SumAppend(a: seq<int>, b: seq<int>)
    ensures Sum(a + b) == Sum(a) + Sum(b)
  {
    if a == [] {
      assert a + b == b;
    } else {
      assert (a + b)[0] == a[0];
      assert (a + b)[1..] == a[1..] + b;
      SumAppend(a[1..], b);
    }
  }

  /** Taking the element at j out of a sequence. */
  lemma SumRemove(ys: seq<int>, j: int)
    requires 0 <= j < |ys|
    ensures Sum(ys) == ys[j] + Sum(ys[..j] + ys[j + 1..])
  {
    var before, after := ys[..j], ys[j + 1..];
    assert ys == before + ([ys[j]] + after);
    SumAppend(before, [ys[j]] + after);
    assert ([ys[j]] + after)[1..] == after;
    SumAppend(before, after);
  }

  lemma MultisetRemove(ys: seq<int>, j: int)
    requires 0 <= j < |ys|
    ensures multiset(ys[..j] + ys[j + 1..]) == multiset(ys) - multiset{ys[j]}
  {
    assert ys == ys[..j] + [ys[j]] + ys[j + 1..];
  }

  lemma {:induction false} SumPermutation(xs: seq<int>, ys: seq<int>)
    requires multiset(xs) == multiset(ys)
    ensures Sum(xs) == Sum(ys)
  {
    if xs == [] {
      assert |ys| == |multiset(ys)| == 0;
    } else {
      var x := xs[0];
      assert x in multiset(ys);
      var j :| 0 <= j < |ys| && ys[j] == x;
      SumRemove(ys, j);
      MultisetRemove(ys, j);
      assert xs == [x] + xs[1..];
      assert multiset(xs[1..]) == multiset(xs) - multiset{x};
      SumPermutation(xs[1..], ys[..j] + ys[j + 1..]);
    }
  }

  lemma {:induction false} PresentMultiset(cells: seq<Cell>)
    ensures forall v :: multiset(Present(cells))[v] == multiset(cells)[Some(v)]
  {
    if cells != [] {
      PresentMultiset(cells[1..]);
      assert cells == [cells[0]] + cells[1..];
      assert multiset(cells) == multiset{cells[0]} + multiset(cells[1..]);
      match cells[0]
      case None =>
        assert Present(cells) == Present(cells[1..]);
      case Some(x) =>
        assert Present(cells) == [x] + Present(cells[1..]);
        assert multiset(Present(cells)) == multiset{x} + multiset(Present(cells[1..]));
    }
  }

  /** The mean does not depend on the order of the cells in the group. */
  lemma MeanPermutation(cells: seq<Cell>, others: seq<Cell>)
    requires multiset(cells) == multiset(others)
    ensures Mean(cells) == Mean(others)
  {
    PresentMultiset(cells);
    PresentMultiset(others);
    var p, q := Present(cells), Present(others);
    assert multiset(p) == multiset(q) by {
      forall v ensures multiset(p)[v] == multiset(q)[v] {
      }
    }
    assert |p| == |multiset(p)| == |multiset(q)| == |q|;
    SumPermutation(p, q);
  }
}
