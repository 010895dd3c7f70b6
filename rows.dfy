/**
 * Table-level building blocks shared by the pipeline stages.
 *
 * A table column of booleans (a "mask") selects rows the way boolean indexing
 * of a data frame does: `Select(rows, mask)` keeps, in order, exactly the rows
 * whose mask entry is true, and `Count(mask)` is the column's sum.
 */
module Rows {

  /** A value that may be missing (a NaN / NaT cell). */
  datatype Option<+T> = None | Some(value: T)

  /** Number of true entries of a mask (the sum of a boolean column). */
  function Count(mask: seq<bool>): (n: nat)
    ensures n <= |mask|
    ensures n == 0 <==> forall i :: 0 <= i < |mask| ==> !mask[i]
    ensures n == |mask| <==> forall i :: 0 <= i < |mask| ==> mask[i]
  {
    if mask == [] then 0
    else
      var init := mask[..|mask| - 1];
      assert forall i :: 0 <= i < |init| ==> init[i] == mask[i];
      Count(init) + (if mask[|mask| - 1] then 1 else 0)
  }

  /** Element-wise negation of a mask (the `~` operator on a boolean column). */
  function Not(mask: seq<bool>): (r: seq<bool>)
    ensures |r| == |mask|
    ensures forall i :: 0 <= i < |mask| ==> r[i] != mask[i]
  {
    seq(|mask|, i requires 0 <= i < |mask| => !mask[i])
  }

  lemma {:induction false} CountNot(mask: seq<bool>)
    ensures Count(Not(mask)) == |mask| - Count(mask)
    decreases |mask|
  {
    if mask != [] {
      var n := |mask| - 1;
      var init := mask[..n];
      assert Not(mask)[..n] == Not(init);
      assert Not(mask)[n] == !mask[n];
      CountNot(init);
      assert Count(Not(mask)) == Count(Not(init)) + (if mask[n] then 0 else 1);
    }
  }

  /**
   * The rows whose mask entry is true, in their original order
   * (boolean indexing `df[mask]`).
   */
  function Select<T>(rows: seq<T>, mask: seq<bool>): (r: seq<T>)
    requires |mask| == |rows|
    ensures |r| == Count(mask)
    ensures forall x :: x in r ==> x in rows
    decreases |rows|
  {
    if rows == [] then []
    else
      var n := |rows| - 1;
      var init := Select(rows[..n], mask[..n]);
      if mask[n] then init + [rows[n]] else init
  }

  /**
   * The indices at which a mask is true, in increasing order: the row labels
   * that boolean indexing keeps.
   */
  function Positions(mask: seq<bool>): (p: seq<nat>)
    ensures |p| == Count(mask)
    ensures forall k :: 0 <= k < |p| ==> p[k] < |mask| && mask[p[k]]
    ensures forall k, l :: 0 <= k < l < |p| ==> p[k] < p[l]
    ensures forall i :: 0 <= i < |mask| && mask[i] ==> i in p
    decreases |mask|
  {
    if mask == [] then []
    else
      var n := |mask| - 1;
      var init := Positions(mask[..n]);
      assert forall i :: 0 <= i < n ==> mask[..n][i] == mask[i];
      if mask[n] then init + [n] else init
  }

  /**
   * `Select` is an order-preserving subsequence: its k-th row is the input row
   * at the k-th true position of the mask.
   */
  lemma {:induction false} SelectAt<T>(rows: seq<T>, mask: seq<bool>)
    requires |mask| == |rows|
    ensures forall k :: 0 <= k < |Select(rows, mask)| ==>
              Select(rows, mask)[k] == rows[Positions(mask)[k]]
    decreases |rows|
  {
    if rows != [] {
      var n := |rows| - 1;
      SelectAt(rows[..n], mask[..n]);
    }
  }

  /** A mask with no false entry selects every row. */
  lemma {:induction false} SelectAll<T>(rows: seq<T>, mask: seq<bool>)
    requires |mask| == |rows|
    requires forall i :: 0 <= i < |mask| ==> mask[i]
    ensures Select(rows, mask) == rows
    decreases |rows|
  {
    if rows != [] {
      var n := |rows| - 1;
      SelectAll(rows[..n], mask[..n]);
      assert rows[..n] + [rows[n]] == rows;
    }
  }

  /** A value is selected iff it sits in the input at some position the mask keeps. */
  lemma SelectMembership<T>(rows: seq<T>, mask: seq<bool>, x: T)
    requires |mask| == |rows|
    ensures x in Select(rows, mask) <==> exists i :: 0 <= i < |rows| && mask[i] && rows[i] == x
  {
    SelectAt(rows, mask);
    var r, p := Select(rows, mask), Positions(mask);
    if x in r {
      var k :| 0 <= k < |r| && r[k] == x;
      assert mask[p[k]] && rows[p[k]] == x;
    }
    if i :| 0 <= i < |rows| && mask[i] && rows[i] == x {
      var k :| 0 <= k < |p| && p[k] == i;
      assert r[k] == x;
    }
  }

  /** Removing the rows a mask marks changes nothing when it marks none. */
  lemma SelectNoneMarked<T>(rows: seq<T>, mask: seq<bool>)
    requires |mask| == |rows|
    requires Count(mask) == 0
    ensures Select(rows, Not(mask)) == rows
  {
    SelectAll(rows, Not(mask));
  }

  /** Counting distributes over the concatenation of two masks. */
  lemma {:induction false} CountConcat(a: seq<bool>, b: seq<bool>)
    ensures Count(a + b) == Count(a) + Count(b)
    decreases |b|
  {
    if b != [] {
      var n := |b| - 1;
      assert (a + b)[..|a + b| - 1] == a + b[..n];
      assert (a + b)[|a + b| - 1] == b[n];
      CountConcat(a, b[..n]);
    } else {
      assert a + b == a;
    }
  }

  /** Selecting from two tables one after the other is selecting from their concatenation. */
  lemma {:induction false} SelectConcat<T>(a: seq<T>, ma: seq<bool>, b: seq<T>, mb: seq<bool>)
    requires |ma| == |a| && |mb| == |b|
    ensures Select(a + b, ma + mb) == Select(a, ma) + Select(b, mb)
    decreases |b|
  {
    if b != [] {
      var n := |b| - 1;
      assert (a + b)[..|a + b| - 1] == a + b[..n];
      assert (ma + mb)[..|a + b| - 1] == ma + mb[..n];
      assert (a + b)[|a + b| - 1] == b[n];
      assert (ma + mb)[|a + b| - 1] == mb[n];
      SelectConcat(a, ma, b[..n], mb[..n]);
    } else {
      assert a + b == a && ma + mb == ma;
    }
  }

  /** A row whose mask entry is false in front of a table contributes nothing. */
  lemma SelectSkipFirst<T>(x: T, rest: seq<T>, mask: seq<bool>)
    requires |mask| == |rest|
    ensures Select([x] + rest, [false] + mask) == Select(rest, mask)
  {
    assert [x][..0] == [] && [false][..0] == [];
    assert Select([x], [false]) == [];
    SelectConcat([x], [false], rest, mask);
  }

  /** A mask that is false at exactly one position removes exactly that row. */
  lemma SelectAllBut<T>(rows: seq<T>, mask: seq<bool>, p: nat)
    requires |mask| == |rows| && p < |rows|
    requires !mask[p]
    requires forall i :: 0 <= i < |mask| && i != p ==> mask[i]
    ensures Select(rows, mask) == rows[..p] + rows[p + 1..]
  {
    var front, back := rows[..p], rows[p + 1..];
    var mFront, mBack := mask[..p], mask[p + 1..];
    assert rows == front + ([rows[p]] + back);
    assert mask == mFront + ([false] + mBack);
    SelectAll(front, mFront);
    SelectAll(back, mBack);
    SelectSkipFirst(rows[p], back, mBack);
    SelectConcat(front, mFront, [rows[p]] + back, [false] + mBack);
  }
}
