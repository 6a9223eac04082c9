/**
  `one_hot_encoding` of utils.py: `np.eye(num_classes)[labels]`. Numpy's
  floating 1.0 and 0.0 are written 1 and 0. Integer indexing into the `n`
  rows of the identity accepts `-n <= l < n`, a negative index counting from
  the last row, and raises IndexError otherwise.
 */
module OneHot {
  import opened Wrappers

  datatype Error =
    | NoClassCount        // np.eye(None): TypeError
    | NegativeDimension   // np.eye(n) with n < 0: ValueError
    | EmptyLabels         // np.max of an empty array: ValueError
    | LabelOutOfRange     // a label outside -n..n-1: IndexError

  /** The row of length `n` with a 1 at column `k`. */
  function UnitRow(n: nat, k: int): seq<int> {
    seq(n, j => if j == k then 1 else 0)
  }

  /** `np.eye(n)`: row `i` has its 1 at column `i`. */
  function Eye(n: nat): (m: seq<seq<int>>)
    ensures |m| == n
    ensures forall i :: 0 <= i < n ==> |m[i]| == n
    ensures forall i, j :: 0 <= i < n && 0 <= j < n ==> m[i][j] == (if i == j then 1 else 0)
  {
    seq(n, i => UnitRow(n, i))
  }

  /** A label numpy accepts as a row index of an n-row matrix. */
  predicate InRange(l: int, n: int) {
    -n <= l < n
  }

  /** The row numpy selects for label `l`: a negative label counts from the end. */
  function RowIndex(l: int, n: int): int {
    if l < 0 then l + n else l
  }

  /** `np.eye(n)[labels]` */
  function EyeAt(labels: seq<int>, n: int): (r: Result<seq<seq<int>>, Error>)
    ensures r.Success? <==> n >= 0 && forall i :: 0 <= i < |labels| ==> InRange(labels[i], n)
    ensures r.Success? ==> |r.value| == |labels|
    ensures r.Success? ==> forall i :: 0 <= i < |labels| ==>
      |r.value[i]| == n && 0 <= RowIndex(labels[i], n) < n &&
      forall j :: 0 <= j < n ==> r.value[i][j] == (if j == RowIndex(labels[i], n) then 1 else 0)
  {
    if n < 0 then Failure(NegativeDimension)
    else if exists i :: 0 <= i < |labels| && !InRange(labels[i], n) then Failure(LabelOutOfRange)
    else
      var eye := Eye(n);
      Success(seq(|labels|, i requires 0 <= i < |labels| => eye[RowIndex(labels[i], n)]))
  }

  /**
    `one_hot_encoding(labels, num_classes)` as written: the inferred count goes
    into an unused variable, so without `num_classes` the call fails, at
    `np.max` when there are no labels and at `np.eye(None)` otherwise.
   */
  function EncodeAsWritten(labels: seq<int>, numClasses: Option<int>): (r: Result<seq<seq<int>>, Error>)
    ensures numClasses.None? && |labels| == 0 ==> r == Failure(EmptyLabels)
    ensures numClasses.None? && |labels| > 0 ==> r == Failure(NoClassCount)
  {
    match numClasses
    case None => if |labels| == 0 then Failure(EmptyLabels) else Failure(NoClassCount)
    case Some(n) => EyeAt(labels, n)
  }

  /** The largest label. */
  function Max(labels: seq<int>): (m: int)
    requires |labels| > 0
    ensures m in labels
    ensures forall i :: 0 <= i < |labels| ==> labels[i] <= m
  {
    if |labels| == 1 then labels[0]
    else
      var rest := Max(labels[1..]);
      if labels[0] >= rest then labels[0] else rest
  }

  /** `one_hot_encoding(labels, num_classes)` as its documentation states: a missing count is `max(labels) + 1`. */
  function Encode(labels: seq<int>, numClasses: Option<int>): (r: Result<seq<seq<int>>, Error>)
    ensures numClasses.Some? ==> r == EncodeAsWritten(labels, numClasses)
    ensures numClasses.None? && |labels| == 0 ==> r == Failure(EmptyLabels)
  {
    match numClasses
    case Some(n) => EyeAt(labels, n)
    case None =>
      if |labels| == 0 then Failure(EmptyLabels)
      else EyeAt(labels, Max(labels) + 1)
  }

  /** With the count given and every label in `0..n-1`, row `i` is all zeros but a 1 at column `labels[i]`. */
  lemma OneHotRows(labels: seq<int>, n: nat)
    requires forall i :: 0 <= i < |labels| ==> 0 <= labels[i] < n
    ensures Encode(labels, Some(n)).Success?
    ensures var rows := Encode(labels, Some(n)).value;
      |rows| == |labels| &&
      forall i :: 0 <= i < |labels| ==>
        (|rows[i]| == n && forall j :: 0 <= j < n ==> rows[i][j] == (if j == labels[i] then 1 else 0))
  {
  }

  /** For labels `[0, 1, ..., n-1]` the encoding is the n×n identity. */
  lemma IdentityForAllClasses(n: nat)
    ensures Encode(seq(n, i => i), Some(n)) == Success(Eye(n))
  {
    var labels := seq(n, i => i);
    var rows := Encode(labels, Some(n)).value;
    assert |rows| == n;
    forall i | 0 <= i < n ensures rows[i] == Eye(n)[i] {
      assert |rows[i]| == n;
    }
    assert rows == Eye(n);
  }

  /** Without a count, non-negative labels are encoded with `max(labels) + 1` columns and never fail. */
  lemma InferredCount(labels: seq<int>)
    requires |labels| > 0
    requires forall i :: 0 <= i < |labels| ==> labels[i] >= 0
    ensures Encode(labels, None) == Encode(labels, Some(Max(labels) + 1))
    ensures Encode(labels, None).Success?
    ensures forall i :: 0 <= i < |labels| ==> |Encode(labels, None).value[i]| == Max(labels) + 1
  {
    var n := Max(labels) + 1;
    assert EyeAt(labels, n).Success? by {
      assert forall i :: 0 <= i < |labels| ==> InRange(labels[i], n);
    }
  }

  /** The count as written is lost: labels the documented behaviour encodes make the code raise. */
  lemma CountIsLost(labels: seq<int>)
    requires |labels| > 0
    requires forall i :: 0 <= i < |labels| ==> labels[i] >= 0
    ensures EncodeAsWritten(labels, None) == Failure(NoClassCount)
    ensures Encode(labels, None).Success?
  {
    InferredCount(labels);
  }

  /** The column holding the first 1 of a row (its length if none): the decoding of a one-hot row. */
  function ColumnOfOne(row: seq<int>): (k: nat)
    ensures k <= |row|
    decreases |row|
  {
    if |row| == 0 then 0
    else if row[0] == 1 then 0
    else 1 + ColumnOfOne(row[1..])
  }

  lemma {:induction false} ColumnOfUnitRow(n: nat, k: nat)
    requires k < n
    ensures ColumnOfOne(UnitRow(n, k)) == k
    decreases k
  {
    if k > 0 {
      assert UnitRow(n, k)[1..] == UnitRow(n - 1, k - 1);
      ColumnOfUnitRow(n - 1, k - 1);
    }
  }

  /** Decoding every row gives the labels back: the encoding loses nothing for labels in `0..n-1`. */
  lemma DecodeRoundTrip(labels: seq<int>, n: nat)
    requires forall i :: 0 <= i < |labels| ==> 0 <= labels[i] < n
    ensures Encode(labels, Some(n)).Success?
    ensures var rows := Encode(labels, Some(n)).value;
      seq(|rows|, i requires 0 <= i < |rows| => ColumnOfOne(rows[i])) == labels
  {
    var rows := Encode(labels, Some(n)).value;
    forall i | 0 <= i < |labels| ensures ColumnOfOne(rows[i]) == labels[i] {
      assert rows[i] == UnitRow(n, labels[i]);
      ColumnOfUnitRow(n, labels[i]);
    }
  }
}
