/**
 The time-ordered data split `time_split` on the frames of `jobs_frame` and
 `decisions_frame` (ml/ejo_ml/data.py). Rounding `n * fraction` is allowed any
 nearest whole number, so floating-point ties are covered either way.
 */
module TimeSplit {
  import opened Wrappers

  datatype Row<T> = Row(date: int, rowId: string, data: T)

  datatype Split<T> = Split(train: seq<T>, valid: seq<T>, test: seq<T>)

  datatype SplitError = NotEnoughRows

  function AtLeastOne(n: int): nat {
    if n > 1 then n else 1
  }

  /** `roundedValid` and `roundedTest` are `int(round(n * valid))` and `int(round(n * test))`. */
  function SplitRows<T>(rows: seq<T>, roundedValid: int, roundedTest: int): Result<Split<T>, SplitError> {
    var nTest := AtLeastOne(roundedTest);
    var nValid := AtLeastOne(roundedValid);
    var nTrain := |rows| - nValid - nTest;
    if nTrain < 1 then Failure(NotEnoughRows)
    else Success(Split(rows[..nTrain], rows[nTrain..nTrain + nValid], rows[nTrain + nValid..]))
  }

  predicate Nearest(r: int, x: real) {
    -0.5 <= r as real - x <= 0.5
  }

  /** With the default fractions, 15% and 20%, three rows are enough and fewer are not. */
  lemma {:induction false} DefaultSplitNeedsThree<T>(rows: seq<T>, roundedValid: int, roundedTest: int)
    requires Nearest(roundedValid, |rows| as real * 0.15) && Nearest(roundedTest, |rows| as real * 0.2)
    ensures SplitRows(rows, roundedValid, roundedTest).Success? <==> |rows| >= 3
  {
    var n := |rows|;
    if n >= 4 {
      assert roundedValid as real + roundedTest as real <= n as real * 0.35 + 1.0;
      assert roundedValid as real <= n as real * 0.15 + 0.5 && roundedTest as real <= n as real * 0.2 + 0.5;
    }
  }

  /** Whenever it succeeds, at any fractions, the parts are non-empty and put together give the rows back. */
  lemma {:induction false} PartsMakeWhole<T>(rows: seq<T>, roundedValid: int, roundedTest: int)
    requires SplitRows(rows, roundedValid, roundedTest).Success?
    ensures var s := SplitRows(rows, roundedValid, roundedTest).value;
            s.train + s.valid + s.test == rows && s.train != [] && s.valid != [] && s.test != []
  {
  }

  /**
   With the default fractions, the validation part is the rounded 15% and the test part the rounded 20%, each at
   least one row.
   */
  lemma {:induction false} PartSizes<T>(rows: seq<T>, roundedValid: int, roundedTest: int)
    requires Nearest(roundedValid, |rows| as real * 0.15) && Nearest(roundedTest, |rows| as real * 0.2)
    requires SplitRows(rows, roundedValid, roundedTest).Success?
    ensures var s := SplitRows(rows, roundedValid, roundedTest).value;
            && |s.valid| == (if roundedValid <= 1 then 1 else roundedValid)
            && |s.test| == (if roundedTest <= 1 then 1 else roundedTest)
            && |s.train| == |rows| - |s.valid| - |s.test|
            && (|rows| >= 10 ==> -0.5 <= |s.valid| as real - 0.15 * |rows| as real <= 0.5)
            && (|rows| >= 10 ==> -0.5 <= |s.test| as real - 0.2 * |rows| as real <= 0.5)
  {
  }

  /** Ordered as the frames are: by date, then by row id under some order of ids. */
  ghost predicate FrameOrder<T>(rows: seq<Row<T>>, before: (string, string) -> bool) {
    forall i, j :: 0 <= i < j < |rows| ==>
      rows[i].date < rows[j].date || (rows[i].date == rows[j].date && before(rows[i].rowId, rows[j].rowId))
  }

  /** The dates of a frame never decrease from one place to a later one. */
  lemma {:induction false} DatesAcross<T>(rows: seq<Row<T>>, before: (string, string) -> bool, m: nat, a: Row<T>,
                                          b: Row<T>)
    requires FrameOrder(rows, before) && m <= |rows| && a in rows[..m] && b in rows[m..]
    ensures a.date <= b.date
  {
    var i :| 0 <= i < m && rows[i] == a;
    var j :| 0 <= j < |rows| - m && rows[m..][j] == b;
    assert rows[m + j] == b;
  }

  /** On such a frame no training row is dated after a validation row, and no validation row after a test row. */
  lemma {:induction false} TrainsOnThePast<T>(rows: seq<Row<T>>, before: (string, string) -> bool,
                                              roundedValid: int, roundedTest: int)
    requires FrameOrder(rows, before) && SplitRows(rows, roundedValid, roundedTest).Success?
    ensures var s := SplitRows(rows, roundedValid, roundedTest).value;
            && (forall a, b :: a in s.train && b in s.valid ==> a.date <= b.date)
            && (forall a, b :: a in s.valid && b in s.test ==> a.date <= b.date)
  {
    var s := SplitRows(rows, roundedValid, roundedTest).value;
    var m, n := |s.train|, |s.train| + |s.valid|;
    assert s.valid + s.test == rows[m..] && s.train + s.valid == rows[..n] && s.test == rows[n..];
    forall a, b | a in s.train && b in s.valid ensures a.date <= b.date {
      DatesAcross(rows, before, m, a, b);
    }
    forall a, b | a in s.valid && b in s.test ensures a.date <= b.date {
      DatesAcross(rows, before, n, a, b);
    }
  }
}
