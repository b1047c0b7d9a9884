/** Generic sequence helpers shared by the likelihood code and the alignment parser. */
module Sequences {

  /** The length of the shortest row; 0 when there are no rows. */
  function MinLen<T>(rows: seq<seq<T>>): (m: nat)
    ensures forall i :: 0 <= i < |rows| ==> m <= |rows[i]|
    ensures |rows| > 0 ==> exists i :: 0 <= i < |rows| && m == |rows[i]|
  {
    if |rows| == 0 then 0
    else if |rows| == 1 then |rows[0]|
    else
      var rest := MinLen(rows[1..]);
      assert forall i :: 1 <= i < |rows| ==> rows[1..][i - 1] == rows[i];
      if |rows[0]| <= rest then |rows[0]| else rest
  }

  /**
   * Python's zip(*rows): the j-th output tuple gathers the j-th entry of every
   * row, and there are only as many tuples as the shortest row is long.
   */
  function Zip<T>(rows: seq<seq<T>>): (cols: seq<seq<T>>)
    ensures |rows| == 0 ==> cols == []
    ensures |rows| > 0 ==> |cols| == MinLen(rows)
    ensures forall j :: 0 <= j < |cols| ==> |cols[j]| == |rows|
    ensures forall j, i :: 0 <= j < |cols| && 0 <= i < |rows| ==> j < |rows[i]| && cols[j][i] == rows[i][j]
  {
    if |rows| == 0 then []
    else seq(MinLen(rows), j requires 0 <= j < MinLen(rows) => seq(|rows|, i requires 0 <= i < |rows| => rows[i][j]))
  }

  /** On a non-empty rectangle of rows, zipping twice gives the rows back. */
  lemma ZipTwice<T>(rows: seq<seq<T>>, width: nat)
    requires |rows| > 0 && width > 0 && forall i :: 0 <= i < |rows| ==> |rows[i]| == width
    ensures |Zip(rows)| == width && Zip(Zip(rows)) == rows
  {
    var cols := Zip(rows);
    var back := Zip(cols);
    assert |back| == |rows|;
    forall i | 0 <= i < |rows|
      ensures back[i] == rows[i]
    {
      assert |back[i]| == |rows[i]|;
    }
  }
}
