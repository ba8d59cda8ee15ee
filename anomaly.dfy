/** The relabelling of the outlier model's predictions into the `anomaly`
    column that the anomaly chart plots. The model itself is not part of
    this model: its per-row predictions are an input. */
module Anomaly {

  /** A cell of an object column: a number or a string. */
  datatype Cell = Num(n: int) | Text(s: string)

  /** Prediction for a row the outlier model considers normal. */
  const INLIER: int := 1
  /** Prediction for a row the outlier model considers anomalous. */
  const OUTLIER: int := -1
  /** The string written in place of an inlier prediction. */
  const NAN_MARKER: string := "NaN"

  /** `Series.replace(from, to)`: every cell equal to `from` becomes `to`;
      all other cells are kept. */
  function Replace(col: seq<Cell>, from: Cell, to: Cell): (r: seq<Cell>)
    ensures |r| == |col|
    ensures forall i :: 0 <= i < |col| && col[i] == from ==> r[i] == to
    ensures forall i :: 0 <= i < |col| && col[i] != from ==> r[i] == col[i]
  {
    seq(|col|, i requires 0 <= i < |col| => if col[i] == from then to else col[i])
  }

  function Numbers(labels: seq<int>): (r: seq<Cell>)
    ensures |r| == |labels|
    ensures forall i :: 0 <= i < |labels| ==> r[i] == Num(labels[i])
  {
    seq(|labels|, i requires 0 <= i < |labels| => Num(labels[i]))
  }

  /** First `replace(1, "NaN")`, then `replace(-1, 1)`. Outliers end up as
      `1`, inliers as the "NaN" marker, and since the inliers are rewritten
      before the outliers take the value `1`, no two different predictions
      end up as the same cell. */
  function Relabel(labels: seq<int>): (r: seq<Cell>)
    ensures |r| == |labels|
    ensures forall i :: 0 <= i < |labels| ==> (r[i] == Num(1) <==> labels[i] == OUTLIER)
    ensures forall i :: 0 <= i < |labels| ==> (r[i] == Text(NAN_MARKER) <==> labels[i] == INLIER)
    ensures forall i, j :: 0 <= i < |labels| && 0 <= j < |labels| ==>
      (r[i] == r[j] <==> labels[i] == labels[j])
  {
    var marked := Replace(Numbers(labels), Num(INLIER), Text(NAN_MARKER));
    Replace(marked, Num(OUTLIER), Num(1))
  }

  /** The two replacements in the opposite order would merge both classes
      into the marker: the order the script uses is what keeps them apart. */
  lemma ReplaceOrderMatters()
    ensures var swapped := Replace(Replace(Numbers([INLIER, OUTLIER]), Num(OUTLIER), Num(1)),
                                   Num(INLIER), Text(NAN_MARKER));
      swapped[0] == swapped[1] == Text(NAN_MARKER)
    ensures var kept := Relabel([INLIER, OUTLIER]);
      kept[0] == Text(NAN_MARKER) && kept[1] == Num(1)
  {
  }
}
