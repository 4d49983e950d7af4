/** The CPU bar along the bottom of the 128x32 panel: a one-pixel line whose
    length follows the current load and a three-pixel tick at the peak. */
module Display {

  /** Panel size and the rows the bar uses (oled_status.py:9, 14-15). */
  const Width: int := 128
  const Height: int := 32
  const BottomY: int := 31
  const PeakTopY: int := 29

  /** Python's `int()` on a float: truncation toward zero. */
  function Truncate(v: real): (x: int)
    ensures 0.0 <= v ==> 0 <= x && x as real <= v < x as real + 1.0
    ensures v < 0.0 ==> x <= 0 && x as real - 1.0 < v <= x as real
  {
    if v >= 0.0 then v.Floor else -((-v).Floor)
  }

  /** `int((pct / 100.0) * (W - 1))`: the column a percentage maps to. A
      percentage in [0, 100] lands on the panel, 100 on its last column. */
  function BarColumn(pct: real): (x: int)
    ensures 0.0 <= pct <= 100.0 ==> 0 <= x <= Width - 1
    ensures pct == 100.0 ==> x == Width - 1
  {
    Truncate((pct / 100.0) * (Width - 1) as real)
  }

  /** The bar shows (its column is positive) exactly when the load reaches
      one column's worth, 100/127 percent. */
  lemma BarShownIff(pct: real)
    requires 0.0 <= pct
    ensures BarColumn(pct) > 0 <==> pct * (Width - 1) as real >= 100.0
  {
  }

  /** A line drawn from (x0, y0) to (x1, y1). */
  datatype Line = Line(x0: int, y0: int, x1: int, y1: int)

  predicate OnPanel(l: Line)
  {
    0 <= l.x0 < Width && 0 <= l.x1 < Width && 0 <= l.y0 < Height && 0 <= l.y1 < Height
  }

  /** The columns of the current-load bar and of the peak tick. */
  datatype Bar = Bar(xCur: int, xPeak: int)

  function BarFor(cur: real, peak: real): (b: Bar)
    ensures 0.0 <= cur <= peak <= 100.0 ==> 0 <= b.xCur <= b.xPeak <= Width - 1
  {
    Bar(BarColumn(cur), BarColumn(peak))
  }

  /** The lines of the bar: the load line only when its column is positive,
      then always the peak tick. */
  function BarLines(b: Bar): (ls: seq<Line>)
    ensures |ls| == if b.xCur > 0 then 2 else 1
    ensures b.xCur > 0 ==> ls[0] == Line(0, BottomY, b.xCur, BottomY)
    ensures ls[|ls| - 1] == Line(b.xPeak, PeakTopY, b.xPeak, BottomY)
    ensures b.xCur < Width && 0 <= b.xPeak < Width ==> forall l :: l in ls ==> OnPanel(l)
  {
    var tick := Line(b.xPeak, PeakTopY, b.xPeak, BottomY);
    if b.xCur > 0 then [Line(0, BottomY, b.xCur, BottomY), tick] else [tick]
  }
}
