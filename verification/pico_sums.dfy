/**
 * Counts, sums and means over selected grid cells. Each of PICO's
 * per-basin and per-shelf accumulators (followed by the MPI GlobalSum) is
 * a sum over the whole grid of a field, restricted to the cells one
 * `Select` value picks out.
 */
module PicoSums {
  import opened PicoTypes

  /** Which cells an accumulator adds up. */
  datatype Select =
    | InnerShelfOfBasin(inner: int, basin: int)  // continental-shelf cells of a basin
    | ShelfInBasin(shelf: int, basin: int)       // cells of a shelf that lie in a basin
    | WholeShelf(shelf: int)                     // all cells of a shelf
    | BoxOfShelf(shelf: int, box: int)           // cells of box `box` of shelf `shelf` > 0

  predicate Selects(sel: Select, c: Cell) {
    match sel
    case InnerShelfOfBasin(inner, b) => c.contShelf == inner && c.basin == b
    case ShelfInBasin(s, b) => c.shelf == s && c.basin == b
    case WholeShelf(s) => c.shelf == s
    case BoxOfShelf(s, i) => s > 0 && c.shelf == s && c.box == i
  }

  /** Which field an accumulator adds up. */
  datatype Field = Theta | SalinityOcean | Toc | Soc | Overturning

  function FieldOf(f: Field, c: Cell): real {
    match f
    case Theta => c.theta
    case SalinityOcean => c.salinity
    case Toc => c.toc
    case Soc => c.soc
    case Overturning => c.overturning
  }

  /** Number of selected cells (a floating-point counter in the code, so a real here). */
  function Count(g: Grid, sel: Select): (n: real)
    ensures n >= 0.0
  {
    if |g| == 0 then 0.0
    else (if Selects(sel, g[0]) then 1.0 else 0.0) + Count(g[1..], sel)
  }

  /** Sum of a field over the selected cells. */
  function Sum(g: Grid, sel: Select, f: Field): real {
    if |g| == 0 then 0.0
    else (if Selects(sel, g[0]) then FieldOf(f, g[0]) else 0.0) + Sum(g[1..], sel, f)
  }

  /** Mean of a field over the selected cells, or 0 when no cell is selected. */
  function Mean(g: Grid, sel: Select, f: Field): (r: real)
    ensures Count(g, sel) > 0.0 ==> r * Count(g, sel) == Sum(g, sel, f)
    ensures Count(g, sel) == 0.0 ==> r == 0.0
  {
    var n := Count(g, sel);
    if n > 0.0 then Sum(g, sel, f) / n else 0.0
  }

  /** A selected cell makes the count positive. */
  lemma {:induction false} CountPositive(g: Grid, sel: Select, i: int)
    requires 0 <= i < |g| && Selects(sel, g[i])
    ensures Count(g, sel) > 0.0
  {
    if i > 0 {
      CountPositive(g[1..], sel, i - 1);
    }
  }

  /** With no selected cell, the count and every sum are zero. */
  lemma {:induction false} NothingSelected(g: Grid, sel: Select, f: Field)
    requires forall j :: 0 <= j < |g| ==> !Selects(sel, g[j])
    ensures Count(g, sel) == 0.0 && Sum(g, sel, f) == 0.0
  {
    if |g| > 0 {
      assert !Selects(sel, g[0]);
      NothingSelected(g[1..], sel, f);
    }
  }

  /** Sums and counts only depend on the selected cells and the summed field. */
  lemma {:induction false} SumsAgree(g: Grid, h: Grid, sel: Select, f: Field)
    requires |g| == |h|
    requires forall j :: 0 <= j < |g| ==> (Selects(sel, g[j]) <==> Selects(sel, h[j]))
    requires forall j :: 0 <= j < |g| && Selects(sel, g[j]) ==> FieldOf(f, g[j]) == FieldOf(f, h[j])
    ensures Count(g, sel) == Count(h, sel) && Sum(g, sel, f) == Sum(h, sel, f)
  {
    if |g| > 0 {
      assert Selects(sel, g[0]) <==> Selects(sel, h[0]);
      SumsAgree(g[1..], h[1..], sel, f);
    }
  }

  /** `x` added once for every selected cell. */
  function SumOfConstant(g: Grid, sel: Select, x: real): real {
    if |g| == 0 then 0.0
    else (if Selects(sel, g[0]) then x else 0.0) + SumOfConstant(g[1..], sel, x)
  }

  /** Adding `x` once per selected cell is multiplying it by the count. */
  lemma {:induction false} SumOfConstantIsProduct(g: Grid, sel: Select, x: real)
    ensures SumOfConstant(g, sel, x) == x * Count(g, sel)
  {
    if |g| > 0 {
      SumOfConstantIsProduct(g[1..], sel, x);
      Distribute(x, Count(g[1..], sel));
    }
  }

  lemma Distribute(x: real, n: real)
    ensures x * (1.0 + n) == x + x * n
  {
  }

  /** Values bounded below by `lo` sum to at least `lo` per selected cell. */
  lemma {:induction false} SumAtLeast(g: Grid, sel: Select, f: Field, lo: real)
    requires forall j :: 0 <= j < |g| && Selects(sel, g[j]) ==> lo <= FieldOf(f, g[j])
    ensures SumOfConstant(g, sel, lo) <= Sum(g, sel, f)
  {
    if |g| > 0 {
      var rest := g[1..];
      assert forall j :: 0 <= j < |rest| ==> rest[j] == g[j + 1];
      SumAtLeast(rest, sel, f, lo);
    }
  }

  /** Values bounded above by `hi` sum to at most `hi` per selected cell. */
  lemma {:induction false} SumAtMost(g: Grid, sel: Select, f: Field, hi: real)
    requires forall j :: 0 <= j < |g| && Selects(sel, g[j]) ==> FieldOf(f, g[j]) <= hi
    ensures Sum(g, sel, f) <= SumOfConstant(g, sel, hi)
  {
    if |g| > 0 {
      var rest := g[1..];
      assert forall j :: 0 <= j < |rest| ==> rest[j] == g[j + 1];
      SumAtMost(rest, sel, f, hi);
    }
  }

  /** Over a nonempty selection, a larger constant gives a strictly larger sum. */
  lemma {:induction false} SumOfConstantStrict(g: Grid, sel: Select, x: real, y: real)
    requires x < y && Count(g, sel) > 0.0
    ensures SumOfConstant(g, sel, x) < SumOfConstant(g, sel, y)
  {
    if Count(g[1..], sel) > 0.0 {
      SumOfConstantStrict(g[1..], sel, x, y);
      SumOfConstantMonotone(g[1..], sel, x, y);
    } else {
      SumOfConstantMonotone(g[1..], sel, x, y);
    }
  }

  lemma {:induction false} SumOfConstantMonotone(g: Grid, sel: Select, x: real, y: real)
    requires x <= y
    ensures SumOfConstant(g, sel, x) <= SumOfConstant(g, sel, y)
  {
    if |g| > 0 {
      SumOfConstantMonotone(g[1..], sel, x, y);
    }
  }

  /** A mean over a nonempty selection lies between the smallest and largest value. */
  lemma MeanBetween(g: Grid, sel: Select, f: Field, lo: real, hi: real)
    requires Count(g, sel) > 0.0
    requires forall j :: 0 <= j < |g| && Selects(sel, g[j]) ==> lo <= FieldOf(f, g[j]) <= hi
    ensures lo <= Mean(g, sel, f) <= hi
  {
    MeanTimesCount(g, sel, f);
    AverageBetween(g, sel, f, Mean(g, sel, f), lo, hi);
  }

  lemma MeanTimesCount(g: Grid, sel: Select, f: Field)
    requires Count(g, sel) > 0.0
    ensures Mean(g, sel, f) * Count(g, sel) == Sum(g, sel, f)
  {
  }

  /** Any `m` with m * count == sum lies between the smallest and largest value. */
  lemma AverageBetween(g: Grid, sel: Select, f: Field, m: real, lo: real, hi: real)
    requires Count(g, sel) > 0.0
    requires m * Count(g, sel) == Sum(g, sel, f)
    requires forall j :: 0 <= j < |g| && Selects(sel, g[j]) ==> lo <= FieldOf(f, g[j]) <= hi
    ensures lo <= m <= hi
  {
    SumOfConstantIsProduct(g, sel, m);
    SumAtLeast(g, sel, f, lo);
    SumAtMost(g, sel, f, hi);
    if m < lo {
      SumOfConstantStrict(g, sel, m, lo);
    }
    if hi < m {
      SumOfConstantStrict(g, sel, hi, m);
    }
  }

  /** Number of cells of shelf `s` in basins `lo` .. `hi`-1. */
  function ShelfCountOverBasins(g: Grid, s: int, lo: int, hi: int): real
    decreases hi - lo
  {
    if lo >= hi then 0.0
    else Count(g, ShelfInBasin(s, lo)) + ShelfCountOverBasins(g, s, lo + 1, hi)
  }

  /** Peeling the first cell off every per-basin count of a basin range. */
  lemma {:induction false} ShelfCountOverBasinsStep(g: Grid, s: int, lo: int, hi: int)
    requires |g| > 0
    ensures ShelfCountOverBasins(g, s, lo, hi)
         == (if g[0].shelf == s && lo <= g[0].basin < hi then 1.0 else 0.0)
            + ShelfCountOverBasins(g[1..], s, lo, hi)
    decreases hi - lo
  {
    if lo < hi {
      ShelfCountOverBasinsStep(g, s, lo + 1, hi);
    }
  }

  /** When every basin id lies in [0, n), the per-basin counts of a shelf add up to its size. */
  lemma {:induction false} ShelfCountSplitsOverBasins(g: Grid, s: int, n: int)
    requires forall j :: 0 <= j < |g| ==> 0 <= g[j].basin < n
    ensures ShelfCountOverBasins(g, s, 0, n) == Count(g, WholeShelf(s))
  {
    if |g| > 0 {
      ShelfCountOverBasinsStep(g, s, 0, n);
      ShelfCountSplitsOverBasins(g[1..], s, n);
    } else {
      ShelfCountOverBasinsEmpty(g, s, 0, n);
    }
  }

  lemma {:induction false} ShelfCountOverBasinsEmpty(g: Grid, s: int, lo: int, hi: int)
    requires |g| == 0
    ensures ShelfCountOverBasins(g, s, lo, hi) == 0.0
    decreases hi - lo
  {
    if lo < hi {
      ShelfCountOverBasinsEmpty(g, s, lo + 1, hi);
    }
  }
}
