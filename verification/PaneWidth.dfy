/** Pane widths as percentages in basis points, and their conversion to terminal columns and back. */
module PaneWidth {
  import opened Basics

  const MIN_BASIS_POINTS: nat := 2500
  const MAX_BASIS_POINTS: nat := 10000
  const U16_MAX: nat := 0xFFFF
  const U32_MAX: nat := 0xFFFF_FFFF

  type u16 = n: nat | n <= U16_MAX
  type Percent = p: nat | MIN_BASIS_POINTS <= p <= MAX_BASIS_POINTS witness MIN_BASIS_POINTS

  function Columns(p: Percent, total: u16): u16 {
    Min((total * p + 5000) / 10000, total)
  }

  function FromColumns(columns: u16, total: u16): Percent {
    if total == 0 then MIN_BASIS_POINTS
    else
      var nearest := (Min(columns, total) * 10000 + total / 2) / total;
      if nearest < MIN_BASIS_POINTS then MIN_BASIS_POINTS
      else if nearest > MAX_BASIS_POINTS then MAX_BASIS_POINTS
      else nearest
  }

  // ---- division by bounds ----

  lemma DivBounds(a: nat, b: nat)
    requires b > 0
    ensures a / b * b <= a < a / b * b + b
  {
  }

  lemma DivIs(a: nat, b: nat, q: nat)
    requires b > 0 && q * b <= a < q * b + b
    ensures a / b == q
  {
    DivBounds(a, b);
    var r := a / b;
    if r < q {
      Scale(r + 1, q, b);
    } else if q < r {
      Scale(q + 1, r, b);
    }
  }

  lemma Scale(a: nat, b: nat, c: nat)
    requires a <= b
    ensures a * c <= b * c
  {
  }

  /** `total * p` basis-point columns are within half a column of the columns shown. */
  lemma ColumnsNear(p: Percent, total: u16)
    ensures var c := Columns(p, total);
            10000 * c <= total * p + 5000 < 10000 * c + 10000
  {
    Scale(p, 10000, total);
    DivBounds(total * p + 5000, 10000);
  }

  lemma ColumnsIs(p: Percent, total: u16, c: nat)
    requires c <= total && 10000 * c <= total * p + 5000 < 10000 * c + 10000
    ensures Columns(p, total) == c
  {
    DivIs(total * p + 5000, 10000, c);
  }

  lemma ColumnsMonotone(p: Percent, q: Percent, total: u16)
    requires p <= q
    ensures Columns(p, total) <= Columns(q, total)
  {
    Scale(p, q, total);
    ColumnsNear(p, total);
    ColumnsNear(q, total);
  }

  /** At or above a quarter of the width, the percentage is the nearest one. */
  lemma FromColumnsNear(c: u16, total: u16)
    requires 0 < total && c <= total && 4 * c >= total
    ensures var q := FromColumns(c, total);
            q * total <= 10000 * c + total / 2 < q * total + total
  {
    var a := c * 10000 + total / 2;
    DivBounds(a, total);
    WithinPercent(c, total, a / total);
  }

  lemma WithinPercent(c: u16, total: u16, q: nat)
    requires c <= total && 4 * c >= total && q * total <= c * 10000 + total / 2 < q * total + total
    ensures MIN_BASIS_POINTS <= q <= MAX_BASIS_POINTS
  {
    if q < MIN_BASIS_POINTS {
      Scale(q + 1, MIN_BASIS_POINTS, total);
    }
    if q > MAX_BASIS_POINTS {
      Scale(MAX_BASIS_POINTS + 1, q, total);
    }
  }

  lemma FromColumnsBelow(c: u16, total: u16)
    requires 0 < total && 4 * c < total
    ensures FromColumns(c, total) == MIN_BASIS_POINTS
  {
    var a := c * 10000 + total / 2;
    DivBounds(a, total);
    if a / total > MIN_BASIS_POINTS {
      Scale(MIN_BASIS_POINTS + 1, a / total, total);
    }
  }

  /** Without columns there is nothing to divide; a width beyond all of them is all of them. */
  lemma Clamped(c: u16, p: Percent, total: u16)
    ensures Columns(p, 0) == 0 && FromColumns(c, 0) == MIN_BASIS_POINTS
    ensures c >= total > 0 ==> FromColumns(c, total) == MAX_BASIS_POINTS
  {
    if c >= total > 0 {
      DivIs(total * 10000 + total / 2, total, 10000);
    }
  }

  // ---- the round trips ----

  /** Up to 10000 columns, a width of at least a quarter comes back exactly. */
  lemma WidthComesBack(c: u16, total: u16)
    requires 0 < total <= 10000 && c <= total && 4 * c >= total
    ensures Columns(FromColumns(c, total), total) == c
  {
    var q := FromColumns(c, total);
    FromColumnsNear(c, total);
    if total == 10000 {
      assert q == c;
    }
    ColumnsIs(q, total, c);
  }

  /** Beyond 10000 columns, every percentage comes back exactly. */
  lemma PercentComesBack(p: Percent, total: u16)
    requires total > 10000
    ensures FromColumns(Columns(p, total), total) == p
  {
    var c := Columns(p, total);
    ColumnsNear(p, total);
    DivIs(c * 10000 + total / 2, total, p);
  }

  /** A quarter of the width is the least that is ever shown. */
  lemma QuarterIsNearest(c: u16, total: u16)
    requires 4 * c < total
    ensures c <= Columns(MIN_BASIS_POINTS, total)
  {
    ColumnsNear(MIN_BASIS_POINTS, total);
  }

  /** No drift: committing a shown width and showing it again changes nothing, for every percentage
      and every terminal width. */
  lemma NoDrift(p: Percent, total: u16)
    ensures Columns(FromColumns(Columns(p, total), total), total) == Columns(p, total)
  {
    var c := Columns(p, total);
    if total > 10000 {
      PercentComesBack(p, total);
    } else if total > 0 {
      if 4 * c >= total {
        WidthComesBack(c, total);
      } else {
        FromColumnsBelow(c, total);
        ColumnsMonotone(MIN_BASIS_POINTS, p, total);
        QuarterIsNearest(c, total);
      }
    }
  }

  /** A committed width is shown as itself exactly when some percentage shows it at all; up to 10000
      columns those are the widths of at least a quarter, and the quarter rounded to a column. */
  lemma KeptExactly(c: u16, total: u16)
    requires c <= total
    ensures Columns(FromColumns(c, total), total) == c <==> exists p: Percent :: Columns(p, total) == c
    ensures 0 < total <= 10000 ==>
              (Columns(FromColumns(c, total), total) == c <==> 4 * c >= total || c == Columns(MIN_BASIS_POINTS, total))
  {
    forall p: Percent | Columns(p, total) == c ensures Columns(FromColumns(c, total), total) == c {
      NoDrift(p, total);
    }
    if 0 < total <= 10000 {
      if 4 * c >= total {
        WidthComesBack(c, total);
      } else {
        FromColumnsBelow(c, total);
      }
    }
  }

  /** No intermediate product leaves 32 bits. */
  lemma ProductsFit(p: Percent, columns: u16, total: u16)
    ensures total * p + 5000 <= U32_MAX
    ensures Min(columns, total) * 10000 + total / 2 <= U32_MAX
  {
    Scale(p, 10000, total);
    assert p * total == total * p;
  }
}
