/** The transcript's display layout: wrapped-row counts with prefix sums, patched at the tail. */
module LayoutCache {
  import opened Basics

  const GENERATIONS: nat := 0x1_0000_0000_0000_0000

  datatype Line = Line(text: string)

  /** Display rows a line wraps to at a width. */
  type RowCount = (Line, nat) -> nat

  function AtLeastOne(n: nat): nat { if n < 1 then 1 else n }

  // ---- the full recomputation ----

  function Rows(rowCount: RowCount, lines: seq<Line>, width: nat): (rows: seq<nat>)
    ensures |rows| == |lines|
    ensures forall i | 0 <= i < |lines| :: rows[i] == AtLeastOne(rowCount(lines[i], width))
  {
    if lines == [] then []
    else Rows(rowCount, lines[..|lines| - 1], width) + [AtLeastOne(rowCount(lines[|lines| - 1], width))]
  }

  /** First display row of each line, then the total. */
  function Prefixes(rows: seq<nat>): (prefix: seq<nat>)
    ensures |prefix| == |rows| + 1 && prefix[0] == 0
  {
    if rows == [] then [0]
    else
      var before := Prefixes(rows[..|rows| - 1]);
      before + [SatAdd(before[|rows| - 1], rows[|rows| - 1])]
  }

  /** Prefix sums of a prefix are a prefix of the prefix sums: a tail can be patched alone. */
  lemma {:induction false} PrefixesCut(rows: seq<nat>, start: nat)
    requires start <= |rows|
    ensures Prefixes(rows[..start]) == Prefixes(rows)[..start + 1]
  {
    var n := |rows|;
    if start < n {
      PrefixesCut(rows[..n - 1], start);
      assert rows[..n - 1][..start] == rows[..start];
    } else {
      assert rows[..n] == rows;
    }
  }

  function Sum(rows: seq<nat>): nat {
    if rows == [] then 0 else Sum(rows[..|rows| - 1]) + rows[|rows| - 1]
  }

  lemma {:induction false} PrefixesStep(rows: seq<nat>)
    requires Sum(rows) <= U64_MAX
    ensures var p := Prefixes(rows);
            p[|rows|] == Sum(rows) && forall i | 0 <= i < |rows| :: p[i + 1] == p[i] + rows[i]
  {
    if rows != [] {
      var n := |rows| - 1;
      PrefixesStep(rows[..n]);
      assert Prefixes(rows) == Prefixes(rows[..n]) + [Prefixes(rows[..n])[n] + rows[n]];
      hide Prefixes;
    }
  }

  /** Each prefix sum is the sum of the rows before it, or the greatest number when that is too small for it. */
  lemma {:induction false} PrefixesSaturate(rows: seq<nat>, i: nat)
    requires i <= |rows|
    ensures Prefixes(rows)[i] == Min(Sum(rows[..i]), U64_MAX)
  {
    if rows != [] {
      var n := |rows| - 1;
      if i <= n {
        PrefixesSaturate(rows[..n], i);
        assert rows[..n][..i] == rows[..i];
      } else {
        PrefixesSaturate(rows[..n], n);
        assert rows[..n][..n] == rows[..n] && rows[..i] == rows;
      }
    }
  }

  lemma {:induction false} Ascends(p: seq<nat>, i: nat, j: nat)
    requires i < j < |p| && forall k | 0 <= k < |p| - 1 :: p[k] < p[k + 1]
    ensures p[i] < p[j]
    decreases j
  {
    assert p[j - 1] < p[j - 1 + 1];
    if i < j - 1 {
      Ascends(p, i, j - 1);
    }
  }

  /** Without saturation the prefix sums are sums, strictly increasing when every line has a row. */
  lemma PrefixesAreSums(rows: seq<nat>)
    requires Sum(rows) <= U64_MAX && forall i | 0 <= i < |rows| :: rows[i] > 0
    ensures var p := Prefixes(rows);
            && p[|rows|] == Sum(rows)
            && (forall i | 0 <= i < |rows| :: p[i + 1] == p[i] + rows[i])
            && (forall i, j | 0 <= i < j <= |rows| :: p[i] < p[j])
  {
    hide Prefixes, Sum;
    PrefixesStep(rows);
    var p := Prefixes(rows);
    forall i, j | 0 <= i < j <= |rows| ensures p[i] < p[j] {
      Ascends(p, i, j);
    }
  }

  /** One more line adds its rows, and their running total. */
  lemma OneMoreLine(rowCount: RowCount, lines: seq<Line>, i: nat, width: nat)
    requires i < |lines|
    ensures var rows := Rows(rowCount, lines[..i], width);
            var count := AtLeastOne(rowCount(lines[i], width));
            && Rows(rowCount, lines[..i + 1], width) == rows + [count]
            && Prefixes(rows + [count]) == Prefixes(rows) + [SatAdd(Prefixes(rows)[i], count)]
  {
    var rows := Rows(rowCount, lines[..i], width);
    var count := AtLeastOne(rowCount(lines[i], width));
    assert lines[..i + 1][..i] == lines[..i];
    assert (rows + [count])[..i] == rows;
  }

  lemma NoLines(rowCount: RowCount, width: nat)
    ensures Rows(rowCount, [], width) == [] && Prefixes([]) == [0]
  {
  }

  // ---- edits ----

  datatype Edit =
    | Rebuild(lines: seq<Line>)
    | Splice(start: nat, tail: seq<Line>, width: nat)
    | Draw(width: nat)
    | Invalidate
    | Clear

  function Edited(lines: seq<Line>, edit: Edit): seq<Line> {
    match edit
    case Rebuild(all) => all
    case Splice(start, tail, _) => if start <= |lines| then lines[..start] + tail else lines
    case Draw(_) => lines
    case Invalidate => lines
    case Clear => []
  }

  // ---- the layout ----

  datatype Layout = Layout(width: nat, generation: nat, rowCounts: seq<nat>, prefix: seq<nat>) {
    function TotalRows(): nat {
      if prefix == [] then 0 else prefix[|prefix| - 1]
    }
  }

  const CLEARED: Layout := Layout(0, 0, [], [])

  /** A layout that says what a full recomputation at its width says. */
  ghost predicate Exact(layout: Layout, rowCount: RowCount, lines: seq<Line>) {
    layout.rowCounts == Rows(rowCount, lines, layout.width) && layout.prefix == Prefixes(layout.rowCounts)
  }

  /** Number of leading entries not above `row`, by binary search. */
  method PartitionPoint(s: seq<nat>, row: nat) returns (k: nat)
    requires forall i, j | 0 <= i < j < |s| :: s[i] <= s[j]
    ensures k <= |s|
    ensures forall i | 0 <= i < k :: s[i] <= row
    ensures forall i | k <= i < |s| :: row < s[i]
  {
    var lo, hi := 0, |s|;
    while lo < hi
      invariant 0 <= lo <= hi <= |s|
      invariant forall i | 0 <= i < lo :: s[i] <= row
      invariant forall i | hi <= i < |s| :: row < s[i]
    {
      var mid := (lo + hi) / 2;
      if s[mid] <= row { lo := mid + 1; } else { hi := mid; }
    }
    k := lo;
  }

  /** The line and offset a display row falls in. */
  ghost predicate Located(layout: Layout, row: nat, index: nat, offset: nat) {
    && |layout.prefix| == |layout.rowCounts| + 1 && index < |layout.rowCounts|
    && layout.prefix[index] + offset == row < layout.prefix[index + 1]
  }

  /** `Locate` inverts the prefix sums, and clamps past the end to the last row. */
  method Locate(layout: Layout, displayRow: nat) returns (index: nat, offset: nat)
    requires layout.prefix == Prefixes(layout.rowCounts) || layout == CLEARED
    requires (forall i | 0 <= i < |layout.rowCounts| :: layout.rowCounts[i] > 0) && Sum(layout.rowCounts) <= U64_MAX
    ensures layout.rowCounts == [] ==> (index, offset) == (0, 0)
    ensures layout.rowCounts != [] ==>
              var last := layout.TotalRows() - 1;
              && last >= 0
              && Located(layout, if displayRow < last then displayRow else last, index, offset)
  {
    if layout.rowCounts == [] {
      return 0, 0;
    }
    PrefixesAreSums(layout.rowCounts);
    var n := |layout.rowCounts|;
    assert layout.prefix[0] < layout.prefix[n];
    var row := if displayRow < layout.TotalRows() - 1 then displayRow else layout.TotalRows() - 1;
    var base := PartitionPoint(layout.prefix, row);
    assert layout.prefix[0] <= row < layout.prefix[n];
    index := if base - 1 < n - 1 then base - 1 else n - 1;
    offset := row - layout.prefix[index];
  }

  /** At most one line and offset holds a row. */
  lemma LocatedOnce(layout: Layout, row: nat, i: nat, a: nat, j: nat, b: nat)
    requires layout.prefix == Prefixes(layout.rowCounts)
    requires (forall i | 0 <= i < |layout.rowCounts| :: layout.rowCounts[i] > 0) && Sum(layout.rowCounts) <= U64_MAX
    requires Located(layout, row, i, a) && Located(layout, row, j, b)
    ensures i == j && a == b
  {
    PrefixesAreSums(layout.rowCounts);
  }

  /** Pushes the row counts of a tail and their running total. */
  method PushRows(kept: seq<nat>, keptPrefix: seq<nat>, newRowCounts: seq<nat>)
    returns (rows: seq<nat>, prefix: seq<nat>)
    requires keptPrefix == Prefixes(kept)
    ensures |rows| == |kept| + |newRowCounts| && rows[..|kept|] == kept
    ensures forall k | 0 <= k < |newRowCounts| :: rows[|kept| + k] == AtLeastOne(newRowCounts[k])
    ensures prefix == Prefixes(rows)
  {
    rows, prefix := kept, keptPrefix;
    var total := prefix[|kept|];
    for i := 0 to |newRowCounts|
      invariant |rows| == |kept| + i && rows[..|kept|] == kept
      invariant forall k | 0 <= k < i :: rows[|kept| + k] == AtLeastOne(newRowCounts[k])
      invariant prefix == Prefixes(rows) && total == prefix[|kept| + i]
    {
      var count := AtLeastOne(newRowCounts[i]);
      assert (rows + [count])[..|rows|] == rows;
      rows := rows + [count];
      total := SatAdd(total, count);
      prefix := prefix + [total];
    }
  }

  class TranscriptRenderCache {
    const rowCount: RowCount
    var lines: seq<Line>
    var generation: nat
    var layout: Layout

    /** The layout is exact for `known` lines, or holds nothing. */
    ghost predicate ExactFor(known: seq<Line>)
      reads this
    {
      layout == CLEARED || (layout.generation == generation && Exact(layout, rowCount, known))
    }

    ghost predicate Valid()
      reads this
    {
      generation < GENERATIONS && ExactFor(lines)
    }

    constructor (rowCount: RowCount)
      ensures Valid() && lines == [] && this.rowCount == rowCount
    {
      this.rowCount := rowCount;
      lines, generation, layout := [], 0, CLEARED;
    }

    method Reset()
      modifies this
      ensures Valid() && lines == []
    {
      lines, generation, layout := [], 0, CLEARED;
    }

    method InvalidateLayout()
      requires generation < GENERATIONS
      modifies `layout
      ensures Valid() && layout == CLEARED
    {
      layout := CLEARED;
    }

    /** Reported after any change of `lines`. */
    method StructuralRebuilt()
      requires generation < GENERATIONS
      modifies `generation, `layout
      ensures Valid() && layout == CLEARED && generation == (old(generation) + 1) % GENERATIONS
    {
      generation := (generation + 1) % GENERATIONS;
      InvalidateLayout();
    }

    /** Reported after `lines` changed from `before` at and after `start` only, with the row counts of
        the new tail at `width`. */
    method StructuralTailUpdated(start: nat, width: nat, newRowCounts: seq<nat>, ghost before: seq<Line>)
      requires generation < GENERATIONS && ExactFor(before)
      requires start <= |before| && start <= |lines| && lines[..start] == before[..start]
      requires start + |newRowCounts| == |lines| ==>
                 forall i | 0 <= i < |newRowCounts| :: newRowCounts[i] == rowCount(lines[start + i], width)
      modifies `generation, `layout
      ensures Valid() && generation == (old(generation) + 1) % GENERATIONS
      ensures layout == CLEARED || layout.width == width
      ensures old(layout) != CLEARED && old(layout.width) == width && start + |newRowCounts| == |lines| ==>
                layout != CLEARED
    {
      hide Rows, Prefixes;
      var previousGeneration := generation;
      generation := (generation + 1) % GENERATIONS;
      var canPatch :=
        && layout.width == width
        && layout.generation == previousGeneration
        && start <= |layout.rowCounts|
        && |layout.prefix| == |layout.rowCounts| + 1
        && start + |newRowCounts| == |lines|;
      if !canPatch {
        InvalidateLayout();
        return;
      }
      PrefixesCut(layout.rowCounts, start);
      var rows, prefix := PushRows(layout.rowCounts[..start], layout.prefix[..start + 1], newRowCounts);
      TailRows(before, start, width, newRowCounts, rows);
      layout := Layout(width, generation, rows, prefix);
    }

    lemma TailRows(before: seq<Line>, start: nat, width: nat, newRowCounts: seq<nat>, rows: seq<nat>)
      requires start <= |before| && start <= |lines| && lines[..start] == before[..start]
      requires |rows| == |lines| == start + |newRowCounts|
      requires rows[..start] == Rows(rowCount, before, width)[..start]
      requires forall i | 0 <= i < |newRowCounts| :: newRowCounts[i] == rowCount(lines[start + i], width)
      requires forall i | 0 <= i < |newRowCounts| :: rows[start + i] == AtLeastOne(newRowCounts[i])
      ensures rows == Rows(rowCount, lines, width)
    {
      forall i | 0 <= i < |rows| ensures rows[i] == Rows(rowCount, lines, width)[i] {
        if i < start {
          assert lines[i] == lines[..start][i] == before[..start][i] == before[i];
          assert rows[i] == rows[..start][i];
        } else {
          assert rows[start + (i - start)] == AtLeastOne(newRowCounts[i - start]);
        }
      }
    }

    /** Makes the layout exact at `width`. Only a cleared layout of no lines, wanted at width 0 in
        generation 0, is taken for fresh as it is: its prefix sums lack even the leading 0. */
    method EnsureLayout(width: nat)
      requires Valid()
      modifies `layout
      ensures Valid()
      ensures layout.width == width && layout.generation == generation
      ensures layout.rowCounts == Rows(rowCount, lines, width)
      ensures layout.prefix == Prefixes(layout.rowCounts) <==>
              !(old(layout) == CLEARED && lines == [] && width == 0 && generation == 0)
      ensures layout.TotalRows() == Prefixes(layout.rowCounts)[|lines|]
    {
      hide Rows, Prefixes, SatAdd;
      NoLines(rowCount, width);
      if layout.width == width && layout.generation == generation && |layout.rowCounts| == |lines| {
        return;
      }
      var rows: seq<nat>, prefix: seq<nat>, total := [], [0], 0;
      for i := 0 to |lines|
        invariant rows == Rows(rowCount, lines[..i], width)
        invariant prefix == Prefixes(rows) && total == prefix[i]
      {
        OneMoreLine(rowCount, lines, i, width);
        var count := AtLeastOne(rowCount(lines[i], width));
        rows := rows + [count];
        total := SatAdd(total, count);
        prefix := prefix + [total];
      }
      assert lines[..|lines|] == lines;
      layout := Layout(width, generation, rows, prefix);
    }

    /** An edit of the lines together with its report. */
    method Apply(edit: Edit)
      requires Valid()
      modifies this
      ensures Valid() && lines == Edited(old(lines), edit)
    {
      match edit
      case Rebuild(all) =>
        lines := all;
        StructuralRebuilt();
      case Splice(start, tail, width) =>
        if start <= |lines| {
          SpliceTail(start, tail, width);
        }
      case Draw(width) => EnsureLayout(width);
      case Invalidate => InvalidateLayout();
      case Clear => Reset();
    }

    method SpliceTail(start: nat, tail: seq<Line>, width: nat)
      requires Valid() && start <= |lines|
      modifies this
      ensures Valid() && lines == old(lines)[..start] + tail
    {
      ghost var before := lines;
      lines := lines[..start] + tail;
      var count := rowCount;
      var counts := seq(|tail|, k requires 0 <= k < |tail| => count(tail[k], width));
      StructuralTailUpdated(start, width, counts, before);
    }
  }

  // ---- whole runs ----

  function LinesAfter(edits: seq<Edit>): seq<Line> {
    if edits == [] then []
    else
      var before := LinesAfter(edits[..|edits| - 1]);
      Edited(before, edits[|edits| - 1])
  }

  /** After any run of reported edits and drawings, drawing at a width gives the row counts and row
      total of a full recomputation; no bound on the number of generations is needed. */
  method DrawAfter(rowCount: RowCount, edits: seq<Edit>, width: nat) returns (layout: Layout)
    ensures layout.rowCounts == Rows(rowCount, LinesAfter(edits), width)
    ensures layout.TotalRows() == Prefixes(layout.rowCounts)[|layout.rowCounts|]
    ensures width > 0 || LinesAfter(edits) != [] ==> layout.prefix == Prefixes(layout.rowCounts)
  {
    var cache := new TranscriptRenderCache(rowCount);
    for i := 0 to |edits|
      invariant fresh(cache) && cache.Valid() && cache.rowCount == rowCount
      invariant cache.lines == LinesAfter(edits[..i])
    {
      assert edits[..i + 1][..i] == edits[..i];
      cache.Apply(edits[i]);
    }
    assert edits[..|edits|] == edits;
    cache.EnsureLayout(width);
    layout := cache.layout;
  }
}
