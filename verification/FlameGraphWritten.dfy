/** internal/output/flamegraph.go:99-106: what the rounding to one decimal does to the tiling of
    the flame layout.  Lengths are in tenths. */
module FlameGraphWritten {
  import opened Text
  import opened Report
  import opened FlameGraph

  // ---------------------------------------------------------------------
  // Rounding

  lemma {:induction false} TenthsMonotone(u: real, v: real)
    requires u <= v
    ensures Tenths(u) <= Tenths(v)
  {}

  lemma {:induction false} TenthsShift(v: real)
    ensures Tenths(v + 10.0) == Tenths(v) + 100
  {
    var down := (v * 10.0).Floor;
    assert ((v + 10.0) * 10.0).Floor == down + 100;
  }

  lemma {:induction false} TenthsWhole(n: int)
    ensures Tenths(n as real) == 10 * n
  {}

  // ---------------------------------------------------------------------
  // The bound

  /** No common point further inside than `slack`. */
  predicate DisjointBut(a: Written, b: Written, slack: int) {
    || a.x + a.width <= b.x + slack || b.x + b.width <= a.x + slack
    || a.y + 10 * a.height <= b.y || b.y + 10 * b.height <= a.y
  }

  lemma {:induction false} PrintedApart(a: Rect, b: Rect)
    requires Disjoint(a, b) && a.y == a.y.Floor as real && b.y == b.y.Floor as real
    ensures DisjointBut(Print(a), Print(b), 1)
  {
    hide Tenths;
    TenthsWhole(a.y.Floor);
    TenthsWhole(b.y.Floor);
  }

  lemma {:induction false} WholeY(f: Frame)
    requires Drawn(f)
    ensures RectOf(f).y == RectOf(f).y.Floor as real && RectOf(f).width >= 1.0
  {}

  /** What is written keeps the left margin and the height, passes the right margin by at most a
      tenth, and no two rectangles overlap by more than a tenth. */
  lemma {:induction false} WrittenNearlyTiles(stacks: seq<StackTrace>)
    requires Drawable(stacks)
    ensures var rects := Rects(Frames(stacks, TotalOf(stacks), |stacks|));
            var out := Printed(rects);
            && (forall i :: 0 <= i < |out| ==>
                  && 100 <= out[i].x && 10 <= out[i].width && out[i].x + out[i].width <= 10 * (WIDTH - 10) + 1
                  && 300 <= out[i].y && out[i].y + 10 * out[i].height <= 10 * HEIGHT
                  && |out[i].text| <= Fit(rects[i].width))
            && (forall i, j :: 0 <= i < j < |out| ==> DisjointBut(out[i], out[j], 1))
  {
    hide RectOf, Frames, Rects, Fit, Tenths, Disjoint, DisjointBut;
    var frames := Frames(stacks, TotalOf(stacks), |stacks|);
    var rects := Rects(frames);
    var out := Printed(rects);
    FlameGraphTiles(stacks);
    forall i | 0 <= i < |rects| ensures rects[i].y == rects[i].y.Floor as real && rects[i].width >= 1.0 {
      var p := RectOrigins(frames, i);
      WholeY(frames[p]);
    }
    forall i | 0 <= i < |out|
      ensures 100 <= out[i].x && 10 <= out[i].width && out[i].x + out[i].width <= 10 * (WIDTH - 10) + 1
      ensures 300 <= out[i].y && out[i].y + 10 * out[i].height <= 10 * HEIGHT
    {
      TenthsMonotone(10.0, rects[i].x);
      TenthsMonotone(1.0, rects[i].width);
      TenthsWhole(10);
      TenthsWhole(1);
      TenthsWhole(rects[i].y.Floor);
    }
    forall i, j | 0 <= i < j < |out| ensures DisjointBut(out[i], out[j], 1) {
      PrintedApart(rects[i], rects[j]);
    }
  }

  // ---------------------------------------------------------------------
  // Exactly when nothing overlaps

  /** The column's left edge beyond the margin, or its width, as written. */
  function Edge(count: int, total: int): int
    requires total != 0
  {
    Tenths(StackWidth(count, total))
  }

  predicate Wide(stacks: seq<StackTrace>, m: nat)
    requires m < |stacks| && TotalOf(stacks) != 0
  {
    StackWidth(stacks[m].count, TotalOf(stacks)) >= 1.0
  }

  /** Seen from the counts: the rounded right edge of a wide column does not pass the rounded left
      edge of a later wide one. */
  ghost predicate EdgesInOrder(stacks: seq<StackTrace>)
    requires TotalOf(stacks) != 0
  {
    var total := TotalOf(stacks);
    forall m, n :: 0 <= m < n < |stacks| && Wide(stacks, m) && Wide(stacks, n) ==>
      Edge(CountOf(stacks, m), total) + Edge(stacks[m].count, total) <= Edge(CountOf(stacks, n), total)
  }

  /** A frame belongs to one column, and columns come in order. */
  lemma {:induction false} OwnerOf(stacks: seq<StackTrace>, total: int, n: nat, p: nat) returns (m: nat, d: nat)
    requires n <= |stacks| && total != 0 && p < |Frames(stacks, total, n)|
    ensures m < n && |Frames(stacks, total, m)| <= p < |Frames(stacks, total, m + 1)|
    ensures var f := Frames(stacks, total, n)[p];
            && d == p - |Frames(stacks, total, m)| && f.depth == d
            && f.xStart == Offset(stacks, total, m) + 10.0 && f.xWidth == StackWidth(stacks[m].count, total)
  {
    hide StackWidth, Split, Offset;
    if p < |Frames(stacks, total, n - 1)| {
      m, d := OwnerOf(stacks, total, n - 1, p);
    } else {
      m, d := n - 1, p - |Frames(stacks, total, n - 1)|;
    }
  }

  lemma {:induction false} FramesGrow(stacks: seq<StackTrace>, total: int, m: nat, n: nat)
    requires m <= n <= |stacks| && total != 0
    ensures |Frames(stacks, total, m)| <= |Frames(stacks, total, n)|
    ensures m < n ==> |Frames(stacks, total, m)| < |Frames(stacks, total, n)|
    decreases n
  {
    hide StackWidth, Offset;
    if m < n { FramesGrow(stacks, total, m, n - 1); }
  }

  /** Where a drawn frame comes out. */
  lemma {:induction false} RectAt(frames: seq<Frame>, p: nat) returns (i: nat)
    requires p < |frames| && Drawn(frames[p])
    ensures i == |Rects(frames[..p])| < |Rects(frames)| && Rects(frames)[i] == RectOf(frames[p])
  {
    hide RectOf, Drawn;
    i := |Rects(frames[..p])|;
    var n := |frames| - 1;
    if p < n {
      assert frames[..n][..p] == frames[..p];
      var j := RectAt(frames[..n], p);
    } else {
      assert frames[..n] == frames[..p];
    }
  }

  /** The written column of a frame. */
  lemma {:induction false} WrittenColumn(stacks: seq<StackTrace>, total: int, f: Frame, m: nat)
    requires m < |stacks| && total > 0 && Drawn(f)
    requires f.xStart == Offset(stacks, total, m) + 10.0 && f.xWidth == StackWidth(stacks[m].count, total)
    ensures var w := Print(RectOf(f));
            && w.x == 100 + Edge(CountOf(stacks, m), total) && w.width == Edge(stacks[m].count, total) >= 10
            && w.y == 10 * Y(f.depth) && w.height == FRAME_HEIGHT - 1
            && StackWidth(stacks[m].count, total) >= 1.0
  {
    hide Tenths, StackWidth, Offset, Label;
    OffsetIsWidth(stacks, total, m);
    TenthsShift(StackWidth(CountOf(stacks, m), total));
    TenthsWhole(Y(f.depth));
    TenthsMonotone(1.0, f.xWidth);
    TenthsWhole(1);
  }

  ghost predicate NothingOverlaps(out: seq<Written>) {
    forall i, j :: 0 <= i < j < |out| ==> DisjointBut(out[i], out[j], 0)
  }

  /** The written rectangles are free of overlap if and only if the rounded edges are in order. */
  lemma {:induction false} WrittenTilesIff(stacks: seq<StackTrace>)
    requires Drawable(stacks)
    ensures NothingOverlaps(Printed(Rects(Frames(stacks, TotalOf(stacks), |stacks|)))) <==> EdgesInOrder(stacks)
  {
    hide EdgesInOrder, NothingOverlaps, Frames, Rects, Printed;
    var out := Printed(Rects(Frames(stacks, TotalOf(stacks), |stacks|)));
    if NothingOverlaps(out) { ApartMeansInOrder(stacks); }
    if EdgesInOrder(stacks) { InOrderMeansApart(stacks); }
  }

  lemma {:induction false} InOrderMeansApart(stacks: seq<StackTrace>)
    requires Drawable(stacks) && EdgesInOrder(stacks)
    ensures NothingOverlaps(Printed(Rects(Frames(stacks, TotalOf(stacks), |stacks|))))
  {
    hide Frames, Rects, RectOf, Edge, Print, Drawn, Offset, StackWidth;
    var total := TotalOf(stacks);
    var frames := Frames(stacks, total, |stacks|);
    var rects := Rects(frames);
    var out := Printed(rects);
    forall i, j | 0 <= i < j < |out| ensures DisjointBut(out[i], out[j], 0) {
      var p := RectOrigins(frames, i);
      var q := RectOrigins(frames, j);
      if q <= p { RectsGrow(frames, q, p); }
      var m, d := OwnerOf(stacks, total, |stacks|, p);
      var n, e := OwnerOf(stacks, total, |stacks|, q);
      if n < m { FramesGrow(stacks, total, n + 1, m); }
      WrittenColumn(stacks, total, frames[p], m);
      WrittenColumn(stacks, total, frames[q], n);
    }
  }

  lemma {:induction false} ApartMeansInOrder(stacks: seq<StackTrace>)
    requires Drawable(stacks)
    requires NothingOverlaps(Printed(Rects(Frames(stacks, TotalOf(stacks), |stacks|))))
    ensures EdgesInOrder(stacks)
  {
    hide Frames, Rects, RectOf, Edge, Print, Offset, StackWidth, NothingOverlaps;
    var total := TotalOf(stacks);
    forall m, n | 0 <= m < n < |stacks| && Wide(stacks, m) && Wide(stacks, n)
      ensures Edge(CountOf(stacks, m), total) + Edge(stacks[m].count, total) <= Edge(CountOf(stacks, n), total)
    {
      ApartColumns(stacks, m, n);
    }
  }

  lemma {:induction false} ApartColumns(stacks: seq<StackTrace>, m: nat, n: nat)
    requires Drawable(stacks) && m < n < |stacks|
    requires NothingOverlaps(Printed(Rects(Frames(stacks, TotalOf(stacks), |stacks|))))
    requires Wide(stacks, m) && Wide(stacks, n)
    ensures var total := TotalOf(stacks);
            Edge(CountOf(stacks, m), total) + Edge(stacks[m].count, total) <= Edge(CountOf(stacks, n), total)
  {
    hide Rects, RectOf, Edge, Print, Offset, StackWidth, Frames;
    var total := TotalOf(stacks);
    var frames := Frames(stacks, total, |stacks|);
    var p, i := FirstOfColumn(stacks, m);
    var q, j := FirstOfColumn(stacks, n);
    FramesGrow(stacks, total, m, n);
    RectsGrow(frames, p + 1, q);
    RectCounts(frames, p);
    assert i < j;
    var out := Printed(Rects(frames));
    assert DisjointBut(out[i], out[j], 0);
    WrittenColumn(stacks, total, frames[p], m);
    WrittenColumn(stacks, total, frames[q], n);
    EdgesAscend(stacks, m, n);
  }

  lemma {:induction false} RectCounts(frames: seq<Frame>, p: nat)
    requires p < |frames| && Drawn(frames[p])
    ensures |Rects(frames[..p + 1])| == |Rects(frames[..p])| + 1
  {
    hide RectOf, Drawn;
    assert frames[..p + 1][..p] == frames[..p];
  }

  lemma {:induction false} EdgesAscend(stacks: seq<StackTrace>, m: nat, n: nat)
    requires Drawable(stacks) && m <= n <= |stacks|
    ensures Edge(CountOf(stacks, m), TotalOf(stacks)) <= Edge(CountOf(stacks, n), TotalOf(stacks))
  {
    hide Tenths, StackWidth;
    var total := TotalOf(stacks);
    OffsetMonotone(stacks, total, m, n);
    OffsetIsWidth(stacks, total, m);
    OffsetIsWidth(stacks, total, n);
    TenthsMonotone(StackWidth(CountOf(stacks, m), total), StackWidth(CountOf(stacks, n), total));
  }

  /** The lowest frame of a wide column is drawn. */
  lemma {:induction false} FirstOfColumn(stacks: seq<StackTrace>, m: nat) returns (p: nat, i: nat)
    requires TotalOf(stacks) > 0 && m < |stacks| && Wide(stacks, m)
    ensures var total := TotalOf(stacks);
            var frames := Frames(stacks, total, |stacks|);
            && p == |Frames(stacks, total, m)| < |frames|
            && frames[p].depth == 0 && Drawn(frames[p])
            && frames[p].xStart == Offset(stacks, total, m) + 10.0
            && frames[p].xWidth == StackWidth(stacks[m].count, total)
            && i == |Rects(frames[..p])| < |Rects(frames)| && Rects(frames)[i] == RectOf(frames[p])
  {
    hide Rects, RectOf, Offset, StackWidth, Frames;
    var total := TotalOf(stacks);
    var frames := Frames(stacks, total, |stacks|);
    p := |Frames(stacks, total, m)|;
    FramesGrow(stacks, total, m, |stacks|);
    var k, d := OwnerOf(stacks, total, |stacks|, p);
    if k < m { FramesGrow(stacks, total, k + 1, m); }
    if m < k { FramesGrow(stacks, total, m, k); }
    i := RectAt(frames, p);
  }

  /** Counts for which they are not: the second column of three is written from 11.1 to 12.2, and
      the third from 12.1. */
  lemma {:induction false} WrittenOverlap()
    ensures var stacks := [StackTrace("a", 106, ""), StackTrace("b", 106, ""), StackTrace("c", 117788, "")];
            && CountOf(stacks, 3) == 118000
            && !NothingOverlaps(Printed(Rects(Frames(stacks, 118000, 3))))
  {
    hide Frames, Rects, Printed;
    var stacks := [StackTrace("a", 106, ""), StackTrace("b", 106, ""), StackTrace("c", 117788, "")];
    assert CountOf(stacks, 1) == 106 && CountOf(stacks, 2) == 212 && CountOf(stacks, 3) == 118000;
    assert Edge(106, 118000) == 11 && Edge(212, 118000) == 21;
    assert Wide(stacks, 1) && Wide(stacks, 2);
    WrittenTilesIff(stacks);
  }
}
