/** internal/output/flamegraph.go: the frame layout of GenerateFlameGraphSVG.
    Coordinates are `real` until they are written, with one decimal. */
module FlameGraph {
  import opened Seqs
  import opened Text
  import opened Report

  const WIDTH: int := 1200
  const HEIGHT: int := 400
  const FRAME_HEIGHT: int := 16

  /** Room for frames between the two margins of 10. */
  const SPAN: real := 1180.0

  datatype Frame = Frame(name: string, count: int, depth: nat, xStart: real, xWidth: real)

  datatype Rect = Rect(x: real, y: real, width: real, height: int, text: string)

  /** A rectangle as it is written: x, y and width in tenths. */
  datatype Written = Written(x: int, y: int, width: int, height: int, text: string)

  /** What comes out: nothing without stacks, coordinates that are no finite numbers when the
      counts add up to zero, and otherwise the written rectangles. */
  datatype Drawing = Nothing | NotFinite | Drawing(rects: seq<Written>)

  /** Formatting with %.1f, in tenths: the nearest, and the even one of two. */
  function Tenths(v: real): (t: int)
    ensures -0.5 <= t as real - v * 10.0 <= 0.5
    ensures t as real - v * 10.0 == 0.5 || t as real - v * 10.0 == -0.5 ==> t % 2 == 0
  {
    var down := (v * 10.0).Floor;
    var rest := v * 10.0 - down as real;
    if rest < 0.5 || (rest == 0.5 && down % 2 == 0) then down else down + 1
  }

  function CountOf(stacks: seq<StackTrace>, n: nat): int
    requires n <= |stacks|
  {
    if n == 0 then 0 else CountOf(stacks, n - 1) + stacks[n - 1].count
  }

  function StackWidth(count: int, total: int): real
    requires total != 0
  {
    count as real / total as real * SPAN
  }

  /** Where the n-th stack begins: the widths of the stacks before it. */
  function Offset(stacks: seq<StackTrace>, total: int, n: nat): real
    requires n <= |stacks| && total != 0
  {
    if n == 0 then 0.0 else Offset(stacks, total, n - 1) + StackWidth(stacks[n - 1].count, total)
  }

  /** The frames of one stack: same column, one per depth. */
  function Column(s: StackTrace, total: int, x: real): (r: seq<Frame>)
    requires total != 0
  {
    var functions := Split(s.stack, ';');
    seq(|functions|, d requires 0 <= d < |functions| =>
      Frame(functions[d], s.count, d, x + 10.0, StackWidth(s.count, total)))
  }

  function Frames(stacks: seq<StackTrace>, total: int, n: nat): seq<Frame>
    requires n <= |stacks| && total != 0
  {
    if n == 0 then []
    else Frames(stacks, total, n - 1) + Column(stacks[n - 1], total, Offset(stacks, total, n - 1))
  }

  function Y(depth: nat): int { (HEIGHT - 30) - depth * FRAME_HEIGHT }

  /** int(xWidth / 7): the characters that fit. */
  function Fit(width: real): int { (width / 7.0).Floor }

  function Label(name: string, width: real): (text: string)
    requires width >= 1.0
    ensures |text| <= Fit(width)
    ensures |name| <= Fit(width) ==> text == name
    ensures |name| > Fit(width) > 3 ==> |text| == Fit(width) && text[..|text| - 2] <= name && text[|text| - 2..] == ".."
    ensures |name| > Fit(width) && Fit(width) <= 3 ==> text == ""
  {
    var maxChars := Fit(width);
    if |name| > maxChars then
      if maxChars > 3 then name[..maxChars - 2] + ".." else ""
    else name
  }

  /** Frames too narrow or too deep are not drawn. */
  predicate Drawn(f: Frame) { f.xWidth >= 1.0 && Y(f.depth) >= 30 }

  function RectOf(f: Frame): Rect
    requires Drawn(f)
  {
    Rect(f.xStart, Y(f.depth) as real, f.xWidth, FRAME_HEIGHT - 1, Label(f.name, f.xWidth))
  }

  function Rects(frames: seq<Frame>): seq<Rect> {
    if frames == [] then []
    else
      var f := frames[|frames| - 1];
      Rects(frames[..|frames| - 1]) + (if Drawn(f) then [RectOf(f)] else [])
  }

  function Print(r: Rect): Written { Written(Tenths(r.x), Tenths(r.y), Tenths(r.width), r.height, r.text) }

  function Printed(rects: seq<Rect>): (out: seq<Written>)
    ensures |out| == |rects| && forall i :: 0 <= i < |rects| ==> out[i] == Print(rects[i])
  {
    seq(|rects|, i requires 0 <= i < |rects| => Print(rects[i]))
  }

  function ByStack(): (StackTrace, StackTrace) -> bool { (x: StackTrace, y: StackTrace) => StringLeq(x.stack, y.stack) }

  /** totalSamples, an int64 sum. */
  function TotalOf(stacks: seq<StackTrace>): int { Int64(CountOf(stacks, |stacks|)) }

  /** GenerateFlameGraphSVG: sorts its argument in place, places the frames and writes them. */
  method GenerateFlameGraphSVG(stacks: array<StackTrace>) returns (d: Drawing)
    modifies stacks
    ensures SortedPermutation(stacks[..], old(stacks[..]), ByStack())
    ensures forall i, j :: 0 <= i < j < stacks.Length ==> Precedes(stacks[i].stack, stacks[j].stack)
    ensures TotalOf(stacks[..]) == TotalOf(old(stacks[..]))
    ensures d == Nothing <==> stacks.Length == 0
    ensures d == NotFinite <==> stacks.Length > 0 && TotalOf(stacks[..]) == 0
    ensures d.Drawing? ==>
              TotalOf(stacks[..]) != 0 && d.rects == Printed(Rects(Frames(stacks[..], TotalOf(stacks[..]), stacks.Length)))
  {
    hide Frames, Rects, Int64, StringLeq, SortedBy, TotalPreorder, Precedes;
    if stacks.Length == 0 {
      assert SortedPermutation(stacks[..], stacks[..], ByStack()) by { EmptySorted(stacks[..]); }
      return Nothing;
    }
    StringKeyPreorder((s: StackTrace) => s.stack, ByStack());
    ghost var before := stacks[..];
    SortInPlace(stacks, ByStack());
    var s := stacks[..];
    CountOfPermutation(before, s);

    var total := 0;
    for i := 0 to |s|
      invariant total == Int64(CountOf(s, i)) && stacks[..] == s
    {
      Int64Sum(CountOf(s, i), s[i].count);
      total := Int64(total + s[i].count);
    }
    StacksAscend(s);
    if total == 0 {
      return NotFinite;
    }
    var frames := PlaceFrames(s, total);
    var rects := Draw(frames);
    assert stacks[..] == s;
    d := Drawing(rects);
  }

  lemma {:induction false} StacksAscend(s: seq<StackTrace>)
    requires SortedBy(s, ByStack())
    ensures forall i, j :: 0 <= i < j < |s| ==> Precedes(s[i].stack, s[j].stack)
  {
    hide Precedes, StringLeq;
    forall i, j | 0 <= i < j < |s| ensures Precedes(s[i].stack, s[j].stack) {
      assert ByStack()(s[i], s[j]);
      StringLeqIff(s[i].stack, s[j].stack);
    }
  }

  lemma {:induction false} EmptySorted(s: seq<StackTrace>)
    requires s == []
    ensures SortedBy(s, ByStack())
  {}

  method PlaceFrames(s: seq<StackTrace>, total: int) returns (frames: seq<Frame>)
    requires total != 0
    ensures frames == Frames(s, total, |s|)
  {
    hide StackWidth, Column;
    frames := [];
    var x := 0.0;
    for i := 0 to |s|
      invariant x == Offset(s, total, i)
      invariant frames == Frames(s, total, i)
    {
      var column := PlaceColumn(s[i], total, x);
      frames := frames + column;
      x := x + StackWidth(s[i].count, total);
    }
  }

  method PlaceColumn(s: StackTrace, total: int, x: real) returns (column: seq<Frame>)
    requires total != 0
    ensures column == Column(s, total, x)
  {
    hide StackWidth, Split;
    var functions := Split(s.stack, ';');
    column := [];
    for depth := 0 to |functions|
      invariant column == Column(s, total, x)[..depth]
    {
      column := column + [Frame(functions[depth], s.count, depth, x + 10.0, StackWidth(s.count, total))];
    }
  }

  method Draw(frames: seq<Frame>) returns (out: seq<Written>)
    ensures out == Printed(Rects(frames))
  {
    hide RectOf, Print;
    out := [];
    for i := 0 to |frames|
      invariant out == Printed(Rects(frames[..i]))
    {
      var f := frames[i];
      assert frames[..i + 1][..i] == frames[..i];
      if Drawn(f) {
        out := out + [Print(RectOf(f))];
      }
    }
    assert frames[..|frames|] == frames;
  }

  // ---------------------------------------------------------------------
  // Tiling

  lemma {:induction false} CountOfIsSum(s: seq<StackTrace>, n: nat)
    requires n <= |s|
    ensures CountOf(s, n) == SumOf(Counts(s[..n]))
  {
    if n > 0 {
      CountOfIsSum(s, n - 1);
      assert Counts(s[..n]) == Counts(s[..n - 1]) + [s[n - 1].count];
      SumOfAppend(Counts(s[..n - 1]), [s[n - 1].count]);
    }
  }

  function Counts(s: seq<StackTrace>): seq<int> {
    seq(|s|, i requires 0 <= i < |s| => s[i].count)
  }

  lemma {:induction false} SumPermutation(a: seq<StackTrace>, b: seq<StackTrace>)
    requires Permutation(a, b)
    ensures SumOf(Counts(a)) == SumOf(Counts(b))
  {
    PermutationLength(a, b);
    if a != [] {
      PermutationMember(a, b, a[0]);
      var i :| 0 <= i < |b| && b[i] == a[0];
      RemoveOne(a, b, i);
      SumPermutation(a[1..], b[..i] + b[i + 1..]);
      assert Counts(a)[1..] == Counts(a[1..]);
      assert Counts(b) == Counts(b[..i]) + ([b[i].count] + Counts(b[i + 1..]));
      assert Counts(b[..i] + b[i + 1..]) == Counts(b[..i]) + Counts(b[i + 1..]);
      SumOfAppend(Counts(b[..i]), [b[i].count] + Counts(b[i + 1..]));
      SumOfAppend(Counts(b[..i]), Counts(b[i + 1..]));
      assert ([b[i].count] + Counts(b[i + 1..]))[1..] == Counts(b[i + 1..]);
    }
  }

  lemma {:induction false} CountOfPermutation(a: seq<StackTrace>, b: seq<StackTrace>)
    requires Permutation(a, b)
    ensures |a| == |b| && CountOf(a, |a|) == CountOf(b, |b|)
  {
    PermutationLength(a, b);
    CountOfIsSum(a, |a|);
    CountOfIsSum(b, |b|);
    assert a[..|a|] == a && b[..|b|] == b;
    SumPermutation(a, b);
  }

  ghost predicate NonNegative(stacks: seq<StackTrace>) {
    forall i :: 0 <= i < |stacks| ==> stacks[i].count >= 0
  }

  lemma {:induction false} WidthSplits(a: int, b: int, total: int)
    requires total != 0
    ensures StackWidth(a + b, total) == StackWidth(a, total) + StackWidth(b, total)
    ensures a >= 0 && total > 0 ==> StackWidth(a, total) >= 0.0
    ensures a >= 0 && total < 0 ==> StackWidth(a, total) <= 0.0
    ensures StackWidth(a, total) == SPAN <==> a == total
    ensures StackWidth(0, total) == 0.0
  {
    var x := a as real / total as real;
    assert x * total as real == a as real;
  }

  lemma {:induction false} OffsetIsWidth(stacks: seq<StackTrace>, total: int, n: nat)
    requires n <= |stacks| && total != 0
    ensures Offset(stacks, total, n) == StackWidth(CountOf(stacks, n), total)
  {
    hide StackWidth;
    WidthSplits(0, 0, total);
    if n > 0 {
      OffsetIsWidth(stacks, total, n - 1);
      WidthSplits(CountOf(stacks, n - 1), stacks[n - 1].count, total);
    }
  }

  /** The widths of all stacks add up to exactly the room between the margins if and only if the
      sum of the counts is an int64. */
  lemma {:induction false} WidthsFillSpanIff(stacks: seq<StackTrace>)
    requires TotalOf(stacks) != 0
    ensures Offset(stacks, TotalOf(stacks), |stacks|) == (WIDTH - 20) as real <==>
            MIN_INT64 <= CountOf(stacks, |stacks|) <= MAX_INT64
  {
    hide StackWidth, Offset;
    OffsetIsWidth(stacks, TotalOf(stacks), |stacks|);
    WidthSplits(CountOf(stacks, |stacks|), 0, TotalOf(stacks));
  }

  /** Counts that are not negative and add up to a positive int64. */
  ghost predicate Drawable(stacks: seq<StackTrace>) {
    NonNegative(stacks) && 0 < CountOf(stacks, |stacks|) <= MAX_INT64
  }

  /** When the sum turns negative, nothing at all is drawn. */
  lemma {:induction false} OverflowDrawsNothing(stacks: seq<StackTrace>, n: nat)
    requires NonNegative(stacks) && TotalOf(stacks) < 0 && n <= |stacks|
    ensures Rects(Frames(stacks, TotalOf(stacks), n)) == []
  {
    hide StackWidth, Split, Offset;
    if n > 0 {
      OverflowDrawsNothing(stacks, n - 1);
      WidthSplits(stacks[n - 1].count, 0, TotalOf(stacks));
      NoneDrawn(Frames(stacks, TotalOf(stacks), n - 1),
                Column(stacks[n - 1], TotalOf(stacks), Offset(stacks, TotalOf(stacks), n - 1)));
    }
  }

  lemma {:induction false} NoneDrawn(a: seq<Frame>, b: seq<Frame>)
    requires Rects(a) == [] && forall i :: 0 <= i < |b| ==> !Drawn(b[i])
    ensures Rects(a + b) == []
    decreases |b|
  {
    hide Drawn;
    if b == [] {
      assert a + b == a;
    } else {
      var n := |b| - 1;
      assert (a + b)[..|a + b| - 1] == a + b[..n];
      NoneDrawn(a, b[..n]);
    }
  }

  /** Such counts: two stacks of 2^62 samples. */
  lemma {:induction false} TwoHugeStacks()
    ensures var stacks := [StackTrace("a", 0x4000_0000_0000_0000, ""), StackTrace("b", 0x4000_0000_0000_0000, "")];
            TotalOf(stacks) == MIN_INT64 && Rects(Frames(stacks, MIN_INT64, 2)) == []
  {
    var stacks := [StackTrace("a", 0x4000_0000_0000_0000, ""), StackTrace("b", 0x4000_0000_0000_0000, "")];
    assert CountOf(stacks, 1) == 0x4000_0000_0000_0000 && CountOf(stacks, 2) == TWO63;
    OverflowDrawsNothing(stacks, 2);
  }

  lemma {:induction false} OffsetMonotone(stacks: seq<StackTrace>, total: int, m: nat, n: nat)
    requires m <= n <= |stacks| && total > 0 && NonNegative(stacks)
    ensures 0.0 <= Offset(stacks, total, m) <= Offset(stacks, total, n)
    decreases n
  {
    hide StackWidth;
    if m < n {
      WidthSplits(stacks[n - 1].count, 0, total);
      OffsetMonotone(stacks, total, m, n - 1);
    } else if n > 0 {
      WidthSplits(stacks[n - 1].count, 0, total);
      OffsetMonotone(stacks, total, n - 1, n - 1);
    }
  }

  /** Left of, or in the same column at a smaller depth. */
  predicate Apart(f: Frame, g: Frame) {
    f.xStart + f.xWidth <= g.xStart || (f.xStart == g.xStart && f.depth < g.depth)
  }

  ghost predicate Tiled(frames: seq<Frame>, right: real) {
    && (forall p :: 0 <= p < |frames| ==>
          10.0 <= frames[p].xStart && 0.0 <= frames[p].xWidth && frames[p].xStart + frames[p].xWidth <= right)
    && (forall p, q :: 0 <= p < q < |frames| ==> Apart(frames[p], frames[q]))
  }

  lemma {:induction false} FramesTile(stacks: seq<StackTrace>, total: int, n: nat)
    requires n <= |stacks| && total > 0 && NonNegative(stacks)
    ensures Tiled(Frames(stacks, total, n), Offset(stacks, total, n) + 10.0)
  {
    hide StackWidth, Split;
    if n > 0 {
      FramesTile(stacks, total, n - 1);
      OffsetMonotone(stacks, total, n - 1, n);
      WidthSplits(stacks[n - 1].count, 0, total);
    }
  }

  /** Rectangles with no common point in their interiors. */
  predicate Disjoint(a: Rect, b: Rect) {
    || a.x + a.width <= b.x || b.x + b.width <= a.x
    || a.y + a.height as real <= b.y || b.y + b.height as real <= a.y
  }

  ghost predicate RectsTile(rects: seq<Rect>) {
    && (forall i :: 0 <= i < |rects| ==>
          && 10.0 <= rects[i].x && rects[i].x + rects[i].width <= (WIDTH - 10) as real
          && 30.0 <= rects[i].y && rects[i].y + rects[i].height as real <= HEIGHT as real
          && |rects[i].text| <= Fit(rects[i].width))
    && (forall i, j :: 0 <= i < j < |rects| ==> Disjoint(rects[i], rects[j]))
  }

  /** Every rectangle comes from a frame, in order. */
  lemma {:induction false} RectOrigins(frames: seq<Frame>, i: nat) returns (p: nat)
    requires i < |Rects(frames)|
    ensures p < |frames| && Drawn(frames[p]) && Rects(frames)[i] == RectOf(frames[p])
    ensures |Rects(frames[..p])| == i
  {
    hide RectOf, Drawn;
    var n := |frames| - 1;
    if i < |Rects(frames[..n])| {
      p := RectOrigins(frames[..n], i);
      assert frames[..n][..p] == frames[..p];
    } else {
      p := n;
    }
  }

  lemma {:induction false} RectsGrow(frames: seq<Frame>, p: nat, q: nat)
    requires p <= q <= |frames|
    ensures |Rects(frames[..p])| <= |Rects(frames[..q])|
    decreases q
  {
    hide RectOf, Drawn;
    if p < q {
      assert frames[..q][..q - 1] == frames[..q - 1];
      RectsGrow(frames, p, q - 1);
    }
  }

  lemma {:induction false} ApartDisjoint(f: Frame, g: Frame)
    requires Drawn(f) && Drawn(g) && Apart(f, g)
    ensures Disjoint(RectOf(f), RectOf(g))
  {}

  /** Before it is written the drawing is a tiling: everything inside the margins, nothing
      overlaps, labels fit. */
  lemma {:induction false} FlameGraphTiles(stacks: seq<StackTrace>)
    requires Drawable(stacks)
    ensures RectsTile(Rects(Frames(stacks, TotalOf(stacks), |stacks|)))
  {
    hide RectOf, Rects, Frames, Offset, Label, Fit;
    var total := TotalOf(stacks);
    var frames := Frames(stacks, total, |stacks|);
    FramesTile(stacks, total, |stacks|);
    WidthsFillSpanIff(stacks);
    var rects := Rects(frames);
    forall i | 0 <= i < |rects|
      ensures 10.0 <= rects[i].x && rects[i].x + rects[i].width <= (WIDTH - 10) as real
      ensures 30.0 <= rects[i].y && rects[i].y + rects[i].height as real <= HEIGHT as real
      ensures |rects[i].text| <= Fit(rects[i].width)
    {
      var p := RectOrigins(frames, i);
      RectFields(frames[p]);
    }
    forall i, j | 0 <= i < j < |rects| ensures Disjoint(rects[i], rects[j]) {
      var p := RectOrigins(frames, i);
      var q := RectOrigins(frames, j);
      if q <= p { RectsGrow(frames, q, p); }
      ApartDisjoint(frames[p], frames[q]);
    }
  }

  lemma {:induction false} RectFields(f: Frame)
    requires Drawn(f)
    ensures var r := RectOf(f);
            && r.x == f.xStart && r.width == f.xWidth && |r.text| <= Fit(r.width)
            && 30.0 <= r.y && r.y + r.height as real <= HEIGHT as real
  {}
}
