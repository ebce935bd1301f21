/** internal/output/flamegraph.go: what is drawn where - which function of which stack, at which
    depth, how far to the right, how wide and under which label - in whole numbers. */
module FlameGraphDrawn {
  import opened Text
  import opened Report
  import opened FlameGraph

  /** The functions of each stack, outermost first. */
  ghost predicate Parts(stacks: seq<StackTrace>, parts: seq<seq<string>>) {
    |parts| == |stacks| &&
    forall i :: 0 <= i < |parts| ==> PartsOf(stacks[i].stack, parts[i])
  }

  ghost predicate PartsOf(stack: string, functions: seq<string>) {
    |functions| >= 1 && stack == Join(functions, ";") && forall d :: 0 <= d < |functions| ==> Without(functions[d], ';')
  }

  /** The label: the whole name if it fits at seven units a character, otherwise as much of it as
      leaves room for two dots, and nothing where fewer than four characters fit. */
  ghost predicate Labelled(text: string, name: string, width: real) {
    if 7.0 * |name| as real <= width then text == name
    else if width >= 28.0 then
      && 7.0 * |text| as real <= width < 7.0 * (|text| + 1) as real
      && 2 <= |text| <= |name| && text == name[..|text| - 2] + ".."
    else text == ""
  }

  /** The rectangle of one function: in proportion to the samples before its stack and in it, across
      the 1180 units between the margins; one row of 16 per depth, from 370 upwards. */
  ghost predicate Depicts(r: Rect, name: string, depth: int, before: int, count: int, total: int) {
    && r.x * total as real == (10 * total + 1180 * before) as real
    && r.width * total as real == (1180 * count) as real
    && r.y == (370 - 16 * depth) as real && r.height == 15
    && Labelled(r.text, name, r.width)
  }

  /** It is drawn at all: at least one unit wide and within the picture. */
  predicate Visible(depth: int, count: int, total: int) { 1180 * count >= total && depth <= 21 }

  lemma {:induction false} FramesHave(stacks: seq<StackTrace>, total: int, n: nat, i: nat, d: nat)
    requires i < n <= |stacks| && total != 0 && d < |Column(stacks[i], total, Offset(stacks, total, i))|
    ensures Column(stacks[i], total, Offset(stacks, total, i))[d] in Frames(stacks, total, n)
  {
    hide Column, Offset;
    if i < n - 1 { FramesHave(stacks, total, n - 1, i, d); }
  }

  lemma {:induction false} FramesFrom(stacks: seq<StackTrace>, total: int, n: nat, p: nat) returns (i: nat, d: nat)
    requires n <= |stacks| && total != 0 && p < |Frames(stacks, total, n)|
    ensures i < n && d < |Column(stacks[i], total, Offset(stacks, total, i))|
    ensures Frames(stacks, total, n)[p] == Column(stacks[i], total, Offset(stacks, total, i))[d]
  {
    hide Column, Offset;
    var front := Frames(stacks, total, n - 1);
    if p < |front| {
      i, d := FramesFrom(stacks, total, n - 1, p);
    } else {
      i, d := n - 1, p - |front|;
    }
  }

  lemma {:induction false} RectsHave(frames: seq<Frame>, p: nat)
    requires p < |frames| && Drawn(frames[p])
    ensures RectOf(frames[p]) in Rects(frames)
  {
    hide RectOf, Drawn;
    var n := |frames| - 1;
    if p < n {
      assert frames[..n][p] == frames[p];
      RectsHave(frames[..n], p);
    }
  }

  lemma {:induction false} Widths(count: int, total: int)
    requires total != 0
    ensures StackWidth(count, total) * total as real == (1180 * count) as real
    ensures total > 0 ==> (StackWidth(count, total) >= 1.0 <==> 1180 * count >= total)
  {
    var q := count as real / total as real;
    assert q * total as real == count as real;
    var w := StackWidth(count, total);
    assert w * total as real == 1180.0 * count as real;
    if total > 0 { assert w >= 1.0 <==> w * total as real >= total as real; }
  }

  lemma {:induction false} LabelIs(name: string, width: real)
    requires width >= 1.0
    ensures Labelled(Label(name, width), name, width)
  {
    var n := Fit(width);
    assert 7.0 * n as real <= width < 7.0 * (n + 1) as real;
    var text := Label(name, width);
    if |name| > n > 3 {
      assert text == text[..|text| - 2] + text[|text| - 2..];
      assert name[..|text| - 2] == text[..|text| - 2];
    }
  }

  /** The frame of one function, and whether and how it is drawn. */
  lemma {:induction false} FrameIs(stacks: seq<StackTrace>, functions: seq<string>, i: nat, d: nat)
    requires i < |stacks| && Drawable(stacks) && PartsOf(stacks[i].stack, functions)
    ensures var total := TotalOf(stacks);
            var column := Column(stacks[i], total, Offset(stacks, total, i));
            && total == CountOf(stacks, |stacks|) && |column| == |functions|
            && (d < |functions| ==>
                  && (Drawn(column[d]) <==> Visible(d, stacks[i].count, total))
                  && (Drawn(column[d]) ==>
                        Depicts(RectOf(column[d]), functions[d], d, CountOf(stacks, i), stacks[i].count, total)))
  {
    hide Offset, StackWidth, Split, Label, Fit, Labelled, CountOf;
    var total := TotalOf(stacks);
    SplitJoin(functions, ';');
    OffsetIsWidth(stacks, total, i);
    Widths(CountOf(stacks, i), total);
    Widths(stacks[i].count, total);
    if d < |functions| {
      var f := Column(stacks[i], total, Offset(stacks, total, i))[d];
      assert f.name == functions[d];
      if Drawn(f) { LabelIs(f.name, f.xWidth); }
    }
  }

  /** Every function of every stack that is wide and shallow enough is drawn where it belongs, and
      nothing else is. */
  lemma {:induction false} DrawnExactly(stacks: seq<StackTrace>, parts: seq<seq<string>>)
    requires Drawable(stacks) && Parts(stacks, parts)
    ensures var total := CountOf(stacks, |stacks|);
            var rects := Rects(Frames(stacks, TotalOf(stacks), |stacks|));
            && (forall i, d :: 0 <= i < |parts| && 0 <= d < |parts[i]| && Visible(d, stacks[i].count, total) ==>
                  exists r :: r in rects && Depicts(r, parts[i][d], d, CountOf(stacks, i), stacks[i].count, total))
            && (forall r :: r in rects ==>
                  exists i, d :: 0 <= i < |parts| && 0 <= d < |parts[i]| && Visible(d, stacks[i].count, total) &&
                    Depicts(r, parts[i][d], d, CountOf(stacks, i), stacks[i].count, total))
  {
    hide Frames, Rects, Column, Offset, Drawn, Depicts, RectOf, Drawable, PartsOf, Visible;
    var total := TotalOf(stacks);
    TotalFits(stacks);
    var frames := Frames(stacks, total, |stacks|);
    var rects := Rects(frames);
    forall i, d | 0 <= i < |parts| && 0 <= d < |parts[i]| && Visible(d, stacks[i].count, total)
      ensures exists r :: r in rects && Depicts(r, parts[i][d], d, CountOf(stacks, i), stacks[i].count, total)
    {
      FrameIs(stacks, parts[i], i, d);
      FramesHave(stacks, total, |stacks|, i, d);
      var p :| 0 <= p < |frames| && frames[p] == Column(stacks[i], total, Offset(stacks, total, i))[d];
      RectsHave(frames, p);
      assert RectOf(frames[p]) in rects;
    }
    forall r | r in rects
      ensures exists i, d :: 0 <= i < |parts| && 0 <= d < |parts[i]| && Visible(d, stacks[i].count, total) &&
                Depicts(r, parts[i][d], d, CountOf(stacks, i), stacks[i].count, total)
    {
      var k :| 0 <= k < |rects| && rects[k] == r;
      var p := RectOrigins(frames, k);
      var i, d := FramesFrom(stacks, total, |stacks|, p);
      FrameIs(stacks, parts[i], i, d);
    }
  }

  lemma {:induction false} TotalFits(stacks: seq<StackTrace>)
    requires Drawable(stacks)
    ensures TotalOf(stacks) == CountOf(stacks, |stacks|) > 0
  {}
}
