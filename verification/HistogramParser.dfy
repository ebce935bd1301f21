/** internal/executor/parsers.go: ParseHistogram, splitDiskSections and
    ParsePerDiskHistogram.  The regular expressions are written out as direct
    recognisers; none of them needs backtracking. */
module HistogramParser {
  import opened Seqs
  import opened Text
  import opened Report
  import opened HistogramStats

  const ESC: char := '\U{001B}'

  /** White space as a regular expression's \s sees it. */
  predicate IsReSpace(c: char) { c == ' ' || c == '\t' || c == '\n' || c == '\r' || c == '\U{000C}' }

  predicate IsWord(c: char) { IsDigit(c) || 'A' <= c <= 'Z' || 'a' <= c <= 'z' || c == '_' }

  /** Length of the longest prefix whose characters all satisfy `p`. */
  function Run(s: string, p: char -> bool): (n: nat)
    ensures n <= |s|
    ensures forall i :: 0 <= i < n ==> p(s[i])
    ensures n < |s| ==> !p(s[n])
  {
    if s == "" || !p(s[0]) then 0
    else
      var n := Run(s[1..], p);
      assert forall i :: 1 <= i <= n ==> s[i] == s[1..][i - 1];
      n + 1
  }

  lemma {:induction false} RunOf(a: string, b: string, p: char -> bool)
    requires forall i :: 0 <= i < |a| ==> p(a[i])
    requires b == "" || !p(b[0])
    ensures Run(a + b, p) == |a| && (a + b)[..|a|] == a && (a + b)[|a|..] == b
  {}

  function SkipSpace(s: string): string { s[Run(s, IsReSpace)..] }

  /** bucketRe: white space, low, "->", high, ":", count, then anything. */
  function BucketLine(line: string): Option<Bucket> {
    var s0 := SkipSpace(line);
    var n0 := Run(s0, IsDigit);
    var s1 := SkipSpace(s0[n0..]);
    if n0 == 0 || !("->" <= s1) then None else
    var s2 := SkipSpace(s1[2..]);
    var n2 := Run(s2, IsDigit);
    var s3 := SkipSpace(s2[n2..]);
    if n2 == 0 || !(":" <= s3) then None else
    var s4 := SkipSpace(s3[1..]);
    var n4 := Run(s4, IsDigit);
    if n4 == 0 then None else
    Some(Bucket(ParseInt(s0[..n0]), ParseInt(s2[..n2]), ParseInt(s4[..n4])))
  }

  function Lower(c: char): char {
    if 'A' <= c <= 'Z' then 'a' + (c - 'A') else c
  }

  /** diskSectionRe matched at the start of `s`: the disk's name. */
  function HeaderAt(s: string): (r: Option<string>)
    ensures r.Some? ==> r.value != "" && !Without(s, '=')
  {
    if |s| < 4 || [Lower(s[0]), Lower(s[1]), Lower(s[2]), Lower(s[3])] != "disk" then None else
    var s1 := SkipSpace(s[4..]);
    if s1 == "" || s1[0] != '=' then None else
    assert s1[0] == s[4 + Run(s[4..], IsReSpace)];
    var s2 := SkipSpace(s1[1..]);
    var s3 := if s2 != "" && s2[0] == '\'' then s2[1..] else s2;
    var n := Run(s3, IsWord);
    if n == 0 then None else Some(s3[..n])
  }

  /** diskSectionRe is not anchored: the leftmost match counts. */
  function DiskHeader(line: string): (r: Option<string>)
    ensures r.Some? ==> r.value != "" && !Without(line, '=')
  {
    if line == "" then None else
    match HeaderAt(line)
    case Some(d) => Some(d)
    case None =>
      assert forall i :: 0 <= i < |line[1..]| ==> line[1..][i] == line[i + 1];
      DiskHeader(line[1..])
  }

  predicate IsAnsiArg(c: char) { IsDigit(c) || c == ';' }

  predicate IsAnsiEnd(c: char) { c == 'm' || c == 'G' || c == 'K' || c == 'H' || c == 'F' }

  /** Length of the escape sequence at the start: ESC "[" arguments and one final letter. */
  function EscapeLength(s: string): (n: nat)
    ensures n <= |s|
    ensures n > 0 ==> s[0] == ESC
  {
    if |s| >= 2 && s[0] == ESC && s[1] == '[' then
      var n := Run(s[2..], IsAnsiArg);
      if 2 + n < |s| && IsAnsiEnd(s[2 + n]) then 3 + n else 0
    else 0
  }

  /** stripANSI. */
  function StripANSI(s: string): string
    decreases |s|
  {
    if s == "" then ""
    else if EscapeLength(s) > 0 then StripANSI(s[EscapeLength(s)..])
    else [s[0]] + StripANSI(s[1..])
  }

  lemma {:induction false} StripANSIPlain(s: string)
    requires Without(s, ESC)
    ensures StripANSI(s) == s
  {
    if s != "" { StripANSIPlain(s[1..]); }
  }

  /** The buckets among a sequence of lines. */
  function BucketsOf(lines: seq<string>): seq<Bucket> {
    if lines == [] then []
    else
      (match BucketLine(lines[0]) case Some(b) => [b] case None => []) + BucketsOf(lines[1..])
  }

  lemma {:induction false} BucketsOfAppend(a: seq<string>, b: seq<string>)
    ensures BucketsOf(a + b) == BucketsOf(a) + BucketsOf(b)
  {
    hide BucketLine;
    if a == [] {
      assert a + b == b;
    } else {
      assert (a + b)[1..] == a[1..] + b;
      BucketsOfAppend(a[1..], b);
    }
  }

  /** What is read fits: bounds and counts are int64 values that are not negative. */
  lemma {:induction false} BucketsInRange(lines: seq<string>)
    ensures forall i :: 0 <= i < |BucketsOf(lines)| ==>
              var b := BucketsOf(lines)[i];
              0 <= b.low <= MAX_INT64 && 0 <= b.high <= MAX_INT64 && 0 <= b.count <= MAX_INT64
  {
    hide BucketLine;
    if lines != [] {
      BucketsInRange(lines[1..]);
      BucketInRange(lines[0]);
    }
  }

  lemma {:induction false} BucketInRange(line: string)
    ensures match BucketLine(line)
            case Some(b) => 0 <= b.low <= MAX_INT64 && 0 <= b.high <= MAX_INT64 && 0 <= b.count <= MAX_INT64
            case None => true
  {
    hide Run, SkipSpace;
    forall s: string | s != "" && AllDigits(s) ensures ParseInt(s) >= 0 { DigitsNotNegative(s); }
    hide ParseInt;
  }

  lemma {:induction false} DigitsNotNegative(s: string)
    requires s != "" && AllDigits(s)
    ensures ParseInt(s) >= 0
  {
    assert IsDigit(s[0]);
  }

  function TextBuckets(raw: string): seq<Bucket> { BucketsOf(Split(StripANSI(raw), '\n')) }

  /** No buckets is an error, anything else a histogram with its statistics. */
  function Parsed(raw: string, name: string, unit: string): Option<Histogram> {
    if TextBuckets(raw) == [] then None else Some(Stats(name, unit, TextBuckets(raw)))
  }

  lemma {:induction false} MeanOfNothing(bs: seq<Bucket>)
    ensures Int64(Total(bs)) <= 0 ==> Mean(bs) == 0.0
  {}

  method ParseHistogram(raw: string, name: string, unit: string) returns (h: Option<Histogram>)
    ensures h == Parsed(raw, name, unit)
  {
    hide BucketLine, StripANSI, Percentile, Mean, Total;
    var lines := Split(StripANSI(raw), '\n');
    var buckets := [];
    for i := 0 to |lines|
      invariant buckets == BucketsOf(lines[..i])
    {
      assert lines[..i + 1] == lines[..i] + [lines[i]];
      BucketsOfAppend(lines[..i], [lines[i]]);
      match BucketLine(lines[i])
      case None =>
      case Some(b) => buckets := buckets + [b];
    }
    assert lines[..|lines|] == lines;
    if buckets == [] {
      return None;
    }
    var hist := new HistogramCell(name, unit, buckets);
    hist.ComputeStats();
    MeanOfNothing(buckets);
    return Some(hist.Value());
  }

  // ---------------------------------------------------------------------
  // Per-disk sections

  /** A finished section is kept only when a disk was named and lines followed. */
  function Close(disk: string, current: seq<string>, acc: map<string, string>): map<string, string> {
    if disk != "" && current != [] then acc[disk := Join(current, "\n")] else acc
  }

  function SectionsFrom(lines: seq<string>, disk: string, current: seq<string>, acc: map<string, string>)
    : map<string, string>
    decreases |lines|
  {
    if lines == [] then Close(disk, current, acc)
    else match DiskHeader(lines[0])
      case Some(d) => SectionsFrom(lines[1..], d, [], Close(disk, current, acc))
      case None => SectionsFrom(lines[1..], disk, if disk != "" then current + [lines[0]] else current, acc)
  }

  /** What one line does. */
  lemma {:induction false} SectionsStep(lines: seq<string>, disk: string, current: seq<string>, acc: map<string, string>)
    requires lines != []
    ensures DiskHeader(lines[0]).Some? ==>
              SectionsFrom(lines, disk, current, acc) ==
              SectionsFrom(lines[1..], DiskHeader(lines[0]).value, [], Close(disk, current, acc))
    ensures DiskHeader(lines[0]).None? ==>
              SectionsFrom(lines, disk, current, acc) ==
              SectionsFrom(lines[1..], disk, if disk != "" then current + [lines[0]] else current, acc)
  {
    hide DiskHeader, Close;
  }

  /** splitDiskSections.  One buffer holds the lines of every section in turn. */
  method SplitDiskSections(raw: string) returns (sections: map<string, string>)
    ensures sections == SectionsFrom(Split(raw, '\n'), "", [], map[])
  {
    hide DiskHeader, Split, Join;
    var lines := Split(raw, '\n');
    sections := map[];
    var currentDisk := "";
    var buffer := new string[|lines|];
    var used := 0;
    for i := 0 to |lines|
      invariant 0 <= used <= i
      invariant SectionsFrom(lines, "", [], map[]) == SectionsFrom(lines[i..], currentDisk, buffer[..used], sections)
    {
      SectionsStep(lines[i..], currentDisk, buffer[..used], sections);
      assert lines[i..][0] == lines[i] && lines[i..][1..] == lines[i + 1..];
      hide SectionsFrom;
      match DiskHeader(lines[i])
      case Some(d) =>
        if currentDisk != "" && used > 0 {
          sections := sections[currentDisk := Join(buffer[..used], "\n")];
        }
        currentDisk := d;
        used := 0;
      case None =>
        if currentDisk != "" {
          ghost var kept := buffer[..used];
          buffer[used] := lines[i];
          used := used + 1;
          assert buffer[..used] == kept + [lines[i]];
        }
    }
    if currentDisk != "" && used > 0 {
      sections := sections[currentDisk := Join(buffer[..used], "\n")];
    }
  }

  const PREFIX := "block_io_latency"

  function DiskHistogram(sections: map<string, string>, unit: string, disk: string): Option<Histogram>
    requires disk in sections
  {
    Parsed(sections[disk], PREFIX + "_" + disk, unit)
  }

  function ParsingDisks(sections: map<string, string>, unit: string): set<string> {
    set d | d in sections && DiskHistogram(sections, unit, d).Some?
  }

  /** What ParsePerDiskHistogram returns when the sections that parse are visited in `order`. */
  ghost predicate PerDiskOutcome(raw: string, unit: string, hists: Option<seq<Histogram>>, order: seq<string>) {
    var sections := SectionsFrom(Split(raw, '\n'), "", [], map[]);
    && Enumerates(order, ParsingDisks(sections, unit))
    && (order != [] ==>
          && hists.Some?
          && |hists.value| == |order|
          && forall i :: 0 <= i < |order| ==>
               order[i] in sections && Some(hists.value[i]) == DiskHistogram(sections, unit, order[i]))
    && (order == [] ==>
          hists == (match Parsed(raw, PREFIX, unit) case Some(h) => Some([h]) case None => None))
  }

  /** ParsePerDiskHistogram: the map of sections is visited in any order. */
  method ParsePerDiskHistogram(raw: string, unit: string) returns (hists: Option<seq<Histogram>>)
    ensures exists order :: PerDiskOutcome(raw, unit, hists, order)
  {
    hide Parsed, SectionsFrom;
    var sections := SplitDiskSections(raw);
    var histograms: seq<Histogram> := [];
    ghost var order := [];
    var todo := sections.Keys;
    while todo != {}
      invariant todo <= sections.Keys
      invariant Distinct(order) && |histograms| == |order|
      invariant forall d :: d in order <==> d in ParsingDisks(sections, unit) && d !in todo
      invariant forall i :: 0 <= i < |order| ==>
                  order[i] in sections && Some(histograms[i]) == DiskHistogram(sections, unit, order[i])
      decreases |todo|
    {
      var disk :| disk in todo;
      todo := todo - {disk};
      var h := ParseHistogram(sections[disk], PREFIX + "_" + disk, unit);
      if h.Some? {
        histograms := histograms + [h.value];
        order := order + [disk];
      }
    }
    if |histograms| == 0 {
      var h := ParseHistogram(raw, PREFIX, unit);
      if h.None? {
        hists := None;
        assert PerDiskOutcome(raw, unit, hists, order);
        return;
      }
      assert histograms + [h.value] == [h.value];
      histograms := histograms + [h.value];
    }
    hists := Some(histograms);
    assert PerDiskOutcome(raw, unit, hists, order);
  }

  // ---------------------------------------------------------------------
  // Sections recovered

  /** One disk's part of the output: the header line and what follows it. */
  datatype Block = Block(header: string, disk: string, body: seq<string>)

  ghost predicate WellFormed(b: Block) { DiskHeader(b.header) == Some(b.disk) && PlainLines(b.body) }

  ghost predicate PlainLines(lines: seq<string>) {
    forall i :: 0 <= i < |lines| ==> DiskHeader(lines[i]).None?
  }

  function Lines(blocks: seq<Block>): seq<string> {
    if blocks == [] then [] else [blocks[0].header] + blocks[0].body + Lines(blocks[1..])
  }

  /** The lines of some output, cut at the headers. */
  ghost predicate CutAtHeaders(lines: seq<string>, preamble: seq<string>, blocks: seq<Block>) {
    && lines == preamble + Lines(blocks)
    && PlainLines(preamble)
    && forall i :: 0 <= i < |blocks| ==> WellFormed(blocks[i])
  }

  /** Every output is a preamble and one block per header. */
  lemma {:induction false} EveryTextIsCut(lines: seq<string>) returns (preamble: seq<string>, blocks: seq<Block>)
    ensures CutAtHeaders(lines, preamble, blocks)
    decreases |lines|
  {
    hide DiskHeader;
    preamble, blocks := [], [];
    if lines != [] {
      var p, bs := EveryTextIsCut(lines[1..]);
      match DiskHeader(lines[0])
      case Some(d) =>
        blocks := [Block(lines[0], d, p)] + bs;
        assert Lines(blocks) == [lines[0]] + p + Lines(bs);
      case None =>
        preamble, blocks := [lines[0]] + p, bs;
    }
  }

  /** The i-th block is the last one of its disk that has any lines. */
  ghost predicate Decisive(blocks: seq<Block>, i: int, d: string) {
    && 0 <= i < |blocks|
    && blocks[i].disk == d && blocks[i].body != []
    && forall j :: i < j < |blocks| && blocks[j].disk == d ==> blocks[j].body == []
  }

  /** Later blocks of the same disk replace earlier ones, empty ones excepted. */
  function Overwrite(acc: map<string, string>, blocks: seq<Block>): map<string, string>
    decreases |blocks|
  {
    if blocks == [] then acc
    else
      var n := |blocks| - 1;
      Close(blocks[n].disk, blocks[n].body, Overwrite(acc, blocks[..n]))
  }

  lemma {:induction false} OverwriteSplits(acc: map<string, string>, b: Block, blocks: seq<Block>)
    ensures Overwrite(acc, [b] + blocks) == Overwrite(Close(b.disk, b.body, acc), blocks)
    decreases |blocks|
  {
    hide Close;
    if blocks == [] {
      assert ([b] + blocks)[..0] == [];
    } else {
      var n := |blocks| - 1;
      assert ([b] + blocks)[..n + 1] == [b] + blocks[..n];
      OverwriteSplits(acc, b, blocks[..n]);
    }
  }

  lemma {:induction false} SkipPlain(lines: seq<string>, rest: seq<string>, disk: string, current: seq<string>,
                                     acc: map<string, string>)
    requires PlainLines(lines)
    ensures SectionsFrom(lines + rest, disk, current, acc) ==
            SectionsFrom(rest, disk, if disk != "" then current + lines else current, acc)
    decreases |lines|
  {
    hide DiskHeader, Close;
    if lines == [] {
      assert lines + rest == rest && current + lines == current;
    } else {
      var more := if disk != "" then current + [lines[0]] else current;
      assert (lines + rest)[0] == lines[0] && (lines + rest)[1..] == lines[1..] + rest;
      SkipPlain(lines[1..], rest, disk, more, acc);
      assert current + [lines[0]] + lines[1..] == current + lines;
    }
  }

  lemma {:induction false} OneBlock(b: Block, rest: seq<string>, disk: string, current: seq<string>, acc: map<string, string>)
    requires WellFormed(b)
    ensures SectionsFrom([b.header] + b.body + rest, disk, current, acc) ==
            SectionsFrom(rest, b.disk, b.body, Close(disk, current, acc))
  {
    hide DiskHeader, Close, SectionsFrom;
    var lines := [b.header] + b.body + rest;
    assert lines[0] == b.header && lines[1..] == b.body + rest && [] + b.body == b.body;
    SectionsStep(lines, disk, current, acc);
    SkipPlain(b.body, rest, b.disk, [], Close(disk, current, acc));
  }

  lemma {:induction false} SectionsOfBlocks(blocks: seq<Block>, disk: string, current: seq<string>, acc: map<string, string>)
    requires forall i :: 0 <= i < |blocks| ==> WellFormed(blocks[i])
    ensures SectionsFrom(Lines(blocks), disk, current, acc) == Overwrite(Close(disk, current, acc), blocks)
    decreases |blocks|
  {
    hide DiskHeader, Join, Close;
    if blocks != [] {
      hide SectionsFrom;
      OneBlock(blocks[0], Lines(blocks[1..]), disk, current, acc);
      SectionsOfBlocks(blocks[1..], blocks[0].disk, blocks[0].body, Close(disk, current, acc));
      OverwriteSplits(Close(disk, current, acc), blocks[0], blocks[1..]);
      assert [blocks[0]] + blocks[1..] == blocks;
    }
  }

  lemma {:induction false} OverwriteIsDecisive(blocks: seq<Block>, d: string)
    requires forall i :: 0 <= i < |blocks| ==> blocks[i].disk != ""
    ensures d in Overwrite(map[], blocks) <==> exists i :: Decisive(blocks, i, d)
    ensures forall i :: Decisive(blocks, i, d) ==>
              d in Overwrite(map[], blocks) && Overwrite(map[], blocks)[d] == Join(blocks[i].body, "\n")
    decreases |blocks|
  {
    hide Join;
    if blocks != [] {
      var n := |blocks| - 1;
      var front, last := blocks[..n], blocks[n];
      OverwriteIsDecisive(front, d);
      if last.disk == d && last.body != [] {
        assert Decisive(blocks, n, d);
      } else {
        forall i ensures Decisive(blocks, i, d) <==> Decisive(front, i, d) {
          assert forall j :: 0 <= j < n ==> front[j] == blocks[j];
        }
      }
    }
  }

  /** Whatever the output: the sections found are the bodies of the last non-empty block of
      each disk, although one buffer held the lines of them all. */
  lemma {:induction false} SectionsRecovered(lines: seq<string>, preamble: seq<string>, blocks: seq<Block>, d: string)
    requires CutAtHeaders(lines, preamble, blocks)
    ensures var sections := SectionsFrom(lines, "", [], map[]);
            && (d in sections <==> exists i :: Decisive(blocks, i, d))
            && (forall i :: Decisive(blocks, i, d) ==> d in sections && sections[d] == Join(blocks[i].body, "\n"))
  {
    hide DiskHeader, Join;
    SkipPlain(preamble, Lines(blocks), "", [], map[]);
    SectionsOfBlocks(blocks, "", [], map[]);
    OverwriteIsDecisive(blocks, d);
  }

  // ---------------------------------------------------------------------
  // Escape sequences never span lines

  function Stripped(lines: seq<string>): (r: seq<string>)
    ensures |r| == |lines|
    ensures forall i :: 0 <= i < |lines| ==> r[i] == StripANSI(lines[i])
  {
    if lines == [] then [] else [StripANSI(lines[0])] + Stripped(lines[1..])
  }

  lemma {:induction false} StripKeepsOut(s: string, c: char)
    requires Without(s, c)
    ensures Without(StripANSI(s), c)
    decreases |s|
  {
    hide EscapeLength;
    if s != "" {
      StripKeepsOut(s[if EscapeLength(s) > 0 then EscapeLength(s) else 1..], c);
    }
  }

  lemma {:induction false} RunStops(a: string, b: string, p: char -> bool)
    requires b != "" && !p(b[0])
    ensures Run(a + b, p) == Run(a, p)
  {
    var n := Run(a, p);
    assert a + b == a[..n] + (a[n..] + b);
    RunOf(a[..n], a[n..] + b, p);
  }

  /** A text whose first character cannot go on an escape sequence. */
  ghost predicate Breaks(b: string) { b != "" && b[0] != '[' && !IsAnsiArg(b[0]) && !IsAnsiEnd(b[0]) }

  lemma {:induction false} EscapeStops(a: string, b: string)
    requires a != "" && Breaks(b)
    ensures EscapeLength(a + b) == EscapeLength(a)
  {
    hide Run;
    if |a| >= 2 {
      assert (a + b)[2..] == a[2..] + b;
      RunStops(a[2..], b, IsAnsiArg);
    }
  }

  /** What stays of the first character, and where the rest begins. */
  lemma {:induction false} StripStep(s: string, n: nat, kept: string)
    requires s != "" && n == (if EscapeLength(s) > 0 then EscapeLength(s) else 1)
    requires kept == if EscapeLength(s) > 0 then "" else [s[0]]
    ensures StripANSI(s) == kept + StripANSI(s[n..])
  {
    hide EscapeLength;
  }

  lemma {:induction false} StripSplits(a: string, b: string)
    requires Breaks(b)
    ensures StripANSI(a + b) == StripANSI(a) + StripANSI(b)
    decreases |a|
  {
    hide EscapeLength, StripANSI;
    if a == "" {
      StripANSIPlain("");
      assert a + b == b;
    } else {
      var n := if EscapeLength(a) > 0 then EscapeLength(a) else 1;
      var kept := if EscapeLength(a) > 0 then "" else [a[0]];
      EscapeStops(a, b);
      StripStep(a, n, kept);
      assert (a + b)[0] == a[0];
      StripStep(a + b, n, kept);
      assert (a + b)[n..] == a[n..] + b;
      StripSplits(a[n..], b);
      var x, y, z := kept, StripANSI(a[n..]), StripANSI(b);
      assert x + (y + z) == (x + y) + z;
    }
  }

  lemma {:induction false} StripJoin(lines: seq<string>)
    ensures StripANSI(Join(lines, "\n")) == Join(Stripped(lines), "\n")
  {
    if |lines| > 1 {
      var rest := Join(lines[1..], "\n");
      assert Join(lines, "\n") == lines[0] + ("\n" + rest);
      StripSplits(lines[0], "\n" + rest);
      assert ("\n" + rest)[1..] == rest;
      StripJoin(lines[1..]);
      assert Stripped(lines)[1..] == Stripped(lines[1..]);
    }
  }

  /** The buckets of a text are those of its lines, each freed of its own escape sequences. */
  lemma {:induction false} TextBucketsByLine(lines: seq<string>)
    requires lines != [] && forall i :: 0 <= i < |lines| ==> Without(lines[i], '\n')
    ensures TextBuckets(Join(lines, "\n")) == BucketsOf(Stripped(lines))
  {
    hide StripANSI, BucketsOf, Without;
    StripJoin(lines);
    forall i | 0 <= i < |lines| ensures Without(Stripped(lines)[i], '\n') { StripKeepsOut(lines[i], '\n'); }
    SplitJoin(Stripped(lines), '\n');
  }

  // ---------------------------------------------------------------------
  // The whole per-disk pipeline

  /** What a disk's lines amount to. */
  ghost function BodyHistogram(disk: string, unit: string, body: seq<string>): Option<Histogram> {
    var bs := BucketsOf(Stripped(body));
    if bs == [] then None else Some(Stats(PREFIX + "_" + disk, unit, bs))
  }

  /** For every output: a disk has a histogram exactly when its last non-empty block has a bucket
      line, and then it is the histogram of exactly that block's buckets. */
  lemma {:induction false} PerDiskPipeline(
    raw: string, unit: string, preamble: seq<string>, blocks: seq<Block>, d: string)
    requires CutAtHeaders(Split(raw, '\n'), preamble, blocks)
    ensures var found := SectionsFrom(Split(raw, '\n'), "", [], map[]);
            && (d in found <==> exists i :: Decisive(blocks, i, d))
            && (forall i :: Decisive(blocks, i, d) ==>
                  d in found && DiskHistogram(found, unit, d) == BodyHistogram(d, unit, blocks[i].body))
  {
    hide SectionsFrom, Stats, Split, TextBuckets, Stripped, BucketsOf;
    SectionsRecovered(Split(raw, '\n'), preamble, blocks, d);
    forall i | Decisive(blocks, i, d)
      ensures TextBuckets(Join(blocks[i].body, "\n")) == BucketsOf(Stripped(blocks[i].body))
    {
      BodyIsLines(Split(raw, '\n'), preamble, blocks, i);
      TextBucketsByLine(blocks[i].body);
    }
  }

  lemma {:induction false} BodyIsLines(lines: seq<string>, preamble: seq<string>, blocks: seq<Block>, i: nat)
    requires lines == preamble + Lines(blocks) && i < |blocks|
    requires forall k :: 0 <= k < |lines| ==> Without(lines[k], '\n')
    ensures forall k :: 0 <= k < |blocks[i].body| ==> Without(blocks[i].body[k], '\n')
    decreases i
  {
    hide Without;
    var b := blocks[0];
    var skip := preamble + [b.header];
    assert lines == skip + b.body + Lines(blocks[1..]);
    if i > 0 {
      BodyIsLines(lines, skip + b.body, blocks[1..], i - 1);
    } else {
      assert forall k :: 0 <= k < |b.body| ==> b.body[k] == lines[|skip| + k];
    }
  }

  /** With one non-empty block per disk, every disk and no other comes back, each with its own
      buckets. */
  lemma {:induction false} DistinctDisks(raw: string, unit: string, preamble: seq<string>, blocks: seq<Block>)
    requires CutAtHeaders(Split(raw, '\n'), preamble, blocks)
    requires forall i :: 0 <= i < |blocks| ==> blocks[i].body != []
    requires forall i, j :: 0 <= i < j < |blocks| ==> blocks[i].disk != blocks[j].disk
    ensures var found := SectionsFrom(Split(raw, '\n'), "", [], map[]);
            && (forall i :: 0 <= i < |blocks| ==>
                  && blocks[i].disk in found
                  && DiskHistogram(found, unit, blocks[i].disk) == BodyHistogram(blocks[i].disk, unit, blocks[i].body))
            && (forall d :: d in found ==> exists i :: 0 <= i < |blocks| && blocks[i].disk == d)
  {
    hide SectionsFrom, DiskHistogram, BodyHistogram, Split, CutAtHeaders;
    var found := SectionsFrom(Split(raw, '\n'), "", [], map[]);
    forall i | 0 <= i < |blocks|
      ensures blocks[i].disk in found
      ensures DiskHistogram(found, unit, blocks[i].disk) == BodyHistogram(blocks[i].disk, unit, blocks[i].body)
    {
      PerDiskPipeline(raw, unit, preamble, blocks, blocks[i].disk);
      assert Decisive(blocks, i, blocks[i].disk);
    }
    forall d | d in found ensures exists i :: 0 <= i < |blocks| && blocks[i].disk == d {
      PerDiskPipeline(raw, unit, preamble, blocks, d);
      var i :| Decisive(blocks, i, d);
    }
  }
}
