/** Histograms as the tool prints them, one instance of what internal/executor/parsers.go reads:
    rows with their padding and bars, and per-disk sections under quoted or bare headers. */
module PrintedSections {
  import opened Text
  import opened Report
  import opened HistogramStats
  import opened HistogramParser

  /** A bucket as the tool prints it: how much white space and which bar vary. */
  datatype Row = Row(bucket: Bucket, pad: seq<string>, bar: string)

  ghost predicate Printable(r: Row) {
    && 0 <= r.bucket.low <= MAX_INT64 && 0 <= r.bucket.high <= MAX_INT64 && 0 <= r.bucket.count <= MAX_INT64
    && |r.pad| == 5
    && (forall i :: 0 <= i < 5 ==> Blank(r.pad[i]))
    && (r.bar == "" || !IsDigit(r.bar[0]))
    && Without(r.bar, '=') && Without(r.bar, '\n') && Without(r.bar, ESC)
  }

  predicate Blank(s: string) { forall i :: 0 <= i < |s| ==> s[i] == ' ' }

  ghost function RowText(r: Row): string
    requires Printable(r)
  {
    r.pad[0] + (Decimal(r.bucket.low) + (r.pad[1] + ("->" + (r.pad[2] + (Decimal(r.bucket.high) +
    (r.pad[3] + (":" + (r.pad[4] + (Decimal(r.bucket.count) + r.bar)))))))))
  }

  lemma {:induction false} SkipBlank(a: string, b: string)
    requires Blank(a) && (b == "" || !IsReSpace(b[0]))
    ensures SkipSpace(a + b) == b
  {
    RunOf(a, b, IsReSpace);
  }

  lemma {:induction false} TakeDecimal(n: nat, rest: string)
    requires rest == "" || !IsDigit(rest[0])
    ensures var s := Decimal(n) + rest;
            Run(s, IsDigit) == |Decimal(n)| && s[..|Decimal(n)|] == Decimal(n) && s[|Decimal(n)|..] == rest
    ensures n <= MAX_INT64 ==> ParseInt(Decimal(n)) == n
    ensures !IsReSpace((Decimal(n) + rest)[0])
  {
    RunOf(Decimal(n), rest, IsDigit);
    ItoaRoundTrip(n);
    assert IsDigit(Decimal(n)[0]);
  }

  /** Each third of a row: digits, white space and what must follow. */
  lemma {:induction false} CountReadsBack(n: nat, pad: string, bar: string)
    requires n <= MAX_INT64 && Blank(pad) && (bar == "" || !IsDigit(bar[0]))
    ensures var s := SkipSpace(pad + (Decimal(n) + bar));
            Run(s, IsDigit) > 0 && ParseInt(s[..Run(s, IsDigit)]) == n && s[Run(s, IsDigit)..] == bar
  {
    hide Run, ParseInt, Decimal;
    TakeDecimal(n, bar);
    SkipBlank(pad, Decimal(n) + bar);
  }

  lemma {:induction false} FieldReadsBack(n: nat, pad: string, gap: string, mark: string, rest: string)
    requires n <= MAX_INT64 && Blank(pad) && Blank(gap)
    requires mark != "" && !IsDigit(mark[0]) && !IsReSpace(mark[0])
    ensures var s := SkipSpace(pad + (Decimal(n) + (gap + (mark + rest))));
            && Run(s, IsDigit) > 0 && ParseInt(s[..Run(s, IsDigit)]) == n
            && SkipSpace(s[Run(s, IsDigit)..]) == mark + rest
  {
    hide Run, ParseInt, Decimal;
    FirstOf(gap, mark + rest);
    CountReadsBack(n, pad, gap + (mark + rest));
    SkipBlank(gap, mark + rest);
  }

  /** A printed row is recognised as exactly its bucket. */
  lemma {:induction false} RowReadsBack(r: Row)
    requires Printable(r)
    ensures BucketLine(RowText(r)) == Some(r.bucket)
  {
    hide Run, Decimal, ParseInt, SkipSpace;
    var t4 := r.pad[4] + (Decimal(r.bucket.count) + r.bar);
    var t2 := r.pad[2] + (Decimal(r.bucket.high) + (r.pad[3] + (":" + t4)));
    assert RowText(r) == r.pad[0] + (Decimal(r.bucket.low) + (r.pad[1] + ("->" + t2)));
    FieldReadsBack(r.bucket.low, r.pad[0], r.pad[1], "->", t2);
    assert ("->" + t2)[2..] == t2;
    FieldReadsBack(r.bucket.high, r.pad[2], r.pad[3], ":", t4);
    assert (":" + t4)[1..] == t4;
    CountReadsBack(r.bucket.count, r.pad[4], r.bar);
  }

  lemma {:induction false} FirstOf(a: string, b: string)
    requires Blank(a) && b != "" && !IsDigit(b[0])
    ensures a + b != "" && !IsDigit((a + b)[0])
  {}

  lemma {:induction false} RowTextWithout(r: Row, c: char)
    requires Printable(r) && Without(r.bar, c)
    requires !IsDigit(c) && c != ' ' && c != '-' && c != '>' && c != ':'
    ensures Without(RowText(r), c)
  {}

  // ---------------------------------------------------------------------
  // Headers

  /** `disk = 'sda'`, or `disk = sda` from later versions of the tool. */
  function HeaderText(disk: string, quoted: bool): string {
    if quoted then "disk = '" + disk + "'" else "disk = " + disk
  }

  ghost predicate IsName(disk: string) { disk != "" && forall i :: 0 <= i < |disk| ==> IsWord(disk[i]) }

  /** Whatever a header reads as is a word. */
  lemma {:induction false} HeaderIsName(line: string)
    ensures DiskHeader(line).Some? ==> IsName(DiskHeader(line).value)
  {
    if line != "" {
      HeaderIsName(line[1..]);
      HeaderAtIsName(line);
    }
  }

  lemma {:induction false} HeaderAtIsName(s: string)
    ensures HeaderAt(s).Some? ==> IsName(HeaderAt(s).value)
  {
    hide Run;
  }

  /** A header reads as the leading word of the name: all of it, or less. */
  lemma {:induction false} HeaderReadsWord(word: string, rest: string, quoted: bool)
    requires IsName(word) && (rest == "" || !IsWord(rest[0]))
    ensures DiskHeader(HeaderText(word + rest, quoted)) == Some(word)
  {
    hide HeaderAt;
    var tail := if quoted then rest + "'" else rest;
    assert tail == "" || !IsWord(tail[0]);
    assert HeaderText(word + rest, quoted) == "disk = " + ((if quoted then "'" else "") + (word + tail));
    HeaderAtReads(word, tail, quoted);
  }

  lemma {:induction false} HeaderAtReads(word: string, tail: string, quoted: bool)
    requires IsName(word) && (tail == "" || !IsWord(tail[0]))
    ensures HeaderAt("disk = " + ((if quoted then "'" else "") + (word + tail))) == Some(word)
  {
    hide Run, DiskHeader, SkipSpace;
    var name := (if quoted then "'" else "") + (word + tail);
    var s := "disk = " + name;
    assert Lower('d') == 'd' && Lower('i') == 'i' && Lower('s') == 's' && Lower('k') == 'k';
    assert s[4..] == " " + ("= " + name);
    SkipBlank(" ", "= " + name);
    assert ("= " + name)[1..] == " " + name;
    assert !IsReSpace(name[0]) by { assert IsWord(word[0]); }
    SkipBlank(" ", name);
    assert quoted ==> name[1..] == word + tail;
    assert !quoted ==> name == word + tail && name[0] == word[0] && IsWord(word[0]);
    RunOf(word, tail, IsWord);
  }

  /** A name comes back from its header exactly when it is a word. */
  lemma {:induction false} HeaderReadsBackIff(disk: string, quoted: bool)
    ensures DiskHeader(HeaderText(disk, quoted)) == Some(disk) <==> IsName(disk)
  {
    hide DiskHeader, HeaderText;
    HeaderIsName(HeaderText(disk, quoted));
    if IsName(disk) {
      assert disk + "" == disk;
      HeaderReadsWord(disk, "", quoted);
    }
  }

  // ---------------------------------------------------------------------
  // Sections

  /** One disk's section: header, caption, rows, and what follows before the next one. */
  datatype Section = Section(disk: string, quoted: bool, caption: string, rows: seq<Row>, after: seq<string>)

  /** A line that is neither a header nor a bucket. */
  ghost predicate Filler(line: string) { Without(line, '=') && Without(line, ESC) && BucketLine(line).None? }

  ghost predicate PrintableSection(s: Section) {
    && Filler(s.caption) && (forall i :: 0 <= i < |s.after| ==> Filler(s.after[i]))
    && s.rows != []
    && forall i :: 0 <= i < |s.rows| ==> Printable(s.rows[i])
  }

  ghost function RowLines(rows: seq<Row>): (r: seq<string>)
    requires forall i :: 0 <= i < |rows| ==> Printable(rows[i])
    ensures |r| == |rows|
    ensures forall i :: 0 <= i < |rows| ==> r[i] == RowText(rows[i])
  {
    if rows == [] then [] else [RowText(rows[0])] + RowLines(rows[1..])
  }

  ghost function Buckets(rows: seq<Row>): seq<Bucket> {
    if rows == [] then [] else [rows[0].bucket] + Buckets(rows[1..])
  }

  lemma {:induction false} RowsReadBack(rows: seq<Row>)
    requires forall i :: 0 <= i < |rows| ==> Printable(rows[i])
    ensures BucketsOf(RowLines(rows)) == Buckets(rows)
  {
    hide BucketLine, RowText, Printable;
    if rows != [] {
      assert Printable(rows[0]);
      RowReadsBack(rows[0]);
      RowsReadBack(rows[1..]);
    }
  }

  lemma {:induction false} RowIsPlain(r: Row)
    requires Printable(r)
    ensures DiskHeader(RowText(r)).None? && Without(RowText(r), '\n') && Without(RowText(r), ESC)
  {
    hide RowText;
    RowTextWithout(r, '=');
    RowTextWithout(r, '\n');
    RowTextWithout(r, ESC);
  }

  ghost function Body(s: Section): seq<string>
    requires PrintableSection(s)
  {
    [s.caption] + RowLines(s.rows) + s.after
  }

  lemma {:induction false} NoBuckets(lines: seq<string>)
    requires forall i :: 0 <= i < |lines| ==> Filler(lines[i])
    ensures BucketsOf(lines) == []
  {
    hide BucketLine;
    if lines != [] {
      assert Filler(lines[0]);
      NoBuckets(lines[1..]);
    }
  }

  lemma {:induction false} BodyIsPlain(s: Section)
    requires PrintableSection(s)
    ensures PlainLines(Body(s)) && Stripped(Body(s)) == Body(s)
  {
    hide RowText, DiskHeader, Without, BucketLine, Printable, StripANSI;
    var body := Body(s);
    forall i | 0 <= i < |body| ensures DiskHeader(body[i]).None? && StripANSI(body[i]) == body[i] {
      if 0 < i <= |s.rows| {
        assert Printable(s.rows[i - 1]) && body[i] == RowText(s.rows[i - 1]);
        RowIsPlain(s.rows[i - 1]);
      } else {
        assert Filler(body[i]) by { if i > 0 { assert body[i] == s.after[i - 1 - |s.rows|]; } }
      }
      StripANSIPlain(body[i]);
    }
    assert Stripped(body) == body;
  }

  /** The lines of a printed section parse to exactly the printed buckets. */
  lemma {:induction false} SectionReadsBack(s: Section, unit: string)
    requires PrintableSection(s)
    ensures BucketsOf(Stripped(Body(s))) == Buckets(s.rows) != []
    ensures BodyHistogram(s.disk, unit, Body(s)) == Some(Stats(PREFIX + "_" + s.disk, unit, Buckets(s.rows)))
  {
    hide BucketLine, DiskHeader, RowText, Printable, Stats;
    BodyIsPlain(s);
    BucketsOfAppend([s.caption] + RowLines(s.rows), s.after);
    BucketsOfAppend([s.caption], RowLines(s.rows));
    RowsReadBack(s.rows);
    NoBuckets(s.after);
    NoBuckets([s.caption]);
  }

  ghost function PrintedLines(sections: seq<Section>): seq<string>
    requires forall i :: 0 <= i < |sections| ==> PrintableSection(sections[i])
  {
    if sections == [] then []
    else [HeaderText(sections[0].disk, sections[0].quoted)] + Body(sections[0]) + PrintedLines(sections[1..])
  }

  /** The sections as blocks, each under the name its header reads as. */
  ghost function BlocksAs(sections: seq<Section>, names: seq<string>): (r: seq<Block>)
    requires |names| == |sections| && forall i :: 0 <= i < |sections| ==> PrintableSection(sections[i])
    ensures |r| == |sections|
    ensures forall i :: 0 <= i < |r| ==>
              r[i] == Block(HeaderText(sections[i].disk, sections[i].quoted), names[i], Body(sections[i]))
  {
    if sections == [] then []
    else [Block(HeaderText(sections[0].disk, sections[0].quoted), names[0], Body(sections[0]))] +
         BlocksAs(sections[1..], names[1..])
  }

  lemma {:induction false} BlocksPrint(sections: seq<Section>, names: seq<string>)
    requires |names| == |sections| && forall i :: 0 <= i < |sections| ==> PrintableSection(sections[i])
    ensures Lines(BlocksAs(sections, names)) == PrintedLines(sections)
  {
    hide PrintableSection, Body, HeaderText;
    if sections != [] {
      BlocksPrint(sections[1..], names[1..]);
      assert BlocksAs(sections, names)[1..] == BlocksAs(sections[1..], names[1..]);
    }
  }

  /** The printed lines cut at their headers, once it is known how the headers read. */
  lemma {:induction false} PrintedIsCut(lines: seq<string>, preamble: seq<string>, sections: seq<Section>, names: seq<string>)
    requires |names| == |sections| && forall i :: 0 <= i < |sections| ==> PrintableSection(sections[i])
    requires forall i :: 0 <= i < |sections| ==>
               DiskHeader(HeaderText(sections[i].disk, sections[i].quoted)) == Some(names[i])
    requires PlainLines(preamble) && lines == preamble + PrintedLines(sections)
    ensures CutAtHeaders(lines, preamble, BlocksAs(sections, names))
  {
    hide PrintableSection, Body, HeaderText, DiskHeader, PlainLines;
    BlocksPrint(sections, names);
    var blocks := BlocksAs(sections, names);
    forall i | 0 <= i < |blocks| ensures WellFormed(blocks[i]) {
      assert PrintableSection(sections[i]);
      BodyIsPlain(sections[i]);
    }
  }

  /** The section's disk comes back under its own name with exactly its own buckets. */
  ghost predicate ComesBack(s: Section, unit: string, found: map<string, string>) {
    && s.disk in found
    && DiskHistogram(found, unit, s.disk) == Some(Stats(PREFIX + "_" + s.disk, unit, Buckets(s.rows)))
  }

  /** Output with one section per distinct disk: every disk comes back, and no other appears,
      when all names are words. */
  lemma {:induction false} WordsComeBack(raw: string, unit: string, preamble: seq<string>, sections: seq<Section>)
    requires forall i :: 0 <= i < |sections| ==> PrintableSection(sections[i]) && IsName(sections[i].disk)
    requires forall i, j :: 0 <= i < j < |sections| ==> sections[i].disk != sections[j].disk
    requires PlainLines(preamble) && Split(raw, '\n') == preamble + PrintedLines(sections)
    ensures var found := SectionsFrom(Split(raw, '\n'), "", [], map[]);
            && (forall i :: 0 <= i < |sections| ==> ComesBack(sections[i], unit, found))
            && (forall d :: d in found ==> exists i :: 0 <= i < |sections| && sections[i].disk == d)
  {
    hide SectionsFrom, PrintableSection, IsName, Split, Body, HeaderText, DiskHeader, PlainLines, BodyHistogram, Stats;
    hide DiskHistogram, CutAtHeaders;
    var names := seq(|sections|, i requires 0 <= i < |sections| => sections[i].disk);
    forall i | 0 <= i < |sections|
      ensures DiskHeader(HeaderText(sections[i].disk, sections[i].quoted)) == Some(names[i])
    {
      HeaderReadsBackIff(sections[i].disk, sections[i].quoted);
    }
    PrintedIsCut(Split(raw, '\n'), preamble, sections, names);
    var blocks := BlocksAs(sections, names);
    forall i | 0 <= i < |blocks|
      ensures blocks[i].body != []
      ensures BodyHistogram(blocks[i].disk, unit, blocks[i].body) ==
              Some(Stats(PREFIX + "_" + sections[i].disk, unit, Buckets(sections[i].rows)))
    {
      SectionReadsBack(sections[i], unit);
      BodyNotEmpty(sections[i]);
    }
    DistinctDisks(raw, unit, preamble, blocks);
  }

  lemma {:induction false} BodyNotEmpty(s: Section)
    requires PrintableSection(s)
    ensures Body(s) != []
  {}

  lemma {:induction false} KeysAreNames(raw: string, d: string)
    requires d in SectionsFrom(Split(raw, '\n'), "", [], map[])
    ensures IsName(d)
  {
    hide SectionsFrom, Split, IsName, DiskHeader;
    var preamble, blocks := EveryTextIsCut(Split(raw, '\n'));
    SectionsRecovered(Split(raw, '\n'), preamble, blocks, d);
    var i :| Decisive(blocks, i, d);
    assert WellFormed(blocks[i]);
    HeaderIsName(blocks[i].header);
  }

  /** Every printed disk comes back under its own name if and only if all names are words. */
  lemma {:induction false} DisksComeBackIff(raw: string, unit: string, preamble: seq<string>, sections: seq<Section>)
    requires forall i :: 0 <= i < |sections| ==> PrintableSection(sections[i])
    requires forall i, j :: 0 <= i < j < |sections| ==> sections[i].disk != sections[j].disk
    requires PlainLines(preamble) && Split(raw, '\n') == preamble + PrintedLines(sections)
    ensures var found := SectionsFrom(Split(raw, '\n'), "", [], map[]);
            (forall i :: 0 <= i < |sections| ==> ComesBack(sections[i], unit, found)) <==>
            (forall i :: 0 <= i < |sections| ==> IsName(sections[i].disk))
  {
    hide SectionsFrom, PrintableSection, IsName, Split, PlainLines, DiskHistogram, Stats;
    var found := SectionsFrom(Split(raw, '\n'), "", [], map[]);
    if forall i :: 0 <= i < |sections| ==> ComesBack(sections[i], unit, found) {
      forall i | 0 <= i < |sections| ensures IsName(sections[i].disk) {
        assert ComesBack(sections[i], unit, found);
        KeysAreNames(raw, sections[i].disk);
      }
    }
    if forall i :: 0 <= i < |sections| ==> IsName(sections[i].disk) {
      WordsComeBack(raw, unit, preamble, sections);
    }
  }

  /** Output with just these two sections. */
  ghost predicate PrintsBoth(raw: string, preamble: seq<string>, a: Section, b: Section) {
    && PrintableSection(a) && PrintableSection(b)
    && PlainLines(preamble) && Split(raw, '\n') == preamble + PrintedLines([a, b])
  }

  /** Device-mapper names are not words: both sections are read as "dm", the second replaces the
      first, and neither disk is found. */
  lemma {:induction false} DeviceMapperCollides(raw: string, unit: string, preamble: seq<string>, a: Section, b: Section)
    requires PrintsBoth(raw, preamble, a, b) && a.disk == "dm-0" && b.disk == "dm-1"
    ensures var found := SectionsFrom(Split(raw, '\n'), "", [], map[]);
            && found.Keys == {"dm"}
            && DiskHistogram(found, unit, "dm") == Some(Stats(PREFIX + "_" + "dm", unit, Buckets(b.rows)))
  {
    hide SectionsFrom, PrintableSection, IsName, Split, Body, HeaderText, DiskHeader, PlainLines, Stats, DiskHistogram, BucketsOf;
    DeviceMapperHeader(a.quoted);
    DeviceMapperHeader(b.quoted);
    var sections, names := [a, b], ["dm", "dm"];
    PrintedIsCut(Split(raw, '\n'), preamble, sections, names);
    var blocks := BlocksAs(sections, names);
    var found := SectionsFrom(Split(raw, '\n'), "", [], map[]);
    BodyNotEmpty(b);
    assert Decisive(blocks, 1, "dm");
    forall d ensures d in found <==> d == "dm" {
      PerDiskPipeline(raw, unit, preamble, blocks, d);
      if d in found { var i :| Decisive(blocks, i, d); }
    }
    SectionReadsBack(b, unit);
    PerDiskPipeline(raw, unit, preamble, blocks, "dm");
  }

  lemma {:induction false} DeviceMapperHeader(quoted: bool)
    ensures DiskHeader(HeaderText("dm-0", quoted)) == Some("dm") == DiskHeader(HeaderText("dm-1", quoted))
  {
    hide DiskHeader, HeaderText;
    assert "dm" + "-0" == "dm-0" && "dm" + "-1" == "dm-1";
    HeaderReadsWord("dm", "-0", quoted);
    HeaderReadsWord("dm", "-1", quoted);
  }
}
