/** The per-disk pipeline end to end: tool output, sections, histograms, SSD and HDD rules. */
module DiskLatency {
  import opened Text
  import opened Report
  import opened HistogramStats
  import opened HistogramParser
  import opened PrintedSections
  import opened AnomalyRules

  lemma {:induction false} StatsFeed(h: Histogram, disk: string, known: map<string, bool>, rotational: bool)
    requires disk != "" && h.name == PREFIX + "_" + disk && h.unit == "us"
    ensures ExtractDeviceName(h.name) == disk && Milliseconds(h) == h.p99 / 1000.0
    ensures disk in known ==>
              (Eligible(h, "biolatency", rotational, known) <==> h.p99 > 0.0 && rotational == known[disk])
    ensures disk !in known ==> (Eligible(h, "biolatency", rotational, known) <==> h.p99 > 0.0)
  {
    ExtractInverts(disk);
  }

  /** For every output: the histogram of a disk carries exactly the buckets of its last non-empty
      block and gives the device name back; when the disk's type is known it is looked at by the
      rule of its own type and by no other, and when it is not, by both. */
  lemma {:induction false} SectionFeedsItsRule(
    raw: string, preamble: seq<string>, blocks: seq<Block>, i: nat, disk: string, known: map<string, bool>, rotational: bool)
    requires CutAtHeaders(Split(raw, '\n'), preamble, blocks) && Decisive(blocks, i, disk)
    ensures var found := SectionsFrom(Split(raw, '\n'), "", [], map[]);
            && disk in found
            && (DiskHistogram(found, "us", disk).Some? <==> BucketsOf(Stripped(blocks[i].body)) != [])
            && (DiskHistogram(found, "us", disk).Some? ==>
                  var h := DiskHistogram(found, "us", disk).value;
                  && h.buckets == BucketsOf(Stripped(blocks[i].body))
                  && ExtractDeviceName(h.name) == disk
                  && Milliseconds(h) == h.p99 / 1000.0
                  && (Eligible(h, "biolatency", rotational, known) <==>
                      h.p99 > 0.0 && (disk in known ==> rotational == known[disk])))
  {
    hide SectionsFrom, Split, Lines, DiskHistogram, Percentile, Mean, Total, BucketsOf, Stripped, Eligible, DiskHeader;
    PerDiskPipeline(raw, "us", preamble, blocks, disk);
    assert WellFormed(blocks[i]) && disk != "";
    var bs := BucketsOf(Stripped(blocks[i].body));
    StatsFeed(Stats(PREFIX + "_" + disk, "us", bs), disk, known, rotational);
  }

  /** A disk whose 99th percentile falls in a bucket with bounds past the int64 range is seen by
      neither rule. */
  lemma {:induction false} OverflowHidesDisk(name: string, bs: seq<Bucket>, known: map<string, bool>, rotational: bool)
    requires Regular(bs)
    ensures var h := Stats(name, "us", bs);
            Overflows(Pick(bs, 0.99)) ==> h.p99 < 0.0 && !Eligible(h, "biolatency", rotational, known)
  {
    hide Midpoint, Total, Mean, Regular, Overflows;
    CountsFit(bs) by { RegularParts(bs); }
    RegularParts(bs);
    FallThroughUnreachable(bs, 0.99);
    var k := FirstReaching(bs, Rank(Total(bs), 0.99), 0);
    BoundsOf(bs, k, k);
    MidpointIs(bs[k]);
  }

  /** The log2 bucket that ends at the largest int64 is such a bucket. */
  lemma {:induction false} TopBucketHidden(name: string, known: map<string, bool>, rotational: bool)
    ensures var bs := [Bucket(0x4000_0000_0000_0000, MAX_INT64, 1)];
            && PowerOfTwoBucket(bs[0], 62)
            && Stats(name, "us", bs).p99 < 0.0
            && !Eligible(Stats(name, "us", bs), "biolatency", rotational, known)
  {
    var bs := [Bucket(0x4000_0000_0000_0000, MAX_INT64, 1)];
    assert Cumulative(bs, 1) == 1;
    assert Regular(bs) && Overflows(bs[0]);
    OverflowHidesDisk(name, bs, known, rotational);
    Pow2At62();
    hide Stats, Pow2, Eligible;
  }

  /** The two device-mapper disks of one report share one histogram, under a name no device has,
      which feeds the SSD rule and the HDD rule alike. */
  lemma {:induction false} DeviceMapperFeedsBoth(
    raw: string, preamble: seq<string>, a: Section, b: Section, known: map<string, bool>, rotational: bool)
    requires PrintsBoth(raw, preamble, a, b) && a.disk == "dm-0" && b.disk == "dm-1"
    requires "dm" !in known
    ensures var found := SectionsFrom(Split(raw, '\n'), "", [], map[]);
            && found.Keys == {"dm"}
            && DiskHistogram(found, "us", "dm").Some?
            && var h := DiskHistogram(found, "us", "dm").value;
               && h.buckets == Buckets(b.rows)
               && (Eligible(h, "biolatency", rotational, known) <==> h.p99 > 0.0)
  {
    hide SectionsFrom, Split, PrintsBoth, DiskHistogram, Percentile, Mean, Total, Eligible;
    DeviceMapperCollides(raw, "us", preamble, a, b);
    StatsFeed(Stats(PREFIX + "_" + "dm", "us", Buckets(b.rows)), "dm", known, rotational);
  }
}
