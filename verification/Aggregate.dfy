/** internal/executor/aggregate.go: AggregateByField. */
module Aggregate {
  import opened Seqs
  import opened Text

  /** A detail of an event; `Formatted` stands for the text formatKey gives a number. */
  datatype Value = Plain(text: string) | Whole(n: int) | Formatted(text: string)

  type Details = map<string, Value>

  datatype Entry = Entry(key: string, count: int, sample: Details)

  function FormatKey(v: Value): string {
    match v case Plain(t) => t case Whole(n) => Itoa(n) case Formatted(t) => t
  }

  predicate Carries(d: Details, field: string, key: string) { field in d && FormatKey(d[field]) == key }

  /** Keys are faithful: a string is its own key, and whole numbers share one exactly when they are
      equal, since the key reads back as the number. */
  lemma {:induction false} KeysAreFaithful(t: string, m: int, n: int)
    ensures FormatKey(Plain(t)) == t
    ensures SignedValue(FormatKey(Whole(m))) == Some(m)
    ensures FormatKey(Whole(m)) == FormatKey(Whole(n)) <==> m == n
  {
    ItoaRoundTrip(m);
    ItoaRoundTrip(n);
  }

  /** How many events have this key under the field. */
  function KeyCount(events: seq<Details>, field: string, key: string): nat {
    if events == [] then 0
    else KeyCount(events[..|events| - 1], field, key) + (if Carries(events[|events| - 1], field, key) then 1 else 0)
  }

  function CarriedCount(events: seq<Details>, field: string): nat {
    if events == [] then 0
    else CarriedCount(events[..|events| - 1], field) + (if field in events[|events| - 1] then 1 else 0)
  }

  /** `d` is the first event with this key. */
  ghost predicate FirstWith(events: seq<Details>, field: string, key: string, d: Details) {
    exists i :: 0 <= i < |events| && events[i] == d && Carries(d, field, key) &&
                forall j :: 0 <= j < i ==> !Carries(events[j], field, key)
  }

  ghost function MapSum(m: map<string, int>): int
    decreases |m|
  {
    if m == map[] then 0 else var k :| k in m; m[k] + MapSum(m - {k})
  }

  lemma {:induction false} MapSumTakesAny(m: map<string, int>, k: string)
    requires k in m
    ensures MapSum(m) == m[k] + MapSum(m - {k})
    decreases |m|
  {
    var first :| first in m && MapSum(m) == m[first] + MapSum(m - {first});
    if first != k {
      var a, b := m - {first}, m - {k};
      MapSumTakesAny(a, k);
      MapSumTakesAny(b, first);
      assert a - {k} == b - {first};
    }
  }

  lemma {:induction false} MapSumUpdate(m: map<string, int>, k: string, v: int)
    ensures MapSum(m[k := v]) == MapSum(m) - (if k in m then m[k] else 0) + v
  {
    MapSumTakesAny(m[k := v], k);
    if k in m {
      MapSumTakesAny(m, k);
      assert m[k := v] - {k} == m - {k};
    } else {
      assert m[k := v] - {k} == m;
    }
  }

  /** Every key with its exact count and its first event. */
  ghost predicate Tallied(counts: map<string, int>, samples: map<string, Details>, events: seq<Details>, field: string) {
    && samples.Keys == counts.Keys
    && (forall k :: k in counts ==> counts[k] == KeyCount(events, field, k) > 0 && FirstWith(events, field, k, samples[k]))
    && (forall k :: k !in counts ==> KeyCount(events, field, k) == 0)
    && MapSum(counts) == CarriedCount(events, field)
  }

  lemma {:induction false} FirstWithGrows(events: seq<Details>, e: Details, field: string, key: string, d: Details)
    requires FirstWith(events, field, key, d)
    ensures FirstWith(events + [e], field, key, d)
  {
    var i :| 0 <= i < |events| && events[i] == d && Carries(d, field, key) &&
             forall j :: 0 <= j < i ==> !Carries(events[j], field, key);
    var more := events + [e];
    assert more[i] == d && forall j :: 0 <= j < i ==> more[j] == events[j];
  }

  lemma {:induction false} ZeroMeansNone(events: seq<Details>, field: string, key: string)
    requires KeyCount(events, field, key) == 0
    ensures forall j :: 0 <= j < |events| ==> !Carries(events[j], field, key)
  {
    if events != [] {
      ZeroMeansNone(events[..|events| - 1], field, key);
    }
  }

  lemma {:induction false} FirstWithNew(events: seq<Details>, e: Details, field: string, key: string)
    requires KeyCount(events, field, key) == 0 && Carries(e, field, key)
    ensures FirstWith(events + [e], field, key, e)
  {
    ZeroMeansNone(events, field, key);
    var more := events + [e];
    assert more[|events|] == e && forall j :: 0 <= j < |events| ==> more[j] == events[j];
  }

  lemma {:induction false} TallyStep(
    counts: map<string, int>, samples: map<string, Details>, events: seq<Details>, field: string, e: Details)
    requires Tallied(counts, samples, events, field) && field in e
    ensures var key := FormatKey(e[field]);
            Tallied(counts[key := (if key in counts then counts[key] else 0) + 1],
                    if key in samples then samples else samples[key := e], events + [e], field)
  {
    hide FirstWith, FormatKey;
    var key := FormatKey(e[field]);
    var more := events + [e];
    assert more[..|events|] == events;
    MapSumUpdate(counts, key, (if key in counts then counts[key] else 0) + 1);
    forall k | k in counts ensures FirstWith(more, field, k, samples[k]) {
      FirstWithGrows(events, e, field, k, samples[k]);
    }
    if key !in counts { FirstWithNew(events, e, field, key); }
  }

  lemma {:induction false} TallySkip(
    counts: map<string, int>, samples: map<string, Details>, events: seq<Details>, field: string, e: Details)
    requires Tallied(counts, samples, events, field) && field !in e
    ensures Tallied(counts, samples, events + [e], field)
  {
    hide FirstWith;
    var more := events + [e];
    assert more[..|events|] == events;
    forall k | k in counts ensures FirstWith(more, field, k, samples[k]) {
      FirstWithGrows(events, e, field, k, samples[k]);
    }
  }

  method Tally(events: seq<Details>, field: string) returns (counts: map<string, int>, samples: map<string, Details>)
    ensures Tallied(counts, samples, events, field)
  {
    counts, samples := map[], map[];
    for i := 0 to |events|
      invariant Tallied(counts, samples, events[..i], field)
    {
      hide Tallied, FormatKey;
      var e := events[i];
      assert events[..i + 1] == events[..i] + [e];
      if field in e {
        TallyStep(counts, samples, events[..i], field, e);
        var key := FormatKey(e[field]);
        counts := counts[key := (if key in counts then counts[key] else 0) + 1];
        if key !in samples {
          samples := samples[key := e];
        }
      } else {
        TallySkip(counts, samples, events[..i], field, e);
      }
    }
    assert events[..|events|] == events;
  }

  function ByCount(): (Entry, Entry) -> bool { (x: Entry, y: Entry) => x.count >= y.count }

  ghost predicate ListsKeys(entries: seq<Entry>, counts: map<string, int>, samples: map<string, Details>)
    requires samples.Keys == counts.Keys
  {
    && (forall i :: 0 <= i < |entries| ==>
          entries[i].key in counts && entries[i] == Entry(entries[i].key, counts[entries[i].key], samples[entries[i].key]))
    && (forall i, j :: 0 <= i < j < |entries| ==> entries[i].key != entries[j].key)
  }

  /** One entry per key, the map visited in any order. */
  method ListEntries(counts: map<string, int>, samples: map<string, Details>) returns (entries: seq<Entry>)
    requires samples.Keys == counts.Keys
    ensures ListsKeys(entries, counts, samples)
    ensures forall k :: k in counts ==> Entry(k, counts[k], samples[k]) in entries
  {
    var order := Enumerate(counts.Keys);
    entries := [];
    for i := 0 to |order|
      invariant |entries| == i
      invariant forall k :: 0 <= k < i ==> order[k] in counts && entries[k] == Entry(order[k], counts[order[k]], samples[order[k]])
    {
      assert order[i] in order;
      entries := entries + [Entry(order[i], counts[order[i]], samples[order[i]])];
    }
    forall k | k in counts ensures Entry(k, counts[k], samples[k]) in entries {
      var i :| 0 <= i < |order| && order[i] == k;
      assert entries[i] == Entry(k, counts[k], samples[k]);
    }
  }

  method SumCounts(counts: map<string, int>) returns (total: int)
    ensures total == MapSum(counts)
  {
    total := 0;
    var rest := counts;
    while rest != map[]
      invariant forall k :: k in rest ==> k in counts && rest[k] == counts[k]
      invariant total + MapSum(rest) == MapSum(counts)
      decreases |rest|
    {
      var k :| k in rest;
      MapSumTakesAny(rest, k);
      total := total + rest[k];
      rest := rest - {k};
    }
  }

  /** The entry reports the exact count of its key and the first event that has it. */
  ghost predicate Exact(events: seq<Details>, field: string, e: Entry) {
    e.count == KeyCount(events, field, e.key) > 0 && FirstWith(events, field, e.key, e.sample)
  }

  ghost predicate Lists(top: seq<Entry>, k: string) { exists i :: 0 <= i < |top| && top[i].key == k }

  /** A key is left out only when the limit is used up, and then no kept key has a smaller count. */
  ghost predicate LeftOut(events: seq<Details>, field: string, topN: int, top: seq<Entry>, k: string) {
    topN > 0 && |top| == topN && forall i :: 0 <= i < |top| ==> KeyCount(events, field, k) <= top[i].count
  }

  /** AggregateByField.  Counts are exact, samples are the first events of their key, the list
      is in descending order, what is left out is no larger than what is kept, and the total
      counts every event that carries the field. */
  method AggregateByField(events: seq<Details>, field: string, topN: int) returns (top: seq<Entry>, total: int)
    ensures total == CarriedCount(events, field)
    ensures forall i, j :: 0 <= i < j < |top| ==> top[i].count >= top[j].count
    ensures forall i :: 0 <= i < |top| ==> Exact(events, field, top[i])
    ensures forall i, j :: 0 <= i < j < |top| ==> top[i].key != top[j].key
    ensures topN > 0 ==> |top| <= topN
    ensures forall k :: KeyCount(events, field, k) > 0 ==> Lists(top, k) || LeftOut(events, field, topN, top, k)
  {
    hide KeyCount, CarriedCount, MapSum, SortedBy, Exact, Lists, LeftOut, Tallied, ListsKeys;
    var counts, samples := Tally(events, field);
    assert samples.Keys == counts.Keys && MapSum(counts) == CarriedCount(events, field) by {
      TalliedBasics(counts, samples, events, field);
    }
    var entries := ListEntries(counts, samples);
    var sorted := SortSlice(entries, ByCount());
    SortedKeepsKeys(entries, sorted, counts, samples);
    top := if topN > 0 && |sorted| > topN then sorted[..topN] else sorted;
    assert top == sorted[..|top|];
    PrefixSorted(sorted, |top|);
    PrefixExact(events, field, counts, samples, sorted, |top|);
    forall k | KeyCount(events, field, k) > 0 ensures Lists(top, k) || LeftOut(events, field, topN, top, k) {
      PrefixCovers(events, field, counts, samples, sorted, |top|, topN, k);
    }
    total := SumCounts(counts);
  }

  lemma {:induction false} TalliedBasics(
    counts: map<string, int>, samples: map<string, Details>, events: seq<Details>, field: string)
    requires Tallied(counts, samples, events, field)
    ensures samples.Keys == counts.Keys && MapSum(counts) == CarriedCount(events, field)
  {}

  lemma {:induction false} PrefixExact(events: seq<Details>, field: string,
    counts: map<string, int>, samples: map<string, Details>, sorted: seq<Entry>, n: nat)
    requires Tallied(counts, samples, events, field) && ListsKeys(sorted, counts, samples) && n <= |sorted|
    ensures forall i :: 0 <= i < |sorted[..n]| ==> Exact(events, field, sorted[..n][i])
    ensures forall i, j :: 0 <= i < j < |sorted[..n]| ==> sorted[..n][i].key != sorted[..n][j].key
  {}

  lemma {:induction false} PrefixCovers(events: seq<Details>, field: string,
    counts: map<string, int>, samples: map<string, Details>, sorted: seq<Entry>, n: nat, topN: int, k: string)
    requires Tallied(counts, samples, events, field) && n <= |sorted| && SortedBy(sorted, ByCount())
    requires forall x :: x in counts ==> Entry(x, counts[x], samples[x]) in sorted
    requires n == if topN > 0 && |sorted| > topN then topN else |sorted|
    requires KeyCount(events, field, k) > 0
    ensures Lists(sorted[..n], k) || LeftOut(events, field, topN, sorted[..n], k)
  {
    hide KeyCount, FirstWith, MapSum, CarriedCount, SortedBy;
    assert k in counts;
    if !Lists(sorted[..n], k) {
      forall i | 0 <= i < n ensures sorted[i].key != k { assert sorted[..n][i] == sorted[i]; }
      LeftOutIsSmaller(sorted, n, Entry(k, counts[k], samples[k]));
    }
  }

  lemma {:induction false} PrefixSorted(s: seq<Entry>, n: nat)
    requires SortedBy(s, ByCount()) && n <= |s|
    ensures forall i, j :: 0 <= i < j < n ==> s[..n][i].count >= s[..n][j].count
  {
    assert forall i, j :: 0 <= i < j < n ==> ByCount()(s[i], s[j]);
  }

  lemma {:induction false} LeftOutIsSmaller(sorted: seq<Entry>, n: nat, e: Entry)
    requires SortedBy(sorted, ByCount()) && n <= |sorted| && e in sorted
    requires forall i :: 0 <= i < n ==> sorted[i].key != e.key
    ensures n < |sorted| && forall i :: 0 <= i < n ==> sorted[i].count >= e.count
  {}

  lemma {:induction false} SortedKeepsKeys(
    entries: seq<Entry>, sorted: seq<Entry>, counts: map<string, int>, samples: map<string, Details>)
    requires samples.Keys == counts.Keys && ListsKeys(entries, counts, samples)
    requires SortedPermutation(sorted, entries, ByCount())
    requires forall k :: k in counts ==> Entry(k, counts[k], samples[k]) in entries
    ensures ListsKeys(sorted, counts, samples)
    ensures forall k :: k in counts ==> Entry(k, counts[k], samples[k]) in sorted
  {
    hide SortedBy;
    assert Distinct(entries);
    DistinctPermutation(entries, sorted);
    forall i | 0 <= i < |sorted|
      ensures sorted[i].key in counts && sorted[i] == Entry(sorted[i].key, counts[sorted[i].key], samples[sorted[i].key])
    {
      assert sorted[i] in sorted;
      PermutationMember(sorted, entries, sorted[i]);
    }
    forall i, j | 0 <= i < j < |sorted| ensures sorted[i].key != sorted[j].key {
      assert sorted[i] != sorted[j];
    }
    forall k | k in counts ensures Entry(k, counts[k], samples[k]) in sorted {
      PermutationMember(sorted, entries, Entry(k, counts[k], samples[k]));
    }
  }
}
