/** /proc/[pid]/stat, read by two independent parsers: readProcPID of
    internal/collector/process.go and parseProcStat of internal/observer/overhead.go. */
module ProcStat {
  import opened Text

  datatype Stat = Stat(comm: string, state: string, utime: int, stime: int, threads: int, rss: int)

  /** `Panic` is the run-time error of a slice whose bounds do not fit. */
  datatype Outcome = Malformed | Panic | Parsed(stat: Stat)

  /** readProcPID on the bytes of the file. */
  function ReadStat(content: string): Outcome {
    var open, close := Index(content, '('), LastIndex(content, ')');
    if open < 0 || close < 0 then Malformed
    else if open + 1 > close || close + 2 > |content| then Panic
    else
      var rest := Fields(content[close + 2..]);
      Parsed(Stat(content[open + 1..close],
                  if |rest| > 0 then rest[0] else "",
                  if |rest| > 12 then ParseUint(rest[11]) else 0,
                  if |rest| > 12 then ParseUint(rest[12]) else 0,
                  if |rest| > 17 then ParseInt(rest[17]) else 0,
                  if |rest| > 21 then ParseInt(rest[21]) else 0))
  }

  /** The same, filling the record step by step as the source does. */
  method ReadProcPID(content: string) returns (r: Outcome)
    ensures r == ReadStat(content)
  {
    hide Fields, Index, LastIndex, ParseUint, ParseInt;
    var open, close := Index(content, '('), LastIndex(content, ')');
    if open < 0 || close < 0 {
      return Malformed;
    }
    if open + 1 > close || close + 2 > |content| {
      return Panic;
    }
    var rest := Fields(content[close + 2..]);
    var ps := Stat(content[open + 1..close], "", 0, 0, 0, 0);
    if |rest| > 0 {
      ps := ps.(state := rest[0]);
    }
    if |rest| > 12 {
      ps := ps.(utime := ParseUint(rest[11]), stime := ParseUint(rest[12]));
    }
    if |rest| > 17 {
      ps := ps.(threads := ParseInt(rest[17]));
    }
    if |rest| > 21 {
      ps := ps.(rss := ParseInt(rest[21]));
    }
    return Parsed(ps);
  }

  datatype Snapshot = Snapshot(utime: int, stime: int, rss: int)

  /** parseProcStat. */
  function ParseProcStat(content: string): Snapshot {
    var close := LastIndex(content, ')');
    if close < 0 || close + 2 >= |content| then Snapshot(0, 0, 0)
    else
      var fields := Fields(content[close + 2..]);
      Snapshot(if |fields| > 12 then ParseUint(fields[11]) else 0,
               if |fields| > 12 then ParseUint(fields[12]) else 0,
               if |fields| > 21 then ParseInt(fields[21]) else 0)
  }

  /** Whenever the first parser succeeds, the second agrees with it. */
  lemma {:induction false} ParsersAgree(content: string)
    requires ReadStat(content).Parsed?
    ensures var s := ReadStat(content).stat;
            ParseProcStat(content) == Snapshot(s.utime, s.stime, s.rss)
  {}

  /** Exactly which files make readProcPID panic: those with both parentheses in which
      the last ')' ends the file or comes before every '('. */
  lemma {:induction false} PanicIff(content: string)
    ensures ReadStat(content).Panic? <==>
            && !Without(content, '(') && !Without(content, ')')
            && (content[|content| - 1] == ')' ||
                forall i, j :: 0 <= i < |content| && 0 <= j < |content| && content[i] == '(' && content[j] == ')' ==> j < i)
  {}

  /** Two such files, one for each reason. */
  lemma {:induction false} PanicExamples()
    ensures ReadStat("1 (a)") == Panic && ReadStat(") (x 1") == Panic
  {
    PanicIff("1 (a)");
    assert "1 (a)"[2] == '(' && "1 (a)"[4] == ')';
    var s := ") (x 1";
    assert s[0] == ')' && s[2] == '(';
    PanicIff(s);
  }

  /** The line the kernel prints: pid, comm in parentheses, then the other fields. */
  function Line(pid: nat, comm: string, tail: seq<string>): string {
    Decimal(pid) + " (" + comm + ") " + Join(tail, " ") + "\n"
  }

  ghost predicate Tail(tail: seq<string>) {
    && |tail| >= 22
    && forall i :: 0 <= i < |tail| ==> tail[i] != "" && NoSpace(tail[i]) && Without(tail[i], ')')
  }

  lemma {:induction false} JoinWithout(parts: seq<string>, c: char)
    requires c != ' ' && forall i :: 0 <= i < |parts| ==> Without(parts[i], c)
    ensures Without(Join(parts, " "), c)
  {
    if |parts| > 1 { JoinWithout(parts[1..], c); }
  }

  /** Whatever the name of the program - spaces, parentheses, anything - every
      field of the printed line is recovered. */
  lemma {:induction false} StatRoundTrip(pid: nat, comm: string, tail: seq<string>)
    requires Tail(tail)
    ensures ReadStat(Line(pid, comm, tail)) ==
            Parsed(Stat(comm, tail[0], ParseUint(tail[11]), ParseUint(tail[12]), ParseInt(tail[17]), ParseInt(tail[21])))
  {
    hide Fields, ParseUint, ParseInt, Decimal, Join, Index, LastIndex;
    var rest := Join(tail, " ") + "\n";
    var s := Line(pid, comm, tail);
    var head := Decimal(pid) + " ";
    assert s == head + ['('] + (comm + ") " + rest);
    assert Without(head, '(');
    IndexOfFirst(head, '(', comm + ") " + rest);
    assert s == (head + "(" + comm) + [')'] + (" " + rest);
    JoinWithout(tail, ')');
    assert Without(" " + rest, ')');
    LastIndexOfLast(head + "(" + comm, ')', " " + rest);
    var close := |head| + 1 + |comm|;
    assert s[close + 2..] == rest;
    assert s[|head| + 1..close] == comm;
    FieldsOfJoin(tail, "\n");
  }

  /** The second parser does not look at what comes before the last parenthesis: whatever it is, the
      fields after it are read. */
  lemma {:induction false} SecondParserReads(head: string, tail: seq<string>)
    requires Tail(tail)
    ensures ParseProcStat(head + ") " + Join(tail, " ") + "\n") ==
            Snapshot(ParseUint(tail[11]), ParseUint(tail[12]), ParseInt(tail[21]))
  {
    hide Fields, ParseUint, ParseInt, Join, LastIndex;
    var rest := Join(tail, " ") + "\n";
    var s := head + ") " + Join(tail, " ") + "\n";
    JoinWithout(tail, ')');
    assert Without(" " + rest, ')');
    assert s == head + [')'] + (" " + rest);
    LastIndexOfLast(head, ')', " " + rest);
    assert s[|head| + 2..] == rest;
    FieldsOfJoin(tail, "\n");
  }

  /** The numbers come back as numbers, and both parsers report them. */
  lemma {:induction false} StatNumbers(pid: nat, comm: string, tail: seq<string>, utime: int, stime: int, threads: int, rss: int)
    requires Tail(tail)
    requires tail[11] == Itoa(utime) && 0 <= utime <= MAX_UINT64
    requires tail[12] == Itoa(stime) && 0 <= stime <= MAX_UINT64
    requires tail[17] == Itoa(threads) && MIN_INT64 <= threads <= MAX_INT64
    requires tail[21] == Itoa(rss) && MIN_INT64 <= rss <= MAX_INT64
    ensures ReadStat(Line(pid, comm, tail)) == Parsed(Stat(comm, tail[0], utime, stime, threads, rss))
    ensures ParseProcStat(Line(pid, comm, tail)) == Snapshot(utime, stime, rss)
  {
    hide ReadStat, ParseProcStat, Line, Itoa, ParseUint, ParseInt;
    StatRoundTrip(pid, comm, tail);
    ItoaRoundTrip(utime);
    ItoaRoundTrip(stime);
    ItoaRoundTrip(threads);
    ItoaRoundTrip(rss);
    ParsersAgree(Line(pid, comm, tail));
  }
}
