/** internal/executor/parsers.go: the three regular expressions as grammars.  The recognisers of
    HistogramParser accept exactly these texts and report exactly these parts. */
module LineGrammar {
  import opened Seqs
  import opened Text
  import opened Report
  import opened HistogramStats
  import opened HistogramParser

  /** \s* */
  ghost predicate White(s: string) {
    forall i :: 0 <= i < |s| ==> s[i] == ' ' || s[i] == '\t' || s[i] == '\n' || s[i] == '\r' || s[i] == '\U{000C}'
  }

  /** \d+ */
  ghost predicate Number(s: string) { s != "" && forall i :: 0 <= i < |s| ==> '0' <= s[i] <= '9' }

  /** \w */
  ghost predicate WordChar(c: char) { '0' <= c <= '9' || 'A' <= c <= 'Z' || 'a' <= c <= 'z' || c == '_' }

  /** The value of a number, the largest int64 when it is larger. */
  function Value(digits: string): int { if AllDigits(digits) then Min(DecimalValue(digits), MAX_INT64) else 0 }

  // ---------------------------------------------------------------------
  // Bucket lines

  datatype Parts = Parts(w0: string, low: string, w1: string, w2: string, high: string, w3: string, w4: string, count: string, rest: string)

  /** White space, low, "->", high, ":", count, with white space in between, and then anything that
      does not go on with the count. */
  ghost predicate BucketText(line: string, p: Parts) {
    && White(p.w0) && White(p.w1) && White(p.w2) && White(p.w3) && White(p.w4)
    && Number(p.low) && Number(p.high) && Number(p.count)
    && (p.rest == "" || !('0' <= p.rest[0] <= '9'))
    && line == p.w0 + (p.low + (p.w1 + ("->" + (p.w2 + (p.high + (p.w3 + (":" + (p.w4 + (p.count + p.rest)))))))))
  }

  lemma {:induction false} SkipsWhite(s: string) returns (w: string)
    ensures White(w) && s == w + SkipSpace(s) && (SkipSpace(s) == "" || !IsReSpace(SkipSpace(s)[0]))
  {
    w := s[..Run(s, IsReSpace)];
  }

  lemma {:induction false} WhiteSkipped(w: string, s: string)
    requires White(w) && (s == "" || !IsReSpace(s[0]))
    ensures SkipSpace(w + s) == s
  {
    RunOf(w, s, IsReSpace);
  }

  lemma {:induction false} NumberTaken(digits: string, rest: string)
    requires Number(digits) && (rest == "" || !('0' <= rest[0] <= '9'))
    ensures var s := digits + rest;
            Run(s, IsDigit) == |digits| && s[..|digits|] == digits && s[|digits|..] == rest && !IsReSpace(s[0])
    ensures AllDigits(digits) && ParseInt(digits) == Value(digits)
  {
    RunOf(digits, rest, IsDigit);
    NumberValue(digits);
    assert (digits + rest)[0] == digits[0];
  }

  lemma {:induction false} NumberValue(digits: string)
    requires Number(digits)
    ensures AllDigits(digits) && ParseInt(digits) == Value(digits)
  {
    assert IsDigit(digits[0]);
  }

  /** One number, the white space around it and the mark that follows. */
  lemma {:induction false} FieldTaken(w: string, digits: string, gap: string, mark: string, rest: string)
    requires White(w) && Number(digits) && White(gap) && mark != "" && !IsDigit(mark[0]) && !IsReSpace(mark[0])
    ensures var s := SkipSpace(w + (digits + (gap + (mark + rest))));
            && Run(s, IsDigit) == |digits| && s[..|digits|] == digits
            && SkipSpace(s[|digits|..]) == mark + rest && ParseInt(digits) == Value(digits)
  {
    hide Run, ParseInt, Value, SkipSpace;
    assert (gap + (mark + rest))[0] == if gap == "" then mark[0] else gap[0];
    NumberTaken(digits, gap + (mark + rest));
    WhiteSkipped(w, digits + (gap + (mark + rest)));
    assert (mark + rest)[0] == mark[0];
    WhiteSkipped(gap, mark + rest);
  }

  lemma {:induction false} BucketRead(line: string, p: Parts)
    requires BucketText(line, p)
    ensures BucketLine(line) == Some(Bucket(Value(p.low), Value(p.high), Value(p.count)))
  {
    hide Run, ParseInt, Value, SkipSpace;
    var t4 := p.w4 + (p.count + p.rest);
    var t2 := p.w2 + (p.high + (p.w3 + (":" + t4)));
    assert line == p.w0 + (p.low + (p.w1 + ("->" + t2)));
    FieldTaken(p.w0, p.low, p.w1, "->", t2);
    assert ("->" + t2)[2..] == t2;
    FieldTaken(p.w2, p.high, p.w3, ":", t4);
    assert (":" + t4)[1..] == t4;
    NumberTaken(p.count, p.rest);
    WhiteSkipped(p.w4, p.count + p.rest);
  }

  /** The white space, the number and the white space at the start of a text, and what follows. */
  lemma {:induction false} FieldShape(s: string) returns (w: string, digits: string, gap: string)
    ensures White(w) && White(gap)
    ensures var t := SkipSpace(s);
            && digits == t[..Run(t, IsDigit)] && (Run(t, IsDigit) > 0 ==> Number(digits))
            && s == w + (digits + (gap + SkipSpace(t[Run(t, IsDigit)..])))
  {
    hide SkipSpace, White, Run;
    w := SkipsWhite(s);
    var t := SkipSpace(s);
    digits := t[..Run(t, IsDigit)];
    DigitsRun(t);
    gap := SkipsWhite(t[Run(t, IsDigit)..]);
    assert t == digits + t[Run(t, IsDigit)..];
  }

  lemma {:induction false} DigitsRun(t: string)
    ensures Run(t, IsDigit) > 0 ==> Number(t[..Run(t, IsDigit)])
  {}

  /** Where the recogniser stands after "->", and after ":". */
  lemma {:induction false} BucketPieces(line: string) returns (t: string, u: string)
    requires BucketLine(line).Some?
    ensures var s := SkipSpace(line); Run(s, IsDigit) > 0 && SkipSpace(s[Run(s, IsDigit)..]) == "->" + t
    ensures var s := SkipSpace(t); Run(s, IsDigit) > 0 && SkipSpace(s[Run(s, IsDigit)..]) == ":" + u
    ensures Run(SkipSpace(u), IsDigit) > 0
  {
    hide Run, SkipSpace, ParseInt;
    var s0 := SkipSpace(line);
    var s1 := SkipSpace(s0[Run(s0, IsDigit)..]);
    t := s1[2..];
    var s2 := SkipSpace(t);
    var s3 := SkipSpace(s2[Run(s2, IsDigit)..]);
    u := s3[1..];
    assert "->" <= s1 && ":" <= s3;
  }

  /** The parts of an accepted line. */
  lemma {:induction false} BucketShaped(line: string) returns (p: Parts)
    requires BucketLine(line).Some?
    ensures BucketText(line, p)
  {
    hide BucketLine, Run, SkipSpace, White, Number;
    var t, u := BucketPieces(line);
    var w0, low, w1 := FieldShape(line);
    var w2, high, w3 := FieldShape(t);
    var w4, count, rest := CountShape(u);
    p := Parts(w0, low, w1, w2, high, w3, w4, count, rest);
  }

  lemma {:induction false} CountShape(u: string) returns (w: string, count: string, rest: string)
    requires Run(SkipSpace(u), IsDigit) > 0
    ensures White(w) && Number(count) && (rest == "" || !('0' <= rest[0] <= '9')) && u == w + (count + rest)
  {
    w := SkipsWhite(u);
    var s := SkipSpace(u);
    var n := Run(s, IsDigit);
    count, rest := s[..n], s[n..];
    assert s == count + rest;
  }

  /** A line is a bucket line if and only if it has this shape, and its bucket is made of the three
      numbers. */
  lemma {:induction false} BucketLineIff(line: string, b: Bucket)
    ensures BucketLine(line) == Some(b) <==>
            exists p :: BucketText(line, p) && b == Bucket(Value(p.low), Value(p.high), Value(p.count))
  {
    hide BucketLine, BucketText, Value;
    if BucketLine(line).Some? {
      var p := BucketShaped(line);
      BucketRead(line, p);
    }
    forall p | BucketText(line, p) ensures BucketLine(line) == Some(Bucket(Value(p.low), Value(p.high), Value(p.count))) {
      BucketRead(line, p);
    }
  }

  // ---------------------------------------------------------------------
  // Disk headers

  /** The letters of "disk" in either case. */
  ghost predicate DiskWord(k: string) {
    && |k| == 4 && (k[0] == 'd' || k[0] == 'D') && (k[1] == 'i' || k[1] == 'I')
    && (k[2] == 's' || k[2] == 'S') && (k[3] == 'k' || k[3] == 'K')
  }

  /** "disk", "=", an optional quote and the name, as far as it is a word. */
  ghost predicate HeaderText(s: string, k: string, w0: string, w1: string, quote: string, name: string, rest: string) {
    && DiskWord(k) && White(w0) && White(w1) && (quote == "" || quote == "'")
    && name != "" && (forall i :: 0 <= i < |name| ==> WordChar(name[i]))
    && (rest == "" || !WordChar(rest[0]))
    && s == k + (w0 + ("=" + (w1 + (quote + (name + rest)))))
  }

  /** The text begins like a header of this disk. */
  ghost predicate HeadsAt(s: string, name: string) {
    exists k, w0, w1, quote, rest :: HeaderText(s, k, w0, w1, quote, name, rest)
  }

  lemma {:induction false} LowerDisk(a: char, b: char, c: char, d: char)
    ensures [Lower(a), Lower(b), Lower(c), Lower(d)] == "disk" <==> DiskWord([a, b, c, d])
  {
    LowerIs(a, 'd');
    LowerIs(b, 'i');
    LowerIs(c, 's');
    LowerIs(d, 'k');
  }

  lemma {:induction false} LowerIs(c: char, letter: char)
    requires 'a' <= letter <= 'z'
    ensures Lower(c) == letter <==> c == letter || (c < 'a' && c == 'A' + (letter - 'a'))
  {}

  /** Where the recogniser stands after "=". */
  lemma {:induction false} HeaderPieces(s: string)
    ensures HeaderAt(s).Some? <==>
            && |s| >= 4 && DiskWord(s[..4]) && "=" <= SkipSpace(s[4..])
            && var t := SkipSpace(SkipSpace(s[4..])[1..]);
               Run(if "'" <= t then t[1..] else t, IsWord) > 0
    ensures HeaderAt(s).Some? ==>
              var t := SkipSpace(SkipSpace(s[4..])[1..]);
              var u := if "'" <= t then t[1..] else t;
              HeaderAt(s).value == u[..Run(u, IsWord)]
  {
    hide Run, SkipSpace, Lower;
    if |s| >= 4 {
      LowerDisk(s[0], s[1], s[2], s[3]);
      assert s[..4] == [s[0], s[1], s[2], s[3]];
    }
  }

  ghost predicate NameText(t: string, quote: string, name: string, rest: string) {
    && (quote == "" || quote == "'")
    && name != "" && (forall i :: 0 <= i < |name| ==> WordChar(name[i]))
    && (rest == "" || !WordChar(rest[0]))
    && t == quote + (name + rest)
  }

  lemma {:induction false} NameShape(t: string) returns (quote: string, rest: string)
    requires Run(if "'" <= t then t[1..] else t, IsWord) > 0
    ensures var u := if "'" <= t then t[1..] else t; NameText(t, quote, u[..Run(u, IsWord)], rest)
  {
    hide Run, NameText;
    if "'" <= t {
      quote, rest := "'", WordShape("'", t[1..]);
      assert t == "'" + t[1..];
    } else {
      quote, rest := "", WordShape("", t);
      assert t == "" + t;
    }
  }

  ghost function WordShape(quote: string, u: string): (rest: string)
    requires quote == "" || quote == "'"
    requires Run(u, IsWord) > 0
    ensures NameText(quote + u, quote, u[..Run(u, IsWord)], rest)
  {
    var n := Run(u, IsWord);
    assert u == u[..n] + u[n..];
    u[n..]
  }

  lemma {:induction false} HeaderShaped(s: string)
    requires HeaderAt(s).Some?
    ensures HeadsAt(s, HeaderAt(s).value)
  {
    hide HeaderAt, SkipSpace, Run, White, DiskWord, NameText;
    HeaderPieces(s);
    var w0 := SkipsWhite(s[4..]);
    var v := SkipSpace(s[4..])[1..];
    var w1 := SkipsWhite(v);
    var quote, rest := NameShape(SkipSpace(v));
    assert SkipSpace(s[4..]) == "=" + v;
    HeaderFrom(s, w0, w1, SkipSpace(v), quote, HeaderAt(s).value, rest);
  }

  lemma {:induction false} HeaderFrom(s: string, w0: string, w1: string, t: string, quote: string, name: string, rest: string)
    requires |s| >= 4 && DiskWord(s[..4]) && White(w0) && White(w1) && NameText(t, quote, name, rest)
    requires s[4..] == w0 + ("=" + (w1 + t))
    ensures HeadsAt(s, name)
  {
    hide DiskWord, White;
    assert s == s[..4] + s[4..];
    assert HeaderText(s, s[..4], w0, w1, quote, name, rest);
  }

  lemma {:induction false} HeaderRead(s: string, k: string, w0: string, w1: string, quote: string, name: string, rest: string)
    requires HeaderText(s, k, w0, w1, quote, name, rest)
    ensures HeaderAt(s) == Some(name)
  {
    hide HeaderAt, SkipSpace;
    var word := name + rest;
    var t := quote + word;
    var v := w1 + t;
    assert s[..4] == k && s[4..] == w0 + ("=" + v);
    WhiteSkipped(w0, "=" + v);
    assert ("=" + v)[1..] == v;
    assert word[0] == name[0] && WordChar(name[0]);
    assert t[0] == if quote == "" then name[0] else quote[0];
    WhiteSkipped(w1, t);
    assert quote == "'" ==> t[1..] == word;
    assert quote == "" ==> t == word && !("'" <= t);
    RunOf(name, rest, IsWord);
    HeaderPieces(s);
  }

  ghost predicate Headless(line: string, n: int)
    requires n <= |line|
  {
    forall j, name :: 0 <= j < n ==> !HeadsAt(line[j..], name)
  }

  /** The first place where a header begins. */
  ghost predicate Leftmost(line: string, i: int, name: string) {
    0 <= i < |line| && HeadsAt(line[i..], name) && Headless(line, i)
  }

  lemma {:induction false} HeadlessRest(line: string, n: nat)
    requires 0 < n <= |line|
    ensures Headless(line, n) <==> (forall name :: !HeadsAt(line, name)) && Headless(line[1..], n - 1)
  {
    hide HeadsAt;
    var rest := line[1..];
    assert line[0..] == line;
    assert forall j :: 0 <= j < n - 1 ==> rest[j..] == line[j + 1..];
    if (forall name :: !HeadsAt(line, name)) && Headless(rest, n - 1) {
      forall j, name | 0 <= j < n ensures !HeadsAt(line[j..], name) {
        if j > 0 { assert rest[j - 1..] == line[j..]; }
      }
    }
    if Headless(line, n) {
      assert forall name :: !HeadsAt(line[0..], name);
      forall j, name | 0 <= j < n - 1 ensures !HeadsAt(rest[j..], name) {
        assert !HeadsAt(line[j + 1..], name);
      }
    }
  }

  /** A line names a disk if and only if its leftmost header does, and none if and only if no header
      begins anywhere. */
  lemma {:induction false} DiskHeaderIff(line: string, name: string)
    ensures DiskHeader(line) == Some(name) <==> exists i :: Leftmost(line, i, name)
    ensures DiskHeader(line).None? <==> Headless(line, |line|)
  {
    hide HeadsAt, HeaderAt, Headless;
    if line == "" {
      assert Headless(line, 0) by { HeadlessNone(line); }
    } else {
      var rest := line[1..];
      HeaderIff(line);
      DiskHeaderIff(rest, name);
      HeadlessRest(line, |line|);
      HeadlessNone(line);
      assert line[0..] == line;
      forall i | 0 < i < |line| ensures Leftmost(line, i, name) <==> HeaderAt(line).None? && Leftmost(rest, i - 1, name) {
        HeadlessRest(line, i);
        assert rest[i - 1..] == line[i..];
      }
      if i :| Leftmost(rest, i, name) { assert Leftmost(line, i + 1, name) <==> HeaderAt(line).None?; }
      assert HeaderAt(line) == Some(name) ==> Leftmost(line, 0, name);
    }
  }

  lemma {:induction false} HeadlessNone(line: string)
    ensures Headless(line, 0)
  {}

  lemma {:induction false} HeaderIff(s: string)
    ensures forall name :: HeadsAt(s, name) <==> HeaderAt(s) == Some(name)
  {
    hide HeaderAt;
    if HeaderAt(s).Some? { HeaderShaped(s); }
    forall name | HeadsAt(s, name) ensures HeaderAt(s) == Some(name) {
      var k, w0, w1, quote, rest :| HeaderText(s, k, w0, w1, quote, name, rest);
      HeaderRead(s, k, w0, w1, quote, name, rest);
    }
  }

  // ---------------------------------------------------------------------
  // Escape sequences

  /** ESC, "[", digits and semicolons, and one of five letters. */
  ghost predicate AnsiSequence(e: string) {
    && |e| >= 3 && e[0] == '\U{001B}' && e[1] == '['
    && (forall i :: 2 <= i < |e| - 1 ==> '0' <= e[i] <= '9' || e[i] == ';')
    && (e[|e| - 1] == 'm' || e[|e| - 1] == 'G' || e[|e| - 1] == 'K' || e[|e| - 1] == 'H' || e[|e| - 1] == 'F')
  }

  lemma {:induction false} SequenceLength(e: string, b: string)
    requires AnsiSequence(e)
    ensures EscapeLength(e + b) == |e| > 0 && Breaks(e + b)
  {
    var n := |e| - 3;
    var args, tail := e[2..|e| - 1], [e[|e| - 1]] + b;
    assert (e + b)[2..] == args + tail;
    assert forall i :: 0 <= i < |args| ==> args[i] == e[i + 2];
    RunOf(args, tail, IsAnsiArg);
    assert (e + b)[|e| - 1] == e[|e| - 1];
  }

  /** stripANSI takes a sequence out wherever it stands, and nothing around it. */
  lemma {:induction false} SequenceErased(a: string, e: string, b: string)
    requires AnsiSequence(e)
    ensures StripANSI(a + (e + b)) == StripANSI(a) + StripANSI(b)
  {
    hide AnsiSequence, EscapeLength, StripANSI;
    SequenceLength(e, b);
    StripSplits(a, e + b);
    StripStep(e + b, |e|, "");
    assert (e + b)[|e|..] == b;
    assert "" + StripANSI(b) == StripANSI(b);
  }

  lemma {:induction false} EscapeIsSequence(s: string)
    ensures EscapeLength(s) > 0 ==> AnsiSequence(s[..EscapeLength(s)])
  {
    if EscapeLength(s) > 0 {
      var n := Run(s[2..], IsAnsiArg);
      assert EscapeLength(s) == 3 + n;
      assert forall i :: 2 <= i < 2 + n ==> s[i] == s[2..][i - 2];
    }
  }

  ghost predicate HasSequence(s: string) { exists i, j :: 0 <= i <= j <= |s| && AnsiSequence(s[i..j]) }

  lemma {:induction false} SequenceInRest(s: string)
    requires s != ""
    ensures HasSequence(s[1..]) ==> HasSequence(s)
  {
    hide AnsiSequence;
    if HasSequence(s[1..]) {
      var i, j :| 0 <= i <= j <= |s[1..]| && AnsiSequence(s[1..][i..j]);
      assert s[1..][i..j] == s[i + 1..j + 1];
    }
  }

  lemma {:induction false} StripShortens(s: string)
    ensures |StripANSI(s)| <= |s|
    decreases |s|
  {
    hide EscapeLength;
    if s != "" { StripShortens(s[if EscapeLength(s) > 0 then EscapeLength(s) else 1..]); }
  }

  /** A text is left as it is if and only if no sequence stands anywhere in it. */
  lemma {:induction false} UnchangedIff(s: string)
    ensures StripANSI(s) == s <==> !HasSequence(s)
    decreases |s|
  {
    if HasSequence(s) {
      hide StripANSI, AnsiSequence;
      var i, j :| 0 <= i <= j <= |s| && AnsiSequence(s[i..j]);
      assert s == s[..i] + (s[i..j] + s[j..]);
      SequenceErased(s[..i], s[i..j], s[j..]);
      StripShortens(s[..i]);
      StripShortens(s[j..]);
      assert i < j by { SequenceLength(s[i..j], ""); }
    } else if s != "" {
      EscapeIsSequence(s);
      assert s[0..EscapeLength(s)] == s[..EscapeLength(s)];
      hide EscapeLength, AnsiSequence;
      SequenceInRest(s);
      UnchangedIff(s[1..]);
    }
  }
}
