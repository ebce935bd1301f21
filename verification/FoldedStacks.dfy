/** Folded stacks: ParseFoldedStacks of internal/executor/parsers.go and the
    printer GenerateFlameGraphFromFolded of internal/output/flamegraph.go. */
module FoldedStacks {
  import opened Seqs
  import opened Text
  import opened Report

  /** The stack on one line of text, if there is one. */
  function LineStack(line: string, kind: string): Option<StackTrace> {
    var t := TrimSpace(line);
    if t == "" || t[0] == '#' then None else
    var k := LastIndex(t, ' ');
    if k < 0 then None else
    match Atoi(t[k + 1..])
    case None => None
    case Some(c) => Some(StackTrace(t[..k], c, kind))
  }

  /** A line carries a stack if and only if, white space at its ends aside, it is the stack, one
      space and an int64 numeral; the stack is not empty and begins with neither white space nor `#`. */
  lemma {:induction false} LineStackIff(line: string, kind: string, stack: string, count: int)
    ensures LineStack(line, kind) == Some(StackTrace(stack, count, kind)) <==>
            && stack != "" && !IsSpace(stack[0]) && stack[0] != '#'
            && exists w0, numeral, w1 ::
                 AllSpace(w0) && AllSpace(w1) && Atoi(numeral) == Some(count) && line == w0 + ((stack + " " + numeral) + w1)
  {
    hide TrimSpace, Atoi, AllSpace;
    var t := TrimSpace(line);
    if LineStack(line, kind) == Some(StackTrace(stack, count, kind)) {
      var k := LastIndex(t, ' ');
      var numeral := t[k + 1..];
      assert t == stack + " " + numeral;
      TrimSpaceIff(line, t);
    }
    if stack != "" && !IsSpace(stack[0]) && stack[0] != '#' && exists w0, numeral, w1 ::
         AllSpace(w0) && AllSpace(w1) && Atoi(numeral) == Some(count) && line == w0 + ((stack + " " + numeral) + w1) {
      var w0, numeral, w1 :|
        AllSpace(w0) && AllSpace(w1) && Atoi(numeral) == Some(count) && line == w0 + ((stack + " " + numeral) + w1);
      var text := stack + " " + numeral;
      NumeralPlain(numeral);
      assert text[0] == stack[0] && text[|text| - 1] == numeral[|numeral| - 1];
      TrimSpaceIff(line, text);
      assert text == stack + [' '] + numeral;
      LastIndexOfLast(stack, ' ', numeral);
      assert text[..|stack|] == stack && text[|stack| + 1..] == numeral;
    }
  }

  lemma {:induction false} NumeralPlain(s: string)
    requires Atoi(s).Some?
    ensures s != "" && Without(s, ' ') && !IsSpace(s[|s| - 1])
  {
    SignedValueIff(s, Atoi(s).value);
  }

  function Collect(lines: seq<string>, kind: string): seq<StackTrace> {
    if lines == [] then []
    else (match LineStack(lines[0], kind) case Some(s) => [s] case None => []) + Collect(lines[1..], kind)
  }

  lemma {:induction false} CollectAppend(a: seq<string>, b: seq<string>, kind: string)
    ensures Collect(a + b, kind) == Collect(a, kind) + Collect(b, kind)
  {
    hide LineStack;
    if a == [] {
      assert a + b == b;
    } else {
      assert (a + b)[1..] == a[1..] + b;
      CollectAppend(a[1..], b, kind);
    }
  }

  /** The stacks in a text, in the order of its lines. */
  function StacksOf(raw: string, kind: string): seq<StackTrace> { Collect(Split(TrimSpace(raw), '\n'), kind) }

  function ByCountDescending(): (StackTrace, StackTrace) -> bool { (x: StackTrace, y: StackTrace) => x.count >= y.count }

  method ParseFoldedStacks(raw: string, kind: string) returns (stacks: seq<StackTrace>)
    ensures SortedPermutation(stacks, StacksOf(raw, kind), ByCountDescending())
    ensures forall i, j :: 0 <= i < j < |stacks| ==> stacks[i].count >= stacks[j].count
  {
    hide LineStack, TrimSpace, Split;
    var lines := Split(TrimSpace(raw), '\n');
    var found := [];
    for i := 0 to |lines|
      invariant found == Collect(lines[..i], kind)
    {
      assert lines[..i + 1] == lines[..i] + [lines[i]];
      CollectAppend(lines[..i], [lines[i]], kind);
      match LineStack(lines[i], kind)
      case None =>
      case Some(s) => found := found + [s];
    }
    assert lines[..|lines|] == lines;
    stacks := SortSlice(found, ByCountDescending());
  }

  function StackLine(s: StackTrace): string { s.stack + " " + Itoa(s.count) }

  function Printed(stacks: seq<StackTrace>): string {
    if stacks == [] then "" else StackLine(stacks[0]) + "\n" + Printed(stacks[1..])
  }

  method GenerateFlameGraphFromFolded(stacks: seq<StackTrace>) returns (text: string)
    ensures text == Printed(stacks)
  {
    hide StackLine;
    text := "";
    for i := 0 to |stacks|
      invariant text + Printed(stacks[i..]) == Printed(stacks)
    {
      text := text + StackLine(stacks[i]) + "\n";
    }
  }

  /** The stacks the folded format can carry. */
  ghost predicate Foldable(s: StackTrace) {
    && s.stack != "" && Without(s.stack, '\n')
    && !IsSpace(s.stack[0]) && s.stack[0] != '#'
    && MIN_INT64 <= s.count <= MAX_INT64
  }

  /** The parser stamps its own kind on every stack. */
  function Retag(stacks: seq<StackTrace>, kind: string): (r: seq<StackTrace>)
    ensures |r| == |stacks|
  {
    if stacks == [] then [] else [stacks[0].(kind := kind)] + Retag(stacks[1..], kind)
  }

  // ---------------------------------------------------------------------
  // Printing, then parsing

  lemma {:induction false} StackLineReadsBack(s: StackTrace, kind: string)
    requires Foldable(s)
    ensures LineStack(StackLine(s), kind) == Some(s.(kind := kind))
    ensures Without(StackLine(s), '\n')
    ensures StackLine(s) != "" && !IsSpace(StackLine(s)[0]) && !IsSpace(StackLine(s)[|StackLine(s)| - 1])
  {
    hide Itoa, Atoi, LastIndex;
    var t := StackLine(s);
    ItoaRoundTrip(s.count);
    assert t == s.stack + [' '] + Itoa(s.count);
    LastIndexOfLast(s.stack, ' ', Itoa(s.count));
    assert t[0] == s.stack[0];
    assert t[|t| - 1] == Itoa(s.count)[|Itoa(s.count)| - 1];
    TrimSpaceIdentity(t);
    assert t[|s.stack| + 1..] == Itoa(s.count) && t[..|s.stack|] == s.stack;
  }

  ghost function LinesOf(stacks: seq<StackTrace>): (r: seq<string>)
    ensures |r| == |stacks|
    ensures forall i :: 0 <= i < |r| ==> r[i] == StackLine(stacks[i])
  {
    seq(|stacks|, i requires 0 <= i < |stacks| => StackLine(stacks[i]))
  }

  lemma {:induction false} PrintedIsJoined(stacks: seq<StackTrace>)
    requires stacks != []
    ensures Printed(stacks) == Join(LinesOf(stacks), "\n") + "\n"
  {
    hide StackLine;
    var lines := LinesOf(stacks);
    if |stacks| == 1 {
      assert Printed(stacks[1..]) == "";
    } else {
      PrintedIsJoined(stacks[1..]);
      assert lines[1..] == LinesOf(stacks[1..]);
    }
  }

  lemma {:induction false} JoinEnds(lines: seq<string>)
    requires lines != []
    requires forall i :: 0 <= i < |lines| ==>
               lines[i] != "" && !IsSpace(lines[i][0]) && !IsSpace(lines[i][|lines[i]| - 1])
    ensures var s := Join(lines, "\n"); s != "" && !IsSpace(s[0]) && !IsSpace(s[|s| - 1])
  {
    if |lines| > 1 {
      JoinEnds(lines[1..]);
      var rest := Join(lines[1..], "\n");
      var s := Join(lines, "\n");
      assert s == lines[0] + "\n" + rest;
      assert s[0] == lines[0][0] && s[|s| - 1] == rest[|rest| - 1];
    }
  }

  lemma {:induction false} TrimFinalNewline(s: string)
    requires s != "" && !IsSpace(s[0]) && !IsSpace(s[|s| - 1])
    ensures TrimSpace(s + "\n") == s
  {
    var t := s + "\n";
    assert t[0] == s[0] && TrimLeft(t) == t;
    assert t[..|t| - 1] == s;
    assert TrimRight(t) == TrimRight(s) == s;
  }

  lemma {:induction false} CollectLines(stacks: seq<StackTrace>, kind: string)
    requires forall i :: 0 <= i < |stacks| ==> Foldable(stacks[i])
    ensures Collect(LinesOf(stacks), kind) == Retag(stacks, kind)
  {
    hide StackLine, LineStack, Foldable;
    if stacks != [] {
      StackLineReadsBack(stacks[0], kind);
      assert LinesOf(stacks)[1..] == LinesOf(stacks[1..]);
      CollectLines(stacks[1..], kind);
    }
  }

  /** Parsing what was printed gives back the stacks, in order. */
  lemma {:induction false} PrintParse(stacks: seq<StackTrace>, kind: string)
    requires forall i :: 0 <= i < |stacks| ==> Foldable(stacks[i])
    ensures StacksOf(Printed(stacks), kind) == Retag(stacks, kind)
  {
    hide StackLine, LineStack, Foldable, TrimSpace, Split;
    var lines := LinesOf(stacks);
    if stacks == [] {
      NothingInNothing(kind);
    } else {
      forall i | 0 <= i < |lines|
        ensures Without(lines[i], '\n')
        ensures lines[i] != "" && !IsSpace(lines[i][0]) && !IsSpace(lines[i][|lines[i]| - 1])
      {
        assert Foldable(stacks[i]);
        StackLineReadsBack(stacks[i], kind);
      }
      PrintedIsJoined(stacks);
      JoinEnds(lines);
      TrimFinalNewline(Join(lines, "\n"));
      SplitJoin(lines, '\n');
      CollectLines(stacks, kind);
    }
  }

  lemma {:induction false} NothingInNothing(kind: string)
    ensures StacksOf("", kind) == []
  {
    assert TrimSpace("") == "";
    assert Split("", '\n') == [""];
    assert LineStack("", kind).None?;
    assert Collect([""], kind) == [];
  }

  // ---------------------------------------------------------------------
  // Parsing, then printing

  lemma {:induction false} LineStackFoldable(line: string, kind: string)
    requires Without(line, '\n') && LineStack(line, kind).Some?
    ensures Foldable(LineStack(line, kind).value) && LineStack(line, kind).value.kind == kind
  {}

  /** Whatever the text, everything parsed from it can be printed and parsed again. */
  lemma {:induction false} CollectFoldable(lines: seq<string>, kind: string)
    requires forall i :: 0 <= i < |lines| ==> Without(lines[i], '\n')
    ensures forall i :: 0 <= i < |Collect(lines, kind)| ==>
              Foldable(Collect(lines, kind)[i]) && Collect(lines, kind)[i].kind == kind
  {
    hide LineStack, Foldable, Without;
    if lines != [] {
      if LineStack(lines[0], kind).Some? { LineStackFoldable(lines[0], kind); }
      CollectFoldable(lines[1..], kind);
    }
  }

  lemma {:induction false} ParsedFoldable(raw: string, kind: string)
    ensures forall i :: 0 <= i < |StacksOf(raw, kind)| ==>
              Foldable(StacksOf(raw, kind)[i]) && StacksOf(raw, kind)[i].kind == kind
  {
    hide LineStack, Foldable, Without, TrimSpace;
    CollectFoldable(Split(TrimSpace(raw), '\n'), kind);
  }

  lemma {:induction false} RetagSame(stacks: seq<StackTrace>, kind: string)
    requires forall i :: 0 <= i < |stacks| ==> stacks[i].kind == kind
    ensures Retag(stacks, kind) == stacks
  {
    if stacks != [] { RetagSame(stacks[1..], kind); }
  }

  lemma {:induction false} RetagAt(stacks: seq<StackTrace>, kind: string, i: nat)
    requires i < |stacks|
    ensures Retag(stacks, kind)[i] == stacks[i].(kind := kind)
  {
    if i > 0 { RetagAt(stacks[1..], kind, i - 1); }
  }

  /** Printing then parsing loses nothing exactly on the foldable stacks. */
  lemma {:induction false} RoundTripIff(stacks: seq<StackTrace>, kind: string)
    ensures StacksOf(Printed(stacks), kind) == Retag(stacks, kind) <==>
            forall i :: 0 <= i < |stacks| ==> Foldable(stacks[i])
  {
    hide StacksOf, Printed, Retag;
    if forall i :: 0 <= i < |stacks| ==> Foldable(stacks[i]) {
      PrintParse(stacks, kind);
    } else if StacksOf(Printed(stacks), kind) == Retag(stacks, kind) {
      ParsedFoldable(Printed(stacks), kind);
      var i :| 0 <= i < |stacks| && !Foldable(stacks[i]);
      RetagAt(stacks, kind, i);
      assert false;
    }
  }

  /** For every raw text: parse, print, parse again, and the stacks are the same
      up to the order the descending sort leaves open. */
  lemma {:induction false} ParsePrintParse(raw: string, kind: string, first: seq<StackTrace>, second: seq<StackTrace>)
    requires SortedPermutation(first, StacksOf(raw, kind), ByCountDescending())
    requires SortedPermutation(second, StacksOf(Printed(first), kind), ByCountDescending())
    ensures Permutation(second, first) && Permutation(second, StacksOf(raw, kind))
  {
    hide StacksOf, Printed, Foldable;
    ParsedFoldable(raw, kind);
    forall i | 0 <= i < |first| ensures Foldable(first[i]) && first[i].kind == kind {
      PermutationMember(first, StacksOf(raw, kind), first[i]);
    }
    PrintParse(first, kind);
    RetagSame(first, kind);
  }
}
