/** The parts of Go's `strings` and `strconv` the parsers rely on, as functions
    on character sequences.  White space is the ASCII white space of Go. */
module Text {

  datatype Option<+T> = None | Some(value: T)

  const MAX_INT64: int := 0x7FFF_FFFF_FFFF_FFFF
  const MIN_INT64: int := -0x8000_0000_0000_0000
  const MAX_UINT64: int := 0xFFFF_FFFF_FFFF_FFFF
  const TWO63: int := 0x8000_0000_0000_0000

  type Byte = x: int | 0 <= x < 256

  /** What is left of an integer in 64 signed bits. */
  function Int64(x: int): (r: int)
    ensures MIN_INT64 <= r <= MAX_INT64
    ensures MIN_INT64 <= x <= MAX_INT64 ==> r == x
  {
    (x + TWO63) % (2 * TWO63) - TWO63
  }

  lemma {:induction false} Int64Sum(x: int, y: int)
    ensures Int64(Int64(x) + y) == Int64(x + y)
  {
    var m := 2 * TWO63;
    assert (Int64(x) - x) % m == 0;
  }

  predicate IsSpace(c: char) {
    c == ' ' || c == '\t' || c == '\n' || c == '\r' || c == '\U{000B}' || c == '\U{000C}'
  }

  predicate IsDigit(c: char) { '0' <= c <= '9' }

  predicate Without(s: string, c: char) { forall i :: 0 <= i < |s| ==> s[i] != c }

  predicate NoSpace(s: string) { forall i :: 0 <= i < |s| ==> !IsSpace(s[i]) }

  predicate AllDigits(s: string) { forall i :: 0 <= i < |s| ==> IsDigit(s[i]) }

  // ---------------------------------------------------------------------
  // strings.Index and strings.LastIndex for one character

  function Index(s: string, c: char): (r: int)
    ensures -1 <= r < |s|
    ensures r == -1 ==> Without(s, c)
    ensures r >= 0 ==> s[r] == c && forall i :: 0 <= i < r ==> s[i] != c
  {
    if s == "" then -1
    else if s[0] == c then 0
    else
      var r := Index(s[1..], c);
      assert forall i :: 1 <= i < |s| ==> s[i] == s[1..][i - 1];
      if r < 0 then -1 else r + 1
  }

  function LastIndex(s: string, c: char): (r: int)
    ensures -1 <= r < |s|
    ensures r == -1 ==> Without(s, c)
    ensures r >= 0 ==> s[r] == c && forall i :: r < i < |s| ==> s[i] != c
  {
    if s == "" then -1
    else if s[|s| - 1] == c then |s| - 1
    else LastIndex(s[..|s| - 1], c)
  }

  lemma {:induction false} IndexOfFirst(a: string, c: char, b: string)
    requires Without(a, c)
    ensures Index(a + [c] + b, c) == |a|
  {
    var s := a + [c] + b;
    var r := Index(s, c);
    assert s[|a|] == c;
    assert forall i :: 0 <= i < |a| ==> s[i] == a[i];
  }

  lemma {:induction false} LastIndexOfLast(a: string, c: char, b: string)
    requires Without(b, c)
    ensures LastIndex(a + [c] + b, c) == |a|
  {
    var s := a + [c] + b;
    var r := LastIndex(s, c);
    assert s[|a|] == c;
    forall i | |a| < i < |s| ensures s[i] != c { assert s[i] == b[i - |a| - 1]; }
  }

  // ---------------------------------------------------------------------
  // strings.Split and strings.Join for one separator

  function Split(s: string, sep: char): (r: seq<string>)
    ensures |r| >= 1
    ensures forall i :: 0 <= i < |r| ==> Without(r[i], sep)
    decreases |s|
  {
    var k := Index(s, sep);
    hide Without, Index;
    if k < 0 then [s]
    else
      var rest := Split(s[k + 1..], sep);
      HeadWithout(s, k, sep, rest);
      [s[..k]] + rest
  }

  lemma {:induction false} HeadWithout(s: string, k: nat, c: char, rest: seq<string>)
    requires k <= |s| && forall i :: 0 <= i < k ==> s[i] != c
    requires forall i :: 0 <= i < |rest| ==> Without(rest[i], c)
    ensures forall i :: 0 <= i < |[s[..k]] + rest| ==> Without(([s[..k]] + rest)[i], c)
  {}

  function Join(parts: seq<string>, sep: string): string {
    if parts == [] then ""
    else if |parts| == 1 then parts[0]
    else parts[0] + sep + Join(parts[1..], sep)
  }

  lemma {:induction false} SplitJoin(parts: seq<string>, sep: char)
    requires |parts| >= 1
    requires forall i :: 0 <= i < |parts| ==> Without(parts[i], sep)
    ensures Split(Join(parts, [sep]), sep) == parts
    decreases |parts|
  {
    if |parts| == 1 {
      assert parts == [parts[0]];
      SplitWhole(parts[0], sep);
    } else {
      SplitAt(parts[0], sep, Join(parts[1..], [sep]));
      hide Split, Without;
      SplitJoin(parts[1..], sep);
      assert parts == [parts[0]] + parts[1..];
    }
  }

  lemma {:induction false} SplitWhole(s: string, sep: char)
    requires Without(s, sep)
    ensures Split(s, sep) == [s]
  {}

  lemma {:induction false} SplitAt(head: string, sep: char, rest: string)
    requires Without(head, sep)
    ensures Split(head + [sep] + rest, sep) == [head] + Split(rest, sep)
  {
    hide Index;
    var s := head + [sep] + rest;
    IndexOfFirst(head, sep, rest);
    assert s[..|head|] == head && s[|head| + 1..] == rest;
  }

  // ---------------------------------------------------------------------
  // strings.TrimSpace

  function TrimLeft(s: string): (r: string)
    ensures r == "" || !IsSpace(r[0])
    ensures |r| <= |s| && r == s[|s| - |r|..]
  {
    if s != "" && IsSpace(s[0]) then TrimLeft(s[1..]) else s
  }

  function TrimRight(s: string): (r: string)
    ensures r == "" || !IsSpace(r[|r| - 1])
    ensures |r| <= |s| && r == s[..|r|]
  {
    if s != "" && IsSpace(s[|s| - 1]) then TrimRight(s[..|s| - 1]) else s
  }

  function TrimSpace(s: string): (r: string)
    ensures r == "" || (!IsSpace(r[0]) && !IsSpace(r[|r| - 1]))
    ensures forall c :: Without(s, c) ==> Without(r, c)
  {
    TrimRight(TrimLeft(s))
  }

  lemma {:induction false} TrimSpaceIdentity(s: string)
    requires s == "" || (!IsSpace(s[0]) && !IsSpace(s[|s| - 1]))
    ensures TrimSpace(s) == s
  {}

  /** The six characters that are white space. */
  ghost predicate AllSpace(s: string) {
    forall i :: 0 <= i < |s| ==>
      s[i] == ' ' || s[i] == '\t' || s[i] == '\n' || s[i] == '\U{000B}' || s[i] == '\U{000C}' || s[i] == '\r'
  }

  lemma {:induction false} TrimLeftSplits(s: string)
    ensures AllSpace(s[..|s| - |TrimLeft(s)|])
  {
    if s != "" && IsSpace(s[0]) {
      TrimLeftSplits(s[1..]);
      var n := |s| - |TrimLeft(s)|;
      assert s[..n] == [s[0]] + s[1..][..n - 1];
    }
  }

  lemma {:induction false} TrimRightSplits(s: string)
    ensures AllSpace(s[|TrimRight(s)|..])
  {
    if s != "" && IsSpace(s[|s| - 1]) {
      TrimRightSplits(s[..|s| - 1]);
      var n := |TrimRight(s)|;
      assert s[n..] == s[..|s| - 1][n..] + [s[|s| - 1]];
    }
  }

  lemma {:induction false} TrimLeftOf(w: string, t: string)
    requires AllSpace(w) && (t == "" || !IsSpace(t[0]))
    ensures TrimLeft(w + t) == t
  {
    if w == "" {
      assert w + t == t;
    } else {
      assert (w + t)[1..] == w[1..] + t;
      TrimLeftOf(w[1..], t);
    }
  }

  lemma {:induction false} TrimRightOf(t: string, w: string)
    requires AllSpace(w) && (t == "" || !IsSpace(t[|t| - 1]))
    ensures TrimRight(t + w) == t
  {
    if w == "" {
      assert t + w == t;
    } else {
      var n := |w| - 1;
      assert (t + w)[..|t + w| - 1] == t + w[..n];
      TrimRightOf(t, w[..n]);
    }
  }

  /** TrimSpace takes away exactly the white space at the two ends. */
  lemma {:induction false} TrimSpaceIff(s: string, t: string)
    requires t == "" || (!IsSpace(t[0]) && !IsSpace(t[|t| - 1]))
    ensures TrimSpace(s) == t <==> exists w0, w1 :: AllSpace(w0) && AllSpace(w1) && s == w0 + (t + w1)
  {
    hide AllSpace, TrimLeft, TrimRight;
    var left := TrimLeft(s);
    TrimLeftSplits(s);
    TrimRightSplits(left);
    if TrimSpace(s) == t {
      var w0, w1 := s[..|s| - |left|], left[|t|..];
      assert left == t + w1;
      assert s == w0 + (t + w1);
    }
    forall w0, w1 | AllSpace(w0) && AllSpace(w1) && s == w0 + (t + w1) ensures TrimSpace(s) == t { TrimsTo(w0, t, w1); }
  }

  lemma {:induction false} TrimsTo(w0: string, t: string, w1: string)
    requires AllSpace(w0) && AllSpace(w1) && (t == "" || (!IsSpace(t[0]) && !IsSpace(t[|t| - 1])))
    ensures TrimSpace(w0 + (t + w1)) == t
  {
    hide TrimLeft, TrimRight;
    if t == "" {
      BlankTrims(w0 + (t + w1));
    } else {
      assert (t + w1)[0] == t[0];
      TrimLeftOf(w0, t + w1);
      TrimRightOf(t, w1);
    }
  }

  lemma {:induction false} BlankTrims(s: string)
    requires AllSpace(s)
    ensures TrimSpace(s) == ""
  {
    TrimLeftOf(s, "");
    assert s + "" == s;
  }

  // ---------------------------------------------------------------------
  // strings.Fields

  /** Length of the longest prefix free of white space. */
  function WordLength(s: string): (n: nat)
    ensures n <= |s|
    ensures NoSpace(s[..n])
    ensures n < |s| ==> IsSpace(s[n])
  {
    if s == "" || IsSpace(s[0]) then 0
    else
      var n := WordLength(s[1..]);
      assert s[..n + 1] == [s[0]] + s[1..][..n];
      n + 1
  }

  lemma {:induction false} WordLengthOf(w: string, rest: string)
    requires NoSpace(w) && (rest == "" || IsSpace(rest[0]))
    ensures WordLength(w + rest) == |w|
  {
    var s := w + rest;
    var n := WordLength(s);
    assert forall i :: 0 <= i < |w| ==> s[i] == w[i];
    assert |w| < |s| ==> s[|w|] == rest[0];
    assert forall i :: 0 <= i < n ==> s[..n][i] == s[i];
  }

  function Fields(s: string): (r: seq<string>)
    ensures forall i :: 0 <= i < |r| ==> r[i] != "" && NoSpace(r[i])
    decreases |s|
  {
    if s == "" then []
    else if IsSpace(s[0]) then Fields(s[1..])
    else
      var n := WordLength(s);
      [s[..n]] + Fields(s[n..])
  }

  /** Fields undoes joining words with single spaces, whatever white space ends the line. */
  lemma {:induction false} FieldsOfJoin(words: seq<string>, end: string)
    requires forall i :: 0 <= i < |words| ==> words[i] != "" && NoSpace(words[i])
    requires forall i :: 0 <= i < |end| ==> IsSpace(end[i])
    ensures Fields(Join(words, " ") + end) == words
    decreases |words|
  {
    if words == [] {
      assert Join(words, " ") + end == end;
      FieldsOfBlank(end);
    } else if |words| == 1 {
      WordLengthOf(words[0], end);
      assert (words[0] + end)[|words[0]|..] == end;
      FieldsOfBlank(end);
      assert words == [words[0]];
    } else {
      var rest := Join(words[1..], " ") + end;
      var s := Join(words, " ") + end;
      assert s == words[0] + (" " + rest);
      WordLengthOf(words[0], " " + rest);
      assert s[|words[0]|..] == " " + rest;
      assert (" " + rest)[1..] == rest;
      FieldsOfJoin(words[1..], end);
      assert words == [words[0]] + words[1..];
    }
  }

  lemma {:induction false} FieldsOfBlank(s: string)
    requires forall i :: 0 <= i < |s| ==> IsSpace(s[i])
    ensures Fields(s) == []
  {
    if s != "" { FieldsOfBlank(s[1..]); }
  }

  // ---------------------------------------------------------------------
  // strconv

  function DigitChar(d: nat): (c: char)
    requires d < 10
    ensures IsDigit(c)
  {
    '0' + d as char
  }

  function DecimalValue(s: string): nat
    requires AllDigits(s)
  {
    if s == "" then 0 else DecimalValue(s[..|s| - 1]) * 10 + (s[|s| - 1] - '0') as nat
  }

  function Decimal(n: nat): (s: string)
    ensures s != "" && AllDigits(s)
  {
    if n < 10 then [DigitChar(n)] else Decimal(n / 10) + [DigitChar(n % 10)]
  }

  lemma {:induction false} DecimalRoundTrip(n: nat)
    ensures DecimalValue(Decimal(n)) == n
  {
    var s := Decimal(n);
    if n < 10 {
      assert s[..|s| - 1] == "";
    } else {
      DecimalRoundTrip(n / 10);
      assert s[..|s| - 1] == Decimal(n / 10);
    }
  }

  function Itoa(i: int): (s: string)
    ensures s != "" && NoSpace(s) && Without(s, ')') && Without(s, '(')
  {
    if i < 0 then "-" + Decimal(-i) else Decimal(i)
  }

  function Clamp(v: int, lo: int, hi: int): int {
    if v < lo then lo else if v > hi then hi else v
  }

  /** The mathematical integer a decimal literal with an optional sign denotes. */
  function SignedValue(s: string): Option<int> {
    if s == "" then None
    else if s[0] == '-' && s[1..] != "" && AllDigits(s[1..]) then Some(-(DecimalValue(s[1..]) as int))
    else if s[0] == '+' && s[1..] != "" && AllDigits(s[1..]) then Some(DecimalValue(s[1..]))
    else if AllDigits(s) then Some(DecimalValue(s))
    else None
  }

  /** strconv.Atoi: fails on bad syntax and outside 64 bits. */
  function Atoi(s: string): (r: Option<int>)
    ensures r.Some? ==> MIN_INT64 <= r.value <= MAX_INT64
  {
    match SignedValue(s)
    case Some(v) => if MIN_INT64 <= v <= MAX_INT64 then Some(v) else None
    case None => None
  }

  /** The value strconv.ParseInt returns when its error is ignored:
      zero on bad syntax, the nearest bound when out of range. */
  function ParseInt(s: string): (r: int)
    ensures MIN_INT64 <= r <= MAX_INT64
  {
    match SignedValue(s)
    case Some(v) => Clamp(v, MIN_INT64, MAX_INT64)
    case None => 0
  }

  /** The same for strconv.ParseUint, which takes no sign. */
  function ParseUint(s: string): (r: int)
    ensures 0 <= r <= MAX_UINT64
  {
    if s != "" && AllDigits(s) then Clamp(DecimalValue(s), 0, MAX_UINT64) else 0
  }

  lemma {:induction false} ItoaRoundTrip(i: int)
    ensures SignedValue(Itoa(i)) == Some(i)
    ensures MIN_INT64 <= i <= MAX_INT64 ==> Atoi(Itoa(i)) == Some(i) && ParseInt(Itoa(i)) == i
    ensures 0 <= i <= MAX_UINT64 ==> ParseUint(Itoa(i)) == i
  {
    var s := Itoa(i);
    if i < 0 {
      DecimalRoundTrip(-i);
      assert s[1..] == Decimal(-i);
    } else {
      DecimalRoundTrip(i);
      assert IsDigit(s[0]);
    }
  }

  // ---------------------------------------------------------------------
  // What a numeral is

  function Pow10(n: nat): nat { if n == 0 then 1 else 10 * Pow10(n - 1) }

  /** Decimal notation is positional. */
  lemma {:induction false} DecimalConcat(a: string, b: string)
    requires AllDigits(a) && AllDigits(b)
    ensures AllDigits(a + b) && DecimalValue(a + b) == DecimalValue(a) * Pow10(|b|) + DecimalValue(b)
  {
    if b == "" {
      assert a + b == a;
    } else {
      var n := |b| - 1;
      DecimalConcat(a, b[..n]);
      assert (a + b)[..|a + b| - 1] == a + b[..n];
      TenTimes(DecimalValue(a), Pow10(n), DecimalValue(b[..n]));
    }
  }

  lemma {:induction false} TenTimes(x: int, p: int, y: int)
    ensures (x * p + y) * 10 == x * (10 * p) + y * 10
  {}

  /** A single digit stands for itself. */
  lemma {:induction false} DigitValue(d: nat)
    requires d < 10
    ensures DecimalValue(["0123456789"[d]]) == d
  {
    assert ["0123456789"[d]][..0] == "";
  }

  /** The text is this sign and these digits, and denotes `v`. */
  ghost predicate Denotes(s: string, sign: string, digits: string, v: int) {
    && s == sign + digits && digits != "" && AllDigits(digits)
    && ((sign == "-" && -v == DecimalValue(digits)) || ((sign == "" || sign == "+") && v == DecimalValue(digits)))
  }

  lemma {:induction false} DenotesValue(s: string, sign: string, digits: string, v: int)
    requires Denotes(s, sign, digits, v)
    ensures SignedValue(s) == Some(v)
  {
    hide DecimalValue;
    assert IsDigit(digits[0]);
    if sign == "" {
      assert s == digits;
    } else {
      assert s[1..] == digits && s[0] == sign[0];
    }
  }

  lemma {:induction false} ValueDenoted(s: string) returns (sign: string, digits: string)
    requires SignedValue(s).Some?
    ensures Denotes(s, sign, digits, SignedValue(s).value)
  {
    hide DecimalValue;
    if (s[0] == '-' || s[0] == '+') && s[1..] != "" && AllDigits(s[1..]) {
      sign, digits := [s[0]], s[1..];
      assert s == sign + digits;
    } else {
      sign, digits := "", s;
      assert s == sign + digits;
    }
  }

  /** The texts that denote an integer: an optional sign and digits. */
  lemma {:induction false} SignedValueIff(s: string, v: int)
    ensures SignedValue(s) == Some(v) <==> exists sign, digits :: Denotes(s, sign, digits, v)
  {
    hide SignedValue, Denotes;
    if SignedValue(s) == Some(v) { var sign, digits := ValueDenoted(s); }
    forall sign, digits | Denotes(s, sign, digits, v) ensures SignedValue(s) == Some(v) { DenotesValue(s, sign, digits, v); }
  }

  /** strconv.Atoi accepts exactly those that fit an int64; ParseInt and ParseUint, their errors
      ignored, clamp what does not fit and take anything else for zero. */
  lemma {:induction false} ParsersOfIntegers(s: string)
    ensures forall v :: SignedValue(s) == Some(v) ==>
              && Atoi(s) == (if -0x8000_0000_0000_0000 <= v <= 0x7FFF_FFFF_FFFF_FFFF then Some(v) else None)
              && ParseInt(s) == (if v < -0x8000_0000_0000_0000 then -0x8000_0000_0000_0000
                                 else if v > 0x7FFF_FFFF_FFFF_FFFF then 0x7FFF_FFFF_FFFF_FFFF else v)
    ensures SignedValue(s) == None ==> Atoi(s) == None && ParseInt(s) == 0
    ensures s != "" && AllDigits(s) ==>
              SignedValue(s) == Some(DecimalValue(s)) &&
              ParseUint(s) == (if DecimalValue(s) > 0xFFFF_FFFF_FFFF_FFFF then 0xFFFF_FFFF_FFFF_FFFF else DecimalValue(s))
    ensures s == "" || !AllDigits(s) ==> ParseUint(s) == 0
  {
    if s != "" && AllDigits(s) { assert IsDigit(s[0]); }
  }
}
