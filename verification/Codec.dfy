/** internal/shareapi/codec.go: share codes by rejection sampling. */
module Codec {
  import opened Text

  const CODE_LENGTH: nat := 8
  const DIGITS := "0123456789"
  const UPPER := "ABCDEFGHIJKLMNOPQRSTUVWXYZ"
  const LOWER := "abcdefghijklmnopqrstuvwxyz"
  const CODE_ALPHABET := DIGITS + UPPER + LOWER

  /** 256 - 256 % 62: bytes from here on are thrown away. */
  const MAX_VALID: int := 248

  predicate IsBase62(c: char) { '0' <= c <= '9' || 'A' <= c <= 'Z' || 'a' <= c <= 'z' }

  predicate Accepted(b: Byte) { b < MAX_VALID }

  /** codeAlphabet[b % 62], spelled out by range. */
  function Symbol(b: Byte): (c: char)
    ensures IsBase62(c)
  {
    var i := b % 62;
    if i < 10 then '0' + i as char else if i < 36 then 'A' + (i - 10) as char else 'a' + (i - 36) as char
  }

  /** The three ranges are the literal alphabet of the source. */
  lemma {:induction false} SymbolIsAlphabet(b: Byte)
    ensures |CODE_ALPHABET| == 62 && Symbol(b) == CODE_ALPHABET[b % 62]
  {}

  function Filter(bytes: seq<Byte>): seq<Byte> {
    if bytes == [] then []
    else (if Accepted(bytes[0]) then [bytes[0]] else []) + Filter(bytes[1..])
  }

  function Encode(bytes: seq<Byte>): (code: string)
    ensures |code| == |bytes|
    ensures forall i :: 0 <= i < |bytes| ==> code[i] == Symbol(bytes[i])
  {
    if bytes == [] then "" else [Symbol(bytes[0])] + Encode(bytes[1..])
  }

  lemma {:induction false} FilterAppend(a: seq<Byte>, b: seq<Byte>)
    ensures Filter(a + b) == Filter(a) + Filter(b)
  {
    hide Accepted;
    if a == [] {
      assert a + b == b;
    } else {
      FilterSplit(a + b);
      FilterSplit(a);
      assert (a + b)[0] == a[0] && (a + b)[1..] == a[1..] + b;
      hide Filter;
      FilterAppend(a[1..], b);
      Associative(if Accepted(a[0]) then [a[0]] else [], Filter(a[1..]), Filter(b));
    }
  }

  lemma {:induction false} FilterSplit(a: seq<Byte>)
    requires a != []
    ensures Filter(a) == (if Accepted(a[0]) then [a[0]] else []) + Filter(a[1..])
  {}

  lemma {:induction false} Associative(a: seq<Byte>, b: seq<Byte>, c: seq<Byte>)
    ensures a + (b + c) == (a + b) + c
  {}

  // ---------------------------------------------------------------------
  // GenerateCode

  /** One call of rand.Read. */
  datatype Read = Bytes(chunk: seq<Byte>) | Failed(error: string)

  /** `Starved`: the reads given ran out while more bytes were wanted. */
  datatype Generated = Code(code: string) | ReadError(error: string) | Starved

  /** The outcome once `got` holds the accepted bytes so far. */
  function Outcome(calls: seq<Read>, got: seq<Byte>): Generated
    decreases |calls|
  {
    if |got| >= CODE_LENGTH then Code(Encode(got[..CODE_LENGTH]))
    else if calls == [] then Starved
    else match calls[0]
      case Failed(e) => ReadError(e)
      case Bytes(chunk) => Outcome(calls[1..], got + Filter(chunk))
  }

  /** The two nested loops of GenerateCode; `out` is filled up to `written`. */
  method GenerateCode(calls: seq<Read>) returns (r: Generated)
    ensures r == Outcome(calls, [])
  {
    var out := new char[CODE_LENGTH];
    var written := 0;
    ghost var got: seq<Byte> := [];
    var k := 0;
    while written < CODE_LENGTH
      invariant 0 <= k <= |calls|
      invariant 0 <= written <= CODE_LENGTH
      invariant Outcome(calls, []) == Outcome(calls[k..], got)
      invariant written < CODE_LENGTH ==> |got| == written
      invariant |got| >= written && out[..written] == Encode(got[..written])
      decreases |calls| - k, CODE_LENGTH - written
    {
      if k == |calls| {
        return Starved;
      }
      match calls[k]
      case Failed(e) =>
        return ReadError(e);
      case Bytes(chunk) =>
        ghost var more := got + Filter(chunk);
        written := FillFrom(chunk, out, written, got);
        got := more;
        k := k + 1;
    }
    assert out[..CODE_LENGTH] == out[..];
    return Code(out[..]);
  }

  /** The inner loop: accepted bytes of one chunk, until `out` is full. */
  method FillFrom(chunk: seq<Byte>, out: array<char>, start: nat, ghost got: seq<Byte>) returns (written: nat)
    requires out.Length == CODE_LENGTH && start < CODE_LENGTH && |got| == start
    requires out[..start] == Encode(got)
    modifies out
    ensures written <= CODE_LENGTH
    ensures var all := got + Filter(chunk);
            && |all| >= written && (written < CODE_LENGTH ==> |all| == written)
            && out[..written] == Encode(all[..written])
  {
    hide Encode;
    written := start;
    ghost var kept := got;
    for i := 0 to |chunk|
      invariant written < CODE_LENGTH && |kept| == written
      invariant kept == got + Filter(chunk[..i])
      invariant out[..written] == Encode(kept)
    {
      var b := chunk[i];
      FilterStep(chunk, i);
      if Accepted(b) {
        EncodeAppend(kept, b);
        ghost var prior := out[..written];
        out[written] := Symbol(b);
        written := written + 1;
        kept := kept + [b];
        assert out[..written] == prior + [Symbol(b)];
        if written == CODE_LENGTH {
          assert got + Filter(chunk) == kept + Filter(chunk[i + 1..]);
          assert (got + Filter(chunk))[..written] == kept;
          return;
        }
      }
    }
    assert chunk[..|chunk|] == chunk;
    assert kept[..written] == kept;
  }

  lemma {:induction false} FilterStep(chunk: seq<Byte>, i: nat)
    requires i < |chunk|
    ensures Filter(chunk[..i + 1]) == Filter(chunk[..i]) + (if Accepted(chunk[i]) then [chunk[i]] else [])
    ensures Filter(chunk) == Filter(chunk[..i + 1]) + Filter(chunk[i + 1..])
  {
    assert chunk[..i + 1] == chunk[..i] + [chunk[i]];
    FilterAppend(chunk[..i], [chunk[i]]);
    FilterAppend(chunk[..i + 1], chunk[i + 1..]);
    assert chunk == chunk[..i + 1] + chunk[i + 1..];
  }

  lemma {:induction false} EncodeAppend(bytes: seq<Byte>, b: Byte)
    ensures Encode(bytes + [b]) == Encode(bytes) + [Symbol(b)]
  {}

  function Stream(calls: seq<Read>): seq<Byte>
    requires forall i :: 0 <= i < |calls| ==> calls[i].Bytes?
  {
    if calls == [] then [] else calls[0].chunk + Stream(calls[1..])
  }

  /** However the random stream is cut into reads, the code is the image of its
      first eight bytes below 248. */
  lemma {:induction false} CodeOfStream(calls: seq<Read>, rest: seq<Read>, got: seq<Byte>)
    requires forall i :: 0 <= i < |calls| ==> calls[i].Bytes?
    requires |got + Filter(Stream(calls))| >= CODE_LENGTH
    ensures Outcome(calls + rest, got) == Code(Encode((got + Filter(Stream(calls)))[..CODE_LENGTH]))
    decreases |calls|
  {
    hide Encode;
    var all := got + Filter(Stream(calls));
    if |got| >= CODE_LENGTH {
      assert all[..CODE_LENGTH] == got[..CODE_LENGTH];
    } else {
      assert calls != [] by { assert calls == [] ==> all == got; }
      var chunk := calls[0].chunk;
      FilterAppend(chunk, Stream(calls[1..]));
      assert all == (got + Filter(chunk)) + Filter(Stream(calls[1..]));
      assert (calls + rest)[0] == calls[0] && (calls + rest)[1..] == calls[1..] + rest;
      CodeOfStream(calls[1..], rest, got + Filter(chunk));
    }
  }

  /** A read error surfaces exactly when it comes before the eighth accepted byte. */
  lemma {:induction false} ErrorSurfacesIff(calls: seq<Read>, e: string, rest: seq<Read>, got: seq<Byte>)
    requires forall i :: 0 <= i < |calls| ==> calls[i].Bytes?
    ensures Outcome(calls + [Failed(e)] + rest, got) == ReadError(e) <==> |got + Filter(Stream(calls))| < CODE_LENGTH
    decreases |calls|
  {
    var all := calls + [Failed(e)] + rest;
    if |got + Filter(Stream(calls))| >= CODE_LENGTH {
      assert all == calls + ([Failed(e)] + rest);
      CodeOfStream(calls, [Failed(e)] + rest, got);
    } else if calls == [] {
      assert all[0] == Failed(e);
    } else {
      var chunk := calls[0].chunk;
      FilterAppend(chunk, Stream(calls[1..]));
      assert got + Filter(Stream(calls)) == (got + Filter(chunk)) + Filter(Stream(calls[1..]));
      assert all[0] == calls[0] && all[1..] == calls[1..] + [Failed(e)] + rest;
      ErrorSurfacesIff(calls[1..], e, rest, got + Filter(chunk));
    }
  }

  // ---------------------------------------------------------------------
  // ValidCode

  ghost predicate WellFormed(s: string) {
    |s| == CODE_LENGTH && forall i :: 0 <= i < |s| ==> IsBase62(s[i])
  }

  method ValidCode(s: string) returns (ok: bool)
    ensures ok <==> WellFormed(s)
  {
    if |s| != CODE_LENGTH {
      return false;
    }
    for i := 0 to |s|
      invariant forall j :: 0 <= j < i ==> IsBase62(s[j])
    {
      if !IsBase62(s[i]) {
        return false;
      }
    }
    return true;
  }

  /** Position of a character in the alphabet. */
  function Position(c: char): (i: Byte)
    requires IsBase62(c)
    ensures i < 62 && Symbol(i) == c
  {
    if c <= '9' then (c - '0') as int else if c <= 'Z' then (c - 'A') as int + 10 else (c - 'a') as int + 36
  }

  lemma {:induction false} OutcomeWellFormed(calls: seq<Read>, got: seq<Byte>)
    ensures Outcome(calls, got).Code? ==> WellFormed(Outcome(calls, got).code)
    decreases |calls|
  {
    if |got| < CODE_LENGTH && calls != [] && calls[0].Bytes? {
      OutcomeWellFormed(calls[1..], got + Filter(calls[0].chunk));
    }
  }

  /** ValidCode accepts exactly the strings GenerateCode can return. */
  lemma {:induction false} ValidIffProducible(s: string)
    ensures WellFormed(s) <==> exists calls :: Outcome(calls, []) == Code(s)
  {
    if WellFormed(s) {
      var bytes := seq(|s|, i requires 0 <= i < |s| => Position(s[i]));
      AllAccepted(bytes);
      var calls := [Bytes(bytes)];
      assert Stream(calls[1..]) == [] && Stream(calls) == bytes;
      assert [] + Filter(Stream(calls)) == bytes;
      CodeOfStream(calls, [], []);
      assert calls + [] == calls;
      assert bytes[..CODE_LENGTH] == bytes;
      assert Encode(bytes) == s;
      assert Outcome(calls, []) == Code(s);
    }
    if exists calls :: Outcome(calls, []) == Code(s) {
      var calls :| Outcome(calls, []) == Code(s);
      OutcomeWellFormed(calls, []);
    }
  }

  lemma {:induction false} AllAccepted(bytes: seq<Byte>)
    requires forall i :: 0 <= i < |bytes| ==> Accepted(bytes[i])
    ensures Filter(bytes) == bytes
  {
    if bytes != [] { AllAccepted(bytes[1..]); }
  }

  // ---------------------------------------------------------------------
  // Uniformity

  /** The accepted bytes that map to one character. */
  function Roots(c: char): set<Byte> { set b: Byte | Accepted(b) && Symbol(b) == c }

  lemma {:induction false} FourRoots(c: char)
    requires IsBase62(c)
    ensures |Roots(c)| == 4
  {
    hide Symbol, Accepted;
    var v := Position(c);
    forall b: Byte ensures b in Roots(c) <==> b == v || b == v + 62 || b == v + 124 || b == v + 186 {
      SameResidue(b, v);
    }
    assert Roots(c) == {v, v + 62, v + 124, v + 186};
  }

  lemma {:induction false} SameResidue(b: Byte, v: Byte)
    requires v < 62
    ensures Symbol(b) == Symbol(v) <==> b % 62 == v
    ensures Accepted(b) && b % 62 == v <==> b == v || b == v + 62 || b == v + 124 || b == v + 186
  {}

  /** The sequences of accepted bytes that encode to `code`. */
  function Preimages(code: string): set<seq<Byte>> {
    if code == "" then {[]} else Prefixed(Roots(code[0]), Preimages(code[1..]))
  }

  function Prefixed(heads: set<Byte>, tails: set<seq<Byte>>): set<seq<Byte>> {
    set b, t | b in heads && t in tails :: [b] + t
  }

  lemma {:induction false} PreimageMeaning(code: string, bytes: seq<Byte>)
    ensures bytes in Preimages(code) <==>
            (forall i :: 0 <= i < |bytes| ==> Accepted(bytes[i])) && Encode(bytes) == code
  {
    hide Symbol, Accepted, Prefixed;
    if code != "" {
      PrefixedIn(Roots(code[0]), Preimages(code[1..]), bytes);
      if bytes != [] {
        PreimageMeaning(code[1..], bytes[1..]);
        EncodeSplit(bytes, code);
      }
    }
  }

  lemma {:induction false} EncodeSplit(bytes: seq<Byte>, code: string)
    requires bytes != [] && code != ""
    ensures Encode(bytes) == code <==> Symbol(bytes[0]) == code[0] && Encode(bytes[1..]) == code[1..]
    ensures (forall i :: 0 <= i < |bytes| ==> Accepted(bytes[i])) <==>
            Accepted(bytes[0]) && (forall i :: 0 <= i < |bytes[1..]| ==> Accepted(bytes[1..][i]))
  {
    hide Symbol, Accepted;
    assert code == [code[0]] + code[1..] && bytes == [bytes[0]] + bytes[1..];
  }

  lemma {:induction false} PrefixedMember(heads: set<Byte>, tails: set<seq<Byte>>, b: Byte, t: seq<Byte>)
    ensures [b] + t in Prefixed(heads, tails) <==> b in heads && t in tails
  {
    assert ([b] + t)[0] == b && ([b] + t)[1..] == t;
    PrefixedIn(heads, tails, [b] + t);
  }

  lemma {:induction false} PrefixedIn(heads: set<Byte>, tails: set<seq<Byte>>, s: seq<Byte>)
    ensures s in Prefixed(heads, tails) <==> s != [] && s[0] in heads && s[1..] in tails
  {
    if s in Prefixed(heads, tails) {
      var b, t :| b in heads && t in tails && [b] + t == s;
      assert s[0] == b && s[1..] == t;
    } else if s != [] {
      assert s == [s[0]] + s[1..];
    }
  }

  lemma {:induction false} PrefixedSplit(a: set<Byte>, b: set<Byte>, tails: set<seq<Byte>>)
    requires a !! b
    ensures Prefixed(a + b, tails) == Prefixed(a, tails) + Prefixed(b, tails)
    ensures Prefixed(a, tails) !! Prefixed(b, tails)
  {
    hide Prefixed;
    forall s ensures s in Prefixed(a + b, tails) <==> s in Prefixed(a, tails) || s in Prefixed(b, tails)
             ensures !(s in Prefixed(a, tails) && s in Prefixed(b, tails)) {
      PrefixedIn(a + b, tails, s);
      PrefixedIn(a, tails, s);
      PrefixedIn(b, tails, s);
    }
  }

  lemma {:induction false} PrefixedEmpty(heads: set<Byte>, tails: set<seq<Byte>>)
    requires heads == {} || tails == {}
    ensures |Prefixed(heads, tails)| == 0
  {}

  lemma {:induction false} PrefixedSize(heads: set<Byte>, tails: set<seq<Byte>>)
    ensures |Prefixed(heads, tails)| == |heads| * |tails|
    decreases heads
  {
    hide Prefixed;
    if heads == {} {
      PrefixedEmpty(heads, tails);
    } else {
      var b :| b in heads;
      var rest := heads - {b};
      assert heads == {b} + rest;
      PrefixedSplit({b}, rest, tails);
      OneHead(b, tails);
      PrefixedSize(rest, tails);
      Distribute(|rest|, |tails|);
    }
  }

  lemma {:induction false} Distribute(r: nat, t: nat)
    ensures (1 + r) * t == t + r * t
  {}

  lemma {:induction false} PrefixedTails(b: Byte, t: seq<Byte>, rest: set<seq<Byte>>)
    requires t !in rest
    ensures Prefixed({b}, {t} + rest) == {[b] + t} + Prefixed({b}, rest)
    ensures [b] + t !in Prefixed({b}, rest)
  {
    hide Prefixed;
    var one := [b] + t;
    assert one[0] == b && one[1..] == t;
    PrefixedMember({b}, rest, b, t);
    forall s ensures s in Prefixed({b}, {t} + rest) <==> s == one || s in Prefixed({b}, rest) {
      PrefixedIn({b}, {t} + rest, s);
      PrefixedIn({b}, rest, s);
      assert s != [] ==> s == [s[0]] + s[1..];
    }
  }

  lemma {:induction false} OneHead(b: Byte, tails: set<seq<Byte>>)
    ensures |Prefixed({b}, tails)| == |tails|
    decreases tails
  {
    hide Prefixed;
    if tails == {} {
      PrefixedEmpty({b}, tails);
    } else {
      var t :| t in tails;
      var rest := tails - {t};
      OneHead(b, rest);
      PrefixedTails(b, t, rest);
      assert tails == {t} + rest;
    }
  }

  function Pow4(n: nat): nat { if n == 0 then 1 else 4 * Pow4(n - 1) }

  lemma {:induction false} PreimageCount(code: string)
    requires forall i :: 0 <= i < |code| ==> IsBase62(code[i])
    ensures |Preimages(code)| == Pow4(|code|)
  {
    if code != "" {
      FourRoots(code[0]);
      PreimageCount(code[1..]);
      PrefixedSize(Roots(code[0]), Preimages(code[1..]));
    }
  }

  /** No code is more likely than another: each well-formed one is the image of exactly
      4^8 of the accepted byte strings, namely those `Preimages` lists. */
  lemma {:induction false} Uniform(code: string)
    requires WellFormed(code)
    ensures |Preimages(code)| == Pow4(8) == 65536
    ensures forall bytes :: bytes in Preimages(code) <==>
              (forall i :: 0 <= i < |bytes| ==> Accepted(bytes[i])) && Encode(bytes) == code
  {
    hide Preimages, Encode;
    PreimageCount(code);
    assert Pow4(8) == 65536 by { assert Pow4(4) == 256; }
    forall bytes ensures bytes in Preimages(code) <==>
                         (forall i :: 0 <= i < |bytes| ==> Accepted(bytes[i])) && Encode(bytes) == code {
      PreimageMeaning(code, bytes);
    }
  }
}
