/** internal/executor/executor.go: the byte cap on a tool's standard output. */
module LimitedOutput {
  import opened Seqs
  import opened Text

  /** The fields of a LimitedWriter and the buffer it wraps. */
  datatype Writer = Writer(buffer: seq<Byte>, written: int, truncated: bool)

  const FRESH := Writer([], 0, false)

  function Accept(w: Writer, limit: int, p: seq<Byte>): Writer {
    if w.written >= limit then w.(truncated := true)
    else if |p| > limit - w.written then
      Writer(w.buffer + p[..limit - w.written], w.written + (limit - w.written), true)
    else
      Writer(w.buffer + p, w.written + |p|, w.truncated)
  }

  class LimitedWriter {
    var buffer: seq<Byte>
    var written: int
    var truncated: bool
    const limit: int

    constructor (limit: int)
      ensures State() == FRESH && this.limit == limit
    {
      buffer, written, truncated := [], 0, false;
      this.limit := limit;
    }

    function State(): Writer
      reads this
    {
      Writer(buffer, written, truncated)
    }

    /** Always reports the whole of `p` as consumed. */
    method Write(p: seq<Byte>) returns (n: nat)
      modifies this
      ensures n == |p|
      ensures State() == Accept(old(State()), limit, p)
    {
      if written >= limit {
        truncated := true;
        return |p|;
      }
      var remaining := limit - written;
      if |p| > remaining {
        buffer := buffer + p[..remaining];
        written := written + remaining;
        truncated := true;
        return |p|;
      }
      buffer := buffer + p;
      written := written + |p|;
      return |p|;
    }
  }

  function Concat(chunks: seq<seq<Byte>>): seq<Byte> {
    if chunks == [] then [] else Concat(chunks[..|chunks| - 1]) + chunks[|chunks| - 1]
  }

  /** The state after a whole history of writes to a fresh writer. */
  function After(limit: int, chunks: seq<seq<Byte>>): Writer {
    if chunks == [] then FRESH else Accept(After(limit, chunks[..|chunks| - 1]), limit, chunks[|chunks| - 1])
  }

  /** An empty write that arrives when the limit is already used up. */
  ghost predicate EmptyWriteAtLimit(limit: int, chunks: seq<seq<Byte>>, i: nat)
    requires i < |chunks|
  {
    chunks[i] == [] && |Concat(chunks[..i])| >= limit
  }

  /** After any history of writes the buffer holds exactly the first bytes up to the limit,
      and Truncated holds exactly when bytes were dropped or an empty write came too late. */
  lemma {:induction false} LimitedPrefix(limit: int, chunks: seq<seq<Byte>>)
    ensures var w, all := After(limit, chunks), Concat(chunks);
            && w.written == |w.buffer| == Min(Max(limit, 0), |all|)
            && w.buffer == all[..Min(Max(limit, 0), |all|)]
            && (w.truncated <==>
                |all| > Max(limit, 0) || exists i :: 0 <= i < |chunks| && EmptyWriteAtLimit(limit, chunks, i))
  {
    if chunks != [] {
      var n := |chunks| - 1;
      var front, p := chunks[..n], chunks[n];
      LimitedPrefix(limit, front);
      var w, all := After(limit, front), Concat(front);
      assert Concat(chunks) == all + p;
      forall i | 0 <= i < n ensures EmptyWriteAtLimit(limit, chunks, i) <==> EmptyWriteAtLimit(limit, front, i) {
        assert front[..i] == chunks[..i];
      }
      assert chunks[..n] == front;
      if w.written >= limit {
        assert (all + p)[..Max(limit, 0)] == all[..Max(limit, 0)];
        assert p == [] ==> EmptyWriteAtLimit(limit, chunks, n);
      } else {
        assert all[..|all|] == all;
        assert |p| > limit - w.written ==> (all + p)[..limit] == all + p[..limit - |all|];
        assert |p| <= limit - w.written ==> (all + p)[..|all + p|] == all + p;
        assert !EmptyWriteAtLimit(limit, chunks, n);
      }
    }
  }

  /** The flag without a loss: an empty write after exactly as many bytes as fit. */
  lemma {:induction false} LateEmptyWrite(p: seq<Byte>)
    ensures Concat([p, []]) == p && After(|p|, [p, []]) == Writer(p, |p|, true)
  {
    var chunks := [p, []];
    assert chunks[..1] == [p] && [p][..0] == [];
    assert p[..|p|] == p && [] + p == p && p + [] == p;
    assert Concat([p]) == p && Concat(chunks) == Concat(chunks[..1]) + chunks[1];
    assert After(|p|, [p]).buffer == p && After(|p|, [p]).written == |p|;
  }

  /** With the non-empty writes a process makes, Truncated means that bytes were dropped. */
  lemma {:induction false} TruncatedIff(limit: nat, chunks: seq<seq<Byte>>)
    requires forall i :: 0 <= i < |chunks| ==> chunks[i] != []
    ensures After(limit, chunks).truncated <==> |Concat(chunks)| > limit
  {
    LimitedPrefix(limit, chunks);
  }
}
