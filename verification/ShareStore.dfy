/** internal/shareapi/store.go, the retry loop of internal/shareapi/handlers.go and
    the sweeps of cmd/melisai-share-api/main.go.  The reports table is a map from
    code to row; times are integers in nanoseconds. */
module ShareStore {
  import opened Text
  import opened Codec

  const SECOND: int := 1_000_000_000

  /** time.Time.Unix: whole seconds, rounded down. */
  function Unix(t: int): int { t / SECOND }

  datatype Row = Row(payload: seq<Byte>, createdAt: int)

  type Table = map<string, Row>

  /** The database's verdict on one statement; a failed statement changes nothing. */
  datatype Db = Healthy | Down(error: string)

  datatype PutResult = Stored | CodeExists | PutError(error: string)
  datatype GetResult = Payload(bytes: seq<Byte>) | NotFound | GetError(error: string)
  datatype Affected = Rows(n: int) | RowsError(error: string)

  // ---------------------------------------------------------------------
  // Operations as steps of a table

  datatype Op =
    | Put(code: string, payload: seq<Byte>, at: int)
    | Delete(code: string, at: int)
    | Sweep(age: int, at: int)
    | Read(code: string, at: int)

  predicate Expired(row: Row, cutoff: int) { row.createdAt < Unix(cutoff) }

  function Apply(t: Table, op: Op): Table {
    match op
    case Put(c, p, at) => if c in t then t else t[c := Row(p, Unix(at))]
    case Delete(c, _) => t - {c}
    case Sweep(age, at) => Sweeped(t, at - age)
    case Read(_, _) => t
  }

  function Sweeped(t: Table, cutoff: int): Table {
    map c | c in t && !Expired(t[c], cutoff) :: t[c]
  }

  /** The table and the history that made it: every statement that took effect since the table
      was created. */
  class Store {
    var rows: Table
    ghost var ops: seq<Op>

    ghost predicate Valid()
      reads this
    {
      rows == Run(ops)
    }

    constructor ()
      ensures Valid() && ops == []
    {
      rows := map[];
      ops := [];
    }

    method Put(code: string, payload: seq<Byte>, now: int, db: Db) returns (r: PutResult)
      requires Valid()
      modifies this
      ensures Valid() && ops == (if db.Healthy? then old(ops) + [Op.Put(code, payload, now)] else old(ops))
      ensures db.Down? ==> r == PutError(db.error)
      ensures db.Healthy? ==> r == if exists i :: Live(old(ops), i, code) then CodeExists else Stored
      ensures r == Stored ==> Live(ops, |ops| - 1, code)
    {
      if db.Down? {
        return PutError(db.error);
      }
      TableIsLiveInsertions(ops, code);
      RunGrows(ops, Op.Put(code, payload, now));
      ops := ops + [Op.Put(code, payload, now)];
      if code in rows {
        return CodeExists;
      }
      rows := rows[code := Row(payload, Unix(now))];
      assert ops[..|ops| - 1] == old(ops);
      return Stored;
    }

    /** The bytes of the one live insertion, not found if and only if there is none. */
    method Get(code: string, db: Db) returns (r: GetResult)
      requires Valid()
      ensures db.Down? ==> r == GetError(db.error)
      ensures db.Healthy? ==> forall i :: Live(ops, i, code) ==> r == Payload(ops[i].payload)
      ensures db.Healthy? ==> (r == NotFound <==> !exists i :: Live(ops, i, code))
      ensures db.Healthy? ==> !r.GetError?
    {
      if db.Down? {
        return GetError(db.error);
      }
      TableIsLiveInsertions(ops, code);
      return if code in rows then Payload(rows[code].payload) else NotFound;
    }

    /** How many insertions are live. */
    method Count(db: Db) returns (r: Affected)
      requires Valid()
      ensures r == if db.Down? then RowsError(db.error) else Rows(LiveCount(ops, |ops|))
    {
      RowsAreLiveInsertions(ops);
      return if db.Down? then RowsError(db.error) else Rows(|rows|);
    }

    method DeleteOlderThan(cutoff: int, db: Db, ghost at: int) returns (r: Affected)
      requires Valid()
      modifies this
      ensures Valid() && ops == (if db.Healthy? then old(ops) + [Sweep(at - cutoff, at)] else old(ops))
      ensures db.Down? ==> r == RowsError(db.error)
      ensures db.Healthy? ==> r == Rows(LiveCount(old(ops), |old(ops)|) - LiveCount(ops, |ops|))
    {
      if db.Down? {
        return RowsError(db.error);
      }
      RunGrows(ops, Sweep(at - cutoff, at));
      RowsAreLiveInsertions(ops);
      ops := ops + [Sweep(at - cutoff, at)];
      var kept := Sweeped(rows, cutoff);
      r := Rows(|rows| - |kept|);
      rows := kept;
      RowsAreLiveInsertions(ops);
    }

    /** Statements of other requests, which the single writer connection puts one after another. */
    method Interleave(others: seq<Op>)
      requires Valid()
      modifies this
      ensures Valid() && ops == old(ops) + others
    {
      for i := 0 to |others|
        invariant Valid() && ops == old(ops) + others[..i]
      {
        RunGrows(ops, others[i]);
        rows := Apply(rows, others[i]);
        ops := ops + [others[i]];
      }
    }

    method DeleteByCode(code: string, db: Db, ghost at: int) returns (r: Affected)
      requires Valid()
      modifies this
      ensures Valid() && ops == (if db.Healthy? then old(ops) + [Delete(code, at)] else old(ops))
      ensures db.Down? ==> r == RowsError(db.error)
      ensures db.Healthy? ==> r == Rows(if exists i :: Live(old(ops), i, code) then 1 else 0)
    {
      if db.Down? {
        return RowsError(db.error);
      }
      TableIsLiveInsertions(ops, code);
      RunGrows(ops, Delete(code, at));
      ops := ops + [Delete(code, at)];
      r := Rows(if code in rows then 1 else 0);
      rows := rows - {code};
    }
  }

  lemma {:induction false} RunGrows(ops: seq<Op>, op: Op)
    ensures Run(ops + [op]) == Apply(Run(ops), op)
  {
    assert (ops + [op])[..|ops|] == ops;
  }

  // ---------------------------------------------------------------------
  // Whole histories

  /** The table after a history of operations on an empty one. */
  function Run(ops: seq<Op>): Table {
    if ops == [] then map[] else Apply(Run(ops[..|ops| - 1]), ops[|ops| - 1])
  }

  function RowOf(op: Op): Row
    requires op.Put?
  {
    Row(op.payload, Unix(op.at))
  }

  /** The i-th operation is a Put that found its code free. */
  ghost predicate Inserts(ops: seq<Op>, i: int, c: string) {
    0 <= i < |ops| && ops[i].Put? && ops[i].code == c && c !in Run(ops[..i])
  }

  /** An operation that removes this row, wherever it is stored. */
  predicate Removes(op: Op, c: string, row: Row) {
    match op
    case Delete(d, _) => d == c
    case Sweep(age, at) => Expired(row, at - age)
    case _ => false
  }

  /** An insertion nothing has removed since. */
  ghost predicate Live(ops: seq<Op>, i: int, c: string) {
    && Inserts(ops, i, c)
    && forall j :: i < j < |ops| ==> !Removes(ops[j], c, RowOf(ops[i]))
  }

  lemma {:induction false} LiveStep(ops: seq<Op>, i: nat, c: string)
    requires |ops| > 0 && i < |ops| - 1
    ensures Inserts(ops, i, c) <==> Inserts(ops[..|ops| - 1], i, c)
    ensures Live(ops, i, c) <==>
            Live(ops[..|ops| - 1], i, c) && ops[i].Put? && !Removes(ops[|ops| - 1], c, RowOf(ops[i]))
  {
    hide Run;
    var front := ops[..|ops| - 1];
    assert front[..i] == ops[..i] && front[i] == ops[i];
    if Live(front, i, c) && !Removes(ops[|ops| - 1], c, RowOf(ops[i])) {
      forall j | i < j < |ops| ensures !Removes(ops[j], c, RowOf(ops[i])) {
        if j < |front| { assert ops[j] == front[j]; }
      }
    }
    if Live(ops, i, c) {
      forall j | i < j < |front| ensures !Removes(front[j], c, RowOf(front[i])) {
        assert ops[j] == front[j];
      }
    }
  }

  /** A code is in the table exactly when one of its insertions is live; there is then
      one such insertion, and the row is the row it inserted. */
  lemma {:induction false} TableIsLiveInsertions(ops: seq<Op>, c: string)
    ensures c in Run(ops) <==> exists i :: Live(ops, i, c)
    ensures forall i :: Live(ops, i, c) ==> c in Run(ops) && Run(ops)[c] == RowOf(ops[i])
    ensures forall i, j :: Live(ops, i, c) && Live(ops, j, c) ==> i == j
    decreases |ops|
  {
    if ops != [] {
      var n := |ops| - 1;
      var front, last := ops[..n], ops[n];
      TableIsLiveInsertions(front, c);
      forall i | 0 <= i < n
        ensures front[i] == ops[i]
        ensures Live(ops, i, c) <==> Live(front, i, c) && ops[i].Put? && !Removes(last, c, RowOf(ops[i]))
      {
        LiveStep(ops, i, c);
      }
      LastStep(ops, c);
    }
  }

  lemma {:induction false} LastStep(ops: seq<Op>, c: string)
    requires ops != []
    requires var front := ops[..|ops| - 1];
             && (c in Run(front) <==> exists i :: Live(front, i, c))
             && (forall i :: Live(front, i, c) ==> c in Run(front) && Run(front)[c] == RowOf(front[i]))
             && (forall i, j :: Live(front, i, c) && Live(front, j, c) ==> i == j)
             && (forall i :: 0 <= i < |front| ==> front[i] == ops[i])
             && (forall i :: 0 <= i < |front| ==>
                   (Live(ops, i, c) <==>
                    Live(front, i, c) && ops[i].Put? && !Removes(ops[|ops| - 1], c, RowOf(ops[i]))))
    ensures c in Run(ops) <==> exists i :: Live(ops, i, c)
    ensures forall i :: Live(ops, i, c) ==> c in Run(ops) && Run(ops)[c] == RowOf(ops[i])
    ensures forall i, j :: Live(ops, i, c) && Live(ops, j, c) ==> i == j
  {
    var n := |ops| - 1;
    var front, last := ops[..n], ops[n];
    var before, after := Run(front), Run(ops);
    assert after == Apply(before, last);
    assert Live(ops, n, c) <==> last.Put? && last.code == c && c !in before;
    hide Apply, Run, Removes;
    if c in before {
      var i :| Live(front, i, c);
      assert before[c] == RowOf(ops[i]);
      ApplyKeeps(before, last, c);
      assert forall j :: Live(ops, j, c) ==> j == i;
      assert c in after ==> Live(ops, i, c);
    } else {
      assert forall j :: Live(ops, j, c) ==> j == n;
      ApplyAdds(before, last, c);
      assert c in after <==> Live(ops, n, c);
    }
  }

  ghost predicate IsLive(ops: seq<Op>, i: nat)
    requires i < |ops|
  {
    ops[i].Put? && Live(ops, i, ops[i].code)
  }

  /** How many of the first `n` operations are live insertions. */
  ghost function LiveCount(ops: seq<Op>, n: nat): nat
    requires n <= |ops|
  {
    if n == 0 then 0 else LiveCount(ops, n - 1) + (if IsLive(ops, n - 1) then 1 else 0)
  }

  ghost function LiveCodes(ops: seq<Op>, n: nat): set<string>
    requires n <= |ops|
  {
    if n == 0 then {} else LiveCodes(ops, n - 1) + (if IsLive(ops, n - 1) then {ops[n - 1].code} else {})
  }

  lemma {:induction false} LiveCodesDistinct(ops: seq<Op>, n: nat)
    requires n <= |ops|
    ensures |LiveCodes(ops, n)| == LiveCount(ops, n)
    ensures forall c :: c in LiveCodes(ops, n) <==> exists i :: 0 <= i < n && Live(ops, i, c)
  {
    hide Live;
    if n > 0 {
      LiveCodesDistinct(ops, n - 1);
      var m := n - 1;
      forall c ensures Live(ops, m, c) <==> IsLive(ops, m) && ops[m].code == c {
        if Live(ops, m, c) { LiveIsPut(ops, m, c); }
      }
      if IsLive(ops, m) {
        TableIsLiveInsertions(ops, ops[m].code);
        assert ops[m].code !in LiveCodes(ops, m);
      }
    }
  }

  /** The table has as many rows as there are live insertions. */
  lemma {:induction false} RowsAreLiveInsertions(ops: seq<Op>)
    ensures |Run(ops)| == LiveCount(ops, |ops|)
  {
    hide Run, Live;
    LiveCodesDistinct(ops, |ops|);
    forall c ensures c in Run(ops) <==> c in LiveCodes(ops, |ops|) {
      TableIsLiveInsertions(ops, c);
      if c in Run(ops) {
        var i :| Live(ops, i, c);
        LiveIsPut(ops, i, c);
      }
    }
    assert Run(ops).Keys == LiveCodes(ops, |ops|);
  }

  lemma {:induction false} LiveIsPut(ops: seq<Op>, i: int, c: string)
    requires Live(ops, i, c)
    ensures 0 <= i < |ops| && ops[i].Put? && ops[i].code == c
  {}

  lemma {:induction false} ApplyAdds(t: Table, op: Op, c: string)
    requires c !in t
    ensures c in Apply(t, op) <==> op.Put? && op.code == c
    ensures c in Apply(t, op) ==> Apply(t, op)[c] == RowOf(op)
  {}

  /** No operation changes a row: it keeps it as it is or removes it. */
  lemma {:induction false} ApplyKeeps(t: Table, op: Op, c: string)
    requires c in t
    ensures c in Apply(t, op) <==> !Removes(op, c, t[c])
    ensures c in Apply(t, op) ==> Apply(t, op)[c] == t[c]
  {}

  /** A stored report is served unchanged until an operation that removes it: whatever
      came before, whatever else happens, a fetch returns exactly the stored bytes. */
  lemma {:induction false} StoredUntilRemoved(before: seq<Op>, c: string, payload: seq<Byte>, at: int, later: seq<Op>)
    requires c !in Run(before)
    requires forall j :: 0 <= j < |later| ==> !Removes(later[j], c, Row(payload, Unix(at)))
    ensures var t := Run(before + [Op.Put(c, payload, at)] + later); c in t && t[c] == Row(payload, Unix(at))
  {
    hide Run;
    var ops := before + [Op.Put(c, payload, at)] + later;
    var i := |before|;
    assert ops[..i] == before && ops[i] == Op.Put(c, payload, at);
    assert forall j :: i < j < |ops| ==> ops[j] == later[j - i - 1];
    assert Live(ops, i, c);
    TableIsLiveInsertions(ops, c);
  }

  // ---------------------------------------------------------------------
  // putWithRetry

  const RETRY_ON_COLLISION: nat := 3

  /** What one attempt meets: the context, the random source, the database, the clock. */
  datatype Attempt = Attempt(cancelled: Option<string>, random: seq<Codec.Read>, db: Db, now: int)

  datatype Created = Accepted(code: string) | Refused(error: string)

  ghost predicate Fed(attempts: seq<Attempt>) {
    forall k :: 0 <= k < |attempts| ==> !Outcome(attempts[k].random, []).Starved?
  }

  /** The code an attempt draws, if it gets that far. */
  ghost function Drawn(a: Attempt): Option<string> {
    if a.cancelled.Some? then None
    else match Outcome(a.random, []) case Code(c) => Some(c) case _ => None
  }

  /** The attempt meets nothing worse than a taken code. */
  ghost predicate Collides(t: Table, a: Attempt) {
    Drawn(a).Some? && a.db.Healthy? && Drawn(a).value in t
  }

  /** What an attempt adds to the history when its statement takes effect. */
  ghost function PutOf(a: Attempt, payload: seq<Byte>): seq<Op> {
    if Drawn(a).Some? && a.db.Healthy? then [Op.Put(Drawn(a).value, payload, a.now)] else []
  }

  /** The history the k-th attempt meets: the earlier attempts, and the statements of other
      requests before each of them and before this one. */
  ghost function Met(ops: seq<Op>, payload: seq<Byte>, attempts: seq<Attempt>, others: seq<seq<Op>>, k: nat): seq<Op>
    requires k < |attempts| && k < |others|
  {
    if k == 0 then ops + others[0]
    else Met(ops, payload, attempts, others, k - 1) + PutOf(attempts[k - 1], payload) + others[k]
  }

  /** The k-th attempt meets a taken code and nothing worse. */
  ghost predicate CollidesAt(ops: seq<Op>, payload: seq<Byte>, attempts: seq<Attempt>, others: seq<seq<Op>>, k: nat)
    requires k < |attempts| && k < |others|
  {
    Collides(Run(Met(ops, payload, attempts, others, k)), attempts[k])
  }

  /** The bounded retry loop among other requests, whose statements may fall between its attempts.
      It succeeds exactly when, after at most two collisions, an attempt draws a code that is free
      at that moment from a working database, and then adds exactly that row to what it met;
      otherwise it leaves the table as the others made it. */
  method PutWithRetry(store: Store, payload: seq<Byte>, attempts: seq<Attempt>, others: seq<seq<Op>>)
    returns (r: Created, tries: nat)
    requires |attempts| == 3 == |others| && Fed(attempts) && store.Valid()
    modifies store
    ensures store.Valid() && 1 <= tries <= 3
    ensures store.ops == Met(old(store.ops), payload, attempts, others, tries - 1) + PutOf(attempts[tries - 1], payload)
    ensures forall k :: 0 <= k < tries - 1 ==> CollidesAt(old(store.ops), payload, attempts, others, k)
    ensures r.Accepted? ==>
              var met := Met(old(store.ops), payload, attempts, others, tries - 1);
              && Drawn(attempts[tries - 1]) == Some(r.code) && WellFormed(r.code) && r.code !in Run(met)
              && store.ops == met + [Op.Put(r.code, payload, attempts[tries - 1].now)]
              && Live(store.ops, |met|, r.code)
              && store.rows == Run(met)[r.code := Row(payload, Unix(attempts[tries - 1].now))]
    ensures r.Refused? ==> store.rows == Run(Met(old(store.ops), payload, attempts, others, tries - 1))
    ensures r.Refused? <==>
              || (tries == 3 && CollidesAt(old(store.ops), payload, attempts, others, tries - 1))
              || Drawn(attempts[tries - 1]).None? || attempts[tries - 1].db.Down?
    ensures r.Refused? ==>
              var a := attempts[tries - 1];
              r.error == if a.cancelled.Some? then a.cancelled.value
                         else match Outcome(a.random, [])
                           case ReadError(e) => "generate code: " + e
                           case _ => if a.db.Down? then a.db.error else "exhausted collision retries"
  {
    hide Outcome, Live, Run, WellFormed, Unix, Met;
    ghost var start := store.ops;
    tries := 0;
    for k := 0 to RETRY_ON_COLLISION
      invariant tries == k && store.Valid()
      invariant k == 0 ==> store.ops == start
      invariant k > 0 ==> store.ops == Met(start, payload, attempts, others, k - 1) + PutOf(attempts[k - 1], payload)
      invariant k > 0 ==> store.rows == Run(Met(start, payload, attempts, others, k - 1))
      invariant forall j :: 0 <= j < k ==> CollidesAt(start, payload, attempts, others, j)
    {
      var a := attempts[k];
      tries := k + 1;
      MetGrows(start, payload, attempts, others, k);
      store.Interleave(others[k]);
      assert store.ops == Met(start, payload, attempts, others, k);
      assert PutOf(a, payload) == [] ==> store.ops + PutOf(a, payload) == store.ops;
      if a.cancelled.Some? {
        return Refused(a.cancelled.value), tries;
      }
      var g := GenerateCode(a.random);
      if g.ReadError? {
        return Refused("generate code: " + g.error), tries;
      }
      var code := g.code;
      OutcomeWellFormed(a.random, []);
      PutMeans(store.ops, code, payload, a.now);
      var p := store.Put(code, payload, a.now, a.db);
      match p
      case Stored => return Accepted(code), tries;
      case PutError(e) => return Refused(e), tries;
      case CodeExists =>
    }
    return Refused("exhausted collision retries"), tries;
  }

  lemma {:induction false} MetGrows(ops: seq<Op>, payload: seq<Byte>, attempts: seq<Attempt>, others: seq<seq<Op>>, k: nat)
    requires k < |attempts| && k < |others|
    ensures k == 0 ==> Met(ops, payload, attempts, others, k) == ops + others[0]
    ensures k > 0 ==>
              Met(ops, payload, attempts, others, k) ==
              Met(ops, payload, attempts, others, k - 1) + PutOf(attempts[k - 1], payload) + others[k]
  {}

  lemma {:induction false} PutMeans(ops: seq<Op>, code: string, payload: seq<Byte>, now: int)
    ensures code in Run(ops) <==> exists i :: Live(ops, i, code)
    ensures Run(ops + [Op.Put(code, payload, now)]) ==
            if code in Run(ops) then Run(ops) else Run(ops)[code := Row(payload, Unix(now))]
  {
    hide Run;
    TableIsLiveInsertions(ops, code);
    RunGrows(ops, Op.Put(code, payload, now));
  }

  datatype Response = Ok(body: seq<Byte>) | BadRequest | NoSuchCode | Unavailable

  /** handleFetch: the bytes of the one live insertion under a well-formed code. */
  method HandleFetch(store: Store, code: string, db: Db) returns (r: Response)
    requires store.Valid()
    ensures !WellFormed(code) ==> r == BadRequest
    ensures WellFormed(code) && db.Down? ==> r == Unavailable
    ensures WellFormed(code) && db.Healthy? ==> forall i :: Live(store.ops, i, code) ==> r == Ok(store.ops[i].payload)
    ensures WellFormed(code) && db.Healthy? && (!exists i :: Live(store.ops, i, code)) ==> r == NoSuchCode
  {
    var valid := ValidCode(code);
    if !valid {
      return BadRequest;
    }
    var g := store.Get(code, db);
    match g
    case NotFound => return NoSuchCode;
    case GetError(_) => return Unavailable;
    case Payload(bytes) => return Ok(bytes);
  }

  /** An accepted report is served back byte for byte, whatever other requests do in between, as
      long as none of them removes it. */
  method CreateThenFetch(
    store: Store, payload: seq<Byte>, attempts: seq<Attempt>, others: seq<seq<Op>>, later: seq<Op>)
    returns (r: Created, tries: nat, f: Response)
    requires |attempts| == 3 == |others| && Fed(attempts) && store.Valid()
    modifies store
    ensures store.Valid() && 1 <= tries <= 3
    ensures r.Accepted? &&
            (forall j :: 0 <= j < |later| ==> !Removes(later[j], r.code, Row(payload, Unix(attempts[tries - 1].now)))) ==>
              f == Ok(payload)
  {
    hide Live, Run, Met, WellFormed, Outcome, Removes, Unix, Fed, PutOf;
    r, tries := PutWithRetry(store, payload, attempts, others);
    ghost var mid := store.ops;
    store.Interleave(later);
    if r.Accepted? && forall j :: 0 <= j < |later| ==> !Removes(later[j], r.code, Row(payload, Unix(attempts[tries - 1].now))) {
      StillLive(mid, later, |mid| - 1, r.code);
    }
    f := HandleFetch(store, if r.Accepted? then r.code else "", Healthy);
  }

  lemma {:induction false} StillLive(ops: seq<Op>, later: seq<Op>, i: nat, c: string)
    requires i < |ops| && ops[i].Put? && Live(ops, i, c)
    requires forall j :: 0 <= j < |later| ==> !Removes(later[j], c, RowOf(ops[i]))
    ensures Live(ops + later, i, c) && (ops + later)[i] == ops[i]
  {
    hide Run, Removes;
    var all := ops + later;
    assert all[..i] == ops[..i];
    forall j | i < j < |all| ensures !Removes(all[j], c, RowOf(all[i])) {
      if j < |ops| { assert all[j] == ops[j]; } else { assert all[j] == later[j - |ops|]; }
    }
  }

  // ---------------------------------------------------------------------
  // Retention

  /** Although both timestamps are rounded down, a sweep never deletes a row that is not
      older than the retention age. */
  lemma {:induction false} SweepSparesYoung(op: Op, put: Op)
    requires op.Sweep? && put.Put?
    requires Removes(op, put.code, RowOf(put))
    ensures op.at - put.at > op.age
  {}

  /** What survives a sweep is younger than the age plus one second. */
  lemma {:induction false} SweepLeavesYoung(op: Op, put: Op)
    requires op.Sweep? && put.Put?
    requires !Removes(op, put.code, RowOf(put))
    ensures op.at - put.at < op.age + 1_000_000_000
  {}

  /** What flooring to seconds means exactly: a sweep removes a row if and only if a whole second
      began after the row was stamped and no later than the cutoff. */
  lemma {:induction false} SweepRemovesIff(op: Op, put: Op)
    requires op.Sweep? && put.Put?
    ensures Removes(op, put.code, RowOf(put)) <==>
            exists second: int :: put.at < second * 1_000_000_000 <= op.at - op.age
  {
    var cutoff := Unix(op.at - op.age);
    if Removes(op, put.code, RowOf(put)) {
      assert put.at < cutoff * 1_000_000_000 <= op.at - op.age;
    }
    if second: int :| put.at < second * 1_000_000_000 <= op.at - op.age {
      assert Unix(put.at) < second <= cutoff;
    }
  }

  /** A Put that takes effect after a sweep read its clock at most `lag` before the sweep did: it
      may have waited for the connection, but no longer than that. */
  ghost predicate LagsAtMost(ops: seq<Op>, lag: int) {
    forall k, i :: 0 <= k < i < |ops| && ops[k].Sweep? && ops[i].Put? ==> ops[k].at - ops[i].at <= lag
  }

  /** A sweep with this age ran within `interval` of time `now`. */
  ghost predicate SweptWithin(ops: seq<Op>, age: int, interval: int, now: int) {
    exists k :: 0 <= k < |ops| && ops[k].Sweep? && ops[k].age == age && now - ops[k].at <= interval
  }

  /** At any moment `now` of any history, as long as the last sweep is no more than one interval
      back, every row in the table was stamped less than age + interval + 1 s ago, unless it is one
      that waited longer than the age for its insertion, and then no more than that wait and the
      interval ago. */
  lemma {:induction false} RetentionBound(ops: seq<Op>, age: int, interval: int, lag: int, now: int, c: string)
    requires LagsAtMost(ops, lag) && SweptWithin(ops, age, interval, now)
    requires c in Run(ops)
    ensures exists i :: Live(ops, i, c) && Run(ops)[c] == RowOf(ops[i]) &&
              (now - ops[i].at < age + interval + 1_000_000_000 || now - ops[i].at <= lag + interval)
    ensures lag < age + 1_000_000_000 ==>
              exists i :: Live(ops, i, c) && Run(ops)[c] == RowOf(ops[i]) && now - ops[i].at < age + interval + 1_000_000_000
  {
    hide Run, Removes;
    TableIsLiveInsertions(ops, c);
    var i :| Live(ops, i, c);
    var k :| 0 <= k < |ops| && ops[k].Sweep? && ops[k].age == age && now - ops[k].at <= interval;
    if i < k {
      assert !Removes(ops[k], c, RowOf(ops[i]));
      SweepLeavesYoung(ops[k], ops[i]);
    } else {
      assert i > k && ops[k].at - ops[i].at <= lag;
    }
  }

  /** One tick of the retention loop: the clock and the database. */
  datatype Tick = Tick(now: int, db: Db)

  /** The sweep of one tick, if it takes effect. */
  function SweepOf(age: int, tick: Tick): seq<Op> { if tick.db.Healthy? then [Sweep(age, tick.now)] else [] }

  function Sweeps(age: int, ticks: seq<Tick>): seq<Op> {
    if ticks == [] then [] else Sweeps(age, ticks[..|ticks| - 1]) + SweepOf(age, ticks[|ticks| - 1])
  }

  method SweepOnce(store: Store, age: int, tick: Tick)
    requires store.Valid()
    modifies store
    ensures store.Valid() && store.ops == old(store.ops) + SweepOf(age, tick)
  {
    hide Run;
    var r := store.DeleteOlderThan(tick.now - age, tick.db, tick.now);
  }

  /** runRetention: one sweep at once, then one per tick until the context ends. */
  method RunRetention(store: Store, age: int, first: Tick, ticks: seq<Tick>)
    requires store.Valid()
    modifies store
    ensures store.Valid() && store.ops == old(store.ops) + Sweeps(age, [first] + ticks)
  {
    hide Run, SweepOf;
    ghost var all := [first] + ticks;
    SweepOnce(store, age, first);
    assert all[..1] == [first] && [first][..0] == [];
    for i := 0 to |ticks|
      invariant store.Valid() && store.ops == old(store.ops) + Sweeps(age, all[..i + 1])
    {
      assert all[..i + 2][..i + 1] == all[..i + 1] && all[i + 1] == ticks[i];
      SweepOnce(store, age, ticks[i]);
    }
    assert all[..|ticks| + 1] == all;
  }

  /** Right after a sweep that took effect, no row in the table is as old as the age plus one second. */
  lemma {:induction false} FreshAfterRetention(before: seq<Op>, age: int, ticks: seq<Tick>, c: string)
    requires ticks != [] && ticks[|ticks| - 1].db.Healthy?
    requires c in Run(before + Sweeps(age, ticks))
    ensures var ops := before + Sweeps(age, ticks);
            exists i :: Live(ops, i, c) && Run(ops)[c] == RowOf(ops[i]) && ticks[|ticks| - 1].now - ops[i].at < age + 1_000_000_000
  {
    hide Run, Removes;
    var ops, now := before + Sweeps(age, ticks), ticks[|ticks| - 1].now;
    var n := |ops| - 1;
    assert ops[n] == Sweep(age, now);
    TableIsLiveInsertions(ops, c);
    var i :| Live(ops, i, c);
    assert !Removes(ops[n], c, RowOf(ops[i]));
    SweepLeavesYoung(ops[n], ops[i]);
  }

  // ---------------------------------------------------------------------
  // startupDelete

  datatype Startup = Done | InvalidCode(code: string) | DeleteError(code: string)

  /** The codes named by a comma-separated list, blanks dropped. */
  function Named(parts: seq<string>): seq<string> {
    if parts == [] then []
    else (if TrimSpace(parts[0]) == "" then [] else [TrimSpace(parts[0])]) + Named(parts[1..])
  }

  /** The deletions of those codes, in order. */
  ghost function Deletes(codes: seq<string>, at: int): (r: seq<Op>)
    ensures |r| == |codes| && forall i :: 0 <= i < |r| ==> r[i] == Delete(codes[i], at)
  {
    seq(|codes|, i requires 0 <= i < |codes| => Delete(codes[i], at))
  }

  function CodesIn(codes: seq<string>): set<string> { set c | c in codes }

  lemma {:induction false} DeletesRemove(ops: seq<Op>, codes: seq<string>, at: int)
    ensures Run(ops + Deletes(codes, at)) == Run(ops) - CodesIn(codes)
  {
    hide Run;
    if codes == [] {
      assert ops + Deletes(codes, at) == ops;
    } else {
      var n := |codes| - 1;
      DeletesRemove(ops, codes[..n], at);
      RunGrows(ops + Deletes(codes[..n], at), Delete(codes[n], at));
      assert ops + Deletes(codes, at) == ops + Deletes(codes[..n], at) + [Delete(codes[n], at)];
      assert CodesIn(codes) == CodesIn(codes[..n]) + {codes[n]};
    }
  }

  lemma {:induction false} NamedAppend(a: seq<string>, b: seq<string>)
    ensures Named(a + b) == Named(a) + Named(b)
  {
    hide TrimSpace;
    if a == [] {
      assert a + b == b;
    } else {
      assert (a + b)[1..] == a[1..] + b;
      NamedAppend(a[1..], b);
    }
  }

  /** Deletes the listed codes in order and stops at the first malformed one; the codes
      before it are gone already, everything else stays. */
  method StartupDelete(store: Store, codes: string, db: string -> Db, ghost at: int) returns (r: Startup, ghost n: nat)
    requires store.Valid()
    modifies store
    ensures n <= |Named(Split(codes, ','))|
    ensures store.Valid() && store.ops == old(store.ops) + Deletes(Named(Split(codes, ','))[..n], at)
    ensures store.rows == old(store.rows) - CodesIn(Named(Split(codes, ','))[..n])
    ensures forall k :: 0 <= k < n ==> WellFormed(Named(Split(codes, ','))[k])
    ensures r == Done <==> n == |Named(Split(codes, ','))|
    ensures r.InvalidCode? ==> n < |Named(Split(codes, ','))| && r.code == Named(Split(codes, ','))[n] && !WellFormed(r.code)
    ensures r.DeleteError? ==> n < |Named(Split(codes, ','))| && r.code == Named(Split(codes, ','))[n] && db(r.code).Down?
  {
    hide TrimSpace, Split, WellFormed, Named, Run;
    var parts := Split(codes, ',');
    ghost var all := Named(parts);
    NamedNothing(parts);
    n := 0;
    for i := 0 to |parts|
      invariant n == |Named(parts[..i])| <= |all| && Named(parts[..i]) == all[..n]
      invariant store.Valid() && store.ops == old(store.ops) + Deletes(all[..n], at)
      invariant forall k :: 0 <= k < n ==> WellFormed(all[k])
    {
      var code := TrimSpace(parts[i]);
      NamedStep(parts, i);
      if code != "" {
        assert all[n] == code;
        var valid := ValidCode(code);
        if !valid {
          DeletesRemove(old(store.ops), all[..n], at);
          return InvalidCode(code), n;
        }
        var d := store.DeleteByCode(code, db(code), at);
        if d.RowsError? {
          DeletesRemove(old(store.ops), all[..n], at);
          return DeleteError(code), n;
        }
        assert Deletes(all[..n + 1], at) == Deletes(all[..n], at) + [Delete(code, at)];
        n := n + 1;
      }
    }
    assert parts[..|parts|] == parts;
    DeletesRemove(old(store.ops), all[..n], at);
    r := Done;
  }

  lemma {:induction false} NamedNothing(parts: seq<string>)
    ensures Named(parts[..0]) == []
  {}

  lemma {:induction false} NamedStep(parts: seq<string>, i: nat)
    requires i < |parts|
    ensures var code := TrimSpace(parts[i]);
            && Named(parts[..i + 1]) == Named(parts[..i]) + (if code == "" then [] else [code])
            && Named(parts) == Named(parts[..i + 1]) + Named(parts[i + 1..])
  {
    hide TrimSpace;
    assert parts[..i + 1] == parts[..i] + [parts[i]];
    NamedAppend(parts[..i], [parts[i]]);
    NamedAppend(parts[..i + 1], parts[i + 1..]);
    assert parts == parts[..i + 1] + parts[i + 1..];
  }
}
