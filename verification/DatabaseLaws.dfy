/** What every transaction of a database keeps: lawful clocks and log, records behind the log, live records as is. */
module DatabaseLaws {
  import opened Types
  import opened Replicas

  /** Every log entry was stamped by the clock of its origin; only creations are logged. */
  ghost predicate Stamped(st: Replica) {
    && (forall p :: p in st.log ==> 1 <= p.clock <= st.Clock(p.id) && st.log[p].state == CREATED)
    && (forall k :: k in st.records ==> st.records[k].state == CREATED)
  }

  /** No clock value was skipped: with Stamped, the log clocks of `id` are exactly 1..Clock(id). */
  ghost predicate Gapless(st: Replica) {
    forall p: Pos :: 1 <= p.clock <= st.Clock(p.id) ==> p in st.log
  }

  /** Each live log entry has a live record with the same expiry. */
  ghost predicate Intact(st: Replica, now: nat) {
    forall p :: st.HasLog(p, now) ==>
      st.log[p].key in st.records && Expiry(st.records[st.log[p].key]) == st.log[p].expires
  }

  /** The transactions of a node and the passing of time. */
  datatype Op =
    | InsertOp(entry: Entry)
    | BatchOp(entries: seq<Entry>)
    | EnsureOp(id: NodeID)
    | UpdateOp(key: KeyHash, change: AdminChange)
    | DeleteOp(key: KeyHash)
    | TickOp(time: nat)

  function Commit(st: Replica, outcome: Result<Replica, StoreError>): Replica {
    if outcome.Ok? then outcome.value else st
  }

  function Do(st: Replica, now: nat, op: Op): Replica {
    match op
    case InsertOp(e) => Commit(st, Insert(st, e, now))
    case BatchOp(es) => Commit(st, InsertAll(st, es, now))
    case EnsureOp(id) => EnsureClock(st, id)
    case UpdateOp(key, change) => Commit(st, Update(st, key, change, now))
    case DeleteOp(key) => Commit(st, Delete(st, key, now))
    case TickOp(_) => st
  }

  function After(now: nat, op: Op): nat {
    if op.TickOp? && op.time > now then op.time else now
  }

  function RunOps(st: Replica, now: nat, ops: seq<Op>): (Replica, nat) {
    if ops == [] then (st, now)
    else
      var (st', now') := RunOps(st, now, ops[..|ops| - 1]);
      (Do(st', now', ops[|ops| - 1]), After(now', ops[|ops| - 1]))
  }

  ghost predicate Law(st: Replica, now: nat) {
    Stamped(st) && Intact(st, now)
  }

  // ---------- one transaction ----------

  /** Clocks only grow, and a position of the log is written once: nothing appears at or below
      the clock, and what stays at a position never changes. */
  ghost predicate Grows(before: Replica, after: Replica) {
    && (forall id: NodeID :: before.Clock(id) <= after.Clock(id))
    && before.clocks.Keys <= after.clocks.Keys
    && (forall p :: p in after.log && p.clock <= before.Clock(p.id) ==>
          p in before.log && after.log[p] == before.log[p])
  }

  ghost predicate KeepsLiveRecords(before: Replica, after: Replica, now: nat) {
    forall k: KeyHash :: before.Has(k, now) ==> k in after.records && after.records[k] == before.records[k]
  }

  lemma InsertStamps(st: Replica, e: Entry, now: nat)
    requires Stamped(st)
    requires Insert(st, e, now).Ok?
    ensures var st' := Insert(st, e, now).value;
            Stamped(st') && Grows(st, st') && (Gapless(st) ==> Gapless(st'))
  {
    var st' := Insert(st, e, now).value;
    var added := Pos(e.id, st.Clock(e.id) + 1);
    assert forall id: NodeID :: st'.Clock(id) == if id == e.id then added.clock else st.Clock(id);
    assert forall p :: p in st'.log <==> p == added || p in st.log;
  }

  lemma InsertLaw(st: Replica, e: Entry, now: nat)
    requires Law(st, now)
    requires Insert(st, e, now).Ok?
    ensures var st' := Insert(st, e, now).value;
            && Law(st', now) && Grows(st, st') && KeepsLiveRecords(st, st', now)
            && (Gapless(st) ==> Gapless(st'))
  {
    InsertStamps(st, e, now);
  }

  lemma {:induction false} InsertAllLaw(st: Replica, es: seq<Entry>, now: nat)
    requires Law(st, now)
    requires InsertAll(st, es, now).Ok?
    ensures var st' := InsertAll(st, es, now).value;
            && Law(st', now) && Grows(st, st') && KeepsLiveRecords(st, st', now)
            && (Gapless(st) ==> Gapless(st'))
  {
    if es != [] {
      InsertAllLaw(st, es[..|es| - 1], now);
      InsertLaw(InsertAll(st, es[..|es| - 1], now).value, es[|es| - 1], now);
    }
  }

  lemma DeleteLaw(st: Replica, key: KeyHash, now: nat)
    requires Law(st, now)
    requires Delete(st, key, now).Ok?
    ensures var st' := Delete(st, key, now).value; Law(st', now) && Grows(st, st')
  {
  }

  /** From now on the key has neither a record nor a log entry under any id; all else is as before. */
  lemma DeleteExact(st: Replica, key: KeyHash, now: nat, t: nat)
    requires Delete(st, key, now).Ok? && now <= t
    ensures var st' := Delete(st, key, now).value;
            && (forall k: KeyHash :: st'.Has(k, t) <==> st.Has(k, t) && k != key)
            && (forall k: KeyHash :: st'.Has(k, t) ==> st'.records[k] == st.records[k])
            && (forall p: Pos :: st'.HasLog(p, t) <==> st.HasLog(p, t) && st.log[p].key != key)
            && (forall p: Pos :: st'.HasLog(p, t) ==> st'.log[p] == st.log[p])
            && st'.clocks == st.clocks
  {
    forall p: Pos ensures Delete(st, key, now).value.HasLog(p, t) <==> st.HasLog(p, t) && st.log[p].key != key {
      assert st.HasLog(p, t) ==> st.HasLog(p, now);
    }
  }

  lemma DoLaw(st: Replica, now: nat, op: Op)
    requires Law(st, now)
    ensures Law(Do(st, now, op), After(now, op))
    ensures Grows(st, Do(st, now, op))
    ensures op.InsertOp? || op.BatchOp? ==> KeepsLiveRecords(st, Do(st, now, op), now)
    ensures Gapless(st) && !op.DeleteOp? ==> Gapless(Do(st, now, op))
  {
    match op
    case InsertOp(e) => if Insert(st, e, now).Ok? { InsertLaw(st, e, now); }
    case BatchOp(es) => if InsertAll(st, es, now).Ok? { InsertAllLaw(st, es, now); }
    case EnsureOp(id) =>
    case UpdateOp(key, change) =>
    case DeleteOp(key) => if Delete(st, key, now).Ok? { DeleteLaw(st, key, now); }
    case TickOp(_) =>
  }

  // ---------- whole runs ----------

  lemma {:induction false} RunLaw(start: nat, ops: seq<Op>)
    ensures Law(RunOps(EMPTY, start, ops).0, RunOps(EMPTY, start, ops).1)
    ensures (forall k :: 0 <= k < |ops| ==> !ops[k].DeleteOp?) ==> Gapless(RunOps(EMPTY, start, ops).0)
  {
    if ops != [] {
      RunLaw(start, ops[..|ops| - 1]);
      var before := RunOps(EMPTY, start, ops[..|ops| - 1]);
      DoLaw(before.0, before.1, ops[|ops| - 1]);
    }
  }

  lemma {:induction false} RunGrows(start: nat, ops: seq<Op>, i: nat, j: nat)
    requires i <= j <= |ops|
    ensures RunOps(EMPTY, start, ops[..i]).1 <= RunOps(EMPTY, start, ops[..j]).1
    ensures Grows(RunOps(EMPTY, start, ops[..i]).0, RunOps(EMPTY, start, ops[..j]).0)
  {
    if i < j {
      assert ops[..j][..j - 1] == ops[..j - 1];
      var mid := RunOps(EMPTY, start, ops[..j - 1]);
      RunGrows(start, ops, i, j - 1);
      RunLaw(start, ops[..j - 1]);
      DoLaw(mid.0, mid.1, ops[j - 1]);
    }
  }

  /**
    Over any run of transactions from the empty database, between any two moments: the laws hold,
    clocks have not decreased, no log position was reused; and without deletions the log clocks of
    every id are exactly 1..clock, one entry each.
  */
  lemma DatabaseLaw(start: nat, ops: seq<Op>, i: nat, j: nat)
    requires i <= j <= |ops|
    ensures var (si, ti) := RunOps(EMPTY, start, ops[..i]);
            var (sj, tj) := RunOps(EMPTY, start, ops[..j]);
            && Law(sj, tj) && ti <= tj && Grows(si, sj)
            && ((forall k :: 0 <= k < j ==> !ops[k].DeleteOp?) ==> Gapless(sj))
  {
    RunLaw(start, ops[..j]);
    RunGrows(start, ops, i, j);
  }
}
