/** How long a record that was put is found, and as what: until its expiry, as it was given and since changed. */
module Lifetime {
  import opened Types
  import opened Replicas
  import opened DatabaseLaws
  import opened NodeDatabase

  /** The i-th of these transactions inserts the entry. */
  ghost predicate PutAt(start: nat, ops: seq<Op>, i: nat, e: Entry) {
    && i < |ops| && ops[i] == InsertOp(e)
    && var (st, now) := RunOps(EMPTY, start, ops[..i]);
       Insert(st, e, now).Ok?
  }

  /** Neither deletes the key nor inserts it again. */
  predicate Spares(op: Op, key: KeyHash) {
    match op
    case InsertOp(e) => e.key != key
    case BatchOp(es) => forall k :: 0 <= k < |es| ==> es[k].key != key
    case DeleteOp(other) => other != key
    case _ => true
  }

  /** The i-th transaction is the last one that inserts or deletes the key of its entry. */
  ghost predicate LastPut(start: nat, ops: seq<Op>, i: nat, e: Entry) {
    PutAt(start, ops, i, e) && forall k :: i < k < |ops| ==> Spares(ops[k], e.key)
  }

  /** Record and log entry are in the maps, found or not. */
  ghost predicate Kept(st: Replica, key: KeyHash, p: Pos, expiresAt: int) {
    && key in st.records && st.records[key].expiresAtUnix == expiresAt
    && p in st.log && st.log[p].key == key && st.log[p].expires == (if expiresAt > 0 then expiresAt else 0)
    && p.clock <= st.Clock(p.id)
  }

  lemma {:induction false} BatchKeeps(st: Replica, es: seq<Entry>, now: nat, key: KeyHash, p: Pos, expiresAt: int)
    requires Kept(st, key, p, expiresAt) && InsertAll(st, es, now).Ok?
    requires forall k :: 0 <= k < |es| ==> es[k].key != key
    ensures Kept(InsertAll(st, es, now).value, key, p, expiresAt)
    ensures InsertAll(st, es, now).value.records[key] == st.records[key]
  {
    if es != [] { BatchKeeps(st, es[..|es| - 1], now, key, p, expiresAt); }
  }

  lemma OpKeeps(st: Replica, now: nat, op: Op, key: KeyHash, p: Pos, expiresAt: int)
    requires Kept(st, key, p, expiresAt) && Spares(op, key)
    ensures Kept(Do(st, now, op), key, p, expiresAt)
    ensures !op.UpdateOp? ==> Do(st, now, op).records[key] == st.records[key]
  {
    match op
    case InsertOp(e) =>
    case BatchOp(es) => if InsertAll(st, es, now).Ok? { BatchKeeps(st, es, now, key, p, expiresAt); }
    case EnsureOp(id) =>
    case UpdateOp(other, change) =>
    case DeleteOp(other) =>
    case TickOp(_) =>
  }

  function LogClock(start: nat, ops: seq<Op>, i: nat, id: NodeID): nat
    requires i <= |ops|
  {
    RunOps(EMPTY, start, ops[..i]).0.Clock(id) + 1
  }

  lemma {:induction false} RunKeeps(start: nat, ops: seq<Op>, i: nat, e: Entry)
    requires LastPut(start, ops, i, e)
    ensures Kept(RunOps(EMPTY, start, ops).0, e.key, Pos(e.id, LogClock(start, ops, i, e.id)), e.record.expiresAtUnix)
    decreases |ops|
  {
    var front := ops[..|ops| - 1];
    if i < |front| {
      assert front[..i] == ops[..i];
      RunKeeps(start, front, i, e);
      var (st, now) := RunOps(EMPTY, start, front);
      OpKeeps(st, now, ops[|ops| - 1], e.key, Pos(e.id, LogClock(start, ops, i, e.id)), e.record.expiresAtUnix);
    } else {
      assert front == ops[..i];
    }
  }

  /**
    Until when it is found: after any further transactions that neither put nor delete the key, it can be
    got, updated and deleted, stands in the way of a put, and has its entry in a scan of the log, just if
    its expiry, if positive, lies ahead.
  */
  lemma FoundUntilExpiry(
    start: nat, ops: seq<Op>, i: nat, e: Entry, change: AdminChange, id: NodeID, r: Record, after: nat,
    found: seq<nat>)
    requires LastPut(start, ops, i, e)
    ensures var (st, now) := RunOps(EMPTY, start, ops);
            var lasts := e.record.expiresAtUnix <= 0 || now < e.record.expiresAtUnix;
            && (Seen(st, e.key, now) != Ok(None) <==> lasts)
            && (Update(st, e.key, change, now).Ok? <==> lasts)
            && (Delete(st, e.key, now).Ok? <==> lasts)
            && (PutSpec(st, id, e.key, r, now) == Err(KeyAlreadyExists) <==> lasts)
            && var clock := LogClock(start, ops, i, e.id);
               after < clock && Scan(st, e.id, after, -1, now, found) ==> (clock in found <==> lasts)
  {
    RunKeeps(start, ops, i, e);
  }

  // ---------- what is found ----------

  /** The reason of the last invalidation of the key. */
  function LastReason(ops: seq<Op>, key: KeyHash): string {
    if ops == [] then ""
    else
      var op := ops[|ops| - 1];
      if op.UpdateOp? && op.key == key && op.change.Invalidate? then op.change.reason
      else LastReason(ops[..|ops| - 1], key)
  }

  /** The record is `r` but for these. */
  ghost predicate Became(was: Record, r: Record, reason: string, public: bool) {
    && r.invalidationReason == reason && r.public == public
    && r.(invalidationReason := was.invalidationReason, invalidatedAtUnix := was.invalidatedAtUnix,
          public := was.public) == was
  }

  lemma OpBecomes(st: Replica, now: nat, op: Op, key: KeyHash, p: Pos, was: Record, reason: string, public: bool)
    requires Kept(st, key, p, was.expiresAtUnix) && Spares(op, key) && !(ENGINE_PREFIX <= key.bytes)
    requires was.expiresAtUnix <= 0 || now < was.expiresAtUnix
    requires Became(was, st.records[key], reason, public)
    ensures key in Do(st, now, op).records
    ensures var named := op.UpdateOp? && op.key == key;
            Became(was, Do(st, now, op).records[key],
                   if named && op.change.Invalidate? then op.change.reason else reason,
                   public && !(named && op.change.Unpublish?))
  {
    OpKeeps(st, now, op, key, p, was.expiresAtUnix);
  }

  lemma {:induction false} RunBecomes(start: nat, ops: seq<Op>, i: nat, e: Entry)
    requires LastPut(start, ops, i, e) && e.record.invalidationReason == ""
    requires var now := RunOps(EMPTY, start, ops).1; e.record.expiresAtUnix <= 0 || now < e.record.expiresAtUnix
    ensures var st := RunOps(EMPTY, start, ops).0;
            && e.key in st.records
            && Became(e.record, st.records[e.key], LastReason(ops[i + 1..], e.key),
                      e.record.public && UpdateOp(e.key, Unpublish) !in ops[i + 1..])
    decreases |ops|
  {
    var front, last := ops[..|ops| - 1], ops[|ops| - 1];
    if i < |front| {
      assert front[..i] == ops[..i];
      assert ops[i + 1..] == front[i + 1..] + [last];
      var (st, now) := RunOps(EMPTY, start, front);
      RunBecomes(start, front, i, e);
      RunKeeps(start, front, i, e);
      OpBecomes(st, now, last, e.key, Pos(e.id, LogClock(start, front, i, e.id)), e.record,
                LastReason(front[i + 1..], e.key),
                e.record.public && UpdateOp(e.key, Unpublish) !in front[i + 1..]);
    } else {
      assert front == ops[..i];
    }
  }

  /**
    What Get finds of what was put, after any further transactions that neither put nor delete the key:
    nothing once it has expired, the reason of the last invalidation if there is one, and otherwise
    exactly what was given, public until it was unpublished.
  */
  lemma GetAfterPut(start: nat, ops: seq<Op>, i: nat, e: Entry, given: AuthRecord, createdAt: int64)
    requires LastPut(start, ops, i, e) && IsNew(e.record, given, createdAt)
    ensures var (st, now) := RunOps(EMPTY, start, ops);
            var reason := LastReason(ops[i + 1..], e.key);
            var expiresAt := if given.expiresAt.Some? && given.expiresAt.value > 0 then given.expiresAt else None;
            Seen(st, e.key, now) ==
            if expiresAt.Some? && expiresAt.value <= now then Ok(None)
            else if reason != "" then Err(Invalid(reason))
            else Ok(Some(given.(
                           expiresAt := expiresAt,
                           public := given.public && UpdateOp(e.key, Unpublish) !in ops[i + 1..])))
  {
    RunKeeps(start, ops, i, e);
    var (st, now) := RunOps(EMPTY, start, ops);
    if e.record.expiresAtUnix <= 0 || now < e.record.expiresAtUnix { RunBecomes(start, ops, i, e); }
  }
}
