/**
  What one node stores, seen through its transactions: records, one clock per origin, and the
  replication log. Expired records and log entries stay in the maps but are invisible.
*/
module Replicas {
  import opened Types

  datatype Pos = Pos(id: NodeID, clock: nat)
  datatype LogItem = LogItem(key: KeyHash, state: int32, expires: nat)

  datatype Replica = Replica(
    records: map<KeyHash, Record>,
    clocks: map<NodeID, nat>,
    log: map<Pos, LogItem>)
  {
    function Clock(id: NodeID): nat {
      if id in clocks then clocks[id] else 0
    }

    predicate Has(key: KeyHash, now: nat) {
      key in records && Live(Expiry(records[key]), now)
    }

    predicate HasLog(pos: Pos, now: nat) {
      pos in log && Live(log[pos].expires, now)
    }
  }

  const EMPTY := Replica(map[], map[], map[])

  /** The expiry the storage engine is given; 0 means never. */
  function Expiry(r: Record): nat {
    if r.expiresAtUnix > 0 then r.expiresAtUnix else 0
  }

  predicate Live(expires: nat, now: nat) {
    expires == 0 || now < expires
  }

  /** One entry of a replication response. It carries no clock. */
  datatype Entry = Entry(id: NodeID, key: KeyHash, record: Record)

  datatype StoreError =
    | OperationNotSupported
    | RecordsNotEqual
    | InvalidKey
    | KeyNotFound
    | KeyAlreadyExists
    | Malformed
    | Conflict

  datatype AdminChange = Invalidate(at: int64, reason: string) | Unpublish

  function Changed(r: Record, change: AdminChange): Record {
    match change
    case Invalidate(at, reason) => r.(invalidatedAtUnix := at, invalidationReason := reason)
    case Unpublish => r.(public := false)
  }

  // ---------- the transactions ----------

  function Insert(st: Replica, e: Entry, now: nat): Result<Replica, StoreError> {
    if e.record.state != CREATED then
      Err(OperationNotSupported)
    else if st.Has(e.key, now) && st.records[e.key] != e.record then
      Err(RecordsNotEqual)
    else if ENGINE_PREFIX <= e.key.bytes then
      Err(InvalidKey)
    else
      var next := st.Clock(e.id) + 1;
      Ok(Replica(
           st.records[e.key := e.record],
           st.clocks[e.id := next],
           st.log[Pos(e.id, next) := LogItem(e.key, e.record.state, Expiry(e.record))]))
  }

  /** A batch stops at its first failing entry; the caller then keeps the old state. */
  function InsertAll(st: Replica, es: seq<Entry>, now: nat): Result<Replica, StoreError> {
    if es == [] then Ok(st)
    else
      var front := InsertAll(st, es[..|es| - 1], now);
      if front.Err? then front else Insert(front.value, es[|es| - 1], now)
  }

  function EnsureClock(st: Replica, id: NodeID): Replica {
    if id in st.clocks then st else st.(clocks := st.clocks[id := 0])
  }

  function Update(st: Replica, key: KeyHash, change: AdminChange, now: nat): Result<Replica, StoreError> {
    if !st.Has(key, now) then Err(KeyNotFound)
    else if ENGINE_PREFIX <= key.bytes then Err(InvalidKey)
    else Ok(st.(records := st.records[key := Changed(st.records[key], change)]))
  }

  function Delete(st: Replica, key: KeyHash, now: nat): Result<Replica, StoreError> {
    if !st.Has(key, now) then Err(KeyNotFound)
    else if ENGINE_PREFIX <= key.bytes then Err(InvalidKey)
    else Ok(st.(
              records := st.records - {key},
              log := map p | p in st.log && !(st.log[p].key == key && st.HasLog(p, now)) :: st.log[p]))
  }

  /** The clocks of the first `limit` live entries of `id` past `after`, in increasing order; all if it is negative. */
  ghost predicate Scan(st: Replica, id: NodeID, after: nat, limit: int, now: nat, found: seq<nat>) {
    && (limit >= 0 ==> |found| <= limit)
    && (forall i :: 0 <= i < |found| ==> after < found[i] && st.HasLog(Pos(id, found[i]), now))
    && (forall i, j :: 0 <= i < j < |found| ==> found[i] < found[j])
    && (forall c: nat :: after < c && st.HasLog(Pos(id, c), now) && c !in found ==>
          |found| == limit && forall i :: 0 <= i < |found| ==> found[i] < c)
  }

  /** Scan leaves no choice. */
  lemma ScanUnique(st: Replica, id: NodeID, after: nat, limit: int, now: nat, a: seq<nat>, b: seq<nat>)
    requires Scan(st, id, after, limit, now, a)
    requires Scan(st, id, after, limit, now, b)
    ensures a == b
  {
    ScanAgree(st, id, after, limit, now, a, b, |a|);
    ScanAgree(st, id, after, limit, now, b, a, |b|);
  }

  lemma {:induction false} ScanAgree(
    st: Replica, id: NodeID, after: nat, limit: int, now: nat, a: seq<nat>, b: seq<nat>, n: nat)
    requires Scan(st, id, after, limit, now, a)
    requires Scan(st, id, after, limit, now, b)
    requires n <= |a|
    ensures n <= |b| && forall k :: 0 <= k < n ==> a[k] == b[k]
  {
    if n > 0 {
      ScanAgree(st, id, after, limit, now, a, b, n - 1);
      ScanNext(st, id, after, limit, now, a, b, n - 1);
      ScanNext(st, id, after, limit, now, b, a, n - 1);
    }
  }

  lemma ScanNext(st: Replica, id: NodeID, after: nat, limit: int, now: nat, a: seq<nat>, b: seq<nat>, i: nat)
    requires Scan(st, id, after, limit, now, a)
    requires Scan(st, id, after, limit, now, b)
    requires i < |a| && i <= |b| && forall k :: 0 <= k < i ==> a[k] == b[k]
    ensures i < |b| && b[i] <= a[i]
  {
    assert after < a[i] && st.HasLog(Pos(id, a[i]), now);
    if a[i] in b {
      var j :| 0 <= j < |b| && b[j] == a[i];
    }
  }
}
