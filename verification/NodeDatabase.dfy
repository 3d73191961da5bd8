/** A node's database object: transactions over its store, and the replication requests built on them. */
module NodeDatabase {
  import opened Types
  import opened Replicas
  import opened DatabaseLaws
  import opened ReplicationLog
  import opened Storage
  import opened Representation
  import opened Cluster
  import opened Database

  /** A record as the key-value interface is given it. */
  datatype AuthRecord = AuthRecord(
    satelliteAddress: string,
    macaroonHead: Bytes,
    encryptedSecretKey: Bytes,
    encryptedAccessGrant: Bytes,
    expiresAt: Option<int64>,
    public: bool)

  function NewRecord(r: AuthRecord, createdAt: int64): Record {
    Record(createdAt, r.public, r.satelliteAddress, r.macaroonHead,
           if r.expiresAt.Some? then r.expiresAt.value else 0,
           r.encryptedSecretKey, r.encryptedAccessGrant, "", 0, CREATED)
  }

  datatype GetError = Invalid(reason: string) | Failed(error: StoreError)

  /** What the key-value interface finds: nothing, or a record unless it was invalidated. */
  function Seen(st: Replica, key: KeyHash, now: nat): Result<Option<AuthRecord>, GetError> {
    if !st.Has(key, now) then Ok(None)
    else
      var r := st.records[key];
      if r.invalidationReason != "" then Err(Invalid(r.invalidationReason))
      else
        var expiresAt := if r.expiresAtUnix > 0 then Some(r.expiresAtUnix) else None;
        Ok(Some(AuthRecord(r.satelliteAddress, r.macaroonHead, r.encryptedSecretKey, r.encryptedAccessGrant,
                           expiresAt, r.public)))
  }

  datatype RequestEntry = RequestEntry(id: NodeID, clock: uint64)

  /** What a transaction meant to do `spec` reports: its own error, or whether the commit went through. */
  function Outcome(spec: Result<Replica, StoreError>, commits: bool): Result<(), StoreError> {
    if spec.Err? then Err(spec.error) else if commits then Ok(()) else Err(Conflict)
  }

  /** The state after it. */
  function Settled(before: Replica, spec: Result<Replica, StoreError>, commits: bool): Replica {
    if spec.Ok? && commits then spec.value else before
  }

  function PutSpec(st: Replica, id: NodeID, key: KeyHash, record: Record, now: nat): Result<Replica, StoreError> {
    if st.Has(key, now) then Err(KeyAlreadyExists) else Insert(st, Entry(id, key, record), now)
  }

  // ---------- what is stored, and what changes, field by field ----------

  /** The record is the one given, created at that time. */
  ghost predicate IsNew(r: Record, given: AuthRecord, createdAt: int64) {
    && r.satelliteAddress == given.satelliteAddress && r.macaroonHead == given.macaroonHead
    && r.encryptedSecretKey == given.encryptedSecretKey && r.encryptedAccessGrant == given.encryptedAccessGrant
    && r.expiresAtUnix == (match given.expiresAt case Some(time) => time case None => 0)
    && r.public == given.public && r.createdAtUnix == createdAt
    && r.invalidationReason == "" && r.invalidatedAtUnix == 0 && r.state == CREATED
  }

  /** The key has this record, and the next clock of the id logs it with its expiry, 0 being none; all else stays. */
  ghost predicate OnlyAdds(before: Replica, after: Replica, id: NodeID, key: KeyHash, r: Record) {
    && after.records == before.records[key := r]
    && var e, p := r.expiresAtUnix, Pos(id, if id in before.clocks then before.clocks[id] + 1 else 1);
       && after.clocks == before.clocks[id := p.clock]
       && p !in before.log && after.log == before.log[p := LogItem(key, CREATED, if e < 0 then 0 else e)]
  }

  /** A clock that did not exist is 0 now; all else stays. */
  ghost predicate OnlyEnsures(before: Replica, after: Replica, peer: NodeID) {
    && after.records == before.records && after.log == before.log
    && after.clocks == map[peer := 0] + before.clocks
  }

  lemma EnsureExact(st: Replica, peer: NodeID)
    ensures OnlyEnsures(st, Replicas.EnsureClock(st, peer), peer)
  {
  }

  /** Invalidation sets the time and the reason, unpublishing ends publicity; all else stays. */
  ghost predicate OnlyChanges(before: Replica, after: Replica, key: KeyHash, change: AdminChange) {
    && after.clocks == before.clocks && after.log == before.log
    && after.records - {key} == before.records - {key}
    && key in before.records && key in after.records
    && var was, changed := before.records[key], after.records[key];
       match change
       case Invalidate(at, reason) =>
         && changed.invalidatedAtUnix == at && changed.invalidationReason == reason
         && changed.(invalidatedAtUnix := was.invalidatedAtUnix, invalidationReason := was.invalidationReason) == was
       case Unpublish => !changed.public && changed.(public := was.public) == was
  }

  /** The record is gone, and so are the unexpired log entries that name its key, under any id. */
  ghost predicate OnlyRemoves(before: Replica, after: Replica, key: KeyHash, now: nat) {
    && after.clocks == before.clocks
    && after.records == before.records - {key}
    && (forall p :: p in after.log ==> p in before.log && after.log[p] == before.log[p])
    && (forall p :: p in before.log ==>
          (p in after.log <==> before.log[p].key != key || 0 < before.log[p].expires <= now))
  }

  lemma UpdateExact(st: Replica, key: KeyHash, change: AdminChange, now: nat, commits: bool)
    ensures var updated := Update(st, key, change, now);
            && EditReports(st, key, now, commits, Outcome(updated, commits))
            && (updated.Ok? ==> OnlyChanges(st, updated.value, key, change))
  {
  }

  lemma RemovalExact(st: Replica, key: KeyHash, now: nat, commits: bool)
    ensures var deleted := Delete(st, key, now);
            && EditReports(st, key, now, commits, Outcome(deleted, commits))
            && (deleted.Ok? ==> OnlyRemoves(st, deleted.value, key, now))
  {
  }

  /** Each entry is that of a log position which has not expired, with the record its key has now. */
  ghost predicate Answers(st: Replica, id: NodeID, found: seq<nat>, now: nat, entries: seq<Entry>) {
    && |entries| == |found|
    && forall k :: 0 <= k < |found| ==> AnswersAt(st, Pos(id, found[k]), now, entries[k])
  }

  ghost predicate AnswersAt(st: Replica, p: Pos, now: nat, e: Entry) {
    && p in st.log && (st.log[p].expires == 0 || now < st.log[p].expires)
    && e.id == p.id && e.key == st.log[p].key
    && e.key in st.records && e.record == st.records[e.key]
    && (e.record.expiresAtUnix <= 0 || now < e.record.expiresAtUnix)
  }

  /** The k-th position found names a key whose record is missing or has expired. */
  ghost predicate Dangles(st: Replica, id: NodeID, found: seq<nat>, now: nat, k: nat) {
    && k < |found| && Pos(id, found[k]) in st.log
    && var key := st.log[Pos(id, found[k])].key;
       key !in st.records || 0 < st.records[key].expiresAtUnix <= now
  }

  lemma {:induction false} ShipDangles(st: Replica, id: NodeID, found: seq<nat>, now: nat)
    requires Ship(st, id, found, now).None?
    requires forall k :: 0 <= k < |found| ==> st.HasLog(Pos(id, found[k]), now)
    ensures exists k :: Dangles(st, id, found, now, k)
  {
    var front := found[..|found| - 1];
    assert st.HasLog(Pos(id, found[|found| - 1]), now);
    if Ship(st, id, front, now).None? {
      ShipDangles(st, id, front, now);
      var k :| Dangles(st, id, front, now, k);
      assert Dangles(st, id, found, now, k);
    } else {
      assert Dangles(st, id, found, now, |found| - 1);
    }
  }

  lemma ShipAnswers(st: Replica, id: NodeID, found: seq<nat>, now: nat)
    requires Ship(st, id, found, now).Some?
    requires forall k :: 0 <= k < |found| ==> st.HasLog(Pos(id, found[k]), now)
    ensures Answers(st, id, found, now, Ship(st, id, found, now).value)
  {
    ShipLaw(st, id, found, now);
  }

  /** A put is refused for a key whose record has not expired. */
  ghost predicate PutReports(st: Replica, key: KeyHash, now: nat, commits: bool, r: Result<(), StoreError>) {
    r == if key in st.records && (st.records[key].expiresAtUnix <= 0 || now < st.records[key].expiresAtUnix)
         then Err(KeyAlreadyExists)
         else if ENGINE_PREFIX <= key.bytes then Err(InvalidKey)
         else if commits then Ok(()) else Err(Conflict)
  }

  /** An update or a deletion is refused for a key whose record is missing or has expired. */
  ghost predicate EditReports(st: Replica, key: KeyHash, now: nat, commits: bool, r: Result<(), StoreError>) {
    r == if key !in st.records || 0 < st.records[key].expiresAtUnix <= now then Err(KeyNotFound)
         else if ENGINE_PREFIX <= key.bytes then Err(InvalidKey)
         else if commits then Ok(()) else Err(Conflict)
  }

  lemma PutExact(
    st: Replica, id: NodeID, key: KeyHash, given: AuthRecord, createdAt: int64, now: nat, commits: bool)
    requires Stamped(st)
    ensures var put := PutSpec(st, id, key, NewRecord(given, createdAt), now);
            && PutReports(st, key, now, commits, Outcome(put, commits))
            && IsNew(NewRecord(given, createdAt), given, createdAt)
            && (put.Ok? ==> OnlyAdds(st, put.value, id, key, NewRecord(given, createdAt)))
  {
  }

  // ---------- the database ----------

  /** There is room for `n` more entries under every clock. */
  ghost predicate Room(st: Replica, n: nat) {
    forall id: NodeID :: st.Clock(id) + n <= MAX_CLOCK
  }

  class DB {
    const id: NodeID
    const limit: int
    var data: Data
    ghost var replica: Replica

    ghost predicate Valid()
      reads this
    {
      Represents(data, replica) && Stamped(replica)
    }

    /** A fresh store holds the node's id and nothing else. */
    constructor (id: NodeID, limit: int)
      ensures Valid() && this.id == id && this.limit == limit && replica == EMPTY
    {
      this.id, this.limit := id, limit;
      data := map[NODE_ID_KEY := Item(Raw(id.bytes), 0)];
      replica := EMPTY;
      new;
      assert IsKnown(NODE_ID_KEY, EMPTY);
    }

    /** `commits` is the engine's verdict on concurrent transactions. A refused one leaves no trace. */
    method PutAtTime(key: KeyHash, record: AuthRecord, createdAt: int64, now: nat, commits: bool)
      returns (r: Result<(), StoreError>)
      requires Valid() && now < MAX_TIME && Room(replica, 1)
      modifies this
      ensures Valid()
      ensures var spec := PutSpec(old(replica), id, key, NewRecord(record, createdAt), now);
              r == Outcome(spec, commits) && replica == Settled(old(replica), spec, commits)
      ensures r.Err? ==> data == old(data) && replica == old(replica)
      ensures PutReports(old(replica), key, now, commits, r)
      ensures r.Ok? ==>
                && key in replica.records && IsNew(replica.records[key], record, createdAt)
                && OnlyAdds(old(replica), replica, id, key, replica.records[key])
    {
      PutExact(replica, id, key, record, createdAt, now, commits);
      var view := new Txn(data, now);
      SeesRecord(data, replica, key, now);
      var existing := view.Get(key.bytes);
      if existing.Ok? { return Err(KeyAlreadyExists); }
      r := Create(key, NewRecord(record, createdAt), now, commits);
    }

    /** The transaction of a put. */
    method Create(key: KeyHash, record: Record, now: nat, commits: bool) returns (r: Result<(), StoreError>)
      requires Valid() && now < MAX_TIME && Room(replica, 1)
      modifies this
      ensures Valid()
      ensures var spec := Insert(old(replica), Entry(id, key, record), now);
              r == Outcome(spec, commits) && replica == Settled(old(replica), spec, commits)
      ensures r.Err? ==> data == old(data)
    {
      var txn := new Txn(data, now);
      r := InsertRecord(txn, id, key, record, replica);
      if r.Err? { return; }
      if !commits { return Err(Conflict); }
      InsertStamps(replica, Entry(id, key, record), now);
      data := txn.data;
      replica := Insert(replica, Entry(id, key, record), now).value;
      return Ok(());
    }

    method Get(key: KeyHash, now: nat) returns (r: Result<Option<AuthRecord>, GetError>)
      requires Valid() && now < MAX_TIME
      ensures r == Seen(replica, key, now)
      ensures r == Ok(None) <==> key !in replica.records || 0 < replica.records[key].expiresAtUnix <= now
    {
      var txn := new Txn(data, now);
      SeesRecord(data, replica, key, now);
      var looked := LookupRecord(txn, key.bytes);
      if looked.Err? {
        if looked.error == KeyNotFound { return Ok(None); }
        return Err(Failed(Malformed));
      }
      var found := looked.value;
      if found.invalidationReason != "" { return Err(Invalid(found.invalidationReason)); }
      var expiresAt := if found.expiresAtUnix > 0 then Some(found.expiresAtUnix) else None;
      return Ok(Some(AuthRecord(found.satelliteAddress, found.macaroonHead, found.encryptedSecretKey,
                                found.encryptedAccessGrant, expiresAt, found.public)));
    }

    method EnsureClock(peer: NodeID, now: nat, commits: bool) returns (r: Result<(), StoreError>)
      requires Valid()
      modifies this
      ensures Valid()
      ensures r == if commits then Ok(()) else Err(Conflict)
      ensures replica == if commits then Replicas.EnsureClock(old(replica), peer) else old(replica)
      ensures r.Err? ==> data == old(data) && replica == old(replica)
      ensures r.Ok? ==> OnlyEnsures(old(replica), replica, peer)
    {
      EnsureExact(replica, peer);
      var txn := new Txn(data, now);
      r := EnsureClockTxn(txn, peer, replica);
      if !commits { return Err(Conflict); }
      data := txn.data;
      replica := Replicas.EnsureClock(replica, peer);
      return Ok(());
    }

    /** All entries of a reply go in as one transaction, in order; the first failure discards them all. */
    method InsertResponseEntries(entries: seq<Entry>, now: nat, commits: bool) returns (r: Result<(), StoreError>)
      requires Valid() && now < MAX_TIME && Room(replica, |entries|)
      modifies this
      ensures Valid()
      ensures var spec := InsertAll(old(replica), entries, now);
              r == Outcome(spec, commits) && replica == Settled(old(replica), spec, commits)
      ensures r.Err? ==> data == old(data) && replica == old(replica)
      ensures InsertAll(old(replica), entries, now).Ok? ==> r == if commits then Ok(()) else Err(Conflict)
    {
      var txn := new Txn(data, now);
      ghost var st;
      r, st := InsertBatch(txn, entries, replica);
      if r.Err? { return; }
      if !commits { return Err(Conflict); }
      data := txn.data;
      replica := st;
    }

    method FindResponseEntries(of: NodeID, clock: uint64, now: nat)
      returns (r: Result<seq<Entry>, StoreError>, ghost found: seq<nat>)
      requires Valid() && now < MAX_TIME
      ensures Scan(replica, of, AskedAfter(clock), limit, now, found)
      ensures var shipped := Ship(replica, of, found, now);
              r == if shipped.Some? then Ok(shipped.value) else Err(KeyNotFound)
      ensures Intact(replica, now) ==> r.Ok?
      ensures r.Ok? ==> Answers(replica, of, found, now, r.value)
      ensures r.Err? ==> r.error == KeyNotFound && exists k :: Dangles(replica, of, found, now, k)
      ensures forall c: nat {:trigger Pos(of, c)} ::
                && Pos(of, c) in replica.log && c > (if clock == MAX_CLOCK then 0 else clock)
                && (replica.log[Pos(of, c)].expires == 0 || now < replica.log[Pos(of, c)].expires) && c !in found ==>
                |found| == limit && forall k :: 0 <= k < |found| ==> found[k] < c
    {
      var txn := new Txn(data, now);
      r, found := Database.FindResponseEntries(txn, limit, of, clock, replica);
      if Intact(replica, now) { ShipSucceeds(replica, of, found, now); }
      if r.Ok? { ShipAnswers(replica, of, found, now); } else { ShipDangles(replica, of, found, now); }
    }

    /** The clocks of all ids but the node's own, in no particular order. */
    method BuildRequestEntries(now: nat) returns (r: Result<seq<RequestEntry>, StoreError>)
      requires Valid()
      ensures r.Ok?
      ensures forall i, j :: 0 <= i < j < |r.value| ==> r.value[i].id != r.value[j].id
      ensures forall e :: e in r.value <==> e.id != id && e.id in replica.clocks && e.clock == replica.clocks[e.id]
    {
      var txn := new Txn(data, now);
      var available := ReadAvailableClocks(txn, replica);
      if available.Err? { return Err(Malformed); }
      var clocks := available.value - {id};
      var request: seq<RequestEntry> := [];
      var rest := clocks.Keys;
      while rest != {}
        invariant rest <= clocks.Keys
        invariant forall e :: e in request <==> e.id in clocks.Keys - rest && e.clock == clocks[e.id]
        invariant forall i, j :: 0 <= i < j < |request| ==> request[i].id != request[j].id
        decreases rest
      {
        var next :| next in rest;
        assert forall i :: 0 <= i < |request| ==> request[i] in request;
        request := request + [RequestEntry(next, clocks[next])];
        rest := rest - {next};
      }
      return Ok(request);
    }

    method UpdateRecord(key: KeyHash, change: AdminChange, now: nat, commits: bool) returns (r: Result<(), StoreError>)
      requires Valid() && now < MAX_TIME
      modifies this
      ensures Valid()
      ensures var spec := Update(old(replica), key, change, now);
              r == Outcome(spec, commits) && replica == Settled(old(replica), spec, commits)
      ensures r.Err? ==> data == old(data) && replica == old(replica)
      ensures EditReports(old(replica), key, now, commits, r)
      ensures r.Ok? ==> OnlyChanges(old(replica), replica, key, change)
    {
      UpdateExact(replica, key, change, now, commits);
      var txn := new Txn(data, now);
      r := UpdateTxn(txn, key, change, replica);
      if r.Err? { return; }
      if !commits { return Err(Conflict); }
      data := txn.data;
      replica := Update(replica, key, change, now).value;
      return Ok(());
    }

    method DeleteRecord(key: KeyHash, now: nat, commits: bool) returns (r: Result<(), StoreError>)
      requires Valid() && now < MAX_TIME
      modifies this
      ensures Valid()
      ensures var spec := Delete(old(replica), key, now);
              r == Outcome(spec, commits) && replica == Settled(old(replica), spec, commits)
      ensures r.Err? ==> data == old(data) && replica == old(replica)
      ensures EditReports(old(replica), key, now, commits, r)
      ensures r.Ok? ==> OnlyRemoves(old(replica), replica, key, now)
    {
      RemovalExact(replica, key, now, commits);
      var txn := new Txn(data, now);
      SeesRecord(data, replica, key, now);
      var existing := txn.Get(key.bytes);
      if existing.Err? { return Err(existing.error); }
      var deleted := txn.Delete(key.bytes);
      ghost var st := if deleted.Ok? then replica.(records := replica.records - {key}) else replica;
      RemoveRecord(data, replica, key);
      var logs := DeleteReplicationLogEntries(txn, key, st);
      if deleted.Err? { return deleted; }
      if logs.Err? { return logs; }
      if !commits { return Err(Conflict); }
      DeletedIs(replica, key, now);
      data := txn.data;
      replica := Delete(replica, key, now).value;
      return Ok(());
    }
  }

  /** Reads, changes and writes back one record, on the transaction's copy. */
  method UpdateTxn(txn: Txn, key: KeyHash, change: AdminChange, ghost st: Replica) returns (r: Result<(), StoreError>)
    requires Represents(txn.data, st) && Stamped(st) && txn.now < MAX_TIME
    modifies txn`data
    ensures var spec := Update(st, key, change, txn.now);
            if spec.Err? then r == Err(spec.error)
            else r.Ok? && Represents(txn.data, spec.value) && Stamped(spec.value)
    ensures r.Ok? ==> OnlyChanges(st, Update(st, key, change, txn.now).value, key, change)
  {
    UpdateExact(st, key, change, txn.now, true);
    SeesRecord(txn.data, st, key, txn.now);
    var record := LookupRecord(txn, key.bytes);
    if record.Err? { return Err(record.error); }
    var changed := Changed(record.value, change);
    var expires :=
      if changed.expiresAtUnix < 0 then changed.expiresAtUnix + 0x1_0000_0000_0000_0000 else changed.expiresAtUnix;
    SetRecord(txn.data, st, key, changed, Item(Marshaled(changed), expires));
    r := txn.SetEntry(key.bytes, Item(Marshaled(changed), expires));
  }

  /** The loop of a batch insert, on the transaction's copy. */
  method InsertBatch(
    txn: Txn, entries: seq<Entry>, ghost st0: Replica) returns (r: Result<(), StoreError>, ghost st: Replica)
    requires Represents(txn.data, st0) && Stamped(st0) && txn.now < MAX_TIME && Room(st0, |entries|)
    modifies txn`data
    ensures var spec := InsertAll(st0, entries, txn.now);
            if spec.Err? then r == Err(spec.error)
            else r == Ok(()) && st == spec.value && Represents(txn.data, st) && Stamped(st)
  {
    st := st0;
    var i := 0;
    while i < |entries|
      invariant i <= |entries|
      invariant Inserted(st0, entries, i, txn.now, st)
      invariant Represents(txn.data, st) && Stamped(st)
    {
      InsertAllClocks(st0, entries[..i], txn.now, entries[i].id);
      CountBound(entries[..i], entries[i].id);
      InsertsNext(st0, entries, i, txn.now, st);
      r := InsertRecord(txn, entries[i].id, entries[i].key, entries[i].record, st);
      if r.Err? { return; }
      InsertStamps(st, entries[i], txn.now);
      st := Insert(st, entries[i], txn.now).value;
      i := i + 1;
    }
    assert entries[..i] == entries;
    r := Ok(());
  }

  ghost predicate Inserted(st0: Replica, es: seq<Entry>, n: nat, now: nat, st: Replica) {
    n <= |es| && InsertAll(st0, es[..n], now) == Ok(st)
  }

  lemma InsertsNext(st0: Replica, es: seq<Entry>, n: nat, now: nat, st: Replica)
    requires Inserted(st0, es, n, now, st) && n < |es|
    ensures var next := Insert(st, es[n], now);
            if next.Ok? then Inserted(st0, es, n + 1, now, next.value)
            else InsertAll(st0, es, now) == next
  {
    assert es[..n + 1][..n] == es[..n];
    if Insert(st, es[n], now).Err? { BatchFails(st0, es, now, n + 1); }
  }

  lemma DeletedIs(st: Replica, key: KeyHash, now: nat)
    requires Delete(st, key, now).Ok? && Stamped(st)
    ensures Delete(st, key, now).value == WithoutKey(st.(records := st.records - {key}), key, now)
    ensures Stamped(Delete(st, key, now).value)
  {
    assert Delete(st, key, now).value.log == WithoutKey(st.(records := st.records - {key}), key, now).log;
  }

  lemma {:induction false} CountBound(es: seq<Entry>, id: NodeID)
    ensures Count(es, id) <= |es|
  {
    if es != [] { CountBound(es[..|es| - 1], id); }
  }

  /** A batch that fails early fails as a whole, with the same error. */
  lemma {:induction false} BatchFails(st: Replica, es: seq<Entry>, now: nat, n: nat)
    requires n <= |es| && InsertAll(st, es[..n], now).Err?
    ensures InsertAll(st, es, now) == InsertAll(st, es[..n], now)
    decreases |es|
  {
    if n == |es| {
      assert es[..n] == es;
    } else {
      assert es[..|es| - 1][..n] == es[..n];
      BatchFails(st, es[..|es| - 1], now, n);
    }
  }
}
