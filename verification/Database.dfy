/**
  The storage layer of a node, over the flat byte store. Each transaction works on its own copy and
  is proved to do to the represented replica what the abstract transaction does, with the same errors;
  what was written is also said of the bytes themselves.
*/
module Database {
  import opened Types
  import opened Replicas
  import opened DatabaseLaws
  import opened ByteOrder
  import opened ReplicationLog
  import opened Storage
  import opened Representation
  import opened Cluster

  // ---------- clocks ----------

  /** A clock value is eight bytes. */
  function ParseClock(v: Value): Option<uint64> {
    if v.Raw? && |v.bytes| == 8 then
      NumberBound(v.bytes);
      Some(Number(v.bytes))
    else None
  }

  lemma ParsesClock(c: nat)
    requires c <= MAX_CLOCK
    ensures ParseClock(ClockItem(c).value) == Some(c)
  {
    NumberOfBigEndian(c, 8);
  }

  method AdvanceClock(txn: Txn, id: NodeID, ghost st: Replica) returns (r: Result<uint64, StoreError>)
    requires Represents(txn.data, st) && st.Clock(id) < MAX_CLOCK
    modifies txn`data
    ensures r == Ok(st.Clock(id) + 1)
    ensures Represents(txn.data, st.(clocks := st.clocks[id := st.Clock(id) + 1]))
  {
    var key := ClockKey(id);
    var current: uint64 := 0;
    var item := txn.Get(key);
    assert id in st.clocks <==> key in txn.data;
    if item.Ok? {
      ParsesClock(st.clocks[id]);
      var parsed := ParseClock(item.value.value);
      if parsed.None? { return Err(Malformed); }
      current := parsed.value;
    }
    assert current == st.Clock(id);
    current := (current + 1) % 0x1_0000_0000_0000_0000;
    assert current == st.Clock(id) + 1;
    SetClock(txn.data, st, id, current);
    NotReserved(key);
    var written := txn.SetEntry(key, ClockItem(current));
    return Ok(current);
  }

  method EnsureClockTxn(txn: Txn, id: NodeID, ghost st: Replica) returns (r: Result<(), StoreError>)
    requires Represents(txn.data, st)
    modifies txn`data
    ensures r.Ok? && Represents(txn.data, Replicas.EnsureClock(st, id))
  {
    var key := ClockKey(id);
    assert id in st.clocks <==> key in txn.data;
    var item := txn.Get(key);
    if item.Err? {
      SetClock(txn.data, st, id, 0);
      NotReserved(key);
      r := txn.SetEntry(key, ClockItem(0));
    } else {
      r := Ok(());
    }
  }

  /** Every key with the clock prefix is the clock key of some id. */
  lemma ClockKeyOf(data: Data, st: Replica, k: Bytes, now: nat)
    requires Represents(data, st) && Visible(data, k, now) && CLOCK_PREFIX <= k
    ensures |k| == 44
    ensures var id := NodeID(k[12..]); k == ClockKey(id) && id in st.clocks && data[k] == ClockItem(st.clocks[id])
  {
    assert IsKnown(k, st);
    KeyKinds(k, st);
    var id :| id in st.clocks && k == ClockKey(id);
    assert k[12..] == id.bytes;
  }

  lemma ReadsAllClocks(data: Data, st: Replica, keys: seq<Bytes>, clocks: map<NodeID, uint64>, now: nat)
    requires Represents(data, st)
    requires forall k :: k in keys <==> Visible(data, k, now) && CLOCK_PREFIX <= k
    requires forall id :: id in clocks <==> ClockKey(id) in keys
    requires forall id :: id in clocks ==> id in st.clocks && clocks[id] == st.clocks[id]
    ensures clocks == st.clocks
  {
    forall id | id in st.clocks ensures id in clocks {
      assert ClockKey(id) in data;
      assert CLOCK_PREFIX <= ClockKey(id);
    }
  }

  method ReadAvailableClocks(txn: Txn, ghost st: Replica) returns (r: Result<map<NodeID, uint64>, StoreError>)
    requires Represents(txn.data, st)
    ensures r == Ok(st.clocks)
  {
    var idToClock: map<NodeID, uint64> := map[];
    var keys := txn.NewIterator(CLOCK_PREFIX);
    var i := 0;
    while i < |keys|
      invariant i <= |keys|
      invariant forall id :: id in idToClock <==> ClockKey(id) in keys[..i]
      invariant forall id :: id in idToClock ==> id in st.clocks && idToClock[id] == st.clocks[id]
    {
      var k := keys[i];
      assert k in keys;
      ClockKeyOf(txn.data, st, k, txn.now);
      var id := NodeID(k[12..]);
      ParsesClock(st.clocks[id]);
      var clock := ParseClock(txn.data[k].value);
      if clock.None? { return Err(Malformed); }
      forall x: NodeID ensures ClockKey(x) == k ==> x == id {
        if ClockKey(x) == k { ClockKeyInjective(x, id); }
      }
      assert keys[..i + 1] == keys[..i] + [k];
      idToClock := idToClock[id := clock.value];
      i := i + 1;
    }
    assert keys[..i] == keys;
    ReadsAllClocks(txn.data, st, keys, idToClock, txn.now);
    return Ok(idToClock);
  }

  // ---------- records ----------

  method LookupRecord(txn: Txn, key: Bytes) returns (r: Result<Record, StoreError>)
    ensures !Visible(txn.data, key, txn.now) ==> r == Err(KeyNotFound)
    ensures Visible(txn.data, key, txn.now) ==>
              var v := txn.data[key].value; r == if v.Marshaled? then Ok(v.record) else Err(Malformed)
  {
    var item := txn.Get(key);
    if item.Err? { return Err(item.error); }
    if item.value.value.Raw? { return Err(Malformed); }
    return Ok(item.value.value.record);
  }

  /** With the clock advanced, writing record and log entry completes the insertion. */
  lemma InsertWrites(data: Data, st: Replica, e: Entry, now: nat, clock: uint64)
    requires Insert(st, e, now).Ok? && Stamped(st) && clock == st.Clock(e.id) + 1
    requires Represents(data, st.(clocks := st.clocks[e.id := clock]))
    ensures var main := Item(Marshaled(e.record), Expiry(e.record));
            var rlog := Item(Raw([]), Expiry(e.record));
            var logKey := Encode(LogEntry(e.id, clock, e.key.bytes, e.record.state));
            Represents(data[e.key.bytes := main][logKey := rlog], Insert(st, e, now).value)
  {
    var st1 := st.(clocks := st.clocks[e.id := clock]);
    var main := Item(Marshaled(e.record), Expiry(e.record));
    SetRecord(data, st1, e.key, e.record, main);
    var st2 := st1.(records := st1.records[e.key := e.record]);
    AddLog(data[e.key.bytes := main], st2, Pos(e.id, clock), LogItem(e.key, e.record.state, Expiry(e.record)));
  }

  /** Writes clock, record and log entry as one; refines Insert. A failing call leaves the copy to be thrown away. */
  method InsertRecord(txn: Txn, id: NodeID, key: KeyHash, record: Record, ghost st: Replica)
    returns (r: Result<(), StoreError>)
    requires Represents(txn.data, st) && Stamped(st) && txn.now < MAX_TIME && st.Clock(id) < MAX_CLOCK
    modifies txn`data
    ensures var spec := Insert(st, Entry(id, key, record), txn.now);
            && (spec.Ok? ==> r.Ok? && Represents(txn.data, spec.value))
            && (spec.Err? ==> r == Err(spec.error))
    ensures r.Ok? ==> InsertedUntil(txn.data, id, st.Clock(id) + 1, key, record)
  {
    if record.state != CREATED { return Err(OperationNotSupported); }
    SeesRecord(txn.data, st, key, txn.now);
    var loaded := LookupRecord(txn, key.bytes);
    if loaded.Ok? {
      if record != loaded.value { return Err(RecordsNotEqual); }
    } else if loaded.error != KeyNotFound {
      return Err(Malformed);
    }
    var advanced := AdvanceClock(txn, id, st);
    if advanced.Err? { return Err(Malformed); }
    var clock := advanced.value;
    var expires := if record.expiresAtUnix > 0 then record.expiresAtUnix else 0;
    var rlogKey := Encode(LogEntry(id, clock, key.bytes, record.state));
    if !(ENGINE_PREFIX <= key.bytes) {
      InsertWrites(txn.data, st, Entry(id, key, record), txn.now, clock);
    }
    EncodedNotReserved(LogEntry(id, clock, key.bytes, record.state));
    ghost var before := txn.data;
    var main := txn.SetEntry(key.bytes, Item(Marshaled(record), expires));
    var rlog := txn.SetEntry(rlogKey, Item(Raw([]), expires));
    if main.Err? { return main; }
    InsertHolds(before, id, clock, key, record, expires);
    return rlog;
  }

  /** A transaction at time t finds this value at the key just if t is before `expiresAt`, if that is positive. */
  ghost predicate HeldUntil(data: Data, key: Bytes, value: Value, expiresAt: int) {
    && key in data && data[key].value == value
    && forall t: nat :: Visible(data, key, t) <==> expiresAt <= 0 || t < expiresAt
  }

  /** Record and log entry are found at exactly these times. */
  ghost predicate InsertedUntil(data: Data, id: NodeID, clock: uint64, key: KeyHash, record: Record) {
    && HeldUntil(data, key.bytes, Marshaled(record), record.expiresAtUnix)
    && HeldUntil(data, Encode(LogEntry(id, clock, key.bytes, CREATED)), Raw([]), record.expiresAtUnix)
  }

  lemma InsertHolds(data: Data, id: NodeID, clock: uint64, key: KeyHash, record: Record, expires: nat)
    requires expires == if record.expiresAtUnix > 0 then record.expiresAtUnix else 0
    ensures InsertedUntil(data[key.bytes := Item(Marshaled(record), expires)]
                              [Encode(LogEntry(id, clock, key.bytes, CREATED)) := Item(Raw([]), expires)],
                          id, clock, key, record)
  {
  }

  lemma EncodedNotReserved(e: LogEntry)
    ensures !(ENGINE_PREFIX <= Encode(e))
  {
    Layout(e);
    NotReserved(Encode(e));
  }

  // ---------- scanning the log ----------

  /** Every visible key with the log prefix is the key of a live log entry. */
  lemma LogKeyOf(data: Data, st: Replica, k: Bytes, now: nat)
    requires Represents(data, st) && Visible(data, k, now) && LOG_PREFIX <= k
    ensures Decode(k).Some?
    ensures var e := Decode(k).value; var p := Pos(e.id, e.clock);
            st.HasLog(p, now) && st.log[p].key.bytes == e.key && k == LogKey(p, st.log[p])
  {
    assert IsKnown(k, st);
    KeyKinds(k, st);
    var p :| p in st.log && p.clock <= MAX_CLOCK && k == LogKey(p, st.log[p]);
    DecodeEncode(LogEntry(p.id, p.clock, st.log[p].key.bytes, st.log[p].state));
  }

  ghost predicate Iterates(keys: seq<Bytes>, data: Data, prefix: Bytes, now: nat) {
    Sorted(keys) && forall k :: k in keys <==> Visible(data, k, now) && prefix <= k
  }

  ghost predicate SeekAt(keys: seq<Bytes>, start: Bytes, i: nat) {
    i <= |keys| && forall j :: 0 <= j < |keys| ==> (j < i <==> Less(keys[j], start))
  }

  /** The clock named by a log key. */
  function ClockOf(k: Bytes): nat {
    if Decode(k).Some? then Decode(k).value.clock else 0
  }

  lemma KeyOfId(data: Data, st: Replica, id: NodeID, keys: seq<Bytes>, now: nat, j: nat)
    requires Represents(data, st) && Iterates(keys, data, IdPrefix(id), now) && j < |keys|
    ensures Decode(keys[j]).Some? && Decode(keys[j]).value.id == id
    ensures var p := Pos(id, ClockOf(keys[j]));
            st.HasLog(p, now) && keys[j] == LogKey(p, st.log[p]) && st.log[p].key.bytes == Decode(keys[j]).value.key
  {
    var k := keys[j];
    assert k in keys;
    assert LOG_PREFIX <= k by { assert LOG_PREFIX <= IdPrefix(id); }
    LogKeyOf(data, st, k, now);
    var e := Decode(k).value;
    DecodeEncode(e);
    var p := Pos(e.id, e.clock);
    DecodeEncode(LogEntry(p.id, p.clock, st.log[p].key.bytes, st.log[p].state));
    PrefixIsId(id, e);
  }

  lemma EncodesItsParts(data: Data, st: Replica, id: NodeID, keys: seq<Bytes>, now: nat, j: nat)
    requires Represents(data, st) && Iterates(keys, data, IdPrefix(id), now) && j < |keys|
    ensures Decode(keys[j]).Some? && Decode(keys[j]).value.id == id && keys[j] == Encode(Decode(keys[j]).value)
  {
    KeyOfId(data, st, id, keys, now, j);
    assert keys[j] in keys && LOG_PREFIX <= IdPrefix(id);
    DecodesBack(data, st, keys[j], now);
  }

  lemma ClocksIncrease(data: Data, st: Replica, id: NodeID, keys: seq<Bytes>, now: nat, i: nat, j: nat)
    requires Represents(data, st) && Iterates(keys, data, IdPrefix(id), now) && i < j < |keys|
    ensures ClockOf(keys[i]) < ClockOf(keys[j])
  {
    EncodesItsParts(data, st, id, keys, now, i);
    EncodesItsParts(data, st, id, keys, now, j);
    assert Less(keys[i], keys[j]);
    assert ClockOf(keys[i]) == ClockOf(keys[j]) ==> keys[i] == keys[j] by {
      KeyOfId(data, st, id, keys, now, i);
      KeyOfId(data, st, id, keys, now, j);
    }
    LaterClock(Decode(keys[i]).value, Decode(keys[j]).value);
  }

  lemma LaterClock(d: LogEntry, e: LogEntry)
    requires d.id == e.id && Less(Encode(d), Encode(e))
    requires d.clock == e.clock ==> Encode(d) == Encode(e)
    ensures d.clock < e.clock
  {
    if d.clock == e.clock {
      LessIrreflexive(Encode(d));
    } else {
      EncodeOrder(d, e);
    }
  }

  lemma DecodesBack(data: Data, st: Replica, k: Bytes, now: nat)
    requires Represents(data, st) && Visible(data, k, now) && LOG_PREFIX <= k
    ensures Decode(k).Some? && k == Encode(Decode(k).value)
  {
    LogKeyOf(data, st, k, now);
    var e := Decode(k).value;
    var p := Pos(e.id, e.clock);
    DecodeEncode(LogEntry(p.id, p.clock, st.log[p].key.bytes, st.log[p].state));
  }

  /** The iterator skips exactly the entries with a clock below the sought one. */
  lemma SeekSkips(data: Data, st: Replica, id: NodeID, keys: seq<Bytes>, now: nat, from: uint64, i: nat, j: nat)
    requires Represents(data, st) && Iterates(keys, data, IdPrefix(id), now)
    requires SeekAt(keys, StartKey(id, from), i) && j < |keys|
    ensures j < i <==> ClockOf(keys[j]) < from
  {
    KeyOfId(data, st, id, keys, now, j);
    assert keys[j] in keys && LOG_PREFIX <= IdPrefix(id);
    DecodesBack(data, st, keys[j], now);
    SeekOrder(Decode(keys[j]).value, from);
  }

  /** Every live entry of the id is among the keys the iterator visits. */
  lemma Visited(data: Data, st: Replica, id: NodeID, keys: seq<Bytes>, now: nat, c: nat) returns (j: nat)
    requires Represents(data, st) && Iterates(keys, data, IdPrefix(id), now) && st.HasLog(Pos(id, c), now)
    ensures j < |keys| && ClockOf(keys[j]) == c
  {
    var p := Pos(id, c);
    var e := LogEntry(id, c, st.log[p].key.bytes, st.log[p].state);
    PrefixIsId(id, e);
    DecodeEncode(e);
    assert LogKey(p, st.log[p]) in keys;
    j :| j < |keys| && keys[j] == LogKey(p, st.log[p]);
  }

  /** What a request with clock `c` asks to be after: the largest clock wraps around and asks for all. */
  function AskedAfter(c: uint64): nat {
    if c == MAX_CLOCK then 0 else c
  }

  /** The clocks of `m` visited keys from the i-th on. */
  ghost predicate IsFound(found: seq<nat>, keys: seq<Bytes>, i: nat, m: nat) {
    i + m <= |keys| && |found| == m && forall j :: 0 <= j < m ==> found[j] == ClockOf(keys[i + j])
  }

  lemma FoundExists(keys: seq<Bytes>, i: nat, m: nat) returns (found: seq<nat>)
    requires i + m <= |keys|
    ensures IsFound(found, keys, i, m)
  {
    found := [];
    while |found| < m
      invariant |found| <= m && IsFound(found, keys, i, |found|)
    {
      found := found + [ClockOf(keys[i + |found|])];
    }
  }

  lemma SoughtIsPast(clock: uint64, c: nat)
    ensures AskedAfter(clock) < c <==> c >= 1 && c >= (clock + 1) % 0x1_0000_0000_0000_0000
  {
  }

  lemma VisitedIsPast(data: Data, st: Replica, id: NodeID, keys: seq<Bytes>, now: nat, clock: uint64, i: nat, j: nat)
    requires Represents(data, st) && Stamped(st) && Iterates(keys, data, IdPrefix(id), now)
    requires SeekAt(keys, StartKey(id, (clock + 1) % 0x1_0000_0000_0000_0000), i)
    requires i <= j < |keys|
    ensures AskedAfter(clock) < ClockOf(keys[j]) && st.HasLog(Pos(id, ClockOf(keys[j])), now)
  {
    KeyOfId(data, st, id, keys, now, j);
    SeekSkips(data, st, id, keys, now, (clock + 1) % 0x1_0000_0000_0000_0000, i, j);
    SoughtIsPast(clock, ClockOf(keys[j]));
  }

  lemma FoundAmong(keys: seq<Bytes>, i: nat, m: nat, found: seq<nat>, j: nat)
    requires IsFound(found, keys, i, m) && i <= j < i + m
    ensures ClockOf(keys[j]) in found
  {
    assert found[j - i] == ClockOf(keys[j]);
  }

  lemma FoundComplete(
    data: Data, st: Replica, id: NodeID, keys: seq<Bytes>, now: nat, clock: uint64, i: nat, m: nat, found: seq<nat>,
    c: nat)
    requires Represents(data, st) && Stamped(st) && Iterates(keys, data, IdPrefix(id), now)
    requires SeekAt(keys, StartKey(id, (clock + 1) % 0x1_0000_0000_0000_0000), i) && IsFound(found, keys, i, m)
    requires AskedAfter(clock) < c && st.HasLog(Pos(id, c), now) && c !in found
    ensures i + m < |keys| && forall a :: 0 <= a < m ==> found[a] < c
  {
    var j := Visited(data, st, id, keys, now, c);
    SeekSkips(data, st, id, keys, now, (clock + 1) % 0x1_0000_0000_0000_0000, i, j);
    SoughtIsPast(clock, c);
    if i <= j < i + m { FoundAmong(keys, i, m, found, j); }
    forall a | 0 <= a < m ensures found[a] < c {
      ClocksIncrease(data, st, id, keys, now, i + a, j);
    }
  }

  lemma FoundIsPast(
    data: Data, st: Replica, id: NodeID, keys: seq<Bytes>, now: nat, clock: uint64, i: nat, m: nat, found: seq<nat>)
    requires Represents(data, st) && Stamped(st) && Iterates(keys, data, IdPrefix(id), now)
    requires SeekAt(keys, StartKey(id, (clock + 1) % 0x1_0000_0000_0000_0000), i) && IsFound(found, keys, i, m)
    ensures forall a :: 0 <= a < m ==> AskedAfter(clock) < found[a] && st.HasLog(Pos(id, found[a]), now)
    ensures forall a, b :: 0 <= a < b < m ==> found[a] < found[b]
  {
    forall a | 0 <= a < m ensures AskedAfter(clock) < found[a] && st.HasLog(Pos(id, found[a]), now) {
      VisitedIsPast(data, st, id, keys, now, clock, i, i + a);
    }
    forall a, b | 0 <= a < b < m ensures found[a] < found[b] {
      ClocksIncrease(data, st, id, keys, now, i + a, i + b);
    }
  }

  lemma FoundIsScan(
    data: Data, st: Replica, id: NodeID, keys: seq<Bytes>, now: nat, clock: uint64, i: nat, m: nat, limit: int,
    found: seq<nat>)
    requires Represents(data, st) && Stamped(st) && Iterates(keys, data, IdPrefix(id), now)
    requires SeekAt(keys, StartKey(id, (clock + 1) % 0x1_0000_0000_0000_0000), i) && IsFound(found, keys, i, m)
    requires m == limit || (i + m == |keys| && (limit < 0 || m < limit))
    ensures Scan(st, id, AskedAfter(clock), limit, now, found)
  {
    FoundIsPast(data, st, id, keys, now, clock, i, m, found);
    forall c: nat | AskedAfter(clock) < c && st.HasLog(Pos(id, c), now) && c !in found
      ensures m == limit && forall a :: 0 <= a < m ==> found[a] < c
    {
      FoundComplete(data, st, id, keys, now, clock, i, m, found, c);
    }
  }

  lemma {:induction false} ShipFails(st: Replica, id: NodeID, found: seq<nat>, now: nat, n: nat)
    requires n <= |found| && Ship(st, id, found[..n], now).None?
    ensures Ship(st, id, found, now).None?
    decreases |found|
  {
    if n == |found| {
      assert found[..n] == found;
    } else {
      assert found[..|found| - 1][..n] == found[..n];
      ShipFails(st, id, found[..|found| - 1], now, n);
    }
  }

  /** One more key: its entry is shipped if its record is there, and otherwise the whole answer fails. */
  lemma ShipsNext(st: Replica, id: NodeID, found: seq<nat>, now: nat, n: nat, shipped: seq<Entry>)
    requires n < |found| && Ship(st, id, found[..n], now) == Some(shipped)
    requires Pos(id, found[n]) in st.log
    ensures var key := st.log[Pos(id, found[n])].key;
            if st.Has(key, now)
            then Ship(st, id, found[..n + 1], now) == Some(shipped + [Entry(id, key, st.records[key])])
            else Ship(st, id, found, now).None?
  {
    assert found[..n + 1][..n] == found[..n];
    if !st.Has(st.log[Pos(id, found[n])].key, now) { ShipFails(st, id, found, now, n + 1); }
  }

  /** Parses one log key and looks its record up. */
  method ResponseEntry(txn: Txn, k: Bytes, ghost st: Replica, ghost p: Pos) returns (r: Result<Entry, StoreError>)
    requires Represents(txn.data, st) && txn.now < MAX_TIME
    requires p in st.log && p.clock <= MAX_CLOCK && k == LogKey(p, st.log[p])
    ensures var key := st.log[p].key;
            r == if st.Has(key, txn.now) then Ok(Entry(p.id, key, st.records[key])) else Err(KeyNotFound)
  {
    DecodeEncode(LogEntry(p.id, p.clock, st.log[p].key.bytes, st.log[p].state));
    SeesRecord(txn.data, st, st.log[p].key, txn.now);
    var entry := new ReplicationLogEntry();
    var ok := entry.SetBytes(k);
    if !ok { return Err(Malformed); }
    var record := LookupRecord(txn, entry.key);
    if record.Err? { return Err(record.error); }
    return Ok(Entry(entry.id, KeyHash(entry.key), record.value));
  }

  /** The keys from the i-th on are, as far as `found` goes, those of the log positions it names. */
  ghost predicate Lists(keys: seq<Bytes>, i: nat, found: seq<nat>, id: NodeID, st: Replica) {
    i + |found| <= |keys| && forall j :: 0 <= j < |found| ==> ListsAt(keys[i + j], Pos(id, found[j]), st)
  }

  ghost predicate ListsAt(k: Bytes, p: Pos, st: Replica) {
    p in st.log && p.clock <= MAX_CLOCK && k == LogKey(p, st.log[p])
  }

  lemma FoundLists(data: Data, st: Replica, id: NodeID, keys: seq<Bytes>, now: nat, i: nat, m: nat, found: seq<nat>)
    requires Represents(data, st) && Iterates(keys, data, IdPrefix(id), now) && IsFound(found, keys, i, m)
    ensures Lists(keys, i, found, id, st)
  {
    forall j | 0 <= j < m ensures ListsAt(keys[i + j], Pos(id, found[j]), st) {
      KeyOfId(data, st, id, keys, now, i + j);
    }
  }

  /** The iterator's loop: one response entry per visited key until the limit is reached. */
  method CollectEntries(
    txn: Txn, limit: int, id: NodeID, keys: seq<Bytes>, start: nat, ghost found: seq<nat>, ghost st: Replica)
    returns (r: Result<seq<Entry>, StoreError>)
    requires Represents(txn.data, st) && txn.now < MAX_TIME && Lists(keys, start, found, id, st)
    requires |found| == limit || (start + |found| == |keys| && (limit < 0 || |found| < limit))
    ensures var shipped := Ship(st, id, found, txn.now);
            r == if shipped.Some? then Ok(shipped.value) else Err(KeyNotFound)
  {
    var response: seq<Entry> := [];
    var count := 0;
    while start + count < |keys|
      invariant 0 <= count <= |found|
      invariant Ship(st, id, found[..count], txn.now) == Some(response)
    {
      if count == limit { break; }
      assert ListsAt(keys[start + count], Pos(id, found[count]), st);
      ShipsNext(st, id, found, txn.now, count, response);
      var entry := ResponseEntry(txn, keys[start + count], st, Pos(id, found[count]));
      if entry.Err? { return Err(entry.error); }
      response := response + [entry.value];
      count := count + 1;
    }
    assert found[..count] == found;
    return Ok(response);
  }

  /** The entries, with their records, of the first `limit` live log positions of the id past a clock. */
  ghost predicate IsResponse(
    st: Replica, limit: int, id: NodeID, after: nat, now: nat, r: Result<seq<Entry>, StoreError>)
  {
    exists found {:trigger RespondsWith(st, limit, id, after, now, found, r)} ::
      RespondsWith(st, limit, id, after, now, found, r)
  }

  ghost predicate RespondsWith(
    st: Replica, limit: int, id: NodeID, after: nat, now: nat, found: seq<nat>, r: Result<seq<Entry>, StoreError>)
  {
    && Scan(st, id, after, limit, now, found)
    && r == if Ship(st, id, found, now).Some? then Ok(Ship(st, id, found, now).value) else Err(KeyNotFound)
  }

  /**
    Seek, prefix and limit over the byte-sorted store: exactly the first `limit` live entries of the
    id past the requested clock, in clock order, with their records. A negative limit does not limit.
  */
  method FindResponseEntries(txn: Txn, limit: int, id: NodeID, clock: uint64, ghost st: Replica)
    returns (r: Result<seq<Entry>, StoreError>, ghost found: seq<nat>)
    requires Represents(txn.data, st) && Stamped(st) && txn.now < MAX_TIME
    ensures RespondsWith(st, limit, id, AskedAfter(clock), txn.now, found, r)
    ensures IsResponse(st, limit, id, AskedAfter(clock), txn.now, r)
    ensures forall k :: 0 <= k < |found| ==> FoundAt(st, Pos(id, found[k]), clock, txn.now)
  {
    var keys := txn.NewIterator(IdPrefix(id));
    var start := Seek(keys, StartKey(id, (clock + 1) % 0x1_0000_0000_0000_0000));
    ghost var m := if limit < 0 || |keys| - start < limit then |keys| - start else limit;
    found := FoundExists(keys, start, m);
    FoundIsScan(txn.data, st, id, keys, txn.now, clock, start, m, limit, found);
    FoundLists(txn.data, st, id, keys, txn.now, start, m, found);
    r := CollectEntries(txn, limit, id, keys, start, found, st);
    assert RespondsWith(st, limit, id, AskedAfter(clock), txn.now, found, r);
    ScanFinds(st, id, clock, limit, txn.now, found);
  }

  /** A logged position past the clock asked for, the largest one asking for all, that has not expired. */
  ghost predicate FoundAt(st: Replica, p: Pos, clock: uint64, now: nat) {
    && p in st.log && (p.clock > clock || clock == 0xFFFF_FFFF_FFFF_FFFF)
    && (st.log[p].expires == 0 || now < st.log[p].expires)
  }

  lemma ScanFinds(st: Replica, id: NodeID, clock: uint64, limit: int, now: nat, found: seq<nat>)
    requires Scan(st, id, AskedAfter(clock), limit, now, found)
    ensures forall k :: 0 <= k < |found| ==> FoundAt(st, Pos(id, found[k]), clock, now)
  {
  }

  // ---------- deletion ----------

  /** A visited log key names the sought hash just if its entry does. */
  lemma ParsedNames(data: Data, st: Replica, k: Bytes, sought: KeyHash, now: nat)
    requires Represents(data, st) && Visible(data, k, now) && LOG_PREFIX <= k
    ensures Decode(k).Some? && (Decode(k).value.key == sought.bytes <==> Names(st, k, sought, now))
  {
    LogKeyOf(data, st, k, now);
    var e := Decode(k).value;
    var p := Pos(e.id, e.clock);
    if e.key == sought.bytes {
      assert NamesAt(st, k, sought, now, p);
    }
    if Names(st, k, sought, now) {
      var q :| NamesAt(st, k, sought, now, q);
      LogKeyInjective(p, st.log[p], q, st.log[q]);
    }
  }

  /** Of the first i keys, exactly those that name the sought hash. */
  ghost predicate AreNaming(gone: set<Bytes>, keys: seq<Bytes>, i: nat, st: Replica, sought: KeyHash, now: nat) {
    i <= |keys| && forall k :: k in gone <==> k in keys[..i] && Names(st, k, sought, now)
  }

  lemma NamingNext(gone: set<Bytes>, keys: seq<Bytes>, i: nat, st: Replica, sought: KeyHash, now: nat)
    requires AreNaming(gone, keys, i, st, sought, now) && i < |keys|
    ensures AreNaming(if Names(st, keys[i], sought, now) then gone + {keys[i]} else gone, keys, i + 1, st, sought, now)
  {
    assert keys[..i + 1] == keys[..i] + [keys[i]];
  }

  lemma AllNaming(data: Data, gone: set<Bytes>, keys: seq<Bytes>, st: Replica, sought: KeyHash, now: nat)
    requires Represents(data, st) && AreNaming(gone, keys, |keys|, st, sought, now)
    requires forall k :: k in keys <==> Visible(data, k, now) && LOG_PREFIX <= k
    ensures forall k :: k in data ==> (k in gone <==> Names(st, k, sought, now))
  {
    assert keys[..|keys|] == keys;
    forall k | k in data && Names(st, k, sought, now) ensures k in keys {
      var p :| NamesAt(st, k, sought, now, p);
      Layout(LogEntry(p.id, p.clock, st.log[p].key.bytes, st.log[p].state));
    }
  }

  method DeleteReplicationLogEntries(txn: Txn, sought: KeyHash, ghost st: Replica) returns (r: Result<(), StoreError>)
    requires Represents(txn.data, st)
    modifies txn`data
    ensures r.Ok? && Represents(txn.data, WithoutKey(st, sought, txn.now))
  {
    ghost var before := txn.data;
    ghost var gone: set<Bytes> := {};
    var keys := txn.NewIterator(LOG_PREFIX);
    var i := 0;
    while i < |keys|
      invariant i <= |keys| && txn.data == before - gone
      invariant AreNaming(gone, keys, i, st, sought, txn.now)
    {
      assert keys[i] in keys;
      ParsedNames(before, st, keys[i], sought, txn.now);
      NamingNext(gone, keys, i, st, sought, txn.now);
      var entry := new ReplicationLogEntry();
      var ok := entry.SetBytes(keys[i]);
      if !ok { return Err(Malformed); }
      if entry.key == sought.bytes {
        NotReserved(keys[i]);
        var deleted := txn.Delete(keys[i]);
        if deleted.Err? { return deleted; }
        gone := gone + {keys[i]};
      }
      i := i + 1;
    }
    AllNaming(before, gone, keys, st, sought, txn.now);
    RemoveLog(before, st, sought, txn.now, gone);
    return Ok(());
  }
}
