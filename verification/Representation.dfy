/**
  What the flat byte store stands for: which keys hold a replica's records, clocks and log entries, and
  that every key is one of these. Keys of different kinds never collide, and writing or deleting one of
  them changes just what it stands for.
*/
module Representation {
  import opened Types
  import opened Replicas
  import opened ByteOrder
  import opened ReplicationLog
  import opened Storage

  const MAX_CLOCK := 0xFFFF_FFFF_FFFF_FFFF
  const MAX_TIME := 0x8000_0000_0000_0000

  // "node_id"
  const NODE_ID_KEY: Bytes := [110, 111, 100, 101, 95, 105, 100]

  function LogKey(p: Pos, item: LogItem): (b: Bytes)
    requires p.clock <= MAX_CLOCK
    ensures |b| == LEN_ENTRY
  {
    Encode(LogEntry(p.id, p.clock, item.key.bytes, item.state))
  }

  function ClockItem(c: nat): Item {
    Item(Raw(BigEndian(c, 8)), 0)
  }

  /** The expiry as the store's unsigned seconds. A negative one is far in the future: never. */
  function UnsignedExpiry(r: Record): nat {
    if r.expiresAtUnix < 0 then r.expiresAtUnix + 0x1_0000_0000_0000_0000 else r.expiresAtUnix
  }

  ghost predicate HoldsRecord(item: Item, r: Record) {
    item.value == Marshaled(r) && (item.expires == Expiry(r) || item.expires == UnsignedExpiry(r))
  }

  ghost predicate RecordsAt(data: Data, st: Replica) {
    forall k: KeyHash {:trigger k in st.records} {:trigger k.bytes in data} ::
      (k in st.records <==> k.bytes in data)
      && (k in st.records ==> HoldsRecord(data[k.bytes], st.records[k]))
  }

  ghost predicate ClocksAt(data: Data, st: Replica) {
    forall id: NodeID {:trigger id in st.clocks} {:trigger ClockKey(id) in data} ::
      (id in st.clocks <==> ClockKey(id) in data)
      && (id in st.clocks ==> st.clocks[id] <= MAX_CLOCK && data[ClockKey(id)] == ClockItem(st.clocks[id]))
  }

  ghost predicate LogAt(data: Data, st: Replica) {
    forall p {:trigger p in st.log} :: p in st.log ==>
      && p.clock <= MAX_CLOCK
      && LogKey(p, st.log[p]) in data
      && data[LogKey(p, st.log[p])] == Item(Raw([]), st.log[p].expires)
  }

  ghost predicate IsRecordKey(k: Bytes, st: Replica) {
    exists key :: key in st.records && k == key.bytes
  }

  ghost predicate IsClockKey(k: Bytes, st: Replica) {
    exists id :: id in st.clocks && k == ClockKey(id)
  }

  ghost predicate IsLogKey(k: Bytes, st: Replica) {
    exists p :: p in st.log && p.clock <= MAX_CLOCK && k == LogKey(p, st.log[p])
  }

  ghost predicate IsKnown(k: Bytes, st: Replica) {
    k == NODE_ID_KEY || IsRecordKey(k, st) || IsClockKey(k, st) || IsLogKey(k, st)
  }

  ghost predicate Known(data: Data, st: Replica) {
    forall k {:trigger IsKnown(k, st)} :: k in data ==> IsKnown(k, st)
  }

  ghost predicate Represents(data: Data, st: Replica) {
    RecordsAt(data, st) && ClocksAt(data, st) && LogAt(data, st) && Known(data, st)
  }

  // ---------- keys of different kinds never meet ----------

  lemma KeyKinds(k: Bytes, st: Replica)
    ensures IsRecordKey(k, st) ==> |k| == 32 && !(LOG_PREFIX <= k) && !(CLOCK_PREFIX <= k)
    ensures IsClockKey(k, st) ==> |k| == 44 && !(LOG_PREFIX <= k) && CLOCK_PREFIX <= k
    ensures IsLogKey(k, st) ==> |k| == LEN_ENTRY && LOG_PREFIX <= k && !(CLOCK_PREFIX <= k)
    ensures !(LOG_PREFIX <= NODE_ID_KEY) && !(CLOCK_PREFIX <= NODE_ID_KEY)
  {
    if IsClockKey(k, st) {
      assert k[0] == CLOCK_PREFIX[0] && CLOCK_PREFIX[0] != LOG_PREFIX[0];
    }
    if IsLogKey(k, st) {
      var p :| p in st.log && p.clock <= MAX_CLOCK && k == LogKey(p, st.log[p]);
      Layout(LogEntry(p.id, p.clock, st.log[p].key.bytes, st.log[p].state));
      assert k[..16] == LOG_PREFIX;
      assert k[0] == LOG_PREFIX[0] && CLOCK_PREFIX[0] != LOG_PREFIX[0];
    }
  }

  lemma ClockKeyInjective(a: NodeID, b: NodeID)
    requires ClockKey(a) == ClockKey(b)
    ensures a == b
  {
    assert a.bytes == ClockKey(a)[12..] && b.bytes == ClockKey(b)[12..];
  }

  lemma LogKeyInjective(p: Pos, a: LogItem, q: Pos, b: LogItem)
    requires p.clock <= MAX_CLOCK && q.clock <= MAX_CLOCK && LogKey(p, a) == LogKey(q, b)
    ensures p == q && a.key == b.key && a.state == b.state
  {
    EncodeInjective(LogEntry(p.id, p.clock, a.key.bytes, a.state), LogEntry(q.id, q.clock, b.key.bytes, b.state));
  }

  lemma NotReserved(k: Bytes)
    requires LOG_PREFIX <= k || CLOCK_PREFIX <= k
    ensures !(ENGINE_PREFIX <= k)
  {
    assert LOG_PREFIX[0] != ENGINE_PREFIX[0] && CLOCK_PREFIX[0] != ENGINE_PREFIX[0];
  }

  // ---------- what can be seen ----------

  lemma SeesRecord(data: Data, st: Replica, key: KeyHash, now: nat)
    requires Represents(data, st) && now < MAX_TIME
    ensures Visible(data, key.bytes, now) <==> st.Has(key, now)
    ensures st.Has(key, now) ==> data[key.bytes].value == Marshaled(st.records[key])
  {
  }

  // ---------- single writes ----------

  /** A replica that lost nothing knows every key it knew. */
  lemma StaysKnown(k: Bytes, st: Replica, st': Replica)
    requires IsKnown(k, st)
    requires st.records.Keys <= st'.records.Keys && st.clocks.Keys <= st'.clocks.Keys
    requires forall p :: p in st.log ==> p in st'.log && st'.log[p] == st.log[p]
    ensures IsKnown(k, st')
  {
    if IsRecordKey(k, st) {
      var x :| x in st.records && k == x.bytes;
      assert x in st'.records;
    } else if IsClockKey(k, st) {
      var x :| x in st.clocks && k == ClockKey(x);
      assert x in st'.clocks;
    } else if IsLogKey(k, st) {
      var p :| p in st.log && p.clock <= MAX_CLOCK && k == LogKey(p, st.log[p]);
      assert p in st'.log && st'.log[p] == st.log[p];
    }
  }

  lemma KnownAfterWrite(data: Data, st: Replica, key: Bytes, item: Item, st': Replica)
    requires Known(data, st) && IsKnown(key, st')
    requires st.records.Keys <= st'.records.Keys && st.clocks.Keys <= st'.clocks.Keys
    requires forall p :: p in st.log ==> p in st'.log && st'.log[p] == st.log[p]
    ensures Known(data[key := item], st')
  {
    forall k | k in data[key := item] ensures IsKnown(k, st') {
      if k != key {
        assert IsKnown(k, st);
        StaysKnown(k, st, st');
      }
    }
  }

  lemma SetRecord(data: Data, st: Replica, key: KeyHash, r: Record, item: Item)
    requires Represents(data, st) && HoldsRecord(item, r)
    ensures Represents(data[key.bytes := item], st.(records := st.records[key := r]))
  {
    var st' := st.(records := st.records[key := r]);
    assert IsRecordKey(key.bytes, st') by { assert key in st'.records; }
    KnownAfterWrite(data, st, key.bytes, item, st');
  }

  lemma SetClock(data: Data, st: Replica, id: NodeID, c: nat)
    requires Represents(data, st) && c <= MAX_CLOCK
    ensures Represents(data[ClockKey(id) := ClockItem(c)], st.(clocks := st.clocks[id := c]))
  {
    var st' := st.(clocks := st.clocks[id := c]);
    forall x: NodeID | ClockKey(x) == ClockKey(id) ensures x == id { ClockKeyInjective(x, id); }
    assert IsClockKey(ClockKey(id), st') by { assert id in st'.clocks; }
    KnownAfterWrite(data, st, ClockKey(id), ClockItem(c), st');
  }

  lemma AddLog(data: Data, st: Replica, p: Pos, item: LogItem)
    requires Represents(data, st) && p.clock <= MAX_CLOCK && p !in st.log
    ensures Represents(data[LogKey(p, item) := Item(Raw([]), item.expires)], st.(log := st.log[p := item]))
  {
    var key, st' := LogKey(p, item), st.(log := st.log[p := item]);
    AddLogEntries(data, st, p, item);
    assert IsLogKey(key, st') by { assert p in st'.log && st'.log[p] == item; }
    KnownAfterWrite(data, st, key, Item(Raw([]), item.expires), st');
  }

  lemma AddLogEntries(data: Data, st: Replica, p: Pos, item: LogItem)
    requires LogAt(data, st) && p.clock <= MAX_CLOCK && p !in st.log
    ensures LogAt(data[LogKey(p, item) := Item(Raw([]), item.expires)], st.(log := st.log[p := item]))
  {
    var st' := st.(log := st.log[p := item]);
    forall q | q in st.log && LogKey(q, st.log[q]) == LogKey(p, item) ensures q == p {
      LogKeyInjective(q, st.log[q], p, item);
    }
    assert forall q :: q in st'.log && q != p ==> q in st.log && st'.log[q] == st.log[q];
  }

  // ---------- deletions ----------

  lemma RemoveRecord(data: Data, st: Replica, key: KeyHash)
    requires Represents(data, st)
    ensures Represents(data - {key.bytes}, st.(records := st.records - {key}))
  {
    var data', st' := data - {key.bytes}, st.(records := st.records - {key});
    forall k | k in data' ensures IsKnown(k, st') {
      assert IsKnown(k, st);
      if IsRecordKey(k, st) {
        var x :| x in st.records && k == x.bytes;
        assert x in st'.records;
      }
    }
  }

  /** The log without its live entries for `key`. */
  function WithoutKey(st: Replica, key: KeyHash, now: nat): Replica {
    st.(log := map p | p in st.log && !(st.log[p].key == key && st.HasLog(p, now)) :: st.log[p])
  }

  /** The key of a live log entry that names `key`. */
  ghost predicate Names(st: Replica, k: Bytes, key: KeyHash, now: nat) {
    exists p :: NamesAt(st, k, key, now, p)
  }

  ghost predicate NamesAt(st: Replica, k: Bytes, key: KeyHash, now: nat, p: Pos) {
    st.HasLog(p, now) && p.clock <= MAX_CLOCK && st.log[p].key == key && k == LogKey(p, st.log[p])
  }

  lemma KeptKey(st: Replica, key: KeyHash, now: nat, p: Pos)
    requires p in WithoutKey(st, key, now).log && p.clock <= MAX_CLOCK
    ensures !Names(st, LogKey(p, st.log[p]), key, now)
  {
    var k := LogKey(p, st.log[p]);
    if Names(st, k, key, now) {
      var q :| NamesAt(st, k, key, now, q);
      LogKeyInjective(p, st.log[p], q, st.log[q]);
    }
  }

  lemma KnownWithoutKey(st: Replica, k: Bytes, key: KeyHash, now: nat)
    requires IsKnown(k, st) && !Names(st, k, key, now)
    ensures IsKnown(k, WithoutKey(st, key, now))
  {
    if IsLogKey(k, st) {
      var p :| p in st.log && p.clock <= MAX_CLOCK && k == LogKey(p, st.log[p]);
      assert !NamesAt(st, k, key, now, p);
      assert p in WithoutKey(st, key, now).log;
    }
  }

  lemma RemoveLog(data: Data, st: Replica, key: KeyHash, now: nat, gone: set<Bytes>)
    requires Represents(data, st)
    requires forall k :: k in data ==> (k in gone <==> Names(st, k, key, now))
    ensures Represents(data - gone, WithoutKey(st, key, now))
  {
    var data', st' := data - gone, WithoutKey(st, key, now);
    forall k | k in data && k in gone ensures |k| == LEN_ENTRY {
      var p :| NamesAt(st, k, key, now, p);
    }
    assert RecordsAt(data', st') && ClocksAt(data', st');
    forall p | p in st'.log
      ensures p.clock <= MAX_CLOCK && LogKey(p, st'.log[p]) in data'
      ensures data'[LogKey(p, st'.log[p])] == Item(Raw([]), st'.log[p].expires)
    {
      assert p in st.log;
      KeptKey(st, key, now, p);
    }
    forall k | k in data' ensures IsKnown(k, st') {
      assert IsKnown(k, st);
      KnownWithoutKey(st, k, key, now);
    }
  }
}
