/** Which replies a node refuses: those with an entry that meets an unequal live record; and when it never does. */
module Refusals {
  import opened Types
  import opened Replicas
  import opened Cluster

  // ---------- one batch ----------

  /** The i-th entry is well-formed, and no live record of its key before it, stored or in the batch, differs. */
  ghost predicate Accepts(st: Replica, es: seq<Entry>, now: nat, i: nat) {
    && i < |es|
    && var e := es[i];
       && e.record.state == CREATED && !(ENGINE_PREFIX <= e.key.bytes)
       && (st.Has(e.key, now) ==> st.records[e.key] == e.record)
       && forall j :: 0 <= j < i && es[j].key == e.key && Live(Expiry(es[j].record), now) ==> es[j].record == e.record
  }

  /** The last record the batch gives the key. */
  function LastIn(es: seq<Entry>, key: KeyHash): Option<Record> {
    if es == [] then None
    else if es[|es| - 1].key == key then Some(es[|es| - 1].record)
    else LastIn(es[..|es| - 1], key)
  }

  lemma {:induction false} LastInAt(es: seq<Entry>, key: KeyHash) returns (i: int)
    ensures LastIn(es, key).None? ==> i == -1
    ensures LastIn(es, key).Some? ==> 0 <= i < |es| && es[i].key == key && LastIn(es, key) == Some(es[i].record)
    ensures forall j :: i < j < |es| ==> es[j].key != key
  {
    if es == [] {
      i := -1;
    } else if es[|es| - 1].key == key {
      i := |es| - 1;
    } else {
      i := LastInAt(es[..|es| - 1], key);
    }
  }

  lemma {:induction false} RecordAfter(st: Replica, es: seq<Entry>, now: nat, key: KeyHash)
    requires InsertAll(st, es, now).Ok?
    ensures var records := InsertAll(st, es, now).value.records;
            if LastIn(es, key).Some? then key in records && records[key] == LastIn(es, key).value
            else (key in records <==> key in st.records) && (key in records ==> records[key] == st.records[key])
  {
    if es != [] { RecordAfter(st, es[..|es| - 1], now, key); }
  }

  lemma AcceptsFront(st: Replica, es: seq<Entry>, now: nat, i: nat)
    requires es != [] && i < |es| - 1
    ensures Accepts(st, es, now, i) <==> Accepts(st, es[..|es| - 1], now, i)
  {
    var front := es[..|es| - 1];
    assert forall j :: 0 <= j <= i ==> front[j] == es[j];
  }

  /** The last entry is accepted just if it can be inserted after the others. */
  lemma LastAccepted(st: Replica, es: seq<Entry>, now: nat)
    requires es != [] && InsertAll(st, es[..|es| - 1], now).Ok?
    requires forall i :: 0 <= i < |es| - 1 ==> Accepts(st, es, now, i)
    ensures Accepts(st, es, now, |es| - 1) <==>
            Insert(InsertAll(st, es[..|es| - 1], now).value, es[|es| - 1], now).Ok?
  {
    var front, e := es[..|es| - 1], es[|es| - 1];
    RecordAfter(st, front, now, e.key);
    var last := LastInAt(front, e.key);
    if last >= 0 {
      assert Accepts(st, es, now, last);
      forall j | 0 <= j < |front| && es[j].key == e.key && Live(Expiry(es[j].record), now)
        ensures es[j].record == es[last].record
      {
        assert front[j] == es[j] && j <= last;
      }
    } else {
      assert forall j :: 0 <= j < |front| ==> front[j].key != e.key;
    }
  }

  /** A reply is applied just if each of its entries is accepted. */
  lemma {:induction false} BatchExact(st: Replica, es: seq<Entry>, now: nat)
    ensures InsertAll(st, es, now).Ok? <==> forall i :: 0 <= i < |es| ==> Accepts(st, es, now, i)
  {
    if es != [] {
      var front := es[..|es| - 1];
      BatchExact(st, front, now);
      forall i | 0 <= i < |front| ensures Accepts(st, es, now, i) <==> Accepts(st, front, now, i) {
        AcceptsFront(st, es, now, i);
      }
      if InsertAll(st, front, now).Ok? { LastAccepted(st, es, now); }
    }
  }

  /** The keys of the batch have records, and every entry that is not expired has its own. */
  ghost predicate Stores(st: Replica, es: seq<Entry>, now: nat) {
    forall e :: e in es ==>
      e.key in st.records && (Live(Expiry(e.record), now) ==> st.records[e.key] == e.record)
  }

  lemma BatchStores(st: Replica, es: seq<Entry>, now: nat)
    requires InsertAll(st, es, now).Ok?
    ensures Stores(InsertAll(st, es, now).value, es, now)
  {
    var records := InsertAll(st, es, now).value.records;
    BatchExact(st, es, now);
    forall e | e in es
      ensures e.key in records && (Live(Expiry(e.record), now) ==> records[e.key] == e.record)
    {
      var i :| 0 <= i < |es| && es[i] == e;
      var last := LastInAt(es, e.key);
      RecordAfter(st, es, now, e.key);
      assert last >= i && Accepts(st, es, now, last);
    }
  }

  // ---------- runs with one record per key ----------

  /** The k-th action puts the record, and the put goes through. */
  ghost predicate PutsAt(cs: seq<Cluster>, acts: seq<Action>, k: nat, key: KeyHash, record: Record) {
    && k < |acts| && k < |cs|
    && acts[k].Put? && acts[k].key == key && acts[k].record == record && acts[k].node in cs[k]
    && Insert(cs[k][acts[k].node].replica, Entry(acts[k].node, key, record), cs[k][acts[k].node].now).Ok?
  }

  /** Nothing is updated, and puts of one key carry one record, however often and wherever it is put. */
  ghost predicate Steady(cs: seq<Cluster>, acts: seq<Action>, i: nat) {
    && i <= |acts| < |cs|
    && (forall k :: 0 <= k < i ==> !acts[k].Admin?)
    && forall j, k, key, q, r ::
         0 <= j < i && 0 <= k < i && PutsAt(cs, acts, j, key, q) && PutsAt(cs, acts, k, key, r) ==> q == r
  }

  type Table = map<KeyHash, Record>

  ghost predicate Listed(table: Table, key: KeyHash, record: Record) {
    key in table && table[key] == record && record.state == CREATED && !(ENGINE_PREFIX <= key.bytes)
  }

  /** Wherever the node has a record, stored or in a reply, it is the table's. */
  ghost predicate UniformAt(c: Cluster, table: Table, n: NodeID) {
    && n in c
    && (forall k :: k in c[n].replica.records ==> Listed(table, k, c[n].replica.records[k]))
    && (c[n].session.Sync? ==> forall e :: e in c[n].session.got ==> Listed(table, e.key, e.record))
  }

  ghost predicate Uniform(c: Cluster, table: Table) {
    forall n {:trigger UniformAt(c, table, n)} :: n in c ==> UniformAt(c, table, n)
  }

  lemma UniformAccepts(st: Replica, es: seq<Entry>, now: nat, table: Table)
    requires forall k :: k in st.records ==> Listed(table, k, st.records[k])
    requires forall e :: e in es ==> Listed(table, e.key, e.record)
    ensures InsertAll(st, es, now).Ok?
    ensures var st' := InsertAll(st, es, now).value;
            && (forall k :: k in st'.records ==> Listed(table, k, st'.records[k]))
            && forall e :: e in es ==> e.key in st'.records && st'.records[e.key] == e.record
  {
    forall i | 0 <= i < |es| ensures Accepts(st, es, now, i) {
      assert forall j :: 0 <= j <= i ==> es[j] in es;
    }
    BatchExact(st, es, now);
    BatchStores(st, es, now);
    forall k | k in InsertAll(st, es, now).value.records
      ensures Listed(table, k, InsertAll(st, es, now).value.records[k])
    {
      RecordAfter(st, es, now, k);
      var i := LastInAt(es, k);
      if i >= 0 { assert es[i] in es; }
    }
  }

  lemma StepUniformAt(c: Cluster, a: Action, table: Table)
    requires Uniform(c, table) && Enabled(c, a) && !a.Admin?
    requires a.Put? && Insert(c[a.node].replica, Entry(a.node, a.key, a.record), c[a.node].now).Ok? ==>
               a.key in table && table[a.key] == a.record
    ensures UniformAt(Next(c, a), table, a.node)
  {
    assert UniformAt(c, table, a.node);
    if a.Answer? {
      var peer := c[a.node].session.peer;
      assert UniformAt(c, table, peer);
      var p := c[peer];
      if Ship(p.replica, a.id, a.found, p.now).Some? { ShipLaw(p.replica, a.id, a.found, p.now); }
    } else if a.Apply? {
      UniformAccepts(c[a.node].replica, c[a.node].session.got, c[a.node].now, table);
    }
  }

  lemma StepUniform(c: Cluster, a: Action, c': Cluster, table: Table)
    requires Uniform(c, table) && Enabled(c, a) && c' == Next(c, a) && !a.Admin?
    requires a.Put? && Insert(c[a.node].replica, Entry(a.node, a.key, a.record), c[a.node].now).Ok? ==>
               a.key in table && table[a.key] == a.record
    ensures Uniform(c', table)
  {
    forall n | n in c' ensures UniformAt(c', table, n) {
      assert UniformAt(c, table, n);
      if n == a.node { StepUniformAt(c, a, table); }
    }
  }

  /** The record each key was put with. */
  lemma {:induction false} TableOf(cs: seq<Cluster>, acts: seq<Action>, i: nat) returns (table: Table)
    requires Steady(cs, acts, i)
    ensures forall k, key, r :: 0 <= k < i && PutsAt(cs, acts, k, key, r) ==> key in table && table[key] == r
    ensures forall key :: key in table ==> exists k :: 0 <= k < i && PutsAt(cs, acts, k, key, table[key])
  {
    if i == 0 {
      table := map[];
    } else {
      table := TableOf(cs, acts, i - 1);
      var a := acts[i - 1];
      if a.Put? && PutsAt(cs, acts, i - 1, a.key, a.record) { table := table[a.key := a.record]; }
    }
  }

  lemma {:induction false} RunUniform(cs: seq<Cluster>, acts: seq<Action>, m: nat, i: nat, table: Table)
    requires Run(cs, acts) && Init(cs[0]) && m <= i && Steady(cs, acts, i)
    requires forall k, key, r :: 0 <= k < i && PutsAt(cs, acts, k, key, r) ==> key in table && table[key] == r
    ensures Uniform(cs[m], table)
  {
    if m > 0 {
      RunUniform(cs, acts, m - 1, i, table);
      assert Moves(cs, acts, m - 1);
      var a := acts[m - 1];
      if a.Put? && Insert(cs[m - 1][a.node].replica, Entry(a.node, a.key, a.record), cs[m - 1][a.node].now).Ok? {
        assert PutsAt(cs, acts, m - 1, a.key, a.record);
      }
      StepUniform(cs[m - 1], acts[m - 1], cs[m], table);
    }
  }

  /**
    While keys keep their records no reply is ever refused, whatever is deleted, expires or is relayed,
    and the record of each of its entries is stored.
  */
  lemma SteadyNeverRefuses(cs: seq<Cluster>, acts: seq<Action>, i: nat)
    requires Run(cs, acts) && Init(cs[0]) && Steady(cs, acts, i) && i < |acts| && acts[i].Apply?
    ensures acts[i].node in cs[i] && cs[i][acts[i].node].session.Sync?
    ensures var n := cs[i][acts[i].node];
            var r := InsertAll(n.replica, n.session.got, n.now);
            r.Ok? && forall e :: e in n.session.got ==> e.key in r.value.records && r.value.records[e.key] == e.record
  {
    var table := TableOf(cs, acts, i);
    RunUniform(cs, acts, i, i, table);
    assert Moves(cs, acts, i) && UniformAt(cs[i], table, acts[i].node);
    var n := cs[i][acts[i].node];
    UniformAccepts(n.replica, n.session.got, n.now, table);
  }
}
