/**
  Concrete nodes, keys and records for runs that show why a hypothesis is needed; what replies and
  batches of one or two entries come to; and the kinds of steps by their effect on the node that
  takes them.
*/
module Scenarios {
  import opened Types
  import opened Replicas
  import opened Cluster

  function Id(i: nat): NodeID
    requires i < 256
  {
    NodeID(seq(32, _ => i))
  }

  function Key(i: nat): KeyHash
    requires i < 32
  {
    var b: Bytes := seq(32, _ => i);
    assert b[0] != LOG_PREFIX[0] && b[0] != CLOCK_PREFIX[0];
    KeyHash(b)
  }

  function Rec(expires: int64): Record {
    Record(0, true, "", [], expires, [], [], "", 0, CREATED)
  }

  const LIMIT := 10

  function Fresh(): Node { Node(EMPTY, 0, LIMIT, Idle, {}) }

  lemma Distinct()
    ensures Id(1) != Id(2) && Id(1) != Id(3) && Id(2) != Id(3)
    ensures Key(1) != Key(2) && Key(1) != Key(3) && Key(2) != Key(3)
    ensures forall i :: 1 <= i <= 3 ==> !(ENGINE_PREFIX <= Key(i).bytes)
  {
    assert Id(1).bytes[0] != Id(2).bytes[0] && Id(1).bytes[0] != Id(3).bytes[0] && Id(2).bytes[0] != Id(3).bytes[0];
    var k1, k2, k3 := Key(1).bytes[0], Key(2).bytes[0], Key(3).bytes[0];
    assert k1 != k2 && k1 != k3 && k2 != k3;
    assert forall i :: 1 <= i <= 3 ==> Key(i).bytes[0] != ENGINE_PREFIX[0];
  }

  // ---------- replies and batches of one or two entries ----------

  lemma ShipOne(st: Replica, id: NodeID, c: nat, now: nat)
    requires Pos(id, c) in st.log && st.Has(st.log[Pos(id, c)].key, now)
    ensures Ship(st, id, [c], now) == Some([Entry(id, st.log[Pos(id, c)].key, st.records[st.log[Pos(id, c)].key])])
  {
    assert [c][..0] == [];
    assert Ship(st, id, [], now) == Some([]);
    var e := Entry(id, st.log[Pos(id, c)].key, st.records[st.log[Pos(id, c)].key]);
    assert [] + [e] == [e];
  }

  lemma ShipTwo(st: Replica, id: NodeID, c: nat, d: nat, now: nat)
    requires Pos(id, c) in st.log && st.Has(st.log[Pos(id, c)].key, now)
    requires Pos(id, d) in st.log && st.Has(st.log[Pos(id, d)].key, now)
    ensures var k, l := st.log[Pos(id, c)].key, st.log[Pos(id, d)].key;
            Ship(st, id, [c, d], now) == Some([Entry(id, k, st.records[k]), Entry(id, l, st.records[l])])
  {
    ShipOne(st, id, c, now);
    assert [c, d][..1] == [c];
    var k, l := st.log[Pos(id, c)].key, st.log[Pos(id, d)].key;
    var e, f := Entry(id, k, st.records[k]), Entry(id, l, st.records[l]);
    assert [e] + [f] == [e, f];
  }

  lemma ReceiptOne(e: Entry, src: map<NodeID, seq<nat>>, c: nat)
    requires e.id in src && src[e.id] == [c]
    ensures Receipts([e], src) == {Receipt(e.id, c, e.key)}
  {
    assert [e][..0] == [] && SourceClock([e], src, 0) == c;
  }

  lemma ReceiptTwo(e: Entry, f: Entry, src: map<NodeID, seq<nat>>, c: nat, d: nat)
    requires e.id == f.id && e.id in src && src[e.id] == [c, d]
    ensures Receipts([e, f], src) == {Receipt(e.id, c, e.key), Receipt(f.id, d, f.key)}
  {
    assert [e, f][..0] == [] && [e, f][..1] == [e] && [e][..0] == [];
    assert Count([e], e.id) == 1;
    assert SourceClock([e, f], src, 0) == c && SourceClock([e, f], src, 1) == d;
  }

  lemma BatchOne(st: Replica, e: Entry, now: nat)
    ensures InsertAll(st, [e], now) == Insert(st, e, now)
  {
    assert [e][..0] == [];
    assert InsertAll(st, [], now) == Ok(st);
  }

  lemma BatchTwo(st: Replica, e: Entry, f: Entry, now: nat)
    requires Insert(st, e, now).Ok?
    ensures InsertAll(st, [e, f], now) == Insert(Insert(st, e, now).value, f, now)
  {
    BatchOne(st, e, now);
    assert [e, f][..1] == [e];
  }

  // ---------- the kinds of steps, by their effect on the node that takes them ----------

  lemma EnsureStep(c: Cluster, n: NodeID, peer: NodeID, n': Node)
    requires n in c && peer in c && peer != n && c[n].session.Idle? && peer !in c[n].replica.clocks
    requires n' == c[n].(replica := c[n].replica.(clocks := c[n].replica.clocks[peer := 0]))
    ensures Enabled(c, Ensure(n, peer)) && Next(c, Ensure(n, peer)) == c[n := n']
  {
  }

  lemma BuildStep(c: Cluster, n: NodeID, peer: NodeID, n': Node)
    requires n in c && peer in c && peer != n && c[n].session.Idle? && peer in c[n].replica.clocks
    requires n' == c[n].(session := Sync(peer, c[n].replica.clocks - {n}, [], map[]))
    ensures Enabled(c, Build(n, peer)) && Next(c, Build(n, peer)) == c[n := n']
  {
  }

  lemma AnswerStep(c: Cluster, n: NodeID, id: NodeID, found: seq<nat>, es: seq<Entry>, n': Node)
    requires n in c && c[n].session.Sync? && c[n].session.peer in c
    requires id in c[n].session.sent && id !in c[n].session.src
    requires var p := c[c[n].session.peer];
             && Scan(p.replica, id, c[n].session.sent[id], p.limit, p.now, found)
             && Ship(p.replica, id, found, p.now) == Some(es)
    requires var s := c[n].session; n' == c[n].(session := Sync(s.peer, s.sent, s.got + es, s.src[id := found]))
    ensures Enabled(c, Answer(n, id, found)) && Next(c, Answer(n, id, found)) == c[n := n']
  {
  }

  lemma ApplyStep(c: Cluster, n: NodeID, st: Replica, n': Node)
    requires n in c && c[n].session.Sync? && c[n].session.sent.Keys == c[n].session.src.Keys
    requires InsertAll(c[n].replica, c[n].session.got, c[n].now) == Ok(st)
    requires var s := c[n].session;
             n' == c[n].(replica := st, session := Idle, seen := c[n].seen + Receipts(s.got, s.src))
    ensures Enabled(c, Apply(n)) && Next(c, Apply(n)) == c[n := n']
  {
  }
}
