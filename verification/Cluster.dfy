/**
  The replication protocol: any number of nodes, each with one outgoing sync at a time, taking
  atomic steps in any order.
*/
module Cluster {
  import opened Types
  import opened Replicas
  import opened DatabaseLaws

  /**
    An outgoing sync. `sent` holds the clocks of the request, `got` the entries answered so far.
    `src` is a history variable no step reads for its effect on a replica: for each answered id,
    the clocks under which the peer logs the entries it sent.
  */
  datatype Session =
    | Idle
    | Sync(peer: NodeID, sent: map<NodeID, nat>, got: seq<Entry>, src: map<NodeID, seq<nat>>)

  /** A node has applied the entry of the log of `id` that its peer logs under `clock` and that names `key`. */
  datatype Receipt = Receipt(id: NodeID, clock: nat, key: KeyHash)

  /** `seen` is a history variable: the receipts of all batches applied so far. */
  datatype Node = Node(replica: Replica, now: nat, limit: int, session: Session, seen: set<Receipt>)

  type Cluster = map<NodeID, Node>

  datatype Action =
    | Put(node: NodeID, key: KeyHash, record: Record)
    | Ensure(node: NodeID, peer: NodeID)
    | Build(node: NodeID, peer: NodeID)
    | Answer(node: NodeID, id: NodeID, found: seq<nat>)
    | Apply(node: NodeID)
    | Lose(node: NodeID)
    | Admin(node: NodeID, key: KeyHash, change: AdminChange)
    | Remove(node: NodeID, key: KeyHash)
    | Tick(node: NodeID, time: nat)

  /** What the peer puts on the wire for the log positions it found. */
  function Ship(st: Replica, id: NodeID, found: seq<nat>, now: nat): Option<seq<Entry>> {
    if found == [] then Some([])
    else
      var front := Ship(st, id, found[..|found| - 1], now);
      var pos := Pos(id, found[|found| - 1]);
      if front.None? || pos !in st.log || !st.Has(st.log[pos].key, now) then None
      else Some(front.value + [Entry(id, st.log[pos].key, st.records[st.log[pos].key])])
  }

  /** The clock under which the peer logs the i-th entry of a reply, if `src` names those of each id. */
  function SourceClock(es: seq<Entry>, src: map<NodeID, seq<nat>>, i: nat): nat
    requires i < |es|
  {
    var id, rank := es[i].id, Count(es[..i], es[i].id);
    if id in src && rank < |src[id]| then src[id][rank] else 0
  }

  function Receipts(es: seq<Entry>, src: map<NodeID, seq<nat>>): set<Receipt> {
    set i | 0 <= i < |es| :: Receipt(es[i].id, SourceClock(es, src, i), es[i].key)
  }

  ghost predicate Enabled(c: Cluster, a: Action) {
    && a.node in c
    && var n := c[a.node];
       match a
       case Put(_, _, _) => true
       case Ensure(_, peer) => peer in c && peer != a.node && n.session.Idle?
       case Build(_, peer) => peer in c && peer != a.node && n.session.Idle? && peer in n.replica.clocks
       case Answer(_, id, found) =>
         && n.session.Sync? && n.session.peer in c
         && id in n.session.sent && id !in n.session.src
         && var p := c[n.session.peer];
            Scan(p.replica, id, n.session.sent[id], p.limit, p.now, found)
       case Apply(_) => n.session.Sync? && n.session.sent.Keys == n.session.src.Keys
       case Lose(_) => n.session.Sync?
       case Admin(_, _, _) => true
       case Remove(_, _) => true
       case Tick(_, time) => n.now <= time
  }

  ghost function Next(c: Cluster, a: Action): Cluster
    requires Enabled(c, a)
  {
    c[a.node := NextNode(c, a)]
  }

  ghost function NextNode(c: Cluster, a: Action): Node
    requires Enabled(c, a)
  {
    var n := c[a.node];
    match a
    case Put(_, key, record) => n.(replica := Do(n.replica, n.now, InsertOp(Entry(a.node, key, record))))
    case Ensure(_, peer) => n.(replica := Do(n.replica, n.now, EnsureOp(peer)))
    case Build(_, peer) => n.(session := Sync(peer, n.replica.clocks - {a.node}, [], map[]))
    case Answer(_, id, found) =>
      var p := c[n.session.peer];
      var shipped := Ship(p.replica, id, found, p.now);
      if shipped.None? then n.(session := Idle)
      else n.(session := n.session.(got := n.session.got + shipped.value, src := n.session.src[id := found]))
    case Apply(_) =>
      if InsertAll(n.replica, n.session.got, n.now).Err? then n.(session := Idle)
      else n.(replica := Do(n.replica, n.now, BatchOp(n.session.got)),
              session := Idle,
              seen := n.seen + Receipts(n.session.got, n.session.src))
    case Lose(_) => n.(session := Idle)
    case Admin(_, key, change) => n.(replica := Do(n.replica, n.now, UpdateOp(key, change)))
    case Remove(_, key) => n.(replica := Do(n.replica, n.now, DeleteOp(key)))
    case Tick(_, time) => n.(now := time)
  }

  ghost predicate Init(c: Cluster) {
    forall n :: n in c ==> c[n].replica == EMPTY && c[n].session.Idle? && c[n].seen == {}
  }

  /** `cs` are the states of a run that takes the actions `acts`. */
  ghost predicate Run(cs: seq<Cluster>, acts: seq<Action>) {
    && |cs| == |acts| + 1
    && forall i :: 0 <= i < |acts| ==> Moves(cs, acts, i)
  }

  ghost predicate Moves(cs: seq<Cluster>, acts: seq<Action>, i: nat) {
    && i < |acts| && i + 1 < |cs|
    && Enabled(cs[i], acts[i]) && cs[i + 1] == Next(cs[i], acts[i])
  }

  function Count(es: seq<Entry>, id: NodeID): nat {
    if es == [] then 0
    else Count(es[..|es| - 1], id) + if es[|es| - 1].id == id then 1 else 0
  }

  /** How far the clock of `n` for `o` is behind. */
  function Lag(c: Cluster, n: NodeID, o: NodeID): int
    requires n in c && o in c
  {
    c[o].replica.Clock(o) - c[n].replica.Clock(o)
  }

  // ---------- what every step of every run keeps ----------

  /** The requested clocks are still the node's clocks, and its own id was not requested. */
  ghost predicate Current(c: Cluster, n: NodeID) {
    && n in c
    && var s := c[n].session;
       s.Sync? ==>
         && s.peer in c && s.peer != n && s.peer in s.sent
         && n !in s.sent
         && (forall id :: id in s.sent ==> id in c[n].replica.clocks && c[n].replica.clocks[id] == s.sent[id])
         && s.src.Keys <= s.sent.Keys
         && (forall i :: 0 <= i < |s.got| ==> s.got[i].id in s.src)
         && (forall id :: id in s.src ==> Count(s.got, id) == |s.src[id]|)
  }

  ghost predicate Sound(c: Cluster) {
    forall n {:trigger SoundAt(c, n)} :: n in c ==> SoundAt(c, n)
  }

  ghost predicate SoundAt(c: Cluster, n: NodeID) {
    && n in c
    && Law(c[n].replica, c[n].now)
    && c[n].replica.clocks.Keys <= c.Keys
    && Current(c, n)
  }

  lemma {:induction false} ShipLaw(st: Replica, id: NodeID, found: seq<nat>, now: nat)
    requires Ship(st, id, found, now).Some?
    ensures var es := Ship(st, id, found, now).value;
            && |es| == |found|
            && forall i :: 0 <= i < |es| ==>
                 && Pos(id, found[i]) in st.log
                 && var key := st.log[Pos(id, found[i])].key;
                    st.Has(key, now) && es[i] == Entry(id, key, st.records[key])
  {
    if found != [] {
      ShipLaw(st, id, found[..|found| - 1], now);
    }
  }

  lemma {:induction false} ShipSucceeds(st: Replica, id: NodeID, found: seq<nat>, now: nat)
    requires forall i :: 0 <= i < |found| ==> st.HasLog(Pos(id, found[i]), now)
    requires Intact(st, now)
    ensures Ship(st, id, found, now).Some?
  {
    if found != [] {
      ShipSucceeds(st, id, found[..|found| - 1], now);
      assert st.HasLog(Pos(id, found[|found| - 1]), now);
    }
  }

  lemma {:induction false} CountAppend(a: seq<Entry>, b: seq<Entry>, id: NodeID)
    ensures Count(a + b, id) == Count(a, id) + Count(b, id)
  {
    if b == [] {
      assert a + b == a;
    } else {
      assert (a + b)[..|a + b| - 1] == a + b[..|b| - 1];
      CountAppend(a, b[..|b| - 1], id);
    }
  }

  lemma {:induction false} CountUniform(es: seq<Entry>, id: NodeID, other: NodeID)
    requires forall i :: 0 <= i < |es| ==> es[i].id == id
    ensures Count(es, other) == if other == id then |es| else 0
  {
    if es != [] { CountUniform(es[..|es| - 1], id, other); }
  }

  lemma {:induction false} CountNone(es: seq<Entry>, id: NodeID)
    requires forall i :: 0 <= i < |es| ==> es[i].id != id
    ensures Count(es, id) == 0
  {
    if es != [] { CountNone(es[..|es| - 1], id); }
  }

  /** A batch raises each clock by the number of its entries for that id. */
  lemma {:induction false} InsertAllClocks(st: Replica, es: seq<Entry>, now: nat, id: NodeID)
    requires InsertAll(st, es, now).Ok?
    ensures InsertAll(st, es, now).value.Clock(id) == st.Clock(id) + Count(es, id)
  {
    if es != [] { InsertAllClocks(st, es[..|es| - 1], now, id); }
  }

  lemma {:induction false} InsertAllIds(st: Replica, es: seq<Entry>, now: nat, ids: set<NodeID>)
    requires InsertAll(st, es, now).Ok?
    requires st.clocks.Keys <= ids && forall i :: 0 <= i < |es| ==> es[i].id in ids
    ensures InsertAll(st, es, now).value.clocks.Keys <= ids
  {
    if es != [] { InsertAllIds(st, es[..|es| - 1], now, ids); }
  }

  lemma AnswerCounts(s: Session, es: seq<Entry>, id: NodeID, found: seq<nat>)
    requires s.Sync? && id !in s.src && |es| == |found|
    requires forall i :: 0 <= i < |es| ==> es[i].id == id
    requires forall i :: 0 <= i < |s.got| ==> s.got[i].id in s.src
    requires forall x :: x in s.src ==> Count(s.got, x) == |s.src[x]|
    ensures forall x :: x in s.src[id := found] ==> Count(s.got + es, x) == |s.src[id := found][x]|
  {
    forall x | x in s.src[id := found]
      ensures Count(s.got + es, x) == |s.src[id := found][x]|
    {
      CountAppend(s.got, es, x);
      CountUniform(es, id, x);
      if x == id { CountNone(s.got, id); }
    }
  }

  /** Which database transaction a step is for the node that takes it. */
  ghost function OpOf(c: Cluster, a: Action): Op
    requires Enabled(c, a)
  {
    match a
    case Put(n, key, record) => InsertOp(Entry(n, key, record))
    case Ensure(_, peer) => EnsureOp(peer)
    case Apply(n) => BatchOp(c[n].session.got)
    case Admin(_, key, change) => UpdateOp(key, change)
    case Remove(_, key) => DeleteOp(key)
    case Tick(_, time) => TickOp(time)
    case _ => TickOp(c[a.node].now)
  }

  lemma StepLaw(c: Cluster, a: Action)
    requires a.node in c && Law(c[a.node].replica, c[a.node].now) && Enabled(c, a)
    ensures Law(NextNode(c, a).replica, NextNode(c, a).now)
    ensures Grows(c[a.node].replica, NextNode(c, a).replica)
    ensures !a.Remove? && Gapless(c[a.node].replica) ==> Gapless(NextNode(c, a).replica)
  {
    DoLaw(c[a.node].replica, c[a.node].now, OpOf(c, a));
  }

  lemma StepCurrent(c: Cluster, a: Action)
    requires Enabled(c, a) && c[a.node].replica.clocks.Keys <= c.Keys && Current(c, a.node)
    ensures Current(Next(c, a), a.node)
  {
    var n := c[a.node];
    if a.Answer? {
      var p := c[n.session.peer];
      var shipped := Ship(p.replica, a.id, a.found, p.now);
      if shipped.Some? {
        ShipLaw(p.replica, a.id, a.found, p.now);
        AnswerCounts(n.session, shipped.value, a.id, a.found);
      }
    }
  }

  lemma StepSound(c: Cluster, a: Action, c': Cluster)
    requires Sound(c) && Enabled(c, a) && c' == Next(c, a)
    ensures Sound(c')
  {
    forall n | n in c' ensures SoundAt(c', n) {
      assert SoundAt(c, n);
      if n == a.node {
        var st := c[n].replica;
        StepLaw(c, a);
        StepCurrent(c, a);
        if a.Apply? && InsertAll(st, c[n].session.got, c[n].now).Ok? {
          InsertAllIds(st, c[n].session.got, c[n].now, c.Keys);
        }
      }
    }
  }

  lemma {:induction false} RunSound(cs: seq<Cluster>, acts: seq<Action>, i: nat)
    requires Run(cs, acts) && Init(cs[0]) && i < |cs|
    ensures Sound(cs[i]) && cs[i].Keys == cs[0].Keys
  {
    if i > 0 {
      RunSound(cs, acts, i - 1);
      assert Moves(cs, acts, i - 1);
      StepSound(cs[i - 1], acts[i - 1], cs[i]);
    }
  }

  // ---------- consequences for every run ----------

  /** When a node comes to apply a reply, its clock for every requested id is the one it sent. */
  lemma RequestClocksStayCurrent(cs: seq<Cluster>, acts: seq<Action>, i: nat, n: NodeID, id: NodeID)
    requires Run(cs, acts) && Init(cs[0]) && i < |acts| && acts[i].Apply?
    requires n == acts[i].node && n in cs[i] && cs[i][n].session.Sync? && id in cs[i][n].session.sent
    ensures id != n && cs[i][n].replica.Clock(id) == cs[i][n].session.sent[id]
  {
    RunSound(cs, acts, i);
    assert SoundAt(cs[i], n);
  }

  lemma {:induction false} InsertAllAdds(st: Replica, es: seq<Entry>, now: nat, p: Pos)
    requires InsertAll(st, es, now).Ok?
    requires p in InsertAll(st, es, now).value.log && p !in st.log
    ensures exists i :: 0 <= i < |es| && es[i].id == p.id
  {
    if p.id != es[|es| - 1].id {
      InsertAllAdds(st, es[..|es| - 1], now, p);
      var i :| 0 <= i < |es| - 1 && es[..|es| - 1][i].id == p.id;
      assert es[i].id == p.id;
    }
  }

  lemma ApplyAddsForeign(c: Cluster, n: NodeID, p: Pos)
    requires n in c && c[n].session.Sync? && Current(c, n)
    requires InsertAll(c[n].replica, c[n].session.got, c[n].now).Ok?
    requires p !in c[n].replica.log
    requires p in InsertAll(c[n].replica, c[n].session.got, c[n].now).value.log
    ensures p.id != n
  {
    var got := c[n].session.got;
    InsertAllAdds(c[n].replica, got, c[n].now, p);
    var k :| 0 <= k < |got| && got[k].id == p.id;
    assert got[k].id in c[n].session.src;
  }

  lemma OwnEntryStep(c: Cluster, a: Action, n: NodeID, p: Pos)
    requires Enabled(c, a) && n in c && Current(c, n)
    requires p.id == n && p !in c[n].replica.log && p in Next(c, a)[n].replica.log
    ensures a.Put? && a.node == n && Next(c, a)[n].replica.log[p].key == a.key
  {
    if a.Apply? && a.node == n {
      ApplyAddsForeign(c, n, p);
    }
  }

  /** Log entries under a node's own id arise only from its own puts. */
  lemma OwnEntriesAreOwnPuts(cs: seq<Cluster>, acts: seq<Action>, i: nat, n: NodeID, p: Pos)
    requires Run(cs, acts) && Init(cs[0]) && i < |acts| && n in cs[i]
    requires p.id == n && p !in cs[i][n].replica.log
    requires n in cs[i + 1] && p in cs[i + 1][n].replica.log
    ensures acts[i].Put? && acts[i].node == n && cs[i + 1][n].replica.log[p].key == acts[i].key
  {
    RunSound(cs, acts, i);
    assert Moves(cs, acts, i) && SoundAt(cs[i], n);
    OwnEntryStep(cs[i], acts[i], n, p);
  }

  /** A peer always finds the records its log entries name, so an answer never fails. */
  lemma AnswersNeverFail(cs: seq<Cluster>, acts: seq<Action>, i: nat)
    requires Run(cs, acts) && Init(cs[0]) && i < |acts| && acts[i].Answer?
    ensures var n := acts[i].node;
            n in cs[i + 1] && cs[i + 1][n].session.Sync? && acts[i].id in cs[i + 1][n].session.src
  {
    RunSound(cs, acts, i);
    assert Moves(cs, acts, i);
    var p := cs[i][cs[i][acts[i].node].session.peer];
    assert SoundAt(cs[i], cs[i][acts[i].node].session.peer);
    ShipSucceeds(p.replica, acts[i].id, acts[i].found, p.now);
  }

  lemma RunStepGrows(cs: seq<Cluster>, acts: seq<Action>, k: nat, n: NodeID)
    requires Run(cs, acts) && Init(cs[0]) && k < |acts| && n in cs[k]
    ensures n in cs[k + 1] && cs[k][n].now <= cs[k + 1][n].now && Grows(cs[k][n].replica, cs[k + 1][n].replica)
  {
    RunSound(cs, acts, k);
    assert Moves(cs, acts, k) && SoundAt(cs[k], n);
    if acts[k].node == n { StepLaw(cs[k], acts[k]); }
  }

  /** Between any two moments of any run, no clock of any node decreases and no log position is reused. */
  lemma {:induction false} NodesOnlyGrow(cs: seq<Cluster>, acts: seq<Action>, i: nat, j: nat, n: NodeID)
    requires Run(cs, acts) && Init(cs[0]) && i <= j < |cs| && n in cs[i]
    ensures n in cs[j] && cs[i][n].now <= cs[j][n].now && Grows(cs[i][n].replica, cs[j][n].replica)
  {
    if i < j {
      NodesOnlyGrow(cs, acts, i, j - 1, n);
      RunStepGrows(cs, acts, j - 1, n);
    }
  }
}
