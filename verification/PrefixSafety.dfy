/**
  Prefix safety: while nothing is deleted and nothing has expired, every node's log for an origin
  is a prefix of the origin's own log, although replies carry no clocks and may be relayed.
*/
module PrefixSafety {
  import opened Types
  import opened Replicas
  import opened DatabaseLaws
  import opened Cluster

  /** The log of `o` held in `st` is a prefix of the one held by the origin. */
  ghost predicate Follows(st: Replica, origin: Replica, o: NodeID) {
    && st.Clock(o) <= origin.Clock(o)
    && forall p :: p in st.log && p.id == o ==> p in origin.log && st.log[p] == origin.log[p]
  }

  function ItemOf(e: Entry): LogItem {
    LogItem(e.key, e.record.state, Expiry(e.record))
  }

  /** The i-th entry of a reply is the one its origin logged under the clock it will get. */
  ghost predicate Carries(c: Cluster, sent: map<NodeID, nat>, got: seq<Entry>, i: nat) {
    && i < |got|
    && var id := got[i].id;
       && id in sent && id in c
       && var p := Slot(sent, got, i);
          p in c[id].replica.log && c[id].replica.log[p] == ItemOf(got[i])
  }

  /** The log position the i-th entry of a reply will get, given the clocks of the request. */
  function Slot(sent: map<NodeID, nat>, got: seq<Entry>, i: nat): Pos
    requires i < |got| && got[i].id in sent
  {
    Pos(got[i].id, sent[got[i].id] + 1 + Count(got[..i], got[i].id))
  }

  ghost predicate CarriesAll(c: Cluster, s: Session) {
    s.Sync? ==> forall i :: 0 <= i < |s.got| ==> Carries(c, s.sent, s.got, i)
  }

  ghost predicate Prefixed(c: Cluster) {
    && Sound(c)
    && (forall n {:trigger PrefixedAt(c, n)} :: n in c ==> PrefixedAt(c, n))
    && (forall n, o {:trigger FollowsAt(c, n, o)} :: n in c && o in c ==> FollowsAt(c, n, o))
  }

  ghost predicate PrefixedAt(c: Cluster, n: NodeID) {
    && n in c
    && Gapless(c[n].replica) && CarriesAll(c, c[n].session)
  }

  ghost predicate FollowsAt(c: Cluster, n: NodeID, o: NodeID) {
    && n in c && o in c
    && Follows(c[n].replica, c[o].replica, o)
  }

  ghost predicate AllLive(c: Cluster) {
    forall n, p :: n in c && p in c[n].replica.log ==> c[n].replica.HasLog(p, c[n].now)
  }

  // ---------- scanning a log without holes ----------

  lemma {:induction false} ScanAtLeast(
    st: Replica, id: NodeID, after: nat, limit: int, now: nat, found: seq<nat>, i: nat)
    requires Scan(st, id, after, limit, now, found) && i < |found|
    ensures found[i] >= after + 1 + i
  {
    if i > 0 { ScanAtLeast(st, id, after, limit, now, found, i - 1); }
  }

  lemma {:induction false} ScanConsecutive(
    st: Replica, id: NodeID, after: nat, limit: int, now: nat, found: seq<nat>, i: nat)
    requires Scan(st, id, after, limit, now, found) && i < |found|
    requires Gapless(st) && Stamped(st)
    requires forall p :: p in st.log ==> st.HasLog(p, now)
    ensures found[i] == after + 1 + i
  {
    ScanAtLeast(st, id, after, limit, now, found, i);
    if i > 0 { ScanConsecutive(st, id, after, limit, now, found, i - 1); }
    var c := after + 1 + i;
    assert st.HasLog(Pos(id, found[i]), now);
    assert Pos(id, c) in st.log;
    if c in found {
      var k :| 0 <= k < |found| && found[k] == c;
    }
  }

  // ---------- applying a batch ----------

  /** Inserting the entry the origin logged next keeps the prefix; so does an entry for another origin. */
  lemma EntryDelivered(st: Replica, e: Entry, now: nat, origin: Replica, o: NodeID, next: nat)
    requires Insert(st, e, now).Ok? && Stamped(origin)
    requires Follows(st, origin, o) && next == st.Clock(o) + 1
    requires e.id == o ==> Pos(o, next) in origin.log && origin.log[Pos(o, next)] == ItemOf(e)
    ensures Follows(Insert(st, e, now).value, origin, o)
  {
    var st' := Insert(st, e, now).value;
    forall p | p in st'.log && p.id == o ensures p in origin.log && st'.log[p] == origin.log[p] {
      if p in st.log && p != Pos(o, next) {
        assert st'.log[p] == st.log[p];
      }
    }
  }

  /** The i-th entry of `es`, if it is for `o`, is the one the origin logged under the clock it will get. */
  ghost predicate Delivers(st: Replica, es: seq<Entry>, origin: Replica, o: NodeID, i: nat) {
    && i < |es|
    && (es[i].id == o ==>
      var p := Pos(o, st.Clock(o) + 1 + Count(es[..i], o));
      p in origin.log && origin.log[p] == ItemOf(es[i]))
  }

  ghost predicate DeliversAll(st: Replica, es: seq<Entry>, origin: Replica, o: NodeID) {
    forall i :: 0 <= i < |es| ==> Delivers(st, es, origin, o, i)
  }

  lemma DeliversFront(st: Replica, es: seq<Entry>, origin: Replica, o: NodeID)
    requires DeliversAll(st, es, origin, o) && es != []
    ensures DeliversAll(st, es[..|es| - 1], origin, o)
    ensures es[|es| - 1].id == o ==>
              var p := Pos(o, st.Clock(o) + 1 + Count(es[..|es| - 1], o));
              p in origin.log && origin.log[p] == ItemOf(es[|es| - 1])
  {
    var front := es[..|es| - 1];
    forall i | 0 <= i < |front| ensures Delivers(st, front, origin, o, i) {
      assert Delivers(st, es, origin, o, i) && front[..i] == es[..i];
    }
    assert Delivers(st, es, origin, o, |es| - 1);
  }

  lemma {:induction false} BatchFollows(st: Replica, es: seq<Entry>, now: nat, origin: Replica, o: NodeID)
    requires Stamped(origin) && Follows(st, origin, o) && DeliversAll(st, es, origin, o)
    requires InsertAll(st, es, now).Ok?
    ensures Follows(InsertAll(st, es, now).value, origin, o)
  {
    if es != [] {
      var front, last := es[..|es| - 1], es[|es| - 1];
      DeliversFront(st, es, origin, o);
      BatchFollows(st, front, now, origin, o);
      var mid := InsertAll(st, front, now).value;
      InsertAllClocks(st, front, now, o);
      EntryDelivered(mid, last, now, origin, o, mid.Clock(o) + 1);
    }
  }

  // ---------- steps ----------

  lemma CarriedDelivers(c: Cluster, n: NodeID, o: NodeID, i: nat)
    requires n in c && o in c && c[n].session.Sync? && Current(c, n)
    requires Carries(c, c[n].session.sent, c[n].session.got, i)
    ensures Delivers(c[n].replica, c[n].session.got, c[o].replica, o, i)
  {
  }

  lemma ApplyFollows(c: Cluster, n: NodeID, o: NodeID)
    requires n in c && o in c && o != n && c[n].session.Sync?
    requires Current(c, n) && CarriesAll(c, c[n].session)
    requires Stamped(c[o].replica) && Follows(c[n].replica, c[o].replica, o)
    requires InsertAll(c[n].replica, c[n].session.got, c[n].now).Ok?
    ensures Follows(InsertAll(c[n].replica, c[n].session.got, c[n].now).value, c[o].replica, o)
  {
    var got := c[n].session.got;
    forall i | 0 <= i < |got| ensures Delivers(c[n].replica, got, c[o].replica, o, i) {
      assert Carries(c, c[n].session.sent, got, i);
      CarriedDelivers(c, n, o, i);
    }
    BatchFollows(c[n].replica, got, c[n].now, c[o].replica, o);
  }

  /** Nothing leaves the log. */
  ghost predicate Keeps(before: Replica, after: Replica) {
    forall p :: p in before.log ==> p in after.log && after.log[p] == before.log[p]
  }

  lemma {:induction false} BatchKeeps(st: Replica, es: seq<Entry>, now: nat)
    requires Stamped(st) && InsertAll(st, es, now).Ok?
    ensures Keeps(st, InsertAll(st, es, now).value) && Stamped(InsertAll(st, es, now).value)
  {
    if es != [] {
      BatchKeeps(st, es[..|es| - 1], now);
      InsertStamps(InsertAll(st, es[..|es| - 1], now).value, es[|es| - 1], now);
    }
  }

  lemma StepKeeps(c: Cluster, a: Action)
    requires Enabled(c, a) && !a.Remove? && Stamped(c[a.node].replica)
    ensures Keeps(c[a.node].replica, NextNode(c, a).replica)
  {
    var n := c[a.node];
    if a.Apply? && InsertAll(n.replica, n.session.got, n.now).Ok? {
      BatchKeeps(n.replica, n.session.got, n.now);
    }
  }

  /** What a peer ships is what the origin logged, in the origin's order. */
  lemma ShippedItem(p: Replica, origin: Replica, id: NodeID, after: nat, limit: int, now: nat, found: seq<nat>, k: nat)
    requires Scan(p, id, after, limit, now, found) && k < |found|
    requires Law(p, now) && Gapless(p) && Follows(p, origin, id)
    requires forall x :: x in p.log ==> p.HasLog(x, now)
    requires Ship(p, id, found, now).Some?
    ensures k < |Ship(p, id, found, now).value|
    ensures var e := Ship(p, id, found, now).value[k];
            && e.id == id
            && Pos(id, after + 1 + k) in origin.log && origin.log[Pos(id, after + 1 + k)] == ItemOf(e)
  {
    ShipLaw(p, id, found, now);
    assert found[k] == after + 1 + k by { ScanConsecutive(p, id, after, limit, now, found, k); }
    assert p.HasLog(Pos(id, found[k]), now);
    LiveItem(p, now, Pos(id, found[k]));
  }

  lemma LiveItem(st: Replica, now: nat, p: Pos)
    requires Law(st, now) && st.HasLog(p, now)
    ensures var key := st.log[p].key;
            st.Has(key, now) && st.log[p] == ItemOf(Entry(p.id, key, st.records[key]))
  {
  }

  lemma AppendRank(got: seq<Entry>, es: seq<Entry>, id: NodeID, k: nat)
    requires k <= |es|
    requires forall i :: 0 <= i < |got| ==> got[i].id != id
    requires forall i :: 0 <= i < |es| ==> es[i].id == id
    ensures Count((got + es)[..|got| + k], id) == k
  {
    assert (got + es)[..|got| + k] == got + es[..k];
    CountAppend(got, es[..k], id);
    CountUniform(es[..k], id, id);
    CountNone(got, id);
  }

  /** The entries of `es` are, in order, what the origin logged past `after`. */
  ghost predicate Continues(es: seq<Entry>, origin: Replica, id: NodeID, after: nat) {
    forall k :: 0 <= k < |es| ==> ContinuesAt(es[k], origin, id, after + 1 + k)
  }

  ghost predicate ContinuesAt(e: Entry, origin: Replica, id: NodeID, clock: nat) {
    e.id == id && Pos(id, clock) in origin.log && origin.log[Pos(id, clock)] == ItemOf(e)
  }

  lemma CarriesAppend(c: Cluster, s: Session, es: seq<Entry>, id: NodeID)
    requires s.Sync? && CarriesAll(c, s) && id in s.sent && id in c
    requires forall i :: 0 <= i < |s.got| ==> s.got[i].id != id
    requires Continues(es, c[id].replica, id, s.sent[id])
    ensures forall i :: 0 <= i < |s.got + es| ==> Carries(c, s.sent, s.got + es, i)
  {
    forall i | 0 <= i < |s.got + es| ensures Carries(c, s.sent, s.got + es, i) {
      if i < |s.got| {
        assert Carries(c, s.sent, s.got, i);
        assert (s.got + es)[..i] == s.got[..i];
      } else {
        var k := i - |s.got|;
        AppendRank(s.got, es, id, k);
        assert ContinuesAt(es[k], c[id].replica, id, s.sent[id] + 1 + k);
      }
    }
  }

  lemma ShippedContinues(p: Replica, origin: Replica, id: NodeID, after: nat, limit: int, now: nat, found: seq<nat>)
    requires Scan(p, id, after, limit, now, found)
    requires Law(p, now) && Gapless(p) && Follows(p, origin, id)
    requires forall x :: x in p.log ==> p.HasLog(x, now)
    requires Ship(p, id, found, now).Some?
    ensures Continues(Ship(p, id, found, now).value, origin, id, after)
  {
    var es := Ship(p, id, found, now).value;
    ShipLaw(p, id, found, now);
    forall k | 0 <= k < |es| ensures ContinuesAt(es[k], origin, id, after + 1 + k) {
      ShippedItem(p, origin, id, after, limit, now, found, k);
    }
  }

  lemma AnswerCarries(c: Cluster, a: Action)
    requires Enabled(c, a) && a.Answer? && Current(c, a.node) && CarriesAll(c, c[a.node].session)
    requires var p := c[c[a.node].session.peer];
             && Law(p.replica, p.now) && Gapless(p.replica)
             && a.id in c && Follows(p.replica, c[a.id].replica, a.id)
             && forall x :: x in p.replica.log ==> p.replica.HasLog(x, p.now)
    ensures CarriesAll(c, NextNode(c, a).session)
  {
    var s := c[a.node].session;
    var p := c[s.peer];
    var shipped := Ship(p.replica, a.id, a.found, p.now);
    if shipped.Some? {
      ShippedContinues(p.replica, c[a.id].replica, a.id, s.sent[a.id], p.limit, p.now, a.found);
      CarriesAppend(c, s, shipped.value, a.id);
    }
  }

  lemma SessionCarries(c: Cluster, a: Action)
    requires Prefixed(c) && AllLive(c) && Enabled(c, a)
    ensures CarriesAll(c, NextNode(c, a).session)
  {
    assert SoundAt(c, a.node) && PrefixedAt(c, a.node);
    if a.Answer? {
      var peer := c[a.node].session.peer;
      assert SoundAt(c, peer) && PrefixedAt(c, peer);
      assert a.id in c[a.node].replica.clocks;
      assert FollowsAt(c, peer, a.id);
      AnswerCarries(c, a);
    }
  }

  lemma StepCarries(c: Cluster, a: Action, c': Cluster, n: NodeID)
    requires Prefixed(c) && AllLive(c) && Enabled(c, a) && !a.Remove? && c' == Next(c, a) && n in c
    ensures CarriesAll(c', c'[n].session)
  {
    assert SoundAt(c, a.node) && PrefixedAt(c, n);
    StepKeeps(c, a);
    SessionCarries(c, a);
    var s := c'[n].session;
    if s.Sync? {
      forall i | 0 <= i < |s.got| ensures Carries(c', s.sent, s.got, i) {
        assert Carries(c, s.sent, s.got, i);
      }
    }
  }

  lemma StepPairs(c: Cluster, a: Action, c': Cluster, n: NodeID, o: NodeID)
    requires Prefixed(c) && Enabled(c, a) && !a.Remove? && c' == Next(c, a) && n in c && o in c
    ensures FollowsAt(c', n, o)
  {
    assert SoundAt(c, a.node) && SoundAt(c, o) && PrefixedAt(c, a.node) && FollowsAt(c, n, o);
    if n == a.node && o != a.node {
      if a.Apply? && InsertAll(c[n].replica, c[n].session.got, c[n].now).Ok? { ApplyFollows(c, n, o); }
    } else if n != a.node && o == a.node {
      StepKeeps(c, a);
      StepLaw(c, a);
    }
  }

  lemma StepPrefixed(c: Cluster, a: Action, c': Cluster)
    requires Prefixed(c) && AllLive(c) && Enabled(c, a) && !a.Remove? && c' == Next(c, a)
    ensures Prefixed(c')
  {
    StepSound(c, a, c');
    forall n | n in c' ensures PrefixedAt(c', n) {
      assert SoundAt(c, n) && PrefixedAt(c, n);
      if n == a.node { StepLaw(c, a); }
      StepCarries(c, a, c', n);
    }
    forall n, o | n in c' && o in c' ensures FollowsAt(c', n, o) {
      StepPairs(c, a, c', n, o);
    }
  }

  // ---------- the theorem ----------

  /** A run in which nothing is deleted and nothing has expired at the moments up to `i`. */
  ghost predicate Lasting(cs: seq<Cluster>, acts: seq<Action>, i: nat) {
    && |cs| == |acts| + 1 && i < |cs|
    && (forall k :: 0 <= k < i ==> !acts[k].Remove?)
    && (forall k :: 0 <= k < i ==> AllLive(cs[k]))
  }

  lemma {:induction false} RunPrefixed(cs: seq<Cluster>, acts: seq<Action>, i: nat)
    requires Run(cs, acts) && Init(cs[0]) && i < |cs| && Lasting(cs, acts, i)
    ensures Prefixed(cs[i])
  {
    if i > 0 {
      RunPrefixed(cs, acts, i - 1);
      assert Moves(cs, acts, i - 1);
      StepPrefixed(cs[i - 1], acts[i - 1], cs[i]);
    }
  }

  /**
    For any number of nodes and any interleaving of puts, syncs, lost replies, failed batches and
    admin updates: the log a node holds for an origin is exactly what the origin logged up to the
    node's clock for it.
  */
  lemma LogsArePrefixes(cs: seq<Cluster>, acts: seq<Action>, i: nat, n: NodeID, o: NodeID, k: nat)
    requires Run(cs, acts) && Init(cs[0]) && i < |cs| && Lasting(cs, acts, i)
    requires n in cs[i] && o in cs[i]
    ensures cs[i][n].replica.Clock(o) <= cs[i][o].replica.Clock(o)
    ensures Pos(o, k) in cs[i][n].replica.log <==> 1 <= k <= cs[i][n].replica.Clock(o)
    ensures Pos(o, k) in cs[i][n].replica.log ==>
              && Pos(o, k) in cs[i][o].replica.log
              && cs[i][n].replica.log[Pos(o, k)] == cs[i][o].replica.log[Pos(o, k)]
  {
    RunPrefixed(cs, acts, i);
    assert SoundAt(cs[i], n) && PrefixedAt(cs[i], n) && FollowsAt(cs[i], n, o);
    assert Pos(o, k).clock == k;
  }
}
