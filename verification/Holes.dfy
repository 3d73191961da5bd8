/** Expiry and deletion make holes in an origin's log. Who is supplied by nodes that agree with it skips no live one. */
module Holes {
  import opened Types
  import opened Replicas
  import opened DatabaseLaws
  import opened Cluster
  import opened PrefixSafety
  import opened Refusals

  /** Live entries only die; entries that appear later lie beyond the clock. */
  ghost predicate Ages(before: Node, after: Node) {
    Grows(before.replica, after.replica) && before.now <= after.now
  }

  /**
    What `o` answered past clock `after`: its log clocks in order, none of its live entries up to the
    last of them missing, and a receipt for each one that is still logged.
  */
  ghost predicate Window(origin: Node, o: NodeID, after: nat, found: seq<nat>, receipts: set<Receipt>) {
    && (forall i :: 0 <= i < |found| ==> after < found[i] <= origin.replica.Clock(o))
    && (forall i, j :: 0 <= i < j < |found| ==> found[i] < found[j])
    && (found != [] ==> forall k: nat ::
          after < k <= found[|found| - 1] && origin.replica.HasLog(Pos(o, k), origin.now) ==> k in found)
    && (forall k :: k in found && Pos(o, k) in origin.replica.log ==>
          Receipt(o, k, origin.replica.log[Pos(o, k)].key) in receipts)
  }

  /** The receipts a node will have once it has applied what it got. */
  ghost function Held(s: Session): set<Receipt>
    requires s.Sync?
  {
    Receipts(s.got, s.src)
  }

  ghost predicate Complete(c: Cluster, n: NodeID, o: NodeID) {
    && n in c && o in c && n != o
    && c[n].replica.Clock(o) <= c[o].replica.Clock(o)
    && (forall k: nat :: k <= c[n].replica.Clock(o) && c[o].replica.HasLog(Pos(o, k), c[o].now) ==>
          Receipt(o, k, c[o].replica.log[Pos(o, k)].key) in c[n].seen)
    && (c[n].session.Sync? && o in c[n].session.src && o in c[n].session.sent ==>
          Window(c[o], o, c[n].session.sent[o], c[n].session.src[o], Held(c[n].session)))
  }

  /** As far as the log of `o` in `p` goes, it has all live entries of `o` under their own clocks. */
  ghost predicate Agrees(p: Node, origin: Node, o: NodeID) {
    && p.replica.Clock(o) <= origin.replica.Clock(o)
    && (forall k: nat :: Pos(o, k) in p.replica.log && Pos(o, k) in origin.replica.log ==>
          p.replica.log[Pos(o, k)].key == origin.replica.log[Pos(o, k)].key)
    && (forall k: nat :: k <= p.replica.Clock(o) && origin.replica.HasLog(Pos(o, k), origin.now) ==>
          p.replica.HasLog(Pos(o, k), p.now))
  }

  /** A third node that supplies `n` with entries of `o` agrees with the live log of `o`. */
  ghost predicate Aligned(c: Cluster, a: Action, n: NodeID, o: NodeID) {
    a.Answer? && a.node == n && a.id == o && n in c && c[n].session.Sync? && c[n].session.peer != o ==>
      a.found == [] || (c[n].session.peer in c && o in c && Agrees(c[c[n].session.peer], c[o], o))
  }

  ghost predicate AlignedRun(cs: seq<Cluster>, acts: seq<Action>, n: NodeID, o: NodeID, i: nat) {
    && i <= |acts| < |cs|
    && forall k {:trigger Aligned(cs[k], acts[k], n, o)} :: 0 <= k < i ==> Aligned(cs[k], acts[k], n, o)
  }

  // ---------- one step ----------

  lemma WindowAges(before: Node, after: Node, o: NodeID, from: nat, found: seq<nat>, receipts: set<Receipt>)
    requires Window(before, o, from, found, receipts) && Ages(before, after)
    ensures Window(after, o, from, found, receipts)
  {
    assert before.replica.Clock(o) <= after.replica.Clock(o);
    forall k: nat | from < k && after.replica.HasLog(Pos(o, k), after.now) && found != [] && k <= found[|found| - 1]
      ensures k in found
    {
      assert before.replica.HasLog(Pos(o, k), before.now);
    }
  }

  /** An answer keeps the receipts of the answers before it and adds one for each of its own entries. */
  lemma ReceiptsGrow(got: seq<Entry>, src: map<NodeID, seq<nat>>, es: seq<Entry>, id: NodeID, found: seq<nat>)
    requires id !in src && |es| == |found|
    requires forall i :: 0 <= i < |got| ==> got[i].id in src
    requires forall i :: 0 <= i < |es| ==> es[i].id == id
    ensures Receipts(got, src) <= Receipts(got + es, src[id := found])
    ensures forall k :: 0 <= k < |es| ==> Receipt(id, found[k], es[k].key) in Receipts(got + es, src[id := found])
  {
    var all, more := got + es, src[id := found];
    forall r | r in Receipts(got, src) ensures r in Receipts(all, more) {
      var i :| 0 <= i < |got| && r == Receipt(got[i].id, SourceClock(got, src, i), got[i].key);
      assert all[i] == got[i] && all[..i] == got[..i];
    }
    forall k | 0 <= k < |es| ensures Receipt(id, found[k], es[k].key) in Receipts(all, more) {
      AppendRank(got, es, id, k);
      assert all[|got| + k] == es[k] && SourceClock(all, more, |got| + k) == found[k];
    }
  }

  lemma AnswerWindow(p: Node, origin: Node, o: NodeID, after: nat, found: seq<nat>, receipts: set<Receipt>)
    requires Stamped(p.replica) && Scan(p.replica, o, after, p.limit, p.now, found)
    requires Agrees(p, origin, o) && Stamped(origin.replica)
    requires Ship(p.replica, o, found, p.now).Some?
    requires var es := Ship(p.replica, o, found, p.now).value;
             forall k :: 0 <= k < |es| && k < |found| ==> Receipt(o, found[k], es[k].key) in receipts
    ensures Window(origin, o, after, found, receipts)
  {
    var es := Ship(p.replica, o, found, p.now).value;
    ShipLaw(p.replica, o, found, p.now);
    forall i | 0 <= i < |found| ensures after < found[i] <= p.replica.Clock(o) {
      assert p.replica.HasLog(Pos(o, found[i]), p.now);
    }
    forall k: nat | found != [] && after < k <= found[|found| - 1] && origin.replica.HasLog(Pos(o, k), origin.now)
      ensures k in found
    {
      assert p.replica.HasLog(Pos(o, k), p.now);
    }
    forall k | k in found && Pos(o, k) in origin.replica.log
      ensures Receipt(o, k, origin.replica.log[Pos(o, k)].key) in receipts
    {
      var i :| 0 <= i < |found| && found[i] == k;
      assert es[i].key == p.replica.log[Pos(o, k)].key;
    }
  }

  lemma {:induction false} WindowReaches(
    origin: Node, o: NodeID, after: nat, found: seq<nat>, receipts: set<Receipt>, i: nat)
    requires Window(origin, o, after, found, receipts) && i < |found|
    ensures after + 1 + i <= found[i] <= origin.replica.Clock(o)
  {
    if i > 0 { WindowReaches(origin, o, after, found, receipts, i - 1); }
  }

  /** The origin takes a step: what was received stays complete. */
  lemma OriginStep(c: Cluster, a: Action, n: NodeID, o: NodeID)
    requires Complete(c, n, o) && Enabled(c, a) && a.node == o && SoundAt(c, o)
    ensures Complete(Next(c, a), n, o)
  {
    var after := NextNode(c, a);
    StepLaw(c, a);
    assert Ages(c[o], after);
    assert c[o].replica.Clock(o) <= after.replica.Clock(o);
    forall k: nat | k <= c[n].replica.Clock(o) && after.replica.HasLog(Pos(o, k), after.now)
      ensures Receipt(o, k, after.replica.log[Pos(o, k)].key) in c[n].seen
    {
      assert c[o].replica.HasLog(Pos(o, k), c[o].now);
    }
    var s := c[n].session;
    if s.Sync? && o in s.src && o in s.sent {
      WindowAges(c[o], after, o, s.sent[o], s.src[o], Held(s));
    }
  }

  lemma ApplyStep(c: Cluster, n: NodeID, o: NodeID)
    requires Complete(c, n, o) && Enabled(c, Apply(n)) && SoundAt(c, n)
    ensures Complete(Next(c, Apply(n)), n, o)
  {
    var s := c[n].session;
    if InsertAll(c[n].replica, s.got, c[n].now).Ok? {
      InsertAllClocks(c[n].replica, s.got, c[n].now, o);
      if o in s.src {
        AppliedWindow(c, n, o);
      } else {
        CountNone(s.got, o);
      }
    }
  }

  lemma AppliedWindow(c: Cluster, n: NodeID, o: NodeID)
    requires Complete(c, n, o) && SoundAt(c, n) && c[n].session.Sync? && o in c[n].session.src
    ensures c[n].replica.Clock(o) + |c[n].session.src[o]| <= c[o].replica.Clock(o)
    ensures forall k: nat ::
              k <= c[n].replica.Clock(o) + |c[n].session.src[o]| && c[o].replica.HasLog(Pos(o, k), c[o].now) ==>
              Receipt(o, k, c[o].replica.log[Pos(o, k)].key) in c[n].seen + Held(c[n].session)
  {
    var s := c[n].session;
    var found := s.src[o];
    if found != [] {
      WindowReaches(c[o], o, s.sent[o], found, Held(s), |found| - 1);
    }
  }

  /** What a node holds after an answer. */
  lemma AnswerHeld(c: Cluster, a: Action, n: NodeID, es: seq<Entry>)
    requires Enabled(c, a) && a.Answer? && a.node == n && Current(c, n)
    requires var p := c[c[n].session.peer]; Ship(p.replica, a.id, a.found, p.now) == Some(es)
    ensures var s := NextNode(c, a).session;
            && s.Sync? && Held(c[n].session) <= Held(s)
            && |es| == |a.found| && forall k :: 0 <= k < |es| ==> Receipt(a.id, a.found[k], es[k].key) in Held(s)
  {
    var p := c[c[n].session.peer];
    ShipLaw(p.replica, a.id, a.found, p.now);
    ReceiptsGrow(c[n].session.got, c[n].session.src, es, a.id, a.found);
  }

  lemma AnswerWindows(c: Cluster, a: Action, n: NodeID, o: NodeID, s: Session)
    requires Complete(c, n, o) && Enabled(c, a) && a.Answer? && a.node == n && s == NextNode(c, a).session
    requires SoundAt(c, o) && SoundAt(c, n) && SoundAt(c, c[n].session.peer) && Aligned(c, a, n, o)
    requires s.Sync? && o in s.src && o in s.sent
    ensures Window(c[o], o, s.sent[o], s.src[o], Held(s))
  {
    var p := c[c[n].session.peer];
    var es := Ship(p.replica, a.id, a.found, p.now).value;
    AnswerHeld(c, a, n, es);
    if a.id != o {
      WindowKeeps(c[o], o, s.sent[o], s.src[o], Held(c[n].session), Held(s));
    } else if c[n].session.peer == o || Agrees(p, c[o], o) {
      AnswerWindow(p, c[o], o, s.sent[o], a.found, Held(s));
    }
  }

  lemma WindowKeeps(origin: Node, o: NodeID, from: nat, found: seq<nat>, few: set<Receipt>, many: set<Receipt>)
    requires Window(origin, o, from, found, few) && few <= many
    ensures Window(origin, o, from, found, many)
  {
  }

  lemma AnswerStep(c: Cluster, a: Action, n: NodeID, o: NodeID)
    requires Complete(c, n, o) && Enabled(c, a) && a.Answer? && a.node == n && Aligned(c, a, n, o)
    requires SoundAt(c, o) && SoundAt(c, n) && SoundAt(c, c[n].session.peer)
    ensures Complete(Next(c, a), n, o)
  {
    var s := NextNode(c, a).session;
    if s.Sync? && o in s.src && o in s.sent { AnswerWindows(c, a, n, o, s); }
  }

  lemma StepComplete(c: Cluster, a: Action, c': Cluster, n: NodeID, o: NodeID)
    requires Sound(c) && Complete(c, n, o) && Enabled(c, a) && c' == Next(c, a) && Aligned(c, a, n, o)
    ensures Complete(c', n, o)
  {
    assert SoundAt(c, n) && SoundAt(c, o);
    if a.node == o {
      OriginStep(c, a, n, o);
    } else if a.node == n {
      if a.Answer? {
        assert SoundAt(c, c[n].session.peer);
        AnswerStep(c, a, n, o);
      } else if a.Apply? {
        ApplyStep(c, n, o);
      }
    }
  }

  // ---------- whole runs ----------

  lemma {:induction false} RunComplete(cs: seq<Cluster>, acts: seq<Action>, i: nat, n: NodeID, o: NodeID)
    requires Run(cs, acts) && Init(cs[0]) && n in cs[0] && o in cs[0] && n != o
    requires AlignedRun(cs, acts, n, o, i)
    ensures Complete(cs[i], n, o)
  {
    if i > 0 {
      RunComplete(cs, acts, i - 1, n, o);
      RunSound(cs, acts, i - 1);
      assert Moves(cs, acts, i - 1) && Aligned(cs[i - 1], acts[i - 1], n, o);
      StepComplete(cs[i - 1], acts[i - 1], cs[i], n, o);
    }
  }

  /**
    In any run, deletions and expiry included, in which `n` gets the entries of `o` from `o` or from
    nodes that agree with it: the clock of `n` for `o` never passes the clock of `o`, and every entry of
    `o` that is still live and at or below the clock of `n` has been received.
  */
  lemma NothingLiveIsSkipped(cs: seq<Cluster>, acts: seq<Action>, i: nat, n: NodeID, o: NodeID, k: nat)
    requires Run(cs, acts) && Init(cs[0]) && n in cs[0] && o in cs[0] && n != o
    requires AlignedRun(cs, acts, n, o, i)
    ensures n in cs[i] && o in cs[i]
    ensures cs[i][n].replica.Clock(o) <= cs[i][o].replica.Clock(o)
    ensures k <= cs[i][n].replica.Clock(o) && cs[i][o].replica.HasLog(Pos(o, k), cs[i][o].now) ==>
              Receipt(o, k, cs[i][o].replica.log[Pos(o, k)].key) in cs[i][n].seen
  {
    RunComplete(cs, acts, i, n, o);
  }

  /** Without deletion and expiry, relays always agree with the origin. */
  lemma LastingIsAligned(cs: seq<Cluster>, acts: seq<Action>, i: nat, n: NodeID, o: NodeID)
    requires Run(cs, acts) && Init(cs[0]) && i < |cs| && Lasting(cs, acts, i) && o in cs[0]
    ensures AlignedRun(cs, acts, n, o, i)
  {
    forall k | 0 <= k < i ensures Aligned(cs[k], acts[k], n, o) {
      RunSound(cs, acts, k);
      RunPrefixed(cs, acts, k);
      assert Moves(cs, acts, k) && AllLive(cs[k]);
      if acts[k].Answer? && acts[k].node == n {
        var p := cs[k][n].session.peer;
        assert FollowsAt(cs[k], p, o) && PrefixedAt(cs[k], p) && SoundAt(cs[k], o);
      }
    }
  }

  /**
    Ending a sync moves the clock for `o` by the number of its entries in the reply and stores their
    records if every entry is accepted, and does nothing otherwise; it never passes the origin's clock.
  */
  lemma ApplyMoves(cs: seq<Cluster>, acts: seq<Action>, i: nat, n: NodeID, o: NodeID)
    requires Run(cs, acts) && Init(cs[0]) && n in cs[0] && o in cs[0] && n != o
    requires i < |acts| && AlignedRun(cs, acts, n, o, i) && acts[i] == Apply(n)
    requires n in cs[i] && cs[i][n].session.Sync? && o in cs[i][n].session.src
    ensures o in cs[i] && n in cs[i + 1] && o in cs[i + 1]
    ensures var got := cs[i][n].session.got;
            var taken := forall j :: 0 <= j < |got| ==> Accepts(cs[i][n].replica, got, cs[i][n].now, j);
            && cs[i + 1][n].replica.Clock(o)
            == cs[i][n].replica.Clock(o) + (if taken then |cs[i][n].session.src[o]| else 0)
            && (taken ==> Stores(cs[i + 1][n].replica, got, cs[i][n].now))
            && (!taken ==> cs[i + 1][n].replica == cs[i][n].replica)
    ensures cs[i + 1][n].replica.Clock(o) <= cs[i + 1][o].replica.Clock(o) == cs[i][o].replica.Clock(o)
  {
    RunSound(cs, acts, i);
    RunComplete(cs, acts, i, n, o);
    assert Moves(cs, acts, i) && SoundAt(cs[i], n);
    BatchExact(cs[i][n].replica, cs[i][n].session.got, cs[i][n].now);
    if InsertAll(cs[i][n].replica, cs[i][n].session.got, cs[i][n].now).Ok? {
      InsertAllClocks(cs[i][n].replica, cs[i][n].session.got, cs[i][n].now, o);
      AppliedWindow(cs[i], n, o);
      BatchStores(cs[i][n].replica, cs[i][n].session.got, cs[i][n].now);
    }
  }

  /**
    While keys keep their records, though entries may be deleted and expire, every pull that brings
    entries of `o` makes the gap strictly smaller, by their number.
  */
  lemma PullsCloseTheGap(cs: seq<Cluster>, acts: seq<Action>, i: nat, n: NodeID, o: NodeID)
    requires Run(cs, acts) && Init(cs[0]) && n in cs[0] && o in cs[0] && n != o
    requires i < |acts| && AlignedRun(cs, acts, n, o, i) && Steady(cs, acts, i) && acts[i] == Apply(n)
    requires n in cs[i] && cs[i][n].session.Sync? && o in cs[i][n].session.src
    ensures o in cs[i] && n in cs[i + 1] && o in cs[i + 1]
    ensures Lag(cs[i + 1], n, o) == Lag(cs[i], n, o) - |cs[i][n].session.src[o]| >= 0
    ensures |cs[i][n].session.src[o]| > 0 ==> Lag(cs[i + 1], n, o) < Lag(cs[i], n, o)
    ensures var records := cs[i + 1][n].replica.records;
            forall e :: e in cs[i][n].session.got ==> e.key in records && records[e.key] == e.record
  {
    ApplyMoves(cs, acts, i, n, o);
    SteadyNeverRefuses(cs, acts, i);
    assert Moves(cs, acts, i);
    BatchExact(cs[i][n].replica, cs[i][n].session.got, cs[i][n].now);
  }
}
