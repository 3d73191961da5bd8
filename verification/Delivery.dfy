/**
  Delivery despite holes: once an origin puts nothing new, a node that keeps pulling from it has all of
  its live entries after at most one pull more than the gap between their clocks.
*/
module Delivery {
  import opened Types
  import opened Replicas
  import opened DatabaseLaws
  import opened Cluster
  import opened Refusals
  import opened Convergence
  import opened Holes

  /** The origin has nothing live past the node's clock for it. */
  ghost predicate Caught(c: Cluster, n: NodeID, o: NodeID) {
    && n in c && o in c
    && forall k: nat :: c[o].replica.HasLog(Pos(o, k), c[o].now) ==> k <= c[n].replica.Clock(o)
  }

  /** An empty answer of the origin itself means that it has nothing live past the clock it was sent. */
  ghost predicate EmptyMeansNone(c: Cluster, n: NodeID, o: NodeID) {
    && n in c && o in c && c[o].limit != 0
    && var s := c[n].session;
       s.Sync? && s.peer == o && o in s.sent && o in s.src && s.src[o] == [] ==>
         forall k: nat :: c[o].replica.HasLog(Pos(o, k), c[o].now) ==> k <= s.sent[o]
  }

  ghost predicate NoPutsOf(acts: seq<Action>, q: nat, o: NodeID) {
    forall k {:trigger acts[k].Put?} :: q <= k < |acts| && acts[k].Put? ==> acts[k].node != o
  }

  /** Without puts an origin's live entries only become fewer. */
  lemma LiveShrinks(c: Cluster, a: Action, c': Cluster, o: NodeID, k: nat)
    requires Enabled(c, a) && c' == Next(c, a) && o in c && SoundAt(c, o) && !(a.Put? && a.node == o)
    requires c'[o].replica.HasLog(Pos(o, k), c'[o].now)
    ensures c[o].replica.HasLog(Pos(o, k), c[o].now)
  {
    if a.node == o {
      StepLaw(c, a);
      if Pos(o, k) !in c[o].replica.log { OwnEntryStep(c, a, o, Pos(o, k)); }
    }
  }

  lemma StepEmpty(c: Cluster, a: Action, c': Cluster, n: NodeID, o: NodeID)
    requires Sound(c) && Enabled(c, a) && c' == Next(c, a) && !(a.Put? && a.node == o)
    requires n != o && EmptyMeansNone(c, n, o)
    ensures EmptyMeansNone(c', n, o)
  {
    assert SoundAt(c, n) && SoundAt(c, o);
    var s := c'[n].session;
    if s.Sync? && s.peer == o && o in s.sent && o in s.src && s.src[o] == [] {
      forall k: nat | c'[o].replica.HasLog(Pos(o, k), c'[o].now) ensures k <= s.sent[o] {
        LiveShrinks(c, a, c', o, k);
      }
    }
  }

  lemma {:induction false} RunEmpty(cs: seq<Cluster>, acts: seq<Action>, b: nat, i: nat, n: NodeID, o: NodeID)
    requires Run(cs, acts) && Init(cs[0]) && b < i < |cs| && BuildsAt(acts, b, n) && NoPutsOf(acts, b, o)
    requires n in cs[b] && o in cs[b] && n != o && cs[b][o].limit != 0
    ensures EmptyMeansNone(cs[i], n, o)
  {
    RunSound(cs, acts, i - 1);
    assert Moves(cs, acts, i - 1);
    if b < i - 1 {
      RunEmpty(cs, acts, b, i - 1, n, o);
      assert acts[i - 1].Put? ==> acts[i - 1].node != o;
      StepEmpty(cs[i - 1], acts[i - 1], cs[i], n, o);
    }
  }

  /** One pull either makes the gap smaller, or there is nothing live left to pull. */
  lemma PullDelivers(cs: seq<Cluster>, acts: seq<Action>, b: nat, k: nat, n: NodeID, o: NodeID)
    requires Run(cs, acts) && Init(cs[0]) && n in cs[0] && o in cs[0] && n != o
    requires b < k < |acts| && BuildsAt(acts, b, n) && NoPutsOf(acts, b, o) && Pulls(cs, acts, k, n, o)
    requires AlignedRun(cs, acts, n, o, k) && Steady(cs, acts, k)
    requires n in cs[b] && o in cs[b] && cs[b][o].limit != 0
    ensures n in cs[k] && o in cs[k] && n in cs[k + 1] && o in cs[k + 1]
    ensures Caught(cs[k + 1], n, o) || Lag(cs[k + 1], n, o) < Lag(cs[k], n, o)
  {
    RunSound(cs, acts, k);
    assert Moves(cs, acts, k) && SoundAt(cs[k], n);
    RunEmpty(cs, acts, b, k, n, o);
    PullsCloseTheGap(cs, acts, k, n, o);
  }

  lemma CaughtStays(c: Cluster, a: Action, c': Cluster, n: NodeID, o: NodeID)
    requires Enabled(c, a) && c' == Next(c, a) && !(a.Put? && a.node == o)
    requires n in c && o in c && SoundAt(c, o) && SoundAt(c, n)
    ensures n in c' && o in c' && Lag(c', n, o) <= Lag(c, n, o) && c'[o].limit == c[o].limit
    ensures Caught(c, n, o) ==> Caught(c', n, o)
  {
    OwnClockQuiet(c, a, o);
    if a.node == n { StepLaw(c, a); }
    assert c[n].replica.Clock(o) <= c'[n].replica.Clock(o);
    if Caught(c, n, o) {
      forall k: nat | c'[o].replica.HasLog(Pos(o, k), c'[o].now) ensures k <= c'[n].replica.Clock(o) {
        LiveShrinks(c, a, c', o, k);
      }
    }
  }

  /** Once caught up always caught up, and the gap never grows. */
  lemma {:induction false} RunCaught(cs: seq<Cluster>, acts: seq<Action>, q: nat, i: nat, j: nat, n: NodeID, o: NodeID)
    requires Run(cs, acts) && Init(cs[0]) && q <= i <= j < |cs| && NoPutsOf(acts, q, o)
    requires n in cs[0] && o in cs[0] && n != o
    ensures n in cs[i] && o in cs[i] && n in cs[j] && o in cs[j]
    ensures Lag(cs[j], n, o) <= Lag(cs[i], n, o) && cs[j][o].limit == cs[i][o].limit
    ensures Caught(cs[i], n, o) ==> Caught(cs[j], n, o)
    decreases j
  {
    RunSound(cs, acts, i);
    if i < j {
      RunCaught(cs, acts, q, i, j - 1, n, o);
      RunSound(cs, acts, j - 1);
      assert Moves(cs, acts, j - 1) && SoundAt(cs[j - 1], o) && SoundAt(cs[j - 1], n);
      assert acts[j - 1].Put? ==> acts[j - 1].node != o;
      CaughtStays(cs[j - 1], acts[j - 1], cs[j], n, o);
    }
  }

  /** Steps `ks` end, in this order, syncs of `n` with `o` that began after `q`. */
  ghost predicate PullsAt(cs: seq<Cluster>, acts: seq<Action>, q: nat, ks: seq<nat>, n: NodeID, o: NodeID) {
    && (forall j, l :: 0 <= j < l < |ks| ==> ks[j] < ks[l])
    && forall j {:trigger ks[j]} :: 0 <= j < |ks| ==> PullSince(cs, acts, q, ks[j], n, o)
  }

  ghost predicate PullSince(cs: seq<Cluster>, acts: seq<Action>, q: nat, k: nat, n: NodeID, o: NodeID) {
    Pulls(cs, acts, k, n, o) && exists b {:trigger BuildsAt(acts, b, n)} :: q <= b < k && BuildsAt(acts, b, n)
  }

  /** The moment after the first j pulls. */
  function MomentAfter(q: nat, ks: seq<nat>, j: nat): nat {
    if 0 < j <= |ks| then ks[j - 1] + 1 else q
  }

  lemma {:induction false} PullsDeliver(
    cs: seq<Cluster>, acts: seq<Action>, q: nat, ks: seq<nat>, j: nat, n: NodeID, o: NodeID)
    requires Run(cs, acts) && Init(cs[0]) && n in cs[0] && o in cs[0] && n != o
    requires q < |cs| && n in cs[q] && o in cs[q] && cs[q][o].limit != 0
    requires AlignedRun(cs, acts, n, o, |acts|) && Steady(cs, acts, |acts|) && NoPutsOf(acts, q, o)
    requires PullsAt(cs, acts, q, ks, n, o) && j <= |ks|
    ensures var m := MomentAfter(q, ks, j);
            && q <= m < |cs| && n in cs[m] && o in cs[m]
            && (Caught(cs[m], n, o) || Lag(cs[m], n, o) <= Lag(cs[q], n, o) - j)
  {
    if j > 0 {
      PullsDeliver(cs, acts, q, ks, j - 1, n, o);
      var k, m := ks[j - 1], MomentAfter(q, ks, j - 1);
      assert PullSince(cs, acts, q, k, n, o);
      assert q <= m <= k by { if j > 1 { assert ks[j - 2] < ks[j - 1]; } }
      var b :| q <= b < k && BuildsAt(acts, b, n);
      RunCaught(cs, acts, q, q, b, n, o);
      RunCaught(cs, acts, q, m, k, n, o);
      RunCaught(cs, acts, q, k, k + 1, n, o);
      PullDelivers(cs, acts, b, k, n, o);
    }
  }

  /**
    In any run in which keys keep their records and the entries of `o` reach `n` from `o` or from nodes
    that agree with it, deletions and expiry included: if `o` puts nothing after moment `q`, then once `n`
    has pulled from `o` itself one time more than its gap at `q`, it has received every entry of `o` that
    is still live, then and for ever.
  */
  lemma AllLiveDelivered(
    cs: seq<Cluster>, acts: seq<Action>, q: nat, ks: seq<nat>, i: nat, k: nat, n: NodeID, o: NodeID)
    requires Run(cs, acts) && Init(cs[0]) && n in cs[0] && o in cs[0] && n != o
    requires q < |cs| && n in cs[q] && o in cs[q] && cs[q][o].limit != 0
    requires AlignedRun(cs, acts, n, o, |acts|) && Steady(cs, acts, |acts|) && NoPutsOf(acts, q, o)
    requires PullsAt(cs, acts, q, ks, n, o) && |ks| > Lag(cs[q], n, o) && MomentAfter(q, ks, |ks|) <= i < |cs|
    ensures n in cs[i] && o in cs[i]
    ensures cs[i][o].replica.HasLog(Pos(o, k), cs[i][o].now) ==>
              Receipt(o, k, cs[i][o].replica.log[Pos(o, k)].key) in cs[i][n].seen
  {
    var m := MomentAfter(q, ks, |ks|);
    PullsDeliver(cs, acts, q, ks, |ks|, n, o);
    RunComplete(cs, acts, m, n, o);
    RunCaught(cs, acts, q, m, i, n, o);
    NothingLiveIsSkipped(cs, acts, i, n, o, k);
  }
}
