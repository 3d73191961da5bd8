/**
  A node's outgoing synchronization with one peer, over the two nodes' databases, and the proof that
  each such synchronization is a run of the replication protocol.
*/
module Nodes {
  import opened Types
  import opened Replicas
  import opened DatabaseLaws
  import opened Representation
  import opened Cluster
  import opened Database
  import opened NodeDatabase

  // ---------- answering a request ----------

  /** One entry for each clock, in any order. */
  ghost predicate IsRequest(request: seq<RequestEntry>, clocks: map<NodeID, nat>) {
    && (forall i, j :: 0 <= i < j < |request| ==> request[i].id != request[j].id)
    && (forall e :: e in request <==> e.id in clocks && e.clock == clocks[e.id])
  }

  /** The peer's scans for the first k entries. A negative limit does not limit. */
  ghost predicate Scans(st: Replica, limit: int, now: nat, request: seq<RequestEntry>, founds: seq<seq<nat>>, k: nat)
  {
    && k <= |request|
    && k <= |founds| && forall i :: 0 <= i < k ==> ScansAt(st, limit, now, request, founds, i)
  }

  ghost predicate ScansAt(st: Replica, limit: int, now: nat, request: seq<RequestEntry>, founds: seq<seq<nat>>, i: nat)
  {
    && i < |request| && i < |founds|
    && Scan(st, request[i].id, AskedAfter(request[i].clock), limit, now, founds[i])
  }

  /** What the peer ships for the first k entries. */
  ghost function Replied(
    st: Replica, now: nat, request: seq<RequestEntry>, founds: seq<seq<nat>>, k: nat): Option<seq<Entry>>
    requires k <= |request| && k <= |founds|
  {
    if k == 0 then Some([])
    else
      var front := Replied(st, now, request, founds, k - 1);
      var shipped := Ship(st, request[k - 1].id, founds[k - 1], now);
      if front.None? || shipped.None? then None else Some(front.value + shipped.value)
  }

  lemma {:induction false} RepliedGrows(
    st: Replica, now: nat, request: seq<RequestEntry>, founds: seq<seq<nat>>, more: seq<seq<nat>>, k: nat)
    requires k <= |request| && k <= |founds|
    ensures Replied(st, now, request, founds + more, k) == Replied(st, now, request, founds, k)
  {
    if k > 0 { RepliedGrows(st, now, request, founds, more, k - 1); }
  }

  /** The log positions behind the first k answers. */
  ghost function Sent(request: seq<RequestEntry>, founds: seq<seq<nat>>, k: nat): set<Pos>
    requires k <= |request| && k <= |founds|
  {
    set i, c | 0 <= i < k && c in founds[i] :: Pos(request[i].id, c)
  }

  ghost function Clocks(id: NodeID, found: seq<nat>): set<Pos> {
    set c | c in found :: Pos(id, c)
  }

  lemma {:induction false} ClocksCount(id: NodeID, found: seq<nat>)
    requires forall i, j :: 0 <= i < j < |found| ==> found[i] < found[j]
    ensures |Clocks(id, found)| == |found|
  {
    if found != [] {
      var front, last := found[..|found| - 1], found[|found| - 1];
      ClocksCount(id, front);
      assert found == front + [last];
      assert Clocks(id, found) == Clocks(id, front) + {Pos(id, last)};
      assert Pos(id, last) !in Clocks(id, front);
    }
  }

  /** Every entry of the reply has a log position of its own. */
  lemma {:induction false} RepliedBound(
      st: Replica, limit: int, now: nat, request: seq<RequestEntry>, founds: seq<seq<nat>>, k: nat)
    requires k <= |request| && Scans(st, limit, now, request, founds, k) && Intact(st, now)
    requires forall i, j :: 0 <= i < j < |request| ==> request[i].id != request[j].id
    ensures Replied(st, now, request, founds, k).Some?
    ensures |Replied(st, now, request, founds, k).value| == |Sent(request, founds, k)|
    ensures Sent(request, founds, k) <= st.log.Keys
  {
    if k > 0 {
      RepliedBound(st, limit, now, request, founds, k - 1);
      assert ScansAt(st, limit, now, request, founds, k - 1);
      ShipSucceeds(st, request[k - 1].id, founds[k - 1], now);
      ShipLaw(st, request[k - 1].id, founds[k - 1], now);
      SentGrows(st, limit, now, request, founds, k);
    }
  }

  lemma SentGrows(st: Replica, limit: int, now: nat, request: seq<RequestEntry>, founds: seq<seq<nat>>, k: nat)
    requires 0 < k <= |request| && k <= |founds| && ScansAt(st, limit, now, request, founds, k - 1)
    requires forall i, j :: 0 <= i < j < |request| ==> request[i].id != request[j].id
    requires Sent(request, founds, k - 1) <= st.log.Keys
    ensures |Sent(request, founds, k)| == |Sent(request, founds, k - 1)| + |founds[k - 1]|
    ensures Sent(request, founds, k) <= st.log.Keys
  {
    var id, found := request[k - 1].id, founds[k - 1];
    ClocksCount(id, found);
    assert Sent(request, founds, k) == Sent(request, founds, k - 1) + Clocks(id, found);
    assert Sent(request, founds, k - 1) !! Clocks(id, found);
    forall p | p in Clocks(id, found) ensures p in st.log.Keys { assert st.HasLog(p, now); }
  }

  lemma OneMore(
    st: Replica, limit: int, now: nat, request: seq<RequestEntry>, founds: seq<seq<nat>>, found: seq<nat>,
    entries: seq<Entry>, i: nat)
    requires i < |request| && |founds| == i && Scans(st, limit, now, request, founds, i)
    requires Replied(st, now, request, founds, i).Some?
    requires Scan(st, request[i].id, AskedAfter(request[i].clock), limit, now, found)
    requires Ship(st, request[i].id, found, now) == Some(entries)
    ensures Scans(st, limit, now, request, founds + [found], i + 1)
    ensures Replied(st, now, request, founds + [found], i + 1)
         == Some(Replied(st, now, request, founds, i).value + entries)
  {
    RepliedGrows(st, now, request, founds, [found], i);
    forall j | 0 <= j <= i ensures ScansAt(st, limit, now, request, founds + [found], j) {
      if j < i { assert ScansAt(st, limit, now, request, founds, j); }
    }
  }

  ghost predicate IsAnswer(
    st: Replica, limit: int, request: seq<RequestEntry>, now: nat, r: Result<seq<Entry>, StoreError>)
  {
    exists founds {:trigger AnswersWith(st, limit, request, now, founds, r)} ::
      AnswersWith(st, limit, request, now, founds, r)
  }

  ghost predicate AnswersWith(
    st: Replica, limit: int, request: seq<RequestEntry>, now: nat, founds: seq<seq<nat>>,
    r: Result<seq<Entry>, StoreError>)
  {
    && Scans(st, limit, now, request, founds, |request|)
    && Replied(st, now, request, founds, |request|).Some?
    && r == Ok(Replied(st, now, request, founds, |request|).value)
  }

  /** A node's answer: one scan and its records for every entry of the request. */
  method Replicate(db: DB, request: seq<RequestEntry>, now: nat)
    returns (r: Result<seq<Entry>, StoreError>, ghost founds: seq<seq<nat>>)
    requires db.Valid() && now < MAX_TIME && Intact(db.replica, now)
    ensures AnswersWith(db.replica, db.limit, request, now, founds, r)
    ensures r.Ok? && IsAnswer(db.replica, db.limit, request, now, r)
  {
    var response: seq<Entry> := [];
    founds := [];
    var i := 0;
    while i < |request|
      invariant i <= |request| && |founds| == i
      invariant Scans(db.replica, db.limit, now, request, founds, i)
      invariant Replied(db.replica, now, request, founds, i) == Some(response)
    {
      var entries, found := db.FindResponseEntries(request[i].id, request[i].clock, now);
      if entries.Err? { return Err(KeyNotFound), founds; }
      OneMore(db.replica, db.limit, now, request, founds, found, entries.value, i);
      founds := founds + [found];
      response := response + entries.value;
      i := i + 1;
    }
    r := Ok(response);
    assert AnswersWith(db.replica, db.limit, request, now, founds, r);
  }

  // ---------- synchronizing with a peer ----------

  datatype SyncError = SameID | EnsureFailed

  /** The replica after the peer's answer to the request is applied, or is refused as a whole. */
  ghost function Applied(st: Replica, now: nat, got: seq<Entry>, commits: bool): Replica {
    Settled(st, InsertAll(st, got, now), commits)
  }

  /** How a synchronization ends once the peer's clock is ensured. */
  datatype Ending = NoReply | Reply(request: seq<RequestEntry>, founds: seq<seq<nat>>, commits: bool)

  /** `after` is the replica `st` of node `n` after this ending. */
  ghost predicate SyncResult(
    st: Replica, now: nat, n: NodeID, remote: Replica, limit: int, remoteNow: nat, ending: Ending, after: Replica)
  {
    match ending
    case NoReply => after == st
    case Reply(request, founds, commits) =>
      && IsRequest(request, st.clocks - {n})
      && Scans(remote, limit, remoteNow, request, founds, |request|)
      && var got := Replied(remote, remoteNow, request, founds, |request|);
         got.Some? && after == Applied(st, now, got.value, commits)
  }

  lemma IsRequested(request: seq<RequestEntry>, clocks: map<NodeID, nat>, id: NodeID)
    requires forall i, j :: 0 <= i < j < |request| ==> request[i].id != request[j].id
    requires forall e :: e in request <==> e.id != id && e.id in clocks && e.clock == clocks[e.id]
    ensures IsRequest(request, clocks - {id})
  {
  }

  lemma ReplyResult(
    st: Replica, now: nat, n: NodeID, remote: Replica, limit: int, remoteNow: nat, ending: Ending, got: seq<Entry>)
    requires ending.Reply? && IsRequest(ending.request, st.clocks - {n})
    requires AnswersWith(remote, limit, ending.request, remoteNow, ending.founds, Ok(got))
    ensures SyncResult(st, now, n, remote, limit, remoteNow, ending, Applied(st, now, got, ending.commits))
  {
  }

  lemma EnsuredRoom(st: Replica, id: NodeID, n: nat)
    requires Room(st, n)
    ensures Room(Replicas.EnsureClock(st, id), n)
  {
    forall x: NodeID ensures Replicas.EnsureClock(st, id).Clock(x) + n <= MAX_CLOCK {
      assert st.Clock(x) + n <= MAX_CLOCK;
    }
  }

  class Peer {
    const node: DB
    const remote: DB
    var ensuredClock: bool

    ghost predicate Valid()
      reads this, node, remote
    {
      && node.Valid() && remote.Valid()
      && (node.id != remote.id ==> node != remote)
      && (ensuredClock ==> remote.id in node.replica.clocks)
    }

    constructor (node: DB, remote: DB)
      requires node.Valid() && remote.Valid() && (node.id != remote.id ==> node != remote)
      ensures Valid() && this.node == node && this.remote == remote
    {
      this.node, this.remote, ensuredClock := node, remote, false;
    }

    /** `up` says whether the peer answers the ping. */
    method PingClient(up: bool, now: nat, commits: bool) returns (r: Result<bool, SyncError>)
      requires Valid()
      modifies this, node
      ensures Valid()
      ensures r.Ok? && r.value ==>
                up && node.id != remote.id && node.replica == Replicas.EnsureClock(old(node.replica), remote.id)
      ensures r.Ok? && r.value ==> remote.id in node.replica.clocks && remote.replica == old(remote.replica)
      ensures !(r.Ok? && r.value) ==> node.replica == old(node.replica)
      ensures r == if !up then Ok(false)
                   else if node.id == remote.id then Err(SameID)
                   else if !old(ensuredClock) && !commits then Err(EnsureFailed)
                   else Ok(true)
    {
      if !up { return Ok(false); }
      if remote.id == node.id { return Err(SameID); }
      if !ensuredClock {
        var ensured := node.EnsureClock(remote.id, now, commits);
        if ensured.Err? { return Err(EnsureFailed); }
        ensuredClock := true;
      }
      return Ok(true);
    }

    /** Sends all clocks but the node's own and gets the peer's answer to them. */
    method Ask(now: nat, remoteNow: nat)
      returns (response: seq<Entry>, ghost request: seq<RequestEntry>, ghost founds: seq<seq<nat>>)
      requires Valid() && remoteNow < MAX_TIME && Intact(remote.replica, remoteNow)
      requires Room(node.replica, |remote.replica.log|)
      ensures IsRequest(request, node.replica.clocks - {node.id})
      ensures AnswersWith(remote.replica, remote.limit, request, remoteNow, founds, Ok(response))
      ensures Room(node.replica, |response|)
    {
      var built := node.BuildRequestEntries(now);
      request := built.value;
      IsRequested(request, node.replica.clocks, node.id);
      var answer;
      answer, founds := Replicate(remote, built.value, remoteNow);
      response := answer.value;
      FitsRoom(node.replica, remote.replica, remote.limit, remoteNow, request, founds, response);
    }

    method ApplyResponse(response: seq<Entry>, now: nat, commits: bool)
      requires Valid() && node.id != remote.id && now < MAX_TIME && Room(node.replica, |response|)
      modifies node
      ensures Valid() && remote.replica == old(remote.replica)
      ensures node.replica == Applied(old(node.replica), now, response, commits)
    {
      ClocksStay(node.replica, response, now, commits);
      var inserted := node.InsertResponseEntries(response, now, commits);
    }

    method Pull(now: nat, remoteNow: nat, commits: bool) returns (ghost ending: Ending)
      requires Valid() && node.id != remote.id && now < MAX_TIME && remoteNow < MAX_TIME
      requires Intact(remote.replica, remoteNow) && Room(node.replica, |remote.replica.log|)
      modifies node
      ensures Valid() && remote.replica == old(remote.replica)
      ensures ending.Reply? && ending.commits == commits
      ensures SyncResult(
                old(node.replica), now, node.id, remote.replica, remote.limit, remoteNow, ending, node.replica)
    {
      var response, request, founds := Ask(now, remoteNow);
      ending := Reply(request, founds, commits);
      ReplyResult(node.replica, now, node.id, remote.replica, remote.limit, remoteNow, ending, response);
      ApplyResponse(response, now, commits);
    }

    /** `replied` says whether an answer arrives; an answer that cannot be applied is dropped. */
    method SyncRecords(now: nat, remoteNow: nat, replied: bool, commits: bool) returns (ghost ending: Ending)
      requires Valid() && node.id != remote.id && now < MAX_TIME && remoteNow < MAX_TIME
      requires Intact(remote.replica, remoteNow) && Room(node.replica, |remote.replica.log|)
      modifies node
      ensures Valid() && ensuredClock == old(ensuredClock) && remote.replica == old(remote.replica)
      ensures ending.Reply? == replied && (replied ==> ending.commits == commits)
      ensures SyncResult(
                old(node.replica), now, node.id, remote.replica, remote.limit, remoteNow, ending, node.replica)
    {
      if !replied { return NoReply; }
      ending := Pull(now, remoteNow, commits);
    }

    /**
      One synchronization. Each boolean decides one failure: of the ping, of either transaction's commit,
      of the request. However it ends, the node's replica is the old one, the old one with the peer's
      clock ensured, or that with the whole answer applied.
    */
    method Sync(now: nat, remoteNow: nat, up: bool, ensured: bool, replied: bool, commits: bool)
      returns (ok: bool, ghost ending: Ending)
      requires Valid() && now < MAX_TIME && remoteNow < MAX_TIME
      requires Intact(remote.replica, remoteNow) && Room(node.replica, |remote.replica.log|)
      modifies this, node
      ensures Valid()
      ensures ok == (!up || (node.id != remote.id && (old(ensuredClock) || ensured)))
      ensures !up || !ok ==> node.replica == old(node.replica)
      ensures up && ok ==> ending.Reply? == replied && (replied ==> ending.commits == commits)
      ensures up && ok ==>
                var st := Replicas.EnsureClock(old(node.replica), remote.id);
                SyncResult(st, now, node.id, remote.replica, remote.limit, remoteNow, ending, node.replica)
    {
      ending := NoReply;
      var pinged := PingClient(up, now, ensured);
      if pinged.Err? { return false, NoReply; }
      if !pinged.value { return true, NoReply; }
      EnsuredRoom(old(node.replica), remote.id, |remote.replica.log|);
      ending := SyncRecords(now, remoteNow, replied, commits);
      return true, ending;
    }
  }

  /** No reply has more entries than the peer's log. */
  lemma FitsRoom(st: Replica, remote: Replica, limit: int, now: nat, request: seq<RequestEntry>, founds: seq<seq<nat>>,
                 got: seq<Entry>)
    requires Scans(remote, limit, now, request, founds, |request|) && Intact(remote, now)
    requires forall i, j :: 0 <= i < j < |request| ==> request[i].id != request[j].id
    requires Replied(remote, now, request, founds, |request|) == Some(got) && Room(st, |remote.log|)
    ensures Room(st, |got|)
  {
    RepliedBound(remote, limit, now, request, founds, |request|);
    Fewer(Sent(request, founds, |request|), remote.log.Keys);
    assert |remote.log.Keys| == |remote.log|;
    forall x: NodeID ensures st.Clock(x) + |got| <= MAX_CLOCK {
      assert st.Clock(x) + |remote.log| <= MAX_CLOCK;
    }
  }

  lemma {:induction false} InsertAllKeepsClocks(st: Replica, es: seq<Entry>, now: nat)
    requires InsertAll(st, es, now).Ok?
    ensures st.clocks.Keys <= InsertAll(st, es, now).value.clocks.Keys
  {
    if es != [] { InsertAllKeepsClocks(st, es[..|es| - 1], now); }
  }

  lemma ClocksStay(st: Replica, es: seq<Entry>, now: nat, commits: bool)
    ensures st.clocks.Keys <= Applied(st, now, es, commits).clocks.Keys
  {
    if InsertAll(st, es, now).Ok? { InsertAllKeepsClocks(st, es, now); }
  }

  // ---------- a synchronization is a run of the protocol ----------

  ghost predicate RunsTo(cs: seq<Cluster>, acts: seq<Action>, from: Cluster, to: Cluster) {
    Run(cs, acts) && cs[0] == from && cs[|acts|] == to
  }

  lemma Extend(cs: seq<Cluster>, acts: seq<Action>, from: Cluster, to: Cluster, a: Action, next: Cluster)
    returns (cs': seq<Cluster>, acts': seq<Action>)
    requires RunsTo(cs, acts, from, to) && Enabled(to, a) && next == Next(to, a)
    ensures RunsTo(cs', acts', from, next)
  {
    cs', acts' := cs + [next], acts + [a];
    forall i | 0 <= i < |acts'| ensures Moves(cs', acts', i) {
      if i < |acts| { assert Moves(cs, acts, i); }
    }
  }

  /** The scans of the first k answers, by id. */
  ghost function Sources(request: seq<RequestEntry>, founds: seq<seq<nat>>, k: nat): map<NodeID, seq<nat>>
    requires k <= |request| && k <= |founds|
  {
    if k == 0 then map[] else Sources(request, founds, k - 1)[request[k - 1].id := founds[k - 1]]
  }

  lemma {:induction false} SourceIds(request: seq<RequestEntry>, founds: seq<seq<nat>>, k: nat, id: NodeID)
    requires k <= |request| && k <= |founds|
    ensures id in Sources(request, founds, k) <==> exists i :: 0 <= i < k && request[i].id == id
  {
    if k > 0 { SourceIds(request, founds, k - 1, id); }
  }

  /** The node has sent its clocks and gathered the first k answers. */
  ghost function Asking(
    c: Cluster, n: NodeID, p: NodeID, sent: map<NodeID, nat>, request: seq<RequestEntry>, founds: seq<seq<nat>>,
    k: nat): Cluster
    requires n in c && p in c && k <= |request| && k <= |founds|
    requires Replied(c[p].replica, c[p].now, request, founds, k).Some?
  {
    c[n := c[n].(session :=
      Sync(p, sent, Replied(c[p].replica, c[p].now, request, founds, k).value, Sources(request, founds, k)))]
  }

  lemma AnswerNext(
    c: Cluster, n: NodeID, p: NodeID, sent: map<NodeID, nat>, request: seq<RequestEntry>, founds: seq<seq<nat>>,
    k: nat)
    requires n in c && p in c && p != n && k < |request|
    requires IsRequest(request, sent) && (forall id :: id in sent ==> sent[id] < MAX_CLOCK)
    requires Scans(c[p].replica, c[p].limit, c[p].now, request, founds, |request|)
    requires Replied(c[p].replica, c[p].now, request, founds, k).Some?
    requires Replied(c[p].replica, c[p].now, request, founds, k + 1).Some?
    ensures var at := Asking(c, n, p, sent, request, founds, k);
            var a := Answer(n, request[k].id, founds[k]);
            Enabled(at, a) && Next(at, a) == Asking(c, n, p, sent, request, founds, k + 1)
  {
    assert request[k] in request;
    assert ScansAt(c[p].replica, c[p].limit, c[p].now, request, founds, k);
    SourceIds(request, founds, k, request[k].id);
  }

  lemma AnswerRun(
    c: Cluster, n: NodeID, p: NodeID, sent: map<NodeID, nat>, request: seq<RequestEntry>, founds: seq<seq<nat>>,
    k: nat, cs: seq<Cluster>, acts: seq<Action>, from: Cluster)
    returns (cs': seq<Cluster>, acts': seq<Action>)
    requires n in c && p in c && p != n && k < |request|
    requires IsRequest(request, sent) && (forall id :: id in sent ==> sent[id] < MAX_CLOCK)
    requires Scans(c[p].replica, c[p].limit, c[p].now, request, founds, |request|)
    requires Replied(c[p].replica, c[p].now, request, founds, k).Some?
    requires Replied(c[p].replica, c[p].now, request, founds, k + 1).Some?
    requires RunsTo(cs, acts, from, Asking(c, n, p, sent, request, founds, k))
    ensures RunsTo(cs', acts', from, Asking(c, n, p, sent, request, founds, k + 1))
  {
    AnswerNext(c, n, p, sent, request, founds, k);
    cs', acts' := Extend(cs, acts, from, Asking(c, n, p, sent, request, founds, k),
                         Answer(n, request[k].id, founds[k]), Asking(c, n, p, sent, request, founds, k + 1));
  }

  lemma {:induction false} AnswersRun(
    c: Cluster, n: NodeID, p: NodeID, sent: map<NodeID, nat>, request: seq<RequestEntry>, founds: seq<seq<nat>>,
    k: nat, cs: seq<Cluster>, acts: seq<Action>, from: Cluster)
    returns (cs': seq<Cluster>, acts': seq<Action>)
    requires n in c && p in c && p != n && k <= |request| && Intact(c[p].replica, c[p].now)
    requires IsRequest(request, sent) && (forall id :: id in sent ==> sent[id] < MAX_CLOCK)
    requires Scans(c[p].replica, c[p].limit, c[p].now, request, founds, |request|)
    requires RunsTo(cs, acts, from, c[n := c[n].(session := Sync(p, sent, [], map[]))])
    ensures Replied(c[p].replica, c[p].now, request, founds, k).Some?
    ensures RunsTo(cs', acts', from, Asking(c, n, p, sent, request, founds, k))
  {
    RepliedBound(c[p].replica, c[p].limit, c[p].now, request, founds, k);
    if k == 0 {
      cs', acts' := cs, acts;
    } else {
      cs', acts' := AnswersRun(c, n, p, sent, request, founds, k - 1, cs, acts, from);
      cs', acts' := AnswerRun(c, n, p, sent, request, founds, k - 1, cs', acts', from);
    }
  }

  /** Ensuring the peer's clock and building the request. */
  lemma BeginRun(
    c: Cluster, n: NodeID, p: NodeID, st: Replica, c1: Cluster) returns (cs: seq<Cluster>, acts: seq<Action>)
    requires n in c && p in c && p != n && c[n].session.Idle?
    requires st == Replicas.EnsureClock(c[n].replica, p)
    requires c1 == c[n := c[n].(replica := st, session := Sync(p, st.clocks - {n}, [], map[]))]
    ensures RunsTo(cs, acts, c, c1)
  {
    var mid := c[n := c[n].(replica := st)];
    cs, acts := [c], [];
    cs, acts := Extend(cs, acts, c, c, Ensure(n, p), mid);
    cs, acts := Extend(cs, acts, c, mid, Build(n, p), c1);
  }

  /** The end of a session: the answer is applied, or lost. */
  lemma FinishRun(
    c: Cluster, n: NodeID, p: NodeID, sent: map<NodeID, nat>, request: seq<RequestEntry>, founds: seq<seq<nat>>,
    commits: bool)
    returns (a: Action)
    requires n in c && p in c && p != n
    requires IsRequest(request, sent) && (forall id :: id in sent ==> sent[id] < MAX_CLOCK) && |founds| >= |request|
    requires Replied(c[p].replica, c[p].now, request, founds, |request|).Some?
    ensures var got := Replied(c[p].replica, c[p].now, request, founds, |request|).value;
            var at := Asking(c, n, p, sent, request, founds, |request|);
            && Enabled(at, a) && Next(at, a).Keys == c.Keys
            && Next(at, a)[n].replica == Applied(c[n].replica, c[n].now, got, commits)
            && Next(at, a)[n].session.Idle?
            && forall m :: m in c && m != n ==> Next(at, a)[m] == c[m]
  {
    var at := Asking(c, n, p, sent, request, founds, |request|);
    if commits {
      a := Apply(n);
      forall id ensures id in sent.Keys <==> id in Sources(request, founds, |request|).Keys {
        SourceIds(request, founds, |request|, id);
        if id in sent { assert RequestEntry(id, sent[id]) in request; }
        if i :| 0 <= i < |request| && request[i].id == id { assert request[i] in request; }
      }
    } else {
      a := Lose(n);
    }
  }

  /** The node's replica in this cluster after a synchronization with this ending. */
  ghost predicate EndsIn(c: Cluster, n: NodeID, p: NodeID, ending: Ending, after: Replica) {
    && n in c && p in c
    && var st := Replicas.EnsureClock(c[n].replica, p);
       SyncResult(st, c[n].now, n, c[p].replica, c[p].limit, c[p].now, ending, after)
  }

  /** A synchronization takes the cluster from `from` to `to`: it ends idle, and no other node has changed. */
  ghost predicate SyncsTo(from: Cluster, to: Cluster, n: NodeID, after: Replica) {
    && n in from
    && to.Keys == from.Keys && to[n].session.Idle? && to[n].replica == after
    && forall m :: m in from && m != n ==> to[m] == from[m]
  }

  lemma ReplyIsRun(c: Cluster, n: NodeID, p: NodeID, ending: Ending, after: Replica)
    returns (cs: seq<Cluster>, acts: seq<Action>)
    requires n in c && p in c && p != n && c[n].session.Idle? && ending.Reply?
    requires Intact(c[p].replica, c[p].now) && (forall id: NodeID :: c[n].replica.Clock(id) < MAX_CLOCK)
    requires EndsIn(c, n, p, ending, after)
    ensures Run(cs, acts) && cs[0] == c && SyncsTo(c, cs[|acts|], n, after)
  {
    var Reply(request, founds, commits) := ending;
    var st := Replicas.EnsureClock(c[n].replica, p);
    var sent := st.clocks - {n};
    var c1 := c[n := c[n].(replica := st)];
    forall id | id in sent ensures sent[id] < MAX_CLOCK { assert c[n].replica.Clock(id) < MAX_CLOCK; }
    cs, acts := BeginRun(c, n, p, st, c1[n := c1[n].(session := Sync(p, sent, [], map[]))]);
    cs, acts := AnswersRun(c1, n, p, sent, request, founds, |request|, cs, acts, c);
    var a := FinishRun(c1, n, p, sent, request, founds, commits);
    var at := Asking(c1, n, p, sent, request, founds, |request|);
    cs, acts := Extend(cs, acts, c, at, a, Next(at, a));
  }

  /** Whatever a synchronization does to the node, with or without a reply, a run of the protocol does. */
  lemma SyncIsRun(c: Cluster, n: NodeID, p: NodeID, ending: Ending, after: Replica)
    returns (cs: seq<Cluster>, acts: seq<Action>)
    requires n in c && p in c && p != n && c[n].session.Idle?
    requires Intact(c[p].replica, c[p].now) && (forall id: NodeID :: c[n].replica.Clock(id) < MAX_CLOCK)
    requires EndsIn(c, n, p, ending, after)
    ensures Run(cs, acts) && cs[0] == c && SyncsTo(c, cs[|acts|], n, after)
  {
    if ending.Reply? {
      cs, acts := ReplyIsRun(c, n, p, ending, after);
    } else {
      var c1 := c[n := c[n].(replica := after, session := Sync(p, after.clocks - {n}, [], map[]))];
      cs, acts := BeginRun(c, n, p, after, c1);
      cs, acts := Extend(cs, acts, c, c1, Lose(n), Next(c1, Lose(n)));
    }
  }

  lemma Concatenate(cs: seq<Cluster>, acts: seq<Action>, more: seq<Cluster>, moreActs: seq<Action>)
    requires Run(cs, acts) && Run(more, moreActs) && more[0] == cs[|acts|]
    ensures Run(cs + more[1..], acts + moreActs)
    ensures (cs + more[1..])[|acts + moreActs|] == more[|moreActs|] && (cs + more[1..])[0] == cs[0]
  {
    var all, allActs := cs + more[1..], acts + moreActs;
    forall i | 0 <= i < |allActs| ensures Moves(all, allActs, i) {
      if i < |acts| {
        assert Moves(cs, acts, i);
      } else {
        assert Moves(more, moreActs, i - |acts|);
      }
    }
  }

  /** So a synchronization takes any run from the initial state to another one, of which all theorems speak. */
  lemma SyncContinuesRun(cs: seq<Cluster>, acts: seq<Action>, n: NodeID, p: NodeID, ending: Ending, after: Replica)
    returns (all: seq<Cluster>, allActs: seq<Action>)
    requires Run(cs, acts) && Init(cs[0])
    requires var c := cs[|acts|];
             && n in c && p in c && p != n && c[n].session.Idle?
             && (forall id: NodeID :: c[n].replica.Clock(id) < MAX_CLOCK) && EndsIn(c, n, p, ending, after)
    ensures Run(all, allActs) && Init(all[0]) && all[0] == cs[0]
    ensures SyncsTo(cs[|acts|], all[|allActs|], n, after)
  {
    var c := cs[|acts|];
    RunSound(cs, acts, |acts|);
    assert SoundAt(c, p);
    var more, moreActs := SyncIsRun(c, n, p, ending, after);
    Concatenate(cs, acts, more, moreActs);
    all, allActs := cs + more[1..], acts + moreActs;
  }
}
