/** Once puts stop, rounds of all nodes pulling from all make all clocks, logs and, without updates, records equal. */
module Convergence {
  import opened Types
  import opened Replicas
  import opened DatabaseLaws
  import opened Cluster
  import opened PrefixSafety
  import opened Refusals

  // ---------- one log position per key ----------

  /** Where a key was logged. */
  type Places = map<KeyHash, Pos>

  ghost predicate Placed(st: Replica, places: Places) {
    && (forall p :: p in st.log ==>
          var k := st.log[p].key; k in places && places[k] == p && k in st.records)
    && (forall k :: k in st.records ==>
          k in places && places[k] in st.log && st.log[places[k]].key == k)
  }

  ghost predicate PlacedAt(c: Cluster, places: Places, n: NodeID) {
    && n in c
    && Placed(c[n].replica, places)
  }

  ghost predicate PlacedCluster(c: Cluster, places: Places) {
    && (forall n {:trigger PlacedAt(c, places, n)} :: n in c ==> PlacedAt(c, places, n))
    && (forall k :: k in places ==>
          !(ENGINE_PREFIX <= k.bytes) && places[k].id in c && k in c[places[k].id].replica.records)
  }

  /** A key no node has a record for. */
  ghost predicate Fresh(c: Cluster, key: KeyHash) {
    forall n :: n in c ==> key !in c[n].replica.records
  }

  /** Every key is put once, nothing is deleted or expired. */
  ghost predicate Orderly(c: Cluster, a: Action) {
    AllLive(c) && !a.Remove? && (a.Put? ==> Fresh(c, a.key))
  }

  // ---------- applying a batch never fails ----------

  /** Replies are in order, so each entry is the expected one when its turn comes. */
  ghost predicate Timely(st: Replica, es: seq<Entry>, places: Places, i: nat) {
    && i < |es|
    && var e := es[i];
       && e.record.state == CREATED && !(ENGINE_PREFIX <= e.key.bytes)
       && e.key in places && places[e.key] == Pos(e.id, st.Clock(e.id) + 1 + Count(es[..i], e.id))
  }

  lemma InsertPlaced(st: Replica, e: Entry, now: nat, places: Places)
    requires Stamped(st) && Placed(st, places) && e.record.state == CREATED && !(ENGINE_PREFIX <= e.key.bytes)
    requires e.key in places && places[e.key] == Pos(e.id, st.Clock(e.id) + 1)
    ensures Insert(st, e, now).Ok? && Placed(Insert(st, e, now).value, places)
  {
    assert Pos(e.id, st.Clock(e.id) + 1) !in st.log && e.key !in st.records;
  }

  lemma {:induction false} BatchSucceeds(st: Replica, es: seq<Entry>, now: nat, places: Places)
    requires Stamped(st) && Placed(st, places)
    requires forall i :: 0 <= i < |es| ==> Timely(st, es, places, i)
    ensures InsertAll(st, es, now).Ok?
    ensures Stamped(InsertAll(st, es, now).value) && Placed(InsertAll(st, es, now).value, places)
  {
    if es != [] {
      var front, last := es[..|es| - 1], es[|es| - 1];
      forall i | 0 <= i < |front| ensures Timely(st, front, places, i) {
        assert Timely(st, es, places, i) && front[..i] == es[..i];
      }
      BatchSucceeds(st, front, now, places);
      InsertAllClocks(st, front, now, last.id);
      assert Timely(st, es, places, |es| - 1);
      var mid := InsertAll(st, front, now).value;
      InsertPlaced(mid, last, now, places);
      InsertStamps(mid, last, now);
    }
  }

  lemma ReplyTimely(c: Cluster, n: NodeID, places: Places, i: nat)
    requires Prefixed(c) && PlacedCluster(c, places)
    requires n in c && c[n].session.Sync? && i < |c[n].session.got|
    ensures Timely(c[n].replica, c[n].session.got, places, i)
  {
    var s := c[n].session;
    assert SoundAt(c, n) && PrefixedAt(c, n) && Carries(c, s.sent, s.got, i);
    var id := s.got[i].id;
    assert SoundAt(c, id) && PlacedAt(c, places, id);
    assert c[n].replica.Clock(id) == s.sent[id];
    assert Slot(s.sent, s.got, i) in c[id].replica.log;
  }

  lemma ApplySucceeds(c: Cluster, n: NodeID, places: Places)
    requires Prefixed(c) && PlacedCluster(c, places)
    requires n in c && c[n].session.Sync?
    ensures var r := InsertAll(c[n].replica, c[n].session.got, c[n].now);
            r.Ok? && Placed(r.value, places)
  {
    forall i | 0 <= i < |c[n].session.got| ensures Timely(c[n].replica, c[n].session.got, places, i) {
      ReplyTimely(c, n, places, i);
    }
    assert SoundAt(c, n) && PlacedAt(c, places, n);
    BatchSucceeds(c[n].replica, c[n].session.got, c[n].now, places);
  }

  // ---------- orderly runs keep keys in their places ----------

  ghost function PlacesAfter(c: Cluster, a: Action, places: Places): Places
    requires Enabled(c, a)
  {
    if a.Put? && Insert(c[a.node].replica, Entry(a.node, a.key, a.record), c[a.node].now).Ok?
    then places[a.key := Pos(a.node, c[a.node].replica.Clock(a.node) + 1)]
    else places
  }

  lemma PutPlaced(st: Replica, e: Entry, now: nat, places: Places)
    requires Stamped(st) && Placed(st, places) && e.key !in places
    requires Insert(st, e, now).Ok?
    ensures Placed(Insert(st, e, now).value, places[e.key := Pos(e.id, st.Clock(e.id) + 1)])
  {
    var next := Pos(e.id, st.Clock(e.id) + 1);
    var st' := Insert(st, e, now).value;
    var places' := places[e.key := next];
    forall p | p in st'.log
      ensures var k := st'.log[p].key; k in places' && places'[k] == p && k in st'.records
    {
      if p != next { assert p in st.log && st'.log[p] == st.log[p]; }
    }
    forall k | k in st'.records
      ensures k in places' && places'[k] in st'.log && st'.log[places'[k]].key == k
    {
      if k != e.key { assert k in st.records && places[k] in st.log; }
    }
  }

  lemma StepPlacedPut(c: Cluster, a: Action, c': Cluster, places: Places, n: NodeID)
    requires Enabled(c, a) && c' == Next(c, a) && n in c && a.Put? && a.key !in places
    requires PlacedAt(c, places, n) && Stamped(c[n].replica)
    ensures PlacedAt(c', PlacesAfter(c, a, places), n)
  {
    var e := Entry(a.node, a.key, a.record);
    if n == a.node && Insert(c[n].replica, e, c[n].now).Ok? {
      PutPlaced(c[n].replica, e, c[n].now, places);
    }
  }

  lemma StepPlacedAt(c: Cluster, a: Action, c': Cluster, places: Places, n: NodeID)
    requires Prefixed(c) && PlacedCluster(c, places) && Orderly(c, a)
    requires Enabled(c, a) && c' == Next(c, a) && n in c
    ensures PlacedAt(c', PlacesAfter(c, a, places), n)
  {
    assert PlacedAt(c, places, n) && SoundAt(c, n);
    if a.Put? {
      StepPlacedPut(c, a, c', places, n);
    } else if n == a.node && a.Apply? {
      ApplySucceeds(c, n, places);
    }
  }

  lemma {:induction false} BatchKeepsRecords(st: Replica, es: seq<Entry>, now: nat)
    requires InsertAll(st, es, now).Ok?
    ensures st.records.Keys <= InsertAll(st, es, now).value.records.Keys
  {
    if es != [] { BatchKeepsRecords(st, es[..|es| - 1], now); }
  }

  lemma StepKeepsRecords(c: Cluster, a: Action)
    requires Enabled(c, a) && !a.Remove?
    ensures c[a.node].replica.records.Keys <= NextNode(c, a).replica.records.Keys
  {
    var n := c[a.node];
    if a.Apply? && InsertAll(n.replica, n.session.got, n.now).Ok? {
      BatchKeepsRecords(n.replica, n.session.got, n.now);
    }
  }

  lemma StepPlaced(c: Cluster, a: Action, c': Cluster, places: Places)
    requires Prefixed(c) && PlacedCluster(c, places) && Orderly(c, a)
    requires Enabled(c, a) && c' == Next(c, a)
    ensures PlacedCluster(c', PlacesAfter(c, a, places))
  {
    forall n | n in c' ensures PlacedAt(c', PlacesAfter(c, a, places), n) {
      StepPlacedAt(c, a, c', places, n);
    }
    forall k | k in PlacesAfter(c, a, places)
      ensures !(ENGINE_PREFIX <= k.bytes)
      ensures var n := PlacesAfter(c, a, places)[k].id; n in c' && k in c'[n].replica.records
    {
      if k in places { StepKeepsRecords(c, a); }
    }
  }

  /** A run in which, up to moment `i`, every key is put once and nothing is deleted or expired. */
  ghost predicate OrderlyRun(cs: seq<Cluster>, acts: seq<Action>, i: nat) {
    && Run(cs, acts) && Init(cs[0]) && i < |cs|
    && forall k {:trigger Orderly(cs[k], acts[k])} :: 0 <= k < i ==> Orderly(cs[k], acts[k])
  }

  lemma OrderlyLasting(cs: seq<Cluster>, acts: seq<Action>, i: nat)
    requires OrderlyRun(cs, acts, i)
    ensures Lasting(cs, acts, i)
  {
    forall k | 0 <= k < i ensures !acts[k].Remove? && AllLive(cs[k]) {
      assert Orderly(cs[k], acts[k]);
    }
  }

  lemma {:induction false} RunPlaced(cs: seq<Cluster>, acts: seq<Action>, i: nat) returns (places: Places)
    requires OrderlyRun(cs, acts, i)
    ensures Prefixed(cs[i]) && PlacedCluster(cs[i], places)
  {
    OrderlyLasting(cs, acts, i);
    RunPrefixed(cs, acts, i);
    if i == 0 {
      places := map[];
    } else {
      var before := RunPlaced(cs, acts, i - 1);
      assert Moves(cs, acts, i - 1) && Orderly(cs[i - 1], acts[i - 1]);
      places := PlacesAfter(cs[i - 1], acts[i - 1], before);
      StepPlaced(cs[i - 1], acts[i - 1], cs[i], before);
    }
  }

  /** In an orderly run a node never fails to apply a reply, though records may be updated. */
  lemma AppliesNeverFail(cs: seq<Cluster>, acts: seq<Action>, i: nat)
    requires OrderlyRun(cs, acts, i) && i < |acts| && acts[i].Apply? && acts[i].node in cs[i]
    requires cs[i][acts[i].node].session.Sync?
    ensures var n := cs[i][acts[i].node]; InsertAll(n.replica, n.session.got, n.now).Ok?
  {
    var places := RunPlaced(cs, acts, i);
    ApplySucceeds(cs[i], acts[i].node, places);
  }

  lemma {:induction false} RecordsStay(cs: seq<Cluster>, acts: seq<Action>, j: nat, i: nat, n: NodeID)
    requires OrderlyRun(cs, acts, i) && j <= i && n in cs[j]
    ensures n in cs[i] && cs[j][n].replica.records.Keys <= cs[i][n].replica.records.Keys
  {
    if j < i {
      RecordsStay(cs, acts, j, i - 1, n);
      assert Moves(cs, acts, i - 1) && Orderly(cs[i - 1], acts[i - 1]);
      StepKeepsRecords(cs[i - 1], acts[i - 1]);
    }
  }

  lemma PutsOnce(cs: seq<Cluster>, acts: seq<Action>, j: nat, k: nat, key: KeyHash, q: Record, r: Record)
    requires j < k < |acts| && OrderlyRun(cs, acts, k + 1) && PutsAt(cs, acts, j, key, q)
    ensures !PutsAt(cs, acts, k, key, r)
  {
    assert Moves(cs, acts, j) && Orderly(cs[k], acts[k]);
    RecordsStay(cs, acts, j + 1, k, acts[j].node);
  }

  /** Putting each key once is putting it with one record. */
  lemma OrderlySteady(cs: seq<Cluster>, acts: seq<Action>, i: nat)
    requires OrderlyRun(cs, acts, i) && forall k :: 0 <= k < i ==> !acts[k].Admin?
    ensures Steady(cs, acts, i)
  {
    forall j, k, key, q, r | 0 <= j < i && 0 <= k < i && PutsAt(cs, acts, j, key, q) && PutsAt(cs, acts, k, key, r)
      ensures q == r
    {
      if j < k { PutsOnce(cs, acts, j, k, key, q, r); }
      if k < j { PutsOnce(cs, acts, k, j, key, r, q); }
    }
  }

  // ---------- closing the gap ----------

  /** How much of a gap one reply can close; a negative limit does not limit. */
  function Most(limit: int, gap: int): int {
    if 0 <= limit < gap then limit else gap
  }

  /** From moment `q` on there are no puts. */
  ghost predicate QuietFrom(acts: seq<Action>, q: nat) {
    forall k {:trigger acts[k].Put?} :: q <= k < |acts| ==> !acts[k].Put?
  }

  /** Step `b` begins a sync of `n`. */
  ghost predicate BuildsAt(acts: seq<Action>, b: nat, n: NodeID) {
    b < |acts| && acts[b].Build? && acts[b].node == n
  }

  lemma {:induction false} ScanCount(st: Replica, id: NodeID, after: nat, limit: int, now: nat, found: seq<nat>)
    requires Scan(st, id, after, limit, now, found)
    requires Gapless(st) && Stamped(st) && after <= st.Clock(id)
    requires forall p :: p in st.log ==> st.HasLog(p, now)
    ensures |found| == Most(limit, st.Clock(id) - after)
  {
    var m := |found|;
    if m > 0 {
      ScanConsecutive(st, id, after, limit, now, found, m - 1);
      assert st.HasLog(Pos(id, found[m - 1]), now);
    }
    assert forall i :: 0 <= i < m ==> found[i] <= after + m;
    var next := Pos(id, after + m + 1);
    if next.clock <= st.Clock(id) {
      assert next in st.log && st.HasLog(next, now);
    }
  }

  /** Answers a node got from the origin itself are as long as the limit and the gap allow. */
  ghost predicate FullAnswer(c: Cluster, n: NodeID) {
    && n in c
    && var s := c[n].session;
       s.Sync? && s.peer in c && s.peer in s.src && s.peer in s.sent ==>
         var clock := c[s.peer].replica.Clock(s.peer);
         s.sent[s.peer] <= clock && |s.src[s.peer]| == Most(c[s.peer].limit, clock - s.sent[s.peer])
  }

  lemma OwnClockQuiet(c: Cluster, a: Action, o: NodeID)
    requires Enabled(c, a) && o in c && SoundAt(c, o) && !(a.Put? && a.node == o)
    ensures Next(c, a)[o].replica.Clock(o) == c[o].replica.Clock(o)
    ensures Next(c, a)[o].limit == c[o].limit
  {
    if a.node == o && a.Apply? && InsertAll(c[o].replica, c[o].session.got, c[o].now).Ok? {
      InsertAllClocks(c[o].replica, c[o].session.got, c[o].now, o);
      CountNone(c[o].session.got, o);
    }
  }

  lemma AnswerFull(c: Cluster, a: Action)
    requires Prefixed(c) && AllLive(c) && Enabled(c, a) && a.Answer? && a.id == c[a.node].session.peer
    ensures FullAnswer(Next(c, a), a.node)
  {
    var n := a.node;
    var o := a.id;
    assert SoundAt(c, n) && SoundAt(c, o) && PrefixedAt(c, o) && FollowsAt(c, n, o);
    ScanCount(c[o].replica, o, c[n].session.sent[o], c[o].limit, c[o].now, a.found);
  }

  lemma StepFull(c: Cluster, a: Action, c': Cluster, n: NodeID)
    requires Prefixed(c) && AllLive(c) && Enabled(c, a) && c' == Next(c, a) && !a.Put?
    requires n in c && FullAnswer(c, n)
    ensures FullAnswer(c', n)
  {
    assert SoundAt(c, n);
    if a.Answer? && a.node == n && a.id == c[n].session.peer {
      AnswerFull(c, a);
    } else if c[n].session.Sync? {
      var o := c[n].session.peer;
      assert SoundAt(c, o);
      OwnClockQuiet(c, a, o);
    }
  }

  /** Once a node has begun a sync after the last put its answers are full, whatever the others are doing. */
  lemma {:induction false} RunFull(cs: seq<Cluster>, acts: seq<Action>, b: nat, i: nat, n: NodeID)
    requires b < i && OrderlyRun(cs, acts, i) && QuietFrom(acts, b) && BuildsAt(acts, b, n)
    ensures n in cs[i] && FullAnswer(cs[i], n) && Prefixed(cs[i])
    decreases i
  {
    OrderlyLasting(cs, acts, i);
    RunPrefixed(cs, acts, i);
    assert Moves(cs, acts, i - 1) && Orderly(cs[i - 1], acts[i - 1]);
    if b < i - 1 {
      RunFull(cs, acts, b, i - 1, n);
      assert !acts[i - 1].Put?;
      StepFull(cs[i - 1], acts[i - 1], cs[i], n);
    }
  }

  /** Step `k` ends a sync of `n` with peer `o`. */
  ghost predicate Pulls(cs: seq<Cluster>, acts: seq<Action>, k: nat, n: NodeID, o: NodeID) {
    && k < |acts| && k < |cs|
    && acts[k] == Apply(n) && n in cs[k] && cs[k][n].session.Sync? && cs[k][n].session.peer == o
  }

  /** A pull from the origin, begun after the last put, raises the clock by exactly the limit or the whole gap. */
  lemma PullRaises(cs: seq<Cluster>, acts: seq<Action>, b: nat, k: nat, n: NodeID, o: NodeID)
    requires b < k < |acts| && OrderlyRun(cs, acts, k) && QuietFrom(acts, b) && BuildsAt(acts, b, n)
    requires Pulls(cs, acts, k, n, o)
    ensures o in cs[k] && n in cs[k + 1] && 0 <= Lag(cs[k], n, o)
    ensures cs[k + 1][n].replica.Clock(o) == cs[k][n].replica.Clock(o) + Most(cs[k][o].limit, Lag(cs[k], n, o))
  {
    RunFull(cs, acts, b, k, n);
    assert Moves(cs, acts, k) && SoundAt(cs[k], n);
    AppliesNeverFail(cs, acts, k);
    InsertAllClocks(cs[k][n].replica, cs[k][n].session.got, cs[k][n].now, o);
  }

  lemma StepLag(cs: seq<Cluster>, acts: seq<Action>, q: nat, k: nat, n: NodeID, o: NodeID)
    requires q <= k < |acts| && OrderlyRun(cs, acts, k) && QuietFrom(acts, q)
    requires n in cs[k] && o in cs[k]
    ensures n in cs[k + 1] && o in cs[k + 1] && cs[k + 1][o].limit == cs[k][o].limit
    ensures Lag(cs[k + 1], n, o) <= Lag(cs[k], n, o)
  {
    OrderlyLasting(cs, acts, k);
    RunPrefixed(cs, acts, k);
    assert Moves(cs, acts, k) && SoundAt(cs[k], o) && !acts[k].Put?;
    OwnClockQuiet(cs[k], acts[k], o);
    RunStepGrows(cs, acts, k, n);
  }

  lemma {:induction false} LagShrinks(cs: seq<Cluster>, acts: seq<Action>, q: nat, i: nat, j: nat, n: NodeID, o: NodeID)
    requires q <= i <= j < |cs| && OrderlyRun(cs, acts, j) && QuietFrom(acts, q)
    requires n in cs[i] && o in cs[i]
    ensures n in cs[j] && o in cs[j] && cs[j][o].limit == cs[i][o].limit
    ensures Lag(cs[j], n, o) <= Lag(cs[i], n, o)
    decreases j
  {
    if i < j {
      LagShrinks(cs, acts, q, i, j - 1, n, o);
      StepLag(cs, acts, q, j - 1, n, o);
    }
  }

  /** Between moments `i` and `j` every node ends a sync with every other node that it began after `q`. */
  ghost predicate Round(cs: seq<Cluster>, acts: seq<Action>, q: nat, i: nat, j: nat) {
    && i <= j <= |acts| < |cs|
    && forall n, o {:trigger PullsWithin(cs, acts, q, i, j, n, o)} ::
         n in cs[i] && o in cs[i] && n != o ==> PullsWithin(cs, acts, q, i, j, n, o)
  }

  ghost predicate PullsWithin(cs: seq<Cluster>, acts: seq<Action>, q: nat, i: nat, j: nat, n: NodeID, o: NodeID) {
    && i <= j <= |acts| < |cs|
    && exists b, k {:trigger BuildsAt(acts, b, n), Pulls(cs, acts, k, n, o)} ::
         i <= k < j && Pulls(cs, acts, k, n, o) && q <= b < k && BuildsAt(acts, b, n)
  }

  lemma RoundShrinks(cs: seq<Cluster>, acts: seq<Action>, q: nat, i: nat, j: nat, n: NodeID, o: NodeID)
    requires q <= i && OrderlyRun(cs, acts, |acts|) && Round(cs, acts, q, i, j) && QuietFrom(acts, q)
    requires n in cs[i] && o in cs[i] && n != o
    ensures n in cs[j] && o in cs[j] && cs[j][o].limit == cs[i][o].limit
    ensures Lag(cs[j], n, o) <= 0 || (cs[i][o].limit >= 0 && Lag(cs[j], n, o) <= Lag(cs[i], n, o) - cs[i][o].limit)
  {
    assert PullsWithin(cs, acts, q, i, j, n, o);
    var b, k :| i <= k < j && Pulls(cs, acts, k, n, o) && q <= b < k && BuildsAt(acts, b, n);
    LagShrinks(cs, acts, q, i, k, n, o);
    PullRaises(cs, acts, b, k, n, o);
    RunFull(cs, acts, b, k, n);
    assert Moves(cs, acts, k) && SoundAt(cs[k], o);
    OwnClockQuiet(cs[k], acts[k], o);
    LagShrinks(cs, acts, q, k + 1, j, n, o);
  }

  /** The moments `cuts` delimit consecutive rounds. */
  ghost predicate Rounds(cs: seq<Cluster>, acts: seq<Action>, cuts: seq<nat>) {
    |cuts| > 0 && forall r {:trigger RoundAt(cs, acts, cuts, r)} :: 0 <= r < |cuts| - 1 ==> RoundAt(cs, acts, cuts, r)
  }

  ghost predicate RoundAt(cs: seq<Cluster>, acts: seq<Action>, cuts: seq<nat>, r: nat) {
    && r + 1 < |cuts|
    && Round(cs, acts, cuts[0], cuts[r], cuts[r + 1])
  }

  /** That many rounds are enough to close the gap. */
  predicate Covers(rounds: nat, limit: int, gap: int) {
    gap <= 0 || (if limit < 0 then rounds > 0 else gap <= rounds * limit)
  }

  /** What r replies of full length leave of a gap they do not close. */
  predicate Shrunk(gap: int, limit: int, r: nat, left: int) {
    if r == 0 then left <= gap else limit >= 0 && left <= gap - r * limit
  }

  lemma {:induction false} RoundsShrink(
    cs: seq<Cluster>, acts: seq<Action>, cuts: seq<nat>, r: nat, n: NodeID, o: NodeID)
    requires OrderlyRun(cs, acts, |acts|) && Rounds(cs, acts, cuts) && r < |cuts|
    requires cuts[0] < |cs| && QuietFrom(acts, cuts[0])
    requires n in cs[cuts[0]] && o in cs[cuts[0]] && n != o
    ensures cuts[0] <= cuts[r] < |cs| && n in cs[cuts[r]] && o in cs[cuts[r]]
    ensures cs[cuts[r]][o].limit == cs[cuts[0]][o].limit
    ensures var gap, left := Lag(cs[cuts[0]], n, o), Lag(cs[cuts[r]], n, o);
            left <= 0 || Shrunk(gap, cs[cuts[0]][o].limit, r, left)
  {
    if r > 0 {
      RoundsShrink(cs, acts, cuts, r - 1, n, o);
      assert RoundAt(cs, acts, cuts, r - 1);
      RoundShrinks(cs, acts, cuts[0], cuts[r - 1], cuts[r], n, o);
      LagShrinks(cs, acts, cuts[0], cuts[r - 1], cuts[r], n, o);
      var limit := cs[cuts[0]][o].limit;
      assert r * limit == (r - 1) * limit + limit;
    }
  }

  // ---------- agreement ----------

  lemma EqualLogs(c: Cluster, n: NodeID, m: NodeID)
    requires Prefixed(c) && n in c && m in c
    requires forall o :: o in c ==> c[n].replica.Clock(o) == c[m].replica.Clock(o)
    ensures forall p :: p in c[n].replica.log ==> p in c[m].replica.log && c[n].replica.log[p] == c[m].replica.log[p]
  {
    assert SoundAt(c, n) && PrefixedAt(c, m);
    forall p | p in c[n].replica.log
      ensures p in c[m].replica.log && c[n].replica.log[p] == c[m].replica.log[p]
    {
      assert p.id in c[n].replica.clocks;
      assert FollowsAt(c, n, p.id) && FollowsAt(c, m, p.id);
    }
  }

  lemma EqualRecords(a: Replica, b: Replica, places: Places, table: Table)
    requires Placed(a, places) && Placed(b, places) && a.log == b.log
    requires forall k :: k in a.records ==> Listed(table, k, a.records[k])
    requires forall k :: k in b.records ==> Listed(table, k, b.records[k])
    ensures a.records == b.records
  {
    forall k | k in a.records ensures k in b.records && a.records[k] == b.records[k] {
      assert places[k] in b.log;
    }
    forall k | k in b.records ensures k in a.records {
      assert places[k] in a.log;
    }
  }

  lemma EqualClocks(c: Cluster, n: NodeID, m: NodeID, id: NodeID)
    requires Prefixed(c) && n in c && m in c
    requires forall x, o :: x in c && o in c ==> Lag(c, x, o) <= 0
    ensures c[n].replica.Clock(id) == c[m].replica.Clock(id)
  {
    assert SoundAt(c, n) && SoundAt(c, m);
    if id in c {
      assert FollowsAt(c, n, id) && FollowsAt(c, m, id);
      assert Lag(c, n, id) <= 0 && Lag(c, m, id) <= 0;
    }
  }

  lemma Agreement(c: Cluster, n: NodeID, m: NodeID)
    requires Prefixed(c) && n in c && m in c
    requires forall x, o :: x in c && o in c ==> Lag(c, x, o) <= 0
    ensures c[n].replica.log == c[m].replica.log
    ensures forall id: NodeID :: c[n].replica.Clock(id) == c[m].replica.Clock(id)
  {
    forall id: NodeID ensures c[n].replica.Clock(id) == c[m].replica.Clock(id) {
      EqualClocks(c, n, m, id);
    }
    EqualLogs(c, n, m);
    EqualLogs(c, m, n);
  }

  lemma GapCloses(cs: seq<Cluster>, acts: seq<Action>, cuts: seq<nat>, n: NodeID, o: NodeID)
    requires OrderlyRun(cs, acts, |acts|) && Rounds(cs, acts, cuts)
    requires cuts[0] < |cs| && QuietFrom(acts, cuts[0]) && n in cs[cuts[0]] && o in cs[cuts[0]] && n != o
    requires Covers(|cuts| - 1, cs[cuts[0]][o].limit, Lag(cs[cuts[0]], n, o))
    ensures var end := cuts[|cuts| - 1];
            end < |cs| && n in cs[end] && o in cs[end] && Lag(cs[end], n, o) <= 0
  {
    RoundsShrink(cs, acts, cuts, |cuts| - 1, n, o);
    var end := cuts[|cuts| - 1];
    Closed(Lag(cs[cuts[0]], n, o), cs[cuts[0]][o].limit, |cuts| - 1, Lag(cs[end], n, o));
  }

  lemma Closed(gap: int, limit: int, rounds: nat, left: int)
    requires Covers(rounds, limit, gap) && (left <= 0 || Shrunk(gap, limit, rounds, left))
    ensures left <= 0
  {
  }

  lemma RecordsAgree(cs: seq<Cluster>, acts: seq<Action>, i: nat, n: NodeID, m: NodeID)
    requires OrderlyRun(cs, acts, i) && (forall k :: 0 <= k < i ==> !acts[k].Admin?)
    requires n in cs[i] && m in cs[i] && cs[i][n].replica.log == cs[i][m].replica.log
    ensures cs[i][n].replica.records == cs[i][m].replica.records
  {
    OrderlySteady(cs, acts, i);
    var table := TableOf(cs, acts, i);
    RunUniform(cs, acts, i, i, table);
    var places := RunPlaced(cs, acts, i);
    assert UniformAt(cs[i], table, n) && UniformAt(cs[i], table, m);
    assert PlacedAt(cs[i], places, n) && PlacedAt(cs[i], places, m);
    EqualRecords(cs[i][n].replica, cs[i][m].replica, places, table);
  }

  /**
    Any orderly run without puts from `cuts[0]` on that goes through enough rounds to cover every gap
    ends with the same clocks and logs on every node, and the same records if none was updated.
  */
  lemma Converges(cs: seq<Cluster>, acts: seq<Action>, cuts: seq<nat>, n: NodeID, m: NodeID)
    requires OrderlyRun(cs, acts, |acts|) && Rounds(cs, acts, cuts)
    requires cuts[0] < |cs| && QuietFrom(acts, cuts[0])
    requires forall x, o :: x in cs[cuts[0]] && o in cs[cuts[0]] ==>
               Covers(|cuts| - 1, cs[cuts[0]][o].limit, Lag(cs[cuts[0]], x, o))
    requires n in cs[cuts[0]] && m in cs[cuts[0]] && n != m
    ensures var end := cuts[|cuts| - 1];
            && end < |cs| && n in cs[end] && m in cs[end]
            && cs[end][n].replica.log == cs[end][m].replica.log
            && (forall id: NodeID :: cs[end][n].replica.Clock(id) == cs[end][m].replica.Clock(id))
            && ((forall k :: 0 <= k < end ==> !acts[k].Admin?) ==>
                  cs[end][n].replica.records == cs[end][m].replica.records)
  {
    var end := cuts[|cuts| - 1];
    RoundsShrink(cs, acts, cuts, |cuts| - 1, n, m);
    RunSound(cs, acts, cuts[0]);
    RunSound(cs, acts, end);
    forall x, o | x in cs[end] && o in cs[end] ensures Lag(cs[end], x, o) <= 0 {
      if x != o { GapCloses(cs, acts, cuts, x, o); }
    }
    OrderlyLasting(cs, acts, end);
    RunPrefixed(cs, acts, end);
    Agreement(cs[end], n, m);
    if forall k :: 0 <= k < end ==> !acts[k].Admin? { RecordsAgree(cs, acts, end, n, m); }
  }
}
