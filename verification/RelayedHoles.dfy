/**
  Why NothingLiveIsSkipped asks that relays agree with the origin: with a hole in the origin's log, a
  relaying node has renumbered the entries behind it, and a third node that combines both numberings
  skips a live entry of the origin for good.
*/
module RelayedHoles {
  import opened Types
  import opened Replicas
  import opened Cluster
  import opened Scenarios

  // ---------- the scenario ----------

  // The origin logs k1 (expiring at 1), k2 and k3; k1 reaches `far` before it expires; then `relay`
  // gets k2 and k3, as numbers 1 and 2; then `far` asks `relay` for what lies past 1.

  const O := Id(1)
  const RELAY := Id(2)
  const FAR := Id(3)

  ghost const ITEM1 := LogItem(Key(1), CREATED, 1)
  ghost const ITEM2 := LogItem(Key(2), CREATED, 0)
  ghost const ITEM3 := LogItem(Key(3), CREATED, 0)

  ghost function Origin(puts: nat, now: nat): Node
    requires puts <= 3
  {
    var k := map[Key(1) := Rec(1)];
    var l := map[Pos(O, 1) := ITEM1];
    var st :=
      if puts == 0 then EMPTY
      else if puts == 1 then Replica(k, map[O := 1], l)
      else if puts == 2 then Replica(k[Key(2) := Rec(0)], map[O := 2], l[Pos(O, 2) := ITEM2])
      else Replica(k[Key(2) := Rec(0)][Key(3) := Rec(0)], map[O := 3], l[Pos(O, 2) := ITEM2][Pos(O, 3) := ITEM3]);
    Node(st, now, LIMIT, Idle, {})
  }

  ghost function World(origin: Node, relay: Node, far: Node): Cluster {
    map[O := origin, RELAY := relay, FAR := far]
  }

  lemma PutStep(puts: nat, relay: Node, far: Node)
    requires puts < 3
    ensures var a := Put(O, Key(puts + 1), Rec(if puts == 0 then 1 else 0));
            var c := World(Origin(puts, 0), relay, far);
            Enabled(c, a) && Next(c, a) == World(Origin(puts + 1, 0), relay, far)
  {
    Distinct();
    var st := Insert(Origin(puts, 0).replica, Entry(O, Key(puts + 1), Rec(if puts == 0 then 1 else 0)), 0).value;
    var want := Origin(puts + 1, 0).replica;
    assert st.records == want.records && st.clocks == want.clocks && st.log == want.log;
    WorldUpdates(Origin(puts, 0), relay, far, Origin(puts + 1, 0));
  }

  ghost function Relay(stage: nat): Node {
    var waiting := Replica(map[], map[O := 0], map[]);
    if stage == 0 then Fresh()
    else if stage == 1 then Node(waiting, 0, LIMIT, Idle, {})
    else if stage == 2 then Node(waiting, 0, LIMIT, Sync(O, map[O := 0], [], map[]), {})
    else if stage == 3 then
      var got := [Entry(O, Key(2), Rec(0)), Entry(O, Key(3), Rec(0))];
      Node(waiting, 0, LIMIT, Sync(O, map[O := 0], got, map[O := [2, 3]]), {})
    else
      Node(Replica(map[Key(2) := Rec(0)][Key(3) := Rec(0)], map[O := 2], map[Pos(O, 1) := ITEM2][Pos(O, 2) := ITEM3]),
           0, LIMIT, Idle, {Receipt(O, 2, Key(2)), Receipt(O, 3, Key(3))})
  }

  ghost function Far(stage: nat): Node {
    var waiting := Replica(map[], map[O := 0], map[]);
    var one := map[Key(1) := Rec(1)];
    var log := map[Pos(O, 1) := ITEM1];
    var first := {Receipt(O, 1, Key(1))};
    var asking := Replica(one, map[O := 1][RELAY := 0], log);
    var sent := map[O := 1][RELAY := 0];
    var reply := [Entry(O, Key(3), Rec(0))];
    if stage == 0 then Fresh()
    else if stage == 1 then Node(waiting, 0, LIMIT, Idle, {})
    else if stage == 2 then Node(waiting, 0, LIMIT, Sync(O, map[O := 0], [], map[]), {})
    else if stage == 3 then Node(waiting, 0, LIMIT, Sync(O, map[O := 0], [Entry(O, Key(1), Rec(1))], map[O := [1]]), {})
    else if stage == 4 then Node(Replica(one, map[O := 1], log), 0, LIMIT, Idle, first)
    else if stage == 5 then Node(asking, 0, LIMIT, Idle, first)
    else if stage == 6 then Node(asking, 0, LIMIT, Sync(RELAY, sent, [], map[]), first)
    else if stage == 7 then Node(asking, 0, LIMIT, Sync(RELAY, sent, reply, map[O := [2]]), first)
    else if stage == 8 then Node(asking, 0, LIMIT, Sync(RELAY, sent, reply, map[O := [2]][RELAY := []]), first)
    else Node(Replica(one[Key(3) := Rec(0)], map[O := 2][RELAY := 0], log[Pos(O, 2) := ITEM3]),
              0, LIMIT, Idle, {Receipt(O, 1, Key(1)), Receipt(O, 2, Key(3))})
  }

  ghost function FarAct(stage: nat): Action {
    if stage == 0 then Ensure(FAR, O)
    else if stage == 1 then Build(FAR, O)
    else if stage == 2 then Answer(FAR, O, [1])
    else if stage == 3 then Apply(FAR)
    else if stage == 4 then Ensure(FAR, RELAY)
    else if stage == 5 then Build(FAR, RELAY)
    else if stage == 6 then Answer(FAR, O, [2])
    else if stage == 7 then Answer(FAR, RELAY, [])
    else Apply(FAR)
  }

  ghost function RelayAct(stage: nat): Action {
    if stage == 0 then Ensure(RELAY, O)
    else if stage == 1 then Build(RELAY, O)
    else if stage == 2 then Answer(RELAY, O, [2, 3])
    else Apply(RELAY)
  }

  lemma WorldUpdates(origin: Node, relay: Node, far: Node, n': Node)
    ensures World(origin, relay, far)[FAR := n'] == World(origin, relay, n')
    ensures World(origin, relay, far)[RELAY := n'] == World(origin, n', far)
    ensures World(origin, relay, far)[O := n'] == World(n', relay, far)
  {
    Distinct();
  }

  lemma FirstInsert(e: Entry)
    requires e == Entry(O, Key(1), Rec(1))
    ensures Insert(Far(3).replica, e, 0) == Ok(Far(4).replica)
  {
    Distinct();
    var st := Insert(Far(3).replica, e, 0).value;
    assert st.records == Far(4).replica.records && st.clocks == Far(4).replica.clocks && st.log == Far(4).replica.log;
  }

  /** `far` pulls k1 from the origin. */
  lemma FarPulls(stage: nat)
    requires stage < 4
    ensures var c := World(Origin(1, 0), Relay(0), Far(stage));
            Enabled(c, FarAct(stage)) && Next(c, FarAct(stage)) == World(Origin(1, 0), Relay(0), Far(stage + 1))
  {
    Distinct();
    var c := World(Origin(1, 0), Relay(0), Far(stage));
    WorldUpdates(Origin(1, 0), Relay(0), Far(stage), Far(stage + 1));
    if stage == 0 {
      EnsureStep(c, FAR, O, Far(1));
    } else if stage == 1 {
      assert map[O := 0] - {FAR} == map[O := 0];
      BuildStep(c, FAR, O, Far(2));
    } else if stage == 2 {
      ShipOne(Origin(1, 0).replica, O, 1, 0);
      assert map[][O := [1]] == map[O := [1]];
      var e := Entry(O, Key(1), Rec(1));
      assert [] + [e] == [e];
      AnswerStep(c, FAR, O, [1], [e], Far(3));
    } else {
      var e := Entry(O, Key(1), Rec(1));
      BatchOne(Far(3).replica, e, 0);
      FirstInsert(e);
      ReceiptOne(e, Far(3).session.src, 1);
      ApplyStep(c, FAR, Far(4).replica, Far(4));
    }
  }

  /** After k1 has expired, `relay` pulls k2 and k3 and numbers them 1 and 2. */
  lemma RelayPulls(stage: nat)
    requires stage < 4
    ensures var c := World(Origin(3, 1), Relay(stage), Far(4));
            Enabled(c, RelayAct(stage)) && Next(c, RelayAct(stage)) == World(Origin(3, 1), Relay(stage + 1), Far(4))
  {
    Distinct();
    var c := World(Origin(3, 1), Relay(stage), Far(4));
    WorldUpdates(Origin(3, 1), Relay(stage), Far(4), Relay(stage + 1));
    var e, f := Entry(O, Key(2), Rec(0)), Entry(O, Key(3), Rec(0));
    if stage == 0 {
      EnsureStep(c, RELAY, O, Relay(1));
    } else if stage == 1 {
      assert map[O := 0] - {RELAY} == map[O := 0];
      BuildStep(c, RELAY, O, Relay(2));
    } else if stage == 2 {
      RelayHears(c, e, f);
    } else {
      RelayInserts(e, f);
      ReceiptTwo(e, f, Relay(3).session.src, 2, 3);
      ApplyStep(c, RELAY, Relay(4).replica, Relay(4));
    }
  }

  lemma RelayHears(c: Cluster, e: Entry, f: Entry)
    requires c == World(Origin(3, 1), Relay(2), Far(4))
    requires e == Entry(O, Key(2), Rec(0)) && f == Entry(O, Key(3), Rec(0))
    ensures Enabled(c, RelayAct(2)) && Next(c, RelayAct(2)) == c[RELAY := Relay(3)]
  {
    Distinct();
    ShipTwo(Origin(3, 1).replica, O, 2, 3, 1);
    assert map[][O := [2, 3]] == map[O := [2, 3]];
    assert [] + [e, f] == [e, f];
    AnswerStep(c, RELAY, O, [2, 3], [e, f], Relay(3));
  }

  lemma RelayInserts(e: Entry, f: Entry)
    requires e == Entry(O, Key(2), Rec(0)) && f == Entry(O, Key(3), Rec(0))
    ensures InsertAll(Relay(3).replica, [e, f], 0) == Ok(Relay(4).replica)
  {
    Distinct();
    BatchTwo(Relay(3).replica, e, f, 0);
    var st := Insert(Insert(Relay(3).replica, e, 0).value, f, 0).value;
    var want := Relay(4).replica;
    assert st.records == want.records && st.clocks == want.clocks && st.log == want.log;
  }

  /** `far`, holding k1 as 1, asks `relay` for what lies past 1 and gets k3 as 2. */
  lemma FarAsks(stage: nat)
    requires 4 <= stage < 9
    ensures var c := World(Origin(3, 1), Relay(4), Far(stage));
            Enabled(c, FarAct(stage)) && Next(c, FarAct(stage)) == World(Origin(3, 1), Relay(4), Far(stage + 1))
  {
    Distinct();
    var c := World(Origin(3, 1), Relay(4), Far(stage));
    WorldUpdates(Origin(3, 1), Relay(4), Far(stage), Far(stage + 1));
    var e := Entry(O, Key(3), Rec(0));
    if stage == 4 {
      EnsureStep(c, FAR, RELAY, Far(5));
    } else if stage == 5 {
      assert map[O := 1][RELAY := 0] - {FAR} == map[O := 1][RELAY := 0];
      BuildStep(c, FAR, RELAY, Far(6));
    } else if stage == 6 {
      FarHears(c, e);
    } else if stage == 7 {
      assert [e] + [] == [e];
      AnswerStep(c, FAR, RELAY, [], [], Far(8));
    } else {
      FarApplies(c, e);
    }
  }

  lemma FarHears(c: Cluster, e: Entry)
    requires c == World(Origin(3, 1), Relay(4), Far(6)) && e == Entry(O, Key(3), Rec(0))
    ensures Enabled(c, FarAct(6)) && Next(c, FarAct(6)) == c[FAR := Far(7)]
  {
    Distinct();
    ShipOne(Relay(4).replica, O, 2, 0);
    assert map[][O := [2]] == map[O := [2]];
    assert [] + [e] == [e];
    AnswerStep(c, FAR, O, [2], [e], Far(7));
  }

  lemma FarApplies(c: Cluster, e: Entry)
    requires c == World(Origin(3, 1), Relay(4), Far(8)) && e == Entry(O, Key(3), Rec(0))
    ensures Enabled(c, FarAct(8)) && Next(c, FarAct(8)) == c[FAR := Far(9)]
  {
    Distinct();
    BatchOne(Far(8).replica, e, 0);
    LastInsert(e);
    ReceiptOne(e, Far(8).session.src, 2);
    ApplyStep(c, FAR, Far(9).replica, Far(9));
  }

  lemma LastInsert(e: Entry)
    requires e == Entry(O, Key(3), Rec(0))
    ensures Insert(Far(8).replica, e, 0) == Ok(Far(9).replica)
  {
    Distinct();
    var st := Insert(Far(8).replica, e, 0).value;
    assert st.records == Far(9).replica.records && st.clocks == Far(9).replica.clocks && st.log == Far(9).replica.log;
  }

  // ---------- the run ----------

  ghost function Stage(i: nat): Cluster {
    if i == 0 then World(Origin(0, 0), Relay(0), Far(0))
    else if i <= 5 then World(Origin(1, 0), Relay(0), Far(i - 1))
    else if i <= 7 then World(Origin(i - 4, 0), Relay(0), Far(4))
    else if i <= 12 then World(Origin(3, 1), Relay(i - 8), Far(4))
    else World(Origin(3, 1), Relay(4), Far(i - 8))
  }

  ghost function Act(i: nat): Action {
    if i == 0 then Put(O, Key(1), Rec(1))
    else if i <= 4 then FarAct(i - 1)
    else if i <= 6 then Put(O, Key(i - 3), Rec(0))
    else if i == 7 then Tick(O, 1)
    else if i <= 11 then RelayAct(i - 8)
    else FarAct(i - 8)
  }

  lemma StageStep(i: nat)
    requires i < 17
    ensures Enabled(Stage(i), Act(i)) && Next(Stage(i), Act(i)) == Stage(i + 1)
  {
    if i == 0 { PutStep(0, Relay(0), Far(0)); }
    else if i <= 4 { FarPulls(i - 1); }
    else if i <= 6 { PutStep(i - 4, Relay(0), Far(4)); }
    else if i == 7 { WorldUpdates(Origin(3, 0), Relay(0), Far(4), Origin(3, 1)); }
    else if i <= 11 { RelayPulls(i - 8); }
    else { FarAsks(i - 8); }
  }

  /**
    A run of three nodes in which a live entry of the origin lies at the clock of a node that never
    received it: the node will never ask for it again.
  */
  lemma RelayedPullsSkip() returns (cs: seq<Cluster>, acts: seq<Action>, key: KeyHash)
    ensures Run(cs, acts) && Init(cs[0])
    ensures var c := cs[|acts|];
            && O in c && FAR in c && c[FAR].session.Idle?
            && c[O].replica.HasLog(Pos(O, 2), c[O].now) && c[O].replica.log[Pos(O, 2)].key == key
            && 2 <= c[FAR].replica.Clock(O)
            && Receipt(O, 2, key) !in c[FAR].seen && key !in c[FAR].replica.records
  {
    cs, acts := seq(18, i requires i >= 0 => Stage(i)), seq(17, i requires i >= 0 => Act(i));
    forall i | 0 <= i < |acts| ensures Moves(cs, acts, i) { StageStep(i); }
    key := Key(2);
    Distinct();
  }
}
