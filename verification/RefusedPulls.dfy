/**
  Why PullsCloseTheGap asks for steady records: with a hole in the origin's log, an entry is numbered
  lower by its receiver and so asked for again; if its record was updated meanwhile, the receiver
  refuses the reply, and every later one like it.
*/
module RefusedPulls {
  import opened Types
  import opened Replicas
  import opened Cluster
  import Holes
  import opened Scenarios

  // The origin logs k1 and k2 and removes k1; `far` gets k2 as number 1; the origin invalidates k2;
  // from then on `far` asks for what lies past 1 and is sent k2 again.

  const O := Id(1)
  const FAR := Id(3)

  ghost const ITEM1 := LogItem(Key(1), CREATED, 0)
  ghost const ITEM2 := LogItem(Key(2), CREATED, 0)
  ghost const CHANGE := Invalidate(5, "")
  ghost const CHANGED := Changed(Rec(0), CHANGE)

  ghost function Origin(stage: nat): Node {
    var st :=
      if stage == 0 then EMPTY
      else if stage == 1 then Replica(map[Key(1) := Rec(0)], map[O := 1], map[Pos(O, 1) := ITEM1])
      else if stage == 2 then
        Replica(map[Key(1) := Rec(0)][Key(2) := Rec(0)], map[O := 2], map[Pos(O, 1) := ITEM1][Pos(O, 2) := ITEM2])
      else
        Replica(map[Key(2) := if stage == 3 then Rec(0) else CHANGED], map[O := 2], map[Pos(O, 2) := ITEM2]);
    Node(st, 0, LIMIT, Idle, {})
  }

  ghost function OriginAct(stage: nat): Action {
    if stage == 0 then Put(O, Key(1), Rec(0))
    else if stage == 1 then Put(O, Key(2), Rec(0))
    else if stage == 2 then Remove(O, Key(1))
    else Admin(O, Key(2), CHANGE)
  }

  ghost function Far(stage: nat): Node {
    var waiting := Replica(map[], map[O := 0], map[]);
    var held := Replica(map[Key(2) := Rec(0)], map[O := 1], map[Pos(O, 1) := ITEM2]);
    var seen := {Receipt(O, 2, Key(2))};
    if stage == 0 then Fresh()
    else if stage == 1 then Node(waiting, 0, LIMIT, Idle, {})
    else if stage == 2 then Node(waiting, 0, LIMIT, Sync(O, map[O := 0], [], map[]), {})
    else if stage == 3 then Node(waiting, 0, LIMIT, Sync(O, map[O := 0], [Entry(O, Key(2), Rec(0))], map[O := [2]]), {})
    else if stage == 4 then Node(held, 0, LIMIT, Idle, seen)
    else if stage == 5 then Node(held, 0, LIMIT, Sync(O, map[O := 1], [], map[]), seen)
    else Node(held, 0, LIMIT, Sync(O, map[O := 1], [Entry(O, Key(2), CHANGED)], map[O := [2]]), seen)
  }

  ghost function FarAct(stage: nat): Action {
    if stage == 0 then Ensure(FAR, O)
    else if stage == 1 || stage == 4 then Build(FAR, O)
    else if stage == 2 || stage == 5 then Answer(FAR, O, [2])
    else Apply(FAR)
  }

  ghost function Pair(origin: Node, far: Node): Cluster {
    map[O := origin, FAR := far]
  }

  lemma PairUpdates(origin: Node, far: Node, n': Node)
    ensures Pair(origin, far)[O := n'] == Pair(n', far) && Pair(origin, far)[FAR := n'] == Pair(origin, n')
  {
    Distinct();
  }

  ghost function OriginResult(stage: nat): Result<Replica, StoreError> {
    var st := Origin(stage).replica;
    if stage == 0 then Insert(st, Entry(O, Key(1), Rec(0)), 0)
    else if stage == 1 then Insert(st, Entry(O, Key(2), Rec(0)), 0)
    else if stage == 2 then Delete(st, Key(1), 0)
    else Update(st, Key(2), CHANGE, 0)
  }

  lemma SameReplica(a: Replica, b: Replica)
    requires a.records == b.records && a.clocks == b.clocks && a.log == b.log
    ensures a == b
  {
  }

  lemma OriginPuts(stage: nat)
    requires stage < 2
    ensures OriginResult(stage) == Ok(Origin(stage + 1).replica)
  {
    Distinct();
    SameReplica(OriginResult(stage).value, Origin(stage + 1).replica);
  }

  lemma OriginRemoves()
    ensures OriginResult(2) == Ok(Origin(3).replica)
  {
    Distinct();
    var st, want := OriginResult(2).value, Origin(3).replica;
    assert st.records == want.records by { assert Key(1) != Key(2); }
    assert forall p :: p in st.log <==> p == Pos(O, 2);
    SameReplica(st, want);
  }

  lemma OriginUpdates()
    ensures OriginResult(3) == Ok(Origin(4).replica)
  {
    Distinct();
    SameReplica(OriginResult(3).value, Origin(4).replica);
  }

  lemma OriginStep(stage: nat, far: Node)
    requires stage < 4
    ensures var c := Pair(Origin(stage), far);
            Enabled(c, OriginAct(stage)) && Next(c, OriginAct(stage)) == Pair(Origin(stage + 1), far)
  {
    Distinct();
    if stage < 2 { OriginPuts(stage); } else if stage == 2 { OriginRemoves(); } else { OriginUpdates(); }
    PairUpdates(Origin(stage), far, Origin(stage + 1));
  }

  /** `far` pulls k2 and numbers it 1. */
  lemma FarPulls(stage: nat)
    requires stage < 4
    ensures var c := Pair(Origin(3), Far(stage));
            Enabled(c, FarAct(stage)) && Next(c, FarAct(stage)) == Pair(Origin(3), Far(stage + 1))
  {
    Distinct();
    var c := Pair(Origin(3), Far(stage));
    var e := Entry(O, Key(2), Rec(0));
    PairUpdates(Origin(3), Far(stage), Far(stage + 1));
    if stage == 0 {
      EnsureStep(c, FAR, O, Far(1));
    } else if stage == 1 {
      assert map[O := 0] - {FAR} == map[O := 0];
      BuildStep(c, FAR, O, Far(2));
    } else if stage == 2 {
      FarHears(c, e);
    } else {
      BatchOne(Far(3).replica, e, 0);
      SameReplica(Insert(Far(3).replica, e, 0).value, Far(4).replica);
      ReceiptOne(e, Far(3).session.src, 2);
      ApplyStep(c, FAR, Far(4).replica, Far(4));
    }
  }

  lemma FarHears(c: Cluster, e: Entry)
    requires c == Pair(Origin(3), Far(2)) && e == Entry(O, Key(2), Rec(0))
    ensures Enabled(c, FarAct(2)) && Next(c, FarAct(2)) == c[FAR := Far(3)]
  {
    Distinct();
    ShipOne(Origin(3).replica, O, 2, 0);
    assert map[][O := [2]] == map[O := [2]];
    assert [] + [e] == [e];
    AnswerStep(c, FAR, O, [2], [e], Far(3));
  }

  /** Asking again, `far` is sent the updated k2, refuses it, and is where it was. */
  lemma FarRefuses(stage: nat)
    requires 4 <= stage < 7
    ensures var c := Pair(Origin(4), Far(stage));
            && Enabled(c, FarAct(stage))
            && Next(c, FarAct(stage)) == Pair(Origin(4), Far(if stage == 6 then 4 else stage + 1))
  {
    Distinct();
    var c := Pair(Origin(4), Far(stage));
    var e := Entry(O, Key(2), CHANGED);
    PairUpdates(Origin(4), Far(stage), Far(if stage == 6 then 4 else stage + 1));
    if stage == 4 {
      assert map[O := 1] - {FAR} == map[O := 1];
      BuildStep(c, FAR, O, Far(5));
    } else if stage == 5 {
      ShipOne(Origin(4).replica, O, 2, 0);
      assert map[][O := [2]] == map[O := [2]];
      assert [] + [e] == [e];
      AnswerStep(c, FAR, O, [2], [e], Far(6));
    } else {
      BatchOne(Far(6).replica, e, 0);
      assert Insert(Far(6).replica, e, 0) == Err(RecordsNotEqual);
    }
  }

  // ---------- the run ----------

  ghost function Stage(i: nat): Cluster {
    if i <= 3 then Pair(Origin(i), Far(0))
    else if i <= 7 then Pair(Origin(3), Far(i - 3))
    else Pair(Origin(4), Far(4 + (i - 8) % 3))
  }

  /** From step 8 on: a request, the origin's full answer to it, and the refused application, over and over. */
  ghost function Act(i: nat): Action {
    if i <= 2 then OriginAct(i)
    else if i <= 6 then FarAct(i - 3)
    else if i == 7 then OriginAct(3)
    else if (i - 8) % 3 == 0 then Build(FAR, O)
    else if (i - 8) % 3 == 1 then Answer(FAR, O, [2])
    else Apply(FAR)
  }

  lemma StageStep(i: nat)
    ensures Enabled(Stage(i), Act(i)) && Next(Stage(i), Act(i)) == Stage(i + 1)
  {
    if i <= 2 { OriginStep(i, Far(0)); }
    else if i <= 6 { FarPulls(i - 3); }
    else if i == 7 { OriginStep(3, Far(4)); }
    else { StuckStep(i); }
  }

  lemma StuckStep(i: nat)
    requires i >= 8
    ensures Enabled(Stage(i), Act(i)) && Next(Stage(i), Act(i)) == Stage(i + 1)
  {
    var turn := (i - 8) % 3;
    FarRefuses(4 + turn);
    assert (i + 1 - 8) % 3 == if turn == 2 then 0 else turn + 1;
  }

  /** With two nodes there is nobody to relay. */
  lemma TwoAreAligned(cs: seq<Cluster>, acts: seq<Action>)
    requires Run(cs, acts) && Init(cs[0]) && cs[0].Keys == {O, FAR}
    ensures Holes.AlignedRun(cs, acts, FAR, O, |acts|)
  {
    forall k | 0 <= k < |acts| ensures Holes.Aligned(cs[k], acts[k], FAR, O) {
      RunSound(cs, acts, k);
      assert FAR in cs[k] && SoundAt(cs[k], FAR);
    }
  }

  lemma GapStays(i: nat)
    requires i >= 8
    ensures var c := Stage(i);
            && O in c && FAR in c && Lag(c, FAR, O) == 1 && c[FAR].replica.Clock(O) == 1
            && c[O].replica.HasLog(Pos(O, 2), c[O].now)
  {
    Distinct();
  }

  /** The actions from step 8 on are pulls. */
  lemma PullsRepeat(acts: seq<Action>, k: nat)
    requires 8 + 3 * k + 3 <= |acts| && forall i :: 0 <= i < |acts| ==> acts[i] == Act(i)
    ensures acts[8 + 3 * k..8 + 3 * k + 3] == [Build(FAR, O), Answer(FAR, O, [2]), Apply(FAR)]
  {
    assert (3 * k) % 3 == 0 && (3 * k + 1) % 3 == 1 && (3 * k + 2) % 3 == 2;
  }

  /**
    A run of two nodes that goes on with any number of pulls from the origin itself: the origin has a live
    entry past the clock of `far` and sends it each time, and yet the gap stays 1.
  */
  lemma PullsRefusedForever(pulls: nat) returns (cs: seq<Cluster>, acts: seq<Action>)
    ensures Run(cs, acts) && Init(cs[0]) && Holes.AlignedRun(cs, acts, FAR, O, |acts|)
    ensures |acts| == 8 + 3 * pulls
    ensures forall k :: 0 <= k < pulls ==>
              acts[8 + 3 * k..8 + 3 * k + 3] == [Build(FAR, O), Answer(FAR, O, [2]), Apply(FAR)]
    ensures forall i :: 8 <= i < |cs| ==>
              && O in cs[i] && FAR in cs[i] && Lag(cs[i], FAR, O) == 1 && cs[i][FAR].replica.Clock(O) == 1
              && cs[i][O].replica.HasLog(Pos(O, 2), cs[i][O].now)
  {
    cs, acts := seq(9 + 3 * pulls, i requires i >= 0 => Stage(i)), seq(8 + 3 * pulls, i requires i >= 0 => Act(i));
    forall i | 0 <= i < |acts| ensures Moves(cs, acts, i) { StageStep(i); }
    forall k | 0 <= k < pulls
      ensures acts[8 + 3 * k..8 + 3 * k + 3] == [Build(FAR, O), Answer(FAR, O, [2]), Apply(FAR)]
    {
      PullsRepeat(acts, k);
    }
    forall i | 8 <= i < |cs|
      ensures O in cs[i] && FAR in cs[i] && Lag(cs[i], FAR, O) == 1 && cs[i][FAR].replica.Clock(O) == 1
      ensures cs[i][O].replica.HasLog(Pos(O, 2), cs[i][O].now)
    {
      GapStays(i);
    }
    Distinct();
    TwoAreAligned(cs, acts);
  }
}
