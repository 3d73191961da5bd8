/** A lease lock: creating one cloud object takes it, a patch renews it, deletion gives it up, all on conditions. */
module LeaseLock {
  import opened Types

  // ---------- the object ----------

  /** `generation` tells objects of the same name apart; no request of this lock is conditional on it. */
  datatype Object = Object(generation: nat, metageneration: nat, expiration: Option<int>)

  /** `made` counts the objects created so far. */
  datatype Store = Store(obj: Option<Object>, made: nat)
  {
    predicate Matches(metageneration: nat) {
      obj.Some? && obj.value.metageneration == metageneration
    }
  }

  datatype Code = OK | NotFound | PreconditionFailed | Failed

  /** What becomes of a request: with the reply, or before it takes effect, it may be lost. */
  datatype Fate = Delivered | ReplyLost | RequestLost

  function Uploaded(b: Store, expiration: int): Store {
    if b.obj.Some? then b else Store(Some(Object(b.made + 1, 1, Some(expiration))), b.made + 1)
  }

  function Patched(b: Store, metageneration: nat, expiration: int): Store {
    if !b.Matches(metageneration) then b
    else b.(obj := Some(b.obj.value.(metageneration := metageneration + 1, expiration := Some(expiration))))
  }

  function Deleted(b: Store, metageneration: nat): Store {
    if b.Matches(metageneration) then b.(obj := None) else b
  }

  function MatchCode(b: Store, metageneration: nat): Code {
    if b.obj.None? then NotFound else if b.Matches(metageneration) then OK else PreconditionFailed
  }

  function Effect(before: Store, after: Store, fate: Fate): Store {
    if fate.RequestLost? then before else after
  }

  function Report(code: Code, fate: Fate): Code {
    if fate.Delivered? then code else Failed
  }

  class Bucket {
    var obj: Option<Object>
    var made: nat

    ghost function State(): Store
      reads this
    {
      Store(obj, made)
    }

    /** Conditional on there being no object. */
    method Upload(expiration: int, fate: Fate) returns (code: Code)
      modifies this
      ensures State() == Effect(old(State()), Uploaded(old(State()), expiration), fate)
      ensures code == Report(if old(obj).Some? then PreconditionFailed else OK, fate)
      ensures code.OK? <==> fate.Delivered? && old(obj).None?
      ensures obj == if !fate.RequestLost? && old(obj).None? then Some(Object(old(made) + 1, 1, Some(expiration)))
                     else old(obj)
    {
      if fate.RequestLost? { return Failed; }
      code := PreconditionFailed;
      if obj.None? {
        obj, made := Some(Object(made + 1, 1, Some(expiration))), made + 1;
        code := OK;
      }
      if fate.ReplyLost? { code := Failed; }
    }

    method Patch(metageneration: nat, expiration: int, fate: Fate) returns (code: Code, metageneration': nat)
      modifies this
      ensures State() == Effect(old(State()), Patched(old(State()), metageneration, expiration), fate)
      ensures code == Report(MatchCode(old(State()), metageneration), fate)
      ensures code.OK? ==> metageneration' == metageneration + 1
      ensures var was := old(obj);
              obj == if !fate.RequestLost? && was.Some? && was.value.metageneration == metageneration
                     then Some(Object(was.value.generation, metageneration + 1, Some(expiration))) else was
      ensures code.OK? <==> fate.Delivered? && old(obj).Some? && old(obj).value.metageneration == metageneration
    {
      metageneration' := 0;
      if fate.RequestLost? { return Failed, 0; }
      if obj.None? {
        code := NotFound;
      } else if obj.value.metageneration != metageneration {
        code := PreconditionFailed;
      } else {
        metageneration' := metageneration + 1;
        obj := Some(obj.value.(metageneration := metageneration', expiration := Some(expiration)));
        code := OK;
      }
      if fate.ReplyLost? { code := Failed; }
    }

    method Delete(metageneration: nat, fate: Fate) returns (code: Code)
      modifies this
      ensures State() == Effect(old(State()), Deleted(old(State()), metageneration), fate)
      ensures code == Report(MatchCode(old(State()), metageneration), fate)
      ensures var was := old(obj);
              obj == if !fate.RequestLost? && was.Some? && was.value.metageneration == metageneration then None else was
      ensures fate.Delivered? ==>
                && (code.OK? <==> old(obj).Some? && obj.None?) && (code.NotFound? <==> old(obj).None?) && !code.Failed?
    {
      if fate.RequestLost? { return Failed; }
      if obj.None? {
        code := NotFound;
      } else if obj.value.metageneration != metageneration {
        code := PreconditionFailed;
      } else {
        obj := None;
        code := OK;
      }
      if fate.ReplyLost? { code := Failed; }
    }

    method Stat(fate: Fate) returns (code: Code, found: Object)
      ensures code == Report(if obj.Some? then OK else NotFound, fate)
      ensures code.OK? ==> obj == Some(found)
    {
      found := if obj.Some? then obj.value else Object(0, 0, None);
      code := if !fate.Delivered? then Failed else if obj.Some? then OK else NotFound;
    }
  }

  // ---------- the mutex ----------

  /** Where a mutex is between calls and requests. `known` is its last known metageneration. */
  datatype Phase =
    | Idle
    | Putting
    | Waiting
    | Checking
    | Judging(seen: Object)
    | Erasing(seen: Object)
    | Created(generation: nat)
    | Holding(generation: nat, known: nat, healthy: bool)
    | Unlocking(generation: nat, known: nat)
  {
    /** From the creation of the object until the unlock's deletion. */
    predicate Claims() {
      Created? || Holding? || Unlocking?
    }
  }

  /**
    The object is deleted, if the request arrives, just if its expiration lies before `now`, and is left alone
    otherwise. One that is missing or was surely deleted is not waited for.
  */
  ghost predicate ExpiredOnly(before: Store, after: Store, now: int, stat: Fate, delete: Fate, wait: bool) {
    if !stat.Delivered? then after == before && wait
    else if before.obj.None? then after == before && !wait
    else if before.obj.value.expiration.None? || now <= before.obj.value.expiration.value then after == before && wait
    else
      && after.made == before.made && after.obj == (if delete.RequestLost? then before.obj else None)
      && (wait <==> !delete.Delivered?)
  }

  predicate Expired(o: Object, now: int) {
    o.expiration.Some? && o.expiration.value < now
  }

  function AfterPut(b: Store, fate: Fate): Phase {
    if !fate.Delivered? then Waiting
    else if b.obj.Some? then Checking
    else Created(b.made + 1)
  }

  function AfterStat(b: Store, fate: Fate): Phase {
    if !fate.Delivered? then Waiting
    else if b.obj.None? then Putting
    else Judging(b.obj.value)
  }

  function AfterJudge(seen: Object, now: int): Phase {
    if Expired(seen, now) then Erasing(seen) else Waiting
  }

  function AfterErase(b: Store, seen: Object, fate: Fate): Phase {
    if fate.Delivered? && b.Matches(seen.metageneration) then Putting else Waiting
  }

  function AfterRefresh(b: Store, holding: Phase, fate: Fate): Phase
    requires holding.Holding?
  {
    if fate.Delivered? && b.Matches(holding.known) then Holding(holding.generation, holding.known + 1, true)
    else Holding(holding.generation, holding.known, false)
  }

  class Mutex {
    const bucket: Bucket
    var lastKnownMetageneration: nat
    var refreshing: bool

    constructor (bucket: Bucket)
      ensures this.bucket == bucket && lastKnownMetageneration == 1 && !refreshing
    {
      this.bucket, lastKnownMetageneration, refreshing := bucket, 1, false;
    }

    /** Every error but an expired object that could be deleted, or a missing one, means to wait. */
    method ShouldWait(now: int, stat: Fate, delete: Fate) returns (wait: bool)
      modifies bucket
      ensures var b, seen := old(bucket.State()), AfterStat(old(bucket.State()), stat);
              if seen.Judging? && Expired(seen.seen, now) then
                && bucket.State() == Effect(b, Deleted(b, seen.seen.metageneration), delete)
                && wait == AfterErase(b, seen.seen, delete).Waiting?
              else
                bucket.State() == b && wait == !seen.Putting?
      ensures ExpiredOnly(old(bucket.State()), bucket.State(), now, stat, delete, wait)
    {
      var code, found := bucket.Stat(stat);
      if !code.OK? { return !code.NotFound?; }
      if found.expiration.None? { return true; }
      if now > found.expiration.value {
        var deleted := bucket.Delete(found.metageneration, delete);
        return !deleted.OK?;
      }
      return true;
    }

    /** One turn of Lock's loop. A mutex that is not locked is to try again, after a wait if so told. */
    method Attempt(expiration: int, now: int, put: Fate, stat: Fate, delete: Fate) returns (locked: bool, wait: bool)
      modifies this, bucket
      ensures var (b, phase) := Attempted(old(bucket.State()), expiration, now, put, stat, delete);
              && bucket.State() == b
              && locked == phase.Created? && wait == phase.Waiting?
      ensures locked <==> put.Delivered? && old(bucket.obj).None?
      ensures put.Delivered? && old(bucket.obj).Some? ==>
                ExpiredOnly(old(bucket.State()), bucket.State(), now, stat, delete, wait)
      ensures !put.Delivered? ==> wait
      ensures locked ==> bucket.obj.Some? && bucket.obj.value.metageneration == 1
                         && bucket.obj.value.expiration == Some(expiration)
      ensures if locked then lastKnownMetageneration == 1 && refreshing
              else lastKnownMetageneration == old(lastKnownMetageneration) && refreshing == old(refreshing)
    {
      var code := bucket.Upload(expiration, put);
      if !code.OK? {
        if !code.PreconditionFailed? { return false, true; }
        wait := ShouldWait(now, stat, delete);
        return false, wait;
      }
      lastKnownMetageneration := 1;
      refreshing := true;
      return true, false;
    }

    /**
      Attempts until one takes the lock, or the context ends during a wait. `turns` says what each attempt
      meets; when it runs out, the mutex is still waiting.
    */
    method Lock(turns: seq<Turn>) returns (locked: bool, used: nat)
      modifies this, bucket
      ensures used <= |turns| && bucket.State() == AfterTurns(old(bucket.State()), turns[..used])
      ensures forall k :: 0 <= k < used ==> (TakenAt(old(bucket.State()), turns, k) <==> locked && k == used - 1)
      ensures locked ==> used > 0 && lastKnownMetageneration == 1 && refreshing
      ensures !locked ==> lastKnownMetageneration == old(lastKnownMetageneration) && refreshing == old(refreshing)
      ensures !locked && used < |turns| ==>
                used > 0 && turns[used - 1].canceled && PhaseAfter(old(bucket.State()), turns[..used]).Waiting?
    {
      used := 0;
      while used < |turns|
        invariant used <= |turns| && bucket.State() == AfterTurns(old(bucket.State()), turns[..used])
        invariant forall k :: 0 <= k < used ==> !TakenAt(old(bucket.State()), turns, k)
        invariant lastKnownMetageneration == old(lastKnownMetageneration) && refreshing == old(refreshing)
      {
        var t := turns[used];
        var wait;
        TurnNext(old(bucket.State()), turns, used);
        used := used + 1;
        locked, wait := Attempt(t.expiration, t.now, t.put, t.stat, t.delete);
        if locked { return; }
        if wait && t.canceled { return; }
      }
      return false, used;
    }

    /** A failed refresh ends the refresh cycle. */
    method Refresh(expiration: int, fate: Fate) returns (ok: bool)
      requires refreshing
      modifies this, bucket
      ensures var b, known := old(bucket.State()), old(lastKnownMetageneration);
              && bucket.State() == Effect(b, Patched(b, known, expiration), fate)
              && Holding(0, lastKnownMetageneration, refreshing) == AfterRefresh(b, Holding(0, known, true), fate)
              && ok == refreshing
      ensures ok ==> bucket.obj.Some? && bucket.obj.value.metageneration == lastKnownMetageneration
                     && bucket.obj.value.expiration == Some(expiration)
    {
      var code, metageneration := bucket.Patch(lastKnownMetageneration, expiration, fate);
      if !code.OK? {
        refreshing := false;
        return false;
      }
      lastKnownMetageneration := metageneration;
      return true;
    }

    /** A failed precondition is ignored: the lock is given up all the same. */
    method Unlock(fate: Fate) returns (ok: bool)
      modifies this, bucket
      ensures var b, known := old(bucket.State()), lastKnownMetageneration;
              && bucket.State() == Effect(b, Deleted(b, known), fate)
              && ok == (fate.Delivered? && b.obj.Some?)
      ensures ok ==> bucket.obj.None? || bucket.obj.value.metageneration != lastKnownMetageneration
      ensures !refreshing && lastKnownMetageneration == old(lastKnownMetageneration)
    {
      refreshing := false;
      var code := bucket.Delete(lastKnownMetageneration, fate);
      if !code.OK? && !code.PreconditionFailed? { return false; }
      return true;
    }
  }

  /** The store and phase after an attempt that nothing interrupts. */
  function Attempted(b: Store, expiration: int, now: int, put: Fate, stat: Fate, delete: Fate): (Store, Phase) {
    var tried := AfterPut(b, put);
    if !tried.Checking? then (Effect(b, Uploaded(b, expiration), put), tried)
    else
      var found := AfterStat(b, stat);
      if !found.Judging? then (b, found)
      else
        var judged := AfterJudge(found.seen, now);
        if !judged.Erasing? then (b, judged)
        else (Effect(b, Deleted(b, judged.seen.metageneration), delete), AfterErase(b, judged.seen, delete))
  }

  /** What one attempt meets: the two clock readings, the fates of its requests, and a canceled wait. */
  datatype Turn = Turn(expiration: int, now: int, put: Fate, stat: Fate, delete: Fate, canceled: bool)

  function AfterTurns(b: Store, turns: seq<Turn>): Store {
    if turns == [] then b
    else
      var t := turns[|turns| - 1];
      Attempted(AfterTurns(b, turns[..|turns| - 1]), t.expiration, t.now, t.put, t.stat, t.delete).0
  }

  function PhaseAfter(b: Store, turns: seq<Turn>): Phase
    requires turns != []
  {
    var t := turns[|turns| - 1];
    Attempted(AfterTurns(b, turns[..|turns| - 1]), t.expiration, t.now, t.put, t.stat, t.delete).1
  }

  /** The k-th attempt takes the lock. */
  predicate TakenAt(b: Store, turns: seq<Turn>, k: nat) {
    && k < |turns|
    && PhaseAfter(b, turns[..k + 1]).Created?
  }

  lemma TurnNext(b: Store, turns: seq<Turn>, k: nat)
    requires k < |turns|
    ensures var t := turns[k];
            Attempted(AfterTurns(b, turns[..k]), t.expiration, t.now, t.put, t.stat, t.delete)
            == (AfterTurns(b, turns[..k + 1]), PhaseAfter(b, turns[..k + 1]))
    ensures TakenAt(b, turns, k) == PhaseAfter(b, turns[..k + 1]).Created?
  {
    assert turns[..k + 1][..k] == turns[..k];
  }

  // ---------- contenders, interleaved ----------

  datatype State = State(store: Store, phases: map<nat, Phase>)

  /** Each action is one request with its reply, or a step of a mutex between requests. */
  datatype Action =
    | Begin(mutex: nat)
    | Put(mutex: nat, expiration: int, fate: Fate)
    | Grant(mutex: nat)
    | Stat(mutex: nat, fate: Fate)
    | Judge(mutex: nat, now: int)
    | Erase(mutex: nat, fate: Fate)
    | Retry(mutex: nat)
    | GiveUp(mutex: nat)
    | Refresh(mutex: nat, expiration: int, fate: Fate)
    | Unlock(mutex: nat)
    | Finish(mutex: nat, fate: Fate)

  predicate Enabled(s: State, a: Action) {
    a.mutex in s.phases
    && var p := s.phases[a.mutex];
       match a
       case Begin(_) => p.Idle?
       case Put(_, _, _) => p.Putting?
       case Grant(_) => p.Created?
       case Stat(_, _) => p.Checking?
       case Judge(_, _) => p.Judging?
       case Erase(_, _) => p.Erasing?
       case Retry(_) => p.Waiting?
       case GiveUp(_) => p.Waiting?
       case Refresh(_, _, _) => p.Holding? && p.healthy
       case Unlock(_) => p.Holding?
       case Finish(_, _) => p.Unlocking?
  }

  function NextPhase(s: State, a: Action): Phase
    requires Enabled(s, a)
  {
    var p := s.phases[a.mutex];
    match a
    case Begin(_) => Putting
    case Put(_, _, fate) => AfterPut(s.store, fate)
    case Grant(_) => Holding(p.generation, 1, true)
    case Stat(_, fate) => AfterStat(s.store, fate)
    case Judge(_, now) => AfterJudge(p.seen, now)
    case Erase(_, fate) => AfterErase(s.store, p.seen, fate)
    case Retry(_) => Putting
    case GiveUp(_) => Idle
    case Refresh(_, _, fate) => AfterRefresh(s.store, p, fate)
    case Unlock(_) => Unlocking(p.generation, p.known)
    case Finish(_, _) => Idle
  }

  function NextStore(s: State, a: Action): Store
    requires Enabled(s, a)
  {
    var b, p := s.store, s.phases[a.mutex];
    match a
    case Put(_, expiration, fate) => Effect(b, Uploaded(b, expiration), fate)
    case Erase(_, fate) => Effect(b, Deleted(b, p.seen.metageneration), fate)
    case Refresh(_, expiration, fate) => Effect(b, Patched(b, p.known, expiration), fate)
    case Finish(_, fate) => Effect(b, Deleted(b, p.known), fate)
    case _ => b
  }

  function Next(s: State, a: Action): State
    requires Enabled(s, a)
  {
    State(NextStore(s, a), s.phases[a.mutex := NextPhase(s, a)])
  }

  /** At first nobody contends; an object may have been left behind by anyone. */
  ghost predicate Init(s: State) {
    && (s.store.obj.Some? ==> s.store.obj.value.generation <= s.store.made)
    && forall m :: m in s.phases ==> s.phases[m].Idle?
  }

  ghost predicate Run(ss: seq<State>, acts: seq<Action>) {
    |ss| == |acts| + 1 && Init(ss[0]) && forall i :: 0 <= i < |acts| ==> Moves(ss, acts, i)
  }

  ghost predicate Moves(ss: seq<State>, acts: seq<Action>, i: nat) {
    && i < |acts| && i + 1 < |ss|
    && Enabled(ss[i], acts[i]) && ss[i + 1] == Next(ss[i], acts[i])
  }

  ghost predicate Claimed(s: State, generation: nat) {
    exists m :: Claims(s, m) && s.phases[m].generation == generation
  }

  predicate Claims(s: State, m: nat) {
    m in s.phases && s.phases[m].Claims()
  }

  /** A claimed object has not expired by the clock of the contender who is about to judge. */
  ghost predicate LeaseKept(s: State, a: Action) {
    (a.Judge? && s.store.obj.Some? && Claimed(s, s.store.obj.value.generation)) ==>
      (s.store.obj.value.expiration.Some? ==> a.now <= s.store.obj.value.expiration.value)
  }

  /** A claimed object that a contender's deletion takes away is at least the very one it looked at. */
  ghost predicate NotRecreated(s: State, a: Action) {
    && Enabled(s, a)
    && ((a.Erase? && !a.fate.RequestLost? && s.store.Matches(s.phases[a.mutex].seen.metageneration)
     && Claimed(s, s.store.obj.value.generation)) ==>
      s.store.obj.value.generation == s.phases[a.mutex].seen.generation)
  }

  ghost predicate Orderly(ss: seq<State>, acts: seq<Action>) {
    Run(ss, acts) && forall i :: 0 <= i < |acts| ==> OrderlyAt(ss, acts, i)
  }

  ghost predicate OrderlyAt(ss: seq<State>, acts: seq<Action>, i: nat) {
    && i < |acts| && i < |ss|
    && Enabled(ss[i], acts[i]) && LeaseKept(ss[i], acts[i]) && NotRecreated(ss[i], acts[i])
  }

  // ---------- the invariant ----------

  /** Whoever claims the lock has its object in place. */
  ghost predicate Owns(s: State, m: nat) {
    Claims(s, m) ==> s.store.obj.Some? && s.store.obj.value.generation == s.phases[m].generation
  }

  /** What a contender saw is the object's present or past, and what it is about to erase is not claimed. */
  ghost predicate SeenFits(s: State, m: nat) {
    && m in s.phases
    && var p := s.phases[m];
       p.Judging? || p.Erasing? ==>
         && p.seen.generation <= s.store.made
         && (s.store.obj.Some? && s.store.obj.value.generation == p.seen.generation ==>
               && p.seen.metageneration <= s.store.obj.value.metageneration
               && (p.seen.metageneration == s.store.obj.value.metageneration ==> p.seen == s.store.obj.value)
               && (p.Erasing? && p.seen == s.store.obj.value ==> !Claimed(s, p.seen.generation)))
  }

  ghost predicate Fits(s: State) {
    && (s.store.obj.Some? ==> s.store.obj.value.generation <= s.store.made)
    && (forall m {:trigger Owns(s, m)} :: Owns(s, m))
    && (forall m {:trigger SeenFits(s, m)} :: m in s.phases ==> SeenFits(s, m))
    && (forall m, n :: Claims(s, m) && Claims(s, n) ==> m == n)
  }

  /** Only the creation of an object makes a claim. */
  lemma ClaimsAfter(s: State, a: Action, t: State, m: nat)
    requires Enabled(s, a) && t == Next(s, a)
    ensures Claims(t, m) && !Claims(s, m) ==>
              && a.Put? && m == a.mutex && s.store.obj.None? && a.fate.Delivered?
              && t.phases[m].generation == s.store.made + 1
    ensures Claims(t, m) && Claims(s, m) ==> t.phases[m].generation == s.phases[m].generation
  {
  }

  lemma ClaimedAfter(s: State, a: Action, t: State, generation: nat)
    requires Enabled(s, a) && t == Next(s, a) && generation <= s.store.made && Claimed(t, generation)
    ensures Claimed(s, generation)
  {
    var m :| Claims(t, m) && t.phases[m].generation == generation;
    ClaimsAfter(s, a, t, m);
    assert Claims(s, m);
  }

  /** An orderly deletion spares every claimed object but the deleter's own. */
  lemma OwnsAfter(s: State, a: Action, t: State, m: nat)
    requires Fits(s) && Enabled(s, a) && NotRecreated(s, a) && t == Next(s, a)
    ensures Owns(t, m)
  {
    ClaimsAfter(s, a, t, m);
    assert Owns(s, m);
    if Claims(s, m) && Claims(t, m) {
      if a.Erase? {
        assert SeenFits(s, a.mutex);
        assert Claimed(s, s.phases[m].generation);
      }
      if a.Finish? { assert Claims(s, a.mutex); }
    }
  }

  lemma OneAfter(s: State, a: Action, t: State)
    requires Fits(s) && Enabled(s, a) && t == Next(s, a)
    ensures forall m, n :: Claims(t, m) && Claims(t, n) ==> m == n
  {
    forall m, n | Claims(t, m) && Claims(t, n) ensures m == n {
      ClaimsAfter(s, a, t, m);
      ClaimsAfter(s, a, t, n);
      assert Owns(s, m) && Owns(s, n);
    }
  }

  lemma SeenAfter(s: State, a: Action, t: State, m: nat)
    requires Fits(s) && Enabled(s, a) && LeaseKept(s, a) && t == Next(s, a) && m in t.phases
    ensures SeenFits(t, m)
  {
    assert SeenFits(s, m) && SeenFits(s, a.mutex);
    var p := t.phases[m];
    if p.Erasing? && t.store.obj == Some(p.seen) && Claimed(t, p.seen.generation) {
      ClaimedAfter(s, a, t, p.seen.generation);
      assert false;
    }
  }

  lemma StepFits(s: State, a: Action, t: State)
    requires Fits(s) && Enabled(s, a) && LeaseKept(s, a) && NotRecreated(s, a) && t == Next(s, a)
    ensures Fits(t)
  {
    forall m ensures Owns(t, m) { OwnsAfter(s, a, t, m); }
    forall m | m in t.phases ensures SeenFits(t, m) { SeenAfter(s, a, t, m); }
    OneAfter(s, a, t);
  }

  lemma {:induction false} RunFits(ss: seq<State>, acts: seq<Action>, i: nat)
    requires Run(ss, acts) && i < |ss| && forall k :: 0 <= k < i ==> OrderlyAt(ss, acts, k)
    ensures Fits(ss[i])
  {
    if i > 0 {
      RunFits(ss, acts, i - 1);
      assert Moves(ss, acts, i - 1) && OrderlyAt(ss, acts, i - 1);
      StepFits(ss[i - 1], acts[i - 1], ss[i]);
    }
  }

  // ---------- consequences ----------

  /** At every instant at most one mutex claims the lock, and while it does its object exists. */
  lemma Exclusion(ss: seq<State>, acts: seq<Action>, i: nat, m: nat, n: nat)
    requires Orderly(ss, acts) && i < |ss| && Claims(ss[i], m)
    ensures Claims(ss[i], n) ==> n == m
    ensures ss[i].store.obj.Some? && ss[i].store.obj.value.generation == ss[i].phases[m].generation
  {
    RunFits(ss, acts, i);
    assert Owns(ss[i], m);
  }

  /** Nobody but its holder ends the life of a claimed object: it goes only when the holder unlocks. */
  lemma OnlyTheHolderDeletes(ss: seq<State>, acts: seq<Action>, i: nat, m: nat)
    requires Orderly(ss, acts) && i < |acts| && Claims(ss[i], m)
    requires ss[i + 1].store.obj.None? || ss[i + 1].store.obj.value.generation != ss[i].phases[m].generation
    ensures acts[i].Finish? && acts[i].mutex == m
  {
    RunFits(ss, acts, i);
    RunFits(ss, acts, i + 1);
    assert Moves(ss, acts, i);
    assert Owns(ss[i + 1], m);
  }

  /** Exactly when a contender's deletion takes a claimed object away: when it was made after the look. */
  lemma EraseHarms(s: State, a: Action, m: nat)
    requires Fits(s) && Enabled(s, a) && a.Erase? && Claims(s, m)
    ensures !Owns(Next(s, a), m) <==> !NotRecreated(s, a)
  {
    assert Owns(s, m) && SeenFits(s, a.mutex);
    assert Claimed(s, s.phases[m].generation);
  }

  /** While leases are kept, claimed objects exist throughout a run just if none was made after a look. */
  lemma ExclusionExact(ss: seq<State>, acts: seq<Action>)
    requires Run(ss, acts) && forall k :: 0 <= k < |acts| ==> LeaseKept(ss[k], acts[k])
    ensures Orderly(ss, acts) <==> forall i, m :: 0 <= i < |ss| ==> Owns(ss[i], m)
  {
    if Orderly(ss, acts) {
      forall i, m | 0 <= i < |ss| ensures Owns(ss[i], m) { RunFits(ss, acts, i); }
    }
    if forall i, m :: 0 <= i < |ss| ==> Owns(ss[i], m) { OwnersAreOrderly(ss, acts, |acts|); }
  }

  lemma {:induction false} OwnersAreOrderly(ss: seq<State>, acts: seq<Action>, n: nat)
    requires Run(ss, acts) && n <= |acts| && forall k :: 0 <= k < |acts| ==> LeaseKept(ss[k], acts[k])
    requires forall i, m :: 0 <= i < |ss| ==> Owns(ss[i], m)
    ensures forall k :: 0 <= k < n ==> OrderlyAt(ss, acts, k)
  {
    if n > 0 {
      OwnersAreOrderly(ss, acts, n - 1);
      RunFits(ss, acts, n - 1);
      assert Moves(ss, acts, n - 1);
      var s, a := ss[n - 1], acts[n - 1];
      if a.Erase? && s.store.obj.Some? && Claimed(s, s.store.obj.value.generation) {
        var m :| Claims(s, m) && s.phases[m].generation == s.store.obj.value.generation;
        EraseHarms(s, a, m);
        assert Owns(ss[n], m);
      }
    }
  }

  // ---------- clocks ----------

  /** The k-th action writes an expiration: a creation that meets no object, or a refresh that matches. */
  ghost predicate Writes(ss: seq<State>, acts: seq<Action>, k: nat) {
    && k < |acts| && k < |ss|
    && var s, a := ss[k], acts[k];
       match a
       case Put(_, _, fate) => !fate.RequestLost? && s.store.obj.None?
       case Refresh(m, _, fate) =>
         && !fate.RequestLost? && m in s.phases && s.phases[m].Holding?
         && s.store.obj.Some? && s.store.obj.value.metageneration == s.phases[m].known
       case _ => false
  }

  ghost predicate WritesLast(ss: seq<State>, acts: seq<Action>, k: nat, i: nat) {
    Writes(ss, acts, k) && k < i && forall l :: k < l < i ==> !Writes(ss, acts, l)
  }

  /** Whoever judges a claimed object does so, by its own clock, no later than the expiration written last. */
  ghost predicate InTime(ss: seq<State>, acts: seq<Action>) {
    forall k, i :: 0 <= k < i < |acts| && i < |ss| && WritesLast(ss, acts, k, i) && acts[i].Judge?
                   && ss[i].store.obj.Some? && Claimed(ss[i], ss[i].store.obj.value.generation) ==>
      acts[i].now <= acts[k].expiration
  }

  lemma {:induction false} LastWrite(ss: seq<State>, acts: seq<Action>, i: nat) returns (k: nat)
    requires Run(ss, acts) && i < |ss|
    ensures WritesLast(ss, acts, k, i) || ((forall l :: 0 <= l < i ==> !Writes(ss, acts, l)) && k == i)
  {
    k := i;
    if i > 0 {
      if Writes(ss, acts, i - 1) { return i - 1; }
      k := LastWrite(ss, acts, i - 1);
      if k == i - 1 { k := i; }
    }
  }

  /** What was written last is the expiration of the object, as long as there is one. */
  lemma {:induction false} WrittenStays(ss: seq<State>, acts: seq<Action>, k: nat, i: nat)
    requires Run(ss, acts) && i < |ss| && WritesLast(ss, acts, k, i)
    ensures ss[i].store.obj.Some? ==> ss[i].store.obj.value.expiration == Some(acts[k].expiration)
  {
    assert Moves(ss, acts, i - 1);
    if k < i - 1 {
      WrittenStays(ss, acts, k, i - 1);
      assert !Writes(ss, acts, i - 1);
    }
  }

  lemma {:induction false} NoWriteNoClaim(ss: seq<State>, acts: seq<Action>, i: nat, m: nat)
    requires Run(ss, acts) && i < |ss| && forall l :: 0 <= l < i ==> !Writes(ss, acts, l)
    ensures !Claims(ss[i], m)
  {
    if i > 0 {
      NoWriteNoClaim(ss, acts, i - 1, m);
      assert Moves(ss, acts, i - 1) && !Writes(ss, acts, i - 1);
      ClaimsAfter(ss[i - 1], acts[i - 1], ss[i], m);
    }
  }

  /** Leases are kept just if no claimed object is judged later than its last creation or refresh allows. */
  lemma LeasesKeptInTime(ss: seq<State>, acts: seq<Action>)
    requires Run(ss, acts)
    ensures InTime(ss, acts) <==> forall i :: 0 <= i < |acts| ==> LeaseKept(ss[i], acts[i])
  {
    if InTime(ss, acts) {
      forall i | 0 <= i < |acts| ensures LeaseKept(ss[i], acts[i]) {
        if acts[i].Judge? && ss[i].store.obj.Some? && Claimed(ss[i], ss[i].store.obj.value.generation) {
          var m :| Claims(ss[i], m) && ss[i].phases[m].generation == ss[i].store.obj.value.generation;
          var k := LastWrite(ss, acts, i);
          if k == i { NoWriteNoClaim(ss, acts, i, m); }
          WrittenStays(ss, acts, k, i);
        }
      }
    }
    if forall i :: 0 <= i < |acts| ==> LeaseKept(ss[i], acts[i]) {
      forall k, i | 0 <= k < i < |acts| && WritesLast(ss, acts, k, i) && acts[i].Judge?
                    && ss[i].store.obj.Some? && Claimed(ss[i], ss[i].store.obj.value.generation)
        ensures acts[i].now <= acts[k].expiration
      {
        WrittenStays(ss, acts, k, i);
      }
    }
  }

  /** So with judgements in time, and no deletion of an object made after the look, the lock excludes. */
  lemma ExclusionInTime(ss: seq<State>, acts: seq<Action>, i: nat, m: nat, n: nat)
    requires Run(ss, acts) && InTime(ss, acts) && forall k :: 0 <= k < |acts| ==> NotRecreated(ss[k], acts[k])
    requires i < |ss| && Claims(ss[i], m)
    ensures Claims(ss[i], n) ==> n == m
    ensures ss[i].store.obj.Some? && ss[i].store.obj.value.generation == ss[i].phases[m].generation
  {
    LeasesKeptInTime(ss, acts);
    forall k | 0 <= k < |acts| ensures OrderlyAt(ss, acts, k) { assert Moves(ss, acts, k); }
    Exclusion(ss, acts, i, m, n);
  }

  // ---------- what the holder knows ----------

  /** A holder all of whose replies arrived knows the metageneration of its object. */
  ghost predicate Knows(s: State, m: nat) {
    m in s.phases ==>
      && (s.phases[m].Created? ==> s.store.Matches(1))
      && (s.phases[m].Holding? && s.phases[m].healthy ==> s.store.Matches(s.phases[m].known))
  }

  lemma KnowsAfter(s: State, a: Action, t: State, m: nat)
    requires Fits(s) && Fits(t) && Enabled(s, a) && t == Next(s, a) && Knows(s, m)
    ensures Knows(t, m)
  {
    ClaimsAfter(s, a, t, m);
    assert Owns(s, m) && Owns(t, m);
    if Claims(s, m) && a.mutex != m { assert Claims(s, a.mutex) ==> a.mutex == m; }
  }

  lemma {:induction false} RunKnows(ss: seq<State>, acts: seq<Action>, i: nat, m: nat)
    requires Orderly(ss, acts) && i < |ss|
    ensures Knows(ss[i], m)
  {
    if i > 0 {
      RunKnows(ss, acts, i - 1, m);
      RunFits(ss, acts, i - 1);
      RunFits(ss, acts, i);
      assert Moves(ss, acts, i - 1);
      KnowsAfter(ss[i - 1], acts[i - 1], ss[i], m);
    }
  }

  /** So each of its refreshes that is not lost renews the lease of its object, and if confirmed is not the last. */
  lemma RefreshWorks(ss: seq<State>, acts: seq<Action>, i: nat)
    requires Orderly(ss, acts) && i < |acts| && acts[i].Refresh? && !acts[i].fate.RequestLost?
    ensures acts[i].mutex in ss[i].phases && acts[i].mutex in ss[i + 1].phases
    ensures var before, after := ss[i].phases[acts[i].mutex], ss[i + 1].phases[acts[i].mutex];
            && ss[i].store.obj.Some? && ss[i + 1].store.obj.Some?
            && before.Holding? && ss[i].store.obj.value.generation == before.generation
            && ss[i + 1].store.obj.value ==
               Object(before.generation, ss[i].store.obj.value.metageneration + 1, Some(acts[i].expiration))
            && after.Holding? && (after.healthy <==> acts[i].fate.Delivered?)
  {
    var m := acts[i].mutex;
    assert Moves(ss, acts, i);
    RunKnows(ss, acts, i, m);
    RunFits(ss, acts, i);
    assert Claims(ss[i], m) && Owns(ss[i], m);
  }

  lemma {:induction false} UnlockingKnows(ss: seq<State>, acts: seq<Action>, i: nat, j: nat, m: nat)
    requires Orderly(ss, acts) && i < j < |ss| && acts[i] == Unlock(m)
    requires m in ss[i].phases && ss[i].phases[m].Holding? && ss[i].phases[m].healthy
    requires forall l :: i < l < j ==> acts[l].mutex != m
    ensures m in ss[j].phases && ss[j].phases[m].Unlocking? && ss[j].store.Matches(ss[j].phases[m].known)
  {
    RunFits(ss, acts, j - 1);
    RunFits(ss, acts, j);
    assert Moves(ss, acts, j - 1);
    if i < j - 1 {
      UnlockingKnows(ss, acts, i, j - 1, m);
      assert Claims(ss[j - 1], m) && Claims(ss[j], m);
      assert Owns(ss[j - 1], m) && Owns(ss[j], m);
      assert acts[j - 1].mutex != m;
      assert !Claims(ss[j - 1], acts[j - 1].mutex);
    } else {
      RunKnows(ss, acts, i, m);
    }
  }

  /** And its unlock, unless the request is lost, leaves no object behind. */
  lemma UnlockWorks(ss: seq<State>, acts: seq<Action>, i: nat, j: nat, m: nat, fate: Fate)
    requires Orderly(ss, acts) && i < j < |acts| && acts[i] == Unlock(m) && acts[j] == Finish(m, fate)
    requires m in ss[i].phases && ss[i].phases[m].Holding? && ss[i].phases[m].healthy
    requires forall l :: i < l < j ==> acts[l].mutex != m
    requires !fate.RequestLost?
    ensures ss[j].store.obj.Some? && ss[j + 1].store.obj.None?
  {
    UnlockingKnows(ss, acts, i, j, m);
    assert Moves(ss, acts, j);
  }

  /** An attempt is what its requests do one after the other. */
  lemma AttemptIsSteps(s: State, m: nat, expiration: int, now: int, put: Fate, stat: Fate, delete: Fate)
    requires m in s.phases && s.phases[m].Putting?
    ensures var (b, phase) := Attempted(s.store, expiration, now, put, stat, delete);
            var s1 := Next(s, Put(m, expiration, put));
            var s2 := if s1.phases[m].Checking? then Next(s1, Stat(m, stat)) else s1;
            var s3 := if s2.phases[m].Judging? then Next(s2, Judge(m, now)) else s2;
            var s4 := if s3.phases[m].Erasing? then Next(s3, Erase(m, delete)) else s3;
            s4 == State(b, s.phases[m := phase])
  {
  }

  // ---------- a run with a re-creation ----------

  function Two(obj: Option<Object>, made: nat, p: Phase, q: Phase): State {
    State(Store(obj, made), map[0 := p, 1 := q])
  }

  /** A run in which leases are kept, though perhaps objects re-created, and which ends in `last`. */
  ghost predicate LeasesKept(ss: seq<State>, acts: seq<Action>, last: State) {
    Run(ss, acts) && ss[|acts|] == last && forall i :: 0 <= i < |acts| ==> LeaseKept(ss[i], acts[i])
  }

  lemma Extend(ss: seq<State>, acts: seq<Action>, last: State, a: Action, next: State)
    returns (ss': seq<State>, acts': seq<Action>)
    requires LeasesKept(ss, acts, last) && Enabled(last, a) && LeaseKept(last, a) && next == Next(last, a)
    ensures LeasesKept(ss', acts', next)
  {
    ss', acts' := ss + [next], acts + [a];
    forall i | 0 <= i < |acts'| ensures Moves(ss', acts', i) {
      if i < |acts| { assert Moves(ss, acts, i); }
    }
  }

  const OLD := Object(1, 1, Some(0))

  lemma FirstLooks() returns (ss: seq<State>, acts: seq<Action>)
    ensures LeasesKept(ss, acts, Two(Some(OLD), 1, Erasing(OLD), Idle))
  {
    ss, acts := [Two(Some(OLD), 1, Idle, Idle)], [];
    ss, acts := Extend(ss, acts, Two(Some(OLD), 1, Idle, Idle), Begin(0), Two(Some(OLD), 1, Putting, Idle));
    ss, acts := Extend(
      ss, acts, Two(Some(OLD), 1, Putting, Idle), Put(0, 100, Delivered), Two(Some(OLD), 1, Checking, Idle));
    ss, acts := Extend(
      ss, acts, Two(Some(OLD), 1, Checking, Idle), Stat(0, Delivered), Two(Some(OLD), 1, Judging(OLD), Idle));
    ss, acts := Extend(
      ss, acts, Two(Some(OLD), 1, Judging(OLD), Idle), Judge(0, 50), Two(Some(OLD), 1, Erasing(OLD), Idle));
  }

  lemma SecondDeletes() returns (ss: seq<State>, acts: seq<Action>)
    ensures LeasesKept(ss, acts, Two(None, 1, Erasing(OLD), Putting))
  {
    ss, acts := FirstLooks();
    ss, acts := Extend(
      ss, acts, Two(Some(OLD), 1, Erasing(OLD), Idle), Begin(1), Two(Some(OLD), 1, Erasing(OLD), Putting));
    ss, acts := Extend(
      ss, acts, Two(Some(OLD), 1, Erasing(OLD), Putting), Put(1, 100, Delivered),
      Two(Some(OLD), 1, Erasing(OLD), Checking));
    ss, acts := Extend(
      ss, acts, Two(Some(OLD), 1, Erasing(OLD), Checking), Stat(1, Delivered),
      Two(Some(OLD), 1, Erasing(OLD), Judging(OLD)));
    ss, acts := Extend(
      ss, acts, Two(Some(OLD), 1, Erasing(OLD), Judging(OLD)), Judge(1, 50),
      Two(Some(OLD), 1, Erasing(OLD), Erasing(OLD)));
    ss, acts := Extend(
      ss, acts, Two(Some(OLD), 1, Erasing(OLD), Erasing(OLD)), Erase(1, Delivered),
      Two(None, 1, Erasing(OLD), Putting));
  }

  /**
    Contender 0 looks at an expired object; contender 1 deletes it and takes the lock; contender 0's
    deletion matches the metageneration of the new object, and both hold the lock.
  */
  lemma RecreationBreaksExclusion() returns (ss: seq<State>, acts: seq<Action>, last: State)
    ensures LeasesKept(ss, acts, last)
    ensures 0 in last.phases && 1 in last.phases && last.phases[0].Holding? && last.phases[1].Holding?
  {
    ss, acts := SecondDeletes();
    ss, acts := Extend(
      ss, acts, Two(None, 1, Erasing(OLD), Putting), Put(1, 100, Delivered),
      Two(Some(Object(2, 1, Some(100))), 2, Erasing(OLD), Created(2)));
    ss, acts := Extend(
      ss, acts, Two(Some(Object(2, 1, Some(100))), 2, Erasing(OLD), Created(2)), Grant(1),
      Two(Some(Object(2, 1, Some(100))), 2, Erasing(OLD), Holding(2, 1, true)));
    ss, acts := Extend(
      ss, acts, Two(Some(Object(2, 1, Some(100))), 2, Erasing(OLD), Holding(2, 1, true)), Erase(0, Delivered),
      Two(None, 2, Putting, Holding(2, 1, true)));
    ss, acts := Extend(
      ss, acts, Two(None, 2, Putting, Holding(2, 1, true)), Put(0, 100, Delivered),
      Two(Some(Object(3, 1, Some(100))), 3, Created(3), Holding(2, 1, true)));
    ss, acts := Extend(
      ss, acts, Two(Some(Object(3, 1, Some(100))), 3, Created(3), Holding(2, 1, true)), Grant(0),
      Two(Some(Object(3, 1, Some(100))), 3, Holding(3, 1, true), Holding(2, 1, true)));
    last := Two(Some(Object(3, 1, Some(100))), 3, Holding(3, 1, true), Holding(2, 1, true));
  }
}
