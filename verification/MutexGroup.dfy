/**
  Mutexes by name, kept only while somebody uses them. Calls run concurrently: entering, acquiring the
  named mutex, releasing it and leaving are the atomic steps, interleaved in any order.
*/
module MutexGroups {
  import opened Types

  /** `made` counts the mutexes created so far; a mutex is known by its number, which no other ever has. */
  datatype Group = Group(ready: bool, names: map<string, nat>, waiters: map<string, int>, made: nat)
  {
    function Waiters(name: string): int {
      if name in waiters then waiters[name] else 0
    }
  }

  const EMPTY_GROUP := Group(false, map[], map[], 0)

  /** The first use makes both maps; later ones only the missing mutex. */
  function Initialized(g: Group, name: string): Group {
    if !g.ready then Group(true, map[name := g.made], map[], g.made + 1)
    else if name !in g.names then g.(names := g.names[name := g.made], made := g.made + 1)
    else g
  }

  function Registered(g: Group, name: string): Group {
    var h := Initialized(g, name);
    h.(waiters := h.waiters[name := h.Waiters(name) + 1])
  }

  /** None is the panic of a double unlock. */
  function Deregistered(g: Group, name: string): Option<Group> {
    if g.Waiters(name) < 1 then None
    else if g.Waiters(name) == 1 then Some(g.(names := g.names - {name}, waiters := g.waiters - {name}))
    else Some(g.(waiters := g.waiters[name := g.Waiters(name) - 1]))
  }

  class MutexGroup {
    var ready: bool
    var names: map<string, nat>
    var waiters: map<string, int>
    ghost var made: nat

    ghost function State(): Group
      reads this
    {
      Group(ready, names, waiters, made)
    }

    constructor ()
      ensures State() == EMPTY_GROUP
    {
      ready, names, waiters, made := false, map[], map[], 0;
    }

    /** `unused` is the identity of the mutex that is allocated if one is needed. */
    method Init(name: string, unused: nat)
      requires unused == made
      modifies this
      ensures State() == Initialized(old(State()), name)
    {
      if !ready {
        names := map[name := unused];
        waiters := map[];
        ready, made := true, made + 1;
        return;
      }
      if name !in names {
        names := names[name := unused];
        made := made + 1;
      }
    }

    /** The section of Lock that holds the group's own mutex; the caller goes on to lock `mu`. */
    method Register(name: string, unused: nat) returns (mu: nat)
      requires unused == made && (ready || names == map[])
      modifies this
      ensures State() == Registered(old(State()), name)
      ensures name in names && mu == names[name]
    {
      Init(name, unused);
      mu := names[name];
      waiters := waiters[name := (if name in waiters then waiters[name] else 0) + 1];
    }

    /** The section of unlock that holds the group's own mutex, after `mu` was unlocked. */
    method Deregister(name: string) returns (panics: bool)
      modifies this
      ensures panics == Deregistered(old(State()), name).None?
      ensures !panics ==> State() == Deregistered(old(State()), name).value
    {
      var waiting := (if name in waiters then waiters[name] else 0) - 1;
      waiters := waiters[name := waiting];
      if waiting <= 0 {
        if waiting < 0 { return true; }
        names := names - {name};
        waiters := waiters - {name};
      }
      return false;
    }
  }

  // ---------- interleavings ----------

  datatype Phase = Waiting | Holding | Leaving

  /** A call of Lock and of the unlock it returns, with the mutex it was given. */
  datatype Call = Call(name: string, mu: nat, phase: Phase)

  datatype State = State(group: Group, locked: set<nat>, calls: map<nat, Call>, panicked: bool)

  const START := State(EMPTY_GROUP, {}, map[], false)

  datatype Action =
    | Enter(call: nat, name: string)
    | Acquire(call: nat)
    | Release(call: nat)
    | Leave(call: nat)

  predicate Enabled(s: State, a: Action) {
    match a
    case Enter(c, _) => c !in s.calls
    case Acquire(c) => c in s.calls && s.calls[c].phase.Waiting? && s.calls[c].mu !in s.locked
    case Release(c) => c in s.calls && s.calls[c].phase.Holding?
    case Leave(c) => c in s.calls && s.calls[c].phase.Leaving?
  }

  function Next(s: State, a: Action): State
    requires Enabled(s, a)
  {
    match a
    case Enter(c, name) =>
      var g := Registered(s.group, name);
      s.(group := g, calls := s.calls[c := Call(name, if name in g.names then g.names[name] else g.made, Waiting)])
    case Acquire(c) =>
      s.(locked := s.locked + {s.calls[c].mu}, calls := s.calls[c := s.calls[c].(phase := Holding)])
    case Release(c) =>
      if s.calls[c].mu !in s.locked then s.(panicked := true)
      else s.(locked := s.locked - {s.calls[c].mu}, calls := s.calls[c := s.calls[c].(phase := Leaving)])
    case Leave(c) =>
      var g := Deregistered(s.group, s.calls[c].name);
      if g.None? then s.(panicked := true)
      else s.(group := g.value, calls := s.calls - {c})
  }

  ghost predicate Run(ss: seq<State>, acts: seq<Action>) {
    |ss| == |acts| + 1 && ss[0] == START && forall i :: 0 <= i < |acts| ==> Moves(ss, acts, i)
  }

  ghost predicate Moves(ss: seq<State>, acts: seq<Action>, i: nat) {
    && i < |acts| && i + 1 < |ss|
    && Enabled(ss[i], acts[i]) && ss[i + 1] == Next(ss[i], acts[i])
  }

  function Users(s: State, name: string): set<nat> {
    set c | c in s.calls && s.calls[c].name == name
  }

  // ---------- the invariant ----------

  ghost predicate NameFits(s: State, name: string) {
    && s.group.Waiters(name) == |Users(s, name)|
    && (name in s.group.names <==> Users(s, name) != {})
    && (name in s.group.names <==> name in s.group.waiters)
    && (name in s.group.names ==> s.group.names[name] < s.group.made)
  }

  ghost predicate CallFits(s: State, c: nat) {
    && c in s.calls
    && var call := s.calls[c];
       && call.name in s.group.names
       && call.mu == s.group.names[call.name]
  }

  ghost predicate Holds(s: State, c: nat, m: nat) {
    c in s.calls && s.calls[c].phase.Holding? && s.calls[c].mu == m
  }

  ghost predicate LocksFit(s: State) {
    && (forall c, m :: Holds(s, c, m) ==> m in s.locked)
    && (forall m :: m in s.locked ==> exists c :: Holds(s, c, m))
    && (forall c, d, m :: Holds(s, c, m) && Holds(s, d, m) ==> c == d)
  }

  ghost predicate Fits(s: State) {
    && !s.panicked
    && (!s.group.ready ==> s.group.names == map[])
    && (forall a, b :: a in s.group.names && b in s.group.names && s.group.names[a] == s.group.names[b] ==> a == b)
    && (forall name {:trigger NameFits(s, name)} :: NameFits(s, name))
    && (forall c {:trigger CallFits(s, c)} :: c in s.calls ==> CallFits(s, c))
    && LocksFit(s)
  }

  lemma NamesAfter(s: State, a: Action, t: State, name: string)
    requires NameFits(s, name) && Enabled(s, a) && t == Next(s, a) && !t.panicked
    requires !s.group.ready ==> s.group.names == map[]
    ensures NameFits(t, name)
  {
    if a.Enter? { EnterNames(s, a, t, name); }
    else if a.Leave? { LeaveNames(s, a, t, name); }
    else { assert Users(t, name) == Users(s, name); }
  }

  lemma EnterNames(s: State, a: Action, t: State, name: string)
    requires NameFits(s, name) && Enabled(s, a) && a.Enter? && t == Next(s, a)
    requires !s.group.ready ==> s.group.names == map[]
    ensures NameFits(t, name)
  {
    if a.name == name {
      assert t.group.Waiters(name) == s.group.Waiters(name) + 1;
      assert Users(t, name) == Users(s, name) + {a.call};
    } else {
      assert t.group.Waiters(name) == s.group.Waiters(name);
      assert Users(t, name) == Users(s, name);
    }
  }

  lemma LeaveNames(s: State, a: Action, t: State, name: string)
    requires NameFits(s, name) && Enabled(s, a) && a.Leave? && t == Next(s, a) && !t.panicked
    ensures NameFits(t, name)
  {
    assert t.group.Waiters(name) == s.group.Waiters(name) - if s.calls[a.call].name == name then 1 else 0;
    assert Users(t, name) == if s.calls[a.call].name == name then Users(s, name) - {a.call} else Users(s, name);
  }

  lemma CallsAfter(s: State, a: Action, t: State, c: nat)
    requires Fits(s) && Enabled(s, a) && t == Next(s, a) && !t.panicked && c in t.calls
    ensures CallFits(t, c)
  {
    if c in s.calls { assert CallFits(s, c); }
    NamesAfter(s, a, t, t.calls[c].name) by { assert NameFits(s, t.calls[c].name); }
    assert c in Users(t, t.calls[c].name);
  }

  lemma HoldsAfter(s: State, a: Action, t: State, c: nat, m: nat)
    requires Enabled(s, a) && t == Next(s, a) && !t.panicked
    ensures Holds(t, c, m) <==>
            (Holds(s, c, m) && !(a.Release? && c == a.call)) || (a.Acquire? && c == a.call && m == s.calls[c].mu)
  {
  }

  lemma LocksAfter(s: State, a: Action, t: State)
    requires LocksFit(s) && Enabled(s, a) && t == Next(s, a) && !t.panicked
    ensures LocksFit(t)
  {
    forall m | m in t.locked ensures exists c :: Holds(t, c, m) {
      if m in s.locked {
        var c :| Holds(s, c, m);
        HoldsAfter(s, a, t, c, m);
      } else {
        HoldsAfter(s, a, t, a.call, m);
      }
    }
    forall c, d, m | Holds(t, c, m) && Holds(t, d, m) ensures c == d {
      HoldsAfter(s, a, t, c, m);
      HoldsAfter(s, a, t, d, m);
    }
    forall c, m | Holds(t, c, m) ensures m in t.locked {
      HoldsAfter(s, a, t, c, m);
      assert a.Release? ==> Holds(s, a.call, s.calls[a.call].mu);
    }
  }

  lemma StepWorks(s: State, a: Action)
    requires Fits(s) && Enabled(s, a)
    ensures !Next(s, a).panicked
  {
    if a.Leave? {
      var name := s.calls[a.call].name;
      assert NameFits(s, name) && a.call in Users(s, name);
    }
    if a.Release? { assert Holds(s, a.call, s.calls[a.call].mu); }
  }

  lemma StepFits(s: State, a: Action, t: State)
    requires Fits(s) && Enabled(s, a) && t == Next(s, a)
    ensures Fits(t)
  {
    StepWorks(s, a);
    forall name ensures NameFits(t, name) {
      assert NameFits(s, name);
      NamesAfter(s, a, t, name);
    }
    forall c | c in t.calls ensures CallFits(t, c) { CallsAfter(s, a, t, c); }
    LocksAfter(s, a, t);
    forall x, y | x in t.group.names && y in t.group.names && t.group.names[x] == t.group.names[y] ensures x == y {
      assert NameFits(s, x) && NameFits(s, y);
    }
  }

  lemma {:induction false} RunFits(ss: seq<State>, acts: seq<Action>, i: nat)
    requires Run(ss, acts) && i < |ss|
    ensures Fits(ss[i])
  {
    if i > 0 {
      RunFits(ss, acts, i - 1);
      assert Moves(ss, acts, i - 1);
      StepFits(ss[i - 1], acts[i - 1], ss[i]);
    }
  }

  // ---------- consequences for every run ----------

  /** At most one call is inside a name's section, however often its mutex was deleted and made again. */
  lemma Exclusion(ss: seq<State>, acts: seq<Action>, i: nat, c: nat, d: nat)
    requires Run(ss, acts) && i < |ss| && c in ss[i].calls && d in ss[i].calls
    requires ss[i].calls[c].phase.Holding? && ss[i].calls[d].phase.Holding?
    requires ss[i].calls[c].name == ss[i].calls[d].name
    ensures c == d
  {
    RunFits(ss, acts, i);
    assert CallFits(ss[i], c) && CallFits(ss[i], d);
    assert Holds(ss[i], c, ss[i].calls[c].mu) && Holds(ss[i], d, ss[i].calls[c].mu);
  }

  /** Different names never wait for each other. */
  lemma Independence(ss: seq<State>, acts: seq<Action>, i: nat, c: nat, d: nat)
    requires Run(ss, acts) && i < |ss| && c in ss[i].calls && d in ss[i].calls
    ensures ss[i].calls[c].mu == ss[i].calls[d].mu <==> ss[i].calls[c].name == ss[i].calls[d].name
  {
    RunFits(ss, acts, i);
    assert CallFits(ss[i], c) && CallFits(ss[i], d);
  }

  /** The count of a name is the number of calls registered on its current mutex. */
  lemma WaitersCounted(ss: seq<State>, acts: seq<Action>, i: nat, name: string)
    requires Run(ss, acts) && i < |ss|
    ensures var s := ss[i];
            && (name in s.group.names <==> name in s.group.waiters)
            && (name in s.group.names <==> exists c :: c in s.calls && s.calls[c].name == name)
            && s.group.Waiters(name) == |Users(s, name)|
            && (name in s.group.names ==>
                  s.group.waiters[name] == |set c | c in s.calls && s.calls[c].mu == s.group.names[name]|)
  {
    RunFits(ss, acts, i);
    var s := ss[i];
    assert NameFits(s, name);
    assert forall c :: c in Users(s, name) <==> c in s.calls && s.calls[c].name == name;
    if name in s.group.names {
      forall c | c in s.calls ensures s.calls[c].mu == s.group.names[name] <==> s.calls[c].name == name {
        assert CallFits(s, c);
      }
      assert Users(s, name) == set c | c in s.calls && s.calls[c].mu == s.group.names[name];
    }
  }

  /** Neither panic is reachable: no double unlock, no unlock of an unlocked mutex. */
  lemma NeverPanics(ss: seq<State>, acts: seq<Action>, i: nat)
    requires Run(ss, acts) && i < |ss|
    ensures !ss[i].panicked
  {
    RunFits(ss, acts, i);
  }

  /** When every call is done nothing is left behind. */
  lemma NothingRemains(ss: seq<State>, acts: seq<Action>, i: nat)
    requires Run(ss, acts) && i < |ss| && ss[i].calls == map[]
    ensures ss[i].group.names == map[] && ss[i].group.waiters == map[] && ss[i].locked == {}
  {
    RunFits(ss, acts, i);
    forall name ensures name !in ss[i].group.names {
      assert NameFits(ss[i], name);
      assert Users(ss[i], name) == {};
    }
    assert ss[i].group.waiters.Keys == {} by {
      forall name ensures name !in ss[i].group.waiters { assert NameFits(ss[i], name); }
    }
  }

  /** Whenever a call is under way for a name, some call for that name can take a step. */
  lemma NeverStuck(ss: seq<State>, acts: seq<Action>, i: nat, c: nat)
    requires Run(ss, acts) && i < |ss| && c in ss[i].calls
    ensures exists a: Action :: !a.Enter? && Enabled(ss[i], a) && ss[i].calls[a.call].name == ss[i].calls[c].name
  {
    RunFits(ss, acts, i);
    var s := ss[i];
    var a :=
      match s.calls[c].phase
      case Waiting => Acquire(c)
      case Holding => Release(c)
      case Leaving => Leave(c);
    if !Enabled(s, a) {
      var d :| Holds(s, d, s.calls[c].mu);
      assert CallFits(s, c) && CallFits(s, d);
      assert Enabled(s, Release(d));
    }
  }
}
