/**
  A limit on the requests of one key that are served at once. A request counts itself in, compares the
  count with the limit, is served or rejected, and counts itself out; requests interleave between these.
*/
module Limiters {
  import opened Types

  const UINT: nat := 0x1_0000_0000_0000_0000

  type uint = x: int | 0 <= x < UINT

  type Limits = map<string, uint>

  function CountOf(limits: Limits, key: string): uint {
    if key in limits then limits[key] else 0
  }

  function CountedIn(limits: Limits, key: string): Limits {
    limits[key := (CountOf(limits, key) + 1) % UINT]
  }

  /** Decrementing zero would wrap around. */
  function CountedOut(limits: Limits, key: string): Limits {
    var left := (CountOf(limits, key) + UINT - 1) % UINT;
    if left == 0 then limits - {key} else limits[key := left]
  }

  class Limiter {
    const allowed: uint
    var limits: Limits

    constructor (allowed: uint)
      ensures this.allowed == allowed && limits == map[]
    {
      this.allowed, limits := allowed, map[];
    }

    method Increment(key: string)
      modifies this
      ensures limits == CountedIn(old(limits), key)
    {
      limits := limits[key := ((if key in limits then limits[key] else 0) + 1) % UINT];
    }

    /** Whether the request goes to the next handler or to the limit function. */
    method Admits(key: string) returns (served: bool)
      ensures served == (CountOf(limits, key) <= allowed)
    {
      var count := if key in limits then limits[key] else 0;
      if count > allowed { return false; }
      return true;
    }

    method Decrement(key: string)
      modifies this
      ensures limits == CountedOut(old(limits), key)
    {
      limits := limits[key := ((if key in limits then limits[key] else 0) + UINT - 1) % UINT];
      if limits[key] == 0 { limits := limits - {key}; }
    }

    /** A request that nothing interrupts: it is served if others leave room, and leaves no trace. */
    method Limit(key: string) returns (served: bool)
      requires CountOf(limits, key) + 1 < UINT && forall k :: k in limits ==> limits[k] > 0
      modifies this
      ensures served == (CountOf(old(limits), key) < allowed)
      ensures limits == old(limits)
    {
      Increment(key);
      served := Admits(key);
      Decrement(key);
    }
  }

  // ---------- interleavings ----------

  datatype Phase = Counted | Served | Rejected

  datatype Request = Request(key: string, phase: Phase)

  datatype State = State(allowed: uint, limits: Limits, requests: map<nat, Request>)

  datatype Action =
    | Enter(request: nat, key: string)
    | Check(request: nat)
    | Leave(request: nat)

  /** Fewer requests are in flight than a counter can count. */
  predicate Enabled(s: State, a: Action) {
    match a
    case Enter(r, _) => r !in s.requests && |s.requests| + 1 < UINT
    case Check(r) => r in s.requests && s.requests[r].phase.Counted?
    case Leave(r) => r in s.requests && !s.requests[r].phase.Counted?
  }

  function Next(s: State, a: Action): State
    requires Enabled(s, a)
  {
    match a
    case Enter(r, key) =>
      s.(limits := CountedIn(s.limits, key), requests := s.requests[r := Request(key, Counted)])
    case Check(r) =>
      var key := s.requests[r].key;
      s.(requests := s.requests[r := Request(key, if CountOf(s.limits, key) > s.allowed then Rejected else Served)])
    case Leave(r) =>
      s.(limits := CountedOut(s.limits, s.requests[r].key), requests := s.requests - {r})
  }

  ghost predicate Run(ss: seq<State>, acts: seq<Action>) {
    && |ss| == |acts| + 1 && ss[0].limits == map[] && ss[0].requests == map[]
    && forall i :: 0 <= i < |acts| ==> Moves(ss, acts, i)
  }

  ghost predicate Moves(ss: seq<State>, acts: seq<Action>, i: nat) {
    && i < |acts| && i + 1 < |ss|
    && Enabled(ss[i], acts[i]) && ss[i + 1] == Next(ss[i], acts[i])
  }

  function InFlight(s: State, key: string): set<nat> {
    set r | r in s.requests && s.requests[r].key == key
  }

  function BeingServed(s: State, key: string): set<nat> {
    set r | r in s.requests && s.requests[r].key == key && s.requests[r].phase.Served?
  }

  // ---------- the invariant ----------

  ghost predicate KeyFits(s: State, key: string) {
    && CountOf(s.limits, key) == |InFlight(s, key)|
    && (key in s.limits <==> InFlight(s, key) != {})
    && |BeingServed(s, key)| <= s.allowed
  }

  lemma EnterFits(s: State, a: Action, t: State, key: string)
    requires KeyFits(s, key) && Enabled(s, a) && a.Enter? && t == Next(s, a)
    ensures KeyFits(t, key)
  {
    assert BeingServed(t, key) == BeingServed(s, key);
    InFlightEnters(s, a, t, key);
    Fewer(InFlight(s, key), s.requests.Keys);
    CountsIn(s.limits, a.key, key);
  }

  lemma InFlightEnters(s: State, a: Action, t: State, key: string)
    requires Enabled(s, a) && a.Enter? && t == Next(s, a)
    ensures InFlight(t, key) == if key == a.key then InFlight(s, key) + {a.request} else InFlight(s, key)
    ensures |InFlight(t, key)| == |InFlight(s, key)| + if key == a.key then 1 else 0
  {
    assert InFlight(t, key) == if key == a.key then InFlight(s, key) + {a.request} else InFlight(s, key);
  }

  lemma CountsIn(limits: Limits, key: string, other: string)
    requires other == key ==> CountOf(limits, key) + 1 < UINT
    ensures CountOf(CountedIn(limits, key), other) == CountOf(limits, other) + if other == key then 1 else 0
  {
  }

  lemma CheckFits(s: State, a: Action, t: State, key: string)
    requires KeyFits(s, key) && Enabled(s, a) && a.Check? && t == Next(s, a)
    ensures KeyFits(t, key)
  {
    assert InFlight(t, key) == InFlight(s, key);
    if t.requests[a.request].phase.Served? && s.requests[a.request].key == key {
      Fewer(BeingServed(t, key), InFlight(t, key));
    } else {
      assert BeingServed(t, key) == BeingServed(s, key);
    }
  }

  lemma LeaveFits(s: State, a: Action, t: State, key: string)
    requires KeyFits(s, key) && Enabled(s, a) && a.Leave? && t == Next(s, a)
    ensures KeyFits(t, key)
  {
    var own := s.requests[a.request].key;
    assert InFlight(t, key) == if key == own then InFlight(s, key) - {a.request} else InFlight(s, key);
    assert key == own ==> a.request in InFlight(s, key);
    Fewer(BeingServed(t, key), BeingServed(s, key));
  }

  lemma {:induction false} RunFits(ss: seq<State>, acts: seq<Action>, i: nat, key: string)
    requires Run(ss, acts) && i < |ss|
    ensures KeyFits(ss[i], key) && ss[i].allowed == ss[0].allowed
  {
    if i == 0 {
      assert InFlight(ss[0], key) == {} && BeingServed(ss[0], key) == {};
    } else {
      RunFits(ss, acts, i - 1, key);
      assert Moves(ss, acts, i - 1);
      match acts[i - 1]
      case Enter(_, _) => EnterFits(ss[i - 1], acts[i - 1], ss[i], key);
      case Check(_) => CheckFits(ss[i - 1], acts[i - 1], ss[i], key);
      case Leave(_) => LeaveFits(ss[i - 1], acts[i - 1], ss[i], key);
    }
  }

  // ---------- consequences for every run ----------

  /** The count of a key is its number of requests in flight, and idle keys take no room. */
  lemma CountsAreExact(ss: seq<State>, acts: seq<Action>, i: nat, key: string)
    requires Run(ss, acts) && i < |ss|
    ensures CountOf(ss[i].limits, key) == |InFlight(ss[i], key)|
    ensures key in ss[i].limits <==> exists r :: r in ss[i].requests && ss[i].requests[r].key == key
  {
    RunFits(ss, acts, i, key);
    assert forall r :: r in InFlight(ss[i], key) <==> r in ss[i].requests && ss[i].requests[r].key == key;
  }

  lemma NeverTooManyServed(ss: seq<State>, acts: seq<Action>, i: nat, key: string)
    requires Run(ss, acts) && i < |ss|
    ensures |BeingServed(ss[i], key)| <= ss[0].allowed
  {
    RunFits(ss, acts, i, key);
  }

  /** No count ever goes below zero. */
  lemma NeverUnderflows(ss: seq<State>, acts: seq<Action>, i: nat)
    requires Run(ss, acts) && i < |acts| && acts[i].Leave?
    ensures acts[i].request in ss[i].requests && CountOf(ss[i].limits, ss[i].requests[acts[i].request].key) > 0
  {
    assert Moves(ss, acts, i);
    RunFits(ss, acts, i, ss[i].requests[acts[i].request].key);
    assert acts[i].request in InFlight(ss[i], ss[i].requests[acts[i].request].key);
  }

  /** A request is rejected just if, when it checks, as many others of its key are in flight as are allowed. */
  lemma RejectedJustIfFull(ss: seq<State>, acts: seq<Action>, i: nat)
    requires Run(ss, acts) && i < |acts| && acts[i].Check?
    ensures var r := acts[i].request;
            && r in ss[i].requests && r in ss[i + 1].requests
            && (ss[i + 1].requests[r].phase.Rejected? <==>
                  |InFlight(ss[i], ss[i].requests[r].key) - {r}| >= ss[0].allowed)
  {
    assert Moves(ss, acts, i);
    var r := acts[i].request;
    RunFits(ss, acts, i, ss[i].requests[r].key);
    assert r in InFlight(ss[i], ss[i].requests[r].key);
  }
}
