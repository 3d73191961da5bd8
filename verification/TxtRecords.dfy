/**
  The cache of DNS text records. Requests look hosts up concurrently; a miss and a background refresh
  of an expired record both update the host's entry under the host's named lock.
*/
module TxtRecords {
  import opened Types

  /** `result` stands for the parsed access grant, root and TLS flag. Times are positive; 0 is the zero time. */
  datatype TxtRecord = TxtRecord(result: string, expiration: nat)

  type Cache = map<string, TxtRecord>

  function Lookup(cache: Cache, host: string): Option<TxtRecord> {
    if host in cache then Some(cache[host]) else None
  }

  /** Whether an update asked to replace the record that expires at `current` still has to query. */
  predicate MustQuery(cached: Option<TxtRecord>, current: nat) {
    cached.None? || (current != 0 && cached.value.expiration == current)
  }

  /** What an update leaves in the cache when nothing comes between its steps. */
  function Updated(cache: Cache, host: string, current: nat, answer: Option<TxtRecord>): Cache {
    if !MustQuery(Lookup(cache, host), current) then cache
    else if answer.None? then cache - {host}
    else cache[host := answer.value]
  }

  class TXTRecords {
    var cache: Cache

    constructor ()
      ensures cache == map[]
    {
      cache := map[];
    }

    /** `answer` is what the DNS and the auth service would reply; None is a failure. */
    method UpdateCache(host: string, current: nat, answer: Option<TxtRecord>)
      returns (record: Option<TxtRecord>, queried: bool)
      modifies this
      ensures queried == MustQuery(Lookup(old(cache), host), current)
      ensures cache == Updated(old(cache), host, current, answer)
      ensures record == if queried then answer else Lookup(old(cache), host)
      ensures record.Some? ==> Lookup(cache, host) == record
      ensures queried <==> host !in old(cache) || (current != 0 && old(cache)[host].expiration == current)
      ensures cache == if !queried then old(cache)
                       else if answer.Some? then old(cache)[host := answer.value] else old(cache) - {host}
    {
      if host in cache {
        var cached := cache[host];
        if current == 0 || cached.expiration != current {
          return Some(cached), false;
        }
      }
      if answer.None? {
        cache := cache - {host};
        return None, true;
      }
      cache := cache[host := answer.value];
      return answer, true;
    }

    /** A miss updates at once; an expired record is served while `refresh` asks for a background update. */
    method FetchAccessForHost(host: string, now: nat, answer: Option<TxtRecord>)
      returns (record: Option<TxtRecord>, refresh: Option<nat>)
      modifies this
      ensures host in old(cache) ==> cache == old(cache) && record == Some(cache[host])
      ensures host !in old(cache) ==> cache == Updated(old(cache), host, 0, answer) && record == answer
      ensures refresh == if host in old(cache) && old(cache)[host].expiration < now
                         then Some(old(cache)[host].expiration) else None
    {
      if host !in cache {
        var queried;
        record, queried := UpdateCache(host, 0, answer);
        return record, None;
      }
      var cached := cache[host];
      if cached.expiration < now { return Some(cached), Some(cached.expiration); }
      return Some(cached), None;
    }
  }

  // ---------- interleavings ----------

  /**
    `current` is the expiration of the record a refresh was started for, 0 after a miss; `found` is what
    the update saw in the cache when it decided to query.
  */
  datatype Phase =
    | Loaded(record: TxtRecord)
    | Entering(current: nat)
    | Checking(current: nat)
    | Querying(current: nat, found: Option<TxtRecord>)
    | Storing(current: nat, record: TxtRecord, found: Option<TxtRecord>)
    | Clearing(current: nat, found: Option<TxtRecord>)
    | Leaving
  {
    /** The phases between locking and unlocking the host's mutex. */
    predicate Locked() {
      !Loaded? && !Entering?
    }
  }

  datatype Call = Call(host: string, phase: Phase)

  /** `latest` is a history variable: the last expiration stored for each host. */
  datatype State = State(cache: Cache, now: nat, calls: map<nat, Call>, latest: map<string, nat>)
  {
    function Latest(host: string): nat {
      if host in latest then latest[host] else 0
    }
  }

  datatype Action =
    | Tick(time: nat)
    | Load(call: nat, host: string)
    | Decide(call: nat)
    | Acquire(call: nat)
    | Check(call: nat)
    | Reply(call: nat, result: string, ttl: nat)
    | Fail(call: nat)
    | Store(call: nat)
    | Clear(call: nat)
    | Release(call: nat)

  ghost predicate Inside(s: State, c: nat, host: string) {
    c in s.calls && s.calls[c].host == host && s.calls[c].phase.Locked()
  }

  /** The host's named mutex lets an update in when no other one of that host is inside. */
  ghost predicate Enabled(s: State, a: Action) {
    match a
    case Tick(time) => s.now <= time
    case Load(c, _) => c !in s.calls
    case Decide(c) => c in s.calls && s.calls[c].phase.Loaded?
    case Acquire(c) =>
      c in s.calls && s.calls[c].phase.Entering?
      && forall d :: !Inside(s, d, s.calls[c].host)
    case Check(c) => c in s.calls && s.calls[c].phase.Checking?
    case Reply(c, _, _) => c in s.calls && s.calls[c].phase.Querying?
    case Fail(c) => c in s.calls && s.calls[c].phase.Querying?
    case Store(c) => c in s.calls && s.calls[c].phase.Storing?
    case Clear(c) => c in s.calls && s.calls[c].phase.Clearing?
    case Release(c) => c in s.calls && s.calls[c].phase.Leaving?
  }

  function Enter(s: State, c: nat, phase: Phase): State
    requires c in s.calls
  {
    s.(calls := s.calls[c := s.calls[c].(phase := phase)])
  }

  ghost function Next(s: State, a: Action): State
    requires Enabled(s, a)
  {
    match a
    case Tick(time) => s.(now := time)
    case Load(c, host) =>
      var cached := Lookup(s.cache, host);
      s.(calls := s.calls[c := Call(host, if cached.None? then Entering(0) else Loaded(cached.value))])
    case Decide(c) =>
      var record := s.calls[c].phase.record;
      if record.expiration < s.now then Enter(s, c, Entering(record.expiration))
      else s.(calls := s.calls - {c})
    case Acquire(c) => Enter(s, c, Checking(s.calls[c].phase.current))
    case Check(c) =>
      var current := s.calls[c].phase.current;
      var cached := Lookup(s.cache, s.calls[c].host);
      if MustQuery(cached, current) then Enter(s, c, Querying(current, cached)) else Enter(s, c, Leaving)
    case Reply(c, result, ttl) =>
      var p := s.calls[c].phase;
      Enter(s, c, Storing(p.current, TxtRecord(result, s.now + ttl), p.found))
    case Fail(c) =>
      var p := s.calls[c].phase;
      Enter(s, c, Clearing(p.current, p.found))
    case Store(c) =>
      var host := s.calls[c].host;
      var record := s.calls[c].phase.record;
      Enter(s, c, Leaving).(cache := s.cache[host := record], latest := s.latest[host := record.expiration])
    case Clear(c) => Enter(s, c, Leaving).(cache := s.cache - {s.calls[c].host})
    case Release(c) => s.(calls := s.calls - {c})
  }

  ghost predicate Init(s: State) {
    s.cache == map[] && s.calls == map[] && s.latest == map[] && s.now > 0
  }

  ghost predicate Run(ss: seq<State>, acts: seq<Action>) {
    |ss| == |acts| + 1 && Init(ss[0]) && forall i :: 0 <= i < |acts| ==> Moves(ss, acts, i)
  }

  ghost predicate Moves(ss: seq<State>, acts: seq<Action>, i: nat) {
    && i < |acts| && i + 1 < |ss|
    && Enabled(ss[i], acts[i]) && ss[i + 1] == Next(ss[i], acts[i])
  }

  // ---------- the invariant ----------

  /** A cached record is the latest stored one; if none is cached, the latest one has expired. */
  ghost predicate HostFits(s: State, host: string) {
    if host in s.cache then s.cache[host].expiration == s.Latest(host) > 0
    else s.Latest(host) < s.now
  }

  /** What an update found is still there, has expired, and is the record the update was started for. */
  ghost predicate Replaces(s: State, host: string, current: nat, found: Option<TxtRecord>) {
    && Lookup(s.cache, host) == found && s.Latest(host) < s.now
    && (found.Some? ==> found.value.expiration == current != 0)
  }

  /** An update replaces a record that has expired, and finds it where it left it. */
  ghost predicate CallFits(s: State, c: nat) {
    && c in s.calls
    && var host := s.calls[c].host;
       match s.calls[c].phase
       case Loaded(record) => record.expiration > 0
       case Entering(current) => current < s.now
       case Checking(current) => current < s.now
       case Querying(current, found) => Replaces(s, host, current, found)
       case Storing(current, record, found) => Replaces(s, host, current, found) && s.Latest(host) < record.expiration
       case Clearing(current, found) => Replaces(s, host, current, found)
       case Leaving => true
  }

  ghost predicate OneInside(s: State) {
    forall c, d, host :: Inside(s, c, host) && Inside(s, d, host) ==> c == d
  }

  ghost predicate Fits(s: State) {
    && s.now > 0
    && (forall host {:trigger HostFits(s, host)} :: HostFits(s, host))
    && (forall c {:trigger CallFits(s, c)} :: c in s.calls ==> CallFits(s, c))
    && OneInside(s)
  }

  lemma HostsAfter(s: State, a: Action, t: State, host: string)
    requires Fits(s) && Enabled(s, a) && t == Next(s, a)
    ensures HostFits(t, host)
  {
    assert HostFits(s, host);
    if a.Store? || a.Clear? { assert CallFits(s, a.call); }
  }

  lemma CallsAfter(s: State, a: Action, t: State, c: nat)
    requires Fits(s) && Enabled(s, a) && t == Next(s, a) && c in t.calls
    ensures CallFits(t, c)
  {
    if !a.Tick? && a.call == c { OwnCallAfter(s, a, t); } else { OtherCallAfter(s, a, t, c); }
  }

  lemma OwnCallAfter(s: State, a: Action, t: State)
    requires Fits(s) && Enabled(s, a) && t == Next(s, a) && !a.Tick? && a.call in t.calls
    ensures CallFits(t, a.call)
  {
    assert HostFits(s, t.calls[a.call].host);
    if a.call in s.calls { assert CallFits(s, a.call); }
  }

  /** Only the update inside a host's mutex changes what is cached for the host. */
  lemma OtherCallKept(s: State, t: State, c: nat)
    requires c in s.calls && CallFits(s, c) && c in t.calls && t.calls[c] == s.calls[c] && s.now <= t.now
    requires var host := s.calls[c].host;
             s.calls[c].phase.Locked() ==>
               Lookup(t.cache, host) == Lookup(s.cache, host) && t.Latest(host) == s.Latest(host)
    ensures CallFits(t, c)
  {
  }

  lemma OtherCallAfter(s: State, a: Action, t: State, c: nat)
    requires Fits(s) && Enabled(s, a) && t == Next(s, a) && c in t.calls && (!a.Tick? ==> a.call != c)
    ensures CallFits(t, c)
  {
    assert CallFits(s, c);
    if a.Store? || a.Clear? {
      var host := s.calls[a.call].host;
      assert Inside(s, a.call, host);
      assert !Inside(s, c, host);
    }
    OtherCallKept(s, t, c);
  }

  lemma LocksAfter(s: State, a: Action, t: State)
    requires Fits(s) && Enabled(s, a) && t == Next(s, a)
    ensures OneInside(t)
  {
    forall c, d, host | Inside(t, c, host) && Inside(t, d, host) ensures c == d {
      assert Inside(s, c, host) || (a.Acquire? && a.call == c);
      assert Inside(s, d, host) || (a.Acquire? && a.call == d);
    }
  }

  lemma StepFits(s: State, a: Action, t: State)
    requires Fits(s) && Enabled(s, a) && t == Next(s, a)
    ensures Fits(t)
  {
    forall host ensures HostFits(t, host) { HostsAfter(s, a, t, host); }
    forall c | c in t.calls ensures CallFits(t, c) { CallsAfter(s, a, t, c); }
    LocksAfter(s, a, t);
  }

  lemma {:induction false} RunFits(ss: seq<State>, acts: seq<Action>, i: nat)
    requires Run(ss, acts) && i < |ss|
    ensures Fits(ss[i])
  {
    if i > 0 {
      RunFits(ss, acts, i - 1);
      assert Moves(ss, acts, i - 1);
      StepFits(ss[i - 1], acts[i - 1], ss[i]);
    }
  }

  // ---------- consequences for every run ----------

  /** The k-th action stores a record with this expiration for the host. */
  ghost predicate Stores(ss: seq<State>, acts: seq<Action>, k: nat, host: string, expiration: nat) {
    && k < |acts| && k < |ss|
    && acts[k].Store? && Enabled(ss[k], acts[k])
       && ss[k].calls[acts[k].call].host == host && ss[k].calls[acts[k].call].phase.record.expiration == expiration
  }

  lemma {:induction false} LatestGrows(ss: seq<State>, acts: seq<Action>, i: nat, j: nat, host: string)
    requires Run(ss, acts) && i <= j < |ss|
    ensures ss[i].Latest(host) <= ss[j].Latest(host) && ss[i].now <= ss[j].now
  {
    if i < j {
      LatestGrows(ss, acts, i, j - 1, host);
      RunFits(ss, acts, j - 1);
      assert Moves(ss, acts, j - 1);
      if acts[j - 1].Store? { assert CallFits(ss[j - 1], acts[j - 1].call); }
    }
  }

  /** Over a whole run the expirations stored for a host strictly increase, failures or not. */
  lemma ExpirationsIncrease(ss: seq<State>, acts: seq<Action>, i: nat, j: nat, host: string, e: nat, f: nat)
    requires Run(ss, acts) && i < j < |acts|
    requires Stores(ss, acts, i, host, e) && Stores(ss, acts, j, host, f)
    ensures e < f
  {
    assert Moves(ss, acts, i) && Moves(ss, acts, j);
    LatestGrows(ss, acts, i + 1, j, host);
    RunFits(ss, acts, j);
    assert CallFits(ss[j], acts[j].call);
  }

  /** The k-th action decides to query for a host whose cached record is `record`. */
  ghost predicate QueriesFor(ss: seq<State>, acts: seq<Action>, k: nat, host: string, record: TxtRecord) {
    && k < |acts| && k < |ss|
    && acts[k].Check? && Enabled(ss[k], acts[k]) && ss[k].calls[acts[k].call].host == host
       && Lookup(ss[k].cache, host) == Some(record)
       && MustQuery(Lookup(ss[k].cache, host), ss[k].calls[acts[k].call].phase.current)
  }

  /** The update that decided to query for the record is still at it, or the record is gone for good. */
  ghost predicate Taken(s: State, host: string, expiration: nat) {
    || (exists c :: Refreshes(s, c, host))
    || s.Latest(host) > expiration
    || host !in s.cache
  }

  ghost predicate Refreshes(s: State, c: nat, host: string) {
    c in s.calls && s.calls[c].host == host
    && (s.calls[c].phase.Querying? || s.calls[c].phase.Storing? || s.calls[c].phase.Clearing?)
  }

  lemma StaysTaken(s: State, a: Action, t: State, host: string, expiration: nat)
    requires Fits(s) && Enabled(s, a) && t == Next(s, a)
    requires Taken(s, host, expiration) && s.Latest(host) >= expiration
    ensures Taken(t, host, expiration)
  {
    assert HostFits(s, host);
    if a.Store? { assert CallFits(s, a.call); }
    if s.Latest(host) == expiration && host in s.cache {
      var c :| Refreshes(s, c, host);
      assert Inside(s, c, host);
      if a.Store? || a.Clear? { assert Inside(s, a.call, s.calls[a.call].host); }
      if t.Latest(host) == expiration && host in t.cache { assert Refreshes(t, c, host); }
    }
  }

  lemma {:induction false} RunTaken(ss: seq<State>, acts: seq<Action>, i: nat, j: nat, host: string, record: TxtRecord)
    requires Run(ss, acts) && i < j <= |acts| && QueriesFor(ss, acts, i, host, record)
    ensures Taken(ss[j], host, record.expiration) && ss[j].Latest(host) >= record.expiration
  {
    assert Moves(ss, acts, j - 1);
    RunFits(ss, acts, j - 1);
    if j == i + 1 {
      assert HostFits(ss[i], host);
      assert Refreshes(ss[j], acts[i].call, host);
    } else {
      RunTaken(ss, acts, i, j - 1, host, record);
      StaysTaken(ss[j - 1], acts[j - 1], ss[j], host, record.expiration);
      LatestGrows(ss, acts, j - 1, j, host);
    }
  }

  /** Single flight: over a whole run, a cached record causes at most one query. */
  lemma OneQueryPerRecord(ss: seq<State>, acts: seq<Action>, i: nat, j: nat, host: string, r: TxtRecord, q: TxtRecord)
    requires Run(ss, acts) && i < j < |acts|
    requires QueriesFor(ss, acts, i, host, r) && QueriesFor(ss, acts, j, host, q)
    ensures r.expiration < q.expiration
  {
    RunTaken(ss, acts, i, j, host, r);
    RunFits(ss, acts, j);
    assert HostFits(ss[j], host);
    if c :| Refreshes(ss[j], c, host) {
      assert Inside(ss[j], c, host) && Inside(ss[j], acts[j].call, host);
    }
  }

  /** A failing update removes the expired record it was started for, or nothing; never another one. */
  lemma ClearsOnlyItsOwn(ss: seq<State>, acts: seq<Action>, i: nat)
    requires Run(ss, acts) && i < |acts| && acts[i].Clear?
    ensures acts[i].call in ss[i].calls && ss[i].calls[acts[i].call].phase.Clearing?
    ensures var Call(host, Clearing(current, found)) := ss[i].calls[acts[i].call];
            && Lookup(ss[i].cache, host) == found
            && (found.Some? ==> found.value.expiration == current < ss[i].now)
            && ss[i + 1].cache == ss[i].cache - {host}
  {
    RunFits(ss, acts, i);
    assert Moves(ss, acts, i);
    var c := acts[i].call;
    assert CallFits(ss[i], c) && HostFits(ss[i], ss[i].calls[c].host);
  }

  /** Likewise a successful one stores over the expired record it was started for, or over nothing. */
  lemma StoresOverItsOwn(ss: seq<State>, acts: seq<Action>, i: nat)
    requires Run(ss, acts) && i < |acts| && acts[i].Store?
    ensures acts[i].call in ss[i].calls && ss[i].calls[acts[i].call].phase.Storing?
    ensures var Call(host, Storing(current, record, found)) := ss[i].calls[acts[i].call];
            && Lookup(ss[i].cache, host) == found
            && (found.Some? ==> found.value.expiration == current < ss[i].now && current < record.expiration)
            && ss[i + 1].cache == ss[i].cache[host := record]
  {
    RunFits(ss, acts, i);
    assert Moves(ss, acts, i);
    var c := acts[i].call;
    assert CallFits(ss[i], c) && HostFits(ss[i], ss[i].calls[c].host);
  }

  /** The reply an update gets: a result and its time to live, or a failure. */
  ghost function Replied(s: State, c: nat, answer: Option<(string, nat)>): State
    requires Enabled(s, Fail(c))
  {
    if answer.None? then Next(Next(s, Fail(c)), Clear(c))
    else Next(Next(s, Reply(c, answer.value.0, answer.value.1)), Store(c))
  }

  /** An update that nothing comes between is its steps one after the other. */
  lemma UpdateIsSteps(s: State, c: nat, answer: Option<(string, nat)>)
    requires Enabled(s, Acquire(c))
    ensures var Call(host, Entering(current)) := s.calls[c];
            var checked := Next(Next(s, Acquire(c)), Check(c));
            var done := if checked.calls[c].phase.Querying? then Replied(checked, c, answer) else checked;
            var record := if answer.None? then None else Some(TxtRecord(answer.value.0, s.now + answer.value.1));
            && Enabled(done, Release(c))
            && Next(done, Release(c)).cache == Updated(s.cache, host, current, record)
            && Next(done, Release(c)).calls == s.calls - {c}
            && (checked.calls[c].phase.Querying? <==> MustQuery(Lookup(s.cache, host), current))
  {
  }

  /** A fetch is a Load and, on a hit, a Decide: it ends at once, or an update is entered for exactly this record. */
  lemma FetchIsSteps(s: State, c: nat, host: string)
    requires c !in s.calls
    ensures var loaded := Next(s, Load(c, host));
            var fetched := if host in s.cache then Next(loaded, Decide(c)) else loaded;
            && fetched.cache == s.cache && fetched.now == s.now
            && fetched.calls ==
               if host !in s.cache then s.calls[c := Call(host, Entering(0))]
               else if s.cache[host].expiration < s.now
               then s.calls[c := Call(host, Entering(s.cache[host].expiration))]
               else s.calls
  {
    var loaded := Next(s, Load(c, host));
    if host in s.cache && s.cache[host].expiration >= s.now {
      assert loaded.calls - {c} == s.calls;
    }
  }

  lemma {:induction false} RefreshGoesOn(ss: seq<State>, acts: seq<Action>, i: nat, k: nat, c: nat)
    requires Run(ss, acts) && i < k < |ss| && acts[i] == Decide(c)
    requires c in ss[i].calls && ss[i].calls[c].phase.Loaded? && ss[i].calls[c].phase.record.expiration < ss[i].now
    requires forall l :: i < l < k ==> acts[l] != Check(c)
    ensures c in ss[k].calls && ss[k].calls[c].host == ss[i].calls[c].host
    ensures ss[k].calls[c].phase == Entering(ss[i].calls[c].phase.record.expiration) ||
            ss[k].calls[c].phase == Checking(ss[i].calls[c].phase.record.expiration)
  {
    assert Moves(ss, acts, k - 1);
    if i < k - 1 { RefreshGoesOn(ss, acts, i, k - 1, c); }
  }

  /** Whoever was served an expired record queries for it, unless meanwhile it has been replaced or removed. */
  lemma RefreshQueries(ss: seq<State>, acts: seq<Action>, i: nat, k: nat, c: nat)
    requires Run(ss, acts) && i < k < |acts| && acts[i] == Decide(c) && acts[k] == Check(c)
    requires c in ss[i].calls && ss[i].calls[c].phase.Loaded? && ss[i].calls[c].phase.record.expiration < ss[i].now
    requires forall l :: i < l < k ==> acts[l] != Check(c)
    ensures c in ss[k + 1].calls
    ensures var Call(host, Loaded(record)) := ss[i].calls[c];
            && (host in ss[k].cache && ss[k].cache[host].expiration == record.expiration ==>
                  QueriesFor(ss, acts, k, host, ss[k].cache[host]))
            && (ss[k + 1].calls[c].phase.Querying? <==>
                host in ss[k].cache ==> ss[k].cache[host].expiration == record.expiration)
  {
    RefreshGoesOn(ss, acts, i, k, c);
    RunFits(ss, acts, i);
    assert CallFits(ss[i], c);
    assert Moves(ss, acts, k);
  }

  /** A record is replaced or removed only after it expired. */
  lemma FreshRecordsStay(ss: seq<State>, acts: seq<Action>, i: nat, host: string)
    requires Run(ss, acts) && i < |acts| && host in ss[i].cache
    requires Lookup(ss[i + 1].cache, host) != Lookup(ss[i].cache, host)
    ensures ss[i].cache[host].expiration < ss[i].now
  {
    RunFits(ss, acts, i);
    assert Moves(ss, acts, i);
    assert CallFits(ss[i], acts[i].call) && HostFits(ss[i], host);
  }
}
