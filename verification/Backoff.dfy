/** Exponentially growing delays between attempts, and the retry of conflicting transactions they bound. */
module Backoff {
  import opened Types
  import opened Powers

  const MILLISECOND: int64 := 1_000_000
  const SECOND: int64 := 1_000_000_000

  datatype Delays = Delays(delay: int64, max: int64, min: int64)

  function Initialized(d: Delays): Delays {
    Delays(d.delay, if d.max == 0 then SECOND else d.max, if d.min == 0 then 5 * MILLISECOND else d.min)
  }

  /** After a wait. Doubling is 64-bit arithmetic. */
  function Waited(d: Delays): Delays {
    var e := Initialized(d);
    var next := if e.delay == 0 then e.min else Wrap(e.delay * 2);
    e.(delay := if next > e.max then e.max else next)
  }

  predicate IsMaxed(d: Delays) {
    Initialized(d).delay == Initialized(d).max
  }

  function WaitedTimes(d: Delays, k: nat): Delays {
    if k == 0 then d else Waited(WaitedTimes(d, k - 1))
  }

  class ExponentialBackoff {
    var Delay: int64
    var Max: int64
    var Min: int64

    function State(): Delays
      reads this
    {
      Delays(Delay, Max, Min)
    }

    constructor (d: Delays)
      ensures State() == d
    {
      Delay, Max, Min := d.delay, d.max, d.min;
    }

    method Init()
      modifies this
      ensures State() == Initialized(old(State()))
      ensures Delay == old(Delay)
      ensures Max == (if old(Max) == 0 then 1_000_000_000 else old(Max))
      ensures Min == (if old(Min) == 0 then 5_000_000 else old(Min))
    {
      if Max == 0 { Max := SECOND; }
      if Min == 0 { Min := 5 * MILLISECOND; }
    }

    /** `canceled` says whether the context ends before the timer fires. */
    method Wait(canceled: bool) returns (ok: bool)
      modifies this
      ensures State() == Waited(old(State()))
      ensures ok == !canceled
    {
      Init();
      if Delay == 0 {
        Delay := Min;
      } else {
        Delay := Wrap(Delay * 2);
      }
      if Delay > Max { Delay := Max; }
      return !canceled;
    }

    method Maxed() returns (maxed: bool)
      modifies this
      ensures maxed == IsMaxed(old(State()))
      ensures State() == Initialized(old(State()))
    {
      Init();
      return Delay == Max;
    }
  }

  // ---------- the delays ----------

  /** The first wait takes Min, each further one twice as long, but none longer than Max. */
  function Ideal(d: Delays, k: nat): int
    requires k >= 1 && d.min > 0
  {
    var grown := Grown(d.min, k - 1);
    if grown < d.max then grown else d.max
  }

  /** A fresh backoff with positive bounds. */
  predicate Fresh(d: Delays) {
    d.delay == 0 && d.min > 0 && d.max > 0
  }

  lemma IdealDoubles(d: Delays, k: nat)
    requires Fresh(d) && k >= 1
    ensures 0 < Ideal(d, k) <= d.max
    ensures Ideal(d, k + 1) == if Ideal(d, k) * 2 < d.max then Ideal(d, k) * 2 else d.max
  {
    GrownPositive(d.min, k - 1);
  }

  lemma WaitFollowsIdeal(d: Delays, k: nat)
    requires Fresh(d) && k >= 1 && WaitedTimes(d, k) == d.(delay := Ideal(d, k))
    ensures WaitedTimes(d, k + 1) == d.(delay := Ideal(d, k + 1)) <==> Ideal(d, k) < 0x4000_0000_0000_0000
  {
    IdealDoubles(d, k);
    IdealDoubles(d, k + 1);
    WrapFits(Ideal(d, k) * 2);
  }

  lemma {:induction false} DelayIsIdeal(d: Delays, k: nat)
    requires Fresh(d) && d.max < 0x4000_0000_0000_0000 && k >= 1
    ensures WaitedTimes(d, k) == d.(delay := Ideal(d, k))
  {
    if k == 1 {
      WaitedOnce(d);
    } else {
      DelayIsIdeal(d, k - 1);
      IdealDoubles(d, k - 1);
      WaitFollowsIdeal(d, k - 1);
    }
  }

  lemma WaitedOnce(d: Delays)
    requires Fresh(d)
    ensures WaitedTimes(d, 1) == d.(delay := Ideal(d, 1))
  {
    assert WaitedTimes(d, 0) == d;
  }

  /** After the first wait, bounds left zero make no difference from one second and five milliseconds. */
  lemma {:induction false} DefaultsFilled(d: Delays, k: nat)
    requires k >= 1
    ensures WaitedTimes(d, k) ==
            WaitedTimes(Delays(d.delay, if d.max == 0 then 1_000_000_000 else d.max,
                               if d.min == 0 then 5_000_000 else d.min), k)
  {
    if k > 1 {
      DefaultsFilled(d, k - 1);
    } else {
      assert WaitedTimes(d, 0) == d;
    }
  }

  /** With no configuration at all the k-th delay is 5 ms doubled k - 1 times, and at most a second. */
  lemma DefaultDelays(k: nat)
    requires k >= 1
    ensures WaitedTimes(Delays(0, 0, 0), k).delay ==
            if 5_000_000 * Pow2(k - 1) < 1_000_000_000 then 5_000_000 * Pow2(k - 1) else 1_000_000_000
  {
    DefaultsFilled(Delays(0, 0, 0), k);
    DelayIsIdeal(Delays(0, 1_000_000_000, 5_000_000), k);
    GrownIsPower(5_000_000, k - 1);
  }

  /** The delays are the ideal ones for ever just if the largest one can be doubled without overflow. */
  lemma DelaysExact(d: Delays)
    requires Fresh(d)
    ensures (forall k: nat :: k >= 1 ==> WaitedTimes(d, k).delay == Ideal(d, k)) <==> d.max < 0x4000_0000_0000_0000
  {
    if d.max < 0x4000_0000_0000_0000 {
      forall k: nat | k >= 1 ensures WaitedTimes(d, k).delay == Ideal(d, k) { DelayIsIdeal(d, k); }
    } else {
      OverflowsBy64(d);
    }
  }

  lemma OverflowsBy64(d: Delays)
    requires Fresh(d) && d.max >= 0x4000_0000_0000_0000
    ensures WaitedTimes(d, 63).delay != Ideal(d, 63) || WaitedTimes(d, 64).delay != Ideal(d, 64)
  {
    KeepsBounds(d, 63);
    KeepsBounds(d, 64);
    Pow62();
    GrownIsPower(d.min, 62);
    if WaitedTimes(d, 63).delay == Ideal(d, 63) { WaitFollowsIdeal(d, 63); }
  }

  lemma {:induction false} KeepsBounds(d: Delays, k: nat)
    requires d.max != 0 && d.min != 0
    ensures WaitedTimes(d, k) == d.(delay := WaitedTimes(d, k).delay)
  {
    if k > 0 { KeepsBounds(d, k - 1); }
  }

  // ---------- how many waits it takes ----------

  /** The least number of waits after which a delay growing from `grown` reaches `max`. */
  function Steps(grown: nat, max: int): (k: nat)
    requires grown > 0
    ensures k >= 1
    decreases max - grown
  {
    if grown >= max then 1 else 1 + Steps(2 * grown, max)
  }

  lemma {:induction false} StepsLeast(grown: nat, max: int, k: nat)
    requires grown > 0 && k >= 1
    ensures Grown(grown, k - 1) >= max <==> k >= Steps(grown, max)
    decreases max - grown
  {
    if grown >= max {
      GrownPositive(grown, k - 1);
    } else if k > 1 {
      StepsLeast(2 * grown, max, k - 1);
      GrownShift(grown, k - 2);
    }
  }

  /** The backoff reaches its maximum before any doubling overflows. */
  predicate Reaches(d: Delays) {
    && Fresh(d)
    && Grown(d.min, Steps(d.min, d.max) - 1) < 0x8000_0000_0000_0000
  }

  lemma SmallReaches(d: Delays)
    requires Fresh(d) && d.max <= 0x4000_0000_0000_0000
    ensures Reaches(d)
  {
    var k := Steps(d.min, d.max);
    if k > 1 { StepsLeast(d.min, d.max, k - 1); }
  }

  lemma {:induction false} IdealUpTo(d: Delays, k: nat)
    requires Fresh(d) && 1 <= k <= Steps(d.min, d.max) && Grown(d.min, k - 1) < 0x8000_0000_0000_0000
    ensures WaitedTimes(d, k) == d.(delay := Ideal(d, k))
  {
    if k == 1 {
      WaitedOnce(d);
    } else {
      IdealUpTo(d, k - 1);
      WaitFollowsIdeal(d, k - 1);
    }
  }

  /** Up to the maximum the delays are ideal just if the last doubling does not overflow. */
  lemma ReachesExact(d: Delays)
    requires Fresh(d)
    ensures Reaches(d) <==>
            forall k: nat :: 1 <= k <= Steps(d.min, d.max) ==> WaitedTimes(d, k).delay == Ideal(d, k)
  {
    if Reaches(d) {
      forall k: nat | 1 <= k <= Steps(d.min, d.max) ensures WaitedTimes(d, k).delay == Ideal(d, k) {
        GrownMonotone(d.min, k - 1, Steps(d.min, d.max) - 1);
        IdealUpTo(d, k);
      }
    } else {
      OverflowIsNegative(d, Steps(d.min, d.max));
      IdealDoubles(d, Steps(d.min, d.max));
    }
  }

  /** Before that many waits they are never maxed out, overflow or not. */
  lemma NotMaxedBefore(d: Delays, k: nat)
    requires Fresh(d) && k < Steps(d.min, d.max)
    ensures !IsMaxed(WaitedTimes(d, k))
  {
    if k > 0 {
      StepsLeast(d.min, d.max, k);
      IdealUpTo(d, k);
    }
  }

  /** Waits are maxed out after the ideal number of them just if the maximum is reached without overflow. */
  lemma MaxedExactly(d: Delays)
    requires Fresh(d)
    ensures IsMaxed(WaitedTimes(d, Steps(d.min, d.max))) <==> Reaches(d)
  {
    var n := Steps(d.min, d.max);
    if Reaches(d) {
      IdealUpTo(d, n);
      StepsLeast(d.min, d.max, n);
    } else {
      OverflowIsNegative(d, n);
    }
  }

  lemma OverflowIsNegative(d: Delays, n: nat)
    requires Fresh(d) && !Reaches(d) && n == Steps(d.min, d.max)
    ensures WaitedTimes(d, n).delay < 0 && WaitedTimes(d, n).max == d.max && WaitedTimes(d, n).min == d.min
  {
    assert n > 1;
    assert Grown(d.min, n - 2) < d.max by { StepsLeast(d.min, d.max, n - 1); }
    IdealUpTo(d, n - 1);
    WrapFits(Ideal(d, n - 1) * 2);
  }

  const LONGEST := Delays(0, 0x7FFF_FFFF_FFFF_FFFF, 1)

  predicate IsLost(delay: int64) {
    delay == 0 || delay == -0x8000_0000_0000_0000 || exists j: nat :: j <= 62 && delay == Pow2(j)
  }

  lemma StaysLost(d: Delays)
    requires d.max == LONGEST.max && d.min == 1 && IsLost(d.delay)
    ensures IsLost(Waited(d).delay)
  {
    if d.delay == 0 {
      assert Waited(d).delay == Pow2(0);
    } else if d.delay != -0x8000_0000_0000_0000 {
      var j: nat :| j <= 62 && d.delay == Pow2(j);
      PowerDoubles(d, j);
    }
  }

  lemma PowerDoubles(d: Delays, j: nat)
    requires d.max == LONGEST.max && d.min == 1 && j <= 62 && d.delay == Pow2(j)
    ensures IsLost(Waited(d).delay)
  {
    Pow62();
    PowMonotone(0, j);
    WrapFits(d.delay * 2);
    if j < 62 {
      PowMonotone(j + 1, 62);
      assert Waited(d).delay == Pow2(j + 1);
    }
  }

  lemma {:induction false} PowMonotone(j: nat, k: nat)
    requires j <= k
    ensures Pow2(j) <= Pow2(k)
  {
    if j < k { PowMonotone(j, k - 1); }
  }

  /** From one nanosecond to the longest duration: the delays overflow, start over, and are never maxed out. */
  lemma {:induction false} NeverMaxed(k: nat)
    ensures var d := WaitedTimes(LONGEST, k);
            d.max == LONGEST.max && d.min == 1 && IsLost(d.delay) && !IsMaxed(d)
  {
    if k > 0 {
      NeverMaxed(k - 1);
      StaysLost(WaitedTimes(LONGEST, k - 1));
    }
    Pow62();
    if j: nat :| j <= 62 && WaitedTimes(LONGEST, k).delay == Pow2(j) { PowMonotone(j, 62); }
  }

  // ---------- whether waits are ever maxed out ----------

  /** A wait that does not start over and is not maxed out has doubled the delay, modulo 2^64. */
  lemma DoublesModulo(d: Delays, x: int)
    requires Fresh(d) && Wrap(x) != 0 && !IsMaxed(Waited(d.(delay := Wrap(x))))
    ensures Waited(d.(delay := Wrap(x))) == d.(delay := Wrap(2 * x))
  {
    WrapDoubles(x);
  }

  /** A wait neither maxed out nor back at the start. */
  ghost predicate Underway(d: Delays, k: nat) {
    !IsMaxed(WaitedTimes(d, k)) && WaitedTimes(d, k).delay != 0
  }

  /** Waits that are underway have only doubled. */
  lemma {:induction false} OnlyDoubled(d: Delays, k: nat)
    requires Fresh(d) && k >= 1 && !IsMaxed(WaitedTimes(d, k))
    requires forall j: nat {:trigger Underway(d, j)} :: 1 <= j < k ==> Underway(d, j)
    ensures WaitedTimes(d, k) == d.(delay := Wrap(Grown(d.min, k - 1)))
  {
    if k == 1 {
      WaitedOnce(d);
      WrapFits(d.min);
    } else {
      assert Underway(d, k - 1);
      OnlyDoubled(d, k - 1);
      DoublesModulo(d, Grown(d.min, k - 2));
    }
  }

  lemma BackWithin65(d: Delays) returns (p: nat)
    requires Fresh(d) && forall j: nat :: j <= 65 ==> !IsMaxed(WaitedTimes(d, j))
    ensures 1 <= p <= 65 && WaitedTimes(d, p) == d
  {
    if q: nat :| 1 <= q < 65 && !Underway(d, q) {
      p := q;
    } else {
      p := 65;
      assert !IsMaxed(WaitedTimes(d, 65));
      OnlyDoubled(d, 65);
      DoubledAway(d.min);
    }
    assert !IsMaxed(WaitedTimes(d, p));
    KeepsBounds(d, p);
  }

  lemma {:induction false} WaitsAdd(d: Delays, p: nat, m: nat)
    ensures WaitedTimes(WaitedTimes(d, p), m) == WaitedTimes(d, p + m)
  {
    if m > 0 { WaitsAdd(d, p, m - 1); }
  }

  /** Waits that are ever maxed out are so within the first 65. */
  lemma {:induction false} MaxedEarly(d: Delays, k: nat)
    requires Fresh(d) && IsMaxed(WaitedTimes(d, k))
    ensures exists j: nat :: j <= 65 && IsMaxed(WaitedTimes(d, j))
  {
    if !exists j: nat :: j <= 65 && IsMaxed(WaitedTimes(d, j)) {
      var p := BackWithin65(d);
      WaitsAdd(d, p, k - p);
      MaxedEarly(d, k - p);
    }
  }

  // ---------- retrying ----------

  datatype Verdict = Committed | Conflicted | Broken

  datatype Outcome = Done | StillConflicting | Broke | Canceled

  /** The engine's verdict on each attempt, and whether the wait after it is cut short. */
  datatype Script = Script(verdict: nat -> Verdict, canceled: nat -> bool)

  /** The k-th attempt, counted from 0, is the last one if it is made. */
  predicate Ends(config: Delays, s: Script, k: nat) {
    s.verdict(k) != Conflicted || s.canceled(k) || IsMaxed(WaitedTimes(config, k))
  }

  /**
    A transaction is repeated while it conflicts and the waits are not maxed out. The loop ends just if
    some attempt is the last one; `last` witnesses that one is.
  */
  method TxnWithBackoff(config: Delays, s: Script, ghost last: nat) returns (r: Outcome, attempts: nat)
    requires Ends(config, s, last)
    ensures 1 <= attempts <= last + 1
    ensures Ends(config, s, attempts - 1) && forall k :: 0 <= k < attempts - 1 ==> !Ends(config, s, k)
    ensures r == match s.verdict(attempts - 1)
                 case Committed => Done
                 case Broken => Broke
                 case Conflicted => if IsMaxed(WaitedTimes(config, attempts - 1)) then StillConflicting else Canceled
  {
    var conflictBackoff := new ExponentialBackoff(config);
    attempts := 0;
    while true
      invariant fresh(conflictBackoff)
      invariant SameWaits(conflictBackoff.State(), WaitedTimes(config, attempts))
      invariant attempts <= last && forall k :: 0 <= k < attempts ==> !Ends(config, s, k)
      decreases last - attempts
    {
      attempts := attempts + 1;
      match s.verdict(attempts - 1)
      case Committed => return Done, attempts;
      case Broken => return Broke, attempts;
      case Conflicted =>
        var maxed := conflictBackoff.Maxed();
        if maxed { return StillConflicting, attempts; }
        var waited := conflictBackoff.Wait(s.canceled(attempts - 1));
        if !waited { return Canceled, attempts; }
    }
  }

  /** Defaults filled in or not, these behave alike. */
  predicate SameWaits(d: Delays, e: Delays) {
    Initialized(d) == Initialized(e)
  }

  lemma {:induction false} DefaultsFirst(d: Delays, k: nat)
    ensures SameWaits(WaitedTimes(d, k), WaitedTimes(Initialized(d), k))
  {
    if k > 0 { DefaultsFirst(d, k - 1); }
  }

  /** A transaction that never commits and is never canceled. */
  function Stubborn(): Script {
    Script(_ => Conflicted, _ => false)
  }

  /**
    Starting from no delay, the ideal number of waits bounds every script just if the maximum is reached
    without overflow; and the stubborn one is never given up before.
  */
  lemma RetriesBounded(config: Delays)
    requires Fresh(Initialized(config))
    ensures var e := Initialized(config);
            var n := Steps(e.min, e.max);
            && (Reaches(e) <==> forall s :: Ends(config, s, n))
            && forall k :: 0 <= k < n ==> !Ends(config, Stubborn(), k)
  {
    var e := Initialized(config);
    var n := Steps(e.min, e.max);
    DefaultsFirst(config, n);
    MaxedExactly(e);
    if !Reaches(e) { assert !Ends(config, Stubborn(), n); }
    forall k | 0 <= k < n ensures !Ends(config, Stubborn(), k) {
      DefaultsFirst(config, k);
      NotMaxedBefore(e, k);
    }
  }

  /** Some attempt is the last one. */
  ghost predicate GivenUp(config: Delays, s: Script) {
    exists k: nat :: Ends(config, s, k)
  }

  /** Starting from no delay, every transaction is given up some time just if a wait up to the 65th is maxed out. */
  lemma RetriesEnd(config: Delays)
    requires Fresh(Initialized(config))
    ensures (forall s {:trigger GivenUp(config, s)} :: GivenUp(config, s)) <==>
            exists k: nat :: k <= 65 && IsMaxed(WaitedTimes(Initialized(config), k))
  {
    var e := Initialized(config);
    if forall s {:trigger GivenUp(config, s)} :: GivenUp(config, s) {
      assert GivenUp(config, Stubborn());
      var k: nat :| Ends(config, Stubborn(), k);
      assert Stubborn().verdict(k) == Conflicted && !Stubborn().canceled(k);
      DefaultsFirst(config, k);
      MaxedEarly(e, k);
    }
    if k: nat :| k <= 65 && IsMaxed(WaitedTimes(e, k)) {
      DefaultsFirst(config, k);
      forall s: Script ensures GivenUp(config, s) { assert Ends(config, s, k); }
    }
  }

  /** With the longest bounds a stubborn transaction is repeated for ever. */
  lemma RetriesForever(k: nat)
    ensures !Ends(LONGEST, Stubborn(), k)
  {
    NeverMaxed(k);
  }
}
