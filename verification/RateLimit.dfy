/**
 The capture rate limiter, cap_rate_check.

 `packets` is an int compared against a u32, so it counts modulo 2^32; the
 elapsed time is an unsigned subtraction of jiffies values, so it is taken
 modulo 2^64.  Time itself is an unbounded count of ticks, read modulo 2^64.
 */
module RateLimit {
  import opened Prelude
  import opened Bytes

  const COUNTER: nat := 0x1_0000_0000
  const WORD: nat := 0x1_0000_0000_0000_0000

  datatype Limiter = Limiter(packets: u32, lastCheck: nat)

  const BOOT := Limiter(0, 0)

  /** `limit` is cap_rate_limit, `hz` the ticks in a second. */
  datatype Rate = Rate(limit: u32, hz: nat) {
    predicate Limits() { 0 < limit && hz + 1 < WORD }
  }

  function Jiffies(t: nat): (j: nat) ensures j < WORD { t % WORD }

  function Elapsed(t: nat, lastCheck: nat): (e: nat) { (Jiffies(t) - lastCheck) % WORD }

  /** The counter lets the call through. */
  predicate Counted(r: Rate, l: Limiter) { (l.packets + 1) % COUNTER < r.limit }

  /** The second is over: the call goes through and starts a new one. */
  predicate Resets(r: Rate, l: Limiter, t: nat)
  {
    r.limit != 0 && !Counted(r, l) && Elapsed(t, l.lastCheck) > r.hz
  }

  predicate Admits(r: Rate, l: Limiter, t: nat)
  {
    r.limit == 0 || Counted(r, l) || Resets(r, l, t)
  }

  function After(r: Rate, l: Limiter, t: nat): (l': Limiter)
  {
    if r.limit == 0 then l
    else if Resets(r, l, t) then Limiter(0, Jiffies(t))
    else l.(packets := (l.packets + 1) % COUNTER)
  }

  /** The static variables of cap_rate_check and its body. */
  class RateChecker {
    var packets: u32
    var lastCheck: nat

    constructor ()
      ensures View() == BOOT
    {
      packets, lastCheck := 0, 0;
    }

    function View(): Limiter
      reads this
    {
      Limiter(packets, lastCheck)
    }

    method Check(r: Rate, t: nat) returns (ok: bool)
      modifies this
      ensures ok == Admits(r, old(View()), t)
      ensures View() == After(r, old(View()), t)
    {
      ok := false;
      if r.limit == 0 {
        return true;
      }
      packets := (packets + 1) % COUNTER;
      if packets < r.limit {
        ok := true;
      } else {
        var now := Jiffies(t);
        var elapsed := (now - lastCheck) % WORD;
        if elapsed > r.hz {
          lastCheck := now;
          packets := 0;
          ok := true;
        }
      }
    }
  }

  // ---- runs ----

  ghost predicate From(t: nat, ts: seq<nat>) { forall i | 0 <= i < |ts| :: t <= ts[i] }

  ghost predicate Ordered(ts: seq<nat>) { forall i, j | 0 <= i < j < |ts| :: ts[i] <= ts[j] }

  function Run(r: Rate, l: Limiter, ts: seq<nat>): (l': Limiter)
    decreases |ts|
  {
    if ts == [] then l else Run(r, After(r, l, ts[0]), ts[1..])
  }

  /** How many of the calls made at times `ts` are admitted between `lo` and `hi` inclusive. */
  function Admitted(r: Rate, l: Limiter, ts: seq<nat>, lo: nat, hi: nat): (n: nat)
    ensures n <= |ts|
    decreases |ts|
  {
    if ts == [] then 0
    else One(lo <= ts[0] <= hi && Admits(r, l, ts[0])) + Admitted(r, After(r, l, ts[0]), ts[1..], lo, hi)
  }

  /** How many of the calls are admitted in all. */
  function Total(r: Rate, l: Limiter, ts: seq<nat>): (n: nat)
    decreases |ts|
  {
    if ts == [] then 0 else One(Admits(r, l, ts[0])) + Total(r, After(r, l, ts[0]), ts[1..])
  }

  lemma {:induction false} OneMoreCall(r: Rate, l: Limiter, ts: seq<nat>, t: nat)
    ensures Run(r, l, ts + [t]) == After(r, Run(r, l, ts), t)
    ensures Total(r, l, ts + [t]) == Total(r, l, ts) + One(Admits(r, Run(r, l, ts), t))
    decreases |ts|
  {
    if ts == [] {
      assert ts + [t] == [t] && [t][1..] == [];
    } else {
      assert (ts + [t])[1..] == ts[1..] + [t];
      OneMoreCall(r, After(r, l, ts[0]), ts[1..], t);
    }
  }

  /** Without a limit every call is admitted, and none is counted. */
  lemma {:induction false} NoLimitAdmitsAll(r: Rate, l: Limiter, ts: seq<nat>)
    requires r.limit == 0
    ensures Total(r, l, ts) == |ts| && Run(r, l, ts) == l
    decreases |ts|
  {
    if ts != [] {
      NoLimitAdmitsAll(r, l, ts[1..]);
    }
  }

  /** The packet counter never passes 2^32 during the run. */
  ghost predicate NoWrap(r: Rate, l: Limiter, ts: seq<nat>)
    decreases |ts|
  {
    ts == [] || (l.packets + 1 < COUNTER && NoWrap(r, After(r, l, ts[0]), ts[1..]))
  }

  /** What the counter can still let through before the next reset. */
  function Credit(r: Rate, l: Limiter): (n: nat)
  {
    if l.packets < r.limit then r.limit - 1 - l.packets else 0
  }

  /** Unsigned subtraction never reports more than the time that really passed. */
  lemma ElapsedAtMost(t: nat, since: nat)
    requires since <= t
    ensures Elapsed(t, Jiffies(since)) <= t - since
    ensures Elapsed(t, Jiffies(since)) == (t - since) % WORD
  {
    var d := t / WORD - since / WORD;
    assert Jiffies(t) - Jiffies(since) == (t - since) - WORD * d;
    ModShift(t - since, d);
  }

  lemma {:induction false} ModShift(x: int, d: int)
    ensures (x - WORD * d) % WORD == x % WORD
    decreases if d < 0 then -d else d
  {
    if d > 0 {
      ModShift(x, d - 1);
    } else if d < 0 {
      ModShift(x, d + 1);
    }
  }

  /** Within a second of a reset only the counter admits. */
  lemma {:induction false} AdmittedAfterReset(r: Rate, l: Limiter, since: nat, ts: seq<nat>, lo: nat, hi: nat)
    requires r.Limits() && Ordered(ts) && NoWrap(r, l, ts)
    requires l.lastCheck == Jiffies(since) && hi <= since + r.hz
    requires From(since, ts)
    ensures Admitted(r, l, ts, lo, hi) <= Credit(r, l)
    decreases |ts|
  {
    if ts != [] {
      if ts[0] > hi {
        NothingLate(r, l, ts, lo, hi);
      } else {
        ElapsedAtMost(ts[0], since);
        AdmittedAfterReset(r, After(r, l, ts[0]), since, ts[1..], lo, hi);
      }
    }
  }

  lemma {:induction false} NothingLate(r: Rate, l: Limiter, ts: seq<nat>, lo: nat, hi: nat)
    requires Ordered(ts) && (ts != [] ==> ts[0] > hi)
    ensures Admitted(r, l, ts, lo, hi) == 0
    decreases |ts|
  {
    if ts != [] {
      NothingLate(r, After(r, l, ts[0]), ts[1..], lo, hi);
    }
  }

  /** Once inside the window: what the counter still lets through, then one reset and its second. */
  lemma {:induction false} AdmittedInWindow(r: Rate, l: Limiter, ts: seq<nat>, lo: nat)
    requires r.Limits() && Ordered(ts) && NoWrap(r, l, ts)
    requires From(lo, ts)
    ensures Admitted(r, l, ts, lo, lo + r.hz) <= Credit(r, l) + r.limit
    decreases |ts|
  {
    if ts != [] {
      var rest, l' := ts[1..], After(r, l, ts[0]);
      if Resets(r, l, ts[0]) {
        AdmittedAfterReset(r, l', ts[0], rest, lo, lo + r.hz);
      } else {
        AdmittedInWindow(r, l', rest, lo);
      }
    }
  }

  /**
   Window bound: from any state, while the counter does not wrap, no interval of
   HZ ticks sees more than 2 * limit - 1 admitted calls.
   */
  lemma {:induction false} WindowBound(r: Rate, l: Limiter, ts: seq<nat>, lo: nat)
    requires r.Limits() && Ordered(ts) && NoWrap(r, l, ts)
    ensures Admitted(r, l, ts, lo, lo + r.hz) <= 2 * r.limit - 1
    decreases |ts|
  {
    if ts != [] && ts[0] < lo {
      WindowBound(r, After(r, l, ts[0]), ts[1..], lo);
    } else {
      AdmittedInWindow(r, l, ts, lo);
    }
  }

  // ---- exactly when the bound holds ----

  lemma {:induction false} ShortRunsDoNotWrap(r: Rate, l: Limiter, ts: seq<nat>)
    requires r.limit != 0 && l.packets + |ts| < COUNTER
    ensures NoWrap(r, l, ts)
    decreases |ts|
  {
    if ts != [] {
      ShortRunsDoNotWrap(r, After(r, l, ts[0]), ts[1..]);
    }
  }

  /** Before the first reset: either the counter never wraps, or few calls are left once it does. */
  lemma {:induction false} FirstEpoch(r: Rate, l: Limiter, ts: seq<nat>, lo: nat, hi: nat)
    requires r.Limits() && l.packets + |ts| < COUNTER + r.limit
    ensures NoWrap(r, l, ts) || Admitted(r, l, ts, lo, hi) <= Credit(r, l) + r.limit
    decreases |ts|
  {
    if ts != [] && l.packets + 1 < COUNTER {
      var l', rest := After(r, l, ts[0]), ts[1..];
      if Resets(r, l, ts[0]) {
        ShortRunsDoNotWrap(r, l', rest);
      } else {
        FirstEpoch(r, l', rest, lo, hi);
      }
    }
  }

  function Burst(t: nat, n: nat): (ts: seq<nat>)
    ensures |ts| == n && Ordered(ts) && forall i | 0 <= i < n :: ts[i] == t
  {
    if n == 0 then [] else [t] + Burst(t, n - 1)
  }

  /** How many calls of a burst of `n` at time `t` are admitted. */
  function Through(r: Rate, l: Limiter, t: nat, n: nat): (k: nat)
  {
    Admitted(r, l, Burst(t, n), t, t + r.hz)
  }

  lemma BurstStep(r: Rate, l: Limiter, t: nat, n: nat)
    requires n > 0
    ensures Through(r, l, t, n) == One(Admits(r, l, t)) + Through(r, After(r, l, t), t, n - 1)
  {
    assert Burst(t, n)[1..] == Burst(t, n - 1);
  }

  /** In a burst long enough to wrap the counter another call gets through. */
  lemma {:induction false} BurstWraps(r: Rate, l: Limiter, t: nat, n: nat)
    requires r.Limits() && n + l.packets >= COUNTER && l.lastCheck == Jiffies(t)
    ensures Through(r, l, t, n) >= 1
    decreases n
  {
    BurstStep(r, l, t, n);
    if !Admits(r, l, t) {
      BurstWraps(r, After(r, l, t), t, n - 1);
    }
  }

  /** A burst first uses up the credit. */
  lemma {:induction false} BurstCredit(r: Rate, l: Limiter, t: nat, n: nat)
    requires r.Limits() && l.packets < r.limit && n >= Credit(r, l)
    ensures Through(r, l, t, n) == Credit(r, l) + Through(r, l.(packets := r.limit - 1), t, n - Credit(r, l))
    decreases n
  {
    hide Through;
    if l.packets < r.limit - 1 {
      BurstStep(r, l, t, n);
      BurstCredit(r, After(r, l, t), t, n - 1);
    }
  }

  /** 2^32 + limit calls at one instant, a second after boot, exceed the bound. */
  lemma BurstBreaksBound(r: Rate, n: nat)
    requires r.Limits() && n >= COUNTER + r.limit
    ensures Through(r, BOOT, r.hz + 1, n) >= 2 * r.limit
  {
    hide Through;
    var t, c := r.hz + 1, r.limit - 1;
    var full, renewed := BOOT.(packets := c), Limiter(0, Jiffies(t));
    BurstCredit(r, BOOT, t, n);
    assert Resets(r, full, t) && After(r, full, t) == renewed;
    BurstStep(r, full, t, n - c);
    BurstCredit(r, renewed, t, n - c - 1);
    BurstWraps(r, renewed.(packets := c), t, n - c - 1 - c);
  }

  ghost predicate WithinBound(r: Rate, ts: seq<nat>, lo: nat)
  {
    Admitted(r, BOOT, ts, lo, lo + r.hz) <= 2 * r.limit - 1
  }

  /** Every run of `n` calls from boot respects the bound in every window. */
  ghost predicate BoundHolds(r: Rate, n: nat)
  {
    forall ts: seq<nat>, lo: nat :: |ts| == n && Ordered(ts) ==> WithinBound(r, ts, lo)
  }

  /** The bound holds for runs of `n` calls exactly when n < 2^32 + limit. */
  lemma WindowBoundExact(r: Rate, n: nat)
    requires r.Limits()
    ensures BoundHolds(r, n) <==> n < COUNTER + r.limit
  {
    if n < COUNTER + r.limit {
      forall ts: seq<nat>, lo: nat | |ts| == n && Ordered(ts)
        ensures WithinBound(r, ts, lo)
      {
        FirstEpoch(r, BOOT, ts, lo, lo + r.hz);
        if NoWrap(r, BOOT, ts) {
          WindowBound(r, BOOT, ts, lo);
        }
      }
    } else {
      BurstBreaksBound(r, n);
      var ts, lo := Burst(r.hz + 1, n), r.hz + 1;
      assert !WithinBound(r, ts, lo);
    }
  }

  /** How many of the calls are made in the HZ ticks from `lo` on. */
  function Calls(r: Rate, ts: seq<nat>, lo: nat): (n: nat)
    decreases |ts|
  {
    if ts == [] then 0 else One(lo <= ts[0] <= lo + r.hz) + Calls(r, ts[1..], lo)
  }

  /** Jiffies never wraps, and no window of HZ ticks sees 2^32 - 1 calls. */
  ghost predicate Sparse(r: Rate, ts: seq<nat>)
  {
    (forall i | 0 <= i < |ts| :: ts[i] < WORD) && (forall lo: nat :: Calls(r, ts, lo) < COUNTER - 1)
  }

  lemma {:induction false} NoCallsBefore(r: Rate, ts: seq<nat>, lo: nat)
    requires From(lo + r.hz + 1, ts)
    ensures Calls(r, ts, lo) == 0
    decreases |ts|
  {
    if ts != [] {
      NoCallsBefore(r, ts[1..], lo);
    }
  }

  lemma LaterCalls(r: Rate, ts: seq<nat>)
    requires Sparse(r, ts) && ts != []
    ensures Calls(r, ts[1..], ts[0]) < COUNTER - 1
  {
    assert Calls(r, ts, ts[0]) < COUNTER - 1;
  }

  lemma SparseRest(r: Rate, ts: seq<nat>)
    requires Sparse(r, ts) && ts != []
    ensures Sparse(r, ts[1..])
  {
    forall lo: nat ensures Calls(r, ts[1..], lo) < COUNTER - 1 {
      assert Calls(r, ts, lo) < COUNTER - 1;
    }
  }

  /** One call while neither jiffies nor the counter wraps. */
  lemma PlainCall(r: Rate, l: Limiter, since: nat, t: nat)
    requires r.Limits() && l.lastCheck == since <= t < WORD && l.packets + 1 < COUNTER
    ensures if t > since + r.hz && l.packets + 1 >= r.limit then After(r, l, t) == Limiter(0, t)
            else After(r, l, t) == Limiter(l.packets + 1, since)
  {
    ElapsedAtMost(t, since);
  }

  /** The counter passes the limit only within a second of the last reset: the next call after that resets. */
  lemma {:induction false} SparseFrom(r: Rate, l: Limiter, since: nat, ts: seq<nat>)
    requires r.Limits() && Ordered(ts) && From(since, ts) && Sparse(r, ts)
    requires l.lastCheck == since < WORD && l.packets + Calls(r, ts, since) < COUNTER - 1
    ensures NoWrap(r, l, ts)
    decreases |ts|
  {
    if ts != [] {
      var t, l', rest := ts[0], After(r, l, ts[0]), ts[1..];
      PlainCall(r, l, since, t);
      SparseRest(r, ts);
      hide After, Sparse;
      if t > since + r.hz && l.packets + 1 >= r.limit {
        LaterCalls(r, ts);
        SparseFrom(r, l', t, rest);
      } else {
        if t > since + r.hz {
          NoCallsBefore(r, rest, since);
        }
        SparseFrom(r, l', since, rest);
      }
    }
  }

  /** Before jiffies wraps, fewer than 2^32 - 1 calls in every window never wrap the counter, however many there are. */
  lemma SparseDoesNotWrap(r: Rate, ts: seq<nat>)
    requires r.Limits() && Ordered(ts) && Sparse(r, ts)
    ensures NoWrap(r, BOOT, ts)
  {
    assert Calls(r, ts, 0) < COUNTER - 1;
    SparseFrom(r, BOOT, 0, ts);
  }

  /**
   Jiffies may wrap any number of times, but not between a call and the end of
   the second before the next; and no window sees 2^32 - limit calls.
   */
  ghost predicate Steady(r: Rate, ts: seq<nat>)
  {
    && (forall i | 0 < i < |ts| :: ts[i] < ts[i - 1] + WORD - r.hz)
    && (forall lo: nat :: Calls(r, ts, lo) < COUNTER - r.limit)
  }

  lemma SteadyRest(r: Rate, ts: seq<nat>)
    requires Steady(r, ts) && ts != []
    ensures Steady(r, ts[1..])
    ensures |ts| > 1 ==> ts[1] < ts[0] + WORD - r.hz
    ensures forall lo: nat | lo <= ts[0] <= lo + r.hz :: Calls(r, ts[1..], lo) < COUNTER - r.limit - 1
  {
    forall lo: nat ensures Calls(r, ts[1..], lo) + One(lo <= ts[0] <= lo + r.hz) < COUNTER - r.limit {
      assert Calls(r, ts, lo) < COUNTER - r.limit;
    }
  }

  /** One call `d` ticks after the k-th wrap of the time since the reset, while the counter does not wrap. */
  lemma CallAfterWraps(r: Rate, l: Limiter, since: nat, k: nat, d: nat)
    requires r.Limits() && l.lastCheck == Jiffies(since) && d < WORD && l.packets + 1 < COUNTER
    ensures var t := since + WORD * k + d;
            if d > r.hz && l.packets + 1 >= r.limit then After(r, l, t) == Limiter(0, Jiffies(t))
            else After(r, l, t) == Limiter(l.packets + 1, Jiffies(since))
  {
    var t := since + WORD * k + d;
    ElapsedAtMost(t, since);
    ModShift(t - since, k);
    assert (t - since - WORD * k) % WORD == d;
  }

  /** While the counter is below the limit. */
  lemma {:induction false} SteadyBelow(r: Rate, l: Limiter, since: nat, ts: seq<nat>)
    requires r.Limits() && Ordered(ts) && From(since, ts) && Steady(r, ts)
    requires l.lastCheck == Jiffies(since) && l.packets < r.limit
    ensures NoWrap(r, l, ts)
    decreases |ts|
  {
    if ts != [] {
      hide Elapsed, Jiffies, After, Steady;
      var t, rest := ts[0], ts[1..];
      var k, d := (t - since) / WORD, (t - since) % WORD;
      assert t == since + WORD * k + d;
      CallAfterWraps(r, l, since, k, d);
      SteadyRest(r, ts);
      if l.packets + 1 < r.limit {
        SteadyBelow(r, After(r, l, t), since, rest);
      } else if d > r.hz {
        SteadyBelow(r, After(r, l, t), t, rest);
      } else {
        SteadyAbove(r, After(r, l, t), since, k, t, rest);
      }
    }
  }

  /** Past the limit: the last call, at `p`, was within a second of the k-th wrap of the time since the reset. */
  lemma {:induction false} SteadyAbove(r: Rate, l: Limiter, since: nat, k: nat, p: nat, ts: seq<nat>)
    requires r.Limits() && Ordered(ts) && From(p, ts) && Steady(r, ts)
    requires l.lastCheck == Jiffies(since) && l.packets >= r.limit
    requires var w := since + WORD * k; w <= p <= w + r.hz && l.packets + Calls(r, ts, w) < COUNTER - 1
    requires ts != [] ==> ts[0] < p + WORD - r.hz
    ensures NoWrap(r, l, ts)
    decreases |ts|
  {
    if ts != [] {
      hide Elapsed, Jiffies, After, Steady;
      var t, rest, w := ts[0], ts[1..], since + WORD * k;
      CallAfterWraps(r, l, since, k, t - w);
      SteadyRest(r, ts);
      if t - w > r.hz {
        SteadyBelow(r, After(r, l, t), t, rest);
      } else {
        SteadyAbove(r, After(r, l, t), since, k, t, rest);
      }
    }
  }

  lemma SteadyDoesNotWrap(r: Rate, ts: seq<nat>)
    requires r.Limits() && Ordered(ts) && Steady(r, ts)
    ensures NoWrap(r, BOOT, ts)
  {
    SteadyBelow(r, BOOT, 0, ts);
  }

  /** Any one of four reasons for the window bound: no wrap, few calls in all, or few calls a second in either sense. */
  ghost predicate Tame(r: Rate, ts: seq<nat>)
  {
    NoWrap(r, BOOT, ts) || |ts| < COUNTER + r.limit || Sparse(r, ts) || Steady(r, ts)
  }

  lemma TameBound(r: Rate, ts: seq<nat>, lo: nat)
    requires r.Limits() && Ordered(ts) && Tame(r, ts)
    ensures WithinBound(r, ts, lo)
  {
    if |ts| < COUNTER + r.limit {
      WindowBoundExact(r, |ts|);
    } else {
      if Sparse(r, ts) {
        SparseDoesNotWrap(r, ts);
      } else if Steady(r, ts) {
        SteadyDoesNotWrap(r, ts);
      }
      WindowBound(r, BOOT, ts, lo);
    }
  }

  // ---- progress ----

  /** Call `i` of the run is admitted. */
  predicate AdmittedAt(r: Rate, l: Limiter, ts: seq<nat>, i: nat)
    requires i < |ts|
  {
    Admits(r, Run(r, l, ts[..i]), ts[i])
  }

  /**
   After a denied call at time t, by the first call later than t + HZ some call
   after t has been admitted, as long as the time since the last reset does not
   wrap.  `ts` are the calls after the denied one, `l` the state it left.
   */
  lemma {:induction false} DeniedThenAdmitted(r: Rate, l: Limiter, since: nat, t: nat, ts: seq<nat>) returns (k: nat)
    requires r.Limits() && Ordered(ts) && ts != []
    requires since <= t && l.lastCheck == Jiffies(since) && Elapsed(t, l.lastCheck) <= r.hz
    requires From(t, ts)
    requires ts[|ts| - 1] > t + r.hz && ts[|ts| - 1] - since < WORD
    ensures k < |ts| && ts[k] > t && AdmittedAt(r, l, ts, k)
    decreases |ts|
  {
    ElapsedAtMost(ts[0], since);
    ElapsedAtMost(t, since);
    if Resets(r, l, ts[0]) || |ts| == 1 {
      k := 0;
      assert ts[..0] == [];
    } else {
      var l', rest := After(r, l, ts[0]), ts[1..];
      k := DeniedThenAdmitted(r, l', since, t, rest);
      assert ts[..k + 1][1..] == rest[..k] && ts[..k + 1][0] == ts[0];
      assert Run(r, l, ts[..k + 1]) == Run(r, l', rest[..k]);
      k := k + 1;
    }
  }

  /** The same, from the state the denied call itself found. */
  lemma ProgressAfterDenial(r: Rate, l: Limiter, since: nat, t: nat, ts: seq<nat>) returns (k: nat)
    requires r.Limits() && Ordered(ts) && ts != [] && From(t, ts)
    requires since <= t && l.lastCheck == Jiffies(since) && !Admits(r, l, t)
    requires ts[|ts| - 1] > t + r.hz && ts[|ts| - 1] - since < WORD
    ensures k < |ts| && ts[k] > t && AdmittedAt(r, After(r, l, t), ts, k)
  {
    k := DeniedThenAdmitted(r, After(r, l, t), since, t, ts);
  }

  /**
   The bound on the time since the reset is needed: with no call in between, the
   next call gets through exactly when the wrapped elapsed time exceeds HZ, or
   the counter itself is about to wrap.
   */
  lemma NextCallExact(r: Rate, l: Limiter, since: nat, t: nat, t': nat)
    requires r.Limits() && since <= t <= t' && l.lastCheck == Jiffies(since) && !Admits(r, l, t)
    ensures Admits(r, After(r, l, t), t')
            <==> (t' - since) % WORD > r.hz || After(r, l, t).packets == COUNTER - 1
  {
    ElapsedAtMost(t', since);
  }
}
