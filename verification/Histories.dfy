/**
 What must have happened during a run for its final state to be what it is:
 failed allocations and faults, admitted packets and the queue, control
 messages and the user table.
 */
module Histories {
  import opened Prelude
  import opened Bytes
  import U = UserTab
  import R = RateLimit
  import opened Machine
  import opened Pool
  import opened Ledger
  import opened Custody
  import opened References
  import opened Coordination
  import opened Theorems

  /** Step `i` is one of hook `h`. */
  predicate Moves(steps: seq<Step>, h: nat, i: nat) { i < |steps| && steps[i].Hook? && steps[i].h == h }

  /** Where hook `h` stands before step `i`. */
  function PcBefore(c: Config, steps: seq<Step>, h: nat, i: nat): (pc: Option<HookPc>)
  {
    if i <= |steps| && h < |Reached(c, steps[..i]).hooks| then Some(Reached(c, steps[..i]).hooks[h]) else None
  }

  lemma PrefixPc(c: Config, steps: seq<Step>, n: nat, h: nat, i: nat)
    requires i <= n <= |steps|
    ensures PcBefore(c, steps[..n], h, i) == PcBefore(c, steps, h, i)
  {
    assert steps[..n][..i] == steps[..i];
  }

  /** One step as hook `h` sees it. */
  lemma HookMoves(c: Config, s: State, step: Step, h: nat)
    ensures var s' := Apply(c, s, step);
            && (h < |s.hooks| ==>
                  && h < |s'.hooks|
                  && s'.hooks[h] == if step.Hook? && step.h == h then NextPc(c, s, h, step.ok) else s.hooks[h])
            && (h < |s'.hooks| && h >= |s.hooks| ==> s'.hooks[h].PortTest?)
  {
    hide HookStep, NextPc, DaemonStep, ControlStep;
    match step
    case Hook(k, ok) =>
      if k < |s.hooks| {
        OneHookMoves(c, s, k, ok);
      }
    case Daemon(ok) => DaemonKeepsHooks(s, ok);
    case Control(ok) => ControlKeepsHooks(s, ok);
    case _ =>
  }

  lemma DaemonKeepsHooks(s: State, ok: bool)
    ensures DaemonStep(s, ok).hooks == s.hooks && DaemonStep(s, ok).log.enqueued == s.log.enqueued
    ensures DaemonStep(s, ok).log.tab == s.log.tab && DaemonStep(s, ok).control == s.control
  {
    hide Ref;
  }

  lemma ControlKeepsHooks(s: State, ok: bool)
    ensures ControlStep(s, ok).hooks == s.hooks && ControlStep(s, ok).log.enqueued == s.log.enqueued
    ensures ControlStep(s, ok).skbs == s.skbs
  {
    hide U.After;
  }

  // ---- faults ----

  /** kmalloc fails in hook `h` at step `i`. */
  ghost predicate KmallocFails(c: Config, steps: seq<Step>, h: nat, i: nat)
  {
    Moves(steps, h, i) && !steps[i].ok && PcBefore(c, steps, h, i).Some? && PcBefore(c, steps, h, i).value.Kmalloc?
  }

  predicate IsFaulted(s: State, h: nat) { h < |s.hooks| && s.hooks[h].Faulted? }

  /** Hook `h` has called cap_buffer_free with NULL. */
  predicate FreesNull(s: State, h: nat) { h < |s.hooks| && (s.hooks[h].Faulted? || s.hooks[h] == FreeBuffer(None)) }

  lemma FaultPc(c: Config, s: State, h: nat, ok: bool)
    requires h < |s.hooks|
    ensures var pc, pc' := s.hooks[h], NextPc(c, s, h, ok);
            && (pc'.Faulted? <==> pc.Faulted? || pc == FreeBuffer(None))
            && (pc' == FreeBuffer(None) <==> pc.Kmalloc? && !ok)
  {
    hide Fits, PutBytes, Rewritten, Ref, SetField, Kill, PacketOf, Woken;
    match s.hooks[h]
    case PortTest(_) =>
    case TakeBuffer(_) =>
    case Kmalloc(_) =>
    case NewSkb(_, _) =>
    case PutMsg(_, _) =>
    case _ =>
  }

  lemma FaultStep(c: Config, s: State, step: Step, h: nat)
    ensures var s', mine := Apply(c, s, step), step.Hook? && step.h == h;
            && (FreesNull(s', h) <==> FreesNull(s, h) || (mine && !step.ok && h < |s.hooks| && s.hooks[h].Kmalloc?))
            && (IsFaulted(s', h) <==> IsFaulted(s, h) || (mine && FreesNull(s, h)))
  {
    HookMoves(c, s, step, h);
    if step.Hook? && step.h == h < |s.hooks| {
      FaultPc(c, s, h, step.ok);
    }
    hide Apply, NextPc;
  }

  /** kmalloc failed in hook `h` within the first `n` steps. */
  ghost predicate FailedBefore(c: Config, steps: seq<Step>, h: nat, n: nat)
  {
    exists i :: 0 <= i < n && KmallocFails(c, steps, h, i)
  }

  lemma PrefixFailed(c: Config, steps: seq<Step>, n: nat, h: nat, j: nat)
    requires j <= n <= |steps|
    ensures FailedBefore(c, steps[..n], h, j) == FailedBefore(c, steps, h, j)
  {
    forall i | 0 <= i < j ensures KmallocFails(c, steps[..n], h, i) == KmallocFails(c, steps, h, i) {
      PrefixPc(c, steps, n, h, i);
    }
  }

  lemma {:induction false} FreesNullExactly(c: Config, steps: seq<Step>, h: nat)
    ensures FreesNull(Reached(c, steps), h) <==> FailedBefore(c, steps, h, |steps|)
    decreases |steps|
  {
    if steps != [] {
      var n := |steps| - 1;
      LastStep(c, steps);
      FaultStep(c, Reached(c, steps[..n]), steps[n], h);
      FreesNullExactly(c, steps[..n], h);
      PrefixFailed(c, steps, n, h, n);
      hide Reached, Apply;
      assert FailedBefore(c, steps, h, |steps|) <==> FailedBefore(c, steps, h, n) || KmallocFails(c, steps, h, n);
    }
  }

  /** Hook `h` moves at step `j`, its kmalloc having failed. */
  ghost predicate MovesOn(c: Config, steps: seq<Step>, h: nat, j: nat)
  {
    Moves(steps, h, j) && FailedBefore(c, steps, h, j)
  }

  /**
   Exactly when a hook dereferences NULL: its kmalloc failed at some step of the
   run, and it has moved since, into the inverted test of cap_buffer_free.
   */
  lemma {:induction false} FaultsExactly(c: Config, steps: seq<Step>, h: nat)
    ensures IsFaulted(Reached(c, steps), h) <==> exists j :: 0 <= j < |steps| && MovesOn(c, steps, h, j)
    decreases |steps|
  {
    if steps != [] {
      var n := |steps| - 1;
      LastStep(c, steps);
      FaultStep(c, Reached(c, steps[..n]), steps[n], h);
      FreesNullExactly(c, steps[..n], h);
      FaultsExactly(c, steps[..n], h);
      hide Reached, Apply, FailedBefore, IsFaulted, FreesNull;
      forall j | 0 <= j < n ensures MovesOn(c, steps[..n], h, j) == MovesOn(c, steps, h, j) {
        PrefixFailed(c, steps, n, h, j);
      }
      PrefixFailed(c, steps, n, h, n);
      assert IsFaulted(Reached(c, steps), h) <==> IsFaulted(Reached(c, steps[..n]), h) || MovesOn(c, steps, h, n);
      assert (exists j :: 0 <= j < n && MovesOn(c, steps[..n], h, j))
             <==> (exists j :: 0 <= j < n && MovesOn(c, steps, h, j));
    }
  }

  /** A listener registers, a packet arrives, the freelist is empty and kmalloc fails. */
  function FaultingRun(pid: u32, pkt: Packet): (steps: seq<Step>)
  {
    [Receive(CAP_ADD, pid), Control(true), Control(true), Control(true)] +
    [Arrive(pkt), Hook(0, true), Hook(0, true), Hook(0, false)] + [Hook(0, true)]
  }

  /** The fault can happen: to any packet and with any listener. */
  lemma FaultReachable(c: Config, pid: u32, pkt: Packet)
    requires pid != 0
    ensures IsFaulted(Reached(c, FaultingRun(pid, pkt)), 0)
  {
    var add := [Receive(CAP_ADD, pid), Control(true), Control(true), Control(true)];
    var hook := [Arrive(pkt), Hook(0, true), Hook(0, true), Hook(0, false)];
    ExecAppend(c, Init(), add + hook, [Hook(0, true)]);
    ExecAppend(c, Init(), add, hook);
    FourSteps(c, Init(), add[0], add[1], add[2], add[3]);
    FourSteps(c, Exec(c, Init(), add), hook[0], hook[1], hook[2], hook[3]);
    assert [Hook(0, true)][1..] == [];
    hide U.After, Exec;
  }

  // ---- admitted packets ----

  /** Skb `id` was made by hook `h`. */
  predicate MadeBy(s: State, id: nat, h: nat) { id < |s.skbs| && s.skbs[id].origin == h }

  /** An skb hook `h` made is, or was, in the queue. */
  ghost predicate WasQueued(s: State, h: nat)
  {
    exists k :: 0 <= k < |s.log.enqueued| && MadeBy(s, s.log.enqueued[k], h)
  }

  predicate AboutToQueue(s: State, h: nat) { h < |s.hooks| && s.hooks[h].Enqueue? }

  /** Step `i` is the rate check of hook `h`, and the limiter lets it pass. */
  ghost predicate Passes(c: Config, steps: seq<Step>, h: nat, i: nat)
  {
    && Moves(steps, h, i) && PcBefore(c, steps, h, i).Some? && PcBefore(c, steps, h, i).value.RateCheck?
    && R.Admits(c.rate, Reached(c, steps[..i]).limiter, Reached(c, steps[..i]).now)
  }

  /** The step lets hook `h` pass. */
  predicate LetsPass(c: Config, s: State, step: Step, h: nat)
  {
    step.Hook? && step.h == h < |s.hooks| && s.hooks[h].RateCheck? && R.Admits(c.rate, s.limiter, s.now)
  }

  lemma EnqueuePc(c: Config, s: State, h: nat, ok: bool)
    requires h < |s.hooks|
    ensures NextPc(c, s, h, ok).Enqueue? <==> s.hooks[h].RateCheck? && R.Admits(c.rate, s.limiter, s.now)
    ensures HookStep(c, s, h, ok).log.enqueued
            == s.log.enqueued + if s.hooks[h].Enqueue? then [s.hooks[h].skb] else []
  {
    hide Fits, PutBytes, Rewritten, Ref, SetField, Kill, PacketOf, Woken, R.Admits, R.After;
    match s.hooks[h]
    case PortTest(_) =>
    case TakeBuffer(_) =>
    case Kmalloc(_) =>
    case NewSkb(_, _) =>
    case PutMsg(_, _) =>
    case _ =>
  }

  /** No skb ever changes its maker. */
  ghost predicate SameMakers(before: seq<Skb>, after: seq<Skb>)
  {
    |before| <= |after| && forall id | 0 <= id < |before| :: after[id].origin == before[id].origin
  }

  lemma MakersHook(c: Config, s: State, h: nat, ok: bool)
    requires h < |s.hooks|
    ensures SameMakers(s.skbs, HookStep(c, s, h, ok).skbs)
  {
    hide Fits, PutBytes, Rewritten, SetField, Kill, Woken;
    match s.hooks[h]
    case PortTest(_) =>
    case TakeBuffer(_) =>
    case Kmalloc(_) =>
    case NewSkb(_, _) =>
    case PutMsg(_, _) =>
    case _ =>
  }

  lemma MakersStep(c: Config, s: State, step: Step)
    ensures SameMakers(s.skbs, Apply(c, s, step).skbs)
  {
    hide HookStep, ControlStep;
    match step
    case Hook(h, ok) => if h < |s.hooks| { MakersHook(c, s, h, ok); }
    case Control(ok) => ControlKeepsHooks(s, ok);
    case _ =>
  }

  /** What a step adds to the queue. */
  function Adds(s: State, step: Step): (ids: seq<nat>)
  {
    if step.Hook? && step.h < |s.hooks| && s.hooks[step.h].Enqueue? then [s.hooks[step.h].skb] else []
  }

  lemma AddsStep(c: Config, s: State, step: Step)
    ensures Apply(c, s, step).log.enqueued == s.log.enqueued + Adds(s, step)
  {
    hide HookStep, ControlStep, DaemonStep;
    match step
    case Hook(h, ok) => if h < |s.hooks| { EnqueuePc(c, s, h, ok); }
    case Control(ok) => ControlKeepsHooks(s, ok);
    case Daemon(ok) => DaemonKeepsHooks(s, ok);
    case _ =>
  }

  /** The skb a hook is about to queue is its own, and those in line exist. */
  lemma OwnMaker(c: Config, s: State, h: nat)
    requires Inv(c, s)
    ensures AboutToQueue(s, h) ==> MadeBy(s, s.hooks[h].skb, h)
    ensures forall k | 0 <= k < |s.log.enqueued| :: s.log.enqueued[k] < |s.skbs|
  {
    hide PoolOk, BuffersOk, RefsOk, ContentsOk, WakeupOk, StartedOk, ControlOk, PortsOk, RateOk;
    hide InLine, Placed, Counted;
  }

  /** Queueing `ids` queues for exactly those who made them. */
  lemma QueuedFor(s: State, s': State, ids: seq<nat>, h: nat)
    requires s'.log.enqueued == s.log.enqueued + ids && SameMakers(s.skbs, s'.skbs) && |ids| <= 1
    requires forall k | 0 <= k < |s'.log.enqueued| :: s'.log.enqueued[k] < |s.skbs|
    ensures WasQueued(s', h) <==> WasQueued(s, h) || (ids != [] && MadeBy(s, ids[0], h))
  {
    var n := |s.log.enqueued|;
    assert forall k | 0 <= k < n :: s'.log.enqueued[k] == s.log.enqueued[k];
    if WasQueued(s, h) {
      var k :| 0 <= k < n && MadeBy(s, s.log.enqueued[k], h);
      assert MadeBy(s', s'.log.enqueued[k], h);
    }
    if ids != [] {
      assert s'.log.enqueued[n] == ids[0];
    }
  }

  /** What a step puts in line is the skb of the hook that moved. */
  lemma AddsOwn(c: Config, s: State, step: Step, h: nat)
    requires Inv(c, s)
    ensures WasQueued(Apply(c, s, step), h) <==> WasQueued(s, h) || (Adds(s, step) != [] && step.h == h)
  {
    hide Apply, Inv, WasQueued, SameMakers;
    MakersStep(c, s, step);
    AddsStep(c, s, step);
    OwnMaker(c, s, if step.Hook? then step.h else h);
    QueuedFor(s, Apply(c, s, step), Adds(s, step), h);
  }

  /** A hook's packet gets in line, or is about to, exactly by passing the check. */
  lemma PassStep(c: Config, s: State, step: Step, h: nat)
    requires Inv(c, s)
    ensures var s' := Apply(c, s, step);
            AboutToQueue(s', h) || WasQueued(s', h)
            <==> AboutToQueue(s, h) || WasQueued(s, h) || LetsPass(c, s, step, h)
  {
    hide Apply, NextPc, Inv, HookStep, R.Admits, WasQueued;
    HookMoves(c, s, step, h);
    if h < |s.hooks| && step.Hook? {
      EnqueuePc(c, s, h, step.ok);
    }
    AddsOwn(c, s, step, h);
  }

  /** Hook `h` passed the check within the first `n` steps. */
  ghost predicate PassedBefore(c: Config, steps: seq<Step>, h: nat, n: nat)
  {
    exists i :: 0 <= i < n && Passes(c, steps, h, i)
  }

  lemma PrefixPassed(c: Config, steps: seq<Step>, n: nat, h: nat)
    requires n <= |steps|
    ensures PassedBefore(c, steps[..n], h, n) == PassedBefore(c, steps, h, n)
  {
    hide Reached, R.Admits, PcBefore;
    forall i | 0 <= i < n ensures Passes(c, steps[..n], h, i) == Passes(c, steps, h, i) {
      PrefixPc(c, steps, n, h, i);
      assert steps[..n][..i] == steps[..i];
    }
  }

  lemma PassedLast(c: Config, steps: seq<Step>, h: nat)
    requires steps != []
    ensures var n := |steps| - 1;
            PassedBefore(c, steps, h, |steps|)
            <==> PassedBefore(c, steps[..n], h, n) || LetsPass(c, Reached(c, steps[..n]), steps[n], h)
  {
    var n := |steps| - 1;
    PrefixPassed(c, steps, n, h);
    hide Reached, R.Admits;
    assert Passes(c, steps, h, n) <==> LetsPass(c, Reached(c, steps[..n]), steps[n], h);
  }

  /**
   Exactly the packets the limiter admits get in line: hook `h` passed the check
   at some step of the run if and only if it is about to queue its skb, or an
   skb it made is or was in the queue.
   */
  lemma {:induction false} AdmittedExactly(c: Config, steps: seq<Step>, h: nat)
    ensures var s := Reached(c, steps);
            AboutToQueue(s, h) || WasQueued(s, h) <==> exists i :: 0 <= i < |steps| && Passes(c, steps, h, i)
    decreases |steps|
  {
    hide Apply, Inv, WasQueued, AboutToQueue, Passes, LetsPass, Reached;
    if steps == [] {
      NobodyYet(c, h);
    } else {
      var n := |steps| - 1;
      LastStep(c, steps);
      ReachedInv(c, steps[..n]);
      PassStep(c, Reached(c, steps[..n]), steps[n], h);
      AdmittedExactly(c, steps[..n], h);
      PassedLast(c, steps, h);
    }
  }

  lemma NobodyYet(c: Config, h: nat)
    ensures !AboutToQueue(Reached(c, []), h) && !WasQueued(Reached(c, []), h)
  {
  }

  /** Step `i` is the rate check of hook `h`, and the limiter stops it. */
  ghost predicate Denied(c: Config, steps: seq<Step>, h: nat, i: nat)
  {
    && Moves(steps, h, i) && PcBefore(c, steps, h, i).Some? && PcBefore(c, steps, h, i).value.RateCheck?
    && !R.Admits(c.rate, Reached(c, steps[..i]).limiter, Reached(c, steps[..i]).now)
  }

  predicate Limited(s: State, h: nat) { h < |s.hooks| && s.hooks[h].RateLimited? }

  lemma LimitedPc(c: Config, s: State, h: nat, ok: bool)
    requires h < |s.hooks|
    ensures NextPc(c, s, h, ok).RateLimited?
            <==> s.hooks[h].RateLimited? || (s.hooks[h].RateCheck? && !R.Admits(c.rate, s.limiter, s.now))
  {
    hide Fits, PutBytes, Rewritten, Ref, SetField, Kill, PacketOf, Woken, R.Admits, R.After;
    match s.hooks[h]
    case PortTest(_) =>
    case TakeBuffer(_) =>
    case Kmalloc(_) =>
    case NewSkb(_, _) =>
    case PutMsg(_, _) =>
    case _ =>
  }

  lemma LimitedStep(c: Config, s: State, step: Step, h: nat)
    ensures Limited(Apply(c, s, step), h)
            <==> || Limited(s, h)
                 || (step.Hook? && step.h == h < |s.hooks| && s.hooks[h].RateCheck?
                     && !R.Admits(c.rate, s.limiter, s.now))
  {
    hide Apply, NextPc, R.Admits;
    HookMoves(c, s, step, h);
    if step.Hook? && step.h == h < |s.hooks| {
      LimitedPc(c, s, h, step.ok);
    }
  }

  lemma PrefixDenied(c: Config, steps: seq<Step>, n: nat, h: nat)
    requires n <= |steps|
    ensures (exists i :: 0 <= i < n && Denied(c, steps[..n], h, i))
            <==> (exists i :: 0 <= i < n && Denied(c, steps, h, i))
  {
    hide Reached, R.Admits, PcBefore;
    forall i | 0 <= i < n ensures Denied(c, steps[..n], h, i) == Denied(c, steps, h, i) {
      PrefixPc(c, steps, n, h, i);
      assert steps[..n][..i] == steps[..i];
    }
    assert forall i | 0 <= i < n :: Denied(c, steps, h, i) == Denied(c, steps[..n], h, i);
  }

  /** A hook keeps its buffer and skb for good exactly when the limiter stopped it at some step of the run. */
  lemma {:induction false} DeniedExactly(c: Config, steps: seq<Step>, h: nat)
    ensures Limited(Reached(c, steps), h) <==> exists i :: 0 <= i < |steps| && Denied(c, steps, h, i)
    decreases |steps|
  {
    if steps != [] {
      var n := |steps| - 1;
      LastStep(c, steps);
      LimitedStep(c, Reached(c, steps[..n]), steps[n], h);
      DeniedExactly(c, steps[..n], h);
      PrefixDenied(c, steps, n, h);
      hide Reached, Apply, R.Admits, Limited;
      assert Limited(Reached(c, steps), h) <==> Limited(Reached(c, steps[..n]), h) || Denied(c, steps, h, n);
    }
  }

  /**
   Under every interleaving no window of HZ ticks sees more than 2 * limit - 1
   rate checks pass, unless the counter wraps.  As many packets as passed are or
   were in the queue, or about to be; as many as failed keep buffer and skb.
   */
  lemma PipelineRate(c: Config, steps: seq<Step>, lo: nat)
    requires c.rate.Limits() && R.Tame(c.rate, Reached(c, steps).log.checks)
    ensures var s := Reached(c, steps);
            && R.Admitted(c.rate, R.BOOT, s.log.checks, lo, lo + c.rate.hz) <= 2 * c.rate.limit - 1
            && |s.log.enqueued| + Count(s.hooks, AtEnqueue) == R.Total(c.rate, R.BOOT, s.log.checks)
            && Count(s.hooks, IsLimited) == |s.log.checks| - R.Total(c.rate, R.BOOT, s.log.checks)
  {
    ReachedInv(c, steps);
    hide Reached, PoolOk, BuffersOk, CustodyOk, RefsOk, ContentsOk, OriginOk, WakeupOk, StartedOk, ControlOk, PortsOk;
    hide R.Admitted, R.Total, R.Run, Count;
    R.TameBound(c.rate, Reached(c, steps).log.checks, lo);
  }

  // ---- control messages ----

  /** The requests handed to the handler during the run, in order, whatever became of them. */
  function Requests(c: Config, s: State, steps: seq<Step>): (es: seq<U.Event>)
    decreases |steps|
  {
    if steps == [] then [] else Accepted(s, steps[0]) + Requests(c, Apply(c, s, steps[0]), steps[1..])
  }

  function Accepted(s: State, step: Step): (es: seq<U.Event>)
  {
    if step.Receive? && s.control.Idle? then Request(step.ty, step.pid) else []
  }

  /** The requests a step drops: those of a message for which kcapd cannot be started. */
  function Dropped(s: State, step: Step): (n: nat)
  {
    if step == Control(false) && s.control.Start? && s.daemon.NotStarted? then |Pending(s.control)| else 0
  }

  /** The requests dropped during the run. */
  function Lost(c: Config, s: State, steps: seq<Step>): (n: nat)
    decreases |steps|
  {
    if steps == [] then 0 else Dropped(s, steps[0]) + Lost(c, Apply(c, s, steps[0]), steps[1..])
  }

  /** One step passes each request on, or drops it. */
  lemma RequestStep(c: Config, s: State, step: Step)
    requires StartedOk(s) && PortsOk(s)
    ensures var s', all := Apply(c, s, step), s.log.tab + Pending(s.control) + Accepted(s, step);
            Dropped(s, step) <= |all| && all[Dropped(s, step)..] == s'.log.tab + Pending(s'.control)
  {
    hide Asked, Cleared, HookStep, DaemonStep, U.After;
    match step {
      case Hook(h, ok) => if h < |s.hooks| { SamePorts(c, s, h, ok); }
      case Daemon(ok) => DaemonKeepsHooks(s, ok);
      case Control(ok) =>
      case _ =>
    }
  }

  lemma DropTwice(a: seq<U.Event>, b: seq<U.Event>, i: nat, j: nat)
    requires i <= |a| && j <= |a[i..] + b|
    ensures (a + b)[i + j..] == (a[i..] + b)[j..]
  {
    assert (a + b)[i..] == a[i..] + b;
  }

  lemma {:induction false} RequestsRun(c: Config, s: State, steps: seq<Step>)
    requires Inv(c, s)
    ensures var s', all := Exec(c, s, steps), s.log.tab + Pending(s.control) + Requests(c, s, steps);
            var k := Lost(c, s, steps);
            k <= |all| && all[k..] == s'.log.tab + Pending(s'.control)
    decreases |steps|
  {
    hide Apply, StartedOk, PortsOk, Pending, Accepted, Dropped, PoolOk, BuffersOk, CustodyOk, RefsOk, ContentsOk;
    hide OriginOk, WakeupOk, ControlOk, RateOk;
    if steps != [] {
      var s1 := Apply(c, s, steps[0]);
      var a, b := s.log.tab + Pending(s.control) + Accepted(s, steps[0]), Requests(c, s1, steps[1..]);
      assert s.log.tab + Pending(s.control) + Requests(c, s, steps) == a + b;
      RequestStep(c, s, steps[0]);
      StepInv(c, s, steps[0]);
      RequestsRun(c, s1, steps[1..]);
      DropTwice(a, b, Dropped(s, steps[0]), Lost(c, s1, steps[1..]));
    }
  }

  lemma NothingFirst(es: seq<U.Event>)
    ensures Init().log.tab + Pending(Init().control) + es == es
  {
  }

  /**
   Nothing but requests made reaches the table, in order; missing are exactly
   the first ones, as many as were dropped because kcapd could not be started.
   */
  lemma TableSeesRequests(c: Config, steps: seq<Step>)
    ensures var s, all, k := Reached(c, steps), Requests(c, Init(), steps), Lost(c, Init(), steps);
            k <= |all| && all[k..] == s.log.tab + Pending(s.control)
  {
    hide Inv, Exec, Requests, Lost;
    InitInv(c);
    RequestsRun(c, Init(), steps);
    NothingFirst(Requests(c, Init(), steps));
  }

  /**
   Client sessions in the pipeline: when every ADD handed to the module was
   followed by its DEL, and the last message has been handled, the table is
   empty, whatever joins were refused and whatever starts of kcapd failed.
   */
  lemma SessionsInPipeline(c: Config, steps: seq<Step>)
    requires U.AllOver(Requests(c, Init(), steps)) && Reached(c, steps).control.Idle?
    ensures Reached(c, steps).table == U.Empty()
  {
    TableSeesRequests(c, steps);
    ControlState(c, steps);
    hide Reached, U.Run, Listed, U.AllOver;
    var tab := Reached(c, steps).log.tab;
    assert tab + [] == tab;
    U.SuffixOver(Requests(c, Init(), steps), Lost(c, Init(), steps));
    U.AllOverLeavesNothing(tab);
  }

  /** With real pids, between messages a non-zero port id is registered or all 32 slots are taken. */
  lemma PortRegistered(c: Config, steps: seq<Step>)
    requires U.RealPids(Requests(c, Init(), steps)) && Reached(c, steps).control.Idle?
    ensures var s := Reached(c, steps);
            s.portId == 0 || s.portId in s.table.slots || U.Occupied(s.table) == U.SIZE == s.table.count
  {
    TableSeesRequests(c, steps);
    ControlState(c, steps);
    ReachedInv(c, steps);
    var s := Reached(c, steps);
    var tab := s.log.tab;
    assert tab + [] == tab;
    assert U.NoBroadcasts(tab);
    hide Reached, Inv, U.Run, U.Erased, U.Join, U.Leave, Requests;
    U.CapacityShrinks(tab, 1);
    U.NoBroadcastErasesNothing(U.Empty(), tab);
    U.FullExactly(s.table);
  }
}
