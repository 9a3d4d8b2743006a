/**
 Whom a captured packet goes to: the port in its netlink header is read when
 the message is made, the port it is sent to when it is sent.
 */
module Addressing {
  import opened Prelude
  import opened Bytes
  import U = UserTab
  import opened Machine
  import opened Pool
  import opened Ledger
  import opened Custody
  import opened References
  import opened Coordination
  import opened Theorems

  /** The port id before step `i`. */
  function PortBefore(c: Config, steps: seq<Step>, i: nat): (port: u32)
    requires i <= |steps|
  {
    Reached(c, steps[..i]).portId
  }

  // ---- the header ----

  /** The step is the nlmsg_put for skb `id`, and works. */
  predicate Stamps(c: Config, s: State, step: Step, id: nat)
  {
    && step.Hook? && step.h < |s.hooks| && s.hooks[step.h].PutMsg? && s.hooks[step.h].skb == id
    && Fits(c, PacketOf(s, id))
  }

  predicate Written(s: State, id: nat) { id < |s.skbs| && s.skbs[id].bytes != [] }

  /** An skb has bytes, and the port in their header, from nlmsg_put only. */
  ghost predicate StampedBy(c: Config, s: State, step: Step, s': State, id: nat)
  {
    Written(s', id) ==>
      if Stamps(c, s, step, id) then s'.skbs[id].dest == s.portId
      else Written(s, id) && s'.skbs[id].dest == s.skbs[id].dest
  }

  lemma StampHook(c: Config, s: State, h: nat, ok: bool, id: nat)
    requires h < |s.hooks|
    ensures StampedBy(c, s, Hook(h, ok), HookStep(c, s, h, ok), id)
  {
    hide Fits, PutBytes, SetField, Kill, Woken;
    match s.hooks[h]
    case PortTest(_) =>
    case TakeBuffer(_) =>
    case Kmalloc(_) =>
    case NewSkb(_, _) =>
    case PutMsg(_, _) =>
    case _ =>
  }

  lemma StampDaemon(c: Config, s: State, ok: bool, id: nat)
    ensures StampedBy(c, s, Daemon(ok), DaemonStep(s, ok), id)
  {
  }

  lemma StampControl(c: Config, s: State, ok: bool, id: nat)
    ensures StampedBy(c, s, Control(ok), ControlStep(s, ok), id)
  {
    hide U.After;
  }

  lemma StampStep(c: Config, s: State, step: Step, id: nat)
    ensures StampedBy(c, s, step, Apply(c, s, step), id)
  {
    hide HookStep, DaemonStep, ControlStep;
    match step
    case Hook(h, ok) => if h < |s.hooks| { StampHook(c, s, h, ok, id); }
    case Daemon(ok) => StampDaemon(c, s, ok, id);
    case Control(ok) => StampControl(c, s, ok, id);
    case _ =>
  }

  /** The port in an skb's header is the port id at the step that made the header. */
  lemma {:induction false} Stamped(c: Config, steps: seq<Step>, id: nat) returns (p: nat)
    requires Written(Reached(c, steps), id)
    ensures p < |steps| && Stamps(c, Reached(c, steps[..p]), steps[p], id)
    ensures Reached(c, steps).skbs[id].dest == PortBefore(c, steps, p)
    decreases |steps|
  {
    NothingWritten(c, id);
    var n := |steps| - 1;
    LastStep(c, steps);
    StampStep(c, Reached(c, steps[..n]), steps[n], id);
    hide Reached, Apply, Stamps, Written;
    if Stamps(c, Reached(c, steps[..n]), steps[n], id) {
      p := n;
    } else {
      p := Stamped(c, steps[..n], id);
      assert steps[..n][..p] == steps[..p];
    }
  }

  lemma NothingWritten(c: Config, id: nat)
    ensures !Written(Reached(c, []), id)
  {
  }

  // ---- the send ----

  /** The step is the netlink_unicast of skb `id`. */
  predicate Sends(s: State, step: Step, id: nat) { step.Daemon? && s.daemon == Unicast(id) }

  lemma SentStep(c: Config, s: State, step: Step)
    ensures Apply(c, s, step).log.sent
            == s.log.sent + if step.Daemon? && s.daemon.Unicast? then [Sending(s.daemon.skb, s.portId, step.ok)] else []
  {
    hide HookStep, Ref, U.After;
    match step
    case Hook(h, ok) => if h < |s.hooks| { SamePorts(c, s, h, ok); }
    case _ =>
  }

  /** What has been in line keeps its header. */
  lemma HeaderStays(c: Config, s: State, step: Step, id: nat)
    requires Inv(c, s) && id in s.log.enqueued
    ensures var s' := Apply(c, s, step);
            id < |s.skbs| && id < |s'.skbs| && s'.skbs[id].dest == s.skbs[id].dest
  {
    hide HookStep, DaemonStep, ControlStep, Inv;
    InLineWritten(c, s, id);
    match step
    case Hook(h, ok) => if h < |s.hooks| { HookKeepsHeader(c, s, h, ok, id); }
    case Daemon(ok) => DaemonKeepsHeader(s, ok, id);
    case Control(ok) => ControlKeepsSkbs(s, ok);
    case _ =>
  }

  lemma InLineWritten(c: Config, s: State, id: nat)
    requires Inv(c, s) && id in s.log.enqueued
    ensures Written(s, id) && forall h | 0 <= h < |s.hooks| :: SkbOf(s.hooks[h]) != Some(id)
  {
    hide PoolOk, BuffersOk, RefsOk, OriginOk, WakeupOk, StartedOk, ControlOk, PortsOk, RateOk;
    assert id < |s.skbs| && PastEnqueue(s.skbs[id].place);
    assert CapturedOk(c, s.skbs[id]);
  }

  lemma HookKeepsHeader(c: Config, s: State, h: nat, ok: bool, id: nat)
    requires h < |s.hooks| && id < |s.skbs| && SkbOf(s.hooks[h]) != Some(id)
    ensures var s' := HookStep(c, s, h, ok); id < |s'.skbs| && s'.skbs[id].dest == s.skbs[id].dest
  {
    hide Fits, PutBytes, Rewritten, SetField, Kill, Woken;
    match s.hooks[h]
    case PortTest(_) =>
    case TakeBuffer(_) =>
    case Kmalloc(_) =>
    case NewSkb(_, _) =>
    case PutMsg(_, _) =>
    case _ =>
  }

  lemma DaemonKeepsHeader(s: State, ok: bool, id: nat)
    requires id < |s.skbs|
    ensures var s' := DaemonStep(s, ok); id < |s'.skbs| && s'.skbs[id].dest == s.skbs[id].dest
  {
  }

  lemma ControlKeepsSkbs(s: State, ok: bool)
    ensures ControlStep(s, ok).skbs == s.skbs
  {
    hide U.After;
  }

  lemma SentInLine(c: Config, s: State, i: nat)
    requires Inv(c, s)
    ensures i < |s.log.sent| ==> s.log.sent[i].skb in s.log.enqueued
    ensures s.daemon.Unicast? ==> s.daemon.skb in s.log.enqueued
  {
    hide PoolOk, BuffersOk, RefsOk, ContentsOk, OriginOk, WakeupOk, StartedOk, ControlOk, PortsOk, RateOk;
    hide HooksOwn, LineOwns, Placed, Counted;
    assert i < |s.log.sent| ==> s.log.enqueued[i] == s.log.sent[i].skb;
    assert s.daemon.Unicast? ==> s.log.enqueued[|s.log.sent|] == s.daemon.skb;
  }

  /** Skb x.skb got its header, for port `dest`, at step `p`, and was sent to port x.to at a later step `j`. */
  ghost predicate Delivery(c: Config, steps: seq<Step>, x: Sending, dest: u32, p: nat, j: nat)
  {
    && p < j < |steps|
    && Stamps(c, Reached(c, steps[..p]), steps[p], x.skb) && Sends(Reached(c, steps[..j]), steps[j], x.skb)
    && dest == PortBefore(c, steps, p) && x.to == PortBefore(c, steps, j)
  }

  lemma LongerRun(c: Config, steps: seq<Step>, n: nat, x: Sending, dest: u32, p: nat, j: nat)
    requires n <= |steps| && Delivery(c, steps[..n], x, dest, p, j)
    ensures Delivery(c, steps, x, dest, p, j)
  {
    hide Reached, Stamps;
    assert steps[..n][..p] == steps[..p] && steps[..n][..j] == steps[..j];
  }

  lemma SentNow(c: Config, steps: seq<Step>, x: Sending) returns (p: nat)
    requires steps != []
    requires var n := |steps| - 1;
             var s := Reached(c, steps[..n]);
             Sends(s, steps[n], x.skb) && x.to == s.portId && Written(s, x.skb)
    ensures var n := |steps| - 1;
            Delivery(c, steps, x, Reached(c, steps[..n]).skbs[x.skb].dest, p, n)
  {
    hide Reached, Stamps;
    var n := |steps| - 1;
    p := Stamped(c, steps[..n], x.skb);
    assert steps[..n][..p] == steps[..p];
  }

  lemma {:induction false} SentFrom(c: Config, steps: seq<Step>, i: nat) returns (p: nat, j: nat)
    requires i < |Reached(c, steps).log.sent|
    ensures var s := Reached(c, steps);
            var x := s.log.sent[i];
            x.skb < |s.skbs| && Delivery(c, steps, x, s.skbs[x.skb].dest, p, j)
    decreases |steps|
  {
    hide Reached, Apply, Inv, Delivery, Written;
    NothingSent(c);
    var n := |steps| - 1;
    var s := Reached(c, steps[..n]);
    LastStep(c, steps);
    ReachedInv(c, steps[..n]);
    SentStep(c, s, steps[n]);
    SentInLine(c, s, i);
    var x := Reached(c, steps).log.sent[i];
    HeaderStays(c, s, steps[n], x.skb);
    if i < |s.log.sent| {
      p, j := SentFrom(c, steps[..n], i);
      LongerRun(c, steps, n, x, s.skbs[x.skb].dest, p, j);
    } else {
      InLineWritten(c, s, x.skb);
      j := n;
      p := SentNow(c, steps, x);
    }
  }

  /**
   Every message sent was given its header at some step p and sent at a later
   step j.  The nlmsg_pid in its bytes is the port id before p, and it went to
   the port id before j: it reaches the listener it is addressed to exactly when
   these two are the same.
   */
  lemma Addressed(c: Config, steps: seq<Step>, i: nat) returns (p: nat, j: nat)
    requires i < |Reached(c, steps).log.sent|
    ensures var s := Reached(c, steps);
            var x := s.log.sent[i];
            && x.skb < |s.skbs| && |s.skbs[x.skb].bytes| >= 16
            && Delivery(c, steps, x, GetLe32(s.skbs[x.skb].bytes, 12), p, j)
  {
    hide Reached, Inv, Delivery, CaptureBytes;
    p, j := SentFrom(c, steps, i);
    var s := Reached(c, steps);
    ReachedInv(c, steps);
    SentInLine(c, s, i);
    BytesInLine(c, s, s.log.sent[i].skb);
    PortInBytes(s.skbs[s.log.sent[i].skb]);
  }

  lemma PortInBytes(k: Skb)
    requires CaptureBytes(k.bytes, k.packet, k.dest)
    ensures |k.bytes| >= 16 && GetLe32(k.bytes, 12) == k.dest
  {
  }

  lemma NothingSent(c: Config)
    ensures Reached(c, []).log.sent == []
  {
  }

  // ---- the two can differ ----

  /** A listener registers, its packet is queued, another registers, and only then kcapd sends. */
  function RedirectingRun(first: u32, second: u32, pkt: Packet): (steps: seq<Step>)
  {
    MsgSteps(CAP_ADD, first, 0) + ([Arrive(pkt)] + (HookSteps() + (HookSteps() +
    (MsgSteps(CAP_ADD, second, 0) + ([Daemon(true)] + ([Daemon(true)] + [Daemon(true)]))))))
  }

  function HookSteps(): (steps: seq<Step>) { [Hook(0, true), Hook(0, true), Hook(0, true), Hook(0, true)] }

  /** With a listener and no buffer at hand, the first four steps of a hook make its skb. */
  lemma MakesSkb(c: Config, s: State, pkt: Packet)
    requires s.hooks == [PortTest(pkt)] && s.portId != 0 && s.freelist == []
    ensures Exec(c, s, HookSteps())
            == s.(hooks := [PutMsg(|s.bufs|, |s.skbs|)], bufs := s.bufs + [Buffer(Some(|s.skbs|), true)],
                  skbs := s.skbs + [Skb(1, [], pkt, 0, 0, InHook(0))])
  {
    FourSteps(c, s, Hook(0, true), Hook(0, true), Hook(0, true), Hook(0, true));
    hide Exec;
  }

  /** Without a rate limit the next four queue it, with the current port id in its header. */
  lemma QueuesSkb(c: Config, s: State, cb: nat, id: nat)
    requires s.hooks == [PutMsg(cb, id)] && id < |s.skbs| && Fits(c, s.skbs[id].packet)
    requires c.rate.limit == 0 && s.daemon == Dequeue
    ensures var s' := Exec(c, s, HookSteps());
            && |s'.skbs| == |s.skbs| && s'.skbs[id].dest == s.portId && s'.queue == s.queue + [id]
            && s'.daemon == Dequeue && s'.control == s.control && s'.table == s.table && s'.log.sent == s.log.sent
  {
    hide Fits, PutBytes, Rewritten;
    FourSteps(c, s, Hook(0, true), Hook(0, true), Hook(0, true), Hook(0, true));
    hide Exec;
  }

  /** kcapd sends the head of the queue to the current port. */
  lemma SendsHead(c: Config, s: State)
    requires s.daemon == Dequeue && s.queue != [] && s.queue[0] < |s.skbs|
    ensures var s', id := Exec(c, s, [Daemon(true)] + ([Daemon(true)] + [Daemon(true)])), s.queue[0];
            && s'.log.sent == s.log.sent + [Sending(id, s.portId, true)]
            && id < |s'.skbs| && s'.skbs[id].dest == s.skbs[id].dest
  {
    hide Exec;
    ExecAppend(c, s, [Daemon(true)], [Daemon(true)] + [Daemon(true)]);
    ExecFirst(c, s, Daemon(true));
    var s1 := Apply(c, s, Daemon(true));
    ExecAppend(c, s1, [Daemon(true)], [Daemon(true)]);
    ExecFirst(c, s1, Daemon(true));
    ExecFirst(c, Apply(c, s1, Daemon(true)), Daemon(true));
  }

  /** A message addressed to one listener can go to another, or to port 0. */
  lemma Redirected(c: Config, first: u32, second: u32, pkt: Packet)
    requires first != 0 && c.rate.limit == 0 && Fits(c, pkt)
    ensures var s := Reached(c, RedirectingRun(first, second, pkt));
            s.log.sent == [Sending(0, second, true)] && s.skbs != [] && s.skbs[0].dest == first
  {
    hide Exec, Apply, Fits, U.Join;
    var sends := [Daemon(true)] + ([Daemon(true)] + [Daemon(true)]);
    var add2 := MsgSteps(CAP_ADD, second, 0);
    ExecAppend(c, Init(), MsgSteps(CAP_ADD, first, 0), [Arrive(pkt)] + (HookSteps() + (HookSteps() + (add2 + sends))));
    MsgResult(c, Init(), CAP_ADD, first, 0);
    var s1 := Exec(c, Init(), MsgSteps(CAP_ADD, first, 0));
    ExecAppend(c, s1, [Arrive(pkt)], HookSteps() + (HookSteps() + (add2 + sends)));
    ExecFirst(c, s1, Arrive(pkt));
    Arrives(c, s1, pkt);
    var s2 := Apply(c, s1, Arrive(pkt));
    ExecAppend(c, s2, HookSteps(), HookSteps() + (add2 + sends));
    MakesSkb(c, s2, pkt);
    var s3 := Exec(c, s2, HookSteps());
    ExecAppend(c, s3, HookSteps(), add2 + sends);
    QueuesSkb(c, s3, 0, 0);
    var s4 := Exec(c, s3, HookSteps());
    ExecAppend(c, s4, add2, sends);
    MsgResult(c, s4, CAP_ADD, second, 0);
    SendsHead(c, Exec(c, s4, add2));
  }

  lemma Arrives(c: Config, s: State, pkt: Packet)
    ensures Apply(c, s, Arrive(pkt))
            == s.(hooks := s.hooks + [PortTest(pkt)], log := s.log.(arrived := s.log.arrived + [pkt]))
  {
  }
}
