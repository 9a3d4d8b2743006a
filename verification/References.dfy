/**
 The skb reference ledger: all references the module holds, summed over every
 capture skb, against the hooks, the queue, kcapd's hand and the refused sends.
 */
module References {
  import opened Prelude
  import opened Machine
  import opened Pool
  import opened Ledger
  import opened Custody

  predicate HasSkb(pc: HookPc) { SkbOf(pc).Some? }

  function HandRefs(d: DaemonPc): (n: nat)
  {
    match d
    case GetRef(_) => 1
    case Unicast(_) => 2
    case Consume(_) => 1
    case _ => 0
  }

  function Refusals(sent: seq<Sending>): (n: nat)
  {
    if sent == [] then 0 else Refusals(sent[..|sent| - 1]) + One(!sent[|sent| - 1].ok)
  }

  ghost predicate RefsConserved(skbs: seq<Skb>, hooks: seq<HookPc>, queue: seq<nat>, d: DaemonPc, sent: seq<Sending>)
  {
    TotalRefs(skbs) == Count(hooks, HasSkb) + |queue| + HandRefs(d) + Refusals(sent)
  }

  ghost predicate RefsOk(s: State)
  {
    RefsConserved(s.skbs, s.hooks, s.queue, s.daemon, s.log.sent)
  }

  lemma RefSum(skbs: seq<Skb>, id: nat, d: int, place: Place)
    requires id < |skbs|
    ensures TotalRefs(Ref(skbs, id, d, place)) == TotalRefs(skbs) + d
  {
    RefsUpdate(skbs, id, skbs[id].(refs := skbs[id].refs + d, place := place));
  }

  lemma RefsAt(s: State, h: nat, pc: HookPc)
    requires RefsOk(s) && h < |s.hooks| && HasSkb(pc) == HasSkb(s.hooks[h])
    ensures RefsConserved(s.skbs, s.hooks[h := pc], s.queue, s.daemon, s.log.sent)
  {
    CountUpdate(s.hooks, h, pc, HasSkb);
  }

  lemma RefsPut(c: Config, s: State, h: nat, cb: nat, id: nat)
    requires CustodyOk(s) && RefsOk(s) && h < |s.hooks| && s.hooks[h] == PutMsg(cb, id)
    ensures RefsOk(StepPut(c, s, h, cb, id))
  {
    hide Fits, PutBytes, CustodyOk, TotalRefs, Count, Refusals, SetField, Ref;
    HookSkb(s, h);
    var pkt := PacketOf(s, id);
    if !Fits(c, pkt) {
      CountUpdate(s.hooks, h, FreeBuffer(Some(cb)), HasSkb);
      RefSum(s.skbs, id, -1, Freed);
    } else {
      CountUpdate(s.hooks, h, RateCheck(cb, id), HasSkb);
      RefsUpdate(s.skbs, id, s.skbs[id].(bytes := PutBytes(c, s.portId, pkt), dest := s.portId));
    }
  }

  lemma RefsEnqueue(s: State, h: nat, cb: nat, id: nat)
    requires CustodyOk(s) && RefsOk(s) && h < |s.hooks| && s.hooks[h] == Enqueue(cb, id)
    ensures RefsOk(StepEnqueue(s, h, cb, id))
  {
    assert id < |s.skbs|;
    var k := s.skbs[id].(bytes := Rewritten(s.skbs[id].bytes), place := Queued);
    assert RefsConserved(s.skbs[id := k], s.hooks[h := Wake(cb)], s.queue + [id], s.daemon, s.log.sent) by {
      hide CustodyOk, TotalRefs, Count, Refusals, Rewritten;
      CountUpdate(s.hooks, h, Wake(cb), HasSkb);
      RefsUpdate(s.skbs, id, k);
    }
    hide RefsConserved, CustodyOk;
  }

  lemma RefsNew(s: State, h: nat, pkt: Packet, cb: nat, ok: bool)
    requires RefsOk(s) && h < |s.hooks| && s.hooks[h] == NewSkb(pkt, cb)
    ensures RefsOk(StepNewSkb(s, h, pkt, cb, ok))
  {
    CountUpdate(s.hooks, h, PutMsg(cb, |s.skbs|), HasSkb);
    CountUpdate(s.hooks, h, FreeBuffer(Some(cb)), HasSkb);
    RefsAppend(s.skbs, Skb(1, [], pkt, 0, h, InHook(h)));
  }

  lemma RefsHook(c: Config, s: State, h: nat, ok: bool)
    requires CustodyOk(s) && RefsOk(s) && h < |s.hooks|
    ensures RefsOk(HookStep(c, s, h, ok))
  {
    hide CustodyOk, StepPut, StepEnqueue, StepNewSkb, SetField, Kill;
    assert HandRefs(Woken(s.daemon)) == HandRefs(s.daemon);
    hide RefsConserved;
    match s.hooks[h] {
      case NewSkb(pkt, cb) => RefsNew(s, h, pkt, cb, ok);
      case PutMsg(cb, id) => RefsPut(c, s, h, cb, id);
      case Enqueue(cb, id) => RefsEnqueue(s, h, cb, id);
      case Wake(cb) => RefsWake(s, h, cb);
      case _ => RefsPlain(c, s, h, ok);
    }
  }

  lemma RefsWake(s: State, h: nat, cb: nat)
    requires RefsOk(s) && h < |s.hooks| && s.hooks[h] == Wake(cb)
    ensures RefsConserved(s.skbs, s.hooks[h := ClearSkb(cb)], s.queue, Woken(s.daemon), s.log.sent)
  {
    RefsAt(s, h, ClearSkb(cb));
  }

  lemma RefsPlain(c: Config, s: State, h: nat, ok: bool)
    requires RefsOk(s) && h < |s.hooks|
    requires !s.hooks[h].NewSkb? && !s.hooks[h].PutMsg? && !s.hooks[h].Enqueue? && !s.hooks[h].Wake?
    ensures RefsOk(HookStep(c, s, h, ok))
  {
    hide RefsConserved, StepPut, StepEnqueue, StepNewSkb, SetField, Kill;
    match s.hooks[h] {
      case PortTest(pkt) => RefsAt(s, h, if s.portId == 0 then Returned else TakeBuffer(pkt));
      case TakeBuffer(pkt) =>
        RefsAt(s, h, Kmalloc(pkt));
        if s.freelist != [] { RefsAt(s, h, NewSkb(pkt, s.freelist[0])); }
      case Kmalloc(pkt) => RefsAt(s, h, NewSkb(pkt, |s.bufs|)); RefsAt(s, h, FreeBuffer(None));
      case RateCheck(cb, id) => RefsAt(s, h, Enqueue(cb, id)); RefsAt(s, h, RateLimited(cb, id));
      case ClearSkb(cb) => RefsAt(s, h, FreeBuffer(Some(cb)));
      case FreeBuffer(cb) => RefsAt(s, h, if cb == None then Faulted else Returned);
      case _ =>
    }
  }

  /** One message moves along the line, gaining `d` references. */
  lemma RefsMove(s: State, id: nat, d: int, place: Place, queue: seq<nat>, daemon: DaemonPc)
    requires RefsOk(s) && id < |s.skbs| && |queue| + HandRefs(daemon) == |s.queue| + HandRefs(s.daemon) + d
    ensures RefsConserved(Ref(s.skbs, id, d, place), s.hooks, queue, daemon, s.log.sent)
  {
    hide TotalRefs, Count, Refusals, Ref;
    RefSum(s.skbs, id, d, place);
  }

  lemma RefsSent(s: State, id: nat, ok: bool)
    requires RefsOk(s) && id < |s.skbs| && s.daemon == Unicast(id)
    ensures RefsConserved(Ref(s.skbs, id, -1, Sent(ok)), s.hooks, s.queue,
                          if ok then Consume(id) else ClearPort(id), s.log.sent + [Sending(id, s.portId, ok)])
  {
    hide TotalRefs, Count, Refusals, Ref;
    RefSum(s.skbs, id, -1, Sent(ok));
    RefusalsAppend(s.log.sent, Sending(id, s.portId, ok));
  }

  lemma RefsIdle(s: State, daemon: DaemonPc)
    requires RefsOk(s) && HandRefs(daemon) == HandRefs(s.daemon)
    ensures RefsConserved(s.skbs, s.hooks, s.queue, daemon, s.log.sent)
  {
  }

  lemma RefsDequeue(s: State, ok: bool)
    requires RefsOk(s) && s.daemon.Dequeue? && (s.queue != [] ==> s.queue[0] < |s.skbs|)
    ensures RefsOk(DaemonStep(s, ok))
  {
    hide Ref, RefsConserved;
    if s.queue == [] {
      RefsIdle(s, WaitTest);
    } else {
      RefsMove(s, s.queue[0], 0, InHand, s.queue[1..], GetRef(s.queue[0]));
    }
  }

  lemma RefsInHand(s: State, ok: bool)
    requires RefsOk(s) && (s.daemon.GetRef? || s.daemon.Unicast? || s.daemon.Consume?) && s.daemon.skb < |s.skbs|
    ensures RefsOk(DaemonStep(s, ok))
  {
    hide Ref, RefsConserved;
    match s.daemon
    case GetRef(id) => RefsMove(s, id, 1, InHand, s.queue, Unicast(id));
    case Unicast(id) => RefsSent(s, id, ok);
    case Consume(id) => RefsMove(s, id, -1, Sent(true), s.queue, Dequeue);
  }

  lemma RefsDaemon(s: State, ok: bool)
    requires CustodyOk(s) && RefsOk(s)
    ensures RefsOk(DaemonStep(s, ok))
  {
    DaemonSkbExists(s);
    hide CustodyOk, DaemonStep, RefsOk;
    if s.daemon.Dequeue? {
      RefsDequeue(s, ok);
    } else if HandsFree(s.daemon) || s.daemon.ClearPort? {
      RefsWaiting(s, ok);
    } else {
      RefsInHand(s, ok);
    }
  }

  lemma RefsWaiting(s: State, ok: bool)
    requires RefsOk(s) && (HandsFree(s.daemon) || s.daemon.ClearPort?) && !s.daemon.Dequeue?
    ensures RefsOk(DaemonStep(s, ok))
  {
    hide RefsConserved;
    RefsIdle(s, DaemonStep(s, ok).daemon);
  }

  lemma RefusalsAppend(sent: seq<Sending>, x: Sending)
    ensures Refusals(sent + [x]) == Refusals(sent) + One(!x.ok)
  {
    assert (sent + [x])[..|sent|] == sent;
  }

  lemma DaemonSkbExists(s: State)
    requires CustodyOk(s)
    ensures !HandsFree(s.daemon) ==> s.daemon.skb < |s.skbs|
    ensures s.queue != [] ==> s.queue[0] < |s.skbs|
  {
  }

  lemma RefsStep(c: Config, s: State, step: Step)
    requires CustodyOk(s) && RefsOk(s)
    ensures RefsOk(Apply(c, s, step))
  {
    hide HookStep, DaemonStep, CustodyOk;
    match step {
      case Arrive(pkt) => CountAppend(s.hooks, PortTest(pkt), HasSkb);
      case Hook(h, ok) => if h < |s.hooks| { RefsHook(c, s, h, ok); }
      case Daemon(ok) => RefsDaemon(s, ok);
      case _ =>
    }
  }
}
