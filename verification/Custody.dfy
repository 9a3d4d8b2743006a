/**
 Who holds each capture skb: FIFO order, exactly one place per skb, and the
 reference count that place implies, under every interleaving.
 */
module Custody {
  import opened Prelude
  import opened Machine

  function Ids(sent: seq<Sending>): (ids: seq<nat>)
    ensures |ids| == |sent| && forall i | 0 <= i < |sent| :: ids[i] == sent[i].skb
  {
    seq(|sent|, i requires 0 <= i < |sent| => sent[i].skb)
  }

  /** The message kcapd has dequeued and not yet sent. */
  function Hand(d: DaemonPc): (ids: seq<nat>)
  {
    match d
    case GetRef(id) => [id]
    case Unicast(id) => [id]
    case _ => []
  }

  /** The daemon stands where no skb is involved. */
  predicate HandsFree(d: DaemonPc) { !d.GetRef? && !d.Unicast? && !d.Consume? && !d.ClearPort? }

  // ---- the invariant ----

  /** A hook has exactly the skbs placed with it. */
  ghost predicate HooksOwn(hooks: seq<HookPc>, skbs: seq<Skb>)
  {
    && (forall h | 0 <= h < |hooks| && SkbOf(hooks[h]).Some? ::
          SkbOf(hooks[h]).value < |skbs| && skbs[SkbOf(hooks[h]).value].place == InHook(h))
    && (forall id | 0 <= id < |skbs| && skbs[id].place.InHook? ::
          skbs[id].place.h < |hooks| && SkbOf(hooks[skbs[id].place.h]) == Some(id))
  }

  /** Everything ever enqueued: sent already, in kcapd's hand, still queued, in that order. */
  ghost predicate InLine(enqueued: seq<nat>, sent: seq<Sending>, d: DaemonPc, queue: seq<nat>)
  {
    enqueued == Ids(sent) + Hand(d) + queue
  }

  predicate PastEnqueue(p: Place) { p.Queued? || p.InHand? || p.Sent? }

  ghost predicate NoDuplicates(ids: seq<nat>) { forall i, j | 0 <= i < j < |ids| :: ids[i] != ids[j] }

  /** The line holds each enqueued skb once, and no other. */
  ghost predicate LineOwns(enqueued: seq<nat>, skbs: seq<Skb>)
  {
    && NoDuplicates(enqueued)
    && (forall i | 0 <= i < |enqueued| :: enqueued[i] < |skbs| && PastEnqueue(skbs[enqueued[i]].place))
    && (forall id | 0 <= id < |skbs| && PastEnqueue(skbs[id].place) :: id in enqueued)
  }

  /** Each part of the line agrees with the place recorded for its skbs. */
  ghost predicate Placed(sent: seq<Sending>, d: DaemonPc, queue: seq<nat>, skbs: seq<Skb>)
  {
    && (forall i | 0 <= i < |sent| :: sent[i].skb < |skbs| && skbs[sent[i].skb].place == Sent(sent[i].ok))
    && (forall i | 0 <= i < |queue| :: queue[i] < |skbs| && skbs[queue[i]].place == Queued)
    && (d.GetRef? || d.Unicast? ==> d.skb < |skbs| && skbs[d.skb].place == InHand)
    && (d.Consume? ==> d.skb < |skbs| && skbs[d.skb].place == Sent(true))
    && (d.ClearPort? ==> d.skb < |skbs| && skbs[d.skb].place == Sent(false))
  }

  /** The references the module owes an skb, from where it is. */
  function Owed(id: nat, p: Place, d: DaemonPc): (n: nat)
  {
    match p
    case InHook(_) => 1
    case Queued => 1
    case InHand => if d == Unicast(id) then 2 else 1
    case Sent(ok) => if !ok || d == Consume(id) then 1 else 0
    case Freed => 0
  }

  ghost predicate Counted(skbs: seq<Skb>, d: DaemonPc)
  {
    forall id | 0 <= id < |skbs| :: skbs[id].refs == Owed(id, skbs[id].place, d)
  }

  ghost predicate CustodyOk(s: State)
  {
    && HooksOwn(s.hooks, s.skbs)
    && InLine(s.log.enqueued, s.log.sent, s.daemon, s.queue)
    && LineOwns(s.log.enqueued, s.skbs)
    && Placed(s.log.sent, s.daemon, s.queue, s.skbs)
    && Counted(s.skbs, s.daemon)
  }

  // ---- moving one skb ----

  lemma HooksOwnElsewhere(hooks: seq<HookPc>, skbs: seq<Skb>, id: nat, k: Skb)
    requires HooksOwn(hooks, skbs) && id < |skbs| && !skbs[id].place.InHook? && !k.place.InHook?
    ensures HooksOwn(hooks, skbs[id := k])
  {
  }

  lemma HooksOwnRelease(hooks: seq<HookPc>, skbs: seq<Skb>, h: nat, pc: HookPc, id: nat, k: Skb)
    requires HooksOwn(hooks, skbs) && h < |hooks| && SkbOf(hooks[h]) == Some(id) && SkbOf(pc) == None
    requires id < |skbs| && !k.place.InHook?
    ensures HooksOwn(hooks[h := pc], skbs[id := k])
  {
  }

  lemma LineOwnsSame(enqueued: seq<nat>, skbs: seq<Skb>, id: nat, k: Skb)
    requires LineOwns(enqueued, skbs) && id < |skbs| && PastEnqueue(skbs[id].place) == PastEnqueue(k.place)
    ensures LineOwns(enqueued, skbs[id := k])
  {
  }

  lemma LineOwnsMore(enqueued: seq<nat>, skbs: seq<Skb>, id: nat, k: Skb)
    requires LineOwns(enqueued, skbs) && id < |skbs| && !PastEnqueue(skbs[id].place) && PastEnqueue(k.place)
    ensures LineOwns(enqueued + [id], skbs[id := k])
  {
    var e' := enqueued + [id];
    assert forall x | x in enqueued :: x in e';
    assert e'[|enqueued|] == id;
  }

  /** The daemon is busy with no skb other than `id`. */
  predicate Concerns(d: DaemonPc, id: nat) { HandsFree(d) || d.skb == id }

  lemma CountedMove(skbs: seq<Skb>, d: DaemonPc, d': DaemonPc, id: nat, k: Skb)
    requires Counted(skbs, d) && id < |skbs| && k.refs == Owed(id, k.place, d')
    requires (Concerns(d, id) && Concerns(d', id)) || d == d'
    ensures Counted(skbs[id := k], d')
  {
  }

  // ---- hooks ----

  /** A hook moves on, holding the skb it held, or none as before. */
  lemma SameSkb(s: State, h: nat, pc: HookPc)
    requires CustodyOk(s) && h < |s.hooks| && SkbOf(pc) == SkbOf(s.hooks[h])
    ensures CustodyOk(At(s, h, pc))
  {
  }

  lemma Allocated(s: State, h: nat, cb: nat, pkt: Packet)
    requires CustodyOk(s) && h < |s.hooks| && SkbOf(s.hooks[h]) == None
    ensures CustodyOk(At(s, h, PutMsg(cb, |s.skbs|)).(skbs := s.skbs + [Skb(1, [], pkt, 0, h, InHook(h))]))
  {
    var skbs' := s.skbs + [Skb(1, [], pkt, 0, h, InHook(h))];
    assert HooksOwn(s.hooks[h := PutMsg(cb, |s.skbs|)], skbs');
  }

  lemma Written(s: State, h: nat, pc: HookPc, k: Skb)
    requires CustodyOk(s) && h < |s.hooks| && SkbOf(s.hooks[h]).Some? && SkbOf(pc) == SkbOf(s.hooks[h])
    requires var id := SkbOf(pc).value; k.place == s.skbs[id].place && k.refs == s.skbs[id].refs
    ensures CustodyOk(At(s, h, pc).(skbs := s.skbs[SkbOf(pc).value := k]))
  {
  }

  lemma Dropped(s: State, h: nat, pc: HookPc)
    requires CustodyOk(s) && h < |s.hooks| && SkbOf(s.hooks[h]).Some? && SkbOf(pc) == None
    ensures CustodyOk(At(s, h, pc).(skbs := Ref(s.skbs, SkbOf(s.hooks[h]).value, -1, Freed)))
  {
  }

  lemma Enqueued(s: State, h: nat, cb: nat, id: nat)
    requires CustodyOk(s) && h < |s.hooks| && s.hooks[h] == Enqueue(cb, id)
    ensures CustodyOk(StepEnqueue(s, h, cb, id))
  {
    HookSkb(s, h);
    var k := s.skbs[id].(bytes := Rewritten(s.skbs[id].bytes), place := Queued);
    PlacedEnqueue(s, id, k);
    assert s.log.enqueued + [id] == Ids(s.log.sent) + Hand(s.daemon) + (s.queue + [id]);
    hide HooksOwn, LineOwns, Placed, Counted, Ids, Rewritten;
    HooksOwnRelease(s.hooks, s.skbs, h, Wake(cb), id, k);
    LineOwnsMore(s.log.enqueued, s.skbs, id, k);
    CountedMove(s.skbs, s.daemon, s.daemon, id, k);
  }

  lemma PlacedEnqueue(s: State, id: nat, k: Skb)
    requires CustodyOk(s) && id < |s.skbs| && s.skbs[id].place.InHook? && k.place == Queued
    ensures Placed(s.log.sent, s.daemon, s.queue + [id], s.skbs[id := k])
  {
  }

  /** A hook's skb exists, and is placed with it. */
  lemma HookSkb(s: State, h: nat)
    requires CustodyOk(s) && h < |s.hooks| && SkbOf(s.hooks[h]).Some?
    ensures var id := SkbOf(s.hooks[h]).value; id < |s.skbs| && s.skbs[id].place == InHook(h) && s.skbs[id].refs == 1
  {
  }

  /** The stretches of a hook where it does nothing to an skb. */
  lemma CustodyNoSkb(c: Config, s: State, h: nat, ok: bool)
    requires CustodyOk(s) && h < |s.hooks| && !s.hooks[h].NewSkb?
    requires SkbOf(s.hooks[h]) == None || s.hooks[h].RateLimited?
    ensures CustodyOk(HookStep(c, s, h, ok))
  {
    hide HooksOwn, LineOwns, Placed, Counted, InLine, Fits, PutBytes, Rewritten, SetField, Kill, Ref;
    match s.hooks[h] {
      case PortTest(pkt) => SameSkb(s, h, if s.portId == 0 then Returned else TakeBuffer(pkt));
      case TakeBuffer(pkt) =>
        SameSkb(s, h, Kmalloc(pkt));
        if s.freelist != [] { SameSkb(s, h, NewSkb(pkt, s.freelist[0])); }
      case Kmalloc(pkt) => SameSkb(s, h, NewSkb(pkt, |s.bufs|)); SameSkb(s, h, FreeBuffer(None));
      case Wake(cb) => SameSkb(s, h, ClearSkb(cb)); DaemonIdles(At(s, h, ClearSkb(cb)), Woken(s.daemon));
      case ClearSkb(cb) => SameSkb(s, h, FreeBuffer(Some(cb)));
      case FreeBuffer(cb) => SameSkb(s, h, if cb == None then Faulted else Returned);
      case _ =>
    }
  }

  lemma CustodyPut(c: Config, s: State, h: nat, cb: nat, id: nat)
    requires CustodyOk(s) && h < |s.hooks| && s.hooks[h] == PutMsg(cb, id)
    ensures CustodyOk(StepPut(c, s, h, cb, id))
  {
    HookSkb(s, h);
    hide HooksOwn, LineOwns, Placed, Counted, InLine, Fits, PutBytes, Rewritten, SetField, Kill, Ref;
    var pkt := PacketOf(s, id);
    if Fits(c, pkt) {
      Written(s, h, RateCheck(cb, id), s.skbs[id].(bytes := PutBytes(c, s.portId, pkt), dest := s.portId));
    } else {
      Dropped(s, h, FreeBuffer(Some(cb)));
    }
  }

  lemma CustodyHook(c: Config, s: State, h: nat, ok: bool)
    requires CustodyOk(s) && h < |s.hooks|
    ensures CustodyOk(HookStep(c, s, h, ok))
  {
    hide HooksOwn, LineOwns, Placed, Counted, InLine, SetField, Kill, Ref, StepPut, StepEnqueue, StepTake, StepFree;
    match s.hooks[h] {
      case NewSkb(pkt, cb) => Allocated(s, h, cb, pkt); SameSkb(s, h, FreeBuffer(Some(cb)));
      case PutMsg(cb, id) => CustodyPut(c, s, h, cb, id);
      case RateCheck(cb, id) => SameSkb(s, h, Enqueue(cb, id)); SameSkb(s, h, RateLimited(cb, id));
      case Enqueue(cb, id) => Enqueued(s, h, cb, id);
      case _ => CustodyNoSkb(c, s, h, ok);
    }
  }

  // ---- the daemon ----

  lemma DaemonIdles(s: State, d: DaemonPc)
    requires CustodyOk(s) && (d == s.daemon || (HandsFree(d) && HandsFree(s.daemon)))
    ensures CustodyOk(s.(daemon := d))
  {
  }

  lemma Dequeued(s: State)
    requires CustodyOk(s) && s.daemon.Dequeue? && s.queue != []
    ensures var id := s.queue[0];
            CustodyOk(s.(daemon := GetRef(id), queue := s.queue[1..], skbs := Ref(s.skbs, id, 0, InHand)))
  {
    var id := s.queue[0];
    assert id < |s.skbs| && s.skbs[id].place == Queued && s.skbs[id].refs == 1;
    var k := s.skbs[id].(place := InHand);
    assert s.log.enqueued == Ids(s.log.sent) + [] + s.queue == Ids(s.log.sent) + [id] + s.queue[1..];
    PlacedDequeue(s, id, k);
    hide HooksOwn, LineOwns, Placed, Counted, Ids;
    HooksOwnElsewhere(s.hooks, s.skbs, id, k);
    LineOwnsSame(s.log.enqueued, s.skbs, id, k);
    CountedMove(s.skbs, s.daemon, GetRef(id), id, k);
  }

  lemma PlacedDequeue(s: State, id: nat, k: Skb)
    requires CustodyOk(s) && s.daemon.Dequeue? && s.queue != [] && id == s.queue[0] < |s.skbs| && k.place == InHand
    ensures Placed(s.log.sent, GetRef(id), s.queue[1..], s.skbs[id := k])
  {
    QueueDistinct(s);
  }

  /** No skb is queued twice. */
  lemma QueueDistinct(s: State)
    requires CustodyOk(s)
    ensures NoDuplicates(s.queue)
  {
    var n := |s.log.sent| + |Hand(s.daemon)|;
    assert forall i | 0 <= i < |s.queue| :: s.queue[i] == s.log.enqueued[n + i];
  }

  lemma Referenced(s: State, id: nat)
    requires CustodyOk(s) && s.daemon == GetRef(id)
    ensures CustodyOk(s.(daemon := Unicast(id), skbs := Ref(s.skbs, id, 1, InHand)))
  {
    var s' := s.(daemon := Unicast(id), skbs := Ref(s.skbs, id, 1, InHand));
    assert HooksOwn(s'.hooks, s'.skbs);
    assert LineOwns(s'.log.enqueued, s'.skbs);
  }

  lemma Delivered(s: State, id: nat, ok: bool)
    requires CustodyOk(s) && s.daemon == Unicast(id)
    ensures CustodyOk(DaemonStep(s, ok))
  {
    assert id < |s.skbs| && s.skbs[id].place == InHand && s.skbs[id].refs == 2;
    var k := s.skbs[id].(refs := 1, place := Sent(ok));
    var d', sent' := if ok then Consume(id) else ClearPort(id), s.log.sent + [Sending(id, s.portId, ok)];
    assert InLine(s.log.enqueued, sent', d', s.queue) by {
      assert Ids(sent') == Ids(s.log.sent) + [id];
      assert Ids(s.log.sent) + [id] + s.queue == Ids(sent') + [] + s.queue;
    }
    PlacedSent(s, id, ok, k);
    hide HooksOwn, LineOwns, Placed, Counted, InLine;
    HooksOwnElsewhere(s.hooks, s.skbs, id, k);
    LineOwnsSame(s.log.enqueued, s.skbs, id, k);
    CountedMove(s.skbs, s.daemon, d', id, k);
  }

  lemma PlacedSent(s: State, id: nat, ok: bool, k: Skb)
    requires CustodyOk(s) && s.daemon == Unicast(id) && id < |s.skbs| && k.place == Sent(ok)
    ensures Placed(s.log.sent + [Sending(id, s.portId, ok)], if ok then Consume(id) else ClearPort(id),
                   s.queue, s.skbs[id := k])
  {
    assert s.skbs[id].place == InHand;
  }

  lemma Consumed(s: State, id: nat)
    requires CustodyOk(s) && s.daemon == Consume(id)
    ensures CustodyOk(s.(daemon := Dequeue, skbs := Ref(s.skbs, id, -1, Sent(true))))
  {
    assert id < |s.skbs| && s.skbs[id].place == Sent(true) && s.skbs[id].refs == 1;
    var k := s.skbs[id].(refs := 0);
    HooksOwnElsewhere(s.hooks, s.skbs, id, k);
    LineOwnsSame(s.log.enqueued, s.skbs, id, k);
    hide HooksOwn, LineOwns;
  }

  lemma PortCleared(s: State, id: nat)
    requires CustodyOk(s) && s.daemon == ClearPort(id)
    ensures CustodyOk(s.(daemon := Dequeue))
  {
  }

  lemma CustodyDaemon(s: State, ok: bool)
    requires CustodyOk(s)
    ensures CustodyOk(DaemonStep(s, ok))
  {
    hide HooksOwn, LineOwns, Placed, Counted, InLine, Ref;
    match s.daemon {
      case Dequeue =>
        if s.queue == [] { DaemonIdles(s, WaitTest); } else { Dequeued(s); }
      case GetRef(id) => Referenced(s, id);
      case Unicast(id) => Delivered(s, id, ok);
      case Consume(id) => Consumed(s, id);
      case ClearPort(id) => PortCleared(s, id);
      case _ => DaemonIdles(s, DaemonStep(s, ok).daemon);
    }
  }

  lemma CustodyStep(c: Config, s: State, step: Step)
    requires CustodyOk(s)
    ensures CustodyOk(Apply(c, s, step))
  {
    hide HookStep, DaemonStep, LineOwns, Placed, Counted, InLine;
    match step {
      case Arrive(pkt) =>
      case Hook(h, ok) => if h < |s.hooks| { CustodyHook(c, s, h, ok); }
      case Daemon(ok) => CustodyDaemon(s, ok);
      case Spurious => if s.daemon.Asleep? { DaemonIdles(s, Prepare); }
      case Control(ok) => DaemonIdles(s, ControlStep(s, ok).daemon);
      case _ =>
    }
  }
}
