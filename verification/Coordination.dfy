/**
 How hooks, daemon and control handler coordinate: contents of the messages,
 wakeups, the start of kcapd, the port id, the user table and the limiter.
 */
module Coordination {
  import opened Prelude
  import opened Bytes
  import U = UserTab
  import R = RateLimit
  import opened Machine
  import opened Pool
  import opened Ledger
  import opened Custody
  import opened References

  // ---- contents ----

  predicate Filled(pc: HookPc) { pc.RateCheck? || pc.Enqueue? || pc.RateLimited? }

  ghost predicate PutOk(c: Config, k: Skb) { Fits(c, k.packet) && k.bytes == PutBytes(c, k.dest, k.packet) }

  ghost predicate CapturedOk(c: Config, k: Skb)
  {
    Fits(c, k.packet) && k.bytes == Rewritten(PutBytes(c, k.dest, k.packet))
  }

  /** What a filled skb holds, before and after it is enqueued. */
  ghost predicate ContentsOk(c: Config, hooks: seq<HookPc>, skbs: seq<Skb>)
  {
    && (forall h | 0 <= h < |hooks| && Filled(hooks[h]) :: hooks[h].skb < |skbs| && PutOk(c, skbs[hooks[h].skb]))
    && (forall id | 0 <= id < |skbs| && PastEnqueue(skbs[id].place) :: CapturedOk(c, skbs[id]))
  }

  lemma ContentsAt(c: Config, s: State, h: nat, pc: HookPc)
    requires ContentsOk(c, s.hooks, s.skbs) && h < |s.hooks|
    requires Filled(pc) ==> Filled(s.hooks[h]) && pc.skb == s.hooks[h].skb
    ensures ContentsOk(c, s.hooks[h := pc], s.skbs)
  {
  }

  /** Reference and place changes among enqueued skbs leave contents alone. */
  lemma ContentsRef(c: Config, s: State, id: nat, d: int, place: Place)
    requires ContentsOk(c, s.hooks, s.skbs) && id < |s.skbs|
    requires PastEnqueue(place) ==> PastEnqueue(s.skbs[id].place)
    ensures ContentsOk(c, s.hooks, Ref(s.skbs, id, d, place))
  {
  }

  lemma ContentsNew(c: Config, s: State, h: nat, cb: nat, pkt: Packet)
    requires ContentsOk(c, s.hooks, s.skbs) && h < |s.hooks|
    ensures ContentsOk(c, s.hooks[h := PutMsg(cb, |s.skbs|)], s.skbs + [Skb(1, [], pkt, 0, h, InHook(h))])
  {
  }

  /** No other hook has the skb of hook `h`. */
  lemma OwnSkb(s: State, h: nat, k: nat)
    requires CustodyOk(s) && h < |s.hooks| && k < |s.hooks| && h != k
    requires SkbOf(s.hooks[h]).Some?
    ensures SkbOf(s.hooks[k]) != SkbOf(s.hooks[h])
  {
  }

  lemma NobodyElse(s: State, h: nat, id: nat)
    requires CustodyOk(s) && h < |s.hooks| && SkbOf(s.hooks[h]) == Some(id)
    ensures forall j | 0 <= j < |s.hooks| && j != h && Filled(s.hooks[j]) :: s.hooks[j].skb != id
  {
    hide CustodyOk;
    forall j | 0 <= j < |s.hooks| && j != h ensures SkbOf(s.hooks[j]) != Some(id) {
      OwnSkb(s, h, j);
    }
  }

  /** Hook `h` writes its own skb. */
  lemma ContentsWrite(c: Config, s: State, h: nat, pc: HookPc, id: nat, k: Skb)
    requires CustodyOk(s) && ContentsOk(c, s.hooks, s.skbs)
    requires h < |s.hooks| && SkbOf(s.hooks[h]) == Some(id) && id < |s.skbs|
    requires Filled(pc) ==> pc.skb == id && PutOk(c, k)
    requires PastEnqueue(k.place) ==> CapturedOk(c, k)
    ensures ContentsOk(c, s.hooks[h := pc], s.skbs[id := k])
  {
    hide CustodyOk, PutOk, CapturedOk;
    NobodyElse(s, h, id);
  }

  lemma ContentsPut(c: Config, s: State, h: nat, cb: nat, id: nat)
    requires CustodyOk(s) && ContentsOk(c, s.hooks, s.skbs) && h < |s.hooks| && s.hooks[h] == PutMsg(cb, id)
    ensures var s' := StepPut(c, s, h, cb, id); ContentsOk(c, s'.hooks, s'.skbs)
  {
    hide CustodyOk, ContentsOk, Fits, PutBytes, SetField;
    HookSkb(s, h);
    var k, pkt := s.skbs[id], s.skbs[id].packet;
    if Fits(c, pkt) {
      ContentsWrite(c, s, h, RateCheck(cb, id), id, k.(bytes := PutBytes(c, s.portId, pkt), dest := s.portId));
    } else {
      ContentsWrite(c, s, h, FreeBuffer(Some(cb)), id, k.(refs := k.refs - 1, place := Freed));
    }
  }

  lemma ContentsEnqueue(c: Config, s: State, h: nat, cb: nat, id: nat)
    requires CustodyOk(s) && ContentsOk(c, s.hooks, s.skbs) && h < |s.hooks| && s.hooks[h] == Enqueue(cb, id)
    ensures var s' := StepEnqueue(s, h, cb, id); ContentsOk(c, s'.hooks, s'.skbs)
  {
    assert id < |s.skbs| && PutOk(c, s.skbs[id]);
    var k := s.skbs[id].(bytes := Rewritten(s.skbs[id].bytes), place := Queued);
    hide CustodyOk, ContentsOk, Fits, PutBytes, Rewritten;
    ContentsWrite(c, s, h, Wake(cb), id, k);
  }

  lemma ContentsHook(c: Config, s: State, h: nat, ok: bool)
    requires CustodyOk(s) && ContentsOk(c, s.hooks, s.skbs) && h < |s.hooks|
    ensures var s' := HookStep(c, s, h, ok); ContentsOk(c, s'.hooks, s'.skbs)
  {
    hide CustodyOk, ContentsOk, StepPut, StepEnqueue, SetField, Kill;
    match s.hooks[h] {
      case PortTest(pkt) => ContentsAt(c, s, h, if s.portId == 0 then Returned else TakeBuffer(pkt));
      case TakeBuffer(pkt) =>
        ContentsAt(c, s, h, Kmalloc(pkt));
        if s.freelist != [] { ContentsAt(c, s, h, NewSkb(pkt, s.freelist[0])); }
      case Kmalloc(pkt) => ContentsAt(c, s, h, NewSkb(pkt, |s.bufs|)); ContentsAt(c, s, h, FreeBuffer(None));
      case NewSkb(pkt, cb) => ContentsNew(c, s, h, cb, pkt); ContentsAt(c, s, h, FreeBuffer(Some(cb)));
      case PutMsg(cb, id) => ContentsPut(c, s, h, cb, id);
      case RateCheck(cb, id) => ContentsAt(c, s, h, Enqueue(cb, id)); ContentsAt(c, s, h, RateLimited(cb, id));
      case Enqueue(cb, id) => ContentsEnqueue(c, s, h, cb, id);
      case Wake(cb) => ContentsAt(c, s, h, ClearSkb(cb));
      case ClearSkb(cb) => ContentsAt(c, s, h, FreeBuffer(Some(cb)));
      case FreeBuffer(cb) => ContentsAt(c, s, h, if cb == None then Faulted else Returned);
      case _ =>
    }
  }

  lemma SkbsInLine(s: State)
    requires CustodyOk(s)
    ensures HandsFree(s.daemon) || (s.daemon.skb < |s.skbs| && PastEnqueue(s.skbs[s.daemon.skb].place))
    ensures s.queue != [] ==> s.queue[0] < |s.skbs| && PastEnqueue(s.skbs[s.queue[0]].place)
  {
  }

  lemma ContentsDaemon(c: Config, s: State, ok: bool)
    requires CustodyOk(s) && ContentsOk(c, s.hooks, s.skbs)
    ensures var s' := DaemonStep(s, ok); ContentsOk(c, s'.hooks, s'.skbs)
  {
    hide CustodyOk, ContentsOk, Ref;
    SkbsInLine(s);
    match s.daemon {
      case Dequeue => if s.queue != [] { ContentsRef(c, s, s.queue[0], 0, InHand); }
      case GetRef(id) => ContentsRef(c, s, id, 1, InHand);
      case Unicast(id) => ContentsRef(c, s, id, -1, Sent(ok));
      case Consume(id) => ContentsRef(c, s, id, -1, Sent(true));
      case _ =>
    }
  }

  lemma ContentsStep(c: Config, s: State, step: Step)
    requires CustodyOk(s) && ContentsOk(c, s.hooks, s.skbs)
    ensures var s' := Apply(c, s, step); ContentsOk(c, s'.hooks, s'.skbs)
  {
    hide HookStep, DaemonStep, CustodyOk;
    match step {
      case Hook(h, ok) => if h < |s.hooks| { ContentsHook(c, s, h, ok); }
      case Daemon(ok) => ContentsDaemon(c, s, ok);
      case _ =>
    }
  }

  // ---- origins ----

  /** The hook still has the packet, and no skb for it yet. */
  predicate Before(pc: HookPc) { pc.PortTest? || pc.TakeBuffer? || pc.Kmalloc? || pc.NewSkb? }

  /**
   Every skb holds the packet that arrived at the hook that made it; no other
   hook ever has it, and no hook made two.
   */
  ghost predicate OriginOk(hooks: seq<HookPc>, skbs: seq<Skb>, arrived: seq<Packet>)
  {
    && |arrived| == |hooks|
    && (forall h | 0 <= h < |hooks| && Before(hooks[h]) :: hooks[h].pkt == arrived[h])
    && (forall id | 0 <= id < |skbs| ::
          && skbs[id].origin < |hooks| && !Before(hooks[skbs[id].origin])
          && skbs[id].packet == arrived[skbs[id].origin]
          && (skbs[id].place.InHook? ==> skbs[id].place.h == skbs[id].origin))
    && (forall i, j | 0 <= i < j < |skbs| :: skbs[i].origin != skbs[j].origin)
  }

  lemma OriginAt(s: State, h: nat, pc: HookPc)
    requires OriginOk(s.hooks, s.skbs, s.log.arrived) && h < |s.hooks|
    requires Before(pc) ==> Before(s.hooks[h]) && pc.pkt == s.hooks[h].pkt
    ensures OriginOk(s.hooks[h := pc], s.skbs, s.log.arrived)
  {
  }

  lemma OriginNew(s: State, h: nat, cb: nat)
    requires OriginOk(s.hooks, s.skbs, s.log.arrived) && h < |s.hooks| && s.hooks[h].NewSkb?
    ensures OriginOk(s.hooks[h := PutMsg(cb, |s.skbs|)],
                     s.skbs + [Skb(1, [], s.hooks[h].pkt, 0, h, InHook(h))], s.log.arrived)
  {
  }

  lemma OriginSame(s: State, id: nat, k: Skb)
    requires OriginOk(s.hooks, s.skbs, s.log.arrived) && id < |s.skbs|
    requires k.origin == s.skbs[id].origin && k.packet == s.skbs[id].packet
    requires k.place == s.skbs[id].place || !k.place.InHook?
    ensures OriginOk(s.hooks, s.skbs[id := k], s.log.arrived)
  {
  }

  lemma OriginPut(c: Config, s: State, h: nat, cb: nat, id: nat)
    requires OriginOk(s.hooks, s.skbs, s.log.arrived) && h < |s.hooks| && s.hooks[h] == PutMsg(cb, id)
    ensures var s' := StepPut(c, s, h, cb, id); OriginOk(s'.hooks, s'.skbs, s'.log.arrived)
  {
    hide OriginOk, Fits, PutBytes, SetField;
    var pkt := PacketOf(s, id);
    if id < |s.skbs| {
      var k := if Fits(c, pkt) then s.skbs[id].(bytes := PutBytes(c, s.portId, pkt), dest := s.portId)
               else s.skbs[id].(refs := s.skbs[id].refs - 1, place := Freed);
      OriginSame(s, id, k);
      OriginAt(s.(skbs := s.skbs[id := k]), h, if Fits(c, pkt) then RateCheck(cb, id) else FreeBuffer(Some(cb)));
    } else {
      OriginAt(s, h, RateCheck(cb, id));
      OriginAt(s, h, FreeBuffer(Some(cb)));
    }
  }

  lemma OriginEnqueue(s: State, h: nat, cb: nat, id: nat)
    requires OriginOk(s.hooks, s.skbs, s.log.arrived) && h < |s.hooks| && s.hooks[h] == Enqueue(cb, id)
    ensures var s' := StepEnqueue(s, h, cb, id); OriginOk(s'.hooks, s'.skbs, s'.log.arrived)
  {
    hide OriginOk, Rewritten;
    if id < |s.skbs| {
      var k := s.skbs[id].(bytes := Rewritten(s.skbs[id].bytes), place := Queued);
      OriginSame(s, id, k);
      OriginAt(s.(skbs := s.skbs[id := k]), h, Wake(cb));
    } else {
      OriginAt(s, h, Wake(cb));
    }
  }

  lemma OriginHook(c: Config, s: State, h: nat, ok: bool)
    requires OriginOk(s.hooks, s.skbs, s.log.arrived) && h < |s.hooks|
    ensures var s' := HookStep(c, s, h, ok); OriginOk(s'.hooks, s'.skbs, s'.log.arrived)
  {
    hide OriginOk, StepPut, StepEnqueue, SetField, Kill;
    match s.hooks[h] {
      case PortTest(pkt) => OriginAt(s, h, if s.portId == 0 then Returned else TakeBuffer(pkt));
      case TakeBuffer(pkt) =>
        OriginAt(s, h, Kmalloc(pkt));
        if s.freelist != [] { OriginAt(s, h, NewSkb(pkt, s.freelist[0])); }
      case Kmalloc(pkt) => OriginAt(s, h, NewSkb(pkt, |s.bufs|)); OriginAt(s, h, FreeBuffer(None));
      case NewSkb(pkt, cb) => OriginNew(s, h, cb); OriginAt(s, h, FreeBuffer(Some(cb)));
      case PutMsg(cb, id) => OriginPut(c, s, h, cb, id);
      case RateCheck(cb, id) => OriginAt(s, h, Enqueue(cb, id)); OriginAt(s, h, RateLimited(cb, id));
      case Enqueue(cb, id) => OriginEnqueue(s, h, cb, id);
      case Wake(cb) => OriginAt(s, h, ClearSkb(cb));
      case ClearSkb(cb) => OriginAt(s, h, FreeBuffer(Some(cb)));
      case FreeBuffer(cb) => OriginAt(s, h, if cb == None then Faulted else Returned);
      case _ =>
    }
  }

  lemma OriginDaemon(s: State, ok: bool)
    requires OriginOk(s.hooks, s.skbs, s.log.arrived)
    ensures var s' := DaemonStep(s, ok); OriginOk(s'.hooks, s'.skbs, s'.log.arrived)
  {
    hide OriginOk, Ref;
    match s.daemon {
      case Dequeue => if s.queue != [] { OriginRef(s, s.queue[0], 0, InHand); }
      case GetRef(id) => OriginRef(s, id, 1, InHand);
      case Unicast(id) => OriginRef(s, id, -1, Sent(ok));
      case Consume(id) => OriginRef(s, id, -1, Sent(true));
      case _ =>
    }
  }

  lemma OriginRef(s: State, id: nat, d: int, place: Place)
    requires OriginOk(s.hooks, s.skbs, s.log.arrived) && !place.InHook?
    ensures OriginOk(s.hooks, Ref(s.skbs, id, d, place), s.log.arrived)
  {
    if id < |s.skbs| {
      OriginSame(s, id, s.skbs[id].(refs := s.skbs[id].refs + d, place := place));
    }
  }

  lemma OriginStep(c: Config, s: State, step: Step)
    requires OriginOk(s.hooks, s.skbs, s.log.arrived)
    ensures var s' := Apply(c, s, step); OriginOk(s'.hooks, s'.skbs, s'.log.arrived)
  {
    hide HookStep, DaemonStep;
    match step {
      case Hook(h, ok) => if h < |s.hooks| { OriginHook(c, s, h, ok); }
      case Daemon(ok) => OriginDaemon(s, ok);
      case _ =>
    }
  }

  // ---- wakeups ----

  /** Asleep, or past the last test of the queue on the way there. */
  predicate Sleepy(d: DaemonPc) { d.Asleep? || d == Schedule(false) }

  ghost predicate SomeoneWakes(hooks: seq<HookPc>) { exists h :: 0 <= h < |hooks| && hooks[h].Wake? }

  /** A sleeping daemon with work to do has a wakeup coming. */
  ghost predicate WakeupOk(s: State) { Sleepy(s.daemon) && s.queue != [] ==> SomeoneWakes(s.hooks) }

  lemma WakeupHook(c: Config, s: State, h: nat, ok: bool)
    requires WakeupOk(s) && h < |s.hooks|
    ensures WakeupOk(HookStep(c, s, h, ok))
  {
    var s' := HookStep(c, s, h, ok);
    OneHookMoves(c, s, h, ok);
    if s.hooks[h].Enqueue? {
      assert s'.hooks[h].Wake?;
    } else if !s.hooks[h].Wake? {
      assert s'.queue == s.queue && s'.daemon == s.daemon by {
        hide Fits, PutBytes, Rewritten, Ref, SetField, Kill, PacketOf;
      }
      hide HookStep, NextPc;
      if SomeoneWakes(s.hooks) {
        var k :| 0 <= k < |s.hooks| && s.hooks[k].Wake?;
        assert s'.hooks[k].Wake?;
      }
    }
  }

  lemma WakeupStep(c: Config, s: State, step: Step)
    requires WakeupOk(s)
    ensures WakeupOk(Apply(c, s, step))
  {
    match step {
      case Arrive(pkt) =>
        if SomeoneWakes(s.hooks) {
          var k :| 0 <= k < |s.hooks| && s.hooks[k].Wake?;
          assert Apply(c, s, step).hooks[k].Wake?;
        }
      case Hook(h, ok) =>
        hide HookStep;
        if h < |s.hooks| { WakeupHook(c, s, h, ok); }
      case _ =>
    }
  }

  // ---- start of kcapd ----

  predicate Past(pc: HookPc) { !pc.PortTest? && !pc.Returned? }

  /** Nothing gets past the port test, and no message past the start, before kcapd runs. */
  ghost predicate StartedOk(s: State)
  {
    s.daemon.NotStarted? ==>
      && s.portId == 0 && s.log.enqueued == [] && s.queue == [] && s.log.tab == []
      && !s.control.Port? && !s.control.Tab?
      && forall h | 0 <= h < |s.hooks| :: !Past(s.hooks[h])
  }

  lemma StartedHook(c: Config, s: State, h: nat, ok: bool)
    requires StartedOk(s) && h < |s.hooks|
    ensures StartedOk(HookStep(c, s, h, ok))
  {
    var s' := HookStep(c, s, h, ok);
    hide Fits, PutBytes, Rewritten, Ref, SetField, Kill, PacketOf;
    assert s'.daemon.NotStarted? <==> s.daemon.NotStarted?;
    if s.daemon.NotStarted? {
      assert !Past(s.hooks[h]);
    }
  }

  lemma StartedStep(c: Config, s: State, step: Step)
    requires StartedOk(s)
    ensures StartedOk(Apply(c, s, step))
  {
    match step {
      case Hook(h, ok) =>
        hide HookStep;
        if h < |s.hooks| { StartedHook(c, s, h, ok); }
      case _ =>
    }
  }

  // ---- port id and user table ----

  /** What the last of ADD, DEL and refused send dictates. */
  function Dictated(ports: seq<PortEvent>): (p: u32)
  {
    if ports == [] then 0
    else match ports[|ports| - 1]
      case Added(pid) => pid
      case _ => 0
  }

  /** A non-zero port id is registered, or the table takes no more users. */
  ghost predicate Listed(portId: u32, t: U.Table)
  {
    portId == 0 || portId in t.slots || t.count >= U.SIZE || 0 !in t.slots
  }

  ghost predicate ControlOk(s: State)
  {
    && s.portId == Dictated(s.log.ports)
    && s.table == U.Run(U.Empty(), s.log.tab) && U.NoBroadcasts(s.log.tab)
    && (!s.control.Tab? ==> Listed(s.portId, s.table))
    && (s.control.Tab? ==> s.portId == 0 || (s.control.ty == CAP_ADD && s.portId == s.control.pid))
  }

  lemma TableAppend(t: U.Table, es: seq<U.Event>, e: U.Event)
    requires t.Shaped()
    ensures U.Run(t, es + [e]) == U.After(U.Run(t, es), e)
  {
    U.RunAppend(t, es, [e]);
    assert [e][1..] == [];
  }

  lemma JoinLists(t: U.Table, pid: u32)
    requires t.Shaped()
    ensures Listed(pid, U.Join(t, pid).0)
  {
    var i := U.Find(t.slots, 0);
    if t.count < U.SIZE && i < U.SIZE {
      assert t.slots[i := pid][i] == pid;
    }
  }

  lemma ControlControl(s: State, ok: bool)
    requires ControlOk(s)
    ensures ControlOk(ControlStep(s, ok))
  {
    match s.control
    case Tab(ty, pid) =>
      TableAppend(U.Empty(), s.log.tab, if ty == CAP_ADD then U.Joined(pid) else U.Left(pid));
      JoinLists(s.table, pid);
      hide U.Join, U.Leave, Listed, U.Run;
    case _ =>
  }

  lemma SamePorts(c: Config, s: State, h: nat, ok: bool)
    requires h < |s.hooks|
    ensures var s' := HookStep(c, s, h, ok);
            && s'.portId == s.portId && s'.table == s.table && s'.control == s.control
            && s'.log.ports == s.log.ports && s'.log.tab == s.log.tab && s'.now == s.now
            && s'.log.sent == s.log.sent && s'.daemon.ClearPort? == s.daemon.ClearPort?
  {
    hide Fits, PutBytes, Rewritten, Ref, SetField, Kill, PacketOf;
    match s.hooks[h]
    case PortTest(_) =>
    case TakeBuffer(_) =>
    case Kmalloc(_) =>
    case NewSkb(_, _) =>
    case PutMsg(_, _) =>
    case _ =>
  }

  lemma ControlStepOk(c: Config, s: State, step: Step)
    requires ControlOk(s)
    ensures ControlOk(Apply(c, s, step))
  {
    hide HookStep, ControlStep, Listed, U.Run;
    match step {
      case Hook(h, ok) => if h < |s.hooks| { SamePorts(c, s, h, ok); }
      case Control(ok) => ControlControl(s, ok);
      case Daemon(ok) => ZeroListed(s.table);
      case _ =>
    }
  }

  lemma ZeroListed(t: U.Table)
    ensures Listed(0, t)
  {
  }

  // ---- writes to the port id ----

  /** What a control message of the given type, 0 for ADD and 1 for DEL, asks of the user table. */
  function Request(ty: u16, pid: u32): (es: seq<U.Event>)
  {
    if ty == 0 then [U.Joined(pid)] else if ty == 1 then [U.Left(pid)] else []
  }

  /** The request being handled. */
  function Pending(pc: ControlPc): (es: seq<U.Event>)
  {
    match pc
    case Idle => []
    case Start(ty, pid) => Request(ty, pid)
    case Port(ty, pid) => Request(ty, pid)
    case Tab(ty, pid) => Request(ty, pid)
  }

  /** The requests among the writes to the port id. */
  function Asked(ports: seq<PortEvent>): (es: seq<U.Event>)
  {
    if ports == [] then []
    else
      var n := |ports| - 1;
      Asked(ports[..n]) +
      match ports[n]
      case Added(pid) => [U.Joined(pid)]
      case Deleted(pid) => [U.Left(pid)]
      case Refused => []
  }

  /** How many of the writes to the port id answered a refusal. */
  function Cleared(ports: seq<PortEvent>): (n: nat)
  {
    if ports == [] then 0 else Cleared(ports[..|ports| - 1]) + One(ports[|ports| - 1].Refused?)
  }

  /**
   The port id is written for exactly the requests the table sees, in the same
   order and each before the table, and once for every refused send.
   */
  ghost predicate PortsOk(s: State)
  {
    && Asked(s.log.ports) == s.log.tab + (if s.control.Tab? then Pending(s.control) else [])
    && Cleared(s.log.ports) + One(s.daemon.ClearPort?) == Refusals(s.log.sent)
    && (s.control.Tab? ==> s.control.ty == CAP_ADD || s.control.ty == CAP_DEL)
  }

  lemma OneMoreWrite(ports: seq<PortEvent>, e: PortEvent)
    ensures Asked(ports + [e]) == Asked(ports) + match e
                                                 case Added(pid) => [U.Joined(pid)]
                                                 case Deleted(pid) => [U.Left(pid)]
                                                 case Refused => []
    ensures Cleared(ports + [e]) == Cleared(ports) + One(e.Refused?)
  {
    assert (ports + [e])[..|ports|] == ports;
  }

  lemma PortsControl(s: State, ok: bool)
    requires PortsOk(s)
    ensures PortsOk(ControlStep(s, ok))
  {
    hide Asked, Cleared, Refusals, U.After;
    match s.control
    case Port(ty, pid) =>
      OneMoreWrite(s.log.ports, Added(pid));
      OneMoreWrite(s.log.ports, Deleted(pid));
    case _ =>
  }

  lemma PortsDaemon(s: State, ok: bool)
    requires PortsOk(s)
    ensures PortsOk(DaemonStep(s, ok))
  {
    hide Asked, Cleared, Refusals, Ref, Pending;
    match s.daemon
    case Unicast(id) => RefusalsAppend(s.log.sent, Sending(id, s.portId, ok));
    case ClearPort(_) => OneMoreWrite(s.log.ports, Refused);
    case _ =>
  }

  lemma PortsStep(c: Config, s: State, step: Step)
    requires PortsOk(s)
    ensures PortsOk(Apply(c, s, step))
  {
    hide HookStep, DaemonStep, ControlStep, Asked, Cleared, Refusals;
    match step {
      case Hook(h, ok) => if h < |s.hooks| { SamePorts(c, s, h, ok); }
      case Control(ok) => PortsControl(s, ok);
      case Daemon(ok) => PortsDaemon(s, ok);
      case _ =>
    }
  }

  // ---- the limiter ----

  predicate AtEnqueue(pc: HookPc) { pc.Enqueue? }
  predicate IsLimited(pc: HookPc) { pc.RateLimited? }

  /**
   The limiter has seen exactly the logged checks; exactly the admitted ones
   went on to the queue, and exactly the others keep their buffer and skb.
   */
  ghost predicate RateOk(c: Config, s: State)
  {
    && s.limiter == R.Run(c.rate, R.BOOT, s.log.checks)
    && R.Ordered(s.log.checks) && (forall i | 0 <= i < |s.log.checks| :: s.log.checks[i] <= s.now)
    && |s.log.enqueued| + Count(s.hooks, AtEnqueue) == R.Total(c.rate, R.BOOT, s.log.checks)
    && Count(s.hooks, IsLimited) == |s.log.checks| - R.Total(c.rate, R.BOOT, s.log.checks)
  }

  lemma RateHook(c: Config, s: State, h: nat, ok: bool)
    requires RateOk(c, s) && h < |s.hooks|
    ensures RateOk(c, HookStep(c, s, h, ok))
  {
    var s', pc' := HookStep(c, s, h, ok), NextPc(c, s, h, ok);
    OneHookMoves(c, s, h, ok);
    CountUpdate(s.hooks, h, pc', AtEnqueue);
    CountUpdate(s.hooks, h, pc', IsLimited);
    if s.hooks[h].RateCheck? {
      R.OneMoreCall(c.rate, R.BOOT, s.log.checks, s.now);
      hide R.Run, R.Total, R.Admits, R.After, Count;
    } else {
      RateSame(c, s, h, ok);
      hide HookStep, NextPc, R.Run, R.Total, Count;
    }
  }

  lemma RateSame(c: Config, s: State, h: nat, ok: bool)
    requires h < |s.hooks| && !s.hooks[h].RateCheck?
    ensures var s', pc' := HookStep(c, s, h, ok), NextPc(c, s, h, ok);
            && s'.limiter == s.limiter && s'.log.checks == s.log.checks && s'.now == s.now
            && |s'.log.enqueued| + One(AtEnqueue(pc')) == |s.log.enqueued| + One(AtEnqueue(s.hooks[h]))
            && IsLimited(pc') == IsLimited(s.hooks[h])
  {
    hide Fits, PutBytes, Rewritten, Ref, SetField, Kill, PacketOf, Woken;
    match s.hooks[h]
    case PortTest(_) =>
    case TakeBuffer(_) =>
    case Kmalloc(_) =>
    case NewSkb(_, _) =>
    case PutMsg(_, _) =>
    case _ =>
  }

  lemma RateStep(c: Config, s: State, step: Step)
    requires RateOk(c, s)
    ensures RateOk(c, Apply(c, s, step))
  {
    hide HookStep, R.Run, R.Total;
    match step {
      case Arrive(pkt) =>
        CountAppend(s.hooks, PortTest(pkt), AtEnqueue);
        CountAppend(s.hooks, PortTest(pkt), IsLimited);
      case Hook(h, ok) => if h < |s.hooks| { RateHook(c, s, h, ok); }
      case _ =>
    }
  }
}
