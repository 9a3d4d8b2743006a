/**
 What holds of the pipeline in every state any interleaving can reach.
 */
module Theorems {
  import opened Prelude
  import opened Bytes
  import F = Framing
  import U = UserTab
  import opened Machine
  import opened Pool
  import opened Ledger
  import opened Custody
  import opened References
  import opened Coordination

  ghost predicate Inv(c: Config, s: State)
  {
    && PoolOk(s) && BuffersOk(s)
    && CustodyOk(s) && RefsOk(s) && ContentsOk(c, s.hooks, s.skbs) && OriginOk(s.hooks, s.skbs, s.log.arrived)
    && WakeupOk(s) && StartedOk(s) && ControlOk(s) && PortsOk(s) && RateOk(c, s)
  }

  lemma InitCustody(c: Config)
    ensures CustodyOk(Init()) && RefsOk(Init()) && ContentsOk(c, Init().hooks, Init().skbs)
    ensures OriginOk(Init().hooks, Init().skbs, Init().log.arrived)
  {
    hide ContentsOk, OriginOk, RefsOk, HooksOwn, InLine, LineOwns, Placed, Counted;
    InitPlaces(c);
    InitLine();
  }

  lemma InitLine()
    ensures HooksOwn([], []) && LineOwns([], []) && Placed([], NotStarted, [], []) && Counted([], NotStarted)
    ensures InLine([], [], NotStarted, [])
  {
    assert Ids([]) + [] + [] == [];
  }

  lemma InitPlaces(c: Config)
    ensures ContentsOk(c, Init().hooks, Init().skbs) && OriginOk(Init().hooks, Init().skbs, Init().log.arrived)
    ensures RefsOk(Init())
  {
  }

  lemma InitControl(c: Config)
    ensures ControlOk(Init()) && PortsOk(Init()) && RateOk(c, Init())
  {
    hide ControlOk, PortsOk, RateOk;
    InitTable();
    InitPorts();
    InitRate(c);
  }

  lemma InitTable()
    ensures ControlOk(Init())
  {
    hide U.Empty;
  }

  lemma InitPorts()
    ensures PortsOk(Init())
  {
    hide U.Empty;
  }

  lemma InitRate(c: Config)
    ensures RateOk(c, Init())
  {
    hide U.Empty;
  }

  lemma InitInv(c: Config)
    ensures Inv(c, Init())
  {
    InitCustody(c);
    InitControl(c);
    hide CustodyOk, RefsOk, ContentsOk, OriginOk, ControlOk, PortsOk, RateOk;
  }

  lemma StepInv(c: Config, s: State, step: Step)
    requires Inv(c, s)
    ensures Inv(c, Apply(c, s, step))
  {
    hide PoolOk, BuffersOk, CustodyOk, RefsOk, ContentsOk, OriginOk, WakeupOk, StartedOk, ControlOk, PortsOk;
    hide RateOk, Apply;
    PoolStep(c, s, step);
    BuffersStep(c, s, step);
    CustodyStep(c, s, step);
    RefsStep(c, s, step);
    ContentsStep(c, s, step);
    OriginStep(c, s, step);
    WakeupStep(c, s, step);
    StartedStep(c, s, step);
    ControlStepOk(c, s, step);
    PortsStep(c, s, step);
    RateStep(c, s, step);
  }

  lemma {:induction false} RunInv(c: Config, s: State, steps: seq<Step>)
    requires Inv(c, s)
    ensures Inv(c, Exec(c, s, steps))
    decreases |steps|
  {
    hide Inv, Apply;
    if steps != [] {
      StepInv(c, s, steps[0]);
      RunInv(c, Apply(c, s, steps[0]), steps[1..]);
    }
  }

  /** The state after the given interleaving, from module start. */
  function Reached(c: Config, steps: seq<Step>): (s: State) { Exec(c, Init(), steps) }

  lemma ReachedInv(c: Config, steps: seq<Step>)
    ensures Inv(c, Reached(c, steps))
  {
    InitInv(c);
    RunInv(c, Init(), steps);
  }

  lemma LastStep(c: Config, steps: seq<Step>)
    requires steps != []
    ensures var n := |steps| - 1; Reached(c, steps) == Apply(c, Reached(c, steps[..n]), steps[n])
  {
    var n := |steps| - 1;
    ExecOne(c, Init(), steps[..n], steps[n]);
    assert steps[..n] + [steps[n]] == steps;
  }

  // ---- order and custody ----

  /**
   FIFO, no loss, no duplicate: everything ever enqueued is what was sent, then
   the message in kcapd's hand, then the queue; nothing occurs twice; and what
   a hook holds is neither in line nor with another hook.
   */
  lemma Fifo(c: Config, steps: seq<Step>)
    ensures var s := Reached(c, steps);
            && s.log.enqueued == Ids(s.log.sent) + Hand(s.daemon) + s.queue
            && NoDuplicates(s.log.enqueued)
            && (forall h | 0 <= h < |s.hooks| && HasSkb(s.hooks[h]) :: SkbOf(s.hooks[h]).value !in s.log.enqueued)
            && (forall h, k | 0 <= h < k < |s.hooks| && HasSkb(s.hooks[h]) :: SkbOf(s.hooks[h]) != SkbOf(s.hooks[k]))
  {
    ReachedInv(c, steps);
    var s := Reached(c, steps);
    hide PoolOk, BuffersOk, RefsOk, ContentsOk, OriginOk, WakeupOk, StartedOk, ControlOk, PortsOk, RateOk, Reached;
    forall h, k | 0 <= h < k < |s.hooks| && HasSkb(s.hooks[h]) ensures SkbOf(s.hooks[h]) != SkbOf(s.hooks[k]) {
      OwnSkb(s, h, k);
    }
  }

  /** The messages sent and enqueued so far are never revised. */
  lemma {:induction false} HistoryGrows(c: Config, s: State, steps: seq<Step>)
    ensures s.log.sent <= Exec(c, s, steps).log.sent
    ensures s.log.enqueued <= Exec(c, s, steps).log.enqueued
    decreases |steps|
  {
    if steps != [] {
      LogGrows(c, s, steps[0]);
      hide Apply;
      HistoryGrows(c, Apply(c, s, steps[0]), steps[1..]);
    }
  }

  lemma LogGrows(c: Config, s: State, step: Step)
    ensures s.log.sent <= Apply(c, s, step).log.sent && s.log.enqueued <= Apply(c, s, step).log.enqueued
  {
    hide HookStep, Ref, Count;
    if step.Hook? && step.h < |s.hooks| {
      HookLogGrows(c, s, step.h, step.ok);
    }
  }

  lemma HookLogGrows(c: Config, s: State, h: nat, ok: bool)
    requires h < |s.hooks|
    ensures s.log.sent <= HookStep(c, s, h, ok).log.sent && s.log.enqueued <= HookStep(c, s, h, ok).log.enqueued
    ensures HookStep(c, s, h, ok).log.arrived == s.log.arrived
  {
    hide Fits, PutBytes, Rewritten, Ref, SetField, Kill, PacketOf, Woken;
    match s.hooks[h]
    case PortTest(_) =>
    case TakeBuffer(_) =>
    case Kmalloc(_) =>
    case NewSkb(_, _) =>
    case PutMsg(_, _) =>
    case _ =>
  }

  // ---- wakeups ----

  ghost predicate AllFinished(hooks: seq<HookPc>) { forall h | 0 <= h < |hooks| :: Finished(hooks[h]) }

  lemma NobodyWakes(hooks: seq<HookPc>)
    requires AllFinished(hooks)
    ensures !SomeoneWakes(hooks)
  {
  }

  /** No lost wakeup. */
  lemma NoLostWakeup(c: Config, steps: seq<Step>)
    ensures var s := Reached(c, steps);
            && (s.daemon.Asleep? && s.queue != [] ==> exists h :: 0 <= h < |s.hooks| && s.hooks[h].Wake?)
            && (AllFinished(s.hooks) && s.queue != [] ==> !s.daemon.Asleep? && !s.daemon.NotStarted?)
  {
    ReachedInv(c, steps);
    var s := Reached(c, steps);
    hide Reached, PoolOk, BuffersOk, CustodyOk;
    if AllFinished(s.hooks) {
      NobodyWakes(s.hooks);
    }
  }

  // ---- references ----

  predicate IsWorking(pc: HookPc) { HasSkb(pc) && !IsLimited(pc) }

  lemma {:induction false} CountSplit(hs: seq<HookPc>)
    ensures Count(hs, HasSkb) == Count(hs, IsWorking) + Count(hs, IsLimited)
  {
    if hs != [] {
      CountSplit(hs[1..]);
    }
  }

  /**
   The reference ledger.  An skb with a hook or in the queue has one reference;
   kcapd has one on the message in hand and a second one while it sends; a
   refused send leaves one for good, a successful one none once it is consumed;
   any other skb has none.  So the references outside working hooks, queue and
   kcapd's hand number the refused sends plus the rate-limited packets.
   */
  lemma ReferenceLedger(c: Config, steps: seq<Step>)
    ensures var s := Reached(c, steps);
            && (forall h | 0 <= h < |s.hooks| && HasSkb(s.hooks[h]) :: Refs(s, SkbOf(s.hooks[h]).value) == 1)
            && (forall i | 0 <= i < |s.queue| :: Refs(s, s.queue[i]) == 1)
            && (s.daemon.GetRef? ==> Refs(s, s.daemon.skb) == 1)
            && (s.daemon.Unicast? ==> Refs(s, s.daemon.skb) == 2)
            && (forall i | 0 <= i < |s.log.sent| ::
                  var x := s.log.sent[i]; Refs(s, x.skb) == if x.ok && s.daemon != Consume(x.skb) then 0 else 1)
            && (forall id | 0 <= id < |s.skbs| && id !in s.log.enqueued && !Borne(s.hooks, id) :: Refs(s, id) == 0)
            && TotalRefs(s.skbs) - Count(s.hooks, IsWorking) - |s.queue| - HandRefs(s.daemon)
               == Refusals(s.log.sent) + Count(s.hooks, IsLimited)
  {
    ReachedInv(c, steps);
    CountSplit(Reached(c, steps).hooks);
    hide Reached, PoolOk, BuffersOk, ContentsOk, OriginOk, WakeupOk, StartedOk, ControlOk, PortsOk, RateOk;
    hide Count, TotalRefs, Refusals;
    RefsByPlace(Reached(c, steps));
  }

  /** The references of skb `id`. */
  function Refs(s: State, id: nat): (n: int) { if id < |s.skbs| then s.skbs[id].refs else -1 }

  /** Some hook has skb `id`. */
  ghost predicate Borne(hooks: seq<HookPc>, id: nat) { exists h :: 0 <= h < |hooks| && SkbOf(hooks[h]) == Some(id) }

  lemma RefsByPlace(s: State)
    requires CustodyOk(s)
    ensures forall h | 0 <= h < |s.hooks| && HasSkb(s.hooks[h]) :: Refs(s, SkbOf(s.hooks[h]).value) == 1
    ensures forall i | 0 <= i < |s.queue| :: Refs(s, s.queue[i]) == 1
    ensures s.daemon.GetRef? ==> Refs(s, s.daemon.skb) == 1
    ensures s.daemon.Unicast? ==> Refs(s, s.daemon.skb) == 2
    ensures forall i | 0 <= i < |s.log.sent| ::
              var x := s.log.sent[i]; Refs(s, x.skb) == if x.ok && s.daemon != Consume(x.skb) then 0 else 1
    ensures forall id | 0 <= id < |s.skbs| && id !in s.log.enqueued && !Borne(s.hooks, id) :: Refs(s, id) == 0
  {
    forall id | 0 <= id < |s.skbs| && id !in s.log.enqueued && !Borne(s.hooks, id) ensures Refs(s, id) == 0 {
      assert s.skbs[id].place.Freed?;
    }
  }

  // ---- buffers ----

  /** The buffers held, or about to be allocated, after the first `k` steps. */
  function HeldAfter(c: Config, steps: seq<Step>, k: nat): (n: nat)
    requires k <= |steps|
  {
    Count(Reached(c, steps[..k]).hooks, Holds)
  }

  /** The pool never outgrows the number of buffers held together at some earlier moment of the run. */
  lemma {:induction false} PoolNeeded(c: Config, steps: seq<Step>) returns (k: nat)
    ensures k <= |steps| && PoolSize(Reached(c, steps)) <= HeldAfter(c, steps, k)
    decreases |steps|
  {
    hide Reached, Count;
    k := |steps|;
    assert steps[..k] == steps;
    if Reached(c, steps).freelist != [] {
      var n := |steps| - 1;
      NothingListed(c);
      LastStep(c, steps);
      PoolSizeStep(c, Reached(c, steps[..n]), steps[n]);
      hide Apply, PoolSize;
      k := PoolNeeded(c, steps[..n]);
      assert steps[..n][..k] == steps[..k];
    }
  }

  lemma NothingListed(c: Config)
    ensures Reached(c, []).freelist == []
  {
  }

  /** The buffer pool, in every reachable state. */
  lemma BufferPool(c: Config, steps: seq<Step>)
    ensures var s := Reached(c, steps);
            && s.freeCount == |s.freelist| <= 1024
            && NoDuplicates(s.freelist)
            && (forall i | 0 <= i < |s.freelist| ::
                  s.freelist[i] < |s.bufs| && s.bufs[s.freelist[i]] == Buffer(None, true))
            && (forall h | 0 <= h < |s.hooks| && HasCb(s.hooks[h]) :: CbOf(s.hooks[h]).value !in s.freelist)
            && (forall h, k | 0 <= h < k < |s.hooks| && HasCb(s.hooks[h]) :: CbOf(s.hooks[h]) != CbOf(s.hooks[k]))
            && Live(s.bufs) == |s.freelist| + Count(s.hooks, HasCb)
            && exists k :: 0 <= k <= |steps| && |s.freelist| + Count(s.hooks, Holds) <= HeldAfter(c, steps, k)
  {
    ReachedInv(c, steps);
    var s := Reached(c, steps);
    hide Reached, CustodyOk, RefsOk, ContentsOk, OriginOk, WakeupOk, StartedOk, ControlOk, PortsOk, RateOk;
    hide Count, Live, HeldAfter;
    forall h | 0 <= h < |s.hooks| && HasCb(s.hooks[h]) ensures CbOf(s.hooks[h]).value !in s.freelist {
      Instance(s, h);
    }
    var k := PoolNeeded(c, steps);
  }

  // ---- contents ----

  /** A packet of at most 2000 bytes always fits. */
  lemma SmallPacketsFit(c: Config, pkt: Packet)
    requires |pkt| <= 2000
    ensures Fits(c, pkt)
  {
  }

  /** The payload a listener sees: the packet and the padding nlmsg_len was stretched over. */
  function Padding(pkt: Packet): (z: seq<byte>)
    ensures |z| < 4
  {
    Zeros(F.Align(F.HDRLEN + |pkt|) - F.HDRLEN - |pkt|)
  }

  /** The rewritten bytes are the frame of one message carrying the packet and its padding. */
  lemma RewrittenIsFrame(c: Config, dest: u32, pkt: Packet)
    requires Fits(c, pkt)
    ensures var m := CaptureMessage(dest, pkt + Padding(pkt));
            m.Fits() && Rewritten(PutBytes(c, dest, pkt)) == F.Frame(m)
  {
    var short, m := CaptureMessage(dest, pkt), CaptureMessage(dest, pkt + Padding(pkt));
    HeaderSplit(F.HeaderOf(short));
    HeaderSplit(F.HeaderOf(m));
    Restamp(Le32(F.HDRLEN + |pkt|), HeaderTail(F.HeaderOf(m)), pkt, Padding(pkt));
    hide Le32, Le16, F.EncodeHeader;
  }

  function HeaderTail(h: F.Header): (b: seq<byte>) { Le16(h.ty) + Le16(h.flags) + Le32(h.seqNo) + Le32(h.pid) }

  lemma HeaderSplit(h: F.Header)
    ensures F.EncodeHeader(h) == Le32(h.len) + HeaderTail(h)
  {
    hide Le32, Le16;
  }

  /** Rewriting the first four bytes of a frame replaces its length field only. */
  lemma Restamp(len: seq<byte>, tail: seq<byte>, pkt: Packet, pad: seq<byte>)
    requires |len| == 4 && |len + tail + pkt + pad| < 0x8000_0000
    ensures var b := len + tail + pkt + pad; Rewritten(b) == Le32(|b|) + tail + (pkt + pad)
  {
    hide Le32;
    var b := len + tail + pkt + pad;
    assert b[4..] == tail + pkt + pad;
  }

  /** The packets that reached the hook, in order of arrival. */
  function Arrivals(steps: seq<Step>): (ps: seq<Packet>)
  {
    if steps == [] then [] else (if steps[0].Arrive? then [steps[0].pkt] else []) + Arrivals(steps[1..])
  }

  lemma {:induction false} ArrivalsLogged(c: Config, s: State, steps: seq<Step>)
    ensures Exec(c, s, steps).log.arrived == s.log.arrived + Arrivals(steps)
    decreases |steps|
  {
    if steps != [] {
      hide Apply;
      ArrivalLogged(c, s, steps[0]);
      ArrivalsLogged(c, Apply(c, s, steps[0]), steps[1..]);
      if steps[0].Arrive? {
        Regroup(s.log.arrived, steps[0].pkt, Arrivals(steps[1..]));
      } else {
        assert Arrivals(steps) == Arrivals(steps[1..]);
      }
    }
  }

  lemma Regroup(a: seq<Packet>, p: Packet, b: seq<Packet>)
    ensures (a + [p]) + b == a + ([p] + b)
  {
  }

  lemma ArrivalLogged(c: Config, s: State, step: Step)
    ensures Apply(c, s, step).log.arrived == if step.Arrive? then s.log.arrived + [step.pkt] else s.log.arrived
  {
    hide HookStep, Ref, Count;
    if step.Hook? && step.h < |s.hooks| {
      HookLogGrows(c, s, step.h, step.ok);
    }
  }

  /**
   The bytes of one netlink message of type NLMSG_DONE for `port`: length, type,
   no flags, sequence number 0, port, the packet, and zeros up to a multiple of four.
   */
  ghost predicate CaptureBytes(b: seq<byte>, pkt: Packet, port: u32)
  {
    && 16 + |pkt| <= |b| < 16 + |pkt| + 4 && |b| % 4 == 0
    && GetLe32(b, 0) == |b| && GetLe16(b, 4) == 3 && GetLe16(b, 6) == 0 && GetLe32(b, 8) == 0
    && GetLe32(b, 12) == port
    && b[16..16 + |pkt|] == pkt && (forall j | 16 + |pkt| <= j < |b| :: b[j] == 0)
  }

  lemma CapturedBytes(c: Config, k: Skb)
    requires CapturedOk(c, k)
    ensures CaptureBytes(k.bytes, k.packet, k.dest) && |k.bytes| <= c.tailroom
  {
    var m := CaptureMessage(k.dest, k.packet + Padding(k.packet));
    RewrittenIsFrame(c, k.dest, k.packet);
    F.FrameCarries(m);
    hide GetLe32, GetLe16, F.Frame, PutBytes, Rewritten;
    assert k.bytes == F.Frame(m);
    assert k.bytes[16..] == m.payload;
  }

  /** An skb that is or was in line has exactly these bytes. */
  lemma BytesInLine(c: Config, s: State, id: nat)
    requires Inv(c, s) && id in s.log.enqueued
    ensures id < |s.skbs| && CaptureBytes(s.skbs[id].bytes, s.skbs[id].packet, s.skbs[id].dest)
    ensures |s.skbs[id].bytes| <= c.tailroom
  {
    hide PoolOk, BuffersOk, RefsOk, OriginOk, WakeupOk, StartedOk, ControlOk, PortsOk, RateOk, CaptureBytes;
    hide CapturedOk;
    assert id < |s.skbs| && PastEnqueue(s.skbs[id].place);
    CapturedBytes(c, s.skbs[id]);
  }

  /**
   Captured frame fidelity: every message ever put in line parses as exactly one
   netlink message, whose payload is a packet that arrived and fewer than four
   zero bytes; different messages come from different arrivals.
   */
  lemma CapturedFrames(c: Config, steps: seq<Step>, i: nat)
    requires i < |Reached(c, steps).log.enqueued|
    ensures var s := Reached(c, steps);
            var id := s.log.enqueued[i];
            && id < |s.skbs| && s.skbs[id].origin < |Arrivals(steps)|
            && (var k, pkt := s.skbs[id], Arrivals(steps)[s.skbs[id].origin];
                && CaptureBytes(k.bytes, pkt, k.dest) && |k.bytes| <= c.tailroom
                && F.ReadsAs(k.bytes, [F.Message(3, 0, 0, k.dest, pkt + Padding(pkt))]))
            && forall j | 0 <= j < |s.skbs| && j != id :: s.skbs[j].origin != s.skbs[id].origin
  {
    ReachedInv(c, steps);
    ArrivalsLogged(c, Init(), steps);
    var s := Reached(c, steps);
    assert s.log.arrived == Arrivals(steps);
    var id := s.log.enqueued[i];
    BytesInLine(c, s, id);
    assert CapturedOk(c, s.skbs[id]);
    RewrittenReads(c, s.skbs[id]);
    hide PoolOk, BuffersOk, CustodyOk, RefsOk, ContentsOk, WakeupOk, StartedOk, ControlOk, PortsOk, RateOk, Reached;
    hide CapturedOk, F.ReadsAs, Arrivals, Padding, CaptureBytes;
  }

  lemma RewrittenReads(c: Config, k: Skb)
    requires CapturedOk(c, k)
    ensures F.ReadsAs(k.bytes, [F.Message(3, 0, 0, k.dest, k.packet + Padding(k.packet))])
  {
    var m := CaptureMessage(k.dest, k.packet + Padding(k.packet));
    RewrittenIsFrame(c, k.dest, k.packet);
    F.FrameReads(m);
  }

  // ---- control state ----

  /**
   The port id is what its last write dictates, and it is written for exactly
   the ADD and DEL requests the table sees, in the same order and each before
   the table, and once for every refused send, the one being answered excepted.
   A non-zero port id or a non-empty queue means kcapd was started; and between
   control messages a non-zero port id is registered or the table takes no more
   users.
   */
  lemma ControlState(c: Config, steps: seq<Step>)
    ensures var s := Reached(c, steps);
            && s.portId == Dictated(s.log.ports)
            && Asked(s.log.ports) == s.log.tab + (if s.control.Tab? then Pending(s.control) else [])
            && Cleared(s.log.ports) == Refusals(s.log.sent) - One(s.daemon.ClearPort?)
            && s.table == U.Run(U.Empty(), s.log.tab)
            && (s.portId != 0 || s.queue != [] ==> !s.daemon.NotStarted?)
            && (s.control.Idle? ==> Listed(s.portId, s.table))
  {
    ReachedInv(c, steps);
    hide Reached, PoolOk, BuffersOk, CustodyOk, RefsOk, ContentsOk, OriginOk, WakeupOk, RateOk;
    hide U.Run, Listed, Asked, Cleared, Refusals;
  }

  // ---- draining ----

  /** An upper bound on the daemon's steps until it sleeps, when no hook is active. */
  function Work(s: State): (n: nat)
  {
    4 * |s.queue| +
    match s.daemon
    case NotStarted => 10
    case Dequeue => 6
    case GetRef(_) => 9
    case Unicast(_) => 8
    case Consume(_) => 7
    case ClearPort(_) => 7
    case WaitTest => if s.queue == [] then 4 else 7
    case Prepare => if s.queue == [] then 3 else 8
    case Retest(woken) => if s.queue != [] then 7 else if woken then 5 else 2
    case Schedule(woken) => if s.queue != [] then 9 else if woken then 4 else 1
    case Asleep => 0
  }

  /** No new packet arrives. */
  predicate Quiet(step: Step) { !step.Arrive? }

  /** Nothing is left to send. */
  predicate Drained(s: State) { s.queue == [] && Hand(s.daemon) == [] }

  /**
   With all hooks finished a quiet step enqueues nothing; nothing left to send
   stays so; short of that no step adds work and a daemon step uses some up.
   */
  lemma QuietStep(c: Config, s: State, step: Step)
    requires Inv(c, s) && AllFinished(s.hooks) && !s.daemon.NotStarted? && Quiet(step)
    ensures var s' := Apply(c, s, step);
            && s'.hooks == s.hooks && s'.log.enqueued == s.log.enqueued && !s'.daemon.NotStarted?
            && (Drained(s) ==> Drained(s'))
            && (step.Spurious? || Work(s') <= Work(s)) && (Drained(s) || Work(s') <= Work(s))
            && (step.Daemon? ==> s.daemon.Asleep? || Work(s') < Work(s))
            && (s.daemon.Asleep? ==> Drained(s) && (step.Spurious? || s'.daemon.Asleep?))
  {
    hide PoolOk, BuffersOk, CustodyOk, RefsOk, ContentsOk, OriginOk, StartedOk, ControlOk, PortsOk, RateOk;
    hide HookStep, DaemonStep;
    NobodyWakes(s.hooks);
    match step {
      case Hook(h, ok) => if h < |s.hooks| { FinishedStays(c, s, h, ok); }
      case Daemon(ok) => DaemonWorks(s, ok);
      case _ =>
    }
  }

  lemma FinishedStays(c: Config, s: State, h: nat, ok: bool)
    requires h < |s.hooks| && Finished(s.hooks[h])
    ensures HookStep(c, s, h, ok) == s
  {
  }

  lemma DaemonWorks(s: State, ok: bool)
    requires !s.daemon.NotStarted? && !(Sleepy(s.daemon) && s.queue != [])
    ensures var s' := DaemonStep(s, ok);
            && s'.hooks == s.hooks && s'.log.enqueued == s.log.enqueued && !s'.daemon.NotStarted?
            && (Drained(s) ==> Drained(s'))
            && (s.daemon.Asleep? ==> s' == s) && (s.daemon.Asleep? || Work(s') < Work(s))
  {
    hide Ref;
  }

  function DaemonSteps(steps: seq<Step>): (n: nat)
  {
    if steps == [] then 0 else One(steps[0].Daemon?) + DaemonSteps(steps[1..])
  }

  predicate NoSpurious(steps: seq<Step>) { forall i | 0 <= i < |steps| :: !steps[i].Spurious? }

  lemma {:induction false} QuietRun(c: Config, s: State, steps: seq<Step>)
    requires Inv(c, s) && AllFinished(s.hooks) && !s.daemon.NotStarted?
    requires forall i | 0 <= i < |steps| :: Quiet(steps[i])
    ensures var s' := Exec(c, s, steps);
            && Inv(c, s') && s'.hooks == s.hooks && s'.log.enqueued == s.log.enqueued && !s'.daemon.NotStarted?
            && (Drained(s) ==> Drained(s'))
            && (Drained(s') || Work(s') + DaemonSteps(steps) <= Work(s))
    decreases |steps|
  {
    if steps != [] {
      hide Apply, Inv, Work, Drained;
      QuietStep(c, s, steps[0]);
      StepInv(c, s, steps[0]);
      QuietRun(c, Apply(c, s, steps[0]), steps[1..]);
    }
  }

  /** The same down to sleep, when nothing wakes the daemon without cause. */
  lemma {:induction false} RestfulRun(c: Config, s: State, steps: seq<Step>)
    requires Inv(c, s) && AllFinished(s.hooks) && !s.daemon.NotStarted?
    requires NoSpurious(steps) && forall i | 0 <= i < |steps| :: Quiet(steps[i])
    ensures var s' := Exec(c, s, steps);
            && (s.daemon.Asleep? ==> s'.daemon.Asleep?)
            && (s'.daemon.Asleep? || Work(s') + DaemonSteps(steps) <= Work(s))
    decreases |steps|
  {
    if steps != [] {
      hide Apply, Inv, Work, Drained;
      QuietStep(c, s, steps[0]);
      StepInv(c, s, steps[0]);
      RestfulRun(c, Apply(c, s, steps[0]), steps[1..]);
    }
  }

  /**
   Drain: once all hooks are finished, any schedule that gives the daemon
   Work(s) steps, whatever the outcomes of its sends, whatever control messages
   come in between and however often it is woken without cause, ends with the
   queue empty and everything ever enqueued sent exactly once in order: one send
   per message that was left.  Unless woken without cause it is then asleep.
   */
  lemma Drains(c: Config, before: seq<Step>, steps: seq<Step>)
    requires AllFinished(Reached(c, before).hooks) && !Reached(c, before).daemon.NotStarted?
    requires forall i | 0 <= i < |steps| :: Quiet(steps[i])
    requires DaemonSteps(steps) >= Work(Reached(c, before))
    ensures var s, s' := Reached(c, before), Exec(c, Reached(c, before), steps);
            && s'.queue == []
            && Ids(s'.log.sent) == s'.log.enqueued == s.log.enqueued
            && s.log.sent <= s'.log.sent
            && |s'.log.sent| - |s.log.sent| == |Hand(s.daemon)| + |s.queue|
            && (NoSpurious(steps) ==> s'.daemon.Asleep?)
  {
    var s := Reached(c, before);
    ReachedInv(c, before);
    QuietRun(c, s, steps);
    HistoryGrows(c, s, steps);
    AllSent(c, Exec(c, s, steps), Work(s), DaemonSteps(steps));
    if NoSpurious(steps) {
      RestfulRun(c, s, steps);
      OutOfWork(Exec(c, s, steps), Work(s), DaemonSteps(steps));
    }
    hide Exec, Reached, PoolOk, BuffersOk, RefsOk, ContentsOk, OriginOk, WakeupOk, StartedOk, ControlOk;
    hide PortsOk, RateOk, Work, DaemonSteps;
  }

  lemma OutOfWork(s: State, work: nat, n: nat)
    requires s.daemon.Asleep? || Work(s) + n <= work <= n
    ensures s.daemon.Asleep?
  {
  }

  /** Out of work means nothing is left in line. */
  lemma AllSent(c: Config, s: State, work: nat, n: nat)
    requires Inv(c, s) && AllFinished(s.hooks) && !s.daemon.NotStarted?
    requires Drained(s) || Work(s) + n <= work <= n
    ensures s.queue == [] && Ids(s.log.sent) == s.log.enqueued
  {
    hide PoolOk, BuffersOk, RefsOk, ContentsOk, OriginOk, StartedOk, ControlOk, PortsOk, RateOk, Ids;
    NobodyWakes(s.hooks);
    assert Ids(s.log.sent) + [] + [] == Ids(s.log.sent);
  }
}
