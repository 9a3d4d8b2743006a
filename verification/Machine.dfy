/**
 The packet capture pipeline as a step system: any number of hook instances,
 the daemon kcapd and the serialised control-message handler, interleaving at
 every shared action.  Each transition below is one critical section, one
 queue operation or one access to a shared variable of the module.

 The model starts after module initialisation and ends before module exit.
 */
module Machine {
  import opened Prelude
  import opened Bytes
  import F = Framing
  import U = UserTab
  import R = RateLimit

  /** CAP_MAXFREE */
  const MAX_FREE: nat := 1024

  const CAP_ADD: u16 := 0
  const CAP_DEL: u16 := 1
  const CAP_GET_PACKET: u16 := 3

  type Packet = seq<byte>

  /** `tailroom` is the room nlmsg_new(MAX_SKB_BUFSIZE) leaves in a new skb. */
  datatype RawConfig = Config(rate: R.Rate, tailroom: nat)
  type Config = c: RawConfig | 2016 <= c.tailroom < 0x8000_0000 witness Config(R.Rate(0, 100), 2016)

  // ---- data ----

  /** Who is responsible for a capture skb: a history annotation. */
  datatype Place = InHook(h: nat) | Queued | InHand | Sent(ok: bool) | Freed

  /** A capture skb; `packet`, `dest` and `origin` record what it was made from, and by which hook. */
  datatype Skb = Skb(refs: int, bytes: seq<byte>, packet: Packet, dest: u32, origin: nat, place: Place)

  /** A struct cap_buffer; `live` is false once it went back to kfree. */
  datatype Buffer = Buffer(skb: Option<nat>, live: bool)

  /** Where a call of hook_func_queue, or of cap_buffer_alloc and cap_buffer_free under it, stands. */
  datatype HookPc =
    | PortTest(pkt: Packet)
    | TakeBuffer(pkt: Packet)
    | Kmalloc(pkt: Packet)
    | NewSkb(pkt: Packet, cb: nat)
    | PutMsg(cb: nat, skb: nat)
    | RateCheck(cb: nat, skb: nat)
    | Enqueue(cb: nat, skb: nat)
    | Wake(cb: nat)
    | ClearSkb(cb: nat)
    | FreeBuffer(ptr: Option<nat>)    // in cap_buffer_free, perhaps with NULL
    | Returned
    | RateLimited(cb: nat, skb: nat)  // returned, but buffer and skb are kept
    | Faulted                         // dereferenced NULL

  /** Where kcapd_thread stands, down to the parts of wait_event_freezable. */
  datatype DaemonPc =
    | NotStarted
    | Dequeue
    | GetRef(skb: nat)
    | Unicast(skb: nat)
    | Consume(skb: nat)
    | ClearPort(skb: nat)
    | WaitTest
    | Prepare
    | Retest(woken: bool)
    | Schedule(woken: bool)
    | Asleep

  /** Where cap_receive_msg stands. */
  datatype ControlPc = Idle | Start(ty: u16, pid: u32) | Port(ty: u16, pid: u32) | Tab(ty: u16, pid: u32)

  /** A call of netlink_unicast: what, to which port, and whether it was delivered. */
  datatype Sending = Sending(skb: nat, to: u32, ok: bool)

  /** A write to cap_nlk_portid. */
  datatype PortEvent = Added(pid: u32) | Deleted(pid: u32) | Refused

  /** History of the run. */
  datatype Log = Log(arrived: seq<Packet>, enqueued: seq<nat>, sent: seq<Sending>,
                     ports: seq<PortEvent>, tab: seq<U.Event>, checks: seq<nat>)

  datatype State = State(
    freelist: seq<nat>, freeCount: int, bufs: seq<Buffer>,
    skbs: seq<Skb>, queue: seq<nat>,
    portId: u32, table: U.Table,
    limiter: R.Limiter, now: nat,
    hooks: seq<HookPc>, daemon: DaemonPc, control: ControlPc,
    log: Log)

  function Init(): (s: State)
  {
    State([], 0, [], [], [], 0, U.Empty(), R.BOOT, 0, [], NotStarted, Idle, Log([], [], [], [], [], []))
  }

  // ---- contents of a capture skb ----

  function CaptureMessage(dest: u32, payload: seq<byte>): (m: F.Message)
  {
    F.Message(F.NLMSG_DONE, 0, 0, dest, payload)
  }

  /** nlmsg_put succeeds. */
  predicate Fits(c: Config, pkt: Packet) { F.Align(F.HDRLEN + |pkt|) <= c.tailroom }

  /** After nlmsg_put and memcpy: header, packet, zeroed padding. */
  function PutBytes(c: Config, dest: u32, pkt: Packet): (b: seq<byte>)
    requires Fits(c, pkt)
  {
    F.Padded(CaptureMessage(dest, pkt))
  }

  /** nlh->nlmsg_len = skb->len */
  function Rewritten(b: seq<byte>): (b': seq<byte>)
    ensures |b'| == |b|
  {
    if 4 <= |b| < 0x8000_0000 then Le32(|b|) + b[4..] else b
  }

  // ---- counting ----

  function Count(hs: seq<HookPc>, p: HookPc -> bool): (n: nat)
  {
    if hs == [] then 0 else One(p(hs[0])) + Count(hs[1..], p)
  }

  function CbOf(pc: HookPc): (cb: Option<nat>)
  {
    match pc
    case NewSkb(_, cb) => Some(cb)
    case PutMsg(cb, _) => Some(cb)
    case RateCheck(cb, _) => Some(cb)
    case Enqueue(cb, _) => Some(cb)
    case Wake(cb) => Some(cb)
    case ClearSkb(cb) => Some(cb)
    case FreeBuffer(cb) => cb
    case RateLimited(cb, _) => Some(cb)
    case _ => None
  }

  function SkbOf(pc: HookPc): (skb: Option<nat>)
  {
    match pc
    case PutMsg(_, skb) => Some(skb)
    case RateCheck(_, skb) => Some(skb)
    case Enqueue(_, skb) => Some(skb)
    case RateLimited(_, skb) => Some(skb)
    case _ => None
  }

  predicate HasCb(pc: HookPc) { CbOf(pc).Some? }

  /** Holds a buffer, or is about to allocate one. */
  predicate Holds(pc: HookPc) { pc.Kmalloc? || HasCb(pc) }

  predicate Finished(pc: HookPc) { pc.Returned? || pc.RateLimited? || pc.Faulted? }

  // ---- small updates ----

  function At(s: State, h: nat, pc: HookPc): (s': State)
    requires h < |s.hooks|
  {
    s.(hooks := s.hooks[h := pc])
  }

  function SetField(bufs: seq<Buffer>, cb: nat, skb: Option<nat>): (bufs': seq<Buffer>)
    ensures |bufs'| == |bufs|
  {
    if cb < |bufs| then bufs[cb := bufs[cb].(skb := skb)] else bufs
  }

  function Kill(bufs: seq<Buffer>, cb: nat): (bufs': seq<Buffer>)
    ensures |bufs'| == |bufs|
  {
    if cb < |bufs| then bufs[cb := bufs[cb].(live := false)] else bufs
  }

  function Ref(skbs: seq<Skb>, id: nat, d: int, place: Place): (skbs': seq<Skb>)
    ensures |skbs'| == |skbs|
  {
    if id < |skbs| then skbs[id := skbs[id].(refs := skbs[id].refs + d, place := place)] else skbs
  }

  function PacketOf(s: State, id: nat): (p: Packet) { if id < |s.skbs| then s.skbs[id].packet else [] }

  // ---- hook_func_queue ----

  /** cap_buffer_alloc, up to the buffer. */
  function StepTake(s: State, h: nat, pkt: Packet): (s': State)
    requires h < |s.hooks|
  {
    if s.freelist != [] then
      At(s, h, NewSkb(pkt, s.freelist[0])).(freelist := s.freelist[1..], freeCount := s.freeCount - 1)
    else At(s, h, Kmalloc(pkt))
  }

  function StepKmalloc(s: State, h: nat, pkt: Packet, ok: bool): (s': State)
    requires h < |s.hooks|
  {
    if ok then At(s, h, NewSkb(pkt, |s.bufs|)).(bufs := s.bufs + [Buffer(None, true)])
    else At(s, h, FreeBuffer(None))
  }

  function StepNewSkb(s: State, h: nat, pkt: Packet, cb: nat, ok: bool): (s': State)
    requires h < |s.hooks|
  {
    if ok then
      At(s, h, PutMsg(cb, |s.skbs|)).(bufs := SetField(s.bufs, cb, Some(|s.skbs|)),
                                      skbs := s.skbs + [Skb(1, [], pkt, 0, h, InHook(h))])
    else At(s, h, FreeBuffer(Some(cb))).(bufs := SetField(s.bufs, cb, None))
  }

  function StepPut(c: Config, s: State, h: nat, cb: nat, skb: nat): (s': State)
    requires h < |s.hooks|
  {
    var pkt := PacketOf(s, skb);
    if Fits(c, pkt) then
      At(s, h, RateCheck(cb, skb)).(
        skbs := if skb < |s.skbs|
                then s.skbs[skb := s.skbs[skb].(bytes := PutBytes(c, s.portId, pkt), dest := s.portId)]
                else s.skbs)
    else
      At(s, h, FreeBuffer(Some(cb))).(skbs := Ref(s.skbs, skb, -1, Freed), bufs := SetField(s.bufs, cb, None))
  }

  function StepRate(c: Config, s: State, h: nat, cb: nat, skb: nat): (s': State)
    requires h < |s.hooks|
  {
    At(s, h, if R.Admits(c.rate, s.limiter, s.now) then Enqueue(cb, skb) else RateLimited(cb, skb)).(
      limiter := R.After(c.rate, s.limiter, s.now), log := s.log.(checks := s.log.checks + [s.now]))
  }

  function StepEnqueue(s: State, h: nat, cb: nat, skb: nat): (s': State)
    requires h < |s.hooks|
  {
    At(s, h, Wake(cb)).(
      skbs := if skb < |s.skbs|
              then s.skbs[skb := s.skbs[skb].(bytes := Rewritten(s.skbs[skb].bytes), place := Queued)]
              else s.skbs,
      queue := s.queue + [skb], log := s.log.(enqueued := s.log.enqueued + [skb]))
  }

  /** wake_up_interruptible(&kcapd_wait) as the daemon sees it. */
  function Woken(d: DaemonPc): (d': DaemonPc)
  {
    match d
    case Retest(_) => Retest(true)
    case Schedule(_) => Schedule(true)
    case Asleep => Prepare
    case _ => d
  }

  /** cap_buffer_free: cb->skb is read exactly when cb is NULL. */
  function StepFree(s: State, h: nat, cb: Option<nat>): (s': State)
    requires h < |s.hooks|
  {
    match cb
    case None => At(s, h, Faulted)
    case Some(b) =>
      if s.freeCount >= MAX_FREE then At(s, h, Returned).(bufs := Kill(s.bufs, b))
      else At(s, h, Returned).(freelist := [b] + s.freelist, freeCount := s.freeCount + 1)
  }

  /** The next action of hook `h`; `ok` is the outcome of the allocation it makes, if any. */
  function HookStep(c: Config, s: State, h: nat, ok: bool): (s': State)
    requires h < |s.hooks|
  {
    match s.hooks[h]
    case PortTest(pkt) => At(s, h, if s.portId == 0 then Returned else TakeBuffer(pkt))
    case TakeBuffer(pkt) => StepTake(s, h, pkt)
    case Kmalloc(pkt) => StepKmalloc(s, h, pkt, ok)
    case NewSkb(pkt, cb) => StepNewSkb(s, h, pkt, cb, ok)
    case PutMsg(cb, skb) => StepPut(c, s, h, cb, skb)
    case RateCheck(cb, skb) => StepRate(c, s, h, cb, skb)
    case Enqueue(cb, skb) => StepEnqueue(s, h, cb, skb)
    case Wake(cb) => At(s, h, ClearSkb(cb)).(daemon := Woken(s.daemon))
    case ClearSkb(cb) => At(s, h, FreeBuffer(Some(cb))).(bufs := SetField(s.bufs, cb, None))
    case FreeBuffer(cb) => StepFree(s, h, cb)
    case _ => s
  }

  // ---- kcapd_thread ----

  /** The next action of the daemon; `ok` tells whether netlink_unicast delivered. */
  function DaemonStep(s: State, ok: bool): (s': State)
  {
    match s.daemon
    case NotStarted => s
    case Dequeue =>
      if s.queue == [] then s.(daemon := WaitTest)
      else s.(daemon := GetRef(s.queue[0]), queue := s.queue[1..], skbs := Ref(s.skbs, s.queue[0], 0, InHand))
    case GetRef(id) => s.(daemon := Unicast(id), skbs := Ref(s.skbs, id, 1, InHand))
    case Unicast(id) =>
      s.(daemon := if ok then Consume(id) else ClearPort(id), skbs := Ref(s.skbs, id, -1, Sent(ok)),
         log := s.log.(sent := s.log.sent + [Sending(id, s.portId, ok)]))
    case Consume(id) => s.(daemon := Dequeue, skbs := Ref(s.skbs, id, -1, Sent(true)))
    case ClearPort(_) => s.(daemon := Dequeue, portId := 0, log := s.log.(ports := s.log.ports + [Refused]))
    case WaitTest => s.(daemon := if s.queue != [] then Dequeue else Prepare)
    case Prepare => s.(daemon := Retest(false))
    case Retest(woken) => s.(daemon := if s.queue != [] then Dequeue else Schedule(woken))
    case Schedule(woken) => s.(daemon := if woken then Prepare else Asleep)
    case Asleep => s
  }

  // ---- cap_receive_msg ----

  predicate KnownType(ty: u16) { ty == CAP_ADD || ty == CAP_DEL || ty == CAP_GET_PACKET }

  /** The next action of the handler; `ok` tells whether kthread_run worked. */
  function ControlStep(s: State, ok: bool): (s': State)
  {
    match s.control
    case Idle => s
    case Start(ty, pid) =>
      if !s.daemon.NotStarted? then s.(control := Port(ty, pid))
      else if ok then s.(control := Port(ty, pid), daemon := Dequeue)
      else s.(control := Idle)
    case Port(ty, pid) =>
      if ty == CAP_ADD then
        s.(control := Tab(ty, pid), portId := pid, log := s.log.(ports := s.log.ports + [Added(pid)]))
      else if ty == CAP_DEL then
        s.(control := Tab(ty, pid), portId := 0, log := s.log.(ports := s.log.ports + [Deleted(pid)]))
      else s.(control := Idle)
    case Tab(ty, pid) =>
      var e := if ty == CAP_ADD then U.Joined(pid) else U.Left(pid);
      s.(control := Idle, table := if s.table.Shaped() then U.After(s.table, e) else s.table,
         log := s.log.(tab := s.log.tab + [e]))
  }

  // ---- runs ----

  datatype Step =
    | Arrive(pkt: Packet)            // a packet reaches the hook
    | Tick(n: nat)                   // time passes
    | Hook(h: nat, ok: bool)
    | Daemon(ok: bool)
    | Spurious                       // a signal or the freezer wakes the sleeping daemon
    | Receive(ty: u16, pid: u32)     // a control message reaches the idle handler
    | Control(ok: bool)

  /** Steps that cannot be taken leave the state alone, so every sequence of steps is a run. */
  function Apply(c: Config, s: State, step: Step): (s': State)
  {
    match step
    case Arrive(pkt) => s.(hooks := s.hooks + [PortTest(pkt)], log := s.log.(arrived := s.log.arrived + [pkt]))
    case Tick(n) => s.(now := s.now + n)
    case Hook(h, ok) => if h < |s.hooks| then HookStep(c, s, h, ok) else s
    case Daemon(ok) => DaemonStep(s, ok)
    case Spurious => if s.daemon.Asleep? then s.(daemon := Prepare) else s
    case Receive(ty, pid) => if s.control.Idle? && KnownType(ty) then s.(control := Start(ty, pid)) else s
    case Control(ok) => ControlStep(s, ok)
  }

  function Exec(c: Config, s: State, steps: seq<Step>): (s': State)
    decreases |steps|
  {
    if steps == [] then s else Exec(c, Apply(c, s, steps[0]), steps[1..])
  }

  lemma {:induction false} ExecAppend(c: Config, s: State, steps: seq<Step>, more: seq<Step>)
    ensures Exec(c, s, steps + more) == Exec(c, Exec(c, s, steps), more)
    decreases |steps|
  {
    if steps == [] {
      assert steps + more == more;
    } else {
      assert (steps + more)[1..] == steps[1..] + more;
      ExecAppend(c, Apply(c, s, steps[0]), steps[1..], more);
    }
  }

  lemma ExecOne(c: Config, s: State, steps: seq<Step>, step: Step)
    ensures Exec(c, s, steps + [step]) == Apply(c, Exec(c, s, steps), step)
  {
    ExecAppend(c, s, steps, [step]);
    ExecFirst(c, Exec(c, s, steps), step);
  }

  lemma ExecNone(c: Config, s: State)
    ensures Exec(c, s, []) == s
  {
  }

  lemma ExecFirst(c: Config, s: State, step: Step)
    ensures Exec(c, s, [step]) == Apply(c, s, step)
  {
    assert [step][1..] == [];
  }

  lemma FourSteps(c: Config, s: State, a: Step, b: Step, d: Step, e: Step)
    ensures Exec(c, s, [a, b, d, e]) == Apply(c, Apply(c, Apply(c, Apply(c, s, a), b), d), e)
  {
    hide Apply;
    assert [a, b, d, e] == [a, b, d] + [e] && [a, b, d] == [a, b] + [d] && [a, b] == [a] + [b];
    ExecOne(c, s, [a, b, d], e);
    ExecOne(c, s, [a, b], d);
    ExecOne(c, s, [a], b);
    ExecFirst(c, s, a);
  }

  /** The steps of one control message. */
  function MsgSteps(ty: u16, pid: u32, start: int): (steps: seq<Step>)
  {
    [Receive(ty, pid), Control(start == 0), Control(true), Control(true)]
  }

  /** The four steps of a control message, added up: ADD is 0, DEL 1, GET_PACKET 3, and nothing else is known. */
  lemma MsgResult(c: Config, s: State, ty: u16, pid: u32, start: int)
    requires s.control == Idle && s.table.Shaped()
    ensures Exec(c, s, MsgSteps(ty, pid, start)) ==
            if ty !in {0, 1, 3} || (s.daemon.NotStarted? && start != 0) then s
            else
              var s1 := if s.daemon.NotStarted? then s.(daemon := Dequeue) else s;
              if ty == 0 then
                s1.(portId := pid, table := U.Join(s.table, pid).0,
                    log := s.log.(ports := s.log.ports + [Added(pid)], tab := s.log.tab + [U.Joined(pid)]))
              else if ty == 1 then
                s1.(portId := 0, table := U.Leave(s.table, pid).0,
                    log := s.log.(ports := s.log.ports + [Deleted(pid)], tab := s.log.tab + [U.Left(pid)]))
              else s1
  {
    hide U.Join, U.Leave;
    FourSteps(c, s, Receive(ty, pid), Control(start == 0), Control(true), Control(true));
    hide Exec;
  }
}
