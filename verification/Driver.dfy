/**
 The module's code in its own form: global variables updated in place, the
 calls hook_func_queue, cap_buffer_alloc, cap_buffer_free, cap_receive_msg and
 the loops of kcapd_thread and cap_receive_skb.  Every shared action is proved
 to be one step of the machine, so every uninterrupted call is one of its runs.
 */
module Driver {
  import opened Prelude
  import opened Bytes
  import F = Framing
  import U = UserTab
  import R = RateLimit
  import opened Machine

  // ---- control messages ----

  /** What cap_receive_msg returns; `start` is the error kthread_run would report. */
  function MsgErr(s: State, ty: u16, start: int): (err: int)
  {
    if !KnownType(ty) then -F.EINVAL else if s.daemon.NotStarted? then start else 0
  }

  /**
   The receive loop from `off` with `rem` bytes left: final state and
   acknowledgements.  `starts` is what kthread_run would report to each message.
   */
  function HandleFrom(c: Config, s: State, buf: seq<byte>, off: nat, rem: int, starts: nat -> int)
    : (r: (State, seq<F.Ack>))
    requires off + rem <= |buf|
    decreases rem
  {
    if !F.Ok(buf, off, rem) then (s, [])
    else
      var h := F.ParseHeader(buf, off);
      var n := F.Align(h.len);
      var rest := HandleFrom(c, Exec(c, s, MsgSteps(h.ty, h.pid, starts(off))), buf, off + n, rem - n, starts);
      (rest.0, F.AckFor(off, MsgErr(s, h.ty, starts(off)), h.flags) + rest.1)
  }

  lemma HandleNext(c: Config, s: State, buf: seq<byte>, off: nat, rem: int, starts: nat -> int)
    requires off + rem <= |buf| && F.Ok(buf, off, rem)
    ensures var h := F.ParseHeader(buf, off);
            var n := F.Align(h.len);
            var rest := HandleFrom(c, Exec(c, s, MsgSteps(h.ty, h.pid, starts(off))), buf, off + n, rem - n, starts);
            && n == F.Align(F.MsgLen(buf, off)) && F.HDRLEN <= h.len <= rem
            && HandleFrom(c, s, buf, off, rem, starts)
               == (rest.0, F.AckFor(off, MsgErr(s, h.ty, starts(off)), h.flags) + rest.1)
  {
  }

  /** The same for a list of messages found at the given offsets. */
  function HandleList(c: Config, s: State, offs: seq<nat>, ms: seq<F.Message>, starts: nat -> int)
    : (r: (State, seq<F.Ack>))
    requires |offs| == |ms|
    decreases |ms|
  {
    if ms == [] then (s, [])
    else
      var m := ms[0];
      var rest := HandleList(c, Exec(c, s, MsgSteps(m.ty, m.pid, starts(offs[0]))), offs[1..], ms[1..], starts);
      (rest.0, F.AckFor(offs[0], MsgErr(s, m.ty, starts(offs[0])), m.flags) + rest.1)
  }

  lemma {:induction false} HandleWalk(c: Config, s: State, buf: seq<byte>, off: nat, rem: int,
                                      offs: seq<nat>, ms: seq<F.Message>, starts: nat -> int)
    requires off + rem <= |buf| && F.Walk(buf, off, rem) == offs && |offs| == |ms| && F.AllIntact(buf, offs, ms)
    ensures HandleFrom(c, s, buf, off, rem, starts) == HandleList(c, s, offs, ms, starts)
    decreases |ms|
  {
    hide *;
    if ms == [] {
      NoneLeft(c, s, buf, off, rem, starts);
    } else {
      F.WalkTail(buf, off, rem);
      F.FirstIntact(buf, offs, ms);
      var m, n := ms[0], F.Align(F.MsgLen(buf, off));
      SameHeader(buf, off, m);
      HandleNext(c, s, buf, off, rem, starts);
      var s1 := Exec(c, s, MsgSteps(m.ty, m.pid, starts(offs[0])));
      HandleWalk(c, s1, buf, off + n, rem - n, offs[1..], ms[1..], starts);
      ListNext(c, s, offs, ms, starts);
    }
  }

  lemma NoneLeft(c: Config, s: State, buf: seq<byte>, off: nat, rem: int, starts: nat -> int)
    requires off + rem <= |buf| && F.Walk(buf, off, rem) == []
    ensures HandleFrom(c, s, buf, off, rem, starts) == HandleList(c, s, [], [], starts)
  {
  }

  lemma ListNext(c: Config, s: State, offs: seq<nat>, ms: seq<F.Message>, starts: nat -> int)
    requires |offs| == |ms| && ms != []
    ensures var m := ms[0];
            var rest := HandleList(c, Exec(c, s, MsgSteps(m.ty, m.pid, starts(offs[0]))), offs[1..], ms[1..], starts);
            HandleList(c, s, offs, ms, starts)
            == (rest.0, F.AckFor(offs[0], MsgErr(s, m.ty, starts(offs[0])), m.flags) + rest.1)
  {
  }

  lemma SameHeader(buf: seq<byte>, off: nat, m: F.Message)
    requires F.IntactAt(buf, off, m)
    ensures var h := F.ParseHeader(buf, off); h.ty == m.ty && h.pid == m.pid && h.flags == m.flags
  {
  }

  /**
   A buffer that reads as a list of messages drives the module exactly as that
   list does: each message takes its four steps, in order.
   */
  lemma ReceivesList(c: Config, s: State, buf: seq<byte>, ms: seq<F.Message>, starts: nat -> int)
    requires F.ReadsAs(buf, ms)
    ensures HandleFrom(c, s, buf, 0, |buf|, starts) == HandleList(c, s, F.Offsets(0, ms), ms, starts)
  {
    HandleWalk(c, s, buf, 0, |buf|, F.Offsets(0, ms), ms, starts);
  }

  /** Message `j` would have kcapd started. */
  predicate Starts(offs: seq<nat>, ms: seq<F.Message>, starts: nat -> int, j: nat)
    requires |offs| == |ms|
  {
    j < |ms| && ms[j].ty in {0, 1, 3} && starts(offs[j]) == 0
  }

  /** The error of each message; `started` tells whether kcapd runs already. */
  function Errs(started: bool, offs: seq<nat>, ms: seq<F.Message>, starts: nat -> int): (errs: seq<int>)
    requires |offs| == |ms|
    ensures |errs| == |ms|
    decreases |ms|
  {
    if ms == [] then []
    else
      [if !KnownType(ms[0].ty) then -F.EINVAL else if started then 0 else starts(offs[0])]
      + Errs(started || Starts(offs, ms, starts, 0), offs[1..], ms[1..], starts)
  }

  /** Types but 0, 1 and 3 are errors; these are none once kcapd runs, started before or by an earlier message. */
  lemma {:induction false} ErrsExactly(started: bool, offs: seq<nat>, ms: seq<F.Message>, starts: nat -> int, i: nat)
    requires |offs| == |ms| && i < |ms|
    ensures Errs(started, offs, ms, starts)[i]
            == if ms[i].ty !in {0, 1, 3} then -22
               else if started || exists j :: 0 <= j < i && Starts(offs, ms, starts, j) then 0
               else starts(offs[i])
    decreases |ms|
  {
    if i > 0 {
      ErrsExactly(started || Starts(offs, ms, starts, 0), offs[1..], ms[1..], starts, i - 1);
      forall j | 0 <= j < i - 1 ensures Starts(offs[1..], ms[1..], starts, j) == Starts(offs, ms, starts, j + 1) {
      }
      if j :| 0 < j < i && Starts(offs, ms, starts, j) {
        assert Starts(offs[1..], ms[1..], starts, j - 1);
      }
    }
  }

  /**
   Exactly the messages that failed, or carry the ACK flag, are acknowledged,
   once each, in order, with their own error.
   */
  lemma {:induction false} AcksExactly(c: Config, s: State, offs: seq<nat>, ms: seq<F.Message>, starts: nat -> int)
    returns (idx: seq<nat>)
    requires |offs| == |ms| && s.control == Idle && s.table.Shaped()
    ensures F.Answers(HandleList(c, s, offs, ms, starts).1, offs, ms,
                      Errs(!s.daemon.NotStarted?, offs, ms, starts), idx)
    decreases |ms|
  {
    idx := [];
    if ms != [] {
      hide F.Answers, F.AckFor, Exec, U.Join, U.Leave;
      var m := ms[0];
      var s1 := Exec(c, s, MsgSteps(m.ty, m.pid, starts(offs[0])));
      MsgResult(c, s, m.ty, m.pid, starts(offs[0]));
      var rest := AcksExactly(c, s1, offs[1..], ms[1..], starts);
      var errs := Errs(!s.daemon.NotStarted?, offs, ms, starts);
      assert errs[1..] == Errs(!s1.daemon.NotStarted?, offs[1..], ms[1..], starts);
      idx := F.AnswersNext(HandleList(c, s1, offs[1..], ms[1..], starts).1, offs, ms, errs, rest);
    }
  }

  /** What message `m` asks of the user table. */
  function EventOf(m: F.Message): (e: U.Event) { if m.ty == 0 then U.Joined(m.pid) else U.Left(m.pid) }

  /**
   The requests are those of the messages number idx[0] < idx[1] < ..., and
   these are exactly the ADDs and DELs without error.
   */
  ghost predicate Requested(es: seq<U.Event>, ms: seq<F.Message>, errs: seq<int>, idx: seq<nat>)
    requires |errs| == |ms|
  {
    Increasing(idx) && EventsOf(es, ms, idx) && Effective(ms, errs, idx)
  }

  ghost predicate EventsOf(es: seq<U.Event>, ms: seq<F.Message>, idx: seq<nat>)
  {
    |idx| == |es| && forall k | 0 <= k < |idx| :: idx[k] < |ms| && es[k] == EventOf(ms[idx[k]])
  }

  ghost predicate Effective(ms: seq<F.Message>, errs: seq<int>, idx: seq<nat>)
    requires |errs| == |ms|
  {
    forall i | 0 <= i < |ms| :: i in idx <==> ms[i].ty <= 1 && errs[i] == 0
  }

  /** The port id after the requests: what the last one dictates. */
  function PortAfter(port: u32, es: seq<U.Event>): (p: u32)
  {
    if es == [] then port
    else match es[|es| - 1]
      case Joined(pid) => pid
      case _ => 0
  }

  lemma RequestedNext(es: seq<U.Event>, ms: seq<F.Message>, errs: seq<int>, idx: seq<nat>)
    returns (all: seq<U.Event>, idx': seq<nat>)
    requires |errs| == |ms| && ms != [] && Requested(es, ms[1..], errs[1..], idx)
    ensures all == (if ms[0].ty <= 1 && errs[0] == 0 then [EventOf(ms[0])] else []) + es
    ensures Requested(all, ms, errs, idx')
  {
    hide Increasing, EventsOf, Effective, Shifted, EventOf;
    var first := ms[0].ty <= 1 && errs[0] == 0;
    all := (if first then [EventOf(ms[0])] else []) + es;
    idx' := if first then [0] + Shifted(idx) else Shifted(idx);
    assert [] + es == es;
    IncreasingNext(idx);
    EventsNext(es, ms, idx);
    EffectiveNext(ms, errs, idx);
  }

  lemma EventsNext(es: seq<U.Event>, ms: seq<F.Message>, idx: seq<nat>)
    requires ms != [] && EventsOf(es, ms[1..], idx)
    ensures EventsOf(es, ms, Shifted(idx)) && EventsOf([EventOf(ms[0])] + es, ms, [0] + Shifted(idx))
  {
    hide Shifted, EventOf;
  }

  lemma EffectiveNext(ms: seq<F.Message>, errs: seq<int>, idx: seq<nat>)
    requires |errs| == |ms| && ms != [] && Effective(ms[1..], errs[1..], idx)
    ensures Effective(ms, errs, if ms[0].ty <= 1 && errs[0] == 0 then [0] + Shifted(idx) else Shifted(idx))
  {
    hide Shifted;
    forall i | 0 <= i < |ms| ensures i in Shifted(idx) <==> i > 0 && ms[i].ty <= 1 && errs[i] == 0 {
      ShiftedMember(idx, i);
      assert i > 0 ==> ms[i] == ms[1..][i - 1] && errs[i] == errs[1..][i - 1];
    }
  }

  lemma PortAfterMore(port: u32, es: seq<U.Event>, more: seq<U.Event>)
    ensures PortAfter(port, es + more) == PortAfter(PortAfter(port, es), more)
  {
    assert es + [] == es;
  }

  /** Only the table, the port id, the daemon and two histories differ. */
  predicate SameRest(s: State, s': State)
  {
    && s' == s.(table := s'.table, portId := s'.portId, daemon := s'.daemon, log := s'.log)
    && s'.log == s.log.(ports := s'.log.ports, tab := s'.log.tab)
  }

  /** What one message does. */
  lemma HandledOne(c: Config, s: State, m: F.Message, start: int)
    requires s.control == Idle && s.table.Shaped()
    ensures var s' := Exec(c, s, MsgSteps(m.ty, m.pid, start));
            var es := if m.ty <= 1 && (s.daemon != NotStarted || start == 0) then [EventOf(m)] else [];
            && s'.control == Idle && s'.table.Shaped() && SameRest(s, s')
            && s'.table == U.Run(s.table, es) && s'.portId == PortAfter(s.portId, es)
            && s'.daemon == if s.daemon == NotStarted && m.ty in {0, 1, 3} && start == 0 then Dequeue else s.daemon
  {
    hide Exec, MsgSteps, U.Join, U.Leave;
    MsgResult(c, s, m.ty, m.pid, start);
    U.RunOne(s.table, EventOf(m));
  }

  /**
   What a list of messages does: the table and the port id see exactly the ADDs
   and DELs without error, once each and in order; kcapd runs afterwards exactly
   if it did before or some message starts it; nothing else changes.
   */
  lemma {:induction false} HandledExactly(c: Config, s: State, offs: seq<nat>, ms: seq<F.Message>, starts: nat -> int)
    returns (es: seq<U.Event>, idx: seq<nat>)
    requires |offs| == |ms| && s.control == Idle && s.table.Shaped()
    ensures var s' := HandleList(c, s, offs, ms, starts).0;
            && Requested(es, ms, Errs(!s.daemon.NotStarted?, offs, ms, starts), idx)
            && s'.table == U.Run(s.table, es) && s'.portId == PortAfter(s.portId, es)
            && s'.daemon == (if s.daemon == NotStarted && exists j :: 0 <= j < |ms| && Starts(offs, ms, starts, j)
                             then Dequeue else s.daemon)
            && SameRest(s, s')
    decreases |ms|
  {
    es, idx := [], [];
    if ms != [] {
      hide Exec, U.Run, Requested, Errs, PortAfter, MsgSteps, EventOf;
      var m, start := ms[0], starts(offs[0]);
      var s1 := Exec(c, s, MsgSteps(m.ty, m.pid, start));
      HandledOne(c, s, m, start);
      var es1, idx1 := HandledExactly(c, s1, offs[1..], ms[1..], starts);
      ErrsFirst(!s.daemon.NotStarted?, offs, ms, starts);
      es, idx := RequestedNext(es1, ms, Errs(!s.daemon.NotStarted?, offs, ms, starts), idx1);
      StartsNext(offs, ms, starts);
      var first := es[..|es| - |es1|];
      assert es == first + es1;
      PortAfterMore(s.portId, first, es1);
      U.RunAppend(s.table, first, es1);
    }
  }

  /**
   cap_receive_skb on any buffer, by the one list of messages it reads as: what
   the table and the port id see, and what is acknowledged, exactly and in order.
   */
  lemma ReceivesExactly(c: Config, s: State, buf: seq<byte>, ms: seq<F.Message>, starts: nat -> int)
    returns (es: seq<U.Event>, idx: seq<nat>, acked: seq<nat>)
    requires F.ReadsAs(buf, ms) && s.control == Idle && s.table.Shaped()
    ensures var (s', acks) := HandleFrom(c, s, buf, 0, |buf|, starts);
            var offs := F.Offsets(0, ms);
            var errs := Errs(!s.daemon.NotStarted?, offs, ms, starts);
            && Requested(es, ms, errs, idx) && F.Answers(acks, offs, ms, errs, acked)
            && s'.table == U.Run(s.table, es) && s'.portId == PortAfter(s.portId, es) && SameRest(s, s')
  {
    hide HandleFrom, HandleList, F.ReadsAs, F.Offsets, Errs, Requested, F.Answers, U.Run, PortAfter, SameRest;
    ReceivesList(c, s, buf, ms, starts);
    es, idx := HandledExactly(c, s, F.Offsets(0, ms), ms, starts);
    acked := AcksExactly(c, s, F.Offsets(0, ms), ms, starts);
  }

  lemma ErrsFirst(started: bool, offs: seq<nat>, ms: seq<F.Message>, starts: nat -> int)
    requires |offs| == |ms| && ms != []
    ensures var errs := Errs(started, offs, ms, starts);
            && errs[0] == (if ms[0].ty !in {0, 1, 3} then -22 else if started then 0 else starts(offs[0]))
            && errs[1..] == Errs(started || Starts(offs, ms, starts, 0), offs[1..], ms[1..], starts)
  {
  }

  lemma StartsNext(offs: seq<nat>, ms: seq<F.Message>, starts: nat -> int)
    requires |offs| == |ms| && ms != []
    ensures (exists j :: 0 <= j < |ms| && Starts(offs, ms, starts, j))
            <==> || Starts(offs, ms, starts, 0)
                 || exists j :: 0 <= j < |ms[1..]| && Starts(offs[1..], ms[1..], starts, j)
  {
    forall j | 0 <= j < |ms| - 1 ensures Starts(offs[1..], ms[1..], starts, j) == Starts(offs, ms, starts, j + 1) {
    }
    if j :| 0 < j < |ms| && Starts(offs, ms, starts, j) {
      assert Starts(offs[1..], ms[1..], starts, j - 1);
    }
  }

  /** The outcome of the next send; a missing one is a refusal. */
  function Outcome(outcomes: seq<bool>): (ok: bool) { outcomes != [] && outcomes[0] }

  function Later(outcomes: seq<bool>): (rest: seq<bool>) { if outcomes == [] then [] else outcomes[1..] }

  /** Sending a whole queue in order, with the given outcomes, while nobody else writes the port id. */
  function Sendings(queue: seq<nat>, port: u32, outcomes: seq<bool>): (sent: seq<Sending>)
    ensures |sent| == |queue|
    decreases |queue|
  {
    if queue == [] then []
    else
      var ok := Outcome(outcomes);
      [Sending(queue[0], port, ok)] + Sendings(queue[1..], if ok then port else 0, Later(outcomes))
  }

  /** The queue goes out in order, to the listener until the first refusal and to port 0 from then on. */
  lemma {:induction false} SendingsAre(queue: seq<nat>, port: u32, outcomes: seq<bool>, i: nat)
    requires i < |queue|
    ensures var sent := Sendings(queue, port, outcomes);
            && sent[i].skb == queue[i] && sent[i].ok == (i < |outcomes| && outcomes[i])
            && sent[i].to == if forall k | 0 <= k < i :: sent[k].ok then port else 0
    decreases |queue|
  {
    if i > 0 {
      var sent := Sendings(queue, port, outcomes);
      var rest := Sendings(queue[1..], if Outcome(outcomes) then port else 0, Later(outcomes));
      assert forall k | 0 < k <= i :: sent[k] == rest[k - 1];
      SendingsAre(queue[1..], if Outcome(outcomes) then port else 0, Later(outcomes), i - 1);
      if forall k | 0 <= k < i :: sent[k].ok {
        assert sent[0].ok;
        forall k | 0 <= k < i - 1 ensures rest[k].ok { assert sent[k + 1].ok; }
      }
      assert forall k | 0 <= k < i - 1 :: rest[k] == sent[k + 1];
    }
  }

  lemma SendingsNext(sent: seq<Sending>, queue: seq<nat>, port: u32, outcomes: seq<bool>)
    requires queue != []
    ensures var ok := Outcome(outcomes);
            sent + Sendings(queue, port, outcomes)
            == sent + [Sending(queue[0], port, ok)] + Sendings(queue[1..], if ok then port else 0, Later(outcomes))
  {
  }

  /** Nothing comes in: the two tests find the queue empty, and kcapd sleeps. */
  lemma Sleeps(c: Config, s: State)
    requires s.daemon == WaitTest && s.queue == []
    ensures Exec(c, s, [Daemon(true), Daemon(true), Daemon(true), Daemon(true)]) == s.(daemon := Asleep)
  {
    hide Exec, HookStep, ControlStep, Ref;
    FourSteps(c, s, Daemon(true), Daemon(true), Daemon(true), Daemon(true));
  }

  lemma SendingsDone(sent: seq<Sending>, port: u32, outcomes: seq<bool>)
    ensures sent + Sendings([], port, outcomes) == sent
  {
  }

  /** What taking one buffer leaves. */
  function Rest(list: seq<nat>): (rest: seq<nat>) { if list == [] then [] else list[1..] }

  /** The module's variables, with the program counters and the history of the model beside them. */
  class CaptureModule {
    const c: Config
    const users: U.UserTable
    const limiter: R.RateChecker
    var freelist: seq<nat>
    var freeCount: int
    var bufs: seq<Buffer>
    var skbs: seq<Skb>
    var queue: seq<nat>
    var portId: u32
    var now: nat
    var hooks: seq<HookPc>
    var daemon: DaemonPc
    var control: ControlPc
    var log: Log

    ghost predicate Valid() { users.Valid() }

    ghost function View(): (s: State)
      requires Valid()
      reads this, users, users.pids, limiter
      ensures s.table.Shaped()
    {
      State(freelist, freeCount, bufs, skbs, queue, portId, users.View(), limiter.View(), now,
            hooks, daemon, control, log)
    }

    constructor (c: Config)
      ensures Valid() && View() == Init() && this.c == c
      ensures fresh(users) && fresh(users.pids) && fresh(limiter)
    {
      this.c := c;
      users := new U.UserTable();
      limiter := new R.RateChecker();
      freelist, freeCount, bufs, skbs, queue, portId, now := [], 0, [], [], [], 0, 0;
      hooks, daemon, control := [], NotStarted, Idle;
      log := Log([], [], [], [], [], []);
    }

    /** Hook `h` moves on. */
    method Goto(h: nat, pc: HookPc)
      requires Valid() && h < |hooks|
      modifies this`hooks
      ensures View() == At(old(View()), h, pc)
    {
      hooks := hooks[h := pc];
    }

    // ---- cap_buffer_alloc and cap_buffer_free ----

    /** The locked section that takes a buffer off the freelist. */
    method TakeFree(h: nat, pkt: Packet) returns (cb: Option<nat>)
      requires Valid() && h < |hooks| && hooks[h] == TakeBuffer(pkt)
      modifies `freelist, `freeCount, `hooks
      ensures if old(freelist) == [] then cb == None && freelist == [] && freeCount == old(freeCount)
              else cb == Some(old(freelist[0])) && freelist == old(freelist[1..]) && freeCount == old(freeCount) - 1
      ensures View() == Apply(c, old(View()), Hook(h, true)) && h < |hooks|
      ensures hooks[h] == match cb case None => Kmalloc(pkt) case Some(b) => NewSkb(pkt, b)
    {
      cb := None;
      if freelist != [] {
        cb := Some(freelist[0]);
        freelist := freelist[1..];
        freeCount := freeCount - 1;
      }
      Goto(h, match cb case None => Kmalloc(pkt) case Some(b) => NewSkb(pkt, b));
    }

    /** kmalloc of a zeroed buffer, or NULL on the way to cap_buffer_free. */
    method KmallocBuffer(h: nat, pkt: Packet, ok: bool) returns (cb: Option<nat>)
      requires Valid() && h < |hooks| && hooks[h] == Kmalloc(pkt)
      modifies `bufs, `hooks
      ensures cb == if ok then Some(old(|bufs|)) else None
      ensures View() == Apply(c, old(View()), Hook(h, ok)) && h < |hooks|
      ensures hooks[h] == match cb case None => FreeBuffer(None) case Some(b) => NewSkb(pkt, b)
    {
      if ok {
        cb := Some(|bufs|);
        bufs := bufs + [Buffer(None, true)];
        Goto(h, NewSkb(pkt, cb.value));
      } else {
        cb := None;
        Goto(h, FreeBuffer(None));
      }
    }

    /** cb->skb = nlmsg_new(...) */
    method NewMessage(h: nat, pkt: Packet, cb: nat, ok: bool) returns (skb: Option<nat>)
      requires Valid() && h < |hooks| && hooks[h] == NewSkb(pkt, cb)
      modifies `skbs, `bufs, `hooks
      ensures if ok then skb == Some(old(|skbs|)) else skb == None
      ensures View() == Apply(c, old(View()), Hook(h, ok)) && h < |hooks|
      ensures hooks[h] == match skb case None => FreeBuffer(Some(cb)) case Some(k) => PutMsg(cb, k)
      ensures ok ==> |skbs| == old(|skbs|) + 1 && skbs[|skbs| - 1].packet == pkt
    {
      skb := None;
      if ok {
        skb := Some(|skbs|);
        skbs := skbs + [Skb(1, [], pkt, 0, h, InHook(h))];
      }
      bufs := SetField(bufs, cb, skb);
      Goto(h, match skb case None => FreeBuffer(Some(cb)) case Some(k) => PutMsg(cb, k));
    }

    /** nlmsg_put and the copy of the packet, or the release of the skb. */
    method PutMessage(h: nat, pkt: Packet, cb: nat, skb: nat) returns (ok: bool)
      requires Valid() && h < |hooks| && hooks[h] == PutMsg(cb, skb)
      requires skb < |skbs| && skbs[skb].packet == pkt
      modifies `skbs, `bufs, `hooks
      ensures ok == Fits(c, pkt)
      ensures |skbs| == old(|skbs|) && skbs[skb].packet == pkt
      ensures View() == Apply(c, old(View()), Hook(h, true)) && h < |hooks|
      ensures hooks[h] == if ok then RateCheck(cb, skb) else FreeBuffer(Some(cb))
    {
      ok := Fits(c, pkt);
      if ok {
        skbs := skbs[skb := skbs[skb].(bytes := PutBytes(c, portId, pkt), dest := portId)];
        Goto(h, RateCheck(cb, skb));
      } else {
        skbs := Ref(skbs, skb, -1, Freed);
        bufs := SetField(bufs, cb, None);
        Goto(h, FreeBuffer(Some(cb)));
      }
    }

    /**
     cap_buffer_free: its test reads cb->skb when there is no buffer; otherwise
     the buffer goes back on the list, or to kfree when the list is full.
     */
    method CapBufferFree(h: nat, cb: Option<nat>)
      requires Valid() && h < |hooks| && hooks[h] == FreeBuffer(cb)
      modifies `bufs, `freelist, `freeCount, `hooks
      ensures View() == Apply(c, old(View()), Hook(h, true)) && h < |hooks|
      ensures hooks[h] == if cb == None then Faulted else Returned
      ensures freelist == if cb.Some? && old(freeCount) < 1024 then [cb.value] + old(freelist) else old(freelist)
    {
      if cb == None {
        Goto(h, Faulted);
        return;
      }
      if freeCount >= MAX_FREE {
        bufs := Kill(bufs, cb.value);
      } else {
        freeCount := freeCount + 1;
        freelist := [cb.value] + freelist;
      }
      Goto(h, Returned);
    }

    /** cap_buffer_alloc without interference. */
    method CapBufferAlloc(h: nat, pkt: Packet, kmallocOk: bool, newOk: bool)
      returns (r: Option<(nat, nat)>, ghost steps: seq<Step>)
      requires Valid() && h < |hooks| && hooks[h] == TakeBuffer(pkt)
      modifies `bufs, `skbs, `freelist, `freeCount, `hooks
      ensures r.Some? <==> old(freelist != [] || kmallocOk) && newOk && Fits(c, pkt)
      ensures r.Some? ==> r.value.1 == old(|skbs|) < |skbs| && skbs[r.value.1].packet == pkt
      ensures View() == Exec(c, old(View()), steps) && h < |hooks|
      ensures r.Some? ==> hooks[h] == RateCheck(r.value.0, r.value.1)
      ensures r == None ==> hooks[h] == if old(freelist) == [] && !kmallocOk then Faulted else Returned
      ensures r.Some? ==> r.value.0 == if old(freelist) == [] then old(|bufs|) else old(freelist[0])
      ensures r.Some? ==> freelist == Rest(old(freelist)) && freeCount == old(freeCount) - One(old(freelist) != [])
      ensures r == None && old(freeCount == |freelist| <= 1024) ==>
                freelist == if old(freelist) == [] && kmallocOk then [old(|bufs|)] else old(freelist)
    {
      hide Exec, Apply, Fits;
      ghost var s0 := View();
      steps := [Hook(h, true)];
      var cb := TakeFree(h, pkt);
      ExecFirst(c, s0, Hook(h, true));
      if cb == None {
        cb := KmallocBuffer(h, pkt, kmallocOk);
        ExecOne(c, s0, steps, Hook(h, kmallocOk));
        steps := steps + [Hook(h, kmallocOk)];
        if cb == None {
          CapBufferFree(h, None);
          ExecOne(c, s0, steps, Hook(h, true));
          return None, steps + [Hook(h, true)];
        }
      }
      ghost var rest;
      r, rest := FillBuffer(h, pkt, cb.value, newOk);
      ExecAppend(c, s0, steps, rest);
      steps := steps + rest;
    }

    /** cap_buffer_alloc once it has a buffer: the skb and its message, or the buffer goes back. */
    method FillBuffer(h: nat, pkt: Packet, cb: nat, newOk: bool)
      returns (r: Option<(nat, nat)>, ghost steps: seq<Step>)
      requires Valid() && h < |hooks| && hooks[h] == NewSkb(pkt, cb)
      modifies `bufs, `skbs, `freelist, `freeCount, `hooks
      ensures r.Some? <==> newOk && Fits(c, pkt)
      ensures r.Some? ==> r.value == (cb, old(|skbs|)) && old(|skbs|) < |skbs| && skbs[old(|skbs|)].packet == pkt
      ensures View() == Exec(c, old(View()), steps) && h < |hooks|
      ensures hooks[h] == if r.Some? then RateCheck(cb, r.value.1) else Returned
      ensures r.Some? ==> freelist == old(freelist) && freeCount == old(freeCount)
      ensures r == None ==> freelist == if old(freeCount) < 1024 then [cb] + old(freelist) else old(freelist)
    {
      hide Exec, Apply, Fits;
      ghost var s0 := View();
      var skb := NewMessage(h, pkt, cb, newOk);
      ExecFirst(c, s0, Hook(h, newOk));
      steps := [Hook(h, newOk)];
      if skb != None {
        var ok := PutMessage(h, pkt, cb, skb.value);
        ExecOne(c, s0, steps, Hook(h, true));
        steps := steps + [Hook(h, true)];
        if ok {
          return Some((cb, skb.value)), steps;
        }
      }
      CapBufferFree(h, Some(cb));
      ExecOne(c, s0, steps, Hook(h, true));
      steps := steps + [Hook(h, true)];
      r := None;
    }

    // ---- hook_func_queue ----

    method Arrival(pkt: Packet) returns (h: nat)
      requires Valid()
      modifies `hooks, `log
      ensures View() == Apply(c, old(View()), Arrive(pkt)) && h < |hooks| && hooks[h] == PortTest(pkt)
    {
      h := |hooks|;
      hooks := hooks + [PortTest(pkt)];
      log := log.(arrived := log.arrived + [pkt]);
    }

    method TestPort(h: nat, pkt: Packet) returns (captured: bool)
      requires Valid() && h < |hooks| && hooks[h] == PortTest(pkt)
      modifies `hooks
      ensures captured == (portId != 0)
      ensures View() == Apply(c, old(View()), Hook(h, true)) && h < |hooks|
      ensures hooks[h] == if captured then TakeBuffer(pkt) else Returned
    {
      captured := portId != 0;
      Goto(h, if captured then TakeBuffer(pkt) else Returned);
    }

    method CapRateCheck(h: nat, cb: nat, skb: nat) returns (ok: bool)
      requires Valid() && h < |hooks| && hooks[h] == RateCheck(cb, skb)
      modifies `hooks, `log, limiter
      ensures ok == R.Admits(c.rate, old(limiter.View()), now)
      ensures View() == Apply(c, old(View()), Hook(h, true)) && h < |hooks|
      ensures hooks[h] == if ok then Enqueue(cb, skb) else RateLimited(cb, skb)
    {
      ok := limiter.Check(c.rate, now);
      log := log.(checks := log.checks + [now]);
      Goto(h, if ok then Enqueue(cb, skb) else RateLimited(cb, skb));
    }

    /** nlh->nlmsg_len = skb->len; skb_queue_tail */
    method QueueTail(h: nat, cb: nat, skb: nat)
      requires Valid() && h < |hooks| && hooks[h] == Enqueue(cb, skb)
      modifies `skbs, `queue, `hooks, `log
      ensures queue == old(queue) + [skb] && |skbs| == old(|skbs|)
      ensures skb < |skbs| ==> skbs[skb].packet == old(skbs[skb].packet)
      ensures View() == Apply(c, old(View()), Hook(h, true)) && h < |hooks| && hooks[h] == Wake(cb)
    {
      if skb < |skbs| {
        skbs := skbs[skb := skbs[skb].(bytes := Rewritten(skbs[skb].bytes), place := Queued)];
      }
      queue := queue + [skb];
      log := log.(enqueued := log.enqueued + [skb]);
      Goto(h, Wake(cb));
    }

    method WakeUp(h: nat, cb: nat)
      requires Valid() && h < |hooks| && hooks[h] == Wake(cb)
      modifies `daemon, `hooks
      ensures View() == Apply(c, old(View()), Hook(h, true)) && h < |hooks| && hooks[h] == ClearSkb(cb)
    {
      daemon := Woken(daemon);
      Goto(h, ClearSkb(cb));
    }

    method ForgetSkb(h: nat, cb: nat)
      requires Valid() && h < |hooks| && hooks[h] == ClearSkb(cb)
      modifies `bufs, `hooks
      ensures View() == Apply(c, old(View()), Hook(h, true)) && h < |hooks| && hooks[h] == FreeBuffer(Some(cb))
    {
      bufs := SetField(bufs, cb, None);
      Goto(h, FreeBuffer(Some(cb)));
    }

    /**
     hook_func_queue without interference: a run of the machine that ends with
     the hook finished; it queues the packet exactly when someone listens, a
     buffer and an skb can be had, the packet fits and the limiter admits it,
     and dereferences NULL exactly when someone listens and no buffer can be had.
     The buffer it took, or a new one, is back on the freelist afterwards, unless
     the limiter stopped the packet.
     */
    method HookFuncQueue(pkt: Packet, kmallocOk: bool, newOk: bool)
      returns (queued: bool, h: nat, ghost steps: seq<Step>)
      requires Valid()
      modifies `skbs, `queue, `daemon, `bufs, `freelist, `freeCount, `hooks, `log, limiter
      ensures queued <==> portId != 0 && (old(freelist != []) || kmallocOk) && newOk
                          && F.Align(16 + |pkt|) <= c.tailroom && R.Admits(c.rate, old(limiter.View()), now)
      ensures queue == old(queue) + if queued then [old(|skbs|)] else []
      ensures queued ==> old(|skbs|) < |skbs| && skbs[old(|skbs|)].packet == pkt
      ensures View() == Exec(c, old(View()), steps)
      ensures h < |hooks| && Finished(hooks[h])
      ensures hooks[h] == Faulted <==> portId != 0 && old(freelist) == [] && !kmallocOk
      ensures old(freeCount == |freelist| <= 1024) ==>
                freelist == if portId == 0 || hooks[h] == Faulted then old(freelist)
                            else if hooks[h].RateLimited? then Rest(old(freelist))
                            else if old(freelist) == [] then [old(|bufs|)]
                            else old(freelist)
      ensures hooks[h].RateLimited? <==> portId != 0 && (old(freelist != []) || kmallocOk) && newOk
                                         && F.Align(16 + |pkt|) <= c.tailroom
                                         && !R.Admits(c.rate, old(limiter.View()), now)
    {
      hide Exec, Apply, F.Align, R.Admits;
      queued := false;
      ghost var s0 := View();
      h := Arrival(pkt);
      steps := [Arrive(pkt)];
      ExecFirst(c, s0, Arrive(pkt));
      var captured := TestPort(h, pkt);
      ExecOne(c, s0, steps, Hook(h, true));
      steps := steps + [Hook(h, true)];
      if captured {
        var r, alloc := CapBufferAlloc(h, pkt, kmallocOk, newOk);
        ExecAppend(c, s0, steps, alloc);
        steps := steps + alloc;
        if r.Some? {
          ghost var rest;
          queued, rest := Offer(h, r.value.0, r.value.1);
          ExecAppend(c, s0, steps, rest);
          steps := steps + rest;
        }
      }
    }

    /** The rate check and what follows it. */
    method Offer(h: nat, cb: nat, skb: nat) returns (queued: bool, ghost steps: seq<Step>)
      requires Valid() && h < |hooks| && hooks[h] == RateCheck(cb, skb)
      modifies `skbs, `queue, `daemon, `bufs, `freelist, `freeCount, `hooks, `log, limiter
      ensures queued == R.Admits(c.rate, old(limiter.View()), now)
      ensures queue == (if queued then old(queue) + [skb] else old(queue)) && |skbs| == old(|skbs|)
      ensures skb < |skbs| ==> skbs[skb].packet == old(skbs[skb].packet)
      ensures View() == Exec(c, old(View()), steps)
      ensures h < |hooks| && hooks[h] == if queued then Returned else RateLimited(cb, skb)
      ensures freelist == if queued && old(freeCount) < 1024 then [cb] + old(freelist) else old(freelist)
    {
      hide Exec, Apply, R.Admits;
      ghost var s0 := View();
      queued := CapRateCheck(h, cb, skb);
      steps := [Hook(h, true)];
      ExecFirst(c, s0, Hook(h, true));
      if queued {
        ghost var rest := Deliver(h, cb, skb);
        ExecAppend(c, s0, steps, rest);
        steps := steps + rest;
      }
    }

    /** The admitted branch of hook_func_queue. */
    method Deliver(h: nat, cb: nat, skb: nat) returns (ghost steps: seq<Step>)
      requires Valid() && h < |hooks| && hooks[h] == Enqueue(cb, skb)
      modifies `skbs, `queue, `daemon, `bufs, `freelist, `freeCount, `hooks, `log
      ensures queue == old(queue) + [skb] && |skbs| == old(|skbs|)
      ensures skb < |skbs| ==> skbs[skb].packet == old(skbs[skb].packet)
      ensures View() == Exec(c, old(View()), steps)
      ensures h < |hooks| && hooks[h] == Returned
      ensures freelist == if old(freeCount) < 1024 then [cb] + old(freelist) else old(freelist)
    {
      hide Exec, Apply;
      ghost var s0 := View();
      QueueTail(h, cb, skb);
      steps := [Hook(h, true)];
      ExecFirst(c, s0, Hook(h, true));
      WakeUp(h, cb);
      ExecOne(c, s0, steps, Hook(h, true));
      steps := steps + [Hook(h, true)];
      ForgetSkb(h, cb);
      ExecOne(c, s0, steps, Hook(h, true));
      steps := steps + [Hook(h, true)];
      CapBufferFree(h, Some(cb));
      ExecOne(c, s0, steps, Hook(h, true));
      steps := steps + [Hook(h, true)];
    }

    // ---- kcapd_thread ----

    method SkbDequeue() returns (skb: Option<nat>)
      requires Valid() && daemon == Dequeue
      modifies `skbs, `queue, `daemon
      ensures View() == Apply(c, old(View()), Daemon(true))
      ensures if old(queue) == [] then skb == None && queue == [] && daemon == WaitTest
              else skb == Some(old(queue[0])) && daemon == GetRef(skb.value) && queue == old(queue[1..])
    {
      if queue == [] {
        skb := None;
        daemon := WaitTest;
      } else {
        skb := Some(queue[0]);
        skbs := Ref(skbs, queue[0], 0, InHand);
        daemon := GetRef(queue[0]);
        queue := queue[1..];
      }
    }

    method SkbGet(skb: nat)
      requires Valid() && daemon == GetRef(skb)
      modifies `skbs, `daemon
      ensures View() == Apply(c, old(View()), Daemon(true)) && daemon == Unicast(skb)
      ensures |skbs| == old(|skbs|) && (skb < |skbs| ==> skbs[skb].refs == old(skbs[skb].refs) + 1)
    {
      skbs := Ref(skbs, skb, 1, InHand);
      daemon := Unicast(skb);
    }

    /** netlink_unicast takes one reference whether it delivers or not. */
    method NetlinkUnicast(skb: nat, ok: bool)
      requires Valid() && daemon == Unicast(skb)
      modifies `skbs, `daemon, `log
      ensures View() == Apply(c, old(View()), Daemon(ok)) && log.sent == old(log.sent) + [Sending(skb, portId, ok)]
      ensures daemon == if ok then Consume(skb) else ClearPort(skb)
      ensures |skbs| == old(|skbs|) && (skb < |skbs| ==> skbs[skb].refs == old(skbs[skb].refs) - 1)
    {
      skbs := Ref(skbs, skb, -1, Sent(ok));
      log := log.(sent := log.sent + [Sending(skb, portId, ok)]);
      daemon := if ok then Consume(skb) else ClearPort(skb);
    }

    /** A refusal clears the port id and keeps the reference; a delivery drops it. */
    method AfterSend(skb: nat, ok: bool)
      requires Valid() && daemon == if ok then Consume(skb) else ClearPort(skb)
      modifies `skbs, `portId, `daemon, `log
      ensures View() == Apply(c, old(View()), Daemon(true)) && log.sent == old(log.sent) && daemon == Dequeue
      ensures portId == if ok then old(portId) else 0
      ensures |skbs| == old(|skbs|) && (skb < |skbs| ==> skbs[skb].refs == old(skbs[skb].refs) - One(ok))
    {
      if ok {
        skbs := Ref(skbs, skb, -1, Sent(true));
      } else {
        portId := 0;
        log := log.(ports := log.ports + [Refused]);
      }
      daemon := Dequeue;
    }

    /** kcapd_send_reply */
    method KcapdSendReply(skb: nat, ok: bool) returns (ghost steps: seq<Step>)
      requires Valid() && daemon == GetRef(skb)
      modifies `skbs, `portId, `daemon, `log
      ensures View() == Exec(c, old(View()), steps) && daemon == Dequeue && queue == old(queue)
      ensures log.sent == old(log.sent) + [Sending(skb, old(portId), ok)]
      ensures portId == if ok then old(portId) else 0
      ensures |skbs| == old(|skbs|) && (skb < |skbs| ==> skbs[skb].refs == old(skbs[skb].refs) - One(ok))
    {
      hide Exec, Apply;
      ghost var s0 := View();
      SkbGet(skb);
      steps := [Daemon(true)];
      ExecFirst(c, s0, Daemon(true));
      NetlinkUnicast(skb, ok);
      ExecOne(c, s0, steps, Daemon(ok));
      steps := steps + [Daemon(ok)];
      AfterSend(skb, ok);
      ExecOne(c, s0, steps, Daemon(true));
      steps := steps + [Daemon(true)];
    }

    /** The parts of wait_event_freezable with the queue still empty. */
    method WaitEvent() returns (ghost steps: seq<Step>)
      requires Valid() && daemon == WaitTest && queue == []
      modifies this`daemon
      ensures View() == Exec(c, old(View()), steps) && daemon == Asleep
    {
      hide Exec;
      ghost var s0 := View();
      steps := [Daemon(true), Daemon(true), Daemon(true), Daemon(true)];
      Sleeps(c, s0);
      daemon := Asleep;
    }

    /**
     One activation of the kcapd_thread loop without interference: it sends the
     whole queue in order, one message per turn whatever the outcomes, and sleeps.
     */
    method KcapdThread(outcomes: seq<bool>) returns (ghost steps: seq<Step>)
      requires Valid() && daemon == Dequeue
      modifies `skbs, `queue, `portId, `daemon, `log
      ensures log.sent == old(log.sent) + Sendings(old(queue), old(portId), outcomes)
      ensures View() == Exec(c, old(View()), steps) && daemon == Asleep && queue == []
    {
      hide Exec, Apply, Sendings;
      ghost var s0, all := View(), log.sent + Sendings(queue, portId, outcomes);
      steps := [];
      ExecNone(c, s0);
      var left := outcomes;
      while queue != []
        invariant Valid() && View() == Exec(c, s0, steps) && daemon == Dequeue
        invariant log.sent + Sendings(queue, portId, left) == all
        decreases |queue|
      {
        SendingsNext(log.sent, queue, portId, left);
        ghost var more := SendHead(Outcome(left));
        ExecAppend(c, s0, steps, more);
        steps := steps + more;
        left := Later(left);
      }
      SendingsDone(log.sent, portId, left);
      ghost var rest := Park();
      ExecAppend(c, s0, steps, rest);
      steps := steps + rest;
    }

    /** The turn of the loop that finds a message. */
    method SendHead(ok: bool) returns (ghost steps: seq<Step>)
      requires Valid() && daemon == Dequeue && queue != []
      modifies `skbs, `queue, `portId, `daemon, `log
      ensures View() == Exec(c, old(View()), steps) && daemon == Dequeue
      ensures queue == old(queue[1..]) && portId == (if ok then old(portId) else 0)
      ensures log.sent == old(log.sent) + [Sending(old(queue[0]), old(portId), ok)]
    {
      hide Exec, Apply;
      ghost var s0 := View();
      var skb := SkbDequeue();
      steps := [Daemon(true)];
      ExecFirst(c, s0, Daemon(true));
      ghost var reply := KcapdSendReply(skb.value, ok);
      ExecAppend(c, s0, steps, reply);
      steps := steps + reply;
    }

    /** The turn that finds none. */
    method Park() returns (ghost steps: seq<Step>)
      requires Valid() && daemon == Dequeue && queue == []
      modifies `skbs, `queue, `daemon
      ensures View() == Exec(c, old(View()), steps) && daemon == Asleep && queue == []
    {
      hide Exec, Apply;
      ghost var s0 := View();
      var none := SkbDequeue();
      steps := [Daemon(true)];
      ExecFirst(c, s0, Daemon(true));
      ghost var wait := WaitEvent();
      ExecAppend(c, s0, steps, wait);
      steps := steps + wait;
    }

    // ---- cap_receive_msg and cap_receive_skb ----

    /** cap_receive_msg without interference; `start` is what kthread_run would report. */
    method CapReceiveMsg(ty: u16, pid: u32, start: int) returns (err: int)
      requires Valid() && control == Idle
      modifies this, users, users.pids
      ensures View() == Exec(c, old(View()), MsgSteps(ty, pid, start)) && control == Idle
      ensures err == MsgErr(old(View()), ty, start)
    {
      ghost var s0 := View();
      MsgResult(c, s0, ty, pid, start);
      hide Exec, MsgSteps;
      if !KnownType(ty) {
        return -F.EINVAL;
      }
      if daemon.NotStarted? {
        if start != 0 {
          return start;
        }
        daemon := Dequeue;
      }
      if ty == CAP_ADD {
        portId := pid;
        log := log.(ports := log.ports + [Added(pid)], tab := log.tab + [U.Joined(pid)]);
        var _ := users.UserJoin(pid);
      } else if ty == CAP_DEL {
        portId := 0;
        log := log.(ports := log.ports + [Deleted(pid)], tab := log.tab + [U.Left(pid)]);
        var _ := users.UserLeave(pid);
      }
      err := 0;
    }

    /** cap_receive_skb over a received buffer, in 32-bit arithmetic, without interference. */
    method CapReceiveSkb(buf: seq<byte>, starts: nat -> int) returns (acks: seq<F.Ack>)
      requires Valid() && control == Idle && |buf| < 0x1_0000_0000
      modifies this, users, users.pids
      ensures (View(), acks) == HandleFrom(c, old(View()), buf, 0, ToInt32(|buf|), starts)
    {
      hide HandleFrom;
      var off: nat, len: int32 := 0, ToInt32(|buf|);
      ghost var total := HandleFrom(c, View(), buf, 0, len, starts);
      acks := [];
      while F.Ok(buf, off, len)
        invariant Valid() && control == Idle && off + len <= |buf|
        invariant HandleFrom(c, View(), buf, off, len, starts).0 == total.0
        invariant acks + HandleFrom(c, View(), buf, off, len, starts).1 == total.1
        decreases len
      {
        var ack;
        off, len, ack := Turn(buf, off, len, starts);
        acks := acks + ack;
      }
      HandleEnd(c, View(), buf, off, len, starts);
      assert acks + [] == acks;
    }

    /** One turn of the receive loop. */
    method Turn(buf: seq<byte>, off: nat, len: int32, starts: nat -> int)
      returns (off': nat, len': int32, ack: seq<F.Ack>)
      requires Valid() && control == Idle && off + len <= |buf| && F.Ok(buf, off, len)
      modifies this, users, users.pids
      ensures control == Idle && off' + len' == off + len && len' <= len - F.HDRLEN
      ensures var all := HandleFrom(c, old(View()), buf, off, len, starts);
              var rest := HandleFrom(c, View(), buf, off', len', starts);
              all.0 == rest.0 && all.1 == ack + rest.1
    {
      hide HandleFrom, Exec, MsgSteps, MsgErr, F.WantsAck, F.ParseHeader, F.Ok, F.MsgLen, F.Align, ToInt32;
      HandleNext(c, View(), buf, off, len, starts);
      var h := F.ParseHeader(buf, off);
      var err := CapReceiveMsg(h.ty, h.pid, starts(off));
      ack := [];
      if err != 0 || F.WantsAck(h.flags) {
        ack := [F.Ack(off, err)];
      }
      F.NextCounterExact(h.len, len);
      off', len' := off + F.Align(h.len), ToInt32(len - ToInt32(F.Align(h.len)));
    }
  }

  lemma HandleEnd(c: Config, s: State, buf: seq<byte>, off: nat, rem: int, starts: nat -> int)
    requires off + rem <= |buf| && !F.Ok(buf, off, rem)
    ensures HandleFrom(c, s, buf, off, rem, starts) == (s, [])
  {
  }
}
