/**
 The netctrl kernel module: it walks a received buffer of netlink messages,
 checks each type, copies the payload and dispatches on the type inside it.
 */
module Netctrl {
  import opened Prelude
  import opened Bytes
  import F = Framing

  const AUTH_IP: u16 := 1
  const AUTH_PORT: u16 := 2
  const AUTH_ID: u16 := 3
  const ENOMEM: int := 12

  /** The copy is this much longer than the payload (NLMSG_ALIGNTO). */
  const EXTRA: nat := 4

  /** A handler call: which one, and the bytes its argument points to. */
  datatype Call = Call(ty: u16, body: seq<byte>)
  datatype Result = Result(calls: seq<Call>, acks: seq<F.Ack>)

  /** netctrl_netlink_ok */
  predicate KnownType(ty: u16) { ty == AUTH_IP || ty == AUTH_PORT || ty == AUTH_ID }

  /** netctrl_proc_msg on the copied struct msg_buf. */
  function ProcMsg(data: seq<byte>): (calls: seq<Call>)
    requires |data| >= 4
  {
    if KnownType(GetLe16(data, 0)) then [Call(GetLe16(data, 0), data[4..])] else []
  }

  /** What netctrl_receive_msg returns and calls; `noMemory` is the outcome of kzalloc. */
  function ReceiveMsg(ty: u16, data: seq<byte>, noMemory: bool): (r: (int, seq<Call>))
    requires |data| >= 4
  {
    if !KnownType(ty) then (-F.EINVAL, [])
    else if noMemory then (-ENOMEM, [])
    else (0, ProcMsg(data))
  }

  /** One message's share of the result. */
  function Share(off: nat, ty: u16, flags: u16, data: seq<byte>, noMemory: bool): (r: Result)
    requires |data| >= 4
  {
    var (err, calls) := ReceiveMsg(ty, data, noMemory);
    Result(calls, F.AckFor(off, err, flags))
  }

  function Plus(a: Result, b: Result): (r: Result) { Result(a.calls + b.calls, a.acks + b.acks) }

  /** The copied bytes: the payload and the four bytes after it. */
  function Copied(mem: seq<byte>, off: nat): (data: seq<byte>)
    requires off + F.HDRLEN <= |mem| && F.HDRLEN <= F.MsgLen(mem, off) && off + F.MsgLen(mem, off) + EXTRA <= |mem|
    ensures |data| >= 4
  {
    mem[off + F.HDRLEN..off + F.MsgLen(mem, off) + EXTRA]
  }

  /**
   The receive loop from `off` with `rem` bytes left in the skb.  `mem` is the
   skb and the bytes behind it that the copy can reach; `fails` are the offsets
   of the messages kzalloc fails for.
   */
  function ReceiveFrom(mem: seq<byte>, off: nat, rem: int, fails: set<nat>): (r: Result)
    requires off + rem + EXTRA <= |mem|
    decreases rem
  {
    if !F.Ok(mem, off, rem) then Result([], [])
    else
      var h := F.ParseHeader(mem, off);
      Plus(Share(off, h.ty, h.flags, Copied(mem, off), off in fails),
           ReceiveFrom(mem, off + F.Align(F.MsgLen(mem, off)), rem - F.Align(F.MsgLen(mem, off)), fails))
  }

  lemma ReceiveOnce(mem: seq<byte>, off: nat, rem: int, fails: set<nat>)
    requires off + rem + EXTRA <= |mem| && F.Ok(mem, off, rem)
    ensures var h := F.ParseHeader(mem, off);
            var n := F.Align(F.MsgLen(mem, off));
            && h.len == F.MsgLen(mem, off) && F.HDRLEN <= F.MsgLen(mem, off) <= rem
            && ReceiveFrom(mem, off, rem, fails)
               == Plus(Share(off, h.ty, h.flags, Copied(mem, off), off in fails),
                       ReceiveFrom(mem, off + n, rem - n, fails))
  {
  }

  /** netctrl_receive_skb, in 32-bit arithmetic. */
  method ReceiveSkb(mem: seq<byte>, skbLen: u32, fails: set<nat>) returns (r: Result)
    requires skbLen + EXTRA <= |mem|
    ensures r == ReceiveFrom(mem, 0, ToInt32(skbLen), fails)
  {
    hide ReceiveFrom;
    var off: nat, len: int32 := 0, ToInt32(skbLen);
    r := Result([], []);
    while F.Ok(mem, off, len)
      invariant off + len + EXTRA <= |mem|
      invariant Plus(r, ReceiveFrom(mem, off, len, fails)) == ReceiveFrom(mem, 0, ToInt32(skbLen), fails)
      decreases len
    {
      ReceiveNext(mem, off, len, fails, r);
      var h := F.ParseHeader(mem, off);
      F.NextCounterExact(h.len, len);
      var err, calls := 0, [];
      if !KnownType(h.ty) {
        err := -F.EINVAL;
      } else if off in fails {
        err := -ENOMEM;
      } else {
        calls := ProcMsg(Copied(mem, off));
      }
      var acks := [];
      if err != 0 || F.WantsAck(h.flags) {
        acks := [F.Ack(off, err)];
      }
      r := Plus(r, Result(calls, acks));
      off, len := off + F.Align(h.len), ToInt32(len - ToInt32(F.Align(h.len)));
    }
    ReceiveEnd(mem, off, len, fails, r);
  }

  lemma ReceiveNext(mem: seq<byte>, off: nat, rem: int, fails: set<nat>, r: Result)
    requires off + rem + EXTRA <= |mem| && F.Ok(mem, off, rem)
    ensures var h := F.ParseHeader(mem, off);
            var n := F.Align(F.MsgLen(mem, off));
            && h.len == F.MsgLen(mem, off) && F.HDRLEN <= F.MsgLen(mem, off) <= rem
            && Plus(r, ReceiveFrom(mem, off, rem, fails))
               == Plus(Plus(r, Share(off, h.ty, h.flags, Copied(mem, off), off in fails)),
                       ReceiveFrom(mem, off + n, rem - n, fails))
  {
    hide *;
    ReceiveOnce(mem, off, rem, fails);
    var h := F.ParseHeader(mem, off);
    var n := F.Align(F.MsgLen(mem, off));
    PlusAssoc(r, Share(off, h.ty, h.flags, Copied(mem, off), off in fails), ReceiveFrom(mem, off + n, rem - n, fails));
  }

  lemma PlusAssoc(a: Result, b: Result, d: Result)
    ensures Plus(a, Plus(b, d)) == Plus(Plus(a, b), d)
  {
  }

  lemma ReceiveEnd(mem: seq<byte>, off: nat, rem: int, fails: set<nat>, r: Result)
    requires off + rem + EXTRA <= |mem| && !F.Ok(mem, off, rem)
    ensures Plus(r, ReceiveFrom(mem, off, rem, fails)) == r
  {
  }

  // ---- lists of messages ----

  /** Each message, and the four bytes behind it, lie in `mem`. */
  predicate Room(mem: seq<byte>, offs: seq<nat>, ms: seq<F.Message>)
  {
    |offs| == |ms| && forall i | 0 <= i < |ms| :: offs[i] + F.HDRLEN + |ms[i].payload| + EXTRA <= |mem|
  }

  lemma FirstRoom(mem: seq<byte>, offs: seq<nat>, ms: seq<F.Message>)
    requires Room(mem, offs, ms) && ms != []
    ensures |offs| == |ms| && Room(mem, offs[1..], ms[1..]) && offs[0] + F.HDRLEN + |ms[0].payload| + EXTRA <= |mem|
  {
  }

  /** The same result computed from the messages, each with the four bytes behind its payload. */
  function ReceiveList(mem: seq<byte>, offs: seq<nat>, ms: seq<F.Message>, fails: set<nat>): (r: Result)
    requires Room(mem, offs, ms)
    decreases |ms|
  {
    if ms == [] then Result([], [])
    else
      var m, end := ms[0], offs[0] + F.HDRLEN + |ms[0].payload|;
      Plus(Share(offs[0], m.ty, m.flags, m.payload + mem[end..end + EXTRA], offs[0] in fails),
           ReceiveList(mem, offs[1..], ms[1..], fails))
  }

  lemma CopiedIs(mem: seq<byte>, off: nat, m: F.Message)
    requires F.IntactAt(mem, off, m) && off + F.HDRLEN + |m.payload| + EXTRA <= |mem|
    ensures F.HDRLEN <= F.MsgLen(mem, off) && off + F.MsgLen(mem, off) + EXTRA <= |mem|
    ensures var h, end := F.ParseHeader(mem, off), off + F.HDRLEN + |m.payload|;
            h.ty == m.ty && h.flags == m.flags && Copied(mem, off) == m.payload + mem[end..end + EXTRA]
  {
  }

  lemma {:induction false} ReceiveWalk(mem: seq<byte>, off: nat, rem: int, offs: seq<nat>, ms: seq<F.Message>,
                                       fails: set<nat>)
    requires off + rem + EXTRA <= |mem| && F.Walk(mem, off, rem) == offs
    requires |offs| == |ms| && Room(mem, offs, ms) && F.AllIntact(mem, offs, ms)
    ensures ReceiveFrom(mem, off, rem, fails) == ReceiveList(mem, offs, ms, fails)
    decreases |ms|
  {
    hide *;
    if ms == [] {
      NoneLeft(mem, off, rem, fails);
    } else {
      F.WalkTail(mem, off, rem);
      var n := F.Align(F.MsgLen(mem, off));
      FirstRoom(mem, offs, ms);
      F.FirstIntact(mem, offs, ms);
      CopiedIs(mem, off, ms[0]);
      ReceiveOnce(mem, off, rem, fails);
      ReceiveWalk(mem, off + n, rem - n, offs[1..], ms[1..], fails);
      ListOnce(mem, offs, ms, fails);
    }
  }

  lemma NoneLeft(mem: seq<byte>, off: nat, rem: int, fails: set<nat>)
    requires off + rem + EXTRA <= |mem| && F.Walk(mem, off, rem) == []
    ensures Room(mem, [], []) && ReceiveFrom(mem, off, rem, fails) == ReceiveList(mem, [], [], fails)
  {
  }

  lemma ListOnce(mem: seq<byte>, offs: seq<nat>, ms: seq<F.Message>, fails: set<nat>)
    requires Room(mem, offs, ms) && ms != [] && offs != [] && Room(mem, offs[1..], ms[1..])
    requires offs[0] + F.HDRLEN + |ms[0].payload| + EXTRA <= |mem|
    ensures var m, end := ms[0], offs[0] + F.HDRLEN + |ms[0].payload|;
            ReceiveList(mem, offs, ms, fails)
            == Plus(Share(offs[0], m.ty, m.flags, m.payload + mem[end..end + EXTRA], offs[0] in fails),
                    ReceiveList(mem, offs[1..], ms[1..], fails))
  {
  }

  /** Bytes behind the claimed length do not change the walk. */
  lemma {:induction false} WalkIgnoresBehind(buf: seq<byte>, behind: seq<byte>, off: nat, rem: int)
    requires off + rem <= |buf|
    ensures F.Walk(buf + behind, off, rem) == F.Walk(buf, off, rem)
    decreases rem
  {
    hide *;
    OkIgnoresBehind(buf, behind, off, rem);
    F.WalkNext(buf, off, rem);
    F.WalkNext(buf + behind, off, rem);
    if F.Ok(buf, off, rem) {
      var n := F.Align(F.MsgLen(buf, off));
      WalkIgnoresBehind(buf, behind, off + n, rem - n);
    }
  }

  lemma OkIgnoresBehind(buf: seq<byte>, behind: seq<byte>, off: nat, rem: int)
    requires off + rem <= |buf|
    ensures F.Ok(buf + behind, off, rem) == F.Ok(buf, off, rem)
    ensures rem >= F.HDRLEN ==> F.MsgLen(buf + behind, off) == F.MsgLen(buf, off)
  {
    if rem >= F.HDRLEN {
      assert F.MsgLen(buf + behind, off) == F.MsgLen(buf, off);
    }
  }

  /**
   A buffer that reads as a list of messages gives exactly what handling that
   list gives, each message with the four bytes behind its payload.
   */
  lemma ReceivesList(buf: seq<byte>, behind: seq<byte>, ms: seq<F.Message>, fails: set<nat>)
    requires F.ReadsAs(buf, ms) && |behind| >= EXTRA
    ensures var mem, offs := buf + behind, F.Offsets(0, ms);
            && Room(mem, offs, ms)
            && ReceiveFrom(mem, 0, |buf|, fails) == ReceiveList(mem, offs, ms, fails)
  {
    hide F.IntactAt, F.Walk, ReceiveFrom, ReceiveList, F.Offsets;
    var mem, offs := buf + behind, F.Offsets(0, ms);
    WalkIgnoresBehind(buf, behind, 0, |buf|);
    forall i | 0 <= i < |ms|
      ensures F.IntactAt(mem, offs[i], ms[i]) && offs[i] + F.HDRLEN + |ms[i].payload| + EXTRA <= |mem|
    {
      StillIntact(buf, behind, offs[i], ms[i]);
    }
    ReceiveWalk(mem, 0, |buf|, offs, ms, fails);
  }

  lemma StillIntact(buf: seq<byte>, behind: seq<byte>, off: nat, m: F.Message)
    requires F.IntactAt(buf, off, m)
    ensures F.IntactAt(buf + behind, off, m) && off + F.HDRLEN + |m.payload| <= |buf|
  {
    F.IntactWithin([], buf, off, m, behind);
    assert [] + buf + behind == buf + behind;
  }

  /** What handling a message returns, judged from the message alone: -EINVAL, -ENOMEM or 0. */
  function ErrOf(m: F.Message, noMemory: bool): (err: int)
  {
    if m.ty < 1 || m.ty > 3 then -22 else if noMemory then -12 else 0
  }

  function Errs(offs: seq<nat>, ms: seq<F.Message>, fails: set<nat>): (errs: seq<int>)
    requires |offs| == |ms|
    ensures |errs| == |ms|
  {
    seq(|ms|, i requires 0 <= i < |ms| => ErrOf(ms[i], offs[i] in fails))
  }

  /**
   Exactly the messages that failed, or carry the ACK flag, are acknowledged,
   once each, in order, with their own error.
   */
  lemma {:induction false} AcksExactly(mem: seq<byte>, offs: seq<nat>, ms: seq<F.Message>, fails: set<nat>)
    returns (idx: seq<nat>)
    requires Room(mem, offs, ms)
    ensures F.Answers(ReceiveList(mem, offs, ms, fails).acks, offs, ms, Errs(offs, ms, fails), idx)
    decreases |ms|
  {
    idx := [];
    if ms != [] {
      hide F.Answers, F.AckFor, Room;
      FirstRoom(mem, offs, ms);
      var rest := AcksExactly(mem, offs[1..], ms[1..], fails);
      assert Errs(offs, ms, fails)[1..] == Errs(offs[1..], ms[1..], fails);
      idx := F.AnswersNext(ReceiveList(mem, offs[1..], ms[1..], fails).acks, offs, ms, Errs(offs, ms, fails), rest);
    }
  }

  // ---- how far the copy reads ----

  /** Where the copy of the message at `off` ends. */
  function CopyEnd(mem: seq<byte>, off: nat): (end: nat)
    requires off + F.HDRLEN <= |mem| && F.HDRLEN <= F.MsgLen(mem, off) && off + F.MsgLen(mem, off) + EXTRA <= |mem|
  {
    off + F.HDRLEN + |Copied(mem, off)|
  }

  /** Where the copies of the messages a buffer reads as end. */
  lemma CopyEnds(buf: seq<byte>, behind: seq<byte>, ms: seq<F.Message>, i: nat)
    requires F.ReadsAs(buf, ms) && |behind| >= EXTRA && i < |ms|
    ensures var mem, off := buf + behind, F.Offsets(0, ms)[i];
            && F.Inside(mem, off, 0, |buf|) && CopyEnd(mem, off) == off + F.HDRLEN + |ms[i].payload| + EXTRA
  {
    var off := F.Offsets(0, ms)[i];
    StillIntact(buf, behind, off, ms[i]);
    CopiedIs(buf + behind, off, ms[i]);
  }

  lemma {:induction false} NextOffset(off: nat, ms: seq<F.Message>, i: nat)
    requires i < |ms| - 1
    ensures F.Offsets(off, ms)[i + 1] == F.Offsets(off, ms)[i] + F.Size(ms[i])
    decreases i
  {
    if i > 0 {
      NextOffset(off + F.Size(ms[0]), ms[1..], i - 1);
    }
  }

  /** Every copy but the last stays inside the skb, because another header follows. */
  lemma EarlierCopiesInside(buf: seq<byte>, behind: seq<byte>, ms: seq<F.Message>, i: nat)
    requires F.ReadsAs(buf, ms) && |behind| >= EXTRA && i < |ms| - 1
    ensures var mem, off := buf + behind, F.Offsets(0, ms)[i];
            F.Inside(mem, off, 0, |buf|) && CopyEnd(mem, off) <= |buf|
  {
    hide F.ReadsAs, CopyEnd, F.Inside;
    CopyEnds(buf, behind, ms, i);
    CopyEnds(buf, behind, ms, i + 1);
    NextOffset(0, ms, i);
    InsideEnds(buf + behind, F.Offsets(0, ms)[i + 1], |buf|);
  }

  /** The end of the last message of the list. */
  function LastEnd(ms: seq<F.Message>): (end: nat)
    requires ms != []
  {
    var last := |ms| - 1;
    F.Offsets(0, ms)[last] + F.HDRLEN + |ms[last].payload|
  }

  /** The copy of message `i` stays inside the skb. */
  ghost predicate CopyInside(buf: seq<byte>, behind: seq<byte>, ms: seq<F.Message>, i: nat)
    requires i < |ms| && |behind| >= EXTRA
  {
    var mem, off := buf + behind, F.Offsets(0, ms)[i];
    F.Inside(mem, off, 0, |buf|) && CopyEnd(mem, off) <= |buf|
  }

  /**
   Exactly when the copies stay inside the skb: there is no message in it, or
   four more bytes follow the last one.
   */
  lemma CopiesInsideExactly(buf: seq<byte>, behind: seq<byte>, ms: seq<F.Message>)
    requires F.ReadsAs(buf, ms) && |behind| >= EXTRA
    ensures (forall i | 0 <= i < |ms| :: CopyInside(buf, behind, ms, i)) <==> ms == [] || LastEnd(ms) + 4 <= |buf|
  {
    hide F.ReadsAs, CopyEnd, F.Inside;
    if ms != [] {
      CopyEnds(buf, behind, ms, |ms| - 1);
      assert CopyInside(buf, behind, ms, |ms| - 1) <==> LastEnd(ms) + EXTRA <= |buf|;
      forall i | 0 <= i < |ms| - 1 ensures CopyInside(buf, behind, ms, i) {
        EarlierCopiesInside(buf, behind, ms, i);
      }
    }
  }

  lemma InsideEnds(mem: seq<byte>, off: nat, hi: nat)
    requires hi <= |mem| && F.Inside(mem, off, 0, hi)
    ensures off + F.HDRLEN <= hi
  {
  }

  /** The last copy always reads past the skb: four bytes, less the padding that was sent. */
  lemma LastCopyOverruns(ms: seq<F.Message>, last: F.Message, behind: seq<byte>)
    requires F.AllFit(ms) && last.Fits() && |behind| >= EXTRA
    ensures var buf, off := F.Layout(ms) + F.Frame(last), F.Offsets(0, ms + [last])[|ms|];
            F.Inside(buf + behind, off, 0, |buf|) && CopyEnd(buf + behind, off) == |buf| + 4
    ensures F.AllFit(ms + [last])
    ensures var buf, off := F.Layout(ms + [last]), F.Offsets(0, ms + [last])[|ms|];
            && F.Inside(buf + behind, off, 0, |buf|)
            && CopyEnd(buf + behind, off) == |buf| + 4 - (F.Size(last) - F.HDRLEN - |last.payload|) > |buf|
  {
    hide F.Frame, F.ReadsAs, CopyEnd, F.Inside;
    var all := ms + [last];
    F.UnpaddedReads(ms, last);
    F.LayoutReads(all, []);
    assert F.Layout(all) + [] == F.Layout(all);
    CopyEnds(F.Layout(ms) + F.Frame(last), behind, all, |ms|);
    CopyEnds(F.Layout(all), behind, all, |ms|);
    LastOffset(0, ms, last);
    LayoutLength(ms);
    LayoutLength(all);
    F.LayoutSizeAppend(ms, last);
  }

  lemma {:induction false} LastOffset(off: nat, ms: seq<F.Message>, last: F.Message)
    ensures F.Offsets(off, ms + [last])[|ms|] == off + F.LayoutSize(ms)
    decreases |ms|
  {
    if ms != [] {
      assert (ms + [last])[1..] == ms[1..] + [last];
      LastOffset(off + F.Size(ms[0]), ms[1..], last);
    }
  }

  lemma LayoutLength(ms: seq<F.Message>)
    requires F.AllFit(ms)
    ensures |F.Layout(ms)| == F.LayoutSize(ms)
  {
    F.LayoutChain(ms, [], []);
  }

  // ---- how far the handlers read ----

  /** What a handler prints. */
  datatype Shown = Number(n: int32) | Text(text: seq<byte>)

  /** The C string at the front of `b`, unless it runs off the end. */
  function Terminated(b: seq<byte>): (s: Option<seq<byte>>)
  {
    if b == [] then None
    else if b[0] == 0 then Some([])
    else match Terminated(b[1..])
      case None => None
      case Some(s) => Some([b[0]] + s)
  }

  /** netctrl_auth_ip, netctrl_auth_port, netctrl_auth_id; none if the handler reads outside the copy. */
  function Handle(call: Call): (shown: Option<Shown>)
  {
    if call.ty == AUTH_IP then
      match Terminated(call.body)
      case None => None
      case Some(s) => Some(Text(s))
    else if |call.body| >= 4 then Some(Number(ToInt32(GetLe32(call.body, 0))))
    else None
  }

  lemma {:induction false} TerminatedExactly(b: seq<byte>)
    ensures Terminated(b).Some? <==> 0 in b
    ensures Terminated(b).Some? ==> var s := Terminated(b).value; |s| < |b| && s == b[..|s|] && b[|s|] == 0 && 0 !in s
  {
    if b != [] && b[0] != 0 {
      TerminatedExactly(b[1..]);
      assert b == [b[0]] + b[1..];
    }
  }

  /** The bytes copied for message `i`. */
  function DataOf(mem: seq<byte>, offs: seq<nat>, ms: seq<F.Message>, i: nat): (data: seq<byte>)
    requires Room(mem, offs, ms) && i < |ms|
    ensures |data| == |ms[i].payload| + EXTRA
  {
    var end := offs[i] + F.HDRLEN + |ms[i].payload|;
    ms[i].payload + mem[end..end + EXTRA]
  }

  /** Message `i` reaches a handler: its type and the one inside are 1, 2 or 3, and kzalloc works. */
  predicate Dispatched(mem: seq<byte>, offs: seq<nat>, ms: seq<F.Message>, fails: set<nat>, i: nat)
    requires Room(mem, offs, ms) && i < |ms|
  {
    1 <= ms[i].ty <= 3 && offs[i] !in fails && 1 <= GetLe16(DataOf(mem, offs, ms, i), 0) <= 3
  }

  /** An ip needs a zero byte in the rest of the copy, a port or id four bytes of payload. */
  predicate LongEnough(mem: seq<byte>, offs: seq<nat>, ms: seq<F.Message>, i: nat)
    requires Room(mem, offs, ms) && i < |ms|
  {
    if GetLe16(DataOf(mem, offs, ms, i), 0) == 1 then 0 in DataOf(mem, offs, ms, i)[4..]
    else |ms[i].payload| >= 4
  }

  /** Message `i` reaches no handler, or one that reads only what was copied. */
  predicate Safe(mem: seq<byte>, offs: seq<nat>, ms: seq<F.Message>, fails: set<nat>, i: nat)
    requires Room(mem, offs, ms)
  {
    i < |ms| && Dispatched(mem, offs, ms, fails, i) ==> LongEnough(mem, offs, ms, i)
  }

  ghost predicate AllInside(calls: seq<Call>) { forall k | 0 <= k < |calls| :: Handle(calls[k]).Some? }

  /**
   Nothing checks that the copy is long enough for the handler: the handlers
   stay inside it exactly when every dispatched ip has a zero byte in the rest
   of its copy, and every dispatched port or id four bytes of payload.
   */
  lemma {:induction false} HandlersInsideExactly(mem: seq<byte>, offs: seq<nat>, ms: seq<F.Message>, fails: set<nat>)
    requires Room(mem, offs, ms)
    ensures AllInside(ReceiveList(mem, offs, ms, fails).calls)
            <==> forall i | 0 <= i < |ms| :: Safe(mem, offs, ms, fails, i)
    decreases |ms|
  {
    hide Room, Safe, AllInside, FirstCalls;
    if ms == [] {
      NoCalls();
    } else {
      FirstRoom(mem, offs, ms);
      HandlersInsideExactly(mem, offs[1..], ms[1..], fails);
      FirstCall(mem, offs, ms, fails);
      InsideBoth(FirstCalls(mem, offs, ms, fails), ReceiveList(mem, offs[1..], ms[1..], fails).calls);
      FirstInside(mem, offs, ms, fails);
      RestSafe(mem, offs, ms, fails);
    }
  }

  lemma NoCalls()
    ensures AllInside([])
  {
  }

  lemma FirstCall(mem: seq<byte>, offs: seq<nat>, ms: seq<F.Message>, fails: set<nat>)
    requires Room(mem, offs, ms) && ms != [] && offs != [] && Room(mem, offs[1..], ms[1..])
    ensures ReceiveList(mem, offs, ms, fails).calls
            == FirstCalls(mem, offs, ms, fails) + ReceiveList(mem, offs[1..], ms[1..], fails).calls
  {
    hide Share;
    ListOnce(mem, offs, ms, fails);
  }

  lemma RestSafe(mem: seq<byte>, offs: seq<nat>, ms: seq<F.Message>, fails: set<nat>)
    requires Room(mem, offs, ms) && ms != [] && offs != [] && Room(mem, offs[1..], ms[1..])
    ensures (forall i | 0 <= i < |ms| :: Safe(mem, offs, ms, fails, i))
            <==> && Safe(mem, offs, ms, fails, 0)
                 && forall i | 0 <= i < |ms| - 1 :: Safe(mem, offs[1..], ms[1..], fails, i)
  {
    hide Safe;
    forall i | 0 <= i < |ms| - 1 ensures Safe(mem, offs[1..], ms[1..], fails, i) == Safe(mem, offs, ms, fails, i + 1) {
      NextSafe(mem, offs, ms, fails, i);
    }
    if forall i | 0 <= i < |ms| - 1 :: Safe(mem, offs[1..], ms[1..], fails, i) {
      forall i | 0 < i < |ms| ensures Safe(mem, offs, ms, fails, i) {
        assert Safe(mem, offs[1..], ms[1..], fails, i - 1);
      }
    }
  }

  lemma NextSafe(mem: seq<byte>, offs: seq<nat>, ms: seq<F.Message>, fails: set<nat>, i: nat)
    requires Room(mem, offs, ms) && i < |ms| - 1 && Room(mem, offs[1..], ms[1..])
    ensures Safe(mem, offs[1..], ms[1..], fails, i) == Safe(mem, offs, ms, fails, i + 1)
  {
    hide KnownType;
    assert DataOf(mem, offs[1..], ms[1..], i) == DataOf(mem, offs, ms, i + 1);
  }

  function FirstCalls(mem: seq<byte>, offs: seq<nat>, ms: seq<F.Message>, fails: set<nat>): (calls: seq<Call>)
    requires Room(mem, offs, ms) && ms != []
  {
    Share(offs[0], ms[0].ty, ms[0].flags, DataOf(mem, offs, ms, 0), offs[0] in fails).calls
  }

  lemma InsideBoth(a: seq<Call>, b: seq<Call>)
    ensures AllInside(a + b) <==> AllInside(a) && AllInside(b)
  {
    if AllInside(a + b) {
      assert forall k | 0 <= k < |a| :: (a + b)[k] == a[k];
      assert forall k | 0 <= k < |b| :: (a + b)[|a| + k] == b[k];
    }
  }

  lemma FirstInside(mem: seq<byte>, offs: seq<nat>, ms: seq<F.Message>, fails: set<nat>)
    requires Room(mem, offs, ms) && ms != []
    ensures AllInside(FirstCalls(mem, offs, ms, fails)) <==> Safe(mem, offs, ms, fails, 0)
  {
    var data := DataOf(mem, offs, ms, 0);
    TerminatedExactly(data[4..]);
    assert Dispatched(mem, offs, ms, fails, 0) ==>
        FirstCalls(mem, offs, ms, fails)[0] == Call(GetLe16(data, 0), data[4..]);
  }

  /**
   The calls are those of the messages number idx[0] < idx[1] < ..., each with
   the inner type and the rest of its copied bytes, and these are exactly the
   messages that reach a handler.
   */
  ghost predicate Dispatches(calls: seq<Call>, mem: seq<byte>, offs: seq<nat>, ms: seq<F.Message>, fails: set<nat>,
                             idx: seq<nat>)
    requires Room(mem, offs, ms)
  {
    Increasing(idx) && CallsOf(calls, mem, offs, ms, idx) && Reaching(mem, offs, ms, fails, idx)
  }

  ghost predicate CallsOf(calls: seq<Call>, mem: seq<byte>, offs: seq<nat>, ms: seq<F.Message>, idx: seq<nat>)
    requires Room(mem, offs, ms)
  {
    && |idx| == |calls|
    && forall k | 0 <= k < |idx| ::
         idx[k] < |ms| && var d := DataOf(mem, offs, ms, idx[k]); calls[k] == Call(GetLe16(d, 0), d[4..])
  }

  ghost predicate Reaching(mem: seq<byte>, offs: seq<nat>, ms: seq<F.Message>, fails: set<nat>, idx: seq<nat>)
    requires Room(mem, offs, ms)
  {
    forall i | 0 <= i < |ms| :: i in idx <==> Dispatched(mem, offs, ms, fails, i)
  }

  lemma NextData(mem: seq<byte>, offs: seq<nat>, ms: seq<F.Message>, fails: set<nat>, i: nat)
    requires Room(mem, offs, ms) && i < |ms| - 1 && Room(mem, offs[1..], ms[1..])
    ensures DataOf(mem, offs[1..], ms[1..], i) == DataOf(mem, offs, ms, i + 1)
    ensures Dispatched(mem, offs[1..], ms[1..], fails, i) == Dispatched(mem, offs, ms, fails, i + 1)
  {
  }

  /** One more message in front. */
  lemma CallsNext(rest: seq<Call>, mem: seq<byte>, offs: seq<nat>, ms: seq<F.Message>, idx: seq<nat>)
    requires Room(mem, offs, ms) && ms != [] && offs != [] && Room(mem, offs[1..], ms[1..])
    requires CallsOf(rest, mem, offs[1..], ms[1..], idx)
    ensures CallsOf(rest, mem, offs, ms, Shifted(idx))
    ensures var d := DataOf(mem, offs, ms, 0);
            CallsOf([Call(GetLe16(d, 0), d[4..])] + rest, mem, offs, ms, [0] + Shifted(idx))
  {
    hide Room, Shifted, DataOf;
    forall k | 0 <= k < |idx|
      ensures idx[k] < |ms| - 1 && DataOf(mem, offs[1..], ms[1..], idx[k]) == DataOf(mem, offs, ms, Shifted(idx)[k])
    {
      NextData(mem, offs, ms, {}, idx[k]);
    }
  }

  lemma ReachingNext(mem: seq<byte>, offs: seq<nat>, ms: seq<F.Message>, fails: set<nat>, idx: seq<nat>)
    requires Room(mem, offs, ms) && ms != [] && offs != [] && Room(mem, offs[1..], ms[1..])
    requires Reaching(mem, offs[1..], ms[1..], fails, idx)
    ensures Reaching(mem, offs, ms, fails,
                     if Dispatched(mem, offs, ms, fails, 0) then [0] + Shifted(idx) else Shifted(idx))
  {
    hide Room, Shifted, Dispatched;
    forall i | 0 <= i < |ms| ensures i in Shifted(idx) <==> i > 0 && Dispatched(mem, offs, ms, fails, i) {
      ShiftedMember(idx, i);
      if i > 0 {
        NextData(mem, offs, ms, fails, i - 1);
      }
    }
  }

  lemma FirstCallsAre(mem: seq<byte>, offs: seq<nat>, ms: seq<F.Message>, fails: set<nat>)
    requires Room(mem, offs, ms) && ms != []
    ensures var d := DataOf(mem, offs, ms, 0);
            FirstCalls(mem, offs, ms, fails)
            == if Dispatched(mem, offs, ms, fails, 0) then [Call(GetLe16(d, 0), d[4..])] else []
  {
    hide GetLe16;
  }

  /** Exactly the messages that reach a handler have it called, once each, in order, with their own bytes. */
  lemma {:induction false} CallsExactly(mem: seq<byte>, offs: seq<nat>, ms: seq<F.Message>, fails: set<nat>)
    returns (idx: seq<nat>)
    requires Room(mem, offs, ms)
    ensures Dispatches(ReceiveList(mem, offs, ms, fails).calls, mem, offs, ms, fails, idx)
    decreases |ms|
  {
    idx := [];
    if ms != [] {
      hide Room, Increasing, CallsOf, Reaching, Dispatched, DataOf, Shifted, ReceiveList, FirstCalls;
      FirstRoom(mem, offs, ms);
      var rest := CallsExactly(mem, offs[1..], ms[1..], fails);
      var calls := ReceiveList(mem, offs[1..], ms[1..], fails).calls;
      FirstCall(mem, offs, ms, fails);
      FirstCallsAre(mem, offs, ms, fails);
      IncreasingNext(rest);
      CallsNext(calls, mem, offs, ms, rest);
      ReachingNext(mem, offs, ms, fails, rest);
      idx := if Dispatched(mem, offs, ms, fails, 0) then [0] + Shifted(rest) else Shifted(rest);
      assert [] + calls == calls;
    }
  }

  /**
   netctrl_receive_skb on any buffer, by the one list of messages it reads as:
   the handler calls and the acknowledgements, each exactly, once and in order.
   */
  lemma ReceivesExactly(buf: seq<byte>, behind: seq<byte>, ms: seq<F.Message>, fails: set<nat>)
    returns (called: seq<nat>, acked: seq<nat>)
    requires F.ReadsAs(buf, ms) && |behind| >= EXTRA
    ensures var mem, offs := buf + behind, F.Offsets(0, ms);
            var r := ReceiveFrom(mem, 0, |buf|, fails);
            && Room(mem, offs, ms)
            && Dispatches(r.calls, mem, offs, ms, fails, called)
            && F.Answers(r.acks, offs, ms, Errs(offs, ms, fails), acked)
  {
    hide Dispatches, F.Answers, ReceiveFrom, ReceiveList, F.ReadsAs, Room, Errs;
    ReceivesList(buf, behind, ms, fails);
    called := CallsExactly(buf + behind, F.Offsets(0, ms), ms, fails);
    acked := AcksExactly(buf + behind, F.Offsets(0, ms), ms, fails);
  }

  /** One message alone in the buffer. */
  lemma OneMessage(b: seq<byte>, behind: seq<byte>, m: F.Message)
    requires |b| == F.HDRLEN + |m.payload| && |behind| >= EXTRA
    ensures F.Offsets(0, [m]) == [0] && Room(b + behind, [0], [m])
    ensures ReceiveList(b + behind, [0], [m], {}) == Share(0, m.ty, m.flags, m.payload + behind[..EXTRA], false)
  {
    hide Share;
    assert [m][1..] == [] && F.Offsets(0, [m])[1..] == [];
    assert (b + behind)[|b|..|b| + EXTRA] == behind[..EXTRA];
  }

  /** The check is missing for real: a bare AUTH_PORT header makes the handler read its port outside the copy. */
  lemma BareHeaderReadsOutside(pid: u32)
    ensures var m := F.Message(AUTH_PORT, 0, 0, pid, []);
            var calls := ReceiveFrom(F.Frame(m) + [2, 0, 0, 0], 0, |F.Frame(m)|, {}).calls;
            calls == [Call(AUTH_PORT, [])] && Handle(calls[0]) == None
  {
    hide F.Frame, F.ReadsAs, ReceiveFrom, ReceiveList, Share, Room, F.Offsets, Handle, F.Message.Fits;
    var m, behind: seq<byte> := F.Message(AUTH_PORT, 0, 0, pid, []), [2, 0, 0, 0];
    BareFits(m);
    var b := F.Frame(m);
    F.FrameReads(m);
    ReceivesList(b, behind, [m], {});
    OneMessage(b, behind, m);
    assert [] + behind[..EXTRA] == behind;
    EmptyPort(behind);
  }

  lemma BareFits(m: F.Message)
    requires m.payload == []
    ensures m.Fits() && Handle(Call(AUTH_PORT, [])) == None
  {
  }

  lemma EmptyPort(data: seq<byte>)
    requires data == [2, 0, 0, 0]
    ensures Share(0, AUTH_PORT, 0, data, false).calls == [Call(AUTH_PORT, [])]
  {
    assert GetLe16(data, 0) == AUTH_PORT && data[4..] == [];
  }
}
