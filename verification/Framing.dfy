/**
 Netlink framing (section 2.3.2 of RFC 3549): the 16-byte message header, the
 4-byte alignment of successive messages, and the walk over a received buffer
 that both kernel modules perform with nlmsg_ok and nlmsg_next.
 */
module Framing {
  import opened Prelude
  import opened Bytes

  const HDRLEN: nat := 16
  const NLM_F_ACK: nat := 4
  const NLMSG_DONE: u16 := 3
  const EINVAL: int := 22

  datatype Header = Header(len: u32, ty: u16, flags: u16, seqNo: u32, pid: u32)

  datatype Message = Message(ty: u16, flags: u16, seqNo: u32, pid: u32, payload: seq<byte>) {
    predicate Fits() { HDRLEN + |payload| < 0x8000_0000 }
  }

  /** NLMSG_ALIGN: the next multiple of four. */
  function Align(n: int): (a: int)
    ensures n <= a < n + 4 && a % 4 == 0
  {
    (n + 3) / 4 * 4
  }

  predicate WantsAck(flags: u16) { flags / NLM_F_ACK % 2 == 1 }

  function EncodeHeader(h: Header): (b: seq<byte>)
    ensures |b| == HDRLEN
  {
    Le32(h.len) + Le16(h.ty) + Le16(h.flags) + Le32(h.seqNo) + Le32(h.pid)
  }

  function ParseHeader(buf: seq<byte>, off: nat): (h: Header)
    requires off + HDRLEN <= |buf|
  {
    Header(GetLe32(buf, off), GetLe16(buf, off + 4), GetLe16(buf, off + 6),
           GetLe32(buf, off + 8), GetLe32(buf, off + 12))
  }

  /** The nlmsg_len field of the message at `off`. */
  function MsgLen(buf: seq<byte>, off: nat): (n: u32)
    requires off + HDRLEN <= |buf|
  {
    GetLe32(buf, off)
  }

  /** A header written anywhere in a buffer is read back unchanged. */
  lemma HeaderRoundTrip(pre: seq<byte>, h: Header, post: seq<byte>)
    ensures ParseHeader(pre + EncodeHeader(h) + post, |pre|) == h
  {
    var b := pre + EncodeHeader(h) + post;
    var n := |pre|;
    assert b[n..n + 4] == Le32(h.len) && b[n + 4..n + 6] == Le16(h.ty) && b[n + 6..n + 8] == Le16(h.flags);
    assert b[n + 8..n + 12] == Le32(h.seqNo) && b[n + 12..n + 16] == Le32(h.pid);
    assert GetLe32(b, n) == GetLe32(b[n..n + 4], 0);
    assert GetLe16(b, n + 4) == GetLe16(b[n + 4..n + 6], 0);
    assert GetLe16(b, n + 6) == GetLe16(b[n + 6..n + 8], 0);
    assert GetLe32(b, n + 8) == GetLe32(b[n + 8..n + 12], 0);
    assert GetLe32(b, n + 12) == GetLe32(b[n + 12..n + 16], 0);
  }

  // ---- the walk ----

  /** nlmsg_ok: the remaining bytes hold a header, and the message it declares. */
  predicate Ok(buf: seq<byte>, off: nat, rem: int)
    requires off + rem <= |buf|
  {
    HDRLEN <= rem && HDRLEN <= MsgLen(buf, off) <= rem
  }

  /** The offsets of the messages visited from `off` with `rem` bytes left. */
  function Walk(buf: seq<byte>, off: nat, rem: int): (v: seq<nat>)
    requires off + rem <= |buf|
    decreases rem
  {
    if Ok(buf, off, rem) then
      var step := Align(MsgLen(buf, off));
      [off] + Walk(buf, off + step, rem - step)
    else []
  }

  lemma WalkTail(buf: seq<byte>, off: nat, rem: int)
    requires off + rem <= |buf| && Walk(buf, off, rem) != []
    ensures HDRLEN <= rem && Ok(buf, off, rem) && Walk(buf, off, rem)[0] == off
    ensures var n := Align(MsgLen(buf, off)); Walk(buf, off, rem)[1..] == Walk(buf, off + n, rem - n)
  {
    hide MsgLen, Align;
  }

  /** The header and the declared extent of a message both lie between `lo` and `hi`. */
  predicate Inside(buf: seq<byte>, off: nat, lo: nat, hi: int)
    requires hi <= |buf|
  {
    lo <= off && off + HDRLEN <= hi && HDRLEN <= MsgLen(buf, off) && off + MsgLen(buf, off) <= hi
  }

  /**
   For every buffer and claimed length: each visited message lies inside the
   claimed bytes and starts at the aligned end of the one before it, and there
   is at most one per 16 bytes.
   */
  lemma {:induction false} WalkInside(buf: seq<byte>, off: nat, rem: int)
    requires off + rem <= |buf|
    ensures var v := Walk(buf, off, rem);
            && (forall i | 0 <= i < |v| :: Inside(buf, v[i], off, off + rem))
            && (forall i | 0 < i < |v| :: v[i] == v[i - 1] + Align(MsgLen(buf, v[i - 1])))
    ensures HDRLEN * |Walk(buf, off, rem)| <= if rem < 0 then 0 else rem
    decreases rem
  {
    if Ok(buf, off, rem) {
      var step := Align(MsgLen(buf, off));
      WalkInside(buf, off + step, rem - step);
      WalkStart(buf, off + step, rem - step);
    }
  }

  lemma WalkStart(buf: seq<byte>, off: nat, rem: int)
    requires off + rem <= |buf|
    ensures Walk(buf, off, rem) != [] ==> Walk(buf, off, rem)[0] == off
  {
  }

  /** The message found at a visited offset. */
  function MessageAt(buf: seq<byte>, off: nat): (m: Message)
    requires off + HDRLEN <= |buf|
    requires HDRLEN <= MsgLen(buf, off) && off + MsgLen(buf, off) <= |buf|
  {
    Message(GetLe16(buf, off + 4), GetLe16(buf, off + 6), GetLe32(buf, off + 8), GetLe32(buf, off + 12),
            buf[off + HDRLEN..off + MsgLen(buf, off)])
  }

  /**
   nlmsg_next works in 32-bit ints: the aligned length can overflow and so can
   the subtraction.  For every message nlmsg_ok lets through the two overflows
   cancel, so the counter is exactly the number of bytes left, possibly -3 to -1.
   */
  lemma NextCounterExact(len: u32, rem: int32)
    requires len <= rem
    ensures ToInt32(rem - ToInt32(Align(len))) == rem - Align(len)
    ensures rem - Align(len) >= -3
  {
  }

  // ---- laying messages out ----

  function HeaderOf(m: Message): (h: Header)
    requires m.Fits()
  {
    Header(HDRLEN + |m.payload|, m.ty, m.flags, m.seqNo, m.pid)
  }

  /** The aligned room a message takes. */
  function Size(m: Message): (n: nat) { Align(HDRLEN + |m.payload|) }

  function LayoutSize(ms: seq<Message>): (n: nat)
  {
    if ms == [] then 0 else Size(ms[0]) + LayoutSize(ms[1..])
  }

  /** Where messages laid out from `off` on start. */
  function Offsets(off: nat, ms: seq<Message>): (v: seq<nat>)
    ensures |v| == |ms|
    decreases |ms|
  {
    if ms == [] then [] else [off] + Offsets(off + Size(ms[0]), ms[1..])
  }

  function Frame(m: Message): (b: seq<byte>)
    requires m.Fits()
    ensures |b| == HDRLEN + |m.payload|
  {
    EncodeHeader(HeaderOf(m)) + m.payload
  }

  function Padded(m: Message): (b: seq<byte>)
    requires m.Fits()
    ensures |b| == Size(m)
  {
    Frame(m) + Zeros(Size(m) - HDRLEN - |m.payload|)
  }

  ghost predicate AllFit(ms: seq<Message>) { forall i | 0 <= i < |ms| :: ms[i].Fits() }

  function Concat(blocks: seq<seq<byte>>): (b: seq<byte>)
  {
    if blocks == [] then [] else blocks[0] + Concat(blocks[1..])
  }

  /** Messages laid end to end, each padded to four bytes. */
  function Layout(ms: seq<Message>): (b: seq<byte>)
    requires AllFit(ms)
  {
    Concat(seq(|ms|, i requires 0 <= i < |ms| => Padded(ms[i])))
  }

  /** A message is found intact at `off`. */
  ghost predicate IntactAt(buf: seq<byte>, off: nat, m: Message)
  {
    Inside(buf, off, 0, |buf|) && MessageAt(buf, off) == m
  }

  /** What a block carries does not depend on what surrounds it. */
  lemma IntactWithin(pre: seq<byte>, block: seq<byte>, off: nat, m: Message, post: seq<byte>)
    requires IntactAt(block, off, m)
    ensures IntactAt(pre + block + post, |pre| + off, m)
  {
    var buf, o := pre + block + post, |pre| + off;
    assert forall k | 0 <= k < |block| :: buf[|pre| + k] == block[k];
    assert MsgLen(buf, o) == MsgLen(block, off);
    assert buf[o + HDRLEN..o + MsgLen(buf, o)] == block[off + HDRLEN..off + MsgLen(block, off)];
  }

  lemma FrameCarries(m: Message)
    requires m.Fits()
    ensures IntactAt(Frame(m), 0, m)
  {
    HeaderRoundTrip([], HeaderOf(m), m.payload);
    assert [] + EncodeHeader(HeaderOf(m)) + m.payload == Frame(m);
    assert ParseHeader(Frame(m), 0) == HeaderOf(m);
    assert Frame(m)[HDRLEN..] == m.payload;
  }

  /** A frame byte by byte: little-endian length, type, flags, sequence number and pid, then the payload. */
  lemma FrameBytes(m: Message)
    requires m.Fits()
    ensures var b := Frame(m);
            && |b| == 16 + |m.payload| && Spells(b[..4], |b|) && Spells(b[4..6], m.ty) && Spells(b[6..8], m.flags)
            && Spells(b[8..12], m.seqNo) && Spells(b[12..16], m.pid) && b[16..] == m.payload
  {
    hide Le32, Le16, Spells;
    var b, h := Frame(m), HeaderOf(m);
    assert b[..4] == Le32(h.len) && b[4..6] == Le16(h.ty) && b[6..8] == Le16(h.flags);
    assert b[8..12] == Le32(h.seqNo) && b[12..16] == Le32(h.pid) && b[16..] == m.payload;
    Le32Spells(h.len);
    Le32Spells(h.seqNo);
    Le32Spells(h.pid);
    Le16Spells(h.ty);
    Le16Spells(h.flags);
  }

  lemma PaddedCarries(m: Message)
    requires m.Fits()
    ensures IntactAt(Padded(m), 0, m)
  {
    FrameCarries(m);
    var pad := Zeros(Size(m) - HDRLEN - |m.payload|);
    IntactWithin([], Frame(m), 0, m, pad);
    assert [] + Frame(m) + pad == Padded(m);
  }

  /** The messages `ms` can be read one after the other from `off` on. */
  ghost predicate Chain(buf: seq<byte>, off: nat, ms: seq<Message>)
    decreases |ms|
  {
    ms == [] || (IntactAt(buf, off, ms[0]) && Chain(buf, off + Size(ms[0]), ms[1..]))
  }

  lemma {:induction false} ChainWithin(pre: seq<byte>, buf: seq<byte>, off: nat, ms: seq<Message>)
    requires Chain(buf, off, ms)
    ensures Chain(pre + buf, |pre| + off, ms)
    decreases |ms|
  {
    if ms != [] {
      IntactWithin(pre, buf, off, ms[0], []);
      assert pre + buf + [] == pre + buf;
      ChainWithin(pre, buf, off + Size(ms[0]), ms[1..]);
    }
  }

  ghost predicate Carries(blocks: seq<seq<byte>>, ms: seq<Message>)
  {
    |blocks| == |ms| && forall i | 0 <= i < |ms| :: IntactAt(blocks[i], 0, ms[i]) && |blocks[i]| == Size(ms[i])
  }

  /** Blocks carrying `ms`, followed by anything carrying `more`, carry both. */
  lemma {:induction false} BlocksChain(blocks: seq<seq<byte>>, ms: seq<Message>, tail: seq<byte>, more: seq<Message>)
    requires Carries(blocks, ms) && Chain(tail, 0, more)
    ensures Chain(Concat(blocks) + tail, 0, ms + more)
    ensures |Concat(blocks)| == LayoutSize(ms)
    decreases |ms|
  {
    hide IntactAt, Chain, Size;
    if ms == [] {
      assert Concat(blocks) + tail == tail && ms + more == more;
    } else {
      var rest := Concat(blocks[1..]) + tail;
      BlocksChain(blocks[1..], ms[1..], tail, more);
      ChainPrepend(blocks[0], ms[0], rest, ms[1..] + more);
      assert Concat(blocks) + tail == blocks[0] + rest;
      assert ms + more == [ms[0]] + (ms[1..] + more);
    }
  }

  lemma ChainPrepend(head: seq<byte>, m: Message, rest: seq<byte>, more: seq<Message>)
    requires IntactAt(head, 0, m) && |head| == Size(m) && Chain(rest, 0, more)
    ensures Chain(head + rest, 0, [m] + more)
  {
    hide IntactAt;
    ChainWithin(head, rest, 0, more);
    IntactWithin([], head, 0, m, rest);
    assert [] + head + rest == head + rest;
    assert ([m] + more)[1..] == more;
  }

  lemma LayoutChain(ms: seq<Message>, tail: seq<byte>, more: seq<Message>)
    requires AllFit(ms) && Chain(tail, 0, more)
    ensures Chain(Layout(ms) + tail, 0, ms + more) && |Layout(ms)| == LayoutSize(ms)
  {
    var blocks := seq(|ms|, i requires 0 <= i < |ms| => Padded(ms[i]));
    forall i | 0 <= i < |ms| ensures IntactAt(blocks[i], 0, ms[i]) && |blocks[i]| == Size(ms[i]) {
      PaddedCarries(ms[i]);
    }
    BlocksChain(blocks, ms, tail, more);
  }

  /** If nothing after the chained messages passes nlmsg_ok, the walk visits exactly them. */
  lemma {:induction false} WalkChain(buf: seq<byte>, off: nat, rem: int, ms: seq<Message>, end: nat, left: int)
    requires Chain(buf, off, ms) && off + rem == |buf| == end + left
    requires end == off + LayoutSize(ms) && !Ok(buf, end, left)
    ensures Walk(buf, off, rem) == Offsets(off, ms)
    decreases |ms|
  {
    hide IntactAt, Ok, MsgLen, Align;
    if ms != [] {
      IntactOk(buf, off, rem, ms[0]);
      WalkChain(buf, off + Size(ms[0]), rem - Size(ms[0]), ms[1..], end, left);
    }
  }

  lemma IntactOk(buf: seq<byte>, off: nat, rem: int, m: Message)
    requires IntactAt(buf, off, m) && off + rem == |buf|
    ensures Ok(buf, off, rem) && Align(MsgLen(buf, off)) == Size(m)
  {
  }

  /** Every chained message is found intact at its offset. */
  lemma {:induction false} ChainIntact(buf: seq<byte>, off: nat, ms: seq<Message>, i: nat)
    requires Chain(buf, off, ms) && i < |ms|
    ensures IntactAt(buf, Offsets(off, ms)[i], ms[i])
    decreases |ms|
  {
    if i > 0 {
      ChainIntact(buf, off + Size(ms[0]), ms[1..], i - 1);
    }
  }

  /** The walk over the whole buffer visits exactly the messages `ms`, in order, and finds each intact. */
  ghost predicate ReadsAs(buf: seq<byte>, ms: seq<Message>)
  {
    && Walk(buf, 0, |buf|) == Offsets(0, ms)
    && forall i | 0 <= i < |ms| :: IntactAt(buf, Offsets(0, ms)[i], ms[i])
  }

  /** What the walk finds. */
  function MessagesIn(buf: seq<byte>, off: nat, rem: int): (ms: seq<Message>)
    requires off + rem <= |buf|
    decreases rem
  {
    if Ok(buf, off, rem) then
      var step := Align(MsgLen(buf, off));
      [MessageAt(buf, off)] + MessagesIn(buf, off + step, rem - step)
    else []
  }

  lemma {:induction false} WalkFinds(buf: seq<byte>, off: nat, rem: int)
    requires off + rem <= |buf|
    ensures var ms := MessagesIn(buf, off, rem);
            Walk(buf, off, rem) == Offsets(off, ms) && AllIntact(buf, Offsets(off, ms), ms)
    decreases rem
  {
    hide *;
    WalkNext(buf, off, rem);
    if !Ok(buf, off, rem) {
      NoneIntact(buf, off);
    } else {
      var m, n := MessageAt(buf, off), Align(MsgLen(buf, off));
      Found(buf, off, rem);
      WalkFinds(buf, off + n, rem - n);
      MoreIntact(buf, off, m, MessagesIn(buf, off + n, rem - n));
    }
  }

  lemma WalkNext(buf: seq<byte>, off: nat, rem: int)
    requires off + rem <= |buf|
    ensures !Ok(buf, off, rem) ==> Walk(buf, off, rem) == [] && MessagesIn(buf, off, rem) == []
    ensures Ok(buf, off, rem) ==>
              var n := Align(MsgLen(buf, off));
              && HDRLEN <= MsgLen(buf, off) <= rem
              && Walk(buf, off, rem) == [off] + Walk(buf, off + n, rem - n)
              && MessagesIn(buf, off, rem) == [MessageAt(buf, off)] + MessagesIn(buf, off + n, rem - n)
  {
  }

  lemma NoneIntact(buf: seq<byte>, off: nat)
    ensures Offsets(off, []) == [] && AllIntact(buf, [], [])
  {
  }

  lemma Found(buf: seq<byte>, off: nat, rem: int)
    requires off + rem <= |buf| && Ok(buf, off, rem)
    ensures IntactAt(buf, off, MessageAt(buf, off)) && Size(MessageAt(buf, off)) == Align(MsgLen(buf, off))
  {
  }

  lemma MoreIntact(buf: seq<byte>, off: nat, m: Message, ms: seq<Message>)
    requires IntactAt(buf, off, m) && AllIntact(buf, Offsets(off + Size(m), ms), ms)
    ensures Offsets(off, [m] + ms) == [off] + Offsets(off + Size(m), ms)
    ensures AllIntact(buf, Offsets(off, [m] + ms), [m] + ms)
  {
    hide IntactAt, Size;
    assert ([m] + ms)[1..] == ms;
  }

  lemma {:induction false} SameSpan(buf: seq<byte>, ms: seq<Message>, other: seq<Message>)
    requires AllIntact(buf, Offsets(0, ms), ms) && AllIntact(buf, Offsets(0, other), other)
    requires Offsets(0, ms) == Offsets(0, other)
    ensures ms == other
  {
    hide IntactAt;
    forall i | 0 <= i < |ms| ensures ms[i] == other[i] {
      OneReading(buf, Offsets(0, ms)[i], ms[i], other[i]);
    }
  }

  lemma OneReading(buf: seq<byte>, off: nat, m: Message, other: Message)
    requires IntactAt(buf, off, m) && IntactAt(buf, off, other)
    ensures m == other
  {
  }

  /** Every buffer, well formed or not, reads as exactly one list of messages. */
  lemma EveryBufferReads(buf: seq<byte>, ms: seq<Message>)
    ensures ReadsAs(buf, ms) <==> ms == MessagesIn(buf, 0, |buf|)
  {
    hide IntactAt, MessagesIn, Walk, Offsets;
    WalkFinds(buf, 0, |buf|);
    if ReadsAs(buf, ms) {
      SameSpan(buf, ms, MessagesIn(buf, 0, |buf|));
    }
  }

  lemma ChainReads(buf: seq<byte>, ms: seq<Message>, end: nat, left: int)
    requires Chain(buf, 0, ms) && end == LayoutSize(ms) && end + left == |buf| && !Ok(buf, end, left)
    ensures ReadsAs(buf, ms)
  {
    forall i | 0 <= i < |ms| ensures IntactAt(buf, Offsets(0, ms)[i], ms[i]) {
      ChainIntact(buf, 0, ms, i);
    }
    WalkChain(buf, 0, |buf|, ms, end, left);
  }

  /** A malformed header, or too few bytes for one, ends the walk without changing what came before it. */
  lemma LayoutReads(ms: seq<Message>, tail: seq<byte>)
    requires AllFit(ms) && (|tail| < 16 || GetLe32(tail, 0) < 16 || GetLe32(tail, 0) > |tail|)
    ensures ReadsAs(Layout(ms) + tail, ms)
  {
    LayoutChain(ms, tail, []);
    assert ms + [] == ms;
    SuffixOk(Layout(ms), tail);
    ChainReads(Layout(ms) + tail, ms, |Layout(ms)|, |tail|);
  }

  lemma SuffixOk(pre: seq<byte>, tail: seq<byte>)
    ensures Ok(pre + tail, |pre|, |tail|) == Ok(tail, 0, |tail|)
  {
    if |tail| >= HDRLEN {
      assert (pre + tail)[|pre|..] == tail;
      assert MsgLen(pre + tail, |pre|) == MsgLen(tail, 0);
    }
  }

  /** The last message may also come without its padding. */
  lemma UnpaddedReads(ms: seq<Message>, last: Message)
    requires AllFit(ms) && last.Fits()
    ensures ReadsAs(Layout(ms) + Frame(last), ms + [last])
  {
    FrameCarries(last);
    ChainOfOne(Frame(last), last);
    LayoutChain(ms, Frame(last), [last]);
    LayoutSizeAppend(ms, last);
    var buf, end := Layout(ms) + Frame(last), LayoutSize(ms + [last]);
    ChainReads(buf, ms + [last], end, |buf| - end);
  }

  /** One message, nothing else. */
  lemma FrameReads(m: Message)
    requires m.Fits()
    ensures ReadsAs(Frame(m), [m])
  {
    hide Frame, ReadsAs;
    UnpaddedReads([], m);
    assert Layout([]) + Frame(m) == Frame(m) && [] + [m] == [m];
  }

  lemma ChainOfOne(buf: seq<byte>, m: Message)
    requires IntactAt(buf, 0, m)
    ensures Chain(buf, 0, [m])
  {
    assert [m][1..] == [];
  }

  lemma {:induction false} LayoutSizeAppend(ms: seq<Message>, last: Message)
    ensures LayoutSize(ms + [last]) == LayoutSize(ms) + Size(last)
  {
    if ms != [] {
      LayoutSizeAppend(ms[1..], last);
      assert (ms + [last])[1..] == ms[1..] + [last];
    }
  }

  /** Every message of the list is found intact at its offset. */
  ghost predicate AllIntact(buf: seq<byte>, offs: seq<nat>, ms: seq<Message>)
  {
    |offs| == |ms| && forall i | 0 <= i < |ms| :: IntactAt(buf, offs[i], ms[i])
  }

  lemma FirstIntact(buf: seq<byte>, offs: seq<nat>, ms: seq<Message>)
    requires AllIntact(buf, offs, ms) && ms != [] && offs != []
    ensures IntactAt(buf, offs[0], ms[0]) && AllIntact(buf, offs[1..], ms[1..])
  {
    hide IntactAt;
  }

  // ---- acknowledgements (section 2.3.2.2 of RFC 3549) ----

  /** netlink_ack for the message at `off`. */
  datatype Ack = Ack(off: nat, err: int)

  /** Both receive loops acknowledge a message that failed or asks for it. */
  function AckFor(off: nat, err: int, flags: u16): (acks: seq<Ack>)
  {
    if err != 0 || WantsAck(flags) then [Ack(off, err)] else []
  }

  /**
   The acknowledgements are those of the messages number idx[0] < idx[1] < ...,
   each with its own error, and these are exactly the messages that failed or
   carry the ACK flag.
   */
  ghost predicate Answers(acks: seq<Ack>, offs: seq<nat>, ms: seq<Message>, errs: seq<int>, idx: seq<nat>)
    requires |offs| == |errs| == |ms|
  {
    Increasing(idx) && Labelled(acks, offs, errs, idx) && Chosen(ms, errs, idx)
  }

  ghost predicate Labelled(acks: seq<Ack>, offs: seq<nat>, errs: seq<int>, idx: seq<nat>)
    requires |offs| == |errs|
  {
    |idx| == |acks| && forall k | 0 <= k < |idx| :: idx[k] < |errs| && acks[k] == Ack(offs[idx[k]], errs[idx[k]])
  }

  ghost predicate Chosen(ms: seq<Message>, errs: seq<int>, idx: seq<nat>)
    requires |errs| == |ms|
  {
    forall i | 0 <= i < |ms| :: i in idx <==> errs[i] != 0 || ms[i].flags / 4 % 2 == 1
  }

  /** One more message in front. */
  lemma AnswersNext(rest: seq<Ack>, offs: seq<nat>, ms: seq<Message>, errs: seq<int>, idx: seq<nat>)
    returns (all: seq<nat>)
    requires |offs| == |errs| == |ms| && ms != [] && Answers(rest, offs[1..], ms[1..], errs[1..], idx)
    ensures Answers(AckFor(offs[0], errs[0], ms[0].flags) + rest, offs, ms, errs, all)
  {
    hide WantsAck, Increasing, Labelled, Chosen, Shifted;
    all := if errs[0] != 0 || WantsAck(ms[0].flags) then [0] + Shifted(idx) else Shifted(idx);
    assert [] + rest == rest;
    IncreasingNext(idx);
    LabelledNext(rest, offs, errs, idx);
    ChosenNext(ms, errs, idx);
  }

  lemma LabelledNext(rest: seq<Ack>, offs: seq<nat>, errs: seq<int>, idx: seq<nat>)
    requires |offs| == |errs| && errs != [] && Labelled(rest, offs[1..], errs[1..], idx)
    ensures Labelled(rest, offs, errs, Shifted(idx))
    ensures Labelled([Ack(offs[0], errs[0])] + rest, offs, errs, [0] + Shifted(idx))
  {
    hide Shifted;
  }

  lemma ChosenNext(ms: seq<Message>, errs: seq<int>, idx: seq<nat>)
    requires |errs| == |ms| && ms != [] && Chosen(ms[1..], errs[1..], idx)
    ensures Chosen(ms, errs, if errs[0] != 0 || WantsAck(ms[0].flags) then [0] + Shifted(idx) else Shifted(idx))
  {
    hide Shifted;
    forall i | 0 <= i < |ms| ensures i in Shifted(idx) <==> i > 0 && (errs[i] != 0 || ms[i].flags / 4 % 2 == 1) {
      ShiftedMember(idx, i);
      assert i > 0 ==> (i - 1 in idx <==> errs[1..][i - 1] != 0 || ms[1..][i - 1].flags / 4 % 2 == 1);
    }
  }
}
