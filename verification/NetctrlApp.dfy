/**
 The user-space netctrl tool: options become a command, the command a typed
 body, the body a struct msg_buf, and that the payload of a netlink message.
 */
module NetctrlApp {
  import opened Prelude
  import opened Bytes
  import F = Framing
  import K = Netctrl

  const MAX_MSGSIZE: nat := 2048
  const IP_SIZE: nat := 32

  predicate NoZeros(text: seq<byte>) { forall i | 0 <= i < |text| :: text[i] != 0 }

  /** A C string without its terminator. */
  type Text = t: seq<byte> | NoZeros(t)

  /** struct syscmd; a freshly zeroed one names no known type. */
  datatype Command = Unset | Ip(text: Text) | Port(port: int32) | Id(id: int32)

  /** An option as getopt_long returns it; `number` is atoi of its argument. */
  datatype Argument = Argument(text: Text, number: int32)
  datatype Opt = Opt(c: char, arg: Option<Argument>)

  // ---- options ----

  predicate Accepted(o: Opt) { o.arg.Some? && (o.c == 'd' || o.c == 'p' || o.c == 'i') }

  function CommandOf(o: Opt): (cmd: Command)
    requires Accepted(o)
  {
    if o.c == 'd' then Id(o.arg.value.number)
    else if o.c == 'p' then Port(o.arg.value.number)
    else Ip(o.arg.value.text)
  }

  /** syscmd_parse_args: succeeds exactly when every option is a command option, and the last one wins. */
  method ParseArgs(opts: seq<Opt>) returns (ret: int, cmd: Command)
    ensures ret == 0 <==> forall i | 0 <= i < |opts| :: Accepted(opts[i])
    ensures ret == 0 ==> cmd == if opts == [] then Unset else CommandOf(opts[|opts| - 1])
  {
    ret, cmd := 0, Unset;
    for i := 0 to |opts|
      invariant ret == 0 <==> forall j | 0 <= j < i :: Accepted(opts[j])
      invariant ret == 0 ==> cmd == if i == 0 then Unset else CommandOf(opts[i - 1])
    {
      var o := opts[i];
      if o.arg == None {
        ret := -1;
        break;
      }
      match o.c {
        case 'd' => cmd := Id(o.arg.value.number);
        case 'p' => cmd := Port(o.arg.value.number);
        case 'i' => cmd := Ip(o.arg.value.text);
        case _ => ret := -1;
      }
    }
  }

  // ---- bodies ----

  /** What strncpy leaves in a 32-byte field. */
  function Field(text: seq<byte>): (f: seq<byte>)
    ensures |f| == IP_SIZE
  {
    if |text| >= IP_SIZE then text[..IP_SIZE] else text + Zeros(IP_SIZE - |text|)
  }

  method Strncpy(dst: array<byte>, text: seq<byte>)
    requires dst.Length == IP_SIZE
    modifies dst
    ensures dst[..] == Field(text)
    ensures forall k | 0 <= k < 32 :: dst[k] == if k < |text| then text[k] else 0
  {
    var i := 0;
    while i < IP_SIZE
      invariant 0 <= i <= IP_SIZE
      invariant dst[..i] == Field(text)[..i]
    {
      dst[i] := if i < |text| then text[i] else 0;
      i := i + 1;
    }
  }

  function TypeOf(cmd: Command): (ty: u16)
  {
    match cmd
    case Unset => 0
    case Ip(_) => K.AUTH_IP
    case Port(_) => K.AUTH_PORT
    case Id(_) => K.AUTH_ID
  }

  function BodyOf(cmd: Command): (b: seq<byte>)
    ensures |b| <= IP_SIZE
  {
    match cmd
    case Unset => []
    case Ip(text) => Field(text)
    case Port(n) => Le32(ToU32(n))
    case Id(n) => Le32(ToU32(n))
  }

  // ---- messages ----

  /** struct msg_buf: type, 16-bit length, body. */
  function MsgBuf(ty: u16, body: seq<byte>): (b: seq<byte>)
    ensures |b| == 4 + |body|
  {
    Le16(ty) + Le16(|body| % 0x1_0000) + body
  }

  function Wire(ty: u16, body: seq<byte>, pid: u32): (m: F.Message)
  {
    F.Message(ty, 0, 0, pid, MsgBuf(ty, body))
  }

  /** send_msg_to_kernel: the bytes handed to sendmsg, or none when the message is too long. */
  method SendMsgToKernel(buf: seq<byte>, pid: u32) returns (wire: Option<seq<byte>>)
    requires |buf| >= 4
    ensures wire == if |buf| >= 2048 then None
                    else Some(F.Frame(F.Message(GetLe16(buf, 0), 0, 0, pid, buf)))
  {
    hide Le32, Le16, GetLe16, GetLe32;
    if |buf| >= MAX_MSGSIZE {
      return None;
    }
    var nlhdr := new byte[F.Align(F.HDRLEN + MAX_MSGSIZE)](i => 0);
    Store(nlhdr, F.HDRLEN, buf);
    assert nlhdr[8..12] == Zeros(4);
    ghost var rest := nlhdr[16..];
    assert rest[..|buf|] == buf;
    FillHeader(nlhdr, GetLe16(buf, 0), F.HDRLEN + |buf|, pid, 0);
    wire := Some(nlhdr[..F.HDRLEN + |buf|]);
    ZeroField();
    ghost var m := F.Message(GetLe16(buf, 0), 0, 0, pid, buf);
    CutBehind(nlhdr[..], F.EncodeHeader(F.HeaderOf(m)), rest, |buf|);
    assert nlhdr[..F.HDRLEN + |buf|] == nlhdr[..][..F.HDRLEN + |buf|] == F.Frame(m);
  }

  lemma CutBehind(a: seq<byte>, head: seq<byte>, rest: seq<byte>, n: nat)
    requires a == head + rest && n <= |rest|
    ensures a[..|head| + n] == head + rest[..n]
  {
  }

  /** The four header stores; nlmsg_seq keeps what calloc left there. */
  method FillHeader(a: array<byte>, ty: u16, len: u32, pid: u32, flags: u16)
    requires a.Length >= F.HDRLEN
    modifies a
    ensures a[..] == Le32(len) + Le16(ty) + Le16(flags) + old(a[8..12]) + Le32(pid) + old(a[16..])
  {
    hide Le32, Le16, Overlay;
    FourStores(a[..], Le16(ty), Le32(len), Le32(pid), Le16(flags));
    Store(a, 4, Le16(ty));
    Store(a, 0, Le32(len));
    Store(a, 12, Le32(pid));
    Store(a, 6, Le16(flags));
  }

  lemma FourStores(z: seq<byte>, ty: seq<byte>, len: seq<byte>, pid: seq<byte>, flags: seq<byte>)
    requires |z| >= F.HDRLEN && |ty| == 2 && |len| == 4 && |pid| == 4 && |flags| == 2
    ensures Overlay(Overlay(Overlay(Overlay(z, 4, ty), 0, len), 12, pid), 6, flags)
            == len + ty + flags + z[8..12] + pid + z[16..]
  {
    hide Overlay;
  }

  lemma ZeroField()
    ensures Le32(0) == Zeros(4)
  {
  }

  lemma MsgBufType(ty: u16, body: seq<byte>)
    ensures GetLe16(MsgBuf(ty, body), 0) == ty
    ensures body == [] ==> MsgBuf(ty, body) == Le16(ty) + Zeros(2)
  {
    var b := MsgBuf(ty, body);
    assert b[..2] == Le16(ty) && GetLe16(b, 0) == GetLe16(b[..2], 0);
  }

  /** auth_kernel_config_cmd: wraps the body and sends it. */
  method AuthKernelConfigCmd(operation: u16, body: seq<byte>, pid: u32) returns (wire: Option<seq<byte>>)
    ensures wire == if 4 + |body| >= 2048 then None else Some(F.Frame(Wire(operation, body, pid)))
  {
    MsgBufType(operation, body);
    hide Le32, Le16, GetLe16, GetLe32, F.Frame;
    var msg := new byte[4 + |body|](i => 0);
    Store(msg, 0, Le16(operation));
    if |body| != 0 {
      Store(msg, 2, Le16(|body| % 0x1_0000));
      Store(msg, 4, body);
    }
    assert msg[..] == MsgBuf(operation, body);
    wire := SendMsgToKernel(msg[..], pid);
  }

  /** syscmd_proc */
  method SyscmdProc(cmd: Command, pid: u32) returns (wire: Option<seq<byte>>)
    ensures wire == if cmd == Unset then None else Some(F.Frame(Wire(TypeOf(cmd), BodyOf(cmd), pid)))
  {
    match cmd {
      case Unset => wire := None;
      case Ip(text) =>
        var ip := new byte[IP_SIZE];
        Strncpy(ip, text);
        wire := AuthKernelConfigCmd(K.AUTH_IP, ip[..], pid);
      case Port(n) => wire := AuthKernelConfigCmd(K.AUTH_PORT, Le32(ToU32(n)), pid);
      case Id(n) => wire := AuthKernelConfigCmd(K.AUTH_ID, Le32(ToU32(n)), pid);
    }
  }

  // ---- to the kernel and back ----

  /**
   Any typed body survives the three layers: whatever four bytes follow, the
   kernel loop makes exactly one call, of the handler for its type, with the
   body followed by those bytes, and acknowledges nothing.
   */
  lemma BodyRoundTrip(ty: u16, body: seq<byte>, pid: u32, behind: seq<byte>)
    requires K.KnownType(ty) && 4 + |body| < MAX_MSGSIZE && |behind| >= K.EXTRA
    ensures var b := F.Frame(Wire(ty, body, pid));
            K.ReceiveFrom(b + behind, 0, |b|, {}) == K.Result([K.Call(ty, body + behind[..K.EXTRA])], [])
  {
    var m := Wire(ty, body, pid);
    var b := F.Frame(m);
    F.FrameReads(m);
    hide F.Frame, F.ReadsAs, K.ReceiveFrom;
    K.ReceivesList(b, behind, [m], {});
    K.OneMessage(b, behind, m);
    MsgBufDispatched(ty, body, behind[..K.EXTRA]);
  }

  lemma MsgBufDispatched(ty: u16, body: seq<byte>, extra: seq<byte>)
    requires K.KnownType(ty)
    ensures K.Share(0, ty, 0, MsgBuf(ty, body) + extra, false)
            == K.Result([K.Call(ty, body + extra)], [])
  {
    var data := MsgBuf(ty, body) + extra;
    assert data[..2] == Le16(ty) && GetLe16(data, 0) == GetLe16(data[..2], 0);
    assert data[4..] == body + extra;
  }

  lemma IntField(n: int32, extra: seq<byte>)
    ensures K.Handle(K.Call(K.AUTH_PORT, Le32(ToU32(n)) + extra)) == Some(K.Number(n))
    ensures K.Handle(K.Call(K.AUTH_ID, Le32(ToU32(n)) + extra)) == Some(K.Number(n))
  {
    var b := Le32(ToU32(n)) + extra;
    assert b[..4] == Le32(ToU32(n)) && GetLe32(b, 0) == GetLe32(b[..4], 0);
  }

  /** What the handler makes of its argument is the command that was given. */
  ghost predicate Understands(cmd: Command, call: K.Call)
  {
    && call.ty == TypeOf(cmd)
    && match cmd
       case Unset => false
       case Ip(text) => |call.body| >= IP_SIZE && call.body[..IP_SIZE] == Field(text)
                        && (|text| < IP_SIZE ==> K.Handle(call) == Some(K.Text(text)))
       case Port(n) => K.Handle(call) == Some(K.Number(n))
       case Id(n) => K.Handle(call) == Some(K.Number(n))
  }

  lemma {:induction false} StringStops(text: seq<byte>, rest: seq<byte>)
    requires NoZeros(text) && rest != [] && rest[0] == 0
    ensures K.Terminated(text + rest) == Some(text)
  {
    if text == [] {
      assert text + rest == rest;
    } else {
      assert (text + rest)[1..] == text[1..] + rest && [text[0]] + text[1..] == text;
      StringStops(text[1..], rest);
    }
  }

  lemma IpField(text: seq<byte>, extra: seq<byte>)
    requires NoZeros(text)
    ensures (Field(text) + extra)[..IP_SIZE] == Field(text)
    ensures |text| < IP_SIZE ==> K.Handle(K.Call(K.AUTH_IP, Field(text) + extra)) == Some(K.Text(text))
  {
    hide K.Terminated, Zeros;
    if |text| < IP_SIZE {
      var rest := Zeros(IP_SIZE - |text|) + extra;
      assert Field(text) + extra == text + rest;
      StringStops(text, rest);
    }
  }

  /**
   End-to-end round trip: for every command, whatever four bytes follow, the
   kernel calls exactly the matching handler once, with the same integer or the
   same 32-byte field, which is the same C string when it has at most 31 bytes.
   */
  lemma CommandRoundTrip(cmd: Command, pid: u32, behind: seq<byte>)
    requires cmd != Unset && |behind| >= K.EXTRA
    ensures var b := F.Frame(Wire(TypeOf(cmd), BodyOf(cmd), pid));
            var r := K.ReceiveFrom(b + behind, 0, |b|, {});
            |r.calls| == 1 && Understands(cmd, r.calls[0]) && r.acks == []
  {
    BodyRoundTrip(TypeOf(cmd), BodyOf(cmd), pid, behind);
    var extra := behind[..K.EXTRA];
    hide F.Frame, K.ReceiveFrom, Field, K.Handle, Le32;
    match cmd
    case Ip(text) => IpField(text, extra);
    case Port(n) => IntField(n, extra);
    case Id(n) => IntField(n, extra);
  }

  /** What the handler prints for an ip, when `extra` follows the field. */
  function Printed(text: seq<byte>, extra: seq<byte>): (shown: Option<K.Shown>)
  {
    K.Handle(K.Call(K.AUTH_IP, Field(text) + extra))
  }

  /**
   The 32-byte field has no room for the end of a longer string: whatever bytes
   follow, the handler prints the given string, or even just stays inside the
   copy, exactly when the string has at most 31 bytes.
   */
  lemma IpStringExact(text: Text)
    ensures (forall extra: seq<byte> :: |extra| == 4 ==> Printed(text, extra) == Some(K.Text(text)))
            <==> |text| <= 31
    ensures (forall extra: seq<byte> :: |extra| == 4 ==> Printed(text, extra).Some?) <==> |text| <= 31
  {
    if |text| < IP_SIZE {
      forall extra: seq<byte> | |extra| == K.EXTRA ensures Printed(text, extra) == Some(K.Text(text)) {
        IpField(text, extra);
      }
    } else {
      var extra: seq<byte> := [1, 1, 1, 1];
      K.TerminatedExactly(Field(text) + extra);
      assert |extra| == K.EXTRA && Printed(text, extra) == None;
    }
  }

  /** Every command makes the kernel copy exactly four bytes past the end of the skb. */
  lemma CommandOverruns(cmd: Command, pid: u32, behind: seq<byte>)
    requires cmd != Unset && |behind| >= K.EXTRA
    ensures var b := F.Frame(Wire(TypeOf(cmd), BodyOf(cmd), pid));
            F.Inside(b + behind, 0, 0, |b|) && K.CopyEnd(b + behind, 0) == |b| + 4
  {
    var m := Wire(TypeOf(cmd), BodyOf(cmd), pid);
    F.FrameReads(m);
    hide F.Frame, F.ReadsAs, K.CopyEnd, F.Inside;
    K.CopyEnds(F.Frame(m), behind, [m], 0);
    K.OneMessage(F.Frame(m), behind, m);
  }

  /** A msg_buf in a frame, byte by byte: netlink header, then type, length and body. */
  lemma WireBytes(ty: u16, body: seq<byte>, pid: u32)
    requires |body| < 2044
    ensures var b := F.Frame(Wire(ty, body, pid));
            && |b| == 20 + |body| && Spells(b[..4], |b|) && Spells(b[4..6], ty) && Spells(b[6..8], 0)
            && Spells(b[8..12], 0) && Spells(b[12..16], pid)
            && Spells(b[16..18], ty) && Spells(b[18..20], |body|) && b[20..] == body
  {
    hide Spells, Le16, F.Frame;
    var m := Wire(ty, body, pid);
    var b := F.Frame(m);
    F.FrameBytes(m);
    Le16Spells(ty);
    Le16Spells(|body|);
    MsgBufParts(b[16..], ty, body);
    assert b[16..18] == b[16..][..2] && b[18..20] == b[16..][2..4] && b[20..] == b[16..][4..];
  }

  lemma MsgBufParts(b: seq<byte>, ty: u16, body: seq<byte>)
    requires b == MsgBuf(ty, body) && |body| < 2044
    ensures b[..2] == Le16(ty) && b[2..4] == Le16(|body|) && b[4..] == body
  {
    hide Le16;
  }

  /** The body of each command, and its type. */
  lemma BodyBytes(cmd: Command)
    ensures cmd.Ip? ==> && TypeOf(cmd) == 1 && |BodyOf(cmd)| == 32
                        && forall k | 0 <= k < 32 :: BodyOf(cmd)[k] == if k < |cmd.text| then cmd.text[k] else 0
    ensures cmd.Port? ==> TypeOf(cmd) == 2 && |BodyOf(cmd)| == 4 && Spells(BodyOf(cmd), cmd.port % 0x1_0000_0000)
    ensures cmd.Id? ==> TypeOf(cmd) == 3 && |BodyOf(cmd)| == 4 && Spells(BodyOf(cmd), cmd.id % 0x1_0000_0000)
  {
    hide Spells, Le32;
    match cmd
    case Port(n) => Le32Spells(ToU32(n));
    case Id(n) => Le32Spells(ToU32(n));
    case _ =>
  }

  /**
   The kernel did what the option asks for: one call, of handler 1 for `i`, 2
   for `p` and 3 for `d`, that shows the number, or the text when it has at most
   31 bytes; of a longer text its first 32 bytes arrive.
   */
  ghost predicate Performed(o: Opt, r: K.Result)
    requires o.arg.Some?
  {
    var text, number := o.arg.value.text, o.arg.value.number;
    && |r.calls| == 1 && r.acks == []
    && var call := r.calls[0];
       if o.c == 'i' then
         && call.ty == 1 && |call.body| >= 32
         && (forall k | 0 <= k < 32 :: call.body[k] == if k < |text| then text[k] else 0)
         && (|text| <= 31 ==> K.Handle(call) == Some(K.Text(text)))
       else call.ty == (if o.c == 'p' then 2 else 3) && K.Handle(call) == Some(K.Number(number))
  }

  predicate IsCommand(o: Opt) { o.arg.Some? && o.c in ['i', 'p', 'd'] }

  /** From option to handler, whatever four bytes follow the message. */
  lemma OptionRoundTrip(o: Opt, pid: u32, behind: seq<byte>)
    requires IsCommand(o) && |behind| >= 4
    ensures var cmd := CommandOf(o);
            var b := F.Frame(Wire(TypeOf(cmd), BodyOf(cmd), pid));
            Performed(o, K.ReceiveFrom(b + behind, 0, |b|, {}))
  {
    hide F.Frame, K.ReceiveFrom, K.Handle, Understands, BodyOf, TypeOf;
    CommandRoundTrip(CommandOf(o), pid, behind);
    var cmd := CommandOf(o);
    var b := F.Frame(Wire(TypeOf(cmd), BodyOf(cmd), pid));
    Carried(o, K.ReceiveFrom(b + behind, 0, |b|, {}));
  }

  lemma Carried(o: Opt, r: K.Result)
    requires IsCommand(o) && |r.calls| == 1 && r.acks == [] && Understands(CommandOf(o), r.calls[0])
    ensures Performed(o, r)
  {
    BodyBytes(CommandOf(o));
    hide K.Handle, Spells, Zeros;
    if o.c == 'i' {
      var call, text := r.calls[0], o.arg.value.text;
      assert forall k | 0 <= k < 32 :: call.body[k] == call.body[..IP_SIZE][k] == Field(text)[k];
    }
  }

  /**
   The tool as a whole: it sends exactly when there is an option and every
   option is a command option, and what it sends makes the kernel do what the
   last one asks for.
   */
  method Tool(opts: seq<Opt>, pid: u32) returns (wire: Option<seq<byte>>)
    ensures wire.Some? <==> opts != [] && forall i | 0 <= i < |opts| :: IsCommand(opts[i])
    ensures wire.Some? ==>
              forall behind: seq<byte> | |behind| >= 4 ::
                Performed(opts[|opts| - 1], K.ReceiveFrom(wire.value + behind, 0, |wire.value|, {}))
  {
    hide F.Frame, K.ReceiveFrom, Performed, Wire, BodyOf, TypeOf;
    var ret, cmd := ParseArgs(opts);
    if ret != 0 {
      return None;
    }
    wire := SyscmdProc(cmd, pid);
    if wire.Some? {
      forall behind: seq<byte> | |behind| >= 4
        ensures Performed(opts[|opts| - 1], K.ReceiveFrom(wire.value + behind, 0, |wire.value|, {}))
      {
        OptionRoundTrip(opts[|opts| - 1], pid, behind);
      }
    }
  }
}
