/**
 The gratuitous ARP sender: a frame of variable width ("Packet format" of
 RFC 826) written through a moving pointer into a reserve/put/push buffer.
 */
module Garp {
  import opened Prelude
  import opened Bytes

  const ETH_HLEN: nat := 14
  const ETH_ALEN: nat := 6
  const ETH_P_ARP: u16 := 0x806
  const ETH_P_IP: u16 := 0x800
  const ARPOP_REQUEST: u16 := 1
  const ARPHDR: nat := 8
  const ARPHRD_IEEE1394: u16 := 24
  const HH_DATA_MOD: nat := 16
  const MAX_ADDR_LEN: nat := 32

  /** The parts of struct net_device the code uses; address fields are MAX_ADDR_LEN bytes long. */
  datatype Device = Device(ty: u16, addrLen: byte, hardHeaderLen: nat, neededHeadroom: nat, neededTailroom: nat,
                           devAddr: seq<byte>, broadcast: seq<byte>) {
    /** arp_hdr_len counts no target hardware address for IEEE 1394; such devices are not modelled. */
    predicate Valid()
    {
      ty != ARPHRD_IEEE1394 && addrLen <= MAX_ADDR_LEN && |devAddr| == MAX_ADDR_LEN && |broadcast| == MAX_ADDR_LEN
    }

    /** arp_hdr_len */
    function ArpLen(): (n: nat) { ARPHDR + (addrLen as nat + 4) * 2 }

    /** LL_RESERVED_SPACE: room for the link-layer header, rounded past the next multiple of 16. */
    function Reserved(): (n: nat)
      ensures hardHeaderLen + neededHeadroom < n <= hardHeaderLen + neededHeadroom + 16 && n % 16 == 0
    {
      (hardHeaderLen + neededHeadroom) / HH_DATA_MOD * HH_DATA_MOD + HH_DATA_MOD
    }

    /** A hardware address can be read as far as the code reads it. */
    predicate Readable(hw: seq<byte>) { |hw| >= addrLen as nat && |hw| >= ETH_ALEN }
  }

  function Be16(x: u16): (b: seq<byte>)
    ensures |b| == 2 && GetBe16(b, 0) == x
  {
    [x / 0x100, x % 0x100]
  }

  function GetBe16(b: seq<byte>, i: nat): (x: u16)
    requires i + 2 <= |b|
  {
    0x100 * (b[i] as int) + b[i + 1] as int
  }

  // ---- reading a frame ----

  datatype Arp = Arp(ethDst: seq<byte>, ethSrc: seq<byte>, ethType: u16,
                     hrd: u16, pro: u16, hln: byte, pln: byte, op: u16,
                     senderHw: seq<byte>, senderIp: seq<byte>, targetHw: seq<byte>, targetIp: seq<byte>)

  /** A receiver's view: the address fields are found from the lengths in the fixed header. */
  function Decode(f: seq<byte>): (a: Option<Arp>)
  {
    if |f| < ETH_HLEN + ARPHDR then None
    else
      var n, p: nat := f[ETH_HLEN + 4], f[ETH_HLEN + 5];
      var at := ETH_HLEN + ARPHDR;
      if |f| != at + 2 * (n + p) then None
      else
        Some(Arp(f[..6], f[6..12], GetBe16(f, 12),
                 GetBe16(f, ETH_HLEN), GetBe16(f, ETH_HLEN + 2), n, p, GetBe16(f, ETH_HLEN + 6),
                 f[at..at + n], f[at + n..at + n + p], f[at + n + p..at + 2 * n + p], f[at + 2 * n + p..]))
  }

  // ---- writing it ----

  /** An skb: `mem` between head and end, the frame between `data` and `tail`. */
  class SkBuff {
    const mem: array<byte>
    var data: nat
    var tail: nat

    ghost predicate Valid()
      reads this
    {
      data <= tail <= mem.Length
    }

    constructor (size: nat)
      ensures Valid() && data == tail == 0 && mem.Length == size && fresh(mem)
    {
      mem := new byte[size];
      data, tail := 0, 0;
    }

    method Reserve(n: nat)
      requires Valid() && data == tail && tail + n <= mem.Length
      modifies this
      ensures Valid() && data == tail == old(data) + n
    {
      data, tail := data + n, tail + n;
    }

    method Put(n: nat) returns (at: nat)
      requires Valid() && tail + n <= mem.Length
      modifies this
      ensures Valid() && at == old(tail) && data == old(data) && tail == at + n
    {
      at := tail;
      tail := tail + n;
    }

    method Push(n: nat) returns (at: nat)
      requires Valid() && n <= data
      modifies this
      ensures Valid() && at == data == old(data) - n && tail == old(tail)
    {
      data := data - n;
      at := data;
    }
  }

  datatype Built = Built(frame: seq<byte>, headroom: nat, tailroom: nat)

  /** The link-layer header eth_header writes. */
  function EthHeader(dst: seq<byte>, src: seq<byte>): (b: seq<byte>)
    requires |dst| >= ETH_ALEN && |src| >= ETH_ALEN
    ensures |b| == ETH_HLEN
  {
    dst[..ETH_ALEN] + src[..ETH_ALEN] + Be16(ETH_P_ARP)
  }

  /** The fixed part of the ARP packet. */
  function FixedPart(dev: Device): (b: seq<byte>)
    ensures |b| == ARPHDR
  {
    Be16(dev.ty) + Be16(ETH_P_IP) + [dev.addrLen, 4] + Be16(ARPOP_REQUEST)
  }

  /** The header of the frame and the five parts of the packet, tiling it end to end. */
  function Tiles(dev: Device, dst: seq<byte>, src: seq<byte>, srcIp: seq<byte>,
                 target: seq<byte>, destIp: seq<byte>): (b: seq<byte>)
    requires |dst| >= ETH_ALEN && dev.Readable(src) && |target| == dev.addrLen as nat && |srcIp| == |destIp| == 4
    ensures |b| == ETH_HLEN + dev.ArpLen()
  {
    EthHeader(dst, src) + (FixedPart(dev) + src[..dev.addrLen] + srcIp + target + destIp)
  }

  /**
   garp_create: a null source address means the device's, a null destination
   the broadcast address, a null target zeros.  `extra` is what alloc_skb adds
   to the size asked for.  The reserve, put and push stay inside the buffer for
   every device, and its tailroom is left free.
   */
  method GarpCreate(destIp: seq<byte>, dev: Device, srcIp: seq<byte>, destHw: Option<seq<byte>>,
                    srcHw: Option<seq<byte>>, targetHw: Option<seq<byte>>, allocOk: bool, extra: nat)
    returns (r: Option<Built>)
    requires dev.Valid() && |destIp| == |srcIp| == 4
    requires destHw.Some? ==> |destHw.value| >= ETH_ALEN
    requires srcHw.Some? ==> dev.Readable(srcHw.value)
    requires targetHw.Some? ==> |targetHw.value| >= dev.addrLen as nat
    ensures r.Some? <==> allocOk
    ensures allocOk ==>
              var src := if srcHw == None then dev.devAddr else srcHw.value;
              var dst := if destHw == None then dev.broadcast else destHw.value;
              var target := if targetHw == None then Zeros(dev.addrLen) else targetHw.value[..dev.addrLen];
              && r.value.frame == Tiles(dev, dst, src, srcIp, target, destIp)
              && (var room, needed := r.value.headroom + 14, dev.hardHeaderLen + dev.neededHeadroom;
                  needed < room <= needed + 16 && room % 16 == 0)
              && r.value.tailroom == dev.neededTailroom + extra
  {
    hide Tiles, Zeros, Device.Reserved;
    var hlen, tlen := dev.Reserved(), dev.neededTailroom;
    if !allocOk {
      return None;
    }
    var skb := new SkBuff(dev.ArpLen() + hlen + tlen + extra);
    skb.Reserve(hlen);
    var arp := skb.Put(dev.ArpLen());
    var src := if srcHw == None then dev.devAddr else srcHw.value;
    var dst := if destHw == None then dev.broadcast else destHw.value;
    var eth := skb.Push(ETH_HLEN);
    FillFrame(skb.mem, eth, dev, dst, src, srcIp, targetHw, destIp);
    var frame := skb.mem[skb.data..skb.tail];
    r := Some(Built(frame, skb.data, skb.mem.Length - skb.tail));
  }

  /** The link-layer header, and the ARP part behind it. */
  method FillFrame(mem: array<byte>, eth: nat, dev: Device, dst: seq<byte>, src: seq<byte>, srcIp: seq<byte>,
                   targetHw: Option<seq<byte>>, destIp: seq<byte>)
    requires dev.Valid() && |dst| >= ETH_ALEN && dev.Readable(src) && |srcIp| == |destIp| == 4
    requires eth + ETH_HLEN + dev.ArpLen() <= mem.Length
    requires targetHw.Some? ==> |targetHw.value| >= dev.addrLen as nat
    modifies mem
    ensures var target := if targetHw == None then Zeros(dev.addrLen) else targetHw.value[..dev.addrLen];
            mem[eth..eth + ETH_HLEN + dev.ArpLen()] == Tiles(dev, dst, src, srcIp, target, destIp)
  {
    hide EthHeader, FixedPart, Zeros, Overlay;
    var arp, end := eth + ETH_HLEN, eth + ETH_HLEN + dev.ArpLen();
    OverlayThere(mem[..], eth, EthHeader(dst, src));
    Store(mem, eth, EthHeader(dst, src));
    assert mem[..arp] == mem[..][..arp];
    FillArp(mem, arp, dev, src, srcIp, targetHw, destIp);
    SplitAt(mem[..], eth, arp, end);
    assert mem[..][..arp] == mem[..arp] && mem[..][arp..end] == mem[arp..end] && mem[..][eth..end] == mem[eth..end];
  }

  lemma OverlayThere(dst: seq<byte>, at: nat, src: seq<byte>)
    requires at + |src| <= |dst|
    ensures Overlay(dst, at, src)[..at + |src|][at..] == src
  {
  }

  lemma SplitAt(m: seq<byte>, lo: nat, mid: nat, hi: nat)
    requires lo <= mid <= hi <= |m|
    ensures m[lo..hi] == m[..mid][lo..] + m[mid..hi]
  {
  }

  /** The ARP part: the fixed header, then four addresses through a moving pointer. */
  method FillArp(mem: array<byte>, arp: nat, dev: Device, src: seq<byte>, srcIp: seq<byte>,
                 targetHw: Option<seq<byte>>, destIp: seq<byte>)
    requires dev.Valid() && dev.Readable(src) && |srcIp| == |destIp| == 4 && arp + dev.ArpLen() <= mem.Length
    requires targetHw.Some? ==> |targetHw.value| >= dev.addrLen as nat
    modifies mem
    ensures var target := if targetHw == None then Zeros(dev.addrLen) else targetHw.value[..dev.addrLen];
            mem[arp..arp + dev.ArpLen()] == FixedPart(dev) + src[..dev.addrLen] + srcIp + target + destIp
    ensures mem[..arp] == old(mem[..arp]) && mem[arp + dev.ArpLen()..] == old(mem[arp + dev.ArpLen()..])
  {
    var n: nat := dev.addrLen;
    StoreRow(mem, arp, FixedPart(dev), src[..n], srcIp,
             if targetHw == None then Zeros(n) else targetHw.value[..n], destIp);
  }

  /** Five copies through one moving pointer. */
  method StoreRow(mem: array<byte>, at: nat, a: seq<byte>, b: seq<byte>, c: seq<byte>, d: seq<byte>, e: seq<byte>)
    requires at + |a| + |b| + |c| + |d| + |e| <= mem.Length
    modifies mem
    ensures var end := at + |a| + |b| + |c| + |d| + |e|;
            mem[at..end] == a + b + c + d + e && mem[..at] == old(mem[..at]) && mem[end..] == old(mem[end..])
  {
    hide Overlay;
    FiveStores(mem[..], at, a, b, c, d, e);
    ghost var was := mem[..];
    var ptr := at;
    Store(mem, ptr, a);
    ptr := ptr + |a|;
    Store(mem, ptr, b);
    ptr := ptr + |b|;
    Store(mem, ptr, c);
    ptr := ptr + |c|;
    Store(mem, ptr, d);
    ptr := ptr + |d|;
    Store(mem, ptr, e);
    ghost var now, end := mem[..], at + |a| + |b| + |c| + |d| + |e|;
    assert mem[at..end] == now[at..end] && mem[..at] == now[..at] && mem[end..] == now[end..];
    assert old(mem[..at]) == was[..at] && old(mem[end..]) == was[end..];
  }

  /** Five pieces written one after the other lie side by side and touch nothing else. */
  lemma FiveStores(z: seq<byte>, at: nat, a: seq<byte>, b: seq<byte>, c: seq<byte>, d: seq<byte>, e: seq<byte>)
    requires at + |a| + |b| + |c| + |d| + |e| <= |z|
    ensures var end := at + |a| + |b| + |c| + |d| + |e|;
            var all := Overlay(Overlay(Overlay(Overlay(Overlay(z, at, a), at + |a|, b), at + |a| + |b|, c),
                                       at + |a| + |b| + |c|, d), at + |a| + |b| + |c| + |d|, e);
            all[at..end] == a + b + c + d + e && all[..at] == z[..at] && all[end..] == z[end..]
  {
    hide Overlay;
  }

  /** Every frame the builder makes decodes to exactly what it was given. */
  lemma DecodeTiles(dev: Device, dst: seq<byte>, src: seq<byte>, srcIp: seq<byte>,
                    target: seq<byte>, destIp: seq<byte>)
    requires |dst| >= ETH_ALEN && dev.Readable(src) && |target| == dev.addrLen as nat && |srcIp| == |destIp| == 4
    ensures Decode(Tiles(dev, dst, src, srcIp, target, destIp))
            == Some(Arp(dst[..ETH_ALEN], src[..ETH_ALEN], ETH_P_ARP, dev.ty, ETH_P_IP, dev.addrLen, 4, ARPOP_REQUEST,
                        src[..dev.addrLen], srcIp, target, destIp))
  {
    hide Tiles;
    HeaderBytes(dev, dst, src, srcIp, target, destIp);
    AddressBytes(dev, dst, src, srcIp, target, destIp);
  }

  /** The first 22 bytes: link-layer addresses, and fields in network order. */
  lemma HeaderBytes(dev: Device, dst: seq<byte>, src: seq<byte>, srcIp: seq<byte>,
                    target: seq<byte>, destIp: seq<byte>)
    requires |dst| >= ETH_ALEN && dev.Readable(src) && |target| == dev.addrLen as nat && |srcIp| == |destIp| == 4
    ensures var f := Tiles(dev, dst, src, srcIp, target, destIp);
            && f[..6] == dst[..6] && f[6..12] == src[..6] && f[12] == 0x08 && f[13] == 0x06
            && f[14] == dev.ty / 0x100 && f[15] == dev.ty % 0x100 && f[16] == 0x08 && f[17] == 0x00
            && f[18] == dev.addrLen && f[19] == 4 && f[20] == 0 && f[21] == 1
  {
    var f := Tiles(dev, dst, src, srcIp, target, destIp);
    assert f[12..14] == Be16(ETH_P_ARP) && f[14..16] == Be16(dev.ty) && f[16..18] == Be16(ETH_P_IP);
    assert f[20..22] == Be16(ARPOP_REQUEST);
    assert f[12] == f[12..14][0] && f[13] == f[12..14][1] && f[14] == f[14..16][0] && f[15] == f[14..16][1];
    assert f[16] == f[16..18][0] && f[17] == f[16..18][1] && f[20] == f[20..22][0] && f[21] == f[20..22][1];
  }

  /** The rest: sender and target addresses, side by side to the end. */
  lemma AddressBytes(dev: Device, dst: seq<byte>, src: seq<byte>, srcIp: seq<byte>,
                     target: seq<byte>, destIp: seq<byte>)
    requires |dst| >= ETH_ALEN && dev.Readable(src) && |target| == dev.addrLen as nat && |srcIp| == |destIp| == 4
    ensures var f := Tiles(dev, dst, src, srcIp, target, destIp);
            var n: nat, at := dev.addrLen, 22;
            && |f| == at + 2 * n + 8
            && f[at..at + n] == src[..n] && f[at + n..at + n + 4] == srcIp
            && f[at + n + 4..at + 2 * n + 4] == target && f[at + 2 * n + 4..] == destIp
  {
    hide EthHeader, FixedPart;
  }

  /** The announcement for one address of the device. */
  function Announcement(dev: Device, ip: seq<byte>): (b: seq<byte>)
    requires dev.Valid() && |ip| == 4
  {
    Tiles(dev, dev.broadcast, dev.devAddr, ip, Zeros(dev.addrLen), ip)
  }

  /**
   garp_send_gratuitous_arp: one frame for each address of the list whose
   allocation works, in the order of the list, and no other.
   */
  method SendGratuitousArp(dev: Device, ips: seq<seq<byte>>, allocs: seq<bool>)
    returns (sent: seq<seq<byte>>, ghost idx: seq<nat>)
    requires dev.Valid() && |allocs| == |ips| && forall i | 0 <= i < |ips| :: |ips[i]| == 4
    ensures Increasing(idx) && |idx| == |sent|
    ensures forall i | 0 <= i < |ips| :: i in idx <==> allocs[i]
    ensures forall k | 0 <= k < |idx| :: idx[k] < |ips| && sent[k] == Announcement(dev, ips[idx[k]])
  {
    hide Announcement, Increasing;
    sent, idx := [], [];
    NonePicked();
    for i := 0 to |ips|
      invariant Increasing(idx) && |idx| == |sent|
      invariant forall j | 0 <= j < i :: j in idx <==> allocs[j]
      invariant forall k | 0 <= k < |idx| :: idx[k] < i && sent[k] == Announcement(dev, ips[idx[k]])
    {
      var r := GarpCreate(ips[i], dev, ips[i], None, Some(dev.devAddr), None, allocs[i], 0);
      PickNext(idx, i);
      if r.Some? {
        AnnouncementIs(dev, ips[i]);
        sent, idx := sent + [r.value.frame], idx + [i];
      }
    }
  }

  lemma AnnouncementIs(dev: Device, ip: seq<byte>)
    requires dev.Valid() && |ip| == 4
    ensures Announcement(dev, ip) == Tiles(dev, dev.broadcast, dev.devAddr, ip, Zeros(dev.addrLen), ip)
  {
  }

  /**
   An announcement is a broadcast ARP request from the device in which sender
   and target address agree and the target hardware address is zero.
   */
  lemma AnnouncementIsGratuitous(dev: Device, ip: seq<byte>)
    requires dev.Valid() && |ip| == 4
    ensures Decode(Announcement(dev, ip))
            == Some(Arp(dev.broadcast[..6], dev.devAddr[..6], 0x806, dev.ty, 0x800, dev.addrLen, 4, 1,
                        dev.devAddr[..dev.addrLen], ip, Zeros(dev.addrLen), ip))
  {
    DecodeTiles(dev, dev.broadcast, dev.devAddr, ip, Zeros(dev.addrLen), ip);
  }
}
