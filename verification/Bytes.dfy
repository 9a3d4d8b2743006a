/**
 Machine integers and their little-endian byte images.

 The C sources store u16 and u32 fields in host order; the model fixes the
 little-endian layout of the machines the module is built for.
 */
module Bytes {
  type byte = x: int | 0 <= x < 0x100
  type u16 = x: int | 0 <= x < 0x1_0000
  type u32 = x: int | 0 <= x < 0x1_0000_0000
  type int32 = x: int | -0x8000_0000 <= x < 0x8000_0000

  /** The value of an unsigned or overflowing expression once stored in an `int`. */
  function ToInt32(x: int): (r: int32)
    ensures (x - r) % 0x1_0000_0000 == 0
    ensures -0x8000_0000 <= x < 0x8000_0000 ==> r == x
  {
    var m := x % 0x1_0000_0000;
    if m < 0x8000_0000 then m else m - 0x1_0000_0000
  }

  /** The value of an `int` reinterpreted as u32. */
  function ToU32(x: int): (r: u32)
    ensures (x - r) % 0x1_0000_0000 == 0
  {
    x % 0x1_0000_0000
  }

  function GetLe16(b: seq<byte>, i: nat): (x: u16)
    requires i + 2 <= |b|
  {
    b[i] as int + 0x100 * (b[i + 1] as int)
  }

  function GetLe32(b: seq<byte>, i: nat): (x: u32)
    requires i + 4 <= |b|
  {
    GetLe16(b, i) as int + 0x1_0000 * (GetLe16(b, i + 2) as int)
  }

  function Le16(x: u16): (b: seq<byte>)
    ensures |b| == 2 && GetLe16(b, 0) == x
  {
    [x % 0x100, x / 0x100]
  }

  function Le32(x: u32): (b: seq<byte>)
    ensures |b| == 4 && GetLe32(b, 0) == x
  {
    Le16(x % 0x1_0000) + Le16(x / 0x1_0000)
  }

  /** The bytes spell the number, least significant first. */
  predicate Spells(b: seq<byte>, x: int)
  {
    if b == [] then x == 0 else b[0] == x % 0x100 && Spells(b[1..], x / 0x100)
  }

  lemma SpellsMore(b: byte, rest: seq<byte>, x: nat)
    requires Spells(rest, x)
    ensures Spells([b] + rest, b as int + 0x100 * x)
  {
    assert ([b] + rest)[1..] == rest;
  }

  lemma Le16Spells(x: u16)
    ensures Spells(Le16(x), x)
  {
    hide Spells;
    NothingSpelled();
    SpellsMore(x / 0x100, [], 0);
    SpellsMore(x % 0x100, [x / 0x100] + [], x / 0x100);
    assert Le16(x) == [x % 0x100] + ([x / 0x100] + []);
  }

  lemma Le32Spells(x: u32)
    ensures Spells(Le32(x), x)
  {
    hide Spells;
    var low, high: u16 := x % 0x1_0000, x / 0x1_0000;
    Le16Spells(high);
    SpellsMore(low / 0x100, Le16(high), high);
    SpellsMore(low % 0x100, [low / 0x100] + Le16(high), low / 0x100 + 0x100 * high);
    assert Le32(x) == [low % 0x100] + ([low / 0x100] + Le16(high));
  }

  lemma NothingSpelled()
    ensures Spells([], 0)
  {
  }

  function Zeros(n: nat): (z: seq<byte>)
    ensures |z| == n && forall i | 0 <= i < n :: z[i] == 0
  {
    seq(n, i => 0)
  }

  /** `dst` with `src` written over it from `at` on. */
  function Overlay(dst: seq<byte>, at: nat, src: seq<byte>): (r: seq<byte>)
    requires at + |src| <= |dst|
    ensures |r| == |dst|
    ensures forall i | 0 <= i < |dst| :: r[i] == if at <= i < at + |src| then src[i - at] else dst[i]
  {
    dst[..at] + src + dst[at + |src|..]
  }

  /** Copies `src` into `dst` at offset `at`, as memcpy and field stores do. */
  method Store(dst: array<byte>, at: nat, src: seq<byte>)
    requires at + |src| <= dst.Length
    modifies dst
    ensures dst[..] == Overlay(old(dst[..]), at, src)
  {
    for i := 0 to |src|
      invariant forall k | 0 <= k < dst.Length :: dst[k] == if at <= k < at + i then src[k - at] else old(dst[k])
    {
      dst[at + i] := src[i];
    }
  }
}
