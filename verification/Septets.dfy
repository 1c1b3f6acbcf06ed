/** Packing 7-bit septets into octets at any bit offset, and unpacking them again
    (3GPP TS 23.038 section 6.1.2.1). */
module Septets {
  import opened Common
  import Bits

  type Septet = s: int | 0 <= s < 128

  /** 2^k for a shift inside one octet. */
  function Shift(k: nat): (p: nat)
    requires k < 8
    ensures p >= 1 && p <= 128
  {
    if k == 0 then 1 else if k == 1 then 2 else if k == 2 then 4 else if k == 3 then 8
    else if k == 4 then 16 else if k == 5 then 32 else if k == 6 then 64 else 128
  }

  lemma ShiftIsPow2(k: nat)
    requires k < 8
    ensures Bits.Pow2(k) == Shift(k)
  {
    assert Bits.Pow2(0) == 1 && Bits.Pow2(1) == 2 && Bits.Pow2(2) == 4 && Bits.Pow2(3) == 8;
    assert Bits.Pow2(4) == 16 && Bits.Pow2(5) == 32 && Bits.Pow2(6) == 64 && Bits.Pow2(7) == 128;
  }

  function OctetAt(data: seq<Byte>, i: nat): Byte {
    if i < |data| then data[i] else 0
  }

  // ---- Unpacking ----

  function SeptetAt(data: seq<Byte>, bit: nat): (s: Septet) {
    (OctetAt(data, bit / 8) + 256 * OctetAt(data, bit / 8 + 1)) / Shift(bit % 8) % 128
  }

  /** `count` septets starting at `bit`; stops early where the data ends. */
  function Unpack(data: seq<Byte>, count: nat, bit: nat): (s: seq<Septet>)
    ensures |s| <= count
    decreases count
  {
    if count == 0 || bit / 8 >= |data| then [] else [SeptetAt(data, bit)] + Unpack(data, count - 1, bit + 7)
  }

  method UnpackSeptets(data: seq<Byte>, count: nat, bitOffset: nat) returns (out: seq<Septet>)
    ensures out == Unpack(data, count, bitOffset)
  {
    hide Shift, SeptetAt;
    out := [];
    var i := 0;
    while i < count
      invariant i <= count
      invariant out + Unpack(data, count - i, bitOffset + i * 7) == Unpack(data, count, bitOffset)
    {
      var bit := bitOffset + i * 7;
      if bit / 8 >= |data| {
        break;
      }
      var septet := ReadSeptet(data, bit);
      Associate(out, [septet], Unpack(data, count - i - 1, bit + 7));
      out := out + [septet];
      i := i + 1;
    }
  }

  method ReadSeptet(data: seq<Byte>, bit: nat) returns (s: Septet)
    requires bit / 8 < |data|
    ensures s == SeptetAt(data, bit)
  {
    var value := data[bit / 8] + (if bit / 8 + 1 < |data| then data[bit / 8 + 1] as int else 0) * 256;
    s := value / Shift(bit % 8) % 128;
  }

  // ---- Packing ----

  function OctetCount(bits: nat): (n: nat)
    ensures bits <= 8 * n < bits + 8
  {
    (bits + 7) / 8
  }

  function Zeros(n: nat): seq<Byte> {
    seq(n, _ => 0)
  }

  function OrOctet(a: Byte, b: Byte): (r: Byte) {
    OrBound(8, a, b);
    ShiftTop();
    Bits.BitOr(a, b)
  }

  lemma ShiftTop()
    ensures Bits.Pow2(8) == 256
  {
    assert Bits.Pow2(4) == 16;
  }

  lemma {:induction false} OrBound(k: nat, a: nat, b: nat)
    requires a < Bits.Pow2(k) && b < Bits.Pow2(k)
    ensures Bits.BitOr(a, b) < Bits.Pow2(k)
    decreases k
  {
    if k > 0 { OrBound(k - 1, a / 2, b / 2); }
  }

  /** ORs one septet into the buffer at `bit`. */
  function Place(data: seq<Byte>, bit: nat, s: Septet): (r: seq<Byte>)
    requires bit < 8 * |data|
    ensures |r| == |data|
  {
    var i, shifted := bit / 8, s * Shift(bit % 8);
    var low := data[i := OrOctet(data[i], shifted % 256)];
    if i + 1 < |data| then low[i + 1 := OrOctet(low[i + 1], shifted / 256)] else low
  }

  function PlaceAll(data: seq<Byte>, bit: nat, s: seq<Septet>): (r: seq<Byte>)
    requires s != [] ==> bit + 7 * |s| <= 8 * |data|
    ensures |r| == |data|
    decreases |s|
  {
    if s == [] then data else PlaceAll(Place(data, bit, s[0]), bit + 7, s[1..])
  }

  function Pack(s: seq<Septet>, bitOffset: nat): seq<Byte> {
    PlaceAll(Zeros(OctetCount(bitOffset + 7 * |s|)), bitOffset, s)
  }

  method PackSeptets(septets: seq<Septet>, bitOffset: nat) returns (out: seq<Byte>)
    ensures out == Pack(septets, bitOffset)
  {
    if septets == [] {
      return Zeros(OctetCount(bitOffset));
    }
    var octets := OctetCount(bitOffset + 7 * |septets|);
    var buffer := new Byte[octets](_ => 0);
    assert buffer[..] == Zeros(octets);
    PlaceSeptets(buffer, bitOffset, septets);
    return buffer[..];
  }

  method PlaceSeptets(buffer: array<Byte>, bitOffset: nat, septets: seq<Septet>)
    requires bitOffset + 7 * |septets| <= 8 * buffer.Length
    modifies buffer
    ensures buffer[..] == PlaceAll(old(buffer[..]), bitOffset, septets)
  {
    hide Place, PlaceAll;
    var i := 0;
    while i < |septets|
      invariant i <= |septets|
      invariant PlaceAll(buffer[..], bitOffset + 7 * i, septets[i..]) == PlaceAll(old(buffer[..]), bitOffset, septets)
    {
      ghost var before := buffer[..];
      var bit := bitOffset + 7 * i;
      PlaceInto(buffer, bit, septets[i]);
      PlaceAllStep(before, bit, septets[i..]);
      assert septets[i..][1..] == septets[i + 1..];
      i := i + 1;
    }
    assert septets[i..] == [];
    PlaceAllNone(buffer[..], bitOffset + 7 * i);
  }

  lemma PlaceAllStep(data: seq<Byte>, bit: nat, s: seq<Septet>)
    requires s != [] && bit + 7 * |s| <= 8 * |data|
    ensures PlaceAll(data, bit, s) == PlaceAll(Place(data, bit, s[0]), bit + 7, s[1..])
  {}

  lemma PlaceAllNone(data: seq<Byte>, bit: nat)
    ensures PlaceAll(data, bit, []) == data
  {}

  method PlaceInto(buffer: array<Byte>, bit: nat, s: Septet)
    requires bit < 8 * buffer.Length
    modifies buffer
    ensures buffer[..] == Place(old(buffer[..]), bit, s)
  {
    hide OrOctet;
    var at, shifted := bit / 8, s * Shift(bit % 8);
    buffer[at] := OrOctet(buffer[at], shifted % 256);
    if at + 1 < buffer.Length {
      buffer[at + 1] := OrOctet(buffer[at + 1], shifted / 256);
    }
  }

  // ---- Unpacking undoes packing ----

  /** No bit at or above position `bit` is set. */
  ghost predicate ClearFrom(data: seq<Byte>, bit: nat) {
    && (bit / 8 < |data| ==> data[bit / 8] < Shift(bit % 8))
    && forall i :: bit / 8 < i < |data| ==> data[i] == 0
  }

  /** ORing a septet above everything set so far adds it. */
  lemma PlaceAdds(data: seq<Byte>, bit: nat, s: Septet)
    requires ClearFrom(data, bit) && bit < 8 * |data|
    ensures var i, shifted, r := bit / 8, s * Shift(bit % 8), Place(data, bit, s);
      && r[i] == data[i] + shifted % 256
      && (i + 1 < |data| ==> r[i + 1] == shifted / 256)
      && forall j :: 0 <= j < |data| && j != i && j != i + 1 ==> r[j] == data[j]
  {
    var i, k := bit / 8, bit % 8;
    ShiftIsPow2(k);
    var q := LowMultiple(s, k);
    Bits.OrDisjoint(k, data[i], q);
    if i + 1 < |data| { assert Bits.BitOr(0, s * Shift(k) / 256) == s * Shift(k) / 256; }
  }

  lemma LowMultiple(s: Septet, k: nat) returns (q: nat)
    requires k < 8
    ensures s * Shift(k) % 256 == Shift(k) * q
  {
    var d := if k == 0 then 256 else Shift(8 - k);
    assert Shift(k) * d == 256;
    q := s % d;
    LowPart(s, Shift(k), d);
  }

  lemma LowPart(s: Septet, p: nat, d: nat)
    requires p >= 1 && d >= 1 && p * d == 256
    ensures s * p % 256 == p * (s % d)
  {
    var u, q := s / d, s % d;
    Distribute(d, u, q, p);
    TimesBelow(p, q, d);
    RemainderBy256(s * p, u, p * q);
  }

  lemma Distribute(d: nat, u: nat, q: nat, p: nat)
    ensures (d * u + q) * p == (p * d) * u + p * q
  {
    assert (d * u) * p == (p * d) * u;
  }

  lemma TimesBelow(p: nat, q: nat, d: nat)
    requires p >= 1 && q < d
    ensures p * q < p * d
  {
    assert p * d == p * q + p * (d - q);
  }

  lemma RemainderBy256(x: nat, u: nat, r: nat)
    requires x == 256 * u + r && r < 256
    ensures x % 256 == r
  {}

  /** A freshly placed septet reads back, and nothing is set above it. */
  lemma PlaceReads(data: seq<Byte>, bit: nat, s: Septet)
    requires ClearFrom(data, bit) && bit + 7 <= 8 * |data|
    ensures SeptetAt(Place(data, bit, s), bit) == s
    ensures ClearFrom(Place(data, bit, s), bit + 7)
  {
    hide Place, OrOctet;
    PlaceAdds(data, bit, s);
    var i, k, a := bit / 8, bit % 8, data[bit / 8];
    ReadBack(a, s, k);
    HighPart(s, k);
    LowPartBelow(a, s, k);
    if k == 0 {
      assert (bit + 7) / 8 == i && (bit + 7) % 8 == 7;
    } else {
      assert (bit + 7) / 8 == i + 1 && (bit + 7) % 8 == k - 1;
    }
  }

  lemma ReadBack(a: Byte, s: Septet, k: nat)
    requires k < 8 && a < Shift(k)
    ensures (a + s * Shift(k) % 256 + 256 * (s * Shift(k) / 256)) / Shift(k) % 128 == s
  {
    hide Shift;
    DivideShifted(a, s, k);
    TwoOctets(a, s * Shift(k), Shift(k), s);
  }

  lemma LowPartBelow(a: Byte, s: Septet, k: nat)
    requires k < 8 && a < Shift(k)
    ensures k == 0 ==> a + s * Shift(k) % 256 < 128
  {
    if k == 0 { HighPart(s, 0); }
  }

  /** A number is its lower octet and the rest. */
  lemma TwoOctets(a: nat, t: nat, p: nat, s: Septet)
    requires p > 0 && (a + t) / p == s
    ensures (a + t % 256 + 256 * (t / 256)) / p % 128 == s
  {
    assert a + t % 256 + 256 * (t / 256) == a + t;
  }

  lemma HighPart(s: Septet, k: nat)
    requires k < 8
    ensures k >= 1 ==> s * Shift(k) / 256 < Shift(k - 1)
    ensures k == 0 ==> Shift(0) == 1 && s * Shift(k) % 256 == s
    ensures k <= 1 ==> s * Shift(k) / 256 == 0
  {
    if k == 0 {} else if k == 1 {} else if k == 2 {} else if k == 3 {}
    else if k == 4 {} else if k == 5 {} else if k == 6 {} else {}
  }

  lemma DivideShifted(a: Byte, s: Septet, k: nat)
    requires k < 8 && a < Shift(k)
    ensures (a + s * Shift(k)) / Shift(k) == s
  {
    if k == 0 {} else if k == 1 {} else if k == 2 {} else if k == 3 {}
    else if k == 4 {} else if k == 5 {} else if k == 6 {} else {}
  }

  lemma BitGap(bit: nat, below: nat)
    requires below + 7 <= bit
    ensures below / 8 <= bit / 8
    ensures below / 8 == bit / 8 ==> below % 8 == 0 && bit % 8 == 7
    ensures below / 8 + 1 == bit / 8 ==> below % 8 <= bit % 8 + 1
  {}

  /** Placing a septet does not disturb septets below it. */
  lemma PlaceKeeps(data: seq<Byte>, bit: nat, s: Septet, below: nat)
    requires ClearFrom(data, bit) && bit < 8 * |data| && below + 7 <= bit
    ensures SeptetAt(Place(data, bit, s), below) == SeptetAt(data, below)
  {
    hide Place, OrOctet, ClearFrom, SeptetAt, Shift;
    PlaceAdds(data, bit, s);
    var r, i, k, c, t := Place(data, bit, s), bit / 8, bit % 8, below / 8, below % 8;
    BitGap(bit, below);
    var q := LowMultiple(s, k);
    SeptetIs(data, below, c, t);
    SeptetIs(r, below, c, t);
    if c == i {
      LowestSeven(data[i], q, OctetAt(r, i + 1), OctetAt(data, i + 1));
    } else if c + 1 == i {
      HighBitsDropped(data[c], data[i], q, k, t);
    }
  }

  lemma SeptetIs(data: seq<Byte>, bit: nat, c: nat, t: nat)
    requires c == bit / 8 && t == bit % 8
    ensures SeptetAt(data, bit) == (OctetAt(data, c) + 256 * OctetAt(data, c + 1)) / Shift(t) % 128
  {
    hide Shift;
  }

  /** Seven bits at the bottom of an octet are left alone by the bit above them. */
  lemma LowestSeven(lo: nat, q: nat, hi: nat, other: nat)
    ensures (lo + Shift(7) * q + 256 * hi) / Shift(0) % 128 == (lo + 256 * other) / Shift(0) % 128
  {
    ModMultiple(lo, q + 2 * hi);
    ModMultiple(lo, 2 * other);
    SevenAndNone();
    hide Shift;
    assert lo + Shift(7) * q + 256 * hi == lo + 128 * (q + 2 * hi) by { assert Shift(7) * q == 128 * q; }
    ByOne(lo + Shift(7) * q + 256 * hi);
    ByOne(lo + 256 * other);
  }

  lemma SevenAndNone()
    ensures Shift(7) == 128 && Shift(0) == 1
  {}

  lemma ByOne(x: nat)
    ensures x / 1 == x
  {
  }

  /** Adding a multiple of 2^k to the upper octet leaves the septet at shift t <= k + 1 alone. */
  lemma HighBitsDropped(lo: Byte, hi: Byte, q: nat, k: nat, t: nat)
    requires k < 8 && t < 8 && t <= k + 1
    ensures (lo + 256 * (hi + Shift(k) * q)) / Shift(t) % 128 == (lo + 256 * hi) / Shift(t) % 128
  {
    var m := HighFactor(k, t);
    assert 256 * (Shift(k) * q) == Shift(t) * (128 * (m * q)) by { FactorOut(k, t, m, q); }
    DivideMultiple(lo + 256 * hi, 128 * (m * q), t);
    ModMultiple((lo + 256 * hi) / Shift(t), m * q);
  }

  lemma HighFactor(k: nat, t: nat) returns (m: nat)
    requires k < 8 && t < 8 && t <= k + 1
    ensures 256 * Shift(k) == Shift(t) * 128 * m
  {
    m := 2 * Shift(k) / Shift(t);
  }

  lemma FactorOut(k: nat, t: nat, m: nat, q: nat)
    requires k < 8 && t < 8 && 256 * Shift(k) == Shift(t) * 128 * m
    ensures 256 * (Shift(k) * q) == Shift(t) * (128 * (m * q))
  {
    var a, b := Shift(k), Shift(t);
    assert 256 * (a * q) == (256 * a) * q;
    assert (b * 128 * m) * q == b * (128 * (m * q));
  }

  lemma DivideMultiple(x: nat, y: nat, t: nat)
    requires t < 8
    ensures (x + Shift(t) * y) / Shift(t) == x / Shift(t) + y
  {
    if t == 0 {} else if t == 1 {} else if t == 2 {} else if t == 3 {}
    else if t == 4 {} else if t == 5 {} else if t == 6 {} else {}
  }

  lemma ModMultiple(x: nat, y: nat)
    ensures (x + 128 * y) % 128 == x % 128
  {}

  lemma {:induction false} PlaceAllKeeps(data: seq<Byte>, bit: nat, s: seq<Septet>, below: nat)
    requires ClearFrom(data, bit) && (s != [] ==> bit + 7 * |s| <= 8 * |data|) && below + 7 <= bit
    ensures SeptetAt(PlaceAll(data, bit, s), below) == SeptetAt(data, below)
    decreases |s|
  {
    hide Place, SeptetAt, ClearFrom;
    if s != [] {
      PlaceReads(data, bit, s[0]);
      PlaceKeeps(data, bit, s[0], below);
      PlaceAllKeeps(Place(data, bit, s[0]), bit + 7, s[1..], below);
    }
  }

  lemma {:induction false} PlaceAllReads(data: seq<Byte>, bit: nat, s: seq<Septet>)
    requires ClearFrom(data, bit) && (s != [] ==> bit + 7 * |s| <= 8 * |data|)
    ensures Unpack(PlaceAll(data, bit, s), |s|, bit) == s
    decreases |s|
  {
    hide Place, SeptetAt, ClearFrom;
    if s != [] {
      var placed := Place(data, bit, s[0]);
      PlaceReads(data, bit, s[0]);
      PlaceAllKeeps(placed, bit + 7, s[1..], bit);
      PlaceAllReads(placed, bit + 7, s[1..]);
      assert s == [s[0]] + s[1..];
    }
  }

  /** Unpacking is the inverse of packing at every bit offset. */
  lemma UnpackPack(s: seq<Septet>, bitOffset: nat)
    ensures Unpack(Pack(s, bitOffset), |s|, bitOffset) == s
  {
    PlaceAllReads(Zeros(OctetCount(bitOffset + 7 * |s|)), bitOffset, s);
  }

  /** Unpacking from bit `bit` up reads no octet below `bit / 8`. */
  lemma {:induction false} UnpackIgnoresBelow(a: seq<Byte>, b: seq<Byte>, count: nat, bit: nat)
    requires |a| == |b| && forall i :: bit / 8 <= i < |a| ==> a[i] == b[i]
    ensures Unpack(a, count, bit) == Unpack(b, count, bit)
    decreases count
  {
    if count > 0 { UnpackIgnoresBelow(a, b, count - 1, bit + 7); }
  }

  const HELLO: seq<Byte> := [0xE8, 0x32, 0x9B, 0xFD, 0x06]

  lemma HelloSeptets()
    ensures SeptetAt(HELLO, 0) == 0x68 && SeptetAt(HELLO, 7) == 0x65 && SeptetAt(HELLO, 14) == 0x6C
    ensures SeptetAt(HELLO, 21) == 0x6C && SeptetAt(HELLO, 28) == 0x6F
  {}

  lemma UnpackStep(data: seq<Byte>, count: nat, bit: nat)
    requires count > 0 && bit / 8 < |data|
    ensures Unpack(data, count, bit) == [SeptetAt(data, bit)] + Unpack(data, count - 1, bit + 7)
  {}

  /** The packed octets in the standard's order: the first septet in the lowest bits. */
  lemma HelloUnpacked()
    ensures Unpack(HELLO, 5, 0) == [0x68, 0x65, 0x6C, 0x6C, 0x6F]
  {
    assert |HELLO| == 5 && Unpack(HELLO, 0, 35) == [];
    hide Unpack, SeptetAt;
    HelloSeptets();
    UnpackStep(HELLO, 1, 28);
    UnpackStep(HELLO, 2, 21);
    UnpackStep(HELLO, 3, 14);
    UnpackStep(HELLO, 4, 7);
    UnpackStep(HELLO, 5, 0);
  }
}
