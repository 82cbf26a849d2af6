/**
 The CHANNELS_AVAILABLE register of the isochronous resource manager: eight bytes in which
 channel c is free when bit 7 - c mod 8 of byte c / 8 is set (section 8.3.2.3.8 of
 IEEE Std 1394-1995), and the search that FirewireDeviceLibraw1394 performs on a copy of it.
 */
module IrmRegister {
  import opened Words

  const CHANNELS: set<nat> := set c: nat | 0 <= c < 64

  predicate FreeBit(register: seq<byte>, c: nat)
    requires |register| == 8 && c < 64
  {
    BitSet(register[c / 8], 7 - c % 8)
  }

  /** The channels the register offers. */
  function FreeChannels(register: seq<byte>): set<nat>
    requires |register| == 8
  {
    set c: nat | 0 <= c < 64 && FreeBit(register, c)
  }

  /** The free bits of n channels from `first`, the first one in the highest bit. */
  function Bits(free: set<nat>, first: nat, n: nat): nat {
    if n == 0 then 0 else 2 * Bits(free, first, n - 1) + if first + n - 1 in free then 1 else 0
  }

  lemma BitsFitByte(free: set<nat>, first: nat)
    ensures Bits(free, first, 8) < 0x100
  {
    assert Bits(free, first, 1) < 2;
    assert Bits(free, first, 2) < 4;
    assert Bits(free, first, 4) < 16;
    assert Bits(free, first, 6) < 64;
  }

  lemma {:induction false} BitOfBits(free: set<nat>, first: nat, n: nat, r: nat)
    requires r < n
    ensures BitSet(Bits(free, first, n), n - 1 - r) <==> first + r in free
  {
    var rest := Bits(free, first, n - 1);
    var b := if first + n - 1 in free then 1 else 0;
    BitOfDouble(rest, b, n - 1 - r);
    if r < n - 1 {
      BitOfBits(free, first, n - 1, r);
    }
  }

  lemma BitOfDouble(x: nat, b: nat, k: nat)
    requires b < 2
    ensures BitSet(2 * x + b, k) == if k == 0 then b == 1 else BitSet(x, k - 1)
  {
    assert (2 * x + b) / 2 == x;
  }

  function ByteOf(free: set<nat>, k: nat): byte {
    BitsFitByte(free, 8 * k);
    Bits(free, 8 * k, 8)
  }

  /** The register of an isochronous resource manager whose free channels are `free`. */
  function RegisterOf(free: set<nat>): (register: seq<byte>)
    ensures |register| == 8
  {
    seq(8, k requires 0 <= k < 8 => ByteOf(free, k))
  }

  /** The register of a set of channels offers exactly that set. */
  lemma RegisterRoundTrip(free: set<nat>)
    requires free <= CHANNELS
    ensures FreeChannels(RegisterOf(free)) == free
  {
    forall c: nat | c < 64
      ensures FreeBit(RegisterOf(free), c) <==> c in free
    {
      BitOfBits(free, c / 8 * 8, 8, c % 8);
    }
  }

  /** The part of a set of channels that one of the two quadlets of the register shows. */
  function HighPart(free: set<nat>): set<nat> {
    set c | c in free && c < 32
  }

  function LowPart(free: set<nat>): set<nat> {
    set c | c in free && c >= 32
  }

  /** A register put together from quadlets read at two instants offers one half of each. */
  lemma TornRegister(before: set<nat>, after: set<nat>)
    requires before <= CHANNELS && after <= CHANNELS
    ensures FreeChannels(RegisterOf(before)[..4] + RegisterOf(after)[4..]) == HighPart(before) + LowPart(after)
  {
    RegisterRoundTrip(before);
    RegisterRoundTrip(after);
    var torn := RegisterOf(before)[..4] + RegisterOf(after)[4..];
    forall c: nat | c < 64
      ensures FreeBit(torn, c) <==> c in HighPart(before) + LowPart(after)
    {
      assert torn[c / 8] == if c < 32 then RegisterOf(before)[c / 8] else RegisterOf(after)[c / 8];
      assert FreeBit(RegisterOf(before), c) <==> c in FreeChannels(RegisterOf(before));
      assert FreeBit(RegisterOf(after), c) <==> c in FreeChannels(RegisterOf(after));
    }
  }

  function Shift(x: nat, n: nat): nat {
    if n == 0 then x else Shift(x, n - 1) / 2
  }

  /** Shifting right by n moves bit n + k to bit k. */
  lemma {:induction false} ShiftedBit(x: nat, n: nat, k: nat)
    ensures BitSet(x, n + k) == BitSet(Shift(x, n), k)
  {
    if n != 0 {
      ShiftedBit(x, n - 1, k + 1);
    }
  }

  // ----- the joined 64-bit word

  function Join(high: quadlet, low: quadlet): nat {
    high * 0x1_0000_0000 + low
  }

  lemma EightShifts(x: nat, n: nat)
    ensures Shift(x, n + 8) == Shift(x, n) / 0x100
  {
    var y := Shift(x, n);
    assert Shift(x, n + 1) == y / 2;
    assert Shift(x, n + 2) == y / 4;
    assert Shift(x, n + 3) == y / 8;
    assert Shift(x, n + 4) == y / 16;
    assert Shift(x, n + 5) == y / 32;
    assert Shift(x, n + 6) == y / 64;
    assert Shift(x, n + 7) == y / 128;
  }

  /** The byte k places below the top of the joined word is register byte k. */
  lemma JoinedByte(register: seq<byte>, k: nat)
    requires |register| == 8 && k < 8
    ensures Shift(Join(BigEndian(register[..4]), BigEndian(register[4..])), 8 * (7 - k)) % 0x100 == register[k]
  {
    var high, low := BigEndian(register[..4]), BigEndian(register[4..]);
    var x := Join(high, low);
    EightShifts(x, 0);
    EightShifts(x, 8);
    EightShifts(x, 16);
    EightShifts(x, 24);
    EightShifts(x, 32);
    EightShifts(x, 40);
    EightShifts(x, 48);
    QuadletBytes(register[..4]);
    QuadletBytes(register[4..]);
    assert Shift(x, 32) == high;
  }

  lemma QuadletBytes(b: seq<byte>)
    requires |b| == 4
    ensures BigEndian(b) % 0x100 == b[3]
    ensures BigEndian(b) / 0x100 % 0x100 == b[2]
    ensures BigEndian(b) / 0x100 / 0x100 % 0x100 == b[1]
    ensures BigEndian(b) / 0x100 / 0x100 / 0x100 == b[0]
    ensures BigEndian(b) / 0x100 / 0x100 / 0x100 / 0x100 == 0
  {
    HostLoadBytes([b[3], b[2], b[1], b[0]]);
  }

  /** Testing 1L << (63 - c) in the joined word tests the free bit of channel c. */
  lemma JoinedBit(register: seq<byte>, c: nat)
    requires |register| == 8 && c < 64
    ensures BitSet(Join(BigEndian(register[..4]), BigEndian(register[4..])), 63 - c) <==> FreeBit(register, c)
  {
    var x := Join(BigEndian(register[..4]), BigEndian(register[4..]));
    var k, r := c / 8, 7 - c % 8;
    assert 63 - c == 8 * (7 - k) + r;
    ShiftedBit(x, 8 * (7 - k), r);
    JoinedByte(register, k);
    LowByteBit(Shift(x, 8 * (7 - k)), r);
  }

  lemma LowByteBit(y: nat, r: nat)
    requires r < 8
    ensures BitSet(y, r) <==> BitSet(y % 0x100, r)
  {
    var q := y / 0x100;
    assert Double(q, 1) == 2 * q;
    assert Double(q, 2) == 4 * q;
    assert Double(q, 4) == 16 * q;
    assert Double(q, 6) == 64 * q;
    LowBits(y % 0x100, q, 8, r);
  }

  function Double(q: nat, n: nat): nat {
    if n == 0 then q else 2 * Double(q, n - 1)
  }

  /** Adding a multiple of 2 to the n leaves the bits below n alone. */
  lemma {:induction false} LowBits(z: nat, q: nat, n: nat, r: nat)
    requires r < n
    ensures BitSet(z + Double(q, n), r) <==> BitSet(z, r)
  {
    if r > 0 {
      assert (z + Double(q, n)) / 2 == z / 2 + Double(q, n - 1);
      LowBits(z / 2, q, n - 1, r - 1);
    }
  }

  /**
   getFreeChannel after the two quadlets have arrived: swaps both in place, joins them and
   looks for the first set bit. Err stands for the thrown "No free isochronous channels".
   */
  method FirstFreeChannel(register: seq<byte>) returns (r: Result<nat>)
    requires |register| == 8
    ensures r.Ok? ==> IsLeast(r.value, FreeChannels(register))
    ensures r.Err? <==> FreeChannels(register) == {}
  {
    var channelsq := new quadlet[2];
    channelsq[0], channelsq[1] := HostLoad(register[..4]), HostLoad(register[4..]);
    for i := 0 to 2
      invariant channelsq[0] == if i > 0 then BigEndian(register[..4]) else HostLoad(register[..4])
      invariant channelsq[1] == if i > 1 then BigEndian(register[4..]) else HostLoad(register[4..])
    {
      NtohlOfHostLoad(register[..4]);
      NtohlOfHostLoad(register[4..]);
      channelsq[i] := Ntohl(channelsq[i]);
    }
    var channels := Join(channelsq[0], channelsq[1]);
    for i := 0 to 64
      invariant forall c :: c in FreeChannels(register) ==> c >= i
    {
      JoinedBit(register, i);
      if BitSet(channels, 63 - i) {
        return Ok(i);
      }
    }
    return Err;
  }
}
