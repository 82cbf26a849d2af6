/**
 The interpretation of a configuration ROM byte by byte: which address holds which field, and
 which bytes make a node a Phantom.
 */
module RomBytes {
  import opened Words
  import IrmRegister
  import opened Raw1394
  import opened ConfigRom
  import opened FirewireDevice
  import opened RomRoundTrip

  lemma QuadBytes(m: Image, a: nat)
    requires Readable(m, a, 4)
    ensures a in m && a + 1 in m && a + 2 in m && a + 3 in m
    ensures var q, b0: int, b1: int, b2: int, b3: int := Quad(m, a), m[a], m[a + 1], m[a + 2], m[a + 3];
            && Key(q) == b0 && Value(q) == 0x1_0000 * b1 + 0x100 * b2 + b3
            && Length(q) == 0x100 * b0 + b1 && q == 0x100_0000 * b0 + 0x1_0000 * b1 + 0x100 * b2 + b3
  {
    var b0: int, b1: int, b2: int, b3: int := m[a], m[a + 1], m[a + 2], m[a + 3];
    assert Quad(m, a) / 0x1_0000 == 0x100 * b0 + b1;
  }

  /**
   The first byte of the ROM tells its format; a minimal ROM holds the vendor id in the other
   three and nothing else.
   */
  lemma MinimalRom(m: Image)
    requires FullyReadable(m)
    ensures 0xffff_f000_0400 in m && 0xffff_f000_0401 in m && 0xffff_f000_0402 in m && 0xffff_f000_0403 in m
    ensures General(m) <==> m[0xffff_f000_0400] == 4
    ensures m[0xffff_f000_0400] != 4 ==>
              var id := 0x1_0000 * m[0xffff_f000_0401] as int + 0x100 * m[0xffff_f000_0402] as int
                        + m[0xffff_f000_0403] as int;
              Interpret(m) == Accepted(Rom(0, 0, 0, 0, 0, 0, 0, 0, 0, 0, id, 0, 0, 0, None))
  {
    QuadBytes(m, 0xffff_f000_0400);
  }

  /** A general ROM is accepted if and only if its second quadlet is "1394" in ASCII. */
  lemma MagicBytes(m: Image)
    requires FullyReadable(m) && General(m)
    ensures Readable(m, 0xffff_f000_0404, 4)
    ensures Interpret(m).Accepted? <==> Bytes(m, 0xffff_f000_0404, 4) == [0x31, 0x33, 0x39, 0x34]
  {
    var a := 0xffff_f000_0404;
    QuadBytes(m, a);
    assert Bytes(m, a, 4) == [m[a], m[a + 1], m[a + 2], m[a + 3]];
    var b0: int, b1: int, b2: int, b3: int := m[a], m[a + 1], m[a + 2], m[a + 3];
    if Quad(m, a) == 0x3133_3934 {
      assert b0 == 0x31 && b1 == 0x33 && b2 == 0x39 && b3 == 0x34;
    }
  }

  /** 2 << n is the number that has bit n + 1 set and no other. */
  lemma {:induction false} PayloadBit(n: nat, k: nat)
    ensures BitSet(Payload(n), k) <==> k == n + 1
  {
    if n == 0 {
      if k >= 2 {
        NoBits(k - 2);
      }
    } else {
      IrmRegister.BitOfDouble(Payload(n - 1), 0, k);
      if k > 0 {
        PayloadBit(n - 1, k - 1);
      }
    }
  }

  lemma {:induction false} NoBits(k: nat)
    ensures !BitSet(0, k)
  {
    if k > 0 {
      NoBits(k - 1);
    }
  }

  function Bit(x: nat, k: nat): nat {
    if BitSet(x, k) then 1 else 0
  }

  lemma BitOfShift(x: nat, k: nat)
    ensures Bit(x, k) == IrmRegister.Shift(x, k) % 2
  {
    IrmRegister.ShiftedBit(x, k, 0);
  }

  /** A byte is made of its bits. */
  lemma BitsOfByte(x: nat)
    requires x < 0x100
    ensures var high, low := 8 * Bit(x, 7) + 4 * Bit(x, 6) + 2 * Bit(x, 5) + Bit(x, 4),
                             8 * Bit(x, 3) + 4 * Bit(x, 2) + 2 * Bit(x, 1) + Bit(x, 0);
            x == 16 * high + low
  {
    BitOfShift(x, 0);
    BitOfShift(x, 1);
    BitOfShift(x, 2);
    BitOfShift(x, 3);
    BitOfShift(x, 4);
    BitOfShift(x, 5);
    BitOfShift(x, 6);
    BitOfShift(x, 7);
    Halves(x);
  }

  lemma Halves(x: nat)
    requires x < 0x100
    ensures var h1 := x / 2; var h2 := h1 / 2; var h3 := h2 / 2; var h4 := h3 / 2;
            && IrmRegister.Shift(x, 1) == h1 && IrmRegister.Shift(x, 2) == h2
            && IrmRegister.Shift(x, 3) == h3 && IrmRegister.Shift(x, 4) == h4
            && IrmRegister.Shift(x, 5) == h4 / 2 && IrmRegister.Shift(x, 6) == h4 / 2 / 2
            && IrmRegister.Shift(x, 7) == h4 / 2 / 2 / 2 <= 1
  {
  }

  /** What the four bytes of the capability quadlet and the eight after them make of a ROM. */
  lemma CapabilityFields(b: seq<byte>, rom: Rom, k: nat)
    requires |b| == 12
    requires rom == BusInfo(Join(b[0], b[1], b[2], b[3]), Join(b[4], b[5], b[6], b[7]), Join(b[8], b[9], b[10], b[11]))
    ensures rom.irmCap == Bit(b[0], 7) && rom.cycleMasterCap == Bit(b[0], 6)
            && rom.isoCap == Bit(b[0], 5) && rom.busManagerCap == Bit(b[0], 4) && rom.cycleClkAccuracy == b[1]
            && (BitSet(rom.maxAsyncPayload, k) <==>
                  k == 8 * Bit(b[2], 7) + 4 * Bit(b[2], 6) + 2 * Bit(b[2], 5) + Bit(b[2], 4) + 1)
            && rom.linkSpeed == 4 * Bit(b[3], 2) + 2 * Bit(b[3], 1) + Bit(b[3], 0)
    ensures rom.vendorId == 0x1_0000 * b[4] as int + 0x100 * b[5] as int + b[6] as int
            && rom.guidHi == b[7]
            && rom.guidLo == 0x100_0000 * b[8] as int + 0x1_0000 * b[9] as int + 0x100 * b[10] as int + b[11] as int
  {
    CapabilityBytes(b[0], b[1], b[2], b[3]);
    SpeedBytes(b[0], b[1], b[2], b[3]);
    GuidBytes(b[4], b[5], b[6], b[7]);
    PayloadOf(b[2], k);
  }

  /** Of the parsed ROM, these fields come from the bus information block. */
  lemma BusFieldsOf(m: Image, rom: Rom)
    requires FullyReadable(m) && General(m) && Interpret(m) == Accepted(rom)
    ensures Readable(m, 0xffff_f000_0408, 12)
    ensures var b := Bytes(m, 0xffff_f000_0408, 12);
            var bus := BusInfo(Join(b[0], b[1], b[2], b[3]), Join(b[4], b[5], b[6], b[7]),
                               Join(b[8], b[9], b[10], b[11]));
            && rom.irmCap == bus.irmCap && rom.cycleMasterCap == bus.cycleMasterCap && rom.isoCap == bus.isoCap
            && rom.busManagerCap == bus.busManagerCap && rom.cycleClkAccuracy == bus.cycleClkAccuracy
            && rom.linkSpeed == bus.linkSpeed && rom.maxAsyncPayload == bus.maxAsyncPayload
            && rom.vendorId == bus.vendorId && rom.guidHi == bus.guidHi && rom.guidLo == bus.guidLo
  {
    var a := 0xffff_f000_0408;
    assert Readable(m, a, 12);
    DirectoriesKeepBus(m, BusInfo(Quad(m, a), Quad(m, a + 4), Quad(m, a + 8)));
  }

  /** The byte and the bits of each field of the bus information block. */
  lemma BusBytes(m: Image, rom: Rom, k: nat)
    requires FullyReadable(m) && General(m) && Interpret(m) == Accepted(rom)
    ensures Readable(m, 0xffff_f000_0408, 12)
    ensures var b := Bytes(m, 0xffff_f000_0408, 12);
            && rom.irmCap == Bit(b[0], 7) && rom.cycleMasterCap == Bit(b[0], 6)
            && rom.isoCap == Bit(b[0], 5) && rom.busManagerCap == Bit(b[0], 4) && rom.cycleClkAccuracy == b[1]
            && (BitSet(rom.maxAsyncPayload, k) <==>
                  k == 8 * Bit(b[2], 7) + 4 * Bit(b[2], 6) + 2 * Bit(b[2], 5) + Bit(b[2], 4) + 1)
            && rom.linkSpeed == 4 * Bit(b[3], 2) + 2 * Bit(b[3], 1) + Bit(b[3], 0)
    ensures var b := Bytes(m, 0xffff_f000_0408, 12);
            && rom.vendorId == 0x1_0000 * b[4] as int + 0x100 * b[5] as int + b[6] as int
            && rom.guidHi == b[7]
            && rom.guidLo == 0x100_0000 * b[8] as int + 0x1_0000 * b[9] as int + 0x100 * b[10] as int + b[11] as int
  {
    BusFieldsOf(m, rom);
    var b := Bytes(m, 0xffff_f000_0408, 12);
    var bus := BusInfo(Join(b[0], b[1], b[2], b[3]), Join(b[4], b[5], b[6], b[7]), Join(b[8], b[9], b[10], b[11]));
    CapabilityFields(b, bus, k);
  }

  lemma PayloadOf(b: byte, k: nat)
    ensures var high := 8 * Bit(b, 7) + 4 * Bit(b, 6) + 2 * Bit(b, 5) + Bit(b, 4);
            BitSet(Payload(high), k) <==> k == high + 1
  {
    PayloadBit(8 * Bit(b, 7) + 4 * Bit(b, 6) + 2 * Bit(b, 5) + Bit(b, 4), k);
  }

  /** The directories say nothing about what the bus information block says. */
  lemma DirectoriesKeepBus(m: Image, rom: Rom)
    ensures var r := WithDirectories(m, rom);
            && r.irmCap == rom.irmCap && r.cycleMasterCap == rom.cycleMasterCap && r.isoCap == rom.isoCap
            && r.busManagerCap == rom.busManagerCap && r.cycleClkAccuracy == rom.cycleClkAccuracy
            && r.linkSpeed == rom.linkSpeed && r.maxAsyncPayload == rom.maxAsyncPayload
            && r.vendorId == rom.vendorId && r.guidHi == rom.guidHi && r.guidLo == rom.guidLo
  {
  }

  lemma CapabilityBytes(b0: byte, b1: byte, b2: byte, b3: byte)
    ensures var q := Join(b0, b1, b2, b3);
            && Slice(q, 0x8000_0000, 2) == Bit(b0, 7) && Slice(q, 0x4000_0000, 2) == Bit(b0, 6)
            && Slice(q, 0x2000_0000, 2) == Bit(b0, 5) && Slice(q, 0x1000_0000, 2) == Bit(b0, 4)
  {
    HighHalf(b0, b1 as int * 0x1_0000 + b2 as int * 0x100 + b3 as int);
    HighBits(b0);
  }

  lemma SpeedBytes(b0: byte, b1: byte, b2: byte, b3: byte)
    ensures var q := Join(b0, b1, b2, b3);
            && Slice(q, 0x1_0000, 0x100) == b1
            && Slice(q, 0x1000, 0x10) == 8 * Bit(b2, 7) + 4 * Bit(b2, 6) + 2 * Bit(b2, 5) + Bit(b2, 4)
            && Slice(q, 1, 8) == 4 * Bit(b3, 2) + 2 * Bit(b3, 1) + Bit(b3, 0)
  {
    LowFields(0x100 * b0 as int + b1 as int, 0x100 * b2 as int + b3 as int);
    LowHalf(b2, b3);
    HighBits(b2);
    LowBitsOf(b3);
  }

  lemma HighBits(x: nat)
    requires x < 0x100
    ensures x / 128 == Bit(x, 7) && x / 64 % 2 == Bit(x, 6) && x / 32 % 2 == Bit(x, 5) && x / 16 % 2 == Bit(x, 4)
    ensures x / 16 == 8 * Bit(x, 7) + 4 * Bit(x, 6) + 2 * Bit(x, 5) + Bit(x, 4)
  {
    BitsOfByte(x);
  }

  lemma LowBitsOf(x: nat)
    requires x < 0x100
    ensures x % 8 == 4 * Bit(x, 2) + 2 * Bit(x, 1) + Bit(x, 0)
  {
    BitsOfByte(x);
  }

  lemma HighHalf(x: nat, rest: nat)
    requires x < 0x100 && rest < 0x100_0000
    ensures var q := x * 0x100_0000 + rest;
            && q / 0x8000_0000 == x / 128 && q / 0x4000_0000 == x / 64
            && q / 0x2000_0000 == x / 32 && q / 0x1000_0000 == x / 16
  {
    CapFields(x / 16, x % 16 * 0x100_0000 + rest);
  }

  lemma LowHalf(b2: byte, b3: byte)
    ensures var high: int, low: int := b2, b3;
            (0x100 * high + low) / 0x1000 == high / 16 && (0x100 * high + low) % 8 == low % 8
  {
    SameRemainder(0x20 * b2, b3, 0x100 * b2 as int + b3 as int);
  }

  lemma GuidBytes(b0: byte, b1: byte, b2: byte, b3: byte)
    ensures var q := Join(b0, b1, b2, b3);
            && Slice(q, 1, 0x100) == b3
            && Slice(q, 0x100, 0x100_0000) == 0x1_0000 * b0 as int + 0x100 * b1 as int + b2 as int
  {
    var x0: int, x1: int, x2: int, x3: int := b0, b1, b2, b3;
    var q: int := Join(b0, b1, b2, b3);
    assert q == 0x100 * (0x1_0000 * x0 + 0x100 * x1 + x2) + x3;
  }

  /**
   In a directory of n entries from address a, an entry's first byte is its key and the other three
   are its value; the last entry with a key counts, for values and for jumps alike.
   */
  lemma LastEntryBytes(m: Image, a: nat, n: nat, key: nat, i: nat)
    requires Readable(m, a, 4 * n) && i < n && a + 4 * i in m && m[a + 4 * i] == key
    requires forall j :: i < j < n ==> a + 4 * j in m && m[a + 4 * j] != key
    ensures Readable(m, a + 4 * i, 4)
    ensures var at := a + 4 * i;
            var value := 0x1_0000 * m[at + 1] as int + 0x100 * m[at + 2] as int + m[at + 3] as int;
            && LastValue(Entries(m, a, n), key) == value
            && Target(Entries(m, a, n), a, key) == Some(at + 4 * value)
  {
    LastHasKey(m, a, n, key, i);
    assert Readable(m, a + 4 * i, 4);
    QuadBytes(m, a + 4 * i);
  }

  lemma LastHasKey(m: Image, a: nat, n: nat, key: nat, i: nat)
    requires Readable(m, a, 4 * n) && i < n && a + 4 * i in m && m[a + 4 * i] == key
    requires forall j :: i < j < n ==> a + 4 * j in m && m[a + 4 * j] != key
    ensures LastIndex(Entries(m, a, n), key) == Some(i)
  {
    EntryKeys(m, a, n);
    LastIndexIsLast(Entries(m, a, n), key);
    assert Key(Entries(m, a, n)[i]) == key;
  }

  lemma NoEntryBytes(m: Image, a: nat, n: nat, key: nat)
    requires Readable(m, a, 4 * n) && forall j: nat :: j < n ==> a + 4 * j in m && m[a + 4 * j] != key
    ensures LastValue(Entries(m, a, n), key) == 0 && Target(Entries(m, a, n), a, key) == None
  {
    EntryKeys(m, a, n);
    LastIndexIsLast(Entries(m, a, n), key);
  }

  lemma EntryKeys(m: Image, a: nat, n: nat)
    requires Readable(m, a, 4 * n)
    ensures forall j: nat :: j < n ==> a + 4 * j in m && Key(Entries(m, a, n)[j]) == m[a + 4 * j]
  {
    forall j: nat | j < n
      ensures a + 4 * j in m && Key(Entries(m, a, n)[j]) == m[a + 4 * j]
    {
      assert Readable(m, a + 4 * j, 4);
      QuadBytes(m, a + 4 * j);
    }
  }

  /** The root directory has its length in the two bytes at 0xffff_f000_0414; at most 16 entries count. */
  predicate IsRoot(m: Image, root: seq<quadlet>) {
    Readable(m, 0xffff_f000_0414, 4 + 4 * |root|) && root == Entries(m, 0xffff_f000_0418, |root|)
  }

  lemma RootBytes(m: Image, rom: Rom)
    requires FullyReadable(m) && General(m) && Interpret(m) == Accepted(rom)
    ensures IsRoot(m, RootEntries(m)) && rom.nodeCapabilities == LastValue(RootEntries(m), 0x0c)
    ensures 0xffff_f000_0414 in m && 0xffff_f000_0415 in m
    ensures var length := 0x100 * m[0xffff_f000_0414] as int + m[0xffff_f000_0415] as int;
            |RootEntries(m)| == if length <= 16 then length else 16
  {
    assert Readable(m, 0xffff_f000_0414, 4);
    QuadBytes(m, 0xffff_f000_0414);
  }

  /** The unit fields come from entries 0x12, 0x13 and 0x17 of the directory that the root entry 0xd1 leads to. */
  lemma UnitBytes(m: Image, rom: Rom)
    requires FullyReadable(m) && General(m) && Interpret(m) == Accepted(rom)
    ensures match Target(RootEntries(m), 0xffff_f000_0418, 0xd1)
            case None => rom.unitSpecId == rom.unitSwVersion == rom.modelId == 0
            case Some(u) =>
              && Readable(m, u, 4)
              && var n := 0x100 * m[u] as int + m[u + 1] as int;
                 var es := Entries(m, u + 4, n);
                 && Readable(m, u + 4, 4 * n)
                 && rom.unitSpecId == LastValue(es, 0x12) && rom.unitSwVersion == LastValue(es, 0x13)
                 && rom.modelId == LastValue(es, 0x17)
  {
    Sentinels(m);
    if UnitDirectory(m).Some? {
      assert Readable(m, UnitDirectory(m).value, 4);
      QuadBytes(m, UnitDirectory(m).value);
    }
  }

  /** The vendor text follows the header and the two language quadlets of the leaf that the root entry 0x81 leads to. */
  lemma VendorBytes(m: Image, rom: Rom)
    requires FullyReadable(m) && General(m) && Interpret(m) == Accepted(rom)
    ensures match Target(RootEntries(m), 0xffff_f000_0418, 0x81)
            case None => rom.vendor == None
            case Some(l) =>
              && Readable(m, l, 4)
              && var n := 0x100 * m[l] as int + m[l + 1] as int;
                 n >= 2 ==> Readable(m, l + 12, 4 * (n - 2)) && rom.vendor == Some(Bytes(m, l + 12, 4 * (n - 2)))
  {
    TextOf(m, rom);
    if TextualLeaf(m).Some? {
      LeafBytes(m, TextualLeaf(m).value);
    }
  }

  lemma TextOf(m: Image, rom: Rom)
    requires FullyReadable(m) && General(m) && Interpret(m) == Accepted(rom)
    ensures TextReadable(m)
    ensures rom.vendor == if TextualLeaf(m).None? then None else Some(TextAt(m, TextualLeaf(m).value))
  {
  }

  lemma LeafBytes(m: Image, l: nat)
    requires LeafReadable(m, l)
    ensures l in m && l + 1 in m
    ensures var n := 0x100 * m[l] as int + m[l + 1] as int;
            n >= 2 ==> Readable(m, l + 12, 4 * (n - 2)) && TextAt(m, l) == Bytes(m, l + 12, 4 * (n - 2))
  {
    QuadBytes(m, l);
    ShortLeafWraps(Length(Quad(m, l)));
  }

  /**
   The bound on the reads of the parser is 0xffff_f404_0450; it holds if the textual leaf, where
   there is one and its length can be read, has at least two quadlets.
   */
  lemma BoundBytes(m: Image)
    ensures BOUND == 0xffff_f404_0450
    ensures ProperLeaf(m) <==>
            match Target(RootEntries(m), 0xffff_f000_0418, 0x81)
            case None => true
            case Some(l) => Readable(m, l, 4) ==> l in m && l + 1 in m && (m[l] > 0 || m[l + 1] >= 2)
  {
    if TextualLeaf(m).Some? && Readable(m, TextualLeaf(m).value, 4) {
      QuadBytes(m, TextualLeaf(m).value);
    }
  }

  // ----- which bytes make a Phantom

  /**
   A node with an accepted ROM is a Phantom exactly if the three bytes of its vendor id are 00 0b 99
   and the quadlet at 0x1006_000c holds 00 0b 99 00; its serial is the quadlet at 0x1006_0010 as a
   little-endian host loads it.
   */
  lemma PhantomBytes(m: Image, vendor: seq<byte>)
    requires FullyReadable(m) && Interpret(m).Accepted?
    requires var at := if General(m) then 0xffff_f000_040c else 0xffff_f000_0401;
             Readable(m, at, 3) && vendor == Bytes(m, at, 3)
    ensures Identify(m) ==
            if vendor != [0x00, 0x0b, 0x99] then Foreign
            else if !Readable(m, 0x1006_000c, 4) then Unreadable
            else if Bytes(m, 0x1006_000c, 4) != [0x00, 0x0b, 0x99, 0x00] then Foreign
            else if !Readable(m, 0x1006_0010, 4) then Unreadable
            else Sensable(HostLoad(Bytes(m, 0x1006_0010, 4)))
  {
    VendorIdBytes(m, vendor);
    if Readable(m, 0x1006_000c, 4) {
      DeviceBytes(m, 0x1006_000c);
    }
    if Readable(m, 0x1006_0010, 4) {
      UnswappedQuad(m, 0x1006_0010);
    }
  }

  lemma DeviceBytes(m: Image, a: nat)
    requires Readable(m, a, 4)
    ensures Quad(m, a) == 0x000b_9900 <==> Bytes(m, a, 4) == [0x00, 0x0b, 0x99, 0x00]
  {
    QuadBytes(m, a);
    assert Bytes(m, a, 4) == [m[a], m[a + 1], m[a + 2], m[a + 3]];
  }

  lemma VendorIdBytes(m: Image, vendor: seq<byte>)
    requires FullyReadable(m) && Interpret(m).Accepted?
    requires var at := if General(m) then 0xffff_f000_040c else 0xffff_f000_0401;
             Readable(m, at, 3) && vendor == Bytes(m, at, 3)
    ensures VendorId(m) == 0x000b99 <==> vendor == [0x00, 0x0b, 0x99]
  {
    ThreeBytes(vendor);
    if General(m) {
      GeneralVendor(m, vendor);
    } else {
      MinimalRom(m);
    }
  }

  lemma GeneralVendor(m: Image, vendor: seq<byte>)
    requires FullyReadable(m) && Interpret(m).Accepted? && General(m)
    requires Readable(m, 0xffff_f000_040c, 3) && vendor == Bytes(m, 0xffff_f000_040c, 3)
    ensures VendorId(m) == 0x1_0000 * vendor[0] as int + 0x100 * vendor[1] as int + vendor[2] as int
  {
    BusBytes(m, Interpret(m).rom, 0);
  }

  lemma ThreeBytes(b: seq<byte>)
    requires |b| == 3
    ensures 0x1_0000 * b[0] as int + 0x100 * b[1] as int + b[2] as int == 0x000b99 <==> b == [0x00, 0x0b, 0x99]
  {
    var b0: int, b1: int, b2: int := b[0], b[1], b[2];
    assert b == [b[0], b[1], b[2]];
  }

  /** A node that does not answer for its ROM cannot be told, and one with a wrong magic number is no Phantom. */
  lemma NoPhantomBytes(m: Image)
    ensures !FullyReadable(m) ==> Identify(m) == Unreadable
    ensures FullyReadable(m) && Interpret(m).Rejected? ==> Identify(m) == Foreign
  {
  }

  /** The encoding of any ROM with vendor id 0x000b99 and a matching device register is that of a Phantom. */
  lemma EncodedPhantom(m: Image, s: Source, serial: seq<byte>)
    requires Fits(s) && Encodes(m, s) && |serial| == 4
    requires 0x000b_9900_0000_0000 <= s.guid < 0x000b_9a00_0000_0000
    requires Readable(m, 0x1006_000c, 8) && Bytes(m, 0x1006_000c, 8) == [0x00, 0x0b, 0x99, 0x00] + serial
    ensures Identify(m) == Sensable(HostLoad(serial))
  {
    RoundTrip(m, s);
    var b := Bytes(m, 0x1006_000c, 8);
    assert Readable(m, 0x1006_000c, 4) && Readable(m, 0x1006_0010, 4);
    assert Bytes(m, 0x1006_000c, 4) == b[..4] && Bytes(m, 0x1006_0010, 4) == b[4..];
    DeviceBytes(m, 0x1006_000c);
    UnswappedQuad(m, 0x1006_0010);
  }

  /** Encoding max_rec and parsing it gives the number with bit max_rec + 1 set and no other. */
  lemma EncodedPayload(m: Image, s: Source, k: nat)
    requires Fits(s) && Encodes(m, s)
    ensures Interpret(m).Accepted? && (BitSet(Interpret(m).rom.maxAsyncPayload, k) <==> k == s.maxRec + 1)
  {
    RoundTrip(m, s);
    PayloadBit(s.maxRec, k);
  }
}
