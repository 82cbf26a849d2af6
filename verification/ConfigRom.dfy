/**
 What a configuration ROM says, as a function of the bytes of the node: the bus information
 block and the linked directories of IEEE Std 1212, section 8.3.2.5 of IEEE Std 1394-1995. The
 two parsers of the repository are proved against `Interpret`.
 */
module ConfigRom {
  import opened Words
  import opened Raw1394

  const ROM: nat := 0xffff_f000_0400
  const MAGIC: quadlet := 0x3133_3934

  const NODE_CAPABILITIES := 0x0c
  const UNIT_DIRECTORY := 0xd1
  const TEXTUAL_LEAF := 0x81
  const UNIT_SPEC_ID := 0x12
  const UNIT_SW_VERSION := 0x13
  const MODEL_ID := 0x17

  datatype Rom = Rom(
    irmCap: nat, cycleMasterCap: nat, isoCap: nat, busManagerCap: nat,
    cycleClkAccuracy: nat, maxAsyncPayload: nat, linkSpeed: nat,
    guidLo: nat, guidHi: nat, nodeCapabilities: nat, vendorId: nat,
    unitSpecId: nat, unitSwVersion: nat, modelId: nat, vendor: Option<seq<byte>>)

  /** The 64-bit member that shares its memory with guid_lo and guid_hi. */
  function GuidMember(r: Rom): nat {
    r.guidHi * 0x1_0000_0000 + r.guidLo
  }

  const BLANK := Rom(0, 0, 0, 0, 0, 0, 0, 0, 0, 0, 0, 0, 0, 0, None)

  datatype Verdict = Rejected | Accepted(rom: Rom)

  /** The big-endian quadlet at an address, 0 where the node does not answer. */
  function Quad(m: Image, a: nat): quadlet {
    if a in m && a + 1 in m && a + 2 in m && a + 3 in m
    then Join(m[a], m[a + 1], m[a + 2], m[a + 3]) else 0
  }

  function Join(b0: byte, b1: byte, b2: byte, b3: byte): quadlet {
    BigEndian([b0, b1, b2, b3])
  }

  lemma QuadOfBytes(m: Image, a: nat)
    ensures Quad(m, a) == if Readable(m, a, 4) then BigEndian(Bytes(m, a, 4)) else 0
  {
    if a in m && a + 1 in m && a + 2 in m && a + 3 in m {
      assert Readable(m, a, 4);
      assert Bytes(m, a, 4) == [m[a], m[a + 1], m[a + 2], m[a + 3]];
    }
  }

  function Key(q: quadlet): nat { q / 0x100_0000 }
  function Value(q: quadlet): nat { q % 0x100_0000 }
  function Length(q: quadlet): nat { q / 0x1_0000 }

  /** n directory entries from address a. */
  function Entries(m: Image, a: nat, n: nat): (es: seq<quadlet>)
    ensures |es| == n
  {
    seq(n, i requires 0 <= i < n => Quad(m, a + 4 * i))
  }

  /** The index of the last entry with a key. */
  function LastIndex(es: seq<quadlet>, key: nat): Option<nat> {
    if es == [] then None
    else if Key(es[|es| - 1]) == key then Some(|es| - 1)
    else LastIndex(es[..|es| - 1], key)
  }

  lemma {:induction false} LastIndexIsLast(es: seq<quadlet>, key: nat)
    ensures match LastIndex(es, key)
            case None => forall j :: 0 <= j < |es| ==> Key(es[j]) != key
            case Some(i) => i < |es| && Key(es[i]) == key && forall j :: i < j < |es| ==> Key(es[j]) != key
  {
    if es != [] && Key(es[|es| - 1]) != key {
      LastIndexIsLast(es[..|es| - 1], key);
    }
  }

  function LastValue(es: seq<quadlet>, key: nat): nat {
    var i := LastIndex(es, key);
    LastIndexIsLast(es, key);
    if i.None? then 0 else Value(es[i.value])
  }

  /** Where the last entry with a key points, for a directory whose first entry is at `start`. */
  function Target(es: seq<quadlet>, start: nat, key: nat): Option<nat> {
    var i := LastIndex(es, key);
    LastIndexIsLast(es, key);
    if i.None? then None else Some(start + 4 * i.value + 4 * Value(es[i.value]))
  }

  /** Scanning one entry further: the new entry wins if it has the key. */
  lemma ScanStep(es: seq<quadlet>, n: nat, start: nat, key: nat)
    requires n < |es|
    ensures LastValue(es[..n + 1], key) == if Key(es[n]) == key then Value(es[n]) else LastValue(es[..n], key)
    ensures Target(es[..n + 1], start, key) ==
            if Key(es[n]) == key then Some(start + 4 * n + 4 * Value(es[n])) else Target(es[..n], start, key)
  {
    assert es[..n + 1] == es[..n] + [es[n]];
    LastOfLonger(es[..n], es[n], start, key);
  }

  lemma LastOfLonger(es: seq<quadlet>, q: quadlet, start: nat, key: nat)
    ensures LastValue(es + [q], key) == if Key(q) == key then Value(q) else LastValue(es, key)
    ensures Target(es + [q], start, key) ==
            if Key(q) == key then Some(start + 4 * |es| + 4 * Value(q)) else Target(es, start, key)
  {
    assert (es + [q])[..|es|] == es;
    LastIndexIsLast(es, key);
  }

  /** A ROM with what the entries of a unit directory say about the unit. */
  function WithUnit(rom: Rom, es: seq<quadlet>): Rom {
    rom.(unitSpecId := LastValue(es, UNIT_SPEC_ID),
         unitSwVersion := LastValue(es, UNIT_SW_VERSION),
         modelId := LastValue(es, MODEL_ID))
  }

  lemma UnitStep(rom: Rom, es: seq<quadlet>, n: nat)
    requires n < |es|
    ensures var q, r := es[n], WithUnit(rom, es[..n]);
            WithUnit(rom, es[..n + 1]) ==
            if Key(q) == UNIT_SPEC_ID then r.(unitSpecId := Value(q))
            else if Key(q) == UNIT_SW_VERSION then r.(unitSwVersion := Value(q))
            else if Key(q) == MODEL_ID then r.(modelId := Value(q))
            else r
  {
    ScanStep(es, n, 0, UNIT_SPEC_ID);
    ScanStep(es, n, 0, UNIT_SW_VERSION);
    ScanStep(es, n, 0, MODEL_ID);
  }

  // ----- the ROM

  predicate General(m: Image) {
    Quad(m, ROM) / 0x100_0000 == 4
  }

  function RootLength(m: Image): nat {
    if Length(Quad(m, ROM + 20)) > 16 then 16 else Length(Quad(m, ROM + 20))
  }

  function RootEntries(m: Image): seq<quadlet> {
    Entries(m, ROM + 24, RootLength(m))
  }

  function UnitDirectory(m: Image): Option<nat> {
    Target(RootEntries(m), ROM + 24, UNIT_DIRECTORY)
  }

  function TextualLeaf(m: Image): Option<nat> {
    Target(RootEntries(m), ROM + 24, TEXTUAL_LEAF)
  }

  function UnitEntries(m: Image): seq<quadlet> {
    match UnitDirectory(m)
    case None => []
    case Some(u) => Entries(m, u + 4, Length(Quad(m, u)))
  }

  /** (length - 2) * 4 in 32-bit unsigned arithmetic; a length below 2 wraps round. */
  function TextLength(length: nat): nat
    requires length < 0x1_0000
  {
    (length + 0xffff_fffe) % 0x1_0000_0000 * 4 % 0x1_0000_0000
  }

  function TextAt(m: Image, leaf: nat): seq<byte> {
    var n := TextLength(Length(Quad(m, leaf)));
    if Readable(m, leaf + 12, n) then Bytes(m, leaf + 12, n) else []
  }

  /** q / unit mod size: a field of a quadlet. */
  function Slice(q: quadlet, unit: int, size: int): nat
    requires unit > 0 && size > 0
  {
    q / unit % size
  }

  function BusInfo(second: quadlet, third: quadlet, fourth: quadlet): Rom {
    Rom(Slice(second, 0x8000_0000, 2), Slice(second, 0x4000_0000, 2),
        Slice(second, 0x2000_0000, 2), Slice(second, 0x1000_0000, 2),
        Slice(second, 0x1_0000, 0x100), Payload(Slice(second, 0x1000, 0x10)), Slice(second, 1, 8),
        fourth, Slice(third, 1, 0x100), 0, Slice(third, 0x100, 0x100_0000),
        0, 0, 0, None)
  }

  /** 2 << n */
  function Payload(n: nat): nat {
    if n == 0 then 2 else 2 * Payload(n - 1)
  }

  function FullRom(m: Image): Rom {
    WithDirectories(m, BusInfo(Quad(m, ROM + 8), Quad(m, ROM + 12), Quad(m, ROM + 16)))
  }

  /** Adds what the directories say. */
  function WithDirectories(m: Image, rom: Rom): Rom {
    WithLinked(m, rom.(nodeCapabilities := LastValue(RootEntries(m), NODE_CAPABILITIES)))
  }

  /** Adds what the unit directory and the textual leaf say. */
  function WithLinked(m: Image, rom: Rom): Rom {
    var text := if TextualLeaf(m).None? then None else Some(TextAt(m, TextualLeaf(m).value));
    WithUnit(rom, UnitEntries(m)).(vendor := text)
  }

  function Interpret(m: Image): Verdict {
    if !General(m) then Accepted(BLANK.(vendorId := Quad(m, ROM) % 0x100_0000))
    else if Quad(m, ROM + 4) != MAGIC then Rejected
    else Accepted(FullRom(m))
  }

  predicate LeafReadable(m: Image, leaf: nat) {
    Readable(m, leaf, 4) && Readable(m, leaf + 12, TextLength(Length(Quad(m, leaf))))
  }

  predicate TextReadable(m: Image) {
    TextualLeaf(m).None? || LeafReadable(m, TextualLeaf(m).value)
  }

  /** The node answers for what a general ROM holds after its magic number. */
  predicate GeneralReadable(m: Image) {
    && Readable(m, ROM + 8, 16 + 4 * RootLength(m))
    && LinkedReadable(m)
  }

  predicate LinkedReadable(m: Image) {
    && (UnitDirectory(m).Some? ==> Readable(m, UnitDirectory(m).value, 4 + 4 * |UnitEntries(m)|))
    && TextReadable(m)
  }

  /** The node answers for every byte that the interpretation depends on. */
  predicate FullyReadable(m: Image) {
    && Readable(m, ROM, 4)
    && (General(m) ==> Readable(m, ROM + 4, 4))
    && (General(m) && Quad(m, ROM + 4) == MAGIC ==> GeneralReadable(m))
  }

  /** A textual leaf shorter than its two language quadlets makes the length wrap to almost 4 GiB. */
  lemma ShortLeafWraps(length: nat)
    requires length < 0x1_0000
    ensures TextLength(length) == 4 * (length - 2) <==> length >= 2
    ensures length < 2 ==> TextLength(length) >= 0xffff_fff8
  {
  }

  /**
   Jumps stay within the ROM space: a pointed-at directory begins after the root directory
   header, so address 0 can stand for "no entry", and ends below a fixed bound.
   */
  lemma UnitDirectoryBounded(m: Image)
    requires UnitDirectory(m).Some?
    ensures ROM + 24 <= UnitDirectory(m).value
    ensures UnitDirectory(m).value + 4 + 4 * |UnitEntries(m)| <= BOUND
  {
    TargetBounds(RootEntries(m), ROM + 24, UNIT_DIRECTORY);
  }

  lemma TextualLeafBounded(m: Image)
    requires TextualLeaf(m).Some?
    ensures var l := TextualLeaf(m).value;
            && ROM + 24 <= l <= ROM + 0x400_0050
            && (Length(Quad(m, l)) >= 2 ==> l + 12 + TextLength(Length(Quad(m, l))) <= BOUND)
  {
    TargetBounds(RootEntries(m), ROM + 24, TEXTUAL_LEAF);
    ShortLeafWraps(Length(Quad(m, TextualLeaf(m).value)));
  }

  /** No read of a parser needs to reach this address. */
  const BOUND: nat := ROM + 0x404_0050

  /** There is no textual leaf, or it has at least its two language quadlets, or its length cannot be read. */
  predicate ProperLeaf(m: Image) {
    match TextualLeaf(m)
    case None => true
    case Some(l) => !Readable(m, l, 4) || Length(Quad(m, l)) >= 2
  }

  lemma TargetBounds(es: seq<quadlet>, start: nat, key: nat)
    ensures var t := Target(es, start, key);
            t.Some? ==> start <= t.value <= start + 4 * (|es| - 1) + 0x3ff_fffc
  {
    LastIndexIsLast(es, key);
  }
}
