/**
 Writing a configuration ROM: the big-endian encoding of a bus information block, a root
 directory, and a unit directory and textual leaf that the root directory points at. Parsing the
 encoding gives back everything that was encoded.
 */
module RomRoundTrip {
  import opened Words
  import opened Raw1394
  import opened ConfigRom

  datatype Entry = Entry(key: byte, value: nat)

  /** `spare...` and `crc...` are fields that the parsers skip; `text` holds whole quadlets. */
  datatype Source = Source(
    crcInfo: nat, irmCap: nat, cycleMasterCap: nat, isoCap: nat, busManagerCap: nat, spareHigh: nat,
    cycleClkAccuracy: byte, maxRec: nat, spareLow: nat, linkSpeed: nat, guid: nat,
    crcRoot: nat, root: seq<Entry>,
    crcUnit: nat, unit: Option<seq<Entry>>,
    crcText: nat, specifier: quadlet, language: quadlet, text: Option<seq<quadlet>>)

  predicate EntriesFit(es: seq<Entry>) {
    |es| < 0x1_0000 && forall e :: e in es ==> e.value < 0x100_0000
  }

  predicate Fits(s: Source) {
    && s.crcInfo < 0x100_0000 && s.irmCap < 2 && s.cycleMasterCap < 2 && s.isoCap < 2 && s.busManagerCap < 2
    && s.spareHigh < 0x10 && s.maxRec < 0x10 && s.spareLow < 0x200 && s.linkSpeed < 8
    && s.guid < 0x1_0000_0000_0000_0000
    && s.crcRoot < 0x1_0000 && s.crcUnit < 0x1_0000 && s.crcText < 0x1_0000
    && EntriesFit(s.root) && |s.root| <= 16
    && (s.unit.Some? ==> EntriesFit(s.unit.value))
    && (s.text.Some? ==> |s.text.value| + 2 < 0x1_0000)
  }

  function EntryQuad(e: Entry): quadlet
    requires e.value < 0x100_0000
  {
    (e.key as int) * 0x100_0000 + e.value
  }

  function Quads(es: seq<Entry>): (qs: seq<quadlet>)
    requires EntriesFit(es)
    ensures |qs| == |es|
  {
    seq(|es|, i requires 0 <= i < |es| => EntryQuad(es[i]))
  }

  function BusQuad(s: Source): quadlet
    requires Fits(s)
  {
    s.irmCap * 0x8000_0000 + s.cycleMasterCap * 0x4000_0000 + s.isoCap * 0x2000_0000 + s.busManagerCap * 0x1000_0000
    + s.spareHigh * 0x100_0000 + (s.cycleClkAccuracy as int) * 0x1_0000
    + s.maxRec * 0x1000 + s.spareLow * 8 + s.linkSpeed
  }

  function Header(s: Source): seq<quadlet>
    requires Fits(s)
  {
    [0x400_0000 + s.crcInfo, MAGIC, BusQuad(s), s.guid / 0x1_0000_0000, s.guid % 0x1_0000_0000,
     |s.root| * 0x1_0000 + s.crcRoot]
  }

  function UnitPart(s: Source): seq<quadlet>
    requires Fits(s) && s.unit.Some?
  {
    [|s.unit.value| * 0x1_0000 + s.crcUnit] + Quads(s.unit.value)
  }

  function TextPart(s: Source): seq<quadlet>
    requires Fits(s) && s.text.Some?
  {
    [(|s.text.value| + 2) * 0x1_0000 + s.crcText, s.specifier, s.language] + s.text.value
  }

  /** The bytes from address a on are the big-endian quadlets qs. */
  predicate Holds(m: Image, a: nat, qs: seq<quadlet>) {
    Readable(m, a, 4 * |qs|) && forall i :: 0 <= i < |qs| ==> Quad(m, a + 4 * i) == qs[i]
  }

  /**
   The memory holds the encoding of s. The unit directory and the textual leaf lie wherever the
   root directory points, anywhere its 24-bit offsets reach.
   */
  predicate Encodes(m: Image, s: Source)
    requires Fits(s)
  {
    Holds(m, ROM, Header(s) + Quads(s.root)) && UnitEncoded(m, s) && TextEncoded(m, s)
  }

  predicate UnitEncoded(m: Image, s: Source)
    requires Fits(s)
  {
    var u := Target(Quads(s.root), ROM + 24, UNIT_DIRECTORY);
    u.Some? == s.unit.Some? && (u.Some? ==> Holds(m, u.value, UnitPart(s)))
  }

  predicate TextEncoded(m: Image, s: Source)
    requires Fits(s)
  {
    var l := Target(Quads(s.root), ROM + 24, TEXTUAL_LEAF);
    l.Some? == s.text.Some? && (l.Some? ==> Holds(m, l.value, TextPart(s)))
  }

  /** The value of the last entry with a key, 0 without one. */
  function LastEntry(es: seq<Entry>, key: nat): nat {
    if es == [] then 0
    else if es[|es| - 1].key == key then es[|es| - 1].value
    else LastEntry(es[..|es| - 1], key)
  }

  function TextBytes(qs: seq<quadlet>): seq<byte> {
    if qs == [] then [] else TextBytes(qs[..|qs| - 1]) + ToBigEndian(qs[|qs| - 1])
  }

  function Expected(s: Source): Rom
    requires Fits(s)
  {
    Rom(s.irmCap, s.cycleMasterCap, s.isoCap, s.busManagerCap, s.cycleClkAccuracy, Payload(s.maxRec), s.linkSpeed,
        s.guid % 0x1_0000_0000, s.guid / 0x1_0000_0000 % 0x100, LastEntry(s.root, NODE_CAPABILITIES),
        s.guid / 0x100_0000_0000,
        if s.unit.None? then 0 else LastEntry(s.unit.value, UNIT_SPEC_ID),
        if s.unit.None? then 0 else LastEntry(s.unit.value, UNIT_SW_VERSION),
        if s.unit.None? then 0 else LastEntry(s.unit.value, MODEL_ID),
        if s.text.None? then None else Some(TextBytes(s.text.value)))
  }

  /** The 64-bit identifier is vendor_id, guid_hi and guid_lo joined. */
  lemma GuidJoined(s: Source)
    requires Fits(s)
    ensures var r := Expected(s);
            s.guid == r.vendorId * 0x100_0000_0000 + r.guidHi * 0x1_0000_0000 + r.guidLo
            && r.vendorId < 0x100_0000 && r.guidHi < 0x100 && r.guidLo < 0x1_0000_0000
  {
    var top := s.guid / 0x1_0000_0000;
    assert s.guid == top * 0x1_0000_0000 + s.guid % 0x1_0000_0000;
    assert top == top / 0x100 * 0x100 + top % 0x100;
    assert s.guid / 0x100_0000_0000 == top / 0x100;
  }

  /** The 64-bit member of the ROM structure is the identifier if and only if the vendor id is 0. */
  lemma GuidMemberIsPartial(s: Source)
    requires Fits(s)
    ensures GuidMember(Expected(s)) == s.guid <==> Expected(s).vendorId == 0
  {
    GuidJoined(s);
  }

  lemma EntryFields(e: Entry)
    requires e.value < 0x100_0000
    ensures Key(EntryQuad(e)) == e.key && Value(EntryQuad(e)) == e.value
  {
  }

  lemma {:induction false} LastOfQuads(es: seq<Entry>, key: nat)
    requires EntriesFit(es)
    ensures LastValue(Quads(es), key) == LastEntry(es, key)
  {
    if es != [] {
      var n := |es| - 1;
      assert Quads(es) == Quads(es[..n]) + [EntryQuad(es[n])];
      LastOfLonger(Quads(es[..n]), EntryQuad(es[n]), 0, key);
      LastOfQuads(es[..n], key);
      EntryFields(es[n]);
    }
  }

  lemma BusFields(s: Source)
    requires Fits(s)
    ensures var q := BusQuad(s);
            && Slice(q, 0x8000_0000, 2) == s.irmCap && Slice(q, 0x4000_0000, 2) == s.cycleMasterCap
            && Slice(q, 0x2000_0000, 2) == s.isoCap && Slice(q, 0x1000_0000, 2) == s.busManagerCap
            && Slice(q, 0x1_0000, 0x100) == s.cycleClkAccuracy && Slice(q, 0x1000, 0x10) == s.maxRec
            && Slice(q, 1, 8) == s.linkSpeed
  {
    var caps := s.irmCap * 8 + s.cycleMasterCap * 4 + s.isoCap * 2 + s.busManagerCap;
    var low := s.maxRec * 0x1000 + s.spareLow * 8 + s.linkSpeed;
    var middle := s.spareHigh * 0x100 + s.cycleClkAccuracy as int;
    assert BusQuad(s) == caps * 0x1000_0000 + middle * 0x1_0000 + low;
    CapFields(caps, middle * 0x1_0000 + low);
    CapBits(s.irmCap, s.cycleMasterCap, s.isoCap, s.busManagerCap);
    LowFields(caps * 0x1000 + middle, low);
    LowBits(caps, s.spareHigh, s.cycleClkAccuracy, s.maxRec, s.spareLow, s.linkSpeed);
  }

  lemma CapBits(a: nat, b: nat, c: nat, d: nat)
    requires a < 2 && b < 2 && c < 2 && d < 2
    ensures var caps := a * 8 + b * 4 + c * 2 + d;
            caps / 8 % 2 == a && caps / 4 % 2 == b && caps / 2 % 2 == c && caps % 2 == d
  {
  }

  lemma LowBits(caps: nat, spareHigh: nat, accuracy: nat, maxRec: nat, spareLow: nat, speed: nat)
    requires accuracy < 0x100 && maxRec < 0x10 && spareLow < 0x200 && speed < 8
    ensures (caps * 0x1000 + spareHigh * 0x100 + accuracy) % 0x100 == accuracy
    ensures var low := maxRec * 0x1000 + spareLow * 8 + speed; low / 0x1000 == maxRec && low % 8 == speed
  {
  }

  lemma CapFields(caps: nat, rest: nat)
    requires rest < 0x1000_0000
    ensures var q := caps * 0x1000_0000 + rest;
            && q / 0x8000_0000 == caps / 8 && q / 0x4000_0000 == caps / 4
            && q / 0x2000_0000 == caps / 2 && q / 0x1000_0000 == caps
  {
  }

  lemma LowFields(high: nat, low: nat)
    requires low < 0x1_0000
    ensures var q := high * 0x1_0000 + low;
            && q / 0x1_0000 == high && q / 0x1000 % 0x10 == low / 0x1000 && q % 8 == low % 8
  {
    var q := high * 0x1_0000 + low;
    var x, y := low / 0x1000, low % 0x1000;
    assert q == (high * 0x10 + x) * 0x1000 + y;
    assert q / 0x1000 == high * 0x10 + x;
    SameRemainder(high * 0x2000, low, q);
  }

  lemma SameRemainder(k: nat, low: nat, q: nat)
    requires q == 8 * k + low
    ensures q % 8 == low % 8
  {
  }

  lemma HeldEntries(m: Image, a: nat, head: seq<quadlet>, qs: seq<quadlet>)
    requires Holds(m, a, head + qs)
    ensures Holds(m, a + 4 * |head|, qs)
    ensures Entries(m, a + 4 * |head|, |qs|) == qs
    ensures forall i :: 0 <= i < |head| ==> Quad(m, a + 4 * i) == head[i]
  {
    forall i | 0 <= i < |qs|
      ensures Quad(m, a + 4 * |head| + 4 * i) == qs[i]
    {
      assert (head + qs)[|head| + i] == qs[i];
      assert a + 4 * (|head| + i) == a + 4 * |head| + 4 * i;
    }
    forall i | 0 <= i < |head|
      ensures Quad(m, a + 4 * i) == head[i]
    {
      assert (head + qs)[i] == head[i];
    }
  }

  lemma {:induction false} HeldText(m: Image, a: nat, qs: seq<quadlet>)
    requires Holds(m, a, qs)
    ensures Bytes(m, a, 4 * |qs|) == TextBytes(qs)
  {
    if qs != [] {
      var n := |qs| - 1;
      HeldText(m, a, qs[..n]);
      BigEndianOfQuad(m, a + 4 * n);
      BytesSplit(m, a, 4 * n, 4);
    }
  }

  lemma BytesSplit(m: Image, a: nat, n: nat, k: nat)
    requires Readable(m, a, n + k)
    ensures Bytes(m, a, n + k) == Bytes(m, a, n) + Bytes(m, a + n, k)
  {
  }

  lemma BigEndianOfQuad(m: Image, a: nat)
    requires Readable(m, a, 4)
    ensures ToBigEndian(Quad(m, a)) == Bytes(m, a, 4)
  {
    QuadOfBytes(m, a);
    var b := Bytes(m, a, 4);
    HostLoadBytes([b[3], b[2], b[1], b[0]]);
  }

  lemma RootRoundTrip(m: Image, s: Source)
    requires Fits(s) && Encodes(m, s)
    ensures General(m) && Quad(m, ROM + 4) == MAGIC
    ensures Quad(m, ROM + 8) == BusQuad(s)
    ensures Quad(m, ROM + 12) == s.guid / 0x1_0000_0000 && Quad(m, ROM + 16) == s.guid % 0x1_0000_0000
    ensures RootEntries(m) == Quads(s.root)
  {
    HeldEntries(m, ROM, Header(s), Quads(s.root));
    assert forall i :: 0 <= i < 6 ==> Quad(m, ROM + 4 * i) == Header(s)[i];
    assert Quad(m, ROM + 4 * 0) == Header(s)[0] && Quad(m, ROM + 4 * 1) == Header(s)[1];
    assert Quad(m, ROM + 4 * 2) == Header(s)[2] && Quad(m, ROM + 4 * 3) == Header(s)[3];
    assert Quad(m, ROM + 4 * 4) == Header(s)[4] && Quad(m, ROM + 4 * 5) == Header(s)[5];
    assert RootLength(m) == |s.root|;
  }

  lemma RootEntriesRoundTrip(m: Image, s: Source)
    requires Fits(s) && Encodes(m, s)
    ensures RootEntries(m) == Quads(s.root)
  {
    RootRoundTrip(m, s);
  }

  lemma UnitRoundTrip(m: Image, s: Source)
    requires Fits(s) && Encodes(m, s) && s.unit.Some?
    ensures UnitDirectory(m).Some?
    ensures UnitEntries(m) == Quads(s.unit.value)
    ensures Readable(m, UnitDirectory(m).value, 4 + 4 * |UnitEntries(m)|)
  {
    RootEntriesRoundTrip(m, s);
    UnitHeld(m, UnitDirectory(m).value, s);
  }

  lemma UnitHeld(m: Image, u: nat, s: Source)
    requires Fits(s) && s.unit.Some? && Holds(m, u, UnitPart(s))
    ensures var es := Entries(m, u + 4, Length(Quad(m, u)));
            es == Quads(s.unit.value) && Readable(m, u, 4 + 4 * |es|)
  {
    var n := |s.unit.value|;
    LengthOf(n, s.crcUnit);
    DirectoryHeld(m, u, n * 0x1_0000 + s.crcUnit, Quads(s.unit.value));
  }

  lemma LengthOf(n: nat, crc: nat)
    requires n < 0x1_0000 && crc < 0x1_0000
    ensures n * 0x1_0000 + crc < 0x1_0000_0000 && Length(n * 0x1_0000 + crc) == n
  {
  }

  lemma DirectoryHeld(m: Image, u: nat, head: quadlet, qs: seq<quadlet>)
    requires Holds(m, u, [head] + qs) && Length(head) == |qs|
    ensures Entries(m, u + 4, Length(Quad(m, u))) == qs && Readable(m, u, 4 + 4 * |qs|)
  {
    HeldEntries(m, u, [head], qs);
    assert Quad(m, u + 4 * 0) == [head][0];
  }

  lemma TextRoundTrip(m: Image, s: Source)
    requires Fits(s) && Encodes(m, s) && s.text.Some?
    ensures TextualLeaf(m).Some? && TextReadable(m)
    ensures TextAt(m, TextualLeaf(m).value) == TextBytes(s.text.value)
  {
    RootEntriesRoundTrip(m, s);
    LeafHeld(m, TextualLeaf(m).value, s);
  }

  lemma LeafHeld(m: Image, l: nat, s: Source)
    requires Fits(s) && s.text.Some? && Holds(m, l, TextPart(s))
    ensures LeafReadable(m, l) && TextAt(m, l) == TextBytes(s.text.value)
  {
    var n := |s.text.value|;
    var head := [(n + 2) * 0x1_0000 + s.crcText, s.specifier, s.language];
    HeldEntries(m, l, head, s.text.value);
    assert Quad(m, l + 4 * 0) == head[0];
    LengthOf(n + 2, s.crcText);
    TextHeld(m, l, s.text.value);
  }

  lemma TextHeld(m: Image, l: nat, text: seq<quadlet>)
    requires Length(Quad(m, l)) == |text| + 2 && Holds(m, l + 12, text)
    ensures TextLength(Length(Quad(m, l))) == 4 * |text|
    ensures TextAt(m, l) == TextBytes(text)
  {
    ShortLeafWraps(|text| + 2);
    HeldText(m, l + 12, text);
  }

  /** Parsing an encoding recovers every field and the vendor text, and needs no byte outside it. */
  lemma RoundTrip(m: Image, s: Source)
    requires Fits(s) && Encodes(m, s)
    ensures Interpret(m) == Accepted(Expected(s))
    ensures FullyReadable(m)
  {
    RootRoundTrip(m, s);
    BusFields(s);
    GuidFields(s);
    LastOfQuads(s.root, NODE_CAPABILITIES);
    if s.unit.Some? {
      UnitRoundTrip(m, s);
      LastOfQuads(s.unit.value, UNIT_SPEC_ID);
      LastOfQuads(s.unit.value, UNIT_SW_VERSION);
      LastOfQuads(s.unit.value, MODEL_ID);
    }
    if s.text.Some? {
      TextRoundTrip(m, s);
    }
  }

  lemma GuidFields(s: Source)
    requires Fits(s)
    ensures Slice(s.guid / 0x1_0000_0000, 1, 0x100) == s.guid / 0x1_0000_0000 % 0x100
    ensures Slice(s.guid / 0x1_0000_0000, 0x100, 0x100_0000) == s.guid / 0x100_0000_0000
  {
    var top := s.guid / 0x1_0000_0000;
    assert s.guid / 0x100_0000_0000 == top / 0x100;
  }

  // ----- one concrete layout: everything end to end

  /** The memory that holds the quadlets from the start of the ROM on and nothing else. */
  function ImageOf(qs: seq<quadlet>): Image {
    map a: nat | ROM <= a < ROM + 4 * |qs| :: ByteAt(qs, a)
  }

  function ByteAt(qs: seq<quadlet>, a: nat): byte
    requires ROM <= a < ROM + 4 * |qs|
  {
    ToBigEndian(qs[(a - ROM) / 4])[(a - ROM) % 4]
  }

  lemma ImageHolds(qs: seq<quadlet>)
    ensures Holds(ImageOf(qs), ROM, qs)
  {
    forall i | 0 <= i < |qs|
      ensures Quad(ImageOf(qs), ROM + 4 * i) == qs[i]
    {
      ImageQuad(qs, i);
    }
  }

  lemma ImageQuad(qs: seq<quadlet>, i: nat)
    requires i < |qs|
    ensures Quad(ImageOf(qs), ROM + 4 * i) == qs[i]
  {
    var a := ROM + 4 * i;
    var b := ToBigEndian(qs[i]);
    ByteInQuad(qs, i, 0);
    ByteInQuad(qs, i, 1);
    ByteInQuad(qs, i, 2);
    ByteInQuad(qs, i, 3);
    BigEndianRoundTrip(qs[i]);
    assert b == [b[0], b[1], b[2], b[3]];
  }

  lemma ByteInQuad(qs: seq<quadlet>, i: nat, k: nat)
    requires i < |qs| && k < 4
    ensures ROM + 4 * i + k in ImageOf(qs) && ImageOf(qs)[ROM + 4 * i + k] == ToBigEndian(qs[i])[k]
  {
    assert (4 * i + k) / 4 == i && (4 * i + k) % 4 == k;
  }

  lemma HoldsSplit(m: Image, a: nat, first: seq<quadlet>, rest: seq<quadlet>)
    requires Holds(m, a, first + rest)
    ensures Holds(m, a, first) && Holds(m, a + 4 * |first|, rest)
  {
    HeldEntries(m, a, first, rest);
  }

  /** A source whose root directory does not yet hold the entries for its unit directory and text. */
  predicate Pointerless(s: Source) {
    && Fits(s) && |s.root| <= 14
    && forall e :: e in s.root ==> e.key != UNIT_DIRECTORY && e.key != TEXTUAL_LEAF
  }

  function UnitSize(s: Source): nat {
    if s.unit.None? then 0 else 1 + |s.unit.value|
  }

  /** Adds the pointers for a unit directory right after the root directory and a leaf after that. */
  function Linked(s: Source): Source
    requires Pointerless(s)
  {
    var leafPointer := if s.text.None? then [] else [Entry(TEXTUAL_LEAF, 1 + UnitSize(s))];
    var unitPointer := if s.unit.None? then [] else [Entry(UNIT_DIRECTORY, 1 + |leafPointer|)];
    s.(root := s.root + unitPointer + leafPointer)
  }

  function UnitPartOrNone(t: Source): seq<quadlet>
    requires Fits(t)
  {
    if t.unit.None? then [] else UnitPart(t)
  }

  function TextPartOrNone(t: Source): seq<quadlet>
    requires Fits(t)
  {
    if t.text.None? then [] else TextPart(t)
  }

  lemma LinkedFits(s: Source)
    requires Pointerless(s)
    ensures Fits(Linked(s))
  {
  }

  lemma {:induction false} NoPointer(es: seq<Entry>, key: nat)
    requires EntriesFit(es) && forall e :: e in es ==> e.key != key
    ensures LastIndex(Quads(es), key) == None
  {
    if es != [] {
      var n := |es| - 1;
      assert Quads(es)[..n] == Quads(es[..n]);
      NoPointer(es[..n], key);
      EntryFields(es[n]);
    }
  }

  /** The quadlets of a source that lies in one piece. */
  function Layout(t: Source): seq<quadlet>
    requires Fits(t)
  {
    Header(t) + Quads(t.root) + UnitPartOrNone(t) + TextPartOrNone(t)
  }

  function Serialise(s: Source): Image
    requires Pointerless(s) && Fits(Linked(s))
  {
    ImageOf(Layout(Linked(s)))
  }

  /** The root directory leads to a unit directory and a textual leaf, where there are any, at these addresses. */
  predicate PointsTo(t: Source, unitAt: nat, textAt: nat)
    requires Fits(t)
  {
    && Target(Quads(t.root), ROM + 24, UNIT_DIRECTORY) == (if t.unit.None? then None else Some(unitAt))
    && Target(Quads(t.root), ROM + 24, TEXTUAL_LEAF) == (if t.text.None? then None else Some(textAt))
  }

  /** The serialised memory encodes the linked source. */
  lemma SerialiseEncodes(s: Source)
    requires Pointerless(s)
    ensures Fits(Linked(s)) && Encodes(Serialise(s), Linked(s))
  {
    LinkedFits(s);
    PointerTargets(s);
    LayoutIsRead(Linked(s));
  }

  lemma LayoutIsRead(t: Source)
    requires Fits(t) && PointsTo(t, ROM + 24 + 4 * |t.root|, ROM + 24 + 4 * |t.root| + 4 * UnitSize(t))
    ensures Encodes(ImageOf(Layout(t)), t)
  {
    var end := ROM + 24 + 4 * |t.root|;
    ImageHolds(Layout(t));
    WholeEncodes(ImageOf(Layout(t)), t, end, end + 4 * UnitSize(t));
  }

  lemma WholeEncodes(m: Image, t: Source, unitAt: nat, textAt: nat)
    requires Fits(t) && Holds(m, ROM, Layout(t))
    requires unitAt == ROM + 24 + 4 * |t.root| && textAt == unitAt + 4 * UnitSize(t)
    requires PointsTo(t, unitAt, textAt)
    ensures Encodes(m, t)
  {
    assert Holds(m, ROM, Header(t) + Quads(t.root)) && Holds(m, unitAt, UnitPartOrNone(t))
      && Holds(m, textAt, TextPartOrNone(t)) by {
      LayoutParts(m, t, unitAt);
    }
    LayoutEncodes(m, t, unitAt, textAt);
  }

  lemma LayoutEncodes(m: Image, t: Source, unitAt: nat, textAt: nat)
    requires Fits(t) && Holds(m, ROM, Header(t) + Quads(t.root))
    requires Holds(m, unitAt, UnitPartOrNone(t)) && Holds(m, textAt, TextPartOrNone(t))
    requires PointsTo(t, unitAt, textAt)
    ensures Encodes(m, t)
  {
    assert UnitEncoded(m, t) by {
      UnitLaidOut(m, t, unitAt);
    }
    assert TextEncoded(m, t) by {
      TextLaidOut(m, t, textAt);
    }
  }

  lemma LayoutParts(m: Image, t: Source, end: nat)
    requires Fits(t) && end == ROM + 24 + 4 * |t.root|
    requires Holds(m, ROM, Layout(t))
    ensures Holds(m, ROM, Header(t) + Quads(t.root))
    ensures Holds(m, end, UnitPartOrNone(t)) && Holds(m, end + 4 * UnitSize(t), TextPartOrNone(t))
  {
    var root := Header(t) + Quads(t.root);
    PartSizes(t);
    ThreeParts(m, ROM, root, UnitPartOrNone(t), TextPartOrNone(t));
    assert ROM + 4 * |root| == end;
  }

  lemma ThreeParts(m: Image, a: nat, first: seq<quadlet>, second: seq<quadlet>, third: seq<quadlet>)
    requires Holds(m, a, first + second + third)
    ensures Holds(m, a, first)
    ensures Holds(m, a + 4 * |first|, second)
    ensures Holds(m, a + 4 * |first| + 4 * |second|, third)
  {
    HoldsSplit(m, a, first + second, third);
    HoldsSplit(m, a, first, second);
  }

  lemma PartSizes(t: Source)
    requires Fits(t)
    ensures |Header(t) + Quads(t.root)| == 6 + |t.root| && |UnitPartOrNone(t)| == UnitSize(t)
  {
  }

  lemma UnitLaidOut(m: Image, t: Source, at: nat)
    requires Fits(t) && Holds(m, at, UnitPartOrNone(t))
    requires Target(Quads(t.root), ROM + 24, UNIT_DIRECTORY) == (if t.unit.None? then None else Some(at))
    ensures UnitEncoded(m, t)
  {
  }

  lemma TextLaidOut(m: Image, t: Source, at: nat)
    requires Fits(t) && Holds(m, at, TextPartOrNone(t))
    requires Target(Quads(t.root), ROM + 24, TEXTUAL_LEAF) == (if t.text.None? then None else Some(at))
    ensures TextEncoded(m, t)
  {
  }

  /** The pointers that Linked adds lead to the places where the parts are put. */
  lemma PointerTargets(s: Source)
    requires Pointerless(s) && Fits(Linked(s))
    ensures var t := Linked(s);
            var end := ROM + 24 + 4 * |t.root|;
            PointsTo(t, end, end + 4 * UnitSize(t))
  {
    NoPointer(s.root, UNIT_DIRECTORY);
    NoPointer(s.root, TEXTUAL_LEAF);
    var root := Linked(s).root;
    var linkedUnit := root[..|s.root| + if s.unit.None? then 0 else 1];
    if s.unit.Some? {
      var e := Entry(UNIT_DIRECTORY, |root| - |s.root|);
      assert linkedUnit == s.root + [e];
      AppendedTarget(s.root, e, UNIT_DIRECTORY);
      AppendedTarget(s.root, e, TEXTUAL_LEAF);
    } else {
      assert linkedUnit == s.root;
    }
    if s.text.Some? {
      var e := Entry(TEXTUAL_LEAF, 1 + UnitSize(s));
      assert root == linkedUnit + [e];
      AppendedTarget(linkedUnit, e, UNIT_DIRECTORY);
      AppendedTarget(linkedUnit, e, TEXTUAL_LEAF);
    } else {
      assert root == linkedUnit;
    }
  }

  lemma AppendedTarget(es: seq<Entry>, e: Entry, key: nat)
    requires EntriesFit(es) && EntriesFit(es + [e])
    ensures Target(Quads(es + [e]), ROM + 24, key) ==
            if e.key as int == key then Some(ROM + 24 + 4 * |es| + 4 * e.value) else Target(Quads(es), ROM + 24, key)
  {
    assert (es + [e])[|es|] == e;
    assert Quads(es + [e]) == Quads(es) + [EntryQuad(e)];
    EntryFields(e);
    LastOfLonger(Quads(es), EntryQuad(e), ROM + 24, key);
  }

  /** Writing a ROM and parsing it gives back what was written. */
  lemma SerialiseThenParse(s: Source)
    requires Pointerless(s)
    ensures Fits(Linked(s)) && FullyReadable(Serialise(s))
    ensures Interpret(Serialise(s)) == Accepted(Expected(s))
  {
    SerialiseEncodes(s);
    RoundTrip(Serialise(s), Linked(s));
    ExpectedLinked(s);
  }

  lemma ExpectedLinked(s: Source)
    requires Pointerless(s) && Fits(Linked(s))
    ensures Expected(Linked(s)) == Expected(s)
  {
    var more := Linked(s).root[|s.root|..];
    assert Linked(s).root == s.root + more;
    assert forall e :: e in more ==> e.key != NODE_CAPABILITIES;
    LastSkips(s.root, more, NODE_CAPABILITIES);
  }

  /** Entries with other keys, put behind a directory, do not change what it says. */
  lemma {:induction false} LastSkips(es: seq<Entry>, more: seq<Entry>, key: nat)
    requires forall e :: e in more ==> e.key != key
    ensures LastEntry(es + more, key) == LastEntry(es, key)
    decreases |more|
  {
    if more == [] {
      assert es + more == es;
    } else {
      var n := |more| - 1;
      assert (es + more)[..|es + more| - 1] == es + more[..n];
      assert more[n] in more;
      LastSkips(es, more[..n], key);
    }
  }
}
