/**
 The second parser of the configuration ROM, from the reverse-engineering application: it works
 on 32-bit offsets into the ROM and cannot tell a failed read from one that yields zero.
 */
module ProbeNode {
  import opened Words
  import opened Raw1394
  import opened ConfigRom
  import FirewireDevice

  const WRAP: int := 0x1_0000_0000

  // ----- what probe_node sees: it tries every read once and takes an unanswered one for 0

  function Drop(script: seq<Status>, n: nat): seq<Status> {
    if n <= |script| then script[n..] else []
  }

  lemma DropOne(script: seq<Status>, n: nat)
    ensures Tail(Drop(script, n)) == Drop(script, n + 1)
  {
  }

  lemma DropTwice(script: seq<Status>, n: nat, k: nat)
    ensures Drop(Drop(script, n), k) == Drop(script, n + k)
  {
  }

  function QuadSeen(m: Image, a: nat, script: seq<Status>): quadlet {
    if Answered(script) then Quad(m, a) else 0
  }

  function EntriesSeen(m: Image, a: nat, n: nat, script: seq<Status>): (es: seq<quadlet>)
    ensures |es| == n
  {
    seq(n, i requires 0 <= i < n => QuadSeen(m, a + 4 * i, Drop(script, i)))
  }

  function RootLengthSeen(m: Image, script: seq<Status>): nat {
    var length := Length(QuadSeen(m, ROM + 20, Drop(script, 5)));
    if length > 16 then 16 else length
  }

  function RootSeen(m: Image, script: seq<Status>): seq<quadlet> {
    EntriesSeen(m, ROM + 24, RootLengthSeen(m, script), Drop(script, 6))
  }

  function BlankSeen(m: Image, script: seq<Status>): Rom {
    BusInfo(QuadSeen(m, ROM + 8, Drop(script, 2)), QuadSeen(m, ROM + 12, Drop(script, 3)),
            QuadSeen(m, ROM + 16, Drop(script, 4)))
  }

  /** The entries of the unit directory that the root entries es lead to. */
  function UnitSeen(m: Image, es: seq<quadlet>, script: seq<Status>): seq<quadlet> {
    match Target(es, ROM + 24, UNIT_DIRECTORY)
    case None => []
    case Some(u) => EntriesSeen(m, u + 4, Length(QuadSeen(m, u, script)), Drop(script, 1))
  }

  function AfterUnit(m: Image, es: seq<quadlet>, script: seq<Status>): seq<Status> {
    if Target(es, ROM + 24, UNIT_DIRECTORY).None? then script else Drop(script, 1 + |UnitSeen(m, es, script)|)
  }

  /** The text behind a leaf; None when the block read fails and leaves the buffer as it was. */
  function TextSeen(m: Image, leaf: nat, script: seq<Status>): Option<seq<byte>> {
    var n := TextLength(Length(QuadSeen(m, leaf, script)));
    if Answered(Tail(script)) && Readable(m, leaf + 12, n) then Some(Bytes(m, leaf + 12, n)) else None
  }

  /** The fields of `blank` and those that the root entries es give, apart from the vendor text. */
  function FieldsSeen(m: Image, blank: Rom, es: seq<quadlet>, script: seq<Status>): Rom {
    WithUnit(blank.(nodeCapabilities := LastValue(es, NODE_CAPABILITIES)), UnitSeen(m, es, script))
  }

  /** None without a textual leaf, and Some(None) when its text could not be fetched. */
  function VendorSeen(m: Image, es: seq<quadlet>, script: seq<Status>): Option<Option<seq<byte>>> {
    match Target(es, ROM + 24, TEXTUAL_LEAF)
    case None => None
    case Some(leaf) => Some(TextSeen(m, leaf, AfterUnit(m, es, script)))
  }

  /** What the root entries es make of `blank`: everything as seen, and the text if it could be fetched. */
  predicate IsParsed(m: Image, blank: Rom, es: seq<quadlet>, script: seq<Status>, crom: Rom) {
    var vendor := VendorSeen(m, es, script);
    && crom.(vendor := None) == FieldsSeen(m, blank, es, script).(vendor := None)
    && (crom.vendor.Some? <==> vendor.Some?)
    && (vendor.Some? && vendor.value.Some? ==> crom.vendor == vendor.value)
  }

  predicate GeneralSeen(m: Image, script: seq<Status>) {
    QuadSeen(m, ROM, script) / 0x100_0000 == 4
  }

  predicate RejectedAsSeen(m: Image, script: seq<Status>) {
    GeneralSeen(m, script) && QuadSeen(m, ROM + 4, Drop(script, 1)) != MAGIC
  }

  /** read_config_rom_quadlet: one attempt; a read that is not answered leaves the quadlet 0. */
  method ReadConfigRomQuadlet(com: RemoteNode, offset: nat) returns (q: quadlet)
    modifies com`script, com`log
    ensures q == QuadSeen(com.memory, ROM + offset, old(com.script)) && com.script == Tail(old(com.script))
  {
    var buffer := new byte[4](_ => 0);
    var status := com.RawRead(ROM + offset, 4, buffer, 0);
    q := Ntohl(HostLoad(buffer[..]));
    if status == Done {
      assert buffer[..] == Bytes(com.memory, ROM + offset, 4);
    } else {
      assert buffer[..] == [0, 0, 0, 0];
    }
    SwappedQuad(com.memory, ROM + offset, buffer[..]);
  }

  lemma SwappedQuad(m: Image, a: nat, b: seq<byte>)
    requires |b| == 4
    ensures Readable(m, a, 4) && b == Bytes(m, a, 4) ==> Ntohl(HostLoad(b)) == Quad(m, a)
    ensures !Readable(m, a, 4) ==> Quad(m, a) == 0
    ensures b == [0, 0, 0, 0] ==> Ntohl(HostLoad(b)) == 0
  {
    QuadOfBytes(m, a);
    NtohlOfHostLoad(b);
  }

  /** An absent directory entry is remembered as offset 0. */
  function Offset(a: Option<nat>): int {
    if a.None? then 0 else a.value - ROM
  }

  /** offset + 4 in 32-bit arithmetic. */
  function Next(offset: nat): (r: nat)
    requires offset + 4 < WRAP
    ensures r == offset + 4
  {
    (offset + 4) % WRAP
  }

  /** offset + value * 4 in 32-bit arithmetic, which does not wrap for a 24-bit value. */
  function Jump(offset: nat, value: nat): (r: nat)
    requires offset < 0x1000 && value < 0x100_0000
    ensures r == offset + 4 * value
  {
    (offset + value * 4 % WRAP) % WRAP
  }

  lemma RootStep(es: seq<quadlet>, n: nat)
    requires n < |es|
    ensures var q, start := es[n], ROM + 24;
            && LastValue(es[..n + 1], NODE_CAPABILITIES) ==
               (if Key(q) == NODE_CAPABILITIES then Value(q) else LastValue(es[..n], NODE_CAPABILITIES))
            && Offset(Target(es[..n + 1], start, UNIT_DIRECTORY)) ==
               (if Key(q) == UNIT_DIRECTORY then 24 + 4 * n + 4 * Value(q)
                 else Offset(Target(es[..n], start, UNIT_DIRECTORY)))
            && Offset(Target(es[..n + 1], start, TEXTUAL_LEAF)) ==
               (if Key(q) == TEXTUAL_LEAF then 24 + 4 * n + 4 * Value(q)
                 else Offset(Target(es[..n], start, TEXTUAL_LEAF)))
  {
    ScanStep(es, n, ROM + 24, UNIT_DIRECTORY);
    ScanStep(es, n, ROM + 24, TEXTUAL_LEAF);
    ScanStep(es, n, ROM + 24, NODE_CAPABILITIES);
  }

  method ScanRoot(com: RemoteNode, len: nat, blank: Rom, ghost es: seq<quadlet>)
    returns (crom: Rom, unitDirOffset: nat, textualLeafOffset: nat)
    requires es == EntriesSeen(com.memory, ROM + 24, len, com.script) && len <= 16
    requires blank.nodeCapabilities == 0
    modifies com`script, com`log
    ensures com.script == Drop(old(com.script), len)
    ensures crom == blank.(nodeCapabilities := LastValue(es, NODE_CAPABILITIES))
    ensures unitDirOffset == Offset(Target(es, ROM + 24, UNIT_DIRECTORY))
    ensures textualLeafOffset == Offset(Target(es, ROM + 24, TEXTUAL_LEAF))
  {
    ghost var m, script := com.memory, com.script;
    ghost var start := ROM + 24;
    var offset := 20;
    crom, unitDirOffset, textualLeafOffset := blank, 0, 0;
    for i := 0 to len
      invariant offset == 20 + 4 * i && com.script == Drop(script, i)
      invariant unitDirOffset == Offset(Target(es[..i], start, UNIT_DIRECTORY))
      invariant textualLeafOffset == Offset(Target(es[..i], start, TEXTUAL_LEAF))
      invariant crom == blank.(nodeCapabilities := LastValue(es[..i], NODE_CAPABILITIES))
    {
      offset := Next(offset);
      DropOne(script, i);
      var quadlet := ReadConfigRomQuadlet(com, offset);
      assert quadlet == es[i];
      RootStep(es, i);
      var value := Value(quadlet);
      match Key(quadlet) {
        case 0x0c => crom := crom.(nodeCapabilities := value);
        case 0xd1 => unitDirOffset := Jump(offset, value);
        case 0x81 => textualLeafOffset := Jump(offset, value);
        case _ =>
      }
    }
    assert es[..len] == es;
  }

  method ScanUnit(com: RemoteNode, unitDirOffset: nat, blank: Rom, ghost es: seq<quadlet>) returns (crom: Rom)
    requires es == EntriesSeen(com.memory, ROM + unitDirOffset + 4,
                               Length(QuadSeen(com.memory, ROM + unitDirOffset, com.script)), Drop(com.script, 1))
    requires unitDirOffset + 4 + 4 * |es| < WRAP
    requires blank.unitSpecId == blank.unitSwVersion == blank.modelId == 0
    modifies com`script, com`log
    ensures com.script == Drop(old(com.script), 1 + |es|)
    ensures crom == WithUnit(blank, es)
  {
    ghost var m, script := com.memory, com.script;
    var offset := unitDirOffset;
    crom := blank;
    var quadlet := ReadConfigRomQuadlet(com, offset);
    var len := Length(quadlet);
    for i := 0 to len
      invariant offset == unitDirOffset + 4 * i && com.script == Drop(script, 1 + i)
      invariant crom == WithUnit(blank, es[..i])
    {
      offset := Next(offset);
      DropOne(script, 1 + i);
      DropTwice(script, 1, i);
      quadlet := ReadConfigRomQuadlet(com, offset);
      assert quadlet == es[i];
      UnitStep(blank, es, i);
      var value := Value(quadlet);
      match Key(quadlet) {
        case 0x12 => crom := crom.(unitSpecId := value);
        case 0x13 => crom := crom.(unitSwVersion := value);
        case 0x17 => crom := crom.(modelId := value);
        case _ =>
      }
    }
    assert es[..len] == es;
  }

  /** The vendor text, fetched as one block; nothing is known about it when that fails. */
  method ReadText(com: RemoteNode, textualLeafOffset: nat) returns (vendor: seq<byte>)
    requires textualLeafOffset + 12 < WRAP
    modifies com`script, com`log
    ensures var text := TextSeen(com.memory, ROM + textualLeafOffset, old(com.script));
            text.Some? ==> vendor == text.value
  {
    var quadlet := ReadConfigRomQuadlet(com, textualLeafOffset);
    var len := (Length(quadlet) + 0xffff_fffe) % WRAP;
    var text := new byte[len * 4 % WRAP];
    var offset := (textualLeafOffset + 12) % WRAP;
    var status := com.RawRead(ROM + offset, len * 4 % WRAP, text, 0);
    vendor := text[..];
    if status == Done {
      assert text[..] == Bytes(com.memory, ROM + offset, len * 4 % WRAP);
    }
  }

  /** probe_node; `failed` is the nonzero return value. */
  method Probe(com: RemoteNode) returns (failed: bool, crom: Rom)
    modifies com`script, com`log
    ensures IsResult(com.memory, old(com.script), failed, crom)
  {
    ghost var script := com.script;
    crom, failed := BLANK, false;
    assert Drop(script, 0) == script;
    DropOne(script, 0);
    DropOne(script, 1);
    var quadlet := ReadConfigRomQuadlet(com, 0);
    if quadlet / 0x100_0000 != 4 {
      crom := crom.(vendorId := quadlet % 0x100_0000);
      return;
    }
    quadlet := ReadConfigRomQuadlet(com, 4);
    if quadlet != 0x3133_3934 {
      return true, crom;
    }
    crom := ProbeGeneral(com, script);
  }

  /** What probe_node returns for a memory and any fate of its transactions. */
  predicate IsResult(m: Image, script: seq<Status>, failed: bool, crom: Rom) {
    && (failed <==> RejectedAsSeen(m, script))
    && (!GeneralSeen(m, script) ==> crom == BLANK.(vendorId := QuadSeen(m, ROM, script) % 0x100_0000))
    && (!failed && GeneralSeen(m, script) ==> IsRomSeen(m, script, crom))
  }

  /** A result of the part of probe_node that follows the magic number. */
  predicate IsRomSeen(m: Image, script: seq<Status>, crom: Rom) {
    var es := RootSeen(m, script);
    IsParsed(m, BlankSeen(m, script), es, Drop(script, 6 + |es|), crom)
  }

  method ProbeBusInfo(com: RemoteNode, ghost script: seq<Status>) returns (crom: Rom)
    requires com.script == Drop(script, 2)
    modifies com`script, com`log
    ensures crom == BlankSeen(com.memory, script) && com.script == Drop(script, 5)
  {
    DropOne(script, 2);
    DropOne(script, 3);
    DropOne(script, 4);
    var second := ReadConfigRomQuadlet(com, 8);
    var third := ReadConfigRomQuadlet(com, 12);
    var fourth := ReadConfigRomQuadlet(com, 16);
    crom := BusInfo(second, third, fourth);
  }

  /** Offsets that stand for jumps out of a root directory are positive and far from 2^32. */
  lemma JumpOffsets(es: seq<quadlet>, length: nat)
    requires |es| <= 16 && length < 0x1_0000
    ensures var u := Target(es, ROM + 24, UNIT_DIRECTORY);
            u.Some? ==> 0 < Offset(u) && u.value == ROM + Offset(u) && Offset(u) + 4 + 4 * length < WRAP
    ensures var l := Target(es, ROM + 24, TEXTUAL_LEAF);
            l.Some? ==> 0 < Offset(l) && l.value == ROM + Offset(l) && Offset(l) + 12 < WRAP
  {
    TargetBounds(es, ROM + 24, UNIT_DIRECTORY);
    TargetBounds(es, ROM + 24, TEXTUAL_LEAF);
  }

  /** The unit directory, if the root entries es lead to one. */
  method ProbeUnit(com: RemoteNode, unitDirOffset: nat, root: Rom, ghost es: seq<quadlet>) returns (crom: Rom)
    requires |es| <= 16 && unitDirOffset == Offset(Target(es, ROM + 24, UNIT_DIRECTORY))
    requires root.unitSpecId == root.unitSwVersion == root.modelId == 0
    modifies com`script, com`log
    ensures crom == WithUnit(root, UnitSeen(com.memory, es, old(com.script)))
    ensures com.script == AfterUnit(com.memory, es, old(com.script))
  {
    crom := root;
    JumpOffsets(es, 0);
    if unitDirOffset > 0 {
      ghost var unit := UnitSeen(com.memory, es, com.script);
      JumpOffsets(es, |unit|);
      crom := ScanUnit(com, unitDirOffset, root, unit);
    }
  }

  /** The vendor text, if the root entries es lead to one. */
  method ProbeText(com: RemoteNode, textualLeafOffset: nat, fields: Rom, ghost es: seq<quadlet>) returns (crom: Rom)
    requires |es| <= 16 && textualLeafOffset == Offset(Target(es, ROM + 24, TEXTUAL_LEAF)) && fields.vendor.None?
    modifies com`script, com`log
    ensures crom.(vendor := None) == fields
    ensures var leaf := Target(es, ROM + 24, TEXTUAL_LEAF);
            && (crom.vendor.Some? <==> leaf.Some?)
            && (leaf.Some? ==>
                  var text := TextSeen(com.memory, leaf.value, old(com.script));
                  text.Some? ==> crom.vendor == text)
  {
    crom := fields;
    JumpOffsets(es, 0);
    if textualLeafOffset > 0 {
      var vendor := ReadText(com, textualLeafOffset);
      crom := fields.(vendor := Some(vendor));
    }
  }

  /** The directories that the root entries es lead to. */
  method ProbeDirectories(com: RemoteNode, blank: Rom, len: nat, ghost es: seq<quadlet>) returns (crom: Rom)
    requires len <= 16 && es == EntriesSeen(com.memory, ROM + 24, len, com.script)
    requires blank.nodeCapabilities == blank.unitSpecId == blank.unitSwVersion == blank.modelId == 0
    requires blank.vendor.None?
    modifies com`script, com`log
    ensures IsParsed(com.memory, blank, es, Drop(old(com.script), len), crom)
  {
    var unitDirOffset, textualLeafOffset;
    crom, unitDirOffset, textualLeafOffset := ScanRoot(com, len, blank, es);
    crom := ProbeUnit(com, unitDirOffset, crom, es);
    crom := ProbeText(com, textualLeafOffset, crom, es);
  }

  /** The part of probe_node that follows the magic number. */
  method ProbeGeneral(com: RemoteNode, ghost script: seq<Status>) returns (crom: Rom)
    requires com.script == Drop(script, 2)
    modifies com`script, com`log
    ensures IsRomSeen(com.memory, script, crom)
  {
    crom := ProbeBusInfo(com, script);
    DropOne(script, 5);
    var quadlet := ReadConfigRomQuadlet(com, 20);
    var len := Length(quadlet);
    if len > 16 {
      len := 16;
    }
    DropTwice(script, 6, len);
    crom := ProbeDirectories(com, crom, len, RootSeen(com.memory, script));
  }

  // ----- with every read answered at once

  lemma PromptDrop(script: seq<Status>, n: nat)
    requires Prompt(script)
    ensures Prompt(Drop(script, n)) && Answered(Drop(script, n))
  {
    SuffixKeeps(Drop(script, n), script);
    TailKeeps(Drop(script, n));
  }

  lemma PromptEntries(m: Image, a: nat, n: nat, script: seq<Status>)
    requires Prompt(script)
    ensures EntriesSeen(m, a, n, script) == Entries(m, a, n)
  {
    forall i: nat | i < n
      ensures QuadSeen(m, a + 4 * i, Drop(script, i)) == Quad(m, a + 4 * i)
    {
      PromptDrop(script, i);
    }
  }

  lemma PromptSees(m: Image, script: seq<Status>)
    requires Prompt(script)
    ensures GeneralSeen(m, script) <==> General(m)
    ensures RejectedAsSeen(m, script) <==> Interpret(m).Rejected?
    ensures QuadSeen(m, ROM, script) == Quad(m, ROM)
    ensures RootSeen(m, script) == RootEntries(m)
    ensures BlankSeen(m, script) == BusInfo(Quad(m, ROM + 8), Quad(m, ROM + 12), Quad(m, ROM + 16))
  {
    assert Drop(script, 0) == script;
    PromptDrop(script, 0);
    PromptDrop(script, 1);
    PromptDrop(script, 2);
    PromptDrop(script, 3);
    PromptDrop(script, 4);
    PromptDrop(script, 5);
    PromptDrop(script, 6);
    PromptEntries(m, ROM + 24, RootLengthSeen(m, script), Drop(script, 6));
  }

  lemma PromptUnit(m: Image, script: seq<Status>)
    requires Prompt(script)
    ensures UnitSeen(m, RootEntries(m), script) == UnitEntries(m)
  {
    var u := UnitDirectory(m);
    if u.Some? {
      PromptDrop(script, 0);
      PromptDrop(script, 1);
      assert Drop(script, 0) == script;
      PromptEntries(m, u.value + 4, Length(Quad(m, u.value)), Drop(script, 1));
    }
  }

  lemma PromptAfterUnit(m: Image, script: seq<Status>)
    requires Prompt(script)
    ensures Prompt(AfterUnit(m, RootEntries(m), script))
  {
    PromptDrop(script, 1 + |UnitSeen(m, RootEntries(m), script)|);
  }

  /** With every read answered, what is seen is what the ROM says. */
  lemma PromptRom(m: Image, script: seq<Status>, crom: Rom)
    requires Prompt(script) && IsRomSeen(m, script, crom)
    ensures crom.(vendor := None) == FullRom(m).(vendor := None)
    ensures crom.vendor.Some? == TextualLeaf(m).Some?
    ensures TextReadable(m) ==> crom == FullRom(m)
  {
    PromptSees(m, script);
    var rest := Drop(script, 6 + |RootEntries(m)|);
    PromptDrop(script, 6 + |RootEntries(m)|);
    PromptUnit(m, rest);
    PromptAfterUnit(m, rest);
    var leaf := TextualLeaf(m);
    if leaf.Some? {
      TailKeeps(AfterUnit(m, RootEntries(m), rest));
      TailKeeps(Tail(AfterUnit(m, RootEntries(m), rest)));
    }
    SameRom(crom, FullRom(m));
  }

  /** With every read answered probe_node agrees with the interpretation, the text included if it is readable. */
  lemma PromptResult(m: Image, script: seq<Status>, failed: bool, crom: Rom)
    requires Prompt(script) && IsResult(m, script, failed, crom)
    ensures failed <==> Interpret(m).Rejected?
    ensures !failed ==> crom.(vendor := None) == Interpret(m).rom.(vendor := None)
    ensures !failed && General(m) ==> crom.vendor.Some? == TextualLeaf(m).Some?
    ensures !failed && (General(m) ==> TextReadable(m)) ==> crom == Interpret(m).rom
  {
    PromptSees(m, script);
    if !failed && General(m) {
      PromptRom(m, script, crom);
    }
  }

  lemma SameRom(r: Rom, s: Rom)
    requires r.(vendor := None) == s.(vendor := None)
    ensures r.vendor == s.vendor ==> r == s
  {
    assert r == r.(vendor := None).(vendor := r.vendor);
    assert s == s.(vendor := None).(vendor := s.vendor);
  }

  /**
   The two parsers on one node, through two handles; both handles may see EAGAIN any number of
   times, which the library rides out. When the application's handle sees none, they agree on
   every image that the library can read; on every other one the library throws while probe_node
   goes on with zeros.
   */
  method ParseWithBoth(com: RemoteNode, handle: RemoteNode)
    returns (library: Result<Option<Rom>>, failed: bool, crom: Rom)
    requires com.memory == handle.memory && com != handle
    modifies com`script, com`log, handle`script, handle`log
    ensures library.Ok? ==> FullyReadable(com.memory)
    ensures Clean(old(com.script)) ==> (library.Ok? <==> FullyReadable(com.memory))
    ensures IsResult(com.memory, old(handle.script), failed, crom)
    ensures library.Ok? && Prompt(old(handle.script)) ==>
              && (failed <==> library.value.None?)
              && (!failed ==> library.value == Some(crom))
  {
    ghost var script := handle.script;
    var device := new FirewireDevice.Device(0, 0, com);
    library := device.GetConfigRom();
    failed, crom := Probe(handle);
    if Prompt(script) {
      PromptResult(com.memory, script, failed, crom);
    }
  }

  /** A node that answers nothing: the library's reads throw, probe_node accepts vendor 0. */
  lemma SilentNode()
    ensures !FullyReadable(map[])
    ensures Interpret(map[]) == Accepted(BLANK)
  {
    var nothing: Image := map[];
    assert ROM !in nothing && ROM <= ROM < ROM + 4;
    assert !Readable(nothing, ROM, 4);
  }

  /**
   One EAGAIN on its first read makes probe_node take any node for one of vendor 0, whatever the
   node holds. The library retries and goes by the first quadlet itself.
   */
  method BusyNode(com: RemoteNode) returns (failed: bool, crom: Rom)
    requires com.script == [Again]
    modifies com`script, com`log
    ensures !failed && crom == BLANK
  {
    failed, crom := Probe(com);
  }
}
