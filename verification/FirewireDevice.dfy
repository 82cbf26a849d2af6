/** A device on the bus: its configuration ROM, read once and kept, and its identification. */
module FirewireDevice {
  import opened Words
  import opened Raw1394
  import opened ConfigRom

  const SENSABLE: nat := 0x000b99

  /** A missing directory entry is remembered as address 0. */
  function OrZero(a: Option<nat>): nat {
    if a.None? then 0 else a.value
  }

  lemma ReadableParts(m: Image, a: nat, n: nat, b: nat, k: nat)
    requires a <= b && b + k <= a + n
    ensures Readable(m, a, n) ==> Readable(m, b, k)
  {
  }

  lemma UnswappedQuad(m: Image, a: nat)
    requires Readable(m, a, 4)
    ensures HostLoad(Bytes(m, a, 4)) == Ntohl(Quad(m, a))
  {
    QuadOfBytes(m, a);
    NtohlOfHostLoad(Bytes(m, a, 4));
    NtohlInvolutive(HostLoad(Bytes(m, a, 4)));
  }

  lemma UnswappedIs(q: quadlet, swapped: quadlet, unswapped: quadlet)
    requires Ntohl(swapped) == unswapped
    ensures Ntohl(q) == unswapped <==> q == swapped
  {
    NtohlInjective(q, swapped);
  }

  lemma UnswappedMagic(q: quadlet)
    ensures Ntohl(q) == 0x3439_3331 <==> q == MAGIC
  {
    UnswappedIs(q, MAGIC, 0x3439_3331);
  }

  lemma UnswappedVendor(q: quadlet)
    ensures Ntohl(q) == 0x0099_0b00 <==> q == 0x000b_9900
  {
    UnswappedIs(q, 0x000b_9900, 0x0099_0b00);
  }

  /** Where the parser stops reading a textual leaf. */
  function TextEnd(m: Image, leaf: nat): nat {
    if Readable(m, leaf, 4) then leaf + 12 + TextLength(Length(Quad(m, leaf))) else leaf + 4
  }

  function RomOf(v: Verdict): Option<Rom> {
    if v.Rejected? then None else Some(v.rom)
  }

  /** What findPhantom finds out about a device, given that its bytes are as in m. */
  datatype Identity = Unreadable | Foreign | Sensable(serial: quadlet)

  function VendorId(m: Image): nat {
    match Interpret(m)
    case Rejected => 0
    case Accepted(rom) => rom.vendorId
  }

  function Identify(m: Image): Identity {
    if !FullyReadable(m) then Unreadable
    else if VendorId(m) != SENSABLE then Foreign
    else if !Readable(m, 0x1006_000c, 4) then Unreadable
    else if Quad(m, 0x1006_000c) != 0x000b_9900 then Foreign
    else if !Readable(m, 0x1006_0010, 4) then Unreadable
    else Sensable(Ntohl(Quad(m, 0x1006_0010)))
  }

  class Device {
    const port: nat
    const node: nat
    const com: RemoteNode
    var configRomRead: bool
    var configRomValid: bool
    var configRom: Rom
    ghost var seen: Image  // the memory when the ROM was read

    ghost predicate Valid()
      reads this
    {
      && (configRomValid ==> configRomRead)
      && (configRomRead ==> configRomValid == Interpret(seen).Accepted?)
      && (configRomValid ==> configRom == Interpret(seen).rom)
    }

    constructor (port: nat, node: nat, com: RemoteNode)
      ensures Valid() && !configRomRead
      ensures this.port == port && this.node == node && this.com == com
    {
      this.port, this.node, this.com := port, node, com;
      configRomRead, configRomValid, configRom, seen := false, false, BLANK, map[];
    }

    /** Reads a quadlet into host memory, without swapping it. */
    method ReadQuadlet(address: nat) returns (r: Result<quadlet>)
      modifies com`script, com`log
      ensures r.Ok? ==> Readable(com.memory, address, 4)
                        && r.value == Ntohl(Quad(com.memory, address))
      ensures Clean(old(com.script)) ==> Clean(com.script) && (Readable(com.memory, address, 4) ==> r.Ok?)
      ensures LogBelow(old(com.log), com.log, address + 4)
    {
      var buffer := new byte[4];
      var done := com.Read(address, buffer, 4);
      SuffixKeeps(com.script, old(com.script));
      if done.Err? {
        return Err;
      }
      UnswappedQuad(com.memory, address);
      assert buffer[..] == buffer[..4];
      return Ok(HostLoad(buffer[..]));
    }

    /** Reads a quadlet and swaps it. */
    method ReadSwapped(address: nat) returns (r: Result<quadlet>)
      modifies com`script, com`log
      ensures r.Ok? ==> Readable(com.memory, address, 4) && r.value == Quad(com.memory, address)
      ensures Clean(old(com.script)) ==> Clean(com.script) && (Readable(com.memory, address, 4) ==> r.Ok?)
      ensures LogBelow(old(com.log), com.log, address + 4)
    {
      r := ReadQuadlet(address);
      if r.Ok? {
        NtohlInvolutive(Quad(com.memory, address));
        r := Ok(Ntohl(r.value));
      }
    }

    /** Compares the first quadlet of the bus information block, unswapped, with its constant. */
    method MagicMatches(address: nat) returns (r: Result<bool>)
      modifies com`script, com`log
      ensures r.Ok? ==> Readable(com.memory, address, 4) && r.value == (Quad(com.memory, address) == MAGIC)
      ensures Clean(old(com.script)) ==> Clean(com.script) && (Readable(com.memory, address, 4) ==> r.Ok?)
      ensures LogBelow(old(com.log), com.log, address + 4)
    {
      var quadlet := ReadQuadlet(address);
      if quadlet.Err? {
        return Err;
      }
      UnswappedMagic(Quad(com.memory, address));
      return Ok(quadlet.value == 0x3439_3331);
    }

    /** The root directory loop; returns unit_dir_addr and textual_leaf_addr. */
    method ScanRoot(len: nat, ghost es: seq<quadlet>) returns (r: Result<(nat, nat)>)
      requires configRom.nodeCapabilities == 0 && es == Entries(com.memory, ROM + 24, len)
      modifies `configRom, com`script, com`log
      ensures r.Ok? ==> Readable(com.memory, ROM + 24, 4 * len)
      ensures r.Ok? ==>
                r.value == (OrZero(Target(es, ROM + 24, UNIT_DIRECTORY)), OrZero(Target(es, ROM + 24, TEXTUAL_LEAF)))
      ensures r.Ok? ==> configRom == old(configRom).(nodeCapabilities := LastValue(es, NODE_CAPABILITIES))
      ensures Clean(old(com.script)) ==> Clean(com.script) && (Readable(com.memory, ROM + 24, 4 * len) ==> r.Ok?)
      ensures LogBelow(old(com.log), com.log, ROM + 24 + 4 * len)
    {
      ghost var m, log := com.memory, com.log;
      var addr := ROM + 20;
      var unitDirAddr, textualLeafAddr := 0, 0;
      for i := 0 to len
        invariant addr == ROM + 20 + 4 * i
        invariant Readable(m, ROM + 24, 4 * i)
        invariant unitDirAddr == OrZero(Target(es[..i], ROM + 24, UNIT_DIRECTORY))
        invariant textualLeafAddr == OrZero(Target(es[..i], ROM + 24, TEXTUAL_LEAF))
        invariant configRom == old(configRom).(nodeCapabilities := LastValue(es[..i], NODE_CAPABILITIES))
        invariant Clean(old(com.script)) ==> Clean(com.script)
        invariant LogBelow(log, com.log, ROM + 24 + 4 * len)
      {
        addr := addr + 4;
        ReadableParts(m, ROM + 24, 4 * len, addr, 4);
        ghost var before := com.log;
        var quadlet := ReadSwapped(addr);
        LogBelowJoin(log, before, com.log, ROM + 24 + 4 * len, addr + 4, ROM + 24 + 4 * len);
        if quadlet.Err? {
          return Err;
        }
        ReadableJoin(m, ROM + 24, 4 * i, 4);
        assert quadlet.value == es[i];
        ScanStep(es, i, ROM + 24, UNIT_DIRECTORY);
        ScanStep(es, i, ROM + 24, TEXTUAL_LEAF);
        ScanStep(es, i, ROM + 24, NODE_CAPABILITIES);
        var value := Value(quadlet.value);
        match Key(quadlet.value) {
          case 0x0c => configRom := configRom.(nodeCapabilities := value);
          case 0xd1 => unitDirAddr := addr + value * 4;
          case 0x81 => textualLeafAddr := addr + value * 4;
          case _ =>
        }
      }
      assert es[..len] == es;
      return Ok((unitDirAddr, textualLeafAddr));
    }

    /** The unit directory loop. */
    method ScanUnit(unitDirAddr: nat, ghost es: seq<quadlet>) returns (r: Result<()>)
      requires es == Entries(com.memory, unitDirAddr + 4, Length(Quad(com.memory, unitDirAddr)))
      requires configRom.unitSpecId == configRom.unitSwVersion == configRom.modelId == 0
      modifies `configRom, com`script, com`log
      ensures r.Ok? ==> Readable(com.memory, unitDirAddr, 4 + 4 * |es|)
      ensures r.Ok? ==> configRom == WithUnit(old(configRom), es)
      ensures Clean(old(com.script)) ==>
                Clean(com.script) && (Readable(com.memory, unitDirAddr, 4 + 4 * |es|) ==> r.Ok?)
      ensures LogBelow(old(com.log), com.log, unitDirAddr + 4 + 4 * |es|)
    {
      ghost var m, log := com.memory, com.log;
      ghost var end := unitDirAddr + 4 + 4 * |es|;
      var addr := unitDirAddr;
      ReadableParts(m, unitDirAddr, 4 + 4 * |es|, addr, 4);
      var quadlet := ReadSwapped(addr);
      if quadlet.Err? {
        return Err;
      }
      var len := Length(quadlet.value);
      for i := 0 to len
        invariant addr == unitDirAddr + 4 * i
        invariant Readable(m, unitDirAddr, 4 + 4 * i)
        invariant configRom == WithUnit(old(configRom), es[..i])
        invariant Clean(old(com.script)) ==> Clean(com.script)
        invariant LogBelow(log, com.log, end)
      {
        addr := addr + 4;
        ReadableParts(m, unitDirAddr, 4 + 4 * len, addr, 4);
        ghost var before := com.log;
        quadlet := ReadSwapped(addr);
        LogBelowJoin(log, before, com.log, end, addr + 4, end);
        if quadlet.Err? {
          return Err;
        }
        ReadableJoin(m, unitDirAddr, 4 + 4 * i, 4);
        assert quadlet.value == es[i];
        UnitStep(old(configRom), es, i);
        var value := Value(quadlet.value);
        match Key(quadlet.value) {
          case 0x12 => configRom := configRom.(unitSpecId := value);
          case 0x13 => configRom := configRom.(unitSwVersion := value);
          case 0x17 => configRom := configRom.(modelId := value);
          case _ =>
        }
      }
      assert es[..len] == es;
      return Ok(());
    }

    /** The vendor text behind the textual leaf. */
    method ReadText(textualLeafAddr: nat) returns (r: Result<()>)
      modifies `configRom, com`script, com`log
      ensures r.Ok? ==> LeafReadable(com.memory, textualLeafAddr)
      ensures r.Ok? ==> configRom == old(configRom).(vendor := Some(TextAt(com.memory, textualLeafAddr)))
      ensures Clean(old(com.script)) ==> Clean(com.script) && (LeafReadable(com.memory, textualLeafAddr) ==> r.Ok?)
      ensures LogBelow(old(com.log), com.log, TextEnd(com.memory, textualLeafAddr))
    {
      var addr := textualLeafAddr;
      var quadlet := ReadSwapped(addr);
      if quadlet.Err? {
        return Err;
      }
      var len := Length(quadlet.value);
      len := (len + 0xffff_fffe) % 0x1_0000_0000 * 4 % 0x1_0000_0000;
      var vendor := new byte[len];
      addr := addr + 12;
      ghost var before := com.script;
      var done := com.Read(addr, vendor, len);
      SuffixKeeps(com.script, before);
      if done.Err? {
        return Err;
      }
      assert vendor[..] == vendor[..len];
      configRom := configRom.(vendor := Some(vendor[..]));
      return Ok(());
    }

    /** readConfigRom; Err stands for an exception out of one of the reads. */
    method ReadConfigRom() returns (r: Result<()>)
      requires !configRomValid
      modifies `configRom, `configRomValid, com`script, com`log
      ensures r.Ok? ==> FullyReadable(com.memory)
      ensures r.Ok? ==> configRomValid == Interpret(com.memory).Accepted?
      ensures r.Ok? && configRomValid ==> configRom == Interpret(com.memory).rom
      ensures r.Err? ==> !configRomValid
      ensures Clean(old(com.script)) ==> Clean(com.script) && (r.Ok? <==> FullyReadable(com.memory))
      ensures ProperLeaf(com.memory) ==> LogBelow(old(com.log), com.log, BOUND)
    {
      ghost var m, log := com.memory, com.log;
      configRom := BLANK;
      var quadlet := ReadSwapped(ROM);
      if quadlet.Err? {
        return Err;
      }
      if quadlet.value / 0x100_0000 != 4 {
        configRom := configRom.(vendorId := quadlet.value % 0x100_0000);
      } else {
        ghost var before := com.log;
        var accepted := ReadGeneralFormat();
        if ProperLeaf(m) {
          LogBelowJoin(log, before, com.log, ROM + 4, BOUND, BOUND);
        }
        if accepted.Err? {
          return Err;
        }
        if !accepted.value {
          return Ok(());
        }
      }
      configRomValid := true;
      return Ok(());
    }

    /** The general ROM format; false stands for a wrong magic number. */
    method ReadGeneralFormat() returns (r: Result<bool>)
      requires configRom == BLANK
      modifies `configRom, com`script, com`log
      ensures r.Ok? ==> Readable(com.memory, ROM + 4, 4) && r.value == (Quad(com.memory, ROM + 4) == MAGIC)
      ensures r.Ok? && r.value ==> configRom == FullRom(com.memory) && GeneralReadable(com.memory)
      ensures Clean(old(com.script)) ==>
                && Clean(com.script)
                && (r.Ok? <==> Readable(com.memory, ROM + 4, 4)
                               && (Quad(com.memory, ROM + 4) == MAGIC ==> GeneralReadable(com.memory)))
      ensures ProperLeaf(com.memory) ==> LogBelow(old(com.log), com.log, BOUND)
    {
      ghost var m, log := com.memory, com.log;
      var magic := MagicMatches(ROM + 4);
      if magic.Err? || !magic.value {
        return magic;
      }
      ghost var before := com.log;
      var done := ReadGeneralRom();
      if ProperLeaf(m) {
        LogBelowJoin(log, before, com.log, ROM + 8, BOUND, BOUND);
      }
      r := if done.Err? then Err else Ok(true);
    }

    /** getConfigRom: None is the null pointer. */
    method GetConfigRom() returns (r: Result<Option<Rom>>)
      requires Valid()
      modifies this, com`script, com`log
      ensures Valid()
      ensures old(configRomRead) ==> r == Ok(if configRomValid then Some(configRom) else None)
      ensures old(configRomRead) ==> seen == old(seen) && com.script == old(com.script) && com.log == old(com.log)
      ensures !old(configRomRead) && r.Ok? ==> seen == com.memory && FullyReadable(seen)
      ensures !old(configRomRead) && Clean(old(com.script)) ==> (r.Ok? <==> FullyReadable(com.memory))
      ensures r.Ok? ==> configRomRead && r.value == RomOf(Interpret(seen))
      ensures r.Err? ==> !configRomRead
      ensures Clean(old(com.script)) ==> Clean(com.script)
      ensures ProperLeaf(com.memory) ==> LogBelow(old(com.log), com.log, BOUND)
    {
      if !configRomRead {
        var done := ReadConfigRom();
        if done.Err? {
          return Err;
        }
        configRomRead, seen := true, com.memory;
      }
      return Ok(if configRomValid then Some(configRom) else None);
    }

    /** isSensableDevice */
    method IsSensableDevice() returns (r: Result<bool>)
      requires Valid()
      modifies this, com`script, com`log
      ensures Valid()
      ensures r.Ok? ==>
                && configRomRead
                && (r.value <==> VendorId(seen) == SENSABLE && Quad(com.memory, 0x1006_000c) == 0x000b_9900)
      ensures r.Ok? && VendorId(seen) == SENSABLE ==> Readable(com.memory, 0x1006_000c, 4)
      ensures !old(configRomRead) && r.Ok? ==> seen == com.memory && FullyReadable(seen)
      ensures !old(configRomRead) && Clean(old(com.script)) ==>
                (r.Ok? <==> FullyReadable(com.memory)
                            && (VendorId(com.memory) == SENSABLE ==> Readable(com.memory, 0x1006_000c, 4)))
      ensures Clean(old(com.script)) ==> Clean(com.script)
      ensures ProperLeaf(com.memory) ==> LogBelow(old(com.log), com.log, BOUND)
    {
      var crom := GetConfigRom();
      if crom.Err? {
        return Err;
      }
      var vendorId := if crom.value.None? then 0 else crom.value.value.vendorId;
      if vendorId != SENSABLE {
        return Ok(false);
      }
      var vendor := ReadQuadlet(0x1006_000c);
      if vendor.Err? {
        return Err;
      }
      UnswappedVendor(Quad(com.memory, 0x1006_000c));
      return Ok(vendor.value == 0x0099_0b00);
    }

    /** readDeviceSerial, which is not cached. */
    method ReadDeviceSerial() returns (r: Result<quadlet>)
      modifies com`script, com`log
      ensures r.Ok? ==> Readable(com.memory, 0x1006_0010, 4) && r.value == Ntohl(Quad(com.memory, 0x1006_0010))
      ensures Clean(old(com.script)) ==> Clean(com.script) && (Readable(com.memory, 0x1006_0010, 4) ==> r.Ok?)
      ensures LogBelow(old(com.log), com.log, 0x1006_0014)
    {
      r := ReadQuadlet(0x1006_0010);
    }

    /**
     What findPhantom does with a device it has just opened: the vendor check and, for a
     SensAble device, readDeviceSerial. None means that it is not a SensAble device.
     */
    method Examine() returns (r: Result<Option<quadlet>>)
      requires Valid() && !configRomRead
      modifies this, com`script, com`log
      ensures Valid()
      ensures r.Ok? ==>
                match Identify(com.memory)
                case Unreadable => false
                case Foreign => r.value == None
                case Sensable(serial) => r.value == Some(serial)
      ensures Clean(old(com.script)) ==>
                match Identify(com.memory)
                case Unreadable => r == Err
                case Foreign => r == Ok(None)
                case Sensable(serial) => r == Ok(Some(serial))
      ensures Clean(old(com.script)) ==> Clean(com.script)
      ensures ProperLeaf(com.memory) ==> LogBelow(old(com.log), com.log, BOUND)
    {
      var sensable := IsSensableDevice();
      if sensable.Err? {
        return Err;
      }
      if !sensable.value {
        return Ok(None);
      }
      var serial := ReadDeviceSerial();
      if serial.Err? {
        return Err;
      }
      return Ok(Some(serial.value));
    }

    /** The second to fourth quadlets of the bus information block. */
    method ReadBusInfo() returns (r: Result<()>)
      modifies `configRom, com`script, com`log
      ensures r.Ok? ==>
                configRom == BusInfo(Quad(com.memory, ROM + 8), Quad(com.memory, ROM + 12), Quad(com.memory, ROM + 16))
      ensures r.Ok? ==> Readable(com.memory, ROM + 8, 12)
      ensures Clean(old(com.script)) ==> Clean(com.script) && (Readable(com.memory, ROM + 8, 12) ==> r.Ok?)
      ensures LogBelow(old(com.log), com.log, ROM + 20)
    {
      var second := ReadSwapped(ROM + 8);
      if second.Err? {
        return Err;
      }
      var third := ReadSwapped(ROM + 12);
      if third.Err? {
        return Err;
      }
      var fourth := ReadSwapped(ROM + 16);
      if fourth.Err? {
        return Err;
      }
      configRom := BusInfo(second.value, third.value, fourth.value);
      return Ok(());
    }

    /** The part of readConfigRom that follows the magic number. */
    method ReadGeneralRom() returns (r: Result<()>)
      requires configRom == BLANK
      modifies `configRom, com`script, com`log
      ensures r.Ok? ==> configRom == FullRom(com.memory)
      ensures r.Ok? ==> GeneralReadable(com.memory)
      ensures Clean(old(com.script)) ==> Clean(com.script) && (GeneralReadable(com.memory) ==> r.Ok?)
      ensures ProperLeaf(com.memory) ==> LogBelow(old(com.log), com.log, BOUND)
    {
      ghost var m, log := com.memory, com.log;
      assert GeneralReadable(m) ==>
          Readable(m, ROM + 8, 12) && Readable(m, ROM + 20, 4)
          && Readable(m, ROM + 24, 4 * RootLength(m));
      var busInfo := ReadBusInfo();
      if busInfo.Err? {
        return Err;
      }
      ghost var one := com.log;
      var quadlet := ReadSwapped(ROM + 20);
      LogBelowJoin(log, one, com.log, ROM + 20, ROM + 24, ROM + 24);
      if quadlet.Err? {
        return Err;
      }
      var len := Length(quadlet.value);
      if len > 16 {
        len := 16;
      }
      ghost var two := com.log;
      var jumps := ScanRoot(len, RootEntries(m));
      LogBelowJoin(log, two, com.log, ROM + 24, ROM + 24 + 4 * len, BOUND);
      if jumps.Err? {
        return Err;
      }
      ReadableJoin(m, ROM + 8, 12, 4);
      ReadableJoin(m, ROM + 8, 16, 4 * len);
      ghost var three := com.log;
      r := ReadLinked(jumps.value.0, jumps.value.1);
      if ProperLeaf(m) {
        LogBelowJoin(log, three, com.log, BOUND, BOUND, BOUND);
      }
    }

    /** Follows the jumps to the unit directory and the textual leaf; 0 stands for none. */
    method ReadLinked(unitDirAddr: nat, textualLeafAddr: nat) returns (r: Result<()>)
      requires unitDirAddr == OrZero(UnitDirectory(com.memory)) && textualLeafAddr == OrZero(TextualLeaf(com.memory))
      requires configRom.unitSpecId == configRom.unitSwVersion == configRom.modelId == 0 && configRom.vendor == None
      modifies `configRom, com`script, com`log
      ensures r.Ok? ==> configRom == WithLinked(com.memory, old(configRom))
      ensures r.Ok? ==> LinkedReadable(com.memory)
      ensures Clean(old(com.script)) ==> Clean(com.script) && (LinkedReadable(com.memory) ==> r.Ok?)
      ensures ProperLeaf(com.memory) ==> LogBelow(old(com.log), com.log, BOUND)
    {
      ghost var m, log := com.memory, com.log;
      Sentinels(m);
      LinkedBounds(m);
      if unitDirAddr > 0 {
        var done := ScanUnit(unitDirAddr, UnitEntries(m));
        if done.Err? {
          return Err;
        }
      }
      if textualLeafAddr > 0 {
        ghost var before := com.log;
        var done := ReadText(textualLeafAddr);
        if ProperLeaf(m) {
          LogBelowJoin(log, before, com.log, BOUND, TextEnd(m, textualLeafAddr), BOUND);
        }
        if done.Err? {
          return Err;
        }
      }
      return Ok(());
    }
  }

  lemma LinkedBounds(m: Image)
    ensures UnitDirectory(m).Some? ==> UnitDirectory(m).value + 4 + 4 * |UnitEntries(m)| <= BOUND
    ensures TextualLeaf(m).Some? && ProperLeaf(m) ==> TextEnd(m, TextualLeaf(m).value) <= BOUND
  {
    if UnitDirectory(m).Some? {
      UnitDirectoryBounded(m);
    }
    if TextualLeaf(m).Some? {
      TextualLeafBounded(m);
    }
  }

  /** Address 0 means "no entry" and nothing else. */
  lemma Sentinels(m: Image)
    ensures OrZero(UnitDirectory(m)) > 0 <==> UnitDirectory(m).Some?
    ensures OrZero(TextualLeaf(m)) > 0 <==> TextualLeaf(m).Some?
    ensures UnitDirectory(m).None? ==> LastValue(UnitEntries(m), UNIT_SPEC_ID) == 0
    ensures UnitDirectory(m).None? ==> LastValue(UnitEntries(m), UNIT_SW_VERSION) == 0
    ensures UnitDirectory(m).None? ==> LastValue(UnitEntries(m), MODEL_ID) == 0
  {
    if UnitDirectory(m).Some? {
      UnitDirectoryBounded(m);
    }
    if TextualLeaf(m).Some? {
      TextualLeafBounded(m);
    }
  }
}
