/**
 The reverse-engineering application for one device: the retrying transactions of easy-com, the
 set-up of the device and its shutdown.
 */
module Omni {
  import opened Words
  import opened Raw1394
  import opened IrmRegister
  import opened Irm
  import opened PhantomIsoChannel
  import PhantomSession
  import RegisterFates

  // ----- easy-com

  /** write_data_char: tried again as long as the answer is EAGAIN. */
  method WriteDataChar(com: RemoteNode, address: nat, c: byte) returns (failed: bool)
    modifies com`script, com`memory
    ensures !failed ==> address in old(com.memory)
    ensures com.memory == Written(old(com.memory), com.ignored, !failed, address, c)
    ensures Suffix(com.script, old(com.script))
    ensures failed <==> !Clean(Used(old(com.script), com.script)) || address !in old(com.memory)
    ensures com.script == AfterRead(old(com.script))
              && (failed <==> ReadRefused(old(com.script)) || address !in old(com.memory))
    ensures Clean(old(com.script)) ==> Clean(com.script) && (failed <==> address !in old(com.memory))
    ensures Prompt(old(com.script)) ==> Prompt(com.script)
  {
    ghost var start := com.script;
    AfterReadKeeps(start);
    while true
      invariant com.memory == old(com.memory) && ReadSoFar(start, com.script, 0, 1)
      decreases |com.script|
    {
      ReadFurther(start, com.script, 0, 1);
      var s := com.RawWriteByte(address, c);
      if s != Again {
        return s == Fault;
      }
    }
  }

  /** read_data_char */
  method ReadDataChar(com: RemoteNode, address: nat) returns (failed: bool, c: byte)
    modifies com`script, com`log
    ensures !failed ==> address in com.memory && c == com.memory[address]
    ensures Suffix(com.script, old(com.script))
    ensures failed <==> !Clean(Used(old(com.script), com.script)) || address !in com.memory
    ensures com.script == AfterRead(old(com.script))
              && (failed <==> ReadRefused(old(com.script)) || address !in com.memory)
    ensures Clean(old(com.script)) ==> Clean(com.script) && (failed <==> address !in com.memory)
    ensures Prompt(old(com.script)) ==> Prompt(com.script)
  {
    ghost var start := com.script;
    AfterReadKeeps(start);
    while true
      invariant ReadSoFar(start, com.script, 0, 1)
      decreases |com.script|
    {
      ReadFurther(start, com.script, 0, 1);
      var s;
      s, c := com.RawReadByte(address);
      if s != Again {
        return s == Fault, c;
      }
    }
  }

  /** get_expected_char */
  method GetExpectedChar(com: RemoteNode, address: nat, expected: byte) returns (failed: bool)
    modifies com`script, com`log
    ensures com.script == AfterRead(old(com.script))
    ensures failed <==> ReadRefused(old(com.script)) || !(address in com.memory && com.memory[address] == expected)
    ensures !failed ==> address in com.memory && com.memory[address] == expected
    ensures Clean(old(com.script)) ==>
              Clean(com.script) && (failed <==> !(address in com.memory && com.memory[address] == expected))
    ensures Prompt(old(com.script)) ==> Prompt(com.script)
  {
    var c;
    failed, c := ReadDataChar(com, address);
    if !failed {
      failed := c != expected;
    }
  }

  // ----- the channel search

  /**
   One snapshot of the register, two searches that share their index: the second goes on behind
   the first hit, and does not start at all when the first runs off the end. -1 means none.
   */
  method FindTwoChannels(register: seq<byte>) returns (recv: int, xmit: int)
    requires |register| == 8
    ensures recv == -1 <==> FreeChannels(register) == {}
    ensures recv != -1 ==> recv >= 0 && IsLeast(recv, FreeChannels(register))
    ensures recv == -1 ==> xmit == -1
    ensures recv != -1 ==> (xmit == -1 <==> FreeChannels(register) - {recv} == {})
    ensures xmit != -1 ==> xmit >= 0 && IsLeast(xmit, FreeChannels(register) - {recv})
  {
    var high, low := Ntohl(HostLoad(register[..4])), Ntohl(HostLoad(register[4..]));
    NtohlOfHostLoad(register[..4]);
    NtohlOfHostLoad(register[4..]);
    var channels := Join(high, low);
    var i;
    recv, i := SearchFrom(channels, 0, register);
    xmit, i := SearchFrom(channels, i + 1, register);
    ghost var free := FreeChannels(register);
    if recv != -1 {
      assert forall c :: c in free - {recv} <==> c in free && c >= recv + 1;
    }
  }

  /** One of the two loops: the first free channel from i on, and where the index stopped. */
  method SearchFrom(channels: nat, i: nat, ghost register: seq<byte>) returns (hit: int, stop: nat)
    requires |register| == 8 && channels == Join(BigEndian(register[..4]), BigEndian(register[4..]))
    ensures hit == -1 || (hit == stop && i <= stop < 64 && hit in FreeChannels(register))
    ensures hit == -1 ==> stop >= 64 && stop >= i && forall c :: c in FreeChannels(register) ==> c < i
    ensures hit != -1 ==> forall c :: c in FreeChannels(register) && c >= i ==> c >= hit
  {
    stop := i;
    while stop < 64
      invariant stop >= i && forall c :: c in FreeChannels(register) && c >= i ==> c >= stop
    {
      JoinedBit(register, stop);
      if BitSet(channels, 63 - stop) {
        return stop, stop;
      }
      stop := stop + 1;
    }
    return -1, stop;
  }

  // ----- set-up and shutdown

  /** There are two different free channels. */
  ghost predicate TwoFree(free: set<nat>) {
    exists c, d :: c in free && d in free && c != d
  }

  lemma NotTwoFree(free: set<nat>, recv: int)
    requires recv == -1 ==> free == {}
    requires recv != -1 ==> recv >= 0 && free - {recv} == {}
    ensures !TwoFree(free)
  {
    forall c | c in free
      ensures c == recv
    {
      assert recv != -1;
      assert c != recv ==> c in free - {recv};
    }
  }

  lemma TwoLeast(free: set<nat>, c: nat, d: nat)
    requires IsLeast(c, free) && IsLeast(d, free - {c})
    ensures TwoFree(free)
  {
    assert c in free && d in free && c != d;
  }

  /** The search finds both channels exactly when two are free. */
  lemma BothFoundIffTwoFree(free: set<nat>, recv: int, xmit: int)
    requires recv == -1 <==> free == {}
    requires recv != -1 ==> recv >= 0 && IsLeast(recv, free)
    requires recv != -1 ==> (xmit == -1 <==> free - {recv} == {})
    requires xmit != -1 ==> recv != -1 && xmit >= 0 && IsLeast(xmit, free - {recv})
    ensures recv != -1 && xmit != -1 <==> TwoFree(free)
  {
    if recv == -1 || xmit == -1 {
      NotTwoFree(free, recv);
    } else {
      TwoLeast(free, recv, xmit);
    }
  }

  lemma LeastPairIsUnique(free: set<nat>, c: nat, d: nat, c': nat, d': nat)
    requires IsLeast(c, free) && IsLeast(d, free - {c})
    requires IsLeast(c', free) && IsLeast(d', free - {c'})
    ensures c == c' && d == d'
  {
    assert c <= c' <= c;
    assert d <= d' <= d;
  }

  /** Writes the receive channel, reads it back, probes the register with 0x40 and writes it again. */
  method TellReceiveChannel(com: RemoteNode, recv: byte) returns (failed: bool)
    requires recv in CHANNELS
    modifies com`script, com`log, com`memory
    ensures !failed ==>
              && RECV_CHANNEL in old(com.memory) && RECV_CHANNEL !in com.ignored
              && com.memory == old(com.memory)[RECV_CHANNEL := recv]
              && com.script == AfterReads(old(com.script), 5)
    ensures Clean(old(com.script)) && RECV_CHANNEL in old(com.memory) ==>
              Clean(com.script) && (failed <==> RECV_CHANNEL in com.ignored)
    ensures Prompt(old(com.script)) ==> Prompt(com.script)
  {
    ghost var start := com.script;
    failed := WriteAndExpect(com, RECV_CHANNEL, recv);
    if failed {
      return;
    }
    failed := WriteAndExpect(com, RECV_CHANNEL, PROBE);
    if failed {
      return;
    }
    AfterReadsJoin(start, 2, 2);
    failed := WriteDataChar(com, RECV_CHANNEL, recv);
    assert com.script == AfterReads(start, 5);
  }

  /** Writes a register and expects to read back the same. */
  method WriteAndExpect(com: RemoteNode, address: nat, c: byte) returns (failed: bool)
    modifies com`script, com`log, com`memory
    ensures !failed ==>
              && address in old(com.memory) && com.script == AfterReads(old(com.script), 2)
              && (if address in com.ignored then com.memory == old(com.memory) && com.memory[address] == c
                  else com.memory == old(com.memory)[address := c])
    ensures Clean(old(com.script)) && address in old(com.memory) ==>
              && Clean(com.script) && address in com.memory
              && (failed <==> address in com.ignored && old(com.memory)[address] != c)
    ensures Prompt(old(com.script)) ==> Prompt(com.script)
  {
    ghost var start := com.script;
    failed := WriteDataChar(com, address, c);
    if failed {
      return;
    }
    assert com.script == AfterReads(start, 1);
    failed := GetExpectedChar(com, address, c);
    assert com.script == AfterReads(start, 2);
  }

  /** The memory of a device that knows its two channels. */
  function ToldChannels(m: Image, ignored: set<nat>, recv: byte, xmit: byte): Image {
    Written(m, ignored, true, XMIT_CHANNEL, xmit)[RECV_CHANNEL := recv]
  }

  lemma OtherRegistersStay(m: Image, ignored: set<nat>, recv: byte, xmit: byte)
    ensures var told := ToldChannels(m, ignored, recv, xmit);
            && (Healthy(told) <==> Healthy(m)) && (STATUS_HIGH in told <==> STATUS_HIGH in m)
            && (STATUS_LOW in told <==> STATUS_LOW in m)
            && (CONTROL in told <==> CONTROL in m) && (CONTROL in m ==> told[CONTROL] == m[CONTROL])
  {
  }

  /** The memory of a device that initialise_device has set up. */
  function WithChannels(m: Image, ignored: set<nat>, recv: byte, xmit: byte): Image
    requires CONTROL in m
  {
    Written(ToldChannels(m, ignored, recv, xmit), ignored, true, CONTROL, WithEnable(m[CONTROL]))
  }

  /** Byte by byte: the two channel registers and bit 3 of the control register, unless they ignore writes. */
  lemma SetUpBytes(m: Image, ignored: set<nat>, recv: byte, xmit: byte)
    requires 0x1087 in m && 0x1001 !in ignored
    ensures var control := if BitSet(m[0x1087], 3) then m[0x1087] else m[0x1087] + 8;
            var both := (if 0x1000 in ignored then m else m[0x1000 := xmit])[0x1001 := recv];
            WithChannels(m, ignored, recv, xmit) == if 0x1087 in ignored then both else both[0x1087 := control]
  {
    RegisterFates.EnableBit(m[0x1087]);
  }

  /** The first part of the register handshake: both channels are written. */
  method TellChannels(com: RemoteNode, recv: byte, xmit: byte) returns (failed: bool)
    requires recv in CHANNELS && xmit in CHANNELS
    modifies com`script, com`log, com`memory
    ensures !failed ==>
              && XMIT_CHANNEL in old(com.memory) && RECV_CHANNEL in old(com.memory) && RECV_CHANNEL !in com.ignored
              && com.memory == ToldChannels(old(com.memory), com.ignored, recv, xmit)
              && com.script == AfterReads(old(com.script), 6)
    ensures Clean(old(com.script)) && HasRegisters(old(com.memory)) ==>
              Clean(com.script) && (failed <==> RECV_CHANNEL in com.ignored)
    ensures Prompt(old(com.script)) ==> Prompt(com.script)
  {
    ghost var start := com.script;
    failed := WriteDataChar(com, XMIT_CHANNEL, xmit);
    if failed {
      return;
    }
    assert com.script == AfterReads(start, 1);
    failed := TellReceiveChannel(com, recv);
    AfterReadsJoin(start, 1, 5);
  }

  /** The register handshake of initialise_device for a chosen pair of channels. */
  method ConfigureDevice(com: RemoteNode, recv: byte, xmit: byte) returns (failed: bool)
    requires recv in CHANNELS && xmit in CHANNELS
    modifies com`script, com`log, com`memory
    ensures !failed ==>
              && HasRegisters(old(com.memory)) && Healthy(old(com.memory)) && RECV_CHANNEL !in com.ignored
              && com.memory == WithChannels(old(com.memory), com.ignored, recv, xmit)
              && com.script == AfterReads(old(com.script), 10)
    ensures Clean(old(com.script)) && HasRegisters(old(com.memory)) ==>
              Clean(com.script) && (failed <==> !Healthy(old(com.memory)) || RECV_CHANNEL in com.ignored)
    ensures Prompt(old(com.script)) ==> Prompt(com.script)
  {
    ghost var start := com.script;
    failed := TellChannels(com, recv, xmit);
    if failed {
      return;
    }
    OtherRegistersStay(old(com.memory), com.ignored, recv, xmit);
    failed := EnableWhenReady(com);
    AfterReadsJoin(start, 6, 4);
  }

  /** The end of the register handshake: status check, then the enable bit. */
  method EnableWhenReady(com: RemoteNode) returns (failed: bool)
    modifies com`script, com`log, com`memory
    ensures !failed ==>
              && Healthy(old(com.memory)) && CONTROL in old(com.memory)
              && com.memory == Written(old(com.memory), com.ignored, true, CONTROL,
                                       WithEnable(old(com.memory)[CONTROL]))
              && com.script == AfterReads(old(com.script), 4)
    ensures Clean(old(com.script)) && HasRegisters(old(com.memory)) ==>
              Clean(com.script) && (failed <==> !Healthy(old(com.memory)))
    ensures Prompt(old(com.script)) ==> Prompt(com.script)
  {
    ghost var start := com.script;
    failed := GetExpectedChar(com, STATUS_HIGH, 0xc0);
    if failed {
      return;
    }
    assert com.script == AfterReads(start, 1);
    failed := GetExpectedChar(com, STATUS_LOW, 0x00);
    if failed {
      return;
    }
    assert com.script == AfterReads(start, 2);
    var c;
    failed, c := ReadDataChar(com, CONTROL);
    if failed {
      return;
    }
    failed := WriteDataChar(com, CONTROL, WithEnable(c));
    assert com.script == AfterReads(start, 4);
  }

  /** The snapshot, and then the two allocations, each for itself. */
  function Allocated(v: View, recv: nat, xmit: nat): View {
    Claimed(Claimed(Turned(v), recv), xmit)
  }

  /** A channel is owned exactly if its allocation is served and no one else holds it by then. */
  lemma OwnsBoth(v: View, recv: nat, xmit: nat)
    requires recv !in v.mine && xmit !in v.mine && recv != xmit
    ensures var first := Turned(v);
            var second, after := Claimed(first, recv), Allocated(v, recv, xmit);
            && (recv in after.mine <==> IsServed(first.script) && recv !in Turned(first).others)
            && (xmit in after.mine <==> IsServed(second.script) && xmit !in Turned(second).others)
            && ({recv, xmit} <= after.mine <==> after.mine == v.mine + {recv, xmit})
  {
  }

  /** Giving the two back takes away whatever of them was allocated, and nothing else. */
  lemma BothGivenBack(v: View, recv: nat, xmit: nat)
    requires NoFailure(v.script) && recv !in v.mine && xmit !in v.mine && recv != xmit
    ensures Released(Released(Allocated(v, recv, xmit), recv), xmit).mine == v.mine
  {
    var after := Allocated(v, recv, xmit);
    NoFailureIsServed(v.script);
    NoFailureIsServed(Rest(v.script));
    NoFailureIsServed(Rest(Rest(v.script)));
    NoFailureIsServed(after.script);
    NoFailureIsServed(Rest(after.script));
  }

  /**
   initialise_device: chooses the two lowest free channels, allocates them without looking at
   the outcome, and configures the device. `seen` is what was free when the register was read.
   */
  method InitialiseDevice(com: RemoteNode, irm: ResourceManager)
    returns (failed: bool, recv: int, xmit: int, ghost seen: set<nat>)
    requires irm.Valid()
    modifies irm, com`script, com`log, com`memory
    ensures irm.Valid()
    ensures old(irm.mine) <= irm.mine <= old(irm.mine) + (set c: nat | c in CHANNELS && (c == recv || c == xmit))
    ensures !failed ==>
              && recv >= 0 && xmit >= 0 && IsLeast(recv, seen) && IsLeast(xmit, seen - {recv}) && recv < 64 && xmit < 64
              && HasRegisters(old(com.memory)) && Healthy(old(com.memory)) && RECV_CHANNEL !in com.ignored
              && com.memory == WithChannels(old(com.memory), com.ignored, recv, xmit)
    ensures Clean(old(com.script)) && HasRegisters(old(com.memory)) ==>
              (failed <==>
                 || !IsServed(old(irm.script)) || !TwoFree(seen)
                 || !Healthy(old(com.memory)) || RECV_CHANNEL in com.ignored)
    ensures !failed ==> IsServed(old(irm.script)) && TwoFree(seen) && com.script == AfterReads(old(com.script), 10)
    ensures IsServed(old(irm.script)) ==>
              && seen == CHANNELS - old(irm.mine) - Turned(old(irm.Now())).others
              && (recv != -1 && xmit != -1 <==> TwoFree(seen))
    ensures recv != -1 && xmit != -1 ==>
              recv in seen && xmit in seen && recv != xmit && irm.Now() == Allocated(old(irm.Now()), recv, xmit)
    ensures recv == -1 || xmit == -1 ==> irm.Now() == Turned(old(irm.Now()))
    ensures NoFailure(old(irm.script)) ==> NoFailure(irm.script)
    ensures Clean(old(com.script)) && HasRegisters(old(com.memory)) ==> Clean(com.script)
    ensures Prompt(old(com.script)) ==> Prompt(com.script)
  {
    recv, xmit := -1, -1;
    var register;
    register, seen := irm.ReadRegister();
    if register.Err? {
      return true, -1, -1, seen;
    }
    recv, xmit := FindTwoChannels(register.value);
    if recv == -1 || xmit == -1 {
      NotTwoFree(seen, recv);
      return true, recv, xmit, seen;
    }
    assert recv in seen && xmit in seen;
    var ignoredOutcome := irm.Claim(recv);
    ignoredOutcome := irm.Claim(xmit);
    failed := ConfigureDevice(com, recv, xmit);
  }

  /**
   The memory after one attempt each to read the control register and to write it back without
   its enable bit. When the read is not answered, the byte is still the 0 read before, and the
   write clears the whole register.
   */
  function Disabled(m: Image, ignored: set<nat>, script: seq<Status>): Image {
    var c: byte := if Answered(script) && CONTROL in m then m[CONTROL] else 0;
    Written(m, ignored, Answered(Tail(script)) && CONTROL in m, CONTROL, WithoutEnable(c))
  }

  /** Byte by byte, for any fate of the two attempts. */
  lemma DisabledBytes(m: Image, ignored: set<nat>, read: Status, write: Status, rest: seq<Status>)
    ensures Disabled(m, ignored, [read, write] + rest) ==
            if write != Done || 0x1087 !in m || 0x1087 in ignored then m
            else if read != Done then m[0x1087 := 0]
            else m[0x1087 := if BitSet(m[0x1087], 3) then m[0x1087] - 8 else m[0x1087]]
  {
    assert Tail([read, write] + rest) == [write] + rest;
    if 0x1087 in m {
      RegisterFates.EnableBit(m[0x1087]);
    }
  }

  method DisableIso(com: RemoteNode)
    modifies com`script, com`log, com`memory
    ensures com.memory == Disabled(old(com.memory), com.ignored, old(com.script))
  {
    var s, c := com.RawReadByte(CONTROL);
    s := com.RawWriteByte(CONTROL, WithoutEnable(c));
  }

  lemma DisabledOrNot(m: Image, ignored: set<nat>, script: seq<Status>)
    ensures CONTROL in m && Prompt(script) ==>
              Disabled(m, ignored, script) == Written(m, ignored, true, CONTROL, WithoutEnable(m[CONTROL]))
    ensures CONTROL in Disabled(m, ignored, script) ==>
              Disabled(m, ignored, script) == m || !IsoEnabled(Disabled(m, ignored, script)[CONTROL])
  {
    TailKeeps(script);
    TailKeeps(Tail(script));
    EnableMasks(if Answered(script) && CONTROL in m then m[CONTROL] else 0);
  }

  /**
   The shutdown keeps the control register or clears its enable bit only, if and only if the read
   is answered, or the write is not or has no effect, or there is no other bit to lose.
   */
  lemma DisableClearsOnlyEnable(m: Image, ignored: set<nat>, script: seq<Status>)
    requires CONTROL in m
    ensures var c := Disabled(m, ignored, script)[CONTROL];
            (c == m[CONTROL] || c == WithoutEnable(m[CONTROL])) <==>
            (Answered(script) || !Answered(Tail(script)) || CONTROL in ignored || WithoutEnable(m[CONTROL]) == 0)
  {
    EnableMasks(m[CONTROL]);
  }

  /**
   The shutdown of one device: status check, one attempt each to read and write the control
   register, and the two channels, if two were chosen, given back whether or not the allocation had
   succeeded.
   */
  method Shutdown(com: RemoteNode, irm: ResourceManager, recv: int, xmit: int) returns (failed: bool)
    requires irm.Valid() && (recv == -1 || recv in CHANNELS) && (xmit == -1 || xmit in CHANNELS)
    modifies irm, com`script, com`log, com`memory
    ensures irm.Valid() && (NoFailure(old(irm.script)) ==> NoFailure(irm.script))
    ensures failed <==>
              || !Healthy(old(com.memory))
              || ReadRefused(old(com.script)) || ReadRefused(AfterRead(old(com.script)))
    ensures com.memory == if failed then old(com.memory)
                          else Disabled(old(com.memory), com.ignored, AfterReads(old(com.script), 2))
    ensures Clean(old(com.script)) ==> (failed <==> !Healthy(old(com.memory)))
    ensures !failed && Prompt(old(com.script)) && CONTROL in old(com.memory) ==>
              com.memory == Written(old(com.memory), com.ignored, true, CONTROL,
                                    WithoutEnable(old(com.memory)[CONTROL]))
    ensures !failed && CONTROL in com.memory ==>
              com.memory == old(com.memory) || !IsoEnabled(com.memory[CONTROL])
    ensures if failed || recv == -1 || xmit == -1
            then irm.Now() == old(irm.Now())
            else irm.Now() == Released(Released(old(irm.Now()), recv), xmit)
    ensures !failed && old(irm.script) == [] && recv != -1 && xmit != -1 ==>
              irm.mine == old(irm.mine) - {recv, xmit} && irm.others == old(irm.others) - {recv, xmit}
  {
    ghost var start := com.script;
    AfterReadKeeps(start);
    AfterReadKeeps(AfterRead(start));
    failed := GetExpectedChar(com, STATUS_HIGH, 0xc0);
    if failed {
      return;
    }
    assert com.script == AfterReads(start, 1);
    failed := GetExpectedChar(com, STATUS_LOW, 0x00);
    if failed {
      return;
    }
    assert com.script == AfterReads(start, 2);
    DisabledOrNot(com.memory, com.ignored, com.script);
    DisableIso(com);
    if recv != -1 && xmit != -1 {
      var ignoredOutcome := irm.Release(recv);
      ignoredOutcome := irm.Release(xmit);
    }
  }

  /**
   Setting a device up and shutting it down, under any EAGAINs and whatever the other users of the
   manager do. It works out exactly if there are two free channels at the snapshot and the device
   is in order, and then gives back whatever was taken.
   */
  method InitialiseThenShutdown(com: RemoteNode, irm: ResourceManager) returns (failed: bool, recv: int, xmit: int)
    requires irm.Valid() && NoFailure(irm.script) && Clean(com.script) && HasRegisters(com.memory)
    modifies irm, com`script, com`log, com`memory
    ensures var seen := CHANNELS - old(irm.mine) - Turned(old(irm.Now())).others;
            && (failed <==> !TwoFree(seen) || !Healthy(old(com.memory)) || RECV_CHANNEL in com.ignored)
            && (!failed ==> recv >= 0 && xmit >= 0 && IsLeast(recv, seen) && IsLeast(xmit, seen - {recv}))
    ensures !failed ==>
              && irm.mine == old(irm.mine) && 0 <= recv < 64 && 0 <= xmit < 64
              && com.memory == Disabled(WithChannels(old(com.memory), com.ignored, recv, xmit), com.ignored,
                                        AfterReads(old(com.script), 12))
  {
    ghost var start, before := com.script, irm.Now();
    ghost var seen;
    failed, recv, xmit, seen := InitialiseDevice(com, irm);
    NoFailureIsServed(before.script);
    if failed {
      return;
    }
    AfterReadsJoin(start, 10, 2);
    BothGivenBack(before, recv, xmit);
    failed := Shutdown(com, irm, recv, xmit);
  }

  /** Both channels are free at the snapshot; another user takes channel 0 before the first allocation. */
  lemma StolenViews(v: View)
    requires v == View([Served({}), Served({0})], {}, {})
    ensures Turned(v).others == {} && IsServed(v.script) && NoFailure(v.script)
    ensures Allocated(v, 0, 1) == View([], {0}, {1})
    ensures Released(Released(View([], {0}, {1}), 0), 1) == View([], {}, {})
  {
    assert Rest(v.script) == [Served({0})] && Rest(Rest(v.script)) == [];
    assert 0 in CHANNELS && {0} * CHANNELS == {0};
    assert Turned(v) == View([Served({0})], {}, {}) && Turned(Turned(v)) == View([], {0}, {});
    assert Claimed(Turned(v), 0) == View([], {0}, {});
    assert Claimed(View([], {0}, {}), 1) == View([], {0}, {1});
  }

  lemma FirstPair(recv: int, xmit: int)
    ensures TwoFree(CHANNELS)
    ensures recv >= 0 && xmit >= 0 && IsLeast(recv, CHANNELS) && IsLeast(xmit, CHANNELS - {recv}) ==>
              recv == 0 && xmit == 1
  {
    assert 0 in CHANNELS && 1 in CHANNELS;
    if recv >= 0 && xmit >= 0 && IsLeast(recv, CHANNELS) && IsLeast(xmit, CHANNELS - {recv}) {
      assert recv == 0 && 1 in CHANNELS - {recv};
    }
  }

  /**
   The outcome of an allocation is ignored: another user takes channel 0 after the snapshot, the
   device is set up with it all the same, and the shutdown takes it away from its owner.
   */
  method StolenChannel()
    returns (failed: bool, recv: int, irm: ResourceManager, ghost mineMeanwhile: set<nat>,
             ghost othersMeanwhile: set<nat>)
    ensures !failed && recv == 0
    ensures mineMeanwhile == {1} && othersMeanwhile == {0}
    ensures irm.mine == {} && irm.others == {}
  {
    var registers: Image :=
      map[XMIT_CHANNEL := 0, RECV_CHANNEL := 0, STATUS_LOW := 0, STATUS_HIGH := 0xc0, CONTROL := 0];
    var com := new RemoteNode(registers, {}, []);
    irm := new ResourceManager({}, [Served({}), Served({0})]);
    var xmit;
    ghost var seen;
    StolenViews(irm.Now());
    failed, recv, xmit, seen := InitialiseDevice(com, irm);
    assert seen == CHANNELS;
    FirstPair(recv, xmit);
    assert irm.Now() == View([], {0}, {1});
    mineMeanwhile, othersMeanwhile := irm.mine, irm.others;
    failed := Shutdown(com, irm, recv, xmit);
  }

  /** The search in the register as it stands, with the outcome in terms of the free channels. */
  method SearchFreeChannels(irm: ResourceManager) returns (recv: int, xmit: int)
    requires irm.Valid()
    ensures recv != -1 && xmit != -1 <==> TwoFree(irm.Free())
    ensures recv != -1 && xmit != -1 ==>
              recv >= 0 && xmit >= 0 && IsLeast(recv, irm.Free()) && IsLeast(xmit, irm.Free() - {recv})
  {
    RegisterRoundTrip(irm.Free());
    recv, xmit := FindTwoChannels(RegisterOf(irm.Free()));
    BothFoundIffTwoFree(irm.Free(), recv, xmit);
  }

  /**
   With nobody else active, the snapshot search and the library's read, claim, read, claim pick
   the same two channels, and each fails exactly when there are no two free channels.
   */
  method SamePair(phantom: PhantomSession.Phantom) returns (recv: int, xmit: int, r: Result<()>)
    requires phantom.Valid() && !phantom.started && phantom.irm.script == []
    modifies phantom, phantom.irm, phantom.device`script, phantom.device`log, phantom.device`memory
    ensures phantom.Valid()
    ensures phantom.started <==> TwoFree(old(phantom.irm.Free()))
    ensures phantom.started <==> recv != -1 && xmit != -1
    ensures phantom.started ==> recv == phantom.recvChannel.channel && xmit == phantom.xmitChannel.channel
  {
    ghost var free := phantom.irm.Free();
    recv, xmit := SearchFreeChannels(phantom.irm);
    r := phantom.AcquireChannels();
    if phantom.started {
      TwoLeast(free, phantom.recvChannel.channel, phantom.xmitChannel.channel);
      LeastPairIsUnique(free, recv, xmit, phantom.recvChannel.channel, phantom.xmitChannel.channel);
    }
  }
}
