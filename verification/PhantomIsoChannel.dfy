/** An isochronous channel to a Phantom: its claim on a channel number and the register handshake. */
module PhantomIsoChannel {
  import opened Words
  import opened Raw1394
  import opened IrmRegister
  import opened Irm

  const XMIT_CHANNEL := 0x1000
  const RECV_CHANNEL := 0x1001
  const STATUS_LOW := 0x1082
  const STATUS_HIGH := 0x1083
  const CONTROL := 0x1087
  const PROBE: byte := 0x40

  /** The device has the registers of a Phantom. */
  predicate HasRegisters(m: Image) {
    XMIT_CHANNEL in m && RECV_CHANNEL in m && STATUS_LOW in m && STATUS_HIGH in m && CONTROL in m
  }

  /** What both start and stop insist on. */
  predicate Healthy(m: Image) {
    STATUS_HIGH in m && m[STATUS_HIGH] == 0xc0 && STATUS_LOW in m && m[STATUS_LOW] == 0
  }

  // Bit 3 of the control register, and what |, & and & ~ with it make of a register value.

  predicate IsoEnabled(c: byte) { c / 8 % 2 == 1 }
  function WithEnable(c: byte): byte { if IsoEnabled(c) then c else c + 8 }
  function OnlyEnable(c: byte): byte { if IsoEnabled(c) then 8 else 0 }
  function WithoutEnable(c: byte): byte { if IsoEnabled(c) then c - 8 else c }

  /** The three masks set, keep and clear bit 3; setting and clearing leave every other bit alone. */
  lemma EnableMasks(c: byte)
    ensures IsoEnabled(WithEnable(c)) && !IsoEnabled(WithoutEnable(c)) && (IsoEnabled(OnlyEnable(c)) <==> IsoEnabled(c))
    ensures c / 16 == WithEnable(c) / 16 == WithoutEnable(c) / 16 && c % 8 == WithEnable(c) % 8 == WithoutEnable(c) % 8
    ensures OnlyEnable(c) / 16 == 0 && OnlyEnable(c) % 8 == 0
    ensures WithoutEnable(WithEnable(c)) == WithoutEnable(c)
  {
    var high, bit, low := c / 16, c / 8 % 2, c % 8;
    assert c == 16 * high + 8 * bit + low;
  }

  /** A register write as the device carries it out. */
  function Written(m: Image, ignored: set<nat>, landed: bool, a: nat, c: byte): Image {
    if landed && a !in ignored then m[a := c] else m
  }

  /** The end of start: iso transfers get enabled unless they are already. */
  function AfterEnable(m: Image, ignored: set<nat>, landed: bool): Image
    requires CONTROL in m
  {
    if IsoEnabled(m[CONTROL]) then m else Written(m, ignored, landed, CONTROL, WithEnable(m[CONTROL]))
  }

  /** The end of stop as written: the mask is the enable bit itself, not its complement. */
  function AfterStop(m: Image, ignored: set<nat>, landed: bool): Image
    requires CONTROL in m
  {
    if IsoEnabled(m[CONTROL]) then Written(m, ignored, landed, CONTROL, OnlyEnable(m[CONTROL])) else m
  }

  /** stop leaves iso transfers enabled exactly when they were, whatever becomes of its write. */
  lemma StopDoesNotDisable(m: Image, ignored: set<nat>, landed: bool)
    requires CONTROL in m
    ensures CONTROL in AfterStop(m, ignored, landed)
    ensures !IsoEnabled(AfterStop(m, ignored, landed)[CONTROL]) <==> !IsoEnabled(m[CONTROL])
  {
    EnableMasks(m[CONTROL]);
  }

  /** Nothing happened to the device, or one stop. */
  predicate StoppedOrNot(before: Image, after: Image, ignored: set<nat>) {
    after == before || (CONTROL in before && after == AfterStop(before, ignored, true))
  }

  /** Stopping again changes nothing more. */
  lemma StopTwice(m: Image, m': Image, m'': Image, ignored: set<nat>)
    requires StoppedOrNot(m, m', ignored) && StoppedOrNot(m', m'', ignored)
    ensures StoppedOrNot(m, m'', ignored)
  {
    if CONTROL in m {
      EnableMasks(m[CONTROL]);
      assert m[CONTROL := OnlyEnable(m[CONTROL])][CONTROL := 8] == m[CONTROL := 8];
    }
  }

  /** Two stops have the effect of one, of which the write lands if one of the two lands. */
  lemma StopAgain(m: Image, ignored: set<nat>, first: bool, second: bool)
    requires CONTROL in m
    ensures var m' := AfterStop(m, ignored, first);
            CONTROL in m' && AfterStop(m', ignored, second) == AfterStop(m, ignored, first || second)
  {
    EnableMasks(m[CONTROL]);
    assert m[CONTROL := OnlyEnable(m[CONTROL])][CONTROL := 8] == m[CONTROL := 8];
  }

  // ----- the fate of each transaction, read off the script before the call

  /** What is left of the script when the last write of the receive handshake is due. */
  function BeforeFinalWrite(script: seq<Status>): seq<Status> {
    AfterRead(Tail(AfterRead(Tail(script))))
  }

  /**
   The receive handshake gets through. Its first write may be dropped if the register holds the
   channel already, the probe may not, and what becomes of the last write makes no difference
   unless it fails.
   */
  predicate HandshakeSucceeds(m: Image, ignored: set<nat>, script: seq<Status>, channel: nat) {
    var probe := AfterRead(Tail(script));
    && RECV_CHANNEL in m && RECV_CHANNEL !in ignored
    && !Refused(script) && (Answered(script) || m[RECV_CHANNEL] == channel) && !ReadRefused(Tail(script))
    && Answered(probe) && !ReadRefused(Tail(probe))
    && !Refused(BeforeFinalWrite(script))
  }

  /** Whether start's last write to the channel register lands. */
  predicate Told(script: seq<Status>, receiving: bool) {
    Answered(if receiving then BeforeFinalWrite(script) else script)
  }

  /** What is left of the script after three register reads: those of the status and of the control register. */
  function AfterChecks(script: seq<Status>): seq<Status> {
    AfterRead(AfterRead(AfterRead(script)))
  }

  /** What is left when start is about to write the control register. */
  function BeforeEnable(script: seq<Status>, receiving: bool): seq<Status> {
    AfterChecks(Tail(if receiving then BeforeFinalWrite(script) else script))
  }

  function ScriptAfterStart(script: seq<Status>, receiving: bool, enabled: bool): seq<Status> {
    if enabled then BeforeEnable(script, receiving) else Tail(BeforeEnable(script, receiving))
  }

  /** The memory when start returns normally. */
  function Started(m: Image, ignored: set<nat>, script: seq<Status>, receiving: bool, channel: byte): Image
    requires CONTROL in m
  {
    var told := if receiving then m[RECV_CHANNEL := if Told(script, true) then channel else PROBE]
                else Written(m, ignored, Told(script, false), XMIT_CHANNEL, channel);
    AfterEnable(told, ignored, Answered(BeforeEnable(script, receiving)))
  }

  /** The status is fine, and it and the control register can be read. */
  predicate ChecksPass(m: Image, script: seq<Status>) {
    && Healthy(m) && CONTROL in m
    && !ReadRefused(script) && !ReadRefused(AfterRead(script)) && !ReadRefused(AfterRead(AfterRead(script)))
  }

  predicate StopSucceeds(m: Image, script: seq<Status>) {
    ChecksPass(m, script) && (IsoEnabled(m[CONTROL]) ==> !Refused(AfterChecks(script)))
  }

  /** start tells the device its channel, checks it and enables iso transfers, each without an error. */
  predicate StartSucceeds(m: Image, ignored: set<nat>, script: seq<Status>, receiving: bool, channel: nat) {
    && (if receiving then HandshakeSucceeds(m, ignored, script, channel)
        else !Refused(script) && (Answered(script) ==> XMIT_CHANNEL in m))
    && ChecksPass(m, Tail(if receiving then BeforeFinalWrite(script) else script))
    && (!IsoEnabled(m[CONTROL]) ==> !Refused(BeforeEnable(script, receiving)))
  }

  function ScriptAfterStop(script: seq<Status>, enabled: bool): seq<Status> {
    if enabled then Tail(AfterChecks(script)) else AfterChecks(script)
  }

  lemma ChecksKeep(script: seq<Status>)
    ensures Clean(script) ==> Clean(AfterChecks(script))
    ensures Prompt(script) ==> Prompt(AfterChecks(script)) && Answered(AfterChecks(script))
  {
    AfterReadKeeps(script);
    AfterReadKeeps(AfterRead(script));
    AfterReadKeeps(AfterRead(AfterRead(script)));
    TailKeeps(AfterChecks(script));
  }

  /** Without EAGAIN the handshake of a listening device succeeds and its last write lands. */
  lemma PromptHandshake(m: Image, ignored: set<nat>, script: seq<Status>, channel: nat)
    requires Prompt(script)
    ensures HandshakeSucceeds(m, ignored, script, channel) <==> RECV_CHANNEL in m && RECV_CHANNEL !in ignored
    ensures Answered(BeforeFinalWrite(script)) && Prompt(BeforeFinalWrite(script))
  {
    PromptIsClean(script);
    TailKeeps(script);
    AfterReadKeeps(Tail(script));
    var probe := AfterRead(Tail(script));
    TailKeeps(probe);
    AfterReadKeeps(Tail(probe));
    TailKeeps(BeforeFinalWrite(script));
  }

  class IsoChannel {
    const device: RemoteNode
    const irm: ResourceManager
    const receiving: bool
    const channel: nat

    constructor (device: RemoteNode, irm: ResourceManager, receiving: bool, channel: nat)
      ensures this.device == device && this.irm == irm && this.receiving == receiving && this.channel == channel
    {
      this.device, this.irm, this.receiving, this.channel := device, irm, receiving, channel;
    }

    /** The status registers are read and compared in the same way by start and stop. */
    method CheckStatus() returns (r: Result<()>)
      modifies device`script, device`log
      ensures r.Ok? <==>
                && Healthy(device.memory)
                && !ReadRefused(old(device.script)) && !ReadRefused(AfterRead(old(device.script)))
      ensures r.Ok? ==> device.script == AfterRead(AfterRead(old(device.script)))
      ensures Clean(old(device.script)) && HasRegisters(device.memory) ==> (r.Ok? <==> Healthy(device.memory))
      ensures (Clean(old(device.script)) ==> Clean(device.script))
                && (Prompt(old(device.script)) ==> Prompt(device.script))
    {
      AfterReadKeeps(device.script);
      AfterReadKeeps(AfterRead(device.script));
      var c := device.ReadByte(STATUS_HIGH);
      if c.Err? || c.value != 0xc0 {
        return Err;
      }
      c := device.ReadByte(STATUS_LOW);
      if c.Err? || c.value != 0 {
        return Err;
      }
      return Ok(());
    }

    /**
     The part of start that tells the device its receive channel: write and read back, probe the
     register with 0x40, write again. It leaves the channel in the register if and only if the
     last write is answered at once; an EAGAIN there leaves 0x40.
     */
    method SetReceiveChannel() returns (r: Result<()>)
      requires channel in CHANNELS
      modifies device`script, device`log, device`memory
      ensures r.Ok? <==> HandshakeSucceeds(old(device.memory), device.ignored, old(device.script), channel)
      ensures r.Ok? ==> device.memory ==
                        old(device.memory)[RECV_CHANNEL :=
                          if Answered(BeforeFinalWrite(old(device.script))) then channel else PROBE]
      ensures r.Ok? ==> (device.memory[RECV_CHANNEL] == channel <==> Answered(BeforeFinalWrite(old(device.script))))
      ensures r.Ok? ==> device.script == Tail(BeforeFinalWrite(old(device.script)))
      ensures forall a :: a != RECV_CHANNEL ==> (a in device.memory <==> a in old(device.memory))
                                                && (a in device.memory ==> device.memory[a] == old(device.memory)[a])
      ensures RECV_CHANNEL in old(device.memory) ==> RECV_CHANNEL in device.memory
      ensures RECV_CHANNEL in device.ignored ==> r.Err?
      ensures (Clean(old(device.script)) ==> Clean(device.script))
                && (Prompt(old(device.script)) ==> Prompt(device.script))
    {
      var done;
      ghost var landed;
      done, landed := device.WriteByte(RECV_CHANNEL, channel);
      if done.Err? {
        return Err;
      }
      AfterReadKeeps(device.script);
      var c := device.ReadByte(RECV_CHANNEL);
      if c.Err? || c.value != channel {
        return Err;
      }
      done, landed := device.WriteByte(RECV_CHANNEL, PROBE);
      if done.Err? {
        return Err;
      }
      AfterReadKeeps(device.script);
      c := device.ReadByte(RECV_CHANNEL);
      if c.Err? || c.value != PROBE {
        return Err;
      }
      r, landed := device.WriteByte(RECV_CHANNEL, channel);
    }

    /** The end of start. */
    method EnableIso() returns (r: Result<()>)
      modifies device`script, device`log, device`memory
      ensures r.Ok? ==> CONTROL in old(device.memory)
                        && device.memory == AfterEnable(old(device.memory), device.ignored,
                                                        Answered(AfterRead(old(device.script))))
      ensures r.Ok? ==> device.script == if IsoEnabled(old(device.memory)[CONTROL]) then AfterRead(old(device.script))
                                         else Tail(AfterRead(old(device.script)))
      ensures r.Err? ==> device.memory == old(device.memory)
      ensures r.Ok? <==>
                && CONTROL in old(device.memory) && !ReadRefused(old(device.script))
                && (!IsoEnabled(old(device.memory)[CONTROL]) ==> !Refused(AfterRead(old(device.script))))
      ensures Clean(old(device.script)) && CONTROL in old(device.memory) ==> r.Ok?
      ensures (Clean(old(device.script)) ==> Clean(device.script))
                && (Prompt(old(device.script)) ==> Prompt(device.script))
    {
      AfterReadKeeps(device.script);
      var c := device.ReadByte(CONTROL);
      if c.Err? {
        return Err;
      }
      r := Ok(());
      if !IsoEnabled(c.value) {
        ghost var landed;
        r, landed := device.WriteByte(CONTROL, WithEnable(c.value));
      }
    }

    /**
     start. When it returns normally, the memory is known: each of its writes has been carried
     out exactly if it was answered at once.
     */
    method Start() returns (r: Result<()>)
      requires channel in CHANNELS
      modifies device`script, device`log, device`memory
      ensures r.Ok? <==> StartSucceeds(old(device.memory), device.ignored, old(device.script), receiving, channel)
      ensures r.Ok? ==> Healthy(old(device.memory)) && CONTROL in old(device.memory)
      ensures r.Ok? ==>
                device.memory == Started(old(device.memory), device.ignored, old(device.script), receiving, channel)
      ensures r.Ok? ==>
                device.script ==
                ScriptAfterStart(old(device.script), receiving, IsoEnabled(old(device.memory)[CONTROL]))
      ensures receiving && RECV_CHANNEL in device.ignored ==> r.Err?
      ensures r.Ok? && receiving ==> HandshakeSucceeds(old(device.memory), device.ignored, old(device.script), channel)
      ensures r.Ok? && receiving ==> (device.memory[RECV_CHANNEL] == channel <==> Told(old(device.script), true))
      ensures Clean(old(device.script)) && HasRegisters(old(device.memory)) ==>
                (r.Ok? <==> Healthy(old(device.memory))
                            && (receiving ==>
                                  HandshakeSucceeds(old(device.memory), device.ignored, old(device.script), channel)))
      ensures forall a :: a !in {RECV_CHANNEL, XMIT_CHANNEL, CONTROL} ==>
                (a in device.memory <==> a in old(device.memory))
                && (a in device.memory ==> device.memory[a] == old(device.memory)[a])
      ensures HasRegisters(old(device.memory)) ==> HasRegisters(device.memory)
      ensures (Clean(old(device.script)) ==> Clean(device.script))
                && (Prompt(old(device.script)) ==> Prompt(device.script))
    {
      if receiving {
        r := SetReceiveChannel();
      } else {
        ghost var landed;
        r, landed := device.WriteByte(XMIT_CHANNEL, channel);
      }
      if r.Err? {
        return;
      }
      r := CheckStatus();
      if r.Err? {
        return;
      }
      r := EnableIso();
    }

    /** stop */
    method Stop() returns (r: Result<()>)
      modifies device`script, device`log, device`memory
      ensures r.Ok? <==> StopSucceeds(old(device.memory), old(device.script))
      ensures r.Ok? ==>
                device.memory ==
                AfterStop(old(device.memory), device.ignored, Answered(AfterChecks(old(device.script))))
      ensures r.Ok? ==> device.script == ScriptAfterStop(old(device.script), IsoEnabled(old(device.memory)[CONTROL]))
      ensures r.Err? ==> device.memory == old(device.memory)
      ensures Clean(old(device.script)) && HasRegisters(old(device.memory)) ==>
                (r.Ok? <==> Healthy(old(device.memory))) && HasRegisters(device.memory)
                && (Healthy(device.memory) <==> Healthy(old(device.memory)))
      ensures (Clean(old(device.script)) ==> Clean(device.script))
                && (Prompt(old(device.script)) ==> Prompt(device.script))
    {
      AfterReadKeeps(AfterRead(AfterRead(device.script)));
      r := CheckStatus();
      if r.Err? {
        return;
      }
      var c := device.ReadByte(CONTROL);
      if c.Err? {
        return Err;
      }
      if IsoEnabled(c.value) {
        ghost var landed;
        r, landed := device.WriteByte(CONTROL, OnlyEnable(c.value));
      }
    }

    /**
     The destructor: stops, then gives the channel back. If stop throws, the channel stays
     allocated.
     */
    method Destroy() returns (r: Result<()>)
      requires irm.Valid() && channel in irm.mine
      modifies device`script, device`log, device`memory, irm
      ensures irm.Valid()
      ensures irm.mine == if r.Ok? then old(irm.mine) - {channel} else old(irm.mine)
      ensures StoppedOrNot(old(device.memory), device.memory, device.ignored)
      ensures r.Ok? ==> StopSucceeds(old(device.memory), old(device.script))
      ensures r.Ok? ==>
                device.memory ==
                AfterStop(old(device.memory), device.ignored, Answered(AfterChecks(old(device.script))))
      ensures r.Ok? ==> device.script == ScriptAfterStop(old(device.script), IsoEnabled(old(device.memory)[CONTROL]))
      ensures Clean(old(device.script)) && HasRegisters(old(device.memory)) ==>
                && HasRegisters(device.memory) && Clean(device.script)
                && (Healthy(device.memory) <==> Healthy(old(device.memory)))
      ensures NoFailure(old(irm.script)) ==> NoFailure(irm.script)
      ensures r.Ok? <==> StopSucceeds(old(device.memory), old(device.script)) && IsServed(old(irm.script))
      ensures irm.Now() == if StopSucceeds(old(device.memory), old(device.script))
                           then Released(old(irm.Now()), channel)
                           else old(irm.Now())
      ensures NoFailure(old(irm.script)) ==> (r.Ok? <==> StopSucceeds(old(device.memory), old(device.script)))
      ensures Clean(old(device.script)) && HasRegisters(old(device.memory)) && NoFailure(old(irm.script)) ==>
                (r.Ok? <==> Healthy(old(device.memory)))
    {
      r := Stop();
      if r.Err? {
        return;
      }
      r := irm.Release(channel);
    }
  }

  /** new PhantomIsoChannel: finds a channel and claims it. Err stands for an exception. */
  method Create(device: RemoteNode, irm: ResourceManager, receiving: bool) returns (r: Result<IsoChannel>)
    requires irm.Valid()
    modifies irm
    ensures irm.Valid() && (NoFailure(old(irm.script)) ==> NoFailure(irm.script))
    ensures irm.Now() == Created(old(irm.Now())).0
    ensures if r.Ok? then Created(old(irm.Now())).1 == Some(r.value.channel) else Created(old(irm.Now())).1 == None
    ensures r.Ok? ==>
              && fresh(r.value) && r.value.device == device && r.value.irm == irm && r.value.receiving == receiving
              && r.value.channel in CHANNELS && r.value.channel !in old(irm.mine)
              && irm.mine == old(irm.mine) + {r.value.channel}
    ensures r.Err? ==> irm.mine == old(irm.mine)
    ensures old(irm.script) == [] ==>
              && irm.script == [] && irm.others == old(irm.others)
              && (r.Err? <==> old(irm.Free()) == {}) && (r.Ok? ==> IsLeast(r.value.channel, old(irm.Free())))
  {
    ghost var start := irm.Now();
    CreatedIsLeast(start);
    var channel := irm.GetFreeChannel();
    if channel.Err? {
      return Err;
    }
    LeastIsUnique(Seen(start));
    assert channel.value == LeastOf(Seen(start));
    var claimed := irm.Claim(channel.value);
    if claimed.Err? {
      return Err;
    }
    var iso := new IsoChannel(device, irm, receiving, channel.value);
    return Ok(iso);
  }

  /**
   An EAGAIN on the last write of the handshake goes unnoticed: start returns normally and the
   receive register holds 0x40 instead of the channel.
   */
  method DroppedFinalWrite(channel: byte) returns (r: Result<()>, device: RemoteNode)
    requires channel in CHANNELS
    ensures r.Ok? && RECV_CHANNEL in device.memory && device.memory[RECV_CHANNEL] == PROBE != channel
  {
    var registers: Image :=
      map[XMIT_CHANNEL := 0, RECV_CHANNEL := 0, STATUS_LOW := 0, STATUS_HIGH := 0xc0, CONTROL := 0];
    device := new RemoteNode(registers, {}, [Done, Done, Done, Done, Again]);
    FinalWriteLeft();
    assert Clean(device.script);
    var irm := new ResourceManager({}, []);
    var iso := new IsoChannel(device, irm, true, channel);
    r := iso.Start();
  }

  lemma FinalWriteLeft()
    ensures var script := [Done, Done, Done, Done, Again];
            && AfterRead(Tail(script)) == script[2..] && BeforeFinalWrite(script) == script[4..]
  {
    var script := [Done, Done, Done, Done, Again];
    assert Tail(script) == script[1..] && AfterRead(script[1..]) == script[2..];
    assert Tail(script[2..]) == script[3..] && AfterRead(script[3..]) == script[4..];
  }
}
