/** Starting and stopping a Phantom: two isochronous channels, with rollback when the second is not to be had. */
module PhantomSession {
  import opened Words
  import opened Raw1394
  import opened Irm
  import opened PhantomIsoChannel

  /** The device's status is fine and neither its transactions nor the manager's fail for good. */
  ghost predicate InOrder(device: RemoteNode, irm: ResourceManager)
    reads device, irm
  {
    Clean(device.script) && HasRegisters(device.memory) && NoFailure(irm.script)
  }

  // ----- the calls, as functions of what is the case before

  datatype Pair = Pair(recv: nat, xmit: nat)

  /** What this process and the manager know, and the channels of the Phantom while it is started. */
  datatype Session = Session(manager: View, held: Option<Pair>)

  /** The nested try blocks of startPhantom; `stops` tells whether the stop of a rollback goes through. */
  ghost function Acquired(v: View, stops: bool): (View, Option<Pair>) {
    var recv := Created(v);
    if recv.1.None? then (recv.0, None)
    else
      var xmit := Created(recv.0);
      if xmit.1.Some? then (xmit.0, Some(Pair(recv.1.value, xmit.1.value)))
      else (if stops then Released(xmit.0, recv.1.value) else xmit.0, None)
  }

  /** startPhantom on a device with memory m whose coming transactions are as in the script. */
  ghost function AfterStart(s: Session, m: Image, script: seq<Status>): Session {
    if s.held.Some? then s
    else
      var (v, pair) := Acquired(s.manager, StopSucceeds(m, script));
      Session(v, pair)
  }

  function EnabledIn(m: Image): bool {
    CONTROL in m && IsoEnabled(m[CONTROL])
  }

  /** What is left of the script after n stops. */
  function ScriptAfterStops(script: seq<Status>, enabled: bool, n: nat): seq<Status> {
    if n == 0 then script else ScriptAfterStop(ScriptAfterStops(script, enabled, n - 1), enabled)
  }

  /** The first n of the stops of stopPhantom go through. */
  predicate StopsSucceed(m: Image, script: seq<Status>, n: nat) {
    n == 0 || (StopsSucceed(m, script, n - 1) && StopSucceeds(m, ScriptAfterStops(script, EnabledIn(m), n - 1)))
  }

  /** The two releases of stopPhantom, as far as it gets. */
  function GivenUp(v: View, pair: Pair, m: Image, script: seq<Status>): View {
    if StopsSucceed(m, script, 2) then Destroyed(v, pair, m, ScriptAfterStops(script, EnabledIn(m), 2)) else v
  }

  /** Destroying the receive channel and, if that goes through, the transmit channel. */
  function Destroyed(v: View, pair: Pair, m: Image, script: seq<Status>): View {
    if !StopSucceeds(m, script) then v
    else if IsServed(v.script) && StopsSucceed(m, script, 2) then Released(Released(v, pair.recv), pair.xmit)
    else Released(v, pair.recv)
  }

  /** stopPhantom */
  function AfterStopCall(s: Session, m: Image, script: seq<Status>): Session {
    if s.held.None? then s else Session(GivenUp(s.manager, s.held.value, m, script), None)
  }

  lemma FirstTwo(m: Image, script: seq<Status>)
    ensures var next := ScriptAfterStop(script, EnabledIn(m));
            && ScriptAfterStops(script, EnabledIn(m), 1) == next
            && ScriptAfterStops(script, EnabledIn(m), 2) == ScriptAfterStop(next, EnabledIn(m))
            && (StopsSucceed(m, script, 2) <==> StopSucceeds(m, script) && StopSucceeds(m, next))
  {
    assert ScriptAfterStops(script, EnabledIn(m), 0) == script;
    assert StopsSucceed(m, script, 1) <==> StopSucceeds(m, script);
  }

  /** A stop changes nothing that the next stop depends on. */
  lemma StopSucceedsAgain(m: Image, ignored: set<nat>, landed: bool, script: seq<Status>)
    requires CONTROL in m
    ensures var m' := AfterStop(m, ignored, landed);
            StopSucceeds(m', script) == StopSucceeds(m, script) && EnabledIn(m') == EnabledIn(m)
  {
    StopDoesNotDisable(m, ignored, landed);
  }

  class Phantom {
    const device: RemoteNode
    const irm: ResourceManager
    var started: bool
    var recvChannel: IsoChannel?
    var xmitChannel: IsoChannel?

    ghost predicate Valid()
      reads this, irm
    {
      && irm.Valid()
      && (started ==>
            && recvChannel != null && xmitChannel != null
            && recvChannel.device == xmitChannel.device == device && recvChannel.irm == xmitChannel.irm == irm
            && recvChannel.receiving && !xmitChannel.receiving
            && recvChannel.channel in irm.mine && xmitChannel.channel in irm.mine
            && recvChannel.channel != xmitChannel.channel)
    }

    /** The channels this Phantom holds. */
    ghost function Held(): set<nat>
      requires Valid()
      reads this, irm
    {
      if started then {recvChannel.channel, xmitChannel.channel} else {}
    }

    ghost function Now(): Session
      requires Valid()
      reads this, irm, recvChannel, xmitChannel
    {
      Session(irm.Now(), if started then Some(Pair(recvChannel.channel, xmitChannel.channel)) else None)
    }

    constructor (device: RemoteNode, irm: ResourceManager)
      requires irm.Valid()
      ensures Valid() && !started && this.device == device && this.irm == irm
    {
      this.device, this.irm, started, recvChannel, xmitChannel := device, irm, false, null, null;
    }

    /** The inner try block of startPhantom: the transmit channel, or the receive channel is given up. */
    method TransmitOrRollBack(recv: IsoChannel) returns (r: Result<IsoChannel>)
      requires irm.Valid() && recv.device == device && recv.irm == irm && recv.channel in irm.mine
      modifies irm, device`script, device`log, device`memory
      ensures irm.Valid()
      ensures r.Ok? ==> fresh(r.value) && r.value.device == device && r.value.irm == irm && !r.value.receiving
                        && r.value.channel !in old(irm.mine) && irm.mine == old(irm.mine) + {r.value.channel}
      ensures r.Ok? ==> device.memory == old(device.memory) && device.script == old(device.script)
      ensures r.Err? ==> irm.mine == old(irm.mine) || irm.mine == old(irm.mine) - {recv.channel}
      ensures old(InOrder(device, irm)) ==>
                && InOrder(device, irm)
                && (Healthy(device.memory) <==> Healthy(old(device.memory)))
                && (r.Err? ==>
                      irm.mine == if Healthy(old(device.memory)) then old(irm.mine) - {recv.channel} else old(irm.mine))
      ensures var (w, c) := Created(old(irm.Now()));
              if r.Ok? then irm.Now() == w && c == Some(r.value.channel)
              else c == None && irm.Now() == if StopSucceeds(old(device.memory), old(device.script))
                                             then Released(w, recv.channel) else w
      ensures StoppedOrNot(old(device.memory), device.memory, device.ignored)
      ensures old(irm.script) == [] && r.Ok? ==> irm.script == [] && IsLeast(r.value.channel, old(irm.Free()))
      ensures old(irm.script) == [] && r.Err? ==> old(irm.Free()) == {}
    {
      r := Create(device, irm, false);
      if r.Err? {
        var undone := recv.Destroy();
      }
    }

    /** The nested try blocks of startPhantom: both channels or, rolled back, none. */
    method AcquireChannels() returns (r: Result<()>)
      requires Valid() && !started
      modifies this, irm, device`script, device`log, device`memory
      ensures Valid() && (r.Ok? <==> started)
      ensures started ==> irm.mine == old(irm.mine) + Held() && Held() !! old(irm.mine)
      ensures started ==> device.memory == old(device.memory) && device.script == old(device.script)
      ensures !started ==>
                || irm.mine == old(irm.mine)
                || (recvChannel != null && irm.mine == old(irm.mine) + {recvChannel.channel})
      ensures old(InOrder(device, irm)) ==>
                && InOrder(device, irm)
                && (Healthy(device.memory) <==> Healthy(old(device.memory)))
                && (Healthy(old(device.memory)) && !started ==> irm.mine == old(irm.mine))
      ensures Now() == AfterStart(old(Now()), old(device.memory), old(device.script))
      ensures StoppedOrNot(old(device.memory), device.memory, device.ignored)
      ensures old(irm.script) == [] && started ==>
                && irm.script == []
                && IsLeast(recvChannel.channel, old(irm.Free()))
                && IsLeast(xmitChannel.channel, old(irm.Free()) - {recvChannel.channel})
      ensures old(irm.script) == [] && !started ==>
                forall c, d :: c in old(irm.Free()) && d in old(irm.Free()) ==> c == d
    {
      started := true;
      var recv := Create(device, irm, true);
      if recv.Err? {
        started := false;
        return Err;
      }
      recvChannel := recv.value;
      assert old(irm.script) == [] ==> irm.Free() == old(irm.Free()) - {recv.value.channel};
      var xmit := TransmitOrRollBack(recv.value);
      if xmit.Err? {
        started := false;
        return Err;
      }
      xmitChannel := xmit.value;
      return Ok(());
    }

    /**
     startPhantom. An exception out of a handshake leaves the Phantom started, with its two
     channels; one out of the acquisition leaves it stopped.
     */
    method StartPhantom() returns (r: Result<()>)
      requires Valid()
      modifies this, irm, device`script, device`log, device`memory
      ensures Valid()
      ensures old(started) ==> r.Err? && started && Held() == old(Held()) && irm.mine == old(irm.mine)
                               && device.memory == old(device.memory) && device.script == old(device.script)
                               && irm.script == old(irm.script)
      ensures r.Ok? ==> started && !old(started) && RECV_CHANNEL !in device.ignored
      ensures !old(started) && started ==> irm.mine == old(irm.mine) + Held() && Held() !! old(irm.mine)
      ensures !started ==>
                || irm.mine == old(irm.mine)
                || (recvChannel != null && irm.mine == old(irm.mine) + {recvChannel.channel})
      ensures old(InOrder(device, irm)) ==>
                && InOrder(device, irm)
                && (Healthy(device.memory) <==> Healthy(old(device.memory)))
                && (Healthy(old(device.memory)) && !started ==> irm.mine == old(irm.mine))
      ensures Now() == AfterStart(old(Now()), old(device.memory), old(device.script))
      ensures old(InOrder(device, irm)) && !old(started) && started ==>
                (r.Ok? <==> Healthy(old(device.memory))
                            && HandshakeSucceeds(old(device.memory), device.ignored, old(device.script),
                                                 recvChannel.channel))
      ensures !started ==> StoppedOrNot(old(device.memory), device.memory, device.ignored)
      ensures r.Ok? ==>
                && CONTROL in old(device.memory)
                && device.memory == AsTold(old(device.memory), recvChannel.channel, xmitChannel.channel,
                                           FatesOf(device.ignored, old(device.script),
                                                   IsoEnabled(old(device.memory)[CONTROL])))
      ensures r.Ok? && Prompt(old(device.script)) && XMIT_CHANNEL !in device.ignored && CONTROL !in device.ignored ==>
                device.memory == Configured(old(device.memory), recvChannel.channel, xmitChannel.channel)
      ensures !old(started) && old(irm.script) == [] ==>
                if started then IsLeast(recvChannel.channel, old(irm.Free()))
                                && IsLeast(xmitChannel.channel, old(irm.Free()) - {recvChannel.channel})
                else forall c, d :: c in old(irm.Free()) && d in old(irm.Free()) ==> c == d
    {
      if started {
        return Err;
      }
      r := AcquireChannels();
      if r.Err? {
        return;
      }
      r := StartBoth();
    }

    /** The end of startPhantom: the handshakes of both channels. */
    method StartBoth() returns (r: Result<()>)
      requires Valid() && started
      modifies device`script, device`log, device`memory
      ensures r.Ok? ==> RECV_CHANNEL !in device.ignored
      ensures Clean(old(device.script)) && HasRegisters(old(device.memory)) ==>
                && Clean(device.script) && HasRegisters(device.memory)
                && (Healthy(device.memory) <==> Healthy(old(device.memory)))
                && (r.Ok? <==> Healthy(old(device.memory))
                               && HandshakeSucceeds(old(device.memory), device.ignored, old(device.script),
                                                    recvChannel.channel))
      ensures r.Ok? ==>
                && CONTROL in old(device.memory)
                && device.memory == AsTold(old(device.memory), recvChannel.channel, xmitChannel.channel,
                                           FatesOf(device.ignored, old(device.script),
                                                   IsoEnabled(old(device.memory)[CONTROL])))
      ensures r.Ok? && Prompt(old(device.script)) && XMIT_CHANNEL !in device.ignored && CONTROL !in device.ignored ==>
                device.memory == Configured(old(device.memory), recvChannel.channel, xmitChannel.channel)
    {
      ghost var m, script := device.memory, device.script;
      r := recvChannel.Start();
      if r.Err? {
        return;
      }
      r := xmitChannel.Start();
      if r.Ok? {
        ToldInTwoSteps(m, device.ignored, script, recvChannel.channel, xmitChannel.channel);
        if Prompt(script) && XMIT_CHANNEL !in device.ignored && CONTROL !in device.ignored {
          PromptFates(device.ignored, script, IsoEnabled(m[CONTROL]));
          ConfiguredIffAllLanded(m, recvChannel.channel, xmitChannel.channel,
                                 FatesOf(device.ignored, script, IsoEnabled(m[CONTROL])));
        }
      }
    }

    /** stopPhantom */
    method StopPhantom() returns (r: Result<()>)
      requires Valid()
      modifies this, irm, device`script, device`log, device`memory
      ensures Valid() && !started
      ensures Now() == AfterStopCall(old(Now()), old(device.memory), old(device.script))
      ensures !old(started) ==> r.Ok? && irm.mine == old(irm.mine) && device.memory == old(device.memory)
      ensures old(started) && r.Ok? ==>
                && CONTROL in old(device.memory)
                && device.memory == AfterStop(old(device.memory), device.ignored,
                                              SomeStopLands(old(device.script),
                                                            IsoEnabled(old(device.memory)[CONTROL])))
      ensures old(started) && r.Ok? && Prompt(old(device.script)) ==>
                device.memory == AfterStop(old(device.memory), device.ignored, true)
      ensures old(started) ==>
                && (irm.mine == old(irm.mine) || irm.mine == old(irm.mine) - {old(recvChannel).channel}
                    || irm.mine == old(irm.mine) - old(Held()))
                && (r.Ok? <==> irm.mine == old(irm.mine) - old(Held()))
      ensures StoppedOrNot(old(device.memory), device.memory, device.ignored)
      ensures old(InOrder(device, irm)) ==>
                && InOrder(device, irm)
                && (Healthy(device.memory) <==> Healthy(old(device.memory)))
      ensures old(InOrder(device, irm)) && old(started) ==>
                && (r.Ok? <==> Healthy(old(device.memory)))
                && irm.mine == if Healthy(old(device.memory)) then old(irm.mine) - old(Held()) else old(irm.mine)
    {
      if !started {
        return Ok(());
      }
      started := false;
      ghost var m, script := device.memory, device.script;
      r := StopBoth(recvChannel, xmitChannel);
      if r.Err? {
        return;
      }
      ghost var m', script' := device.memory, device.script;
      StopsKeep(m, device.ignored, TwoStopsLand(script, EnabledIn(m)), script');
      r := DestroyBoth(recvChannel, xmitChannel);
      StopTwice(m, m', device.memory, device.ignored);
      if r.Ok? {
        StopAgain(m, device.ignored, TwoStopsLand(script, EnabledIn(m)), TwoStopsLand(script', EnabledIn(m)));
        LandsInTwoParts(script, EnabledIn(m));
        ChecksKeep(script);
      }
    }

    /** The two calls of stop in stopPhantom. */
    method StopBoth(recv: IsoChannel, xmit: IsoChannel) returns (r: Result<()>)
      requires recv.device == xmit.device == device
      modifies device`script, device`log, device`memory
      ensures r.Ok? <==> StopsSucceed(old(device.memory), old(device.script), 2)
      ensures r.Ok? ==>
                var enabled := EnabledIn(old(device.memory));
                && CONTROL in old(device.memory)
                && device.memory == AfterStop(old(device.memory), device.ignored,
                                              TwoStopsLand(old(device.script), enabled))
                && device.script == ScriptAfterStops(old(device.script), enabled, 2)
      ensures StoppedOrNot(old(device.memory), device.memory, device.ignored)
      ensures Clean(old(device.script)) && HasRegisters(old(device.memory)) ==>
                && Clean(device.script) && HasRegisters(device.memory)
                && (Healthy(device.memory) <==> Healthy(old(device.memory)))
                && (r.Ok? <==> Healthy(old(device.memory)))
    {
      ghost var m, script := device.memory, device.script;
      FirstTwo(m, script);
      r := recv.Stop();
      if r.Err? {
        return;
      }
      ghost var m', script' := device.memory, device.script;
      ghost var first := Answered(AfterChecks(script));
      StopSucceedsAgain(m, device.ignored, first, script');
      r := xmit.Stop();
      StopTwice(m, m', device.memory, device.ignored);
      StopAgain(m, device.ignored, first, Answered(AfterChecks(script')));
    }

    /** The two deletions in stopPhantom. */
    method DestroyBoth(recv: IsoChannel, xmit: IsoChannel) returns (r: Result<()>)
      requires irm.Valid() && recv.device == xmit.device == device && recv.irm == xmit.irm == irm
      requires recv.channel in irm.mine && xmit.channel in irm.mine && recv.channel != xmit.channel
      modifies irm, device`script, device`log, device`memory
      ensures irm.Valid()
      ensures irm.Now() == Destroyed(old(irm.Now()), Pair(recv.channel, xmit.channel), old(device.memory),
                                     old(device.script))
      ensures irm.mine == old(irm.mine) || irm.mine == old(irm.mine) - {recv.channel}
              || irm.mine == old(irm.mine) - {recv.channel, xmit.channel}
      ensures r.Ok? <==> irm.mine == old(irm.mine) - {recv.channel, xmit.channel}
      ensures r.Ok? ==>
                && CONTROL in old(device.memory)
                && device.memory == AfterStop(old(device.memory), device.ignored,
                                              TwoStopsLand(old(device.script), EnabledIn(old(device.memory))))
      ensures StoppedOrNot(old(device.memory), device.memory, device.ignored)
      ensures old(InOrder(device, irm)) ==>
                && InOrder(device, irm)
                && (Healthy(device.memory) <==> Healthy(old(device.memory)))
                && (r.Ok? <==> Healthy(old(device.memory)))
                && (Healthy(old(device.memory)) || irm.mine == old(irm.mine))
    {
      ghost var m, script := device.memory, device.script;
      FirstTwo(m, script);
      r := recv.Destroy();
      if r.Err? {
        return;
      }
      ghost var m', script' := device.memory, device.script;
      ghost var first := Answered(AfterChecks(script));
      StopSucceedsAgain(m, device.ignored, first, script');
      r := xmit.Destroy();
      StopTwice(m, m', device.memory, device.ignored);
      StopAgain(m, device.ignored, first, Answered(AfterChecks(script')));
    }
  }

  // ----- the registers after start and stop

  /** Which of the writes of startPhantom take effect; for the two attempts to enable, whether one does. */
  datatype Fates = Fates(recv: bool, xmit: bool, enable: bool)

  function FatesOf(ignored: set<nat>, script: seq<Status>, enabled: bool): Fates {
    var rest := ScriptAfterStart(script, true, enabled);
    var first := Answered(BeforeEnable(script, true)) && CONTROL !in ignored;
    var second := Answered(BeforeEnable(rest, false)) && CONTROL !in ignored;
    Fates(Told(script, true), Told(rest, false) && XMIT_CHANNEL !in ignored, enabled || first || second)
  }

  /** The receive register holds the channel or 0x40, the transmit register the channel or what it held. */
  function AsTold(m: Image, recv: byte, xmit: byte, fates: Fates): Image
    requires CONTROL in m
  {
    var told := m[RECV_CHANNEL := if fates.recv then recv else PROBE];
    var both := if fates.xmit then told[XMIT_CHANNEL := xmit] else told;
    both[CONTROL := if fates.enable then WithEnable(m[CONTROL]) else m[CONTROL]]
  }

  lemma ToldInTwoSteps(m: Image, ignored: set<nat>, script: seq<Status>, recv: byte, xmit: byte)
    requires CONTROL in m
    ensures var m' := Started(m, ignored, script, true, recv);
            var rest := ScriptAfterStart(script, true, IsoEnabled(m[CONTROL]));
            && CONTROL in m'
            && Started(m', ignored, rest, false, xmit) ==
                  AsTold(m, recv, xmit, FatesOf(ignored, script, IsoEnabled(m[CONTROL])))
  {
    EnableMasks(m[CONTROL]);
  }

  /** A device that has been told its channels and whose iso transfers are enabled; all else is as in m. */
  function Configured(m: Image, recv: byte, xmit: byte): Image
    requires CONTROL in m
  {
    m[RECV_CHANNEL := recv][XMIT_CHANNEL := xmit][CONTROL := WithEnable(m[CONTROL])]
  }

  /** The device is configured if and only if every write that was needed took effect. */
  lemma ConfiguredIffAllLanded(m: Image, recv: byte, xmit: byte, fates: Fates)
    requires CONTROL in m && recv != PROBE && (IsoEnabled(m[CONTROL]) ==> fates.enable)
    ensures AsTold(m, recv, xmit, fates) == Configured(m, recv, xmit) <==>
            fates.recv && (fates.xmit || (XMIT_CHANNEL in m && m[XMIT_CHANNEL] == xmit)) && fates.enable
  {
    EnableMasks(m[CONTROL]);
    var told, goal := AsTold(m, recv, xmit, fates), Configured(m, recv, xmit);
    assert told[RECV_CHANNEL] == goal[RECV_CHANNEL] <==> fates.recv;
    assert told[CONTROL] == goal[CONTROL] <==> fates.enable;
    assert goal[XMIT_CHANNEL] == xmit;
    assert XMIT_CHANNEL in told <==> fates.xmit || XMIT_CHANNEL in m;
    if fates.recv && (fates.xmit || (XMIT_CHANNEL in m && m[XMIT_CHANNEL] == xmit)) && fates.enable {
      assert told == goal;
    }
  }

  /** Without EAGAIN every write lands. */
  lemma PromptFates(ignored: set<nat>, script: seq<Status>, enabled: bool)
    requires Prompt(script) && XMIT_CHANNEL !in ignored && CONTROL !in ignored
    ensures FatesOf(ignored, script, enabled) == Fates(true, true, true)
  {
    PromptHandshake(map[], ignored, script, 0);
    TailKeeps(BeforeFinalWrite(script));
    ChecksKeep(Tail(BeforeFinalWrite(script)));
    TailKeeps(BeforeEnable(script, true));
    TailKeeps(ScriptAfterStart(script, true, enabled));
  }

  /** The write of the n-th stop of a series gets through. */
  predicate StopLands(script: seq<Status>, enabled: bool, n: nat) {
    Answered(AfterChecks(ScriptAfterStops(script, enabled, n)))
  }

  predicate TwoStopsLand(script: seq<Status>, enabled: bool) {
    StopLands(script, enabled, 0) || StopLands(script, enabled, 1)
  }

  /** One of the four stops of stopPhantom gets its write through. */
  predicate SomeStopLands(script: seq<Status>, enabled: bool) {
    || StopLands(script, enabled, 0) || StopLands(script, enabled, 1)
    || StopLands(script, enabled, 2) || StopLands(script, enabled, 3)
  }

  lemma {:induction false} StopsJoin(script: seq<Status>, enabled: bool, n: nat, k: nat)
    ensures ScriptAfterStops(ScriptAfterStops(script, enabled, n), enabled, k) ==
              ScriptAfterStops(script, enabled, n + k)
  {
    if k > 0 {
      StopsJoin(script, enabled, n, k - 1);
    }
  }

  lemma LandsInTwoParts(script: seq<Status>, enabled: bool)
    ensures SomeStopLands(script, enabled) <==>
            TwoStopsLand(script, enabled) || TwoStopsLand(ScriptAfterStops(script, enabled, 2), enabled)
  {
    StopsJoin(script, enabled, 2, 0);
    StopsJoin(script, enabled, 2, 1);
  }

  /** Whether the stops that follow go through does not depend on what the earlier ones have written. */
  lemma StopsKeep(m: Image, ignored: set<nat>, landed: bool, script: seq<Status>)
    requires CONTROL in m
    ensures var m' := AfterStop(m, ignored, landed);
            && EnabledIn(m') == EnabledIn(m)
            && StopSucceeds(m', script) == StopSucceeds(m, script)
            && StopsSucceed(m', script, 2) == StopsSucceed(m, script, 2)
  {
    var m' := AfterStop(m, ignored, landed);
    StopSucceedsAgain(m, ignored, landed, script);
    StopSucceedsAgain(m, ignored, landed, ScriptAfterStops(script, EnabledIn(m), 1));
    assert StopsSucceed(m', script, 1) == StopsSucceed(m, script, 1);
  }
}
