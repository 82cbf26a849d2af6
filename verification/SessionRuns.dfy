/** Every sequence of startPhantom and stopPhantom calls, and exactly which of them lose channels. */
module SessionRuns {
  import opened Words
  import opened Raw1394
  import opened IrmRegister
  import opened Irm
  import opened PhantomIsoChannel
  import opened PhantomSession

  datatype Call = Start | Stop

  /** A call, what the registers of the device are just before it, and the fate of its transactions. */
  datatype Moment = Moment(call: Call, registers: Image, script: seq<Status>)

  ghost function Step(s: Session, m: Moment): Session {
    match m.call
    case Start => AfterStart(s, m.registers, m.script)
    case Stop => AfterStopCall(s, m.registers, m.script)
  }

  ghost function RunOf(s: Session, moments: seq<Moment>): Session {
    if moments == [] then s else Step(RunOf(s, moments[..|moments| - 1]), moments[|moments| - 1])
  }

  /** The session when moment i comes. */
  ghost function Before(s: Session, moments: seq<Moment>, i: nat): Session
    requires i <= |moments|
  {
    RunOf(s, moments[..i])
  }

  /** Whether the Phantom is started after each call. */
  ghost function StartedAfter(s: Session, moments: seq<Moment>): (after: seq<bool>)
    ensures |after| == |moments|
  {
    if moments == [] then [] else StartedAfter(s, moments[..|moments| - 1]) + [RunOf(s, moments).held.Some?]
  }

  lemma {:induction false} StartedAfterAt(s: Session, moments: seq<Moment>, i: nat)
    requires i < |moments|
    ensures StartedAfter(s, moments)[i] == Before(s, moments, i + 1).held.Some?
  {
    var n := |moments| - 1;
    if i < n {
      StartedAfterAt(s, moments[..n], i);
      assert moments[..n][..i + 1] == moments[..i + 1];
    } else {
      assert moments[..i + 1] == moments;
    }
  }

  lemma OneMore(s: Session, moments: seq<Moment>, i: nat)
    requires i < |moments|
    ensures Before(s, moments, i + 1) == Step(Before(s, moments, i), moments[i])
  {
    assert moments[..i + 1][..i] == moments[..i];
  }

  function HeldBy(s: Session): set<nat> {
    if s.held.None? then {} else {s.held.value.recv, s.held.value.xmit}
  }

  /** Two distinct channels are held while the Phantom is started. */
  predicate Sound(s: Session) {
    && Consistent(s.manager)
    && HeldBy(s) <= s.manager.mine
    && (s.held.Some? ==> s.held.value.recv != s.held.value.xmit)
  }

  /** The channels of this process that the Phantom does not hold. */
  function Aside(s: Session): set<nat> {
    s.manager.mine - HeldBy(s)
  }

  /** The channels that a call leaves allocated although nobody will give them back. */
  ghost function Lost(s: Session, m: Moment): set<nat> {
    Aside(Step(s, m)) - Aside(s)
  }

  // ----- one call

  /** A start gets the first channel and not the second. */
  ghost predicate RollsBack(s: Session) {
    s.held.None? && Created(s.manager).1.Some? && Created(Created(s.manager).0).1.None?
  }

  /** Its rollback gives the first channel back. */
  ghost predicate RollbackWorks(s: Session, m: Moment) {
    StopSucceeds(m.registers, m.script) && IsServed(Created(Created(s.manager).0).0.script)
  }

  /** A start keeps what is held aside and loses the first channel if and only if a rollback does not work. */
  lemma StartLoses(s: Session, m: Moment)
    requires Sound(s) && m.call == Start
    ensures Sound(Step(s, m)) && Aside(s) <= Aside(Step(s, m))
    ensures s.held.Some? ==> Step(s, m) == s
    ensures s.held.None? ==>
              (Step(s, m).held.Some? <==> Created(s.manager).1.Some? && Created(Created(s.manager).0).1.Some?)
    ensures Lost(s, m) == if RollsBack(s) && !RollbackWorks(s, m) then {Created(s.manager).1.value} else {}
  {
    CreatedIsLeast(s.manager);
    CreatedIsLeast(Created(s.manager).0);
  }

  /** The first release is reached; the second is reached and both are served. */
  predicate FirstGivenUp(s: Session, m: Moment) {
    StopsSucceed(m.registers, m.script, 2) && IsServed(s.manager.script)
    && StopSucceeds(m.registers, ScriptAfterStops(m.script, EnabledIn(m.registers), 2))
  }

  predicate BothGivenUp(s: Session, m: Moment) {
    && FirstGivenUp(s, m) && IsServed(Rest(s.manager.script))
    && StopsSucceed(m.registers, ScriptAfterStops(m.script, EnabledIn(m.registers), 2), 2)
  }

  /** A stop ends stopped and loses what it does not give back. */
  lemma StopLoses(s: Session, m: Moment)
    requires Sound(s) && m.call == Stop
    ensures Sound(Step(s, m)) && Step(s, m).held.None? && Aside(s) <= Aside(Step(s, m))
    ensures Lost(s, m) == if s.held.None? || BothGivenUp(s, m) then {}
                          else if FirstGivenUp(s, m) then {s.held.value.xmit}
                          else HeldBy(s)
  {
    if s.held.Some? {
      FirstTwo(m.registers, ScriptAfterStops(m.script, EnabledIn(m.registers), 2));
    }
  }

  lemma StepSound(s: Session, m: Moment)
    requires Sound(s)
    ensures Sound(Step(s, m)) && Aside(Step(s, m)) == Aside(s) + Lost(s, m) && Aside(s) !! Lost(s, m)
  {
    if m.call == Start {
      StartLoses(s, m);
    } else {
      StopLoses(s, m);
    }
  }

  // ----- the calls, spelled out

  /** startPhantom with nobody else active: two, one or no free channels. */
  lemma StartCallThen(others: set<nat>, mine: set<nat>, m: Image, script: seq<Status>, c: nat, d: nat)
    requires Consistent(View([], others, mine)) && c < 64 && d < 64 && c != d
    requires c !in mine + others && forall x: nat :: x < c ==> x in mine + others
    ensures d !in mine + others && (forall x: nat :: x < d && x != c ==> x in mine + others) ==>
              AfterStart(Session(View([], others, mine), None), m, script) ==
              Session(View([], others, mine + {c, d}), Some(Pair(c, d)))
    ensures (forall x: nat :: x < 64 && x != c ==> x in mine + others) ==>
              AfterStart(Session(View([], others, mine), None), m, script) ==
              Session(View([], others, if StopSucceeds(m, script) then mine else mine + {c}), None)
  {
    QuietCreate(others, mine, c);
    if d !in mine + others && forall x: nat :: x < d && x != c ==> x in mine + others {
      QuietCreate(others, mine + {c}, d);
      assert mine + {c} + {d} == mine + {c, d};
    } else if forall x: nat :: x < 64 && x != c ==> x in mine + others {
      NothingToCreate(others, mine + {c});
      assert mine + {c} - {c} == mine;
      assert others - {c} == others;
    }
  }

  lemma QuietCreate(others: set<nat>, mine: set<nat>, c: nat)
    requires Consistent(View([], others, mine)) && c < 64
    requires c !in mine + others && forall x: nat :: x < c ==> x in mine + others
    ensures Created(View([], others, mine)) == (View([], others, mine + {c}), Some(c))
  {
    var v := View([], others, mine);
    assert IsLeast(c, Seen(v)) && c in CHANNELS;
    LeastIsUnique(Seen(v));
  }

  lemma NothingToCreate(others: set<nat>, mine: set<nat>)
    requires forall x: nat :: x < 64 ==> x in mine + others
    ensures Created(View([], others, mine)) == (View([], others, mine), None)
  {
    forall x: nat | x in CHANNELS
      ensures x in mine + others
    {
    }
  }

  /**
   stopPhantom: its first three stops and the first release must go through for the receive channel
   to be given back, and the fourth stop and the second release as well for the transmit channel.
   */
  lemma StopCallThen(v: View, recv: nat, xmit: nat, first: Irm.Event, second: Irm.Event, rest: seq<Irm.Event>, m: Image,
                     script: seq<Status>)
    requires v.script == [first, second] + rest && recv != xmit && recv in v.mine && xmit in v.mine
    ensures var s := AfterStopCall(Session(v, Some(Pair(recv, xmit))), m, script);
            var one := ScriptAfterStop(script, EnabledIn(m));
            var two := ScriptAfterStop(one, EnabledIn(m));
            var three := ScriptAfterStop(two, EnabledIn(m));
            && s.held == None
            && s.manager.mine ==
               if !StopSucceeds(m, script) || !StopSucceeds(m, one) || !StopSucceeds(m, two) || first == Irm.Failed
               then v.mine
               else if !StopSucceeds(m, three) || second == Irm.Failed then v.mine - {recv}
               else v.mine - {recv, xmit}
  {
    FirstTwo(m, script);
    var two := ScriptAfterStops(script, EnabledIn(m), 2);
    FirstTwo(m, two);
    assert v.script[1..] == [second] + rest;
    assert v.mine - {recv} - {xmit} == v.mine - {recv, xmit};
  }

  // ----- runs

  /** The channels lost in each call. */
  ghost function Losses(s: Session, moments: seq<Moment>): (losses: seq<set<nat>>)
    ensures |losses| == |moments|
  {
    seq(|moments|, i requires 0 <= i < |moments| => Lost(Before(s, moments, i), moments[i]))
  }

  lemma OneMoreLoss(s: Session, moments: seq<Moment>)
    requires moments != []
    ensures var n := |moments| - 1;
            Losses(s, moments) == Losses(s, moments[..n]) + [Lost(RunOf(s, moments[..n]), moments[n])]
  {
    var n := |moments| - 1;
    forall i | 0 <= i < n
      ensures Losses(s, moments)[i] == Losses(s, moments[..n])[i]
    {
      assert moments[..n][..i] == moments[..i];
    }
  }

  ghost function Union(sets: seq<set<nat>>): set<nat> {
    if sets == [] then {} else Union(sets[..|sets| - 1]) + sets[|sets| - 1]
  }

  lemma {:induction false} EmptyUnion(sets: seq<set<nat>>)
    ensures Union(sets) == {} <==> forall i :: 0 <= i < |sets| ==> sets[i] == {}
  {
    if sets != [] {
      EmptyUnion(sets[..|sets| - 1]);
    }
  }

  lemma UnionOfLonger(sets: seq<set<nat>>, x: set<nat>)
    ensures Union(sets + [x]) == Union(sets) + x
  {
    assert (sets + [x])[..|sets|] == sets;
  }

  /** After every run the channels of the process are those of before, the lost ones and the two held, each once. */
  lemma {:induction false} RunAccounts(s: Session, moments: seq<Moment>)
    requires Sound(s)
    ensures Sound(RunOf(s, moments))
    ensures Aside(RunOf(s, moments)) == Aside(s) + Union(Losses(s, moments)) && Aside(s) !! Union(Losses(s, moments))
  {
    if moments != [] {
      var n := |moments| - 1;
      var before := RunOf(s, moments[..n]);
      RunAccounts(s, moments[..n]);
      StepSound(before, moments[n]);
      OneMoreLoss(s, moments);
      UnionOfLonger(Losses(s, moments[..n]), Lost(before, moments[n]));
    }
  }

  /** Exactly those runs conserve the channels in which no call loses one. */
  lemma {:induction false} ConservedIff(s: Session, moments: seq<Moment>)
    requires Sound(s)
    ensures RunOf(s, moments).manager.mine == Aside(s) + HeldBy(RunOf(s, moments)) <==>
            forall i :: 0 <= i < |moments| ==> Losses(s, moments)[i] == {}
  {
    RunAccounts(s, moments);
    EmptyUnion(Losses(s, moments));
    SetsAgree(RunOf(s, moments).manager.mine, HeldBy(RunOf(s, moments)), Aside(s), Union(Losses(s, moments)));
  }

  lemma SetsAgree(mine: set<nat>, held: set<nat>, aside: set<nat>, lost: set<nat>)
    requires held <= mine && mine - held == aside + lost && aside !! lost
    ensures mine == aside + held <==> lost == {}
  {
    assert mine == (mine - held) + held;
    assert lost !! held;
  }

  // ----- runs without transactions that fail for good

  /** The device has its registers, and no transaction with it fails for good. */
  predicate Fair(m: Moment) {
    HasRegisters(m.registers) && Clean(m.script)
  }

  /** Apart from that the registers hold anything, and the transactions meet any EAGAINs. */
  lemma FairKinds(m: Moment)
    ensures Fair(m) <==>
            && 0x1000 in m.registers && 0x1001 in m.registers && 0x1082 in m.registers && 0x1083 in m.registers
            && 0x1087 in m.registers && forall i :: 0 <= i < |m.script| ==> m.script[i] == Done || m.script[i] == Again
  {
    ScriptKinds(m.script);
  }

  lemma {:induction false} CleanStops(m: Moment, n: nat)
    requires Fair(m)
    ensures Clean(ScriptAfterStops(m.script, EnabledIn(m.registers), n))
    ensures n > 0 ==> (StopsSucceed(m.registers, m.script, n) <==> Healthy(m.registers))
    ensures StopSucceeds(m.registers, ScriptAfterStops(m.script, EnabledIn(m.registers), n)) <==> Healthy(m.registers)
  {
    if n > 0 {
      CleanStops(m, n - 1);
      var before := ScriptAfterStops(m.script, EnabledIn(m.registers), n - 1);
      ChecksKeep(before);
      TailKeeps(AfterChecks(before));
    }
    CleanStop(m.registers, ScriptAfterStops(m.script, EnabledIn(m.registers), n));
  }

  lemma CleanStop(m: Image, script: seq<Status>)
    requires HasRegisters(m) && Clean(script)
    ensures StopSucceeds(m, script) <==> Healthy(m)
  {
    AfterReadKeeps(script);
    AfterReadKeeps(AfterRead(script));
    AfterReadKeeps(AfterRead(AfterRead(script)));
    TailKeeps(AfterChecks(script));
  }

  lemma NoFailureAfterCreated(v: View)
    requires NoFailure(v.script)
    ensures NoFailure(Created(v).0.script) && IsServed(Created(v).0.script)
  {
    NoFailureIsServed(v.script);
    NoFailureIsServed(Rest(v.script));
    NoFailureIsServed(Rest(Rest(v.script)));
    NoFailureIsServed(Created(v).0.script);
  }

  /**
   Then a call loses channels if and only if it runs stop at an unhealthy device: in a rollback
   one, in a stop both.
   */
  lemma FairLoss(s: Session, m: Moment)
    requires Sound(s) && NoFailure(s.manager.script) && Fair(m)
    ensures NoFailure(Step(s, m).manager.script)
    ensures m.call == Start ==>
              Lost(s, m) == if RollsBack(s) && !Healthy(m.registers) then {Created(s.manager).1.value} else {}
    ensures m.call == Stop ==> Lost(s, m) == if Healthy(m.registers) then {} else HeldBy(s)
  {
    var v := s.manager;
    CleanStop(m.registers, m.script);
    NoFailureIsServed(v.script);
    NoFailureIsServed(Rest(v.script));
    NoFailureIsServed(Rest(Rest(v.script)));
    if m.call == Start {
      StartLoses(s, m);
      NoFailureAfterCreated(v);
      NoFailureAfterCreated(Created(v).0);
      NoFailureIsServed(Created(Created(v).0).0.script);
    } else {
      StopLoses(s, m);
      CleanStops(m, 2);
      var rest := Moment(Stop, m.registers, ScriptAfterStops(m.script, EnabledIn(m.registers), 2));
      CleanStops(rest, 2);
    }
  }

  lemma {:induction false} FairRun(s: Session, moments: seq<Moment>)
    requires Sound(s) && NoFailure(s.manager.script) && forall i :: 0 <= i < |moments| ==> Fair(moments[i])
    ensures Sound(RunOf(s, moments)) && NoFailure(RunOf(s, moments).manager.script)
  {
    if moments != [] {
      var n := |moments| - 1;
      FairRun(s, moments[..n]);
      FairLoss(RunOf(s, moments[..n]), moments[n]);
      StepSound(RunOf(s, moments[..n]), moments[n]);
    }
  }

  /** A call runs stop: it stops a started Phantom or rolls a start back. */
  ghost predicate RunsStop(s: Session, m: Moment) {
    if m.call == Stop then s.held.Some? else RollsBack(s)
  }

  ghost predicate HealthyAtStop(s: Session, moments: seq<Moment>, i: nat)
    requires i < |moments|
  {
    RunsStop(Before(s, moments, i), moments[i]) ==> Healthy(moments[i].registers)
  }

  /** The status registers are healthy whenever stop runs. */
  ghost predicate HealthyAtStops(s: Session, moments: seq<Moment>) {
    forall i :: 0 <= i < |moments| ==> HealthyAtStop(s, moments, i)
  }

  lemma FairLossIff(s: Session, m: Moment)
    requires Sound(s) && NoFailure(s.manager.script) && Fair(m)
    ensures Lost(s, m) == {} <==> (RunsStop(s, m) ==> Healthy(m.registers))
  {
    FairLoss(s, m);
  }

  lemma FairLossAt(s: Session, moments: seq<Moment>, i: nat)
    requires i < |moments| && Sound(s) && NoFailure(s.manager.script)
    requires forall k :: 0 <= k < |moments| ==> Fair(moments[k])
    ensures Losses(s, moments)[i] == {} <==> HealthyAtStop(s, moments, i)
  {
    FairRun(s, moments[..i]);
    FairLossIff(Before(s, moments, i), moments[i]);
  }

  /**
   The session invariant. Whatever the other users of the manager claim, and whatever they give
   back of their own, and whatever the registers of the device show, handshakes that fail
   included: the channels are conserved if and only if the status registers are healthy whenever
   stop runs.
   */
  lemma {:induction false} SessionInvariant(s: Session, moments: seq<Moment>)
    requires Sound(s) && NoFailure(s.manager.script) && forall i :: 0 <= i < |moments| ==> Fair(moments[i])
    ensures Sound(RunOf(s, moments))
    ensures RunOf(s, moments).manager.mine == Aside(s) + HeldBy(RunOf(s, moments)) <==> HealthyAtStops(s, moments)
  {
    ConservedIff(s, moments);
    RunAccounts(s, moments);
    forall i | 0 <= i < |moments|
      ensures Losses(s, moments)[i] == {} <==> HealthyAtStop(s, moments, i)
    {
      FairLossAt(s, moments, i);
    }
  }

  // ----- the calls themselves

  /** Any sequence of calls on a Phantom; `after` tells after each of them whether it is started. */
  method AnyCalls(phantom: Phantom, moments: seq<Moment>) returns (after: seq<bool>)
    requires phantom.Valid()
    modifies phantom, phantom.irm, phantom.device`script, phantom.device`log, phantom.device`memory
    ensures phantom.Valid() && phantom.Now() == RunOf(old(phantom.Now()), moments)
    ensures after == StartedAfter(old(phantom.Now()), moments)
  {
    ghost var start := phantom.Now();
    after := [];
    for i := 0 to |moments|
      invariant phantom.Valid() && phantom.Now() == Before(start, moments, i)
      invariant after == StartedAfter(start, moments[..i])
    {
      OneMore(start, moments, i);
      assert moments[..i + 1][..i] == moments[..i];
      OneCall(phantom, moments[i]);
      after := after + [phantom.started];
    }
    assert moments[..|moments|] == moments;
  }

  method OneCall(phantom: Phantom, m: Moment)
    requires phantom.Valid()
    modifies phantom, phantom.irm, phantom.device`script, phantom.device`log, phantom.device`memory
    ensures phantom.Valid() && phantom.Now() == Step(old(phantom.Now()), m)
  {
    phantom.device.memory, phantom.device.script := m.registers, m.script;
    var r;
    if m.call == Start {
      r := phantom.StartPhantom();
    } else {
      r := phantom.StopPhantom();
    }
  }

  /** Every start that ended stopped met healthy status registers. */
  predicate HealthyWhereStopped(moments: seq<Moment>, after: seq<bool>)
    requires |after| == |moments|
  {
    forall i :: 0 <= i < |moments| && moments[i].call == Start && !after[i] ==> Healthy(moments[i].registers)
  }

  /**
   Starts may fail their handshakes on an unhealthy device. If stops and the starts that end
   stopped meet a healthy one, every channel is accounted for: two while started, none after.
   */
  method ConservingCalls(phantom: Phantom, moments: seq<Moment>) returns (after: seq<bool>)
    requires phantom.Valid() && !phantom.started && NoFailure(phantom.irm.script)
    requires forall i :: 0 <= i < |moments| ==> Fair(moments[i])
    requires forall i :: 0 <= i < |moments| && moments[i].call == Stop ==> Healthy(moments[i].registers)
    modifies phantom, phantom.irm, phantom.device`script, phantom.device`log, phantom.device`memory
    ensures phantom.Valid() && |after| == |moments|
    ensures HealthyWhereStopped(moments, after) ==>
              && phantom.irm.mine == old(phantom.irm.mine) + phantom.Held() && phantom.Held() !! old(phantom.irm.mine)
              && |phantom.irm.mine| == |old(phantom.irm.mine)| + (if phantom.started then 2 else 0)
    ensures moments != [] ==> phantom.started == after[|moments| - 1]
  {
    ghost var start := phantom.Now();
    after := AnyCalls(phantom, moments);
    if HealthyWhereStopped(moments, after) {
      Conserves(start, moments, after);
    }
  }

  lemma Conserves(start: Session, moments: seq<Moment>, after: seq<bool>)
    requires Sound(start) && start.held.None? && NoFailure(start.manager.script)
    requires forall i :: 0 <= i < |moments| ==> Fair(moments[i])
    requires forall i :: 0 <= i < |moments| && moments[i].call == Stop ==> Healthy(moments[i].registers)
    requires after == StartedAfter(start, moments) && HealthyWhereStopped(moments, after)
    ensures var mine, end := start.manager.mine, RunOf(start, moments);
            && end.manager.mine == mine + HeldBy(end) && HeldBy(end) !! mine
            && |end.manager.mine| == |mine| + (if end.held.Some? then 2 else 0)
  {
    HealthyByFlags(start, moments);
    SessionInvariant(start, moments);
    AsideKept(start, moments);
    TwoMore(start, RunOf(start, moments));
  }

  lemma AsideKept(s: Session, moments: seq<Moment>)
    requires Sound(s)
    ensures Sound(RunOf(s, moments)) && Aside(s) <= Aside(RunOf(s, moments))
  {
    RunAccounts(s, moments);
  }

  lemma TwoMore(start: Session, end: Session)
    requires start.held.None? && Sound(end) && Aside(start) <= Aside(end)
    requires end.manager.mine == Aside(start) + HeldBy(end)
    ensures var mine := start.manager.mine;
            && end.manager.mine == mine + HeldBy(end) && HeldBy(end) !! mine
            && |end.manager.mine| == |mine| + (if end.held.Some? then 2 else 0)
  {
    var mine := start.manager.mine;
    assert Aside(start) == mine;
    assert |mine + HeldBy(end)| == |mine| + |HeldBy(end)|;
  }

  lemma HealthyByFlags(s: Session, moments: seq<Moment>)
    requires Sound(s) && HealthyWhereStopped(moments, StartedAfter(s, moments))
    requires forall i :: 0 <= i < |moments| && moments[i].call == Stop ==> Healthy(moments[i].registers)
    ensures HealthyAtStops(s, moments)
  {
    forall i | 0 <= i < |moments|
      ensures HealthyAtStop(s, moments, i)
    {
      StartedAfterAt(s, moments, i);
      OneMore(s, moments, i);
      RunAccounts(s, moments[..i]);
      HealthyByFlag(Before(s, moments, i), moments[i]);
    }
  }

  /** A start that rolls back ends stopped. */
  lemma HealthyByFlag(s: Session, m: Moment)
    requires Sound(s) && (m.call == Stop || Step(s, m).held.None? ==> Healthy(m.registers))
    ensures RunsStop(s, m) ==> Healthy(m.registers)
  {
    if m.call == Start {
      StartLoses(s, m);
    }
  }

  /** A device whose status registers are not healthy. */
  method UnhealthyDevice() returns (device: RemoteNode)
    ensures fresh(device) && !Healthy(device.memory) && Clean(device.script) && HasRegisters(device.memory)
  {
    var registers: Image :=
      map[XMIT_CHANNEL := 0, RECV_CHANNEL := 0, STATUS_LOW := 0, STATUS_HIGH := 0, CONTROL := 0];
    device := new RemoteNode(registers, {}, []);
  }

  /** With a single free channel, a start that has to roll back at an unhealthy device keeps it. */
  method LostInRollback() returns (mine: set<nat>, started: bool)
    ensures !started && mine == {0}
  {
    var device := UnhealthyDevice();
    var irm := new ResourceManager(CHANNELS - {0}, []);
    var phantom := new Phantom(device, irm);
    assert irm.Free() == {0};
    CreatedIsLeast(irm.Now());
    ghost var s, m := phantom.Now(), Moment(Start, device.memory, device.script);
    var r := phantom.StartPhantom();
    mine, started := irm.mine, phantom.started;
    OnlyChannel(s, m);
  }

  lemma OnlyChannel(s: Session, m: Moment)
    requires s == Session(View([], CHANNELS - {0}, {}), None)
    requires m.call == Start && Fair(m) && !Healthy(m.registers)
    ensures Step(s, m).held.None? && Step(s, m).manager.mine == {0}
  {
    var v, w := s.manager, View([], CHANNELS - {0}, {0});
    assert 0 in CHANNELS && Turned(v) == v && Turned(w) == w;
    assert CHANNELS - {} - (CHANNELS - {0}) == {0} && CHANNELS - {0} - (CHANNELS - {0}) == {};
    assert Seen(v) == {0} && Seen(w) == {};
    assert LeastOf(Seen(v)) == 0 && v.mine + {0} == {0};
    assert Created(v) == (w, Some(0));
    CleanStop(m.registers, m.script);
  }

  /** A stop at an unhealthy device keeps both channels and leaves the Phantom stopped. */
  method LostInStop() returns (mine: set<nat>, started: bool)
    ensures !started && |mine| == 2
  {
    var device := UnhealthyDevice();
    var irm := new ResourceManager({}, []);
    var phantom := new Phantom(device, irm);
    assert 0 in irm.Free() && 1 in irm.Free();
    var r := phantom.StartPhantom();
    assert phantom.started;
    ghost var held := phantom.Held();
    r := phantom.StopPhantom();
    mine, started := irm.mine, phantom.started;
    assert mine == held;
  }
}
