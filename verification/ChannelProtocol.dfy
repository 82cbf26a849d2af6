/**
 Any number of clients sharing the isochronous resource manager. A client that wants a channel
 reads the two quadlets of CHANNELS_AVAILABLE one after the other, chooses the lowest free
 channel it saw and then asks for it with an atomic lock transaction; the steps of different
 clients interleave in every possible way.
 */
module ChannelProtocol {
  import opened Words
  import opened IrmRegister

  /** A completed lock transaction. */
  datatype Event = Took(client: nat, channel: nat) | Freed(client: nat, channel: nat)

  /** How far a client has got in getFreeChannel and claimChannel; `...At` are positions in the history. */
  datatype Phase =
    | Idle
    | HighRead(high: set<nat>, highAt: nat)
    | BothRead(high: set<nat>, highAt: nat, low: set<nat>, lowAt: nat)
    | Chosen(channel: nat, seenAt: nat)

  datatype Client = Client(held: set<nat>, phase: Phase)

  /** `origin` is what was free at the start; the history lists the lock transactions since. */
  datatype State = State(origin: set<nat>, free: set<nat>, clients: map<nat, Client>, history: seq<Event>)

  datatype Step =
    | ReadHigh(client: nat)
    | ReadLow(client: nat)
    | Choose(client: nat)
    | Claim(client: nat)
    | Release(client: nat, channel: nat)

  ghost predicate Enabled(s: State, step: Step) {
    && step.client in s.clients
    && var me := s.clients[step.client];
       match step
       case ReadHigh(_) => me.phase.Idle?
       case ReadLow(_) => me.phase.HighRead?
       case Choose(_) => me.phase.BothRead?
       case Claim(_) => me.phase.Chosen?
       case Release(_, c) => me.phase.Idle? && c in me.held
  }

  /** getFreeChannel throws: neither quadlet showed a free channel. */
  predicate NothingSeen(p: Phase)
    requires p.BothRead?
  {
    p.high + p.low == {}
  }

  /** A client whose call throws is back where it started. */
  ghost function Apply(s: State, step: Step): State
    requires Enabled(s, step)
  {
    var k := step.client;
    var me := s.clients[k];
    match step
    case ReadHigh(_) =>
      s.(clients := s.clients[k := me.(phase := HighRead(HighPart(s.free), |s.history|))])
    case ReadLow(_) =>
      var seen := BothRead(me.phase.high, me.phase.highAt, LowPart(s.free), |s.history|);
      s.(clients := s.clients[k := me.(phase := seen)])
    case Choose(_) =>
      var p := me.phase;
      var next := if NothingSeen(p) then Idle
                  else var c := LeastOf(p.high + p.low); Chosen(c, if c < 32 then p.highAt else p.lowAt);
      s.(clients := s.clients[k := me.(phase := next)])
    case Claim(_) =>
      var c := me.phase.channel;
      if c in s.free then
        s.(free := s.free - {c}, clients := s.clients[k := Client(me.held + {c}, Idle)],
           history := s.history + [Took(k, c)])
      else
        s.(clients := s.clients[k := me.(phase := Idle)])
    case Release(_, c) =>
      s.(free := s.free + {c}, clients := s.clients[k := me.(held := me.held - {c})],
         history := s.history + [Freed(k, c)])
  }

  ghost predicate Legal(s: State, steps: seq<Step>)
    decreases |steps|
  {
    steps == [] || (Enabled(s, steps[0]) && Legal(Apply(s, steps[0]), steps[1..]))
  }

  ghost function Exec(s: State, steps: seq<Step>): State
    requires Legal(s, steps)
    decreases |steps|
  {
    if steps == [] then s else Exec(Apply(s, steps[0]), steps[1..])
  }

  // ----- what every run keeps

  /** Each of the 64 channels is free or has an owner; no channel has both, and none has two owners. */
  ghost predicate Partition(s: State) {
    && s.free <= CHANNELS
    && (forall k :: k in s.clients ==> s.clients[k].held <= CHANNELS && s.free !! s.clients[k].held)
    && (forall k, l :: k in s.clients && l in s.clients && k != l ==> s.clients[k].held !! s.clients[l].held)
    && (forall c :: c in CHANNELS && c !in s.free ==> exists k :: k in s.clients && c in s.clients[k].held)
  }

  ghost predicate Init(s: State) {
    && Partition(s)
    && s.origin == s.free
    && s.history == []
    && forall k :: k in s.clients ==> s.clients[k].phase.Idle?
  }

  /** The channels that are free after the given lock transactions. */
  function Replay(origin: set<nat>, history: seq<Event>): set<nat> {
    if history == [] then origin
    else
      var before := Replay(origin, history[..|history| - 1]);
      match history[|history| - 1]
      case Took(_, c) => before - {c}
      case Freed(_, c) => before + {c}
  }

  /** What was free when the first t lock transactions had been done. */
  function FreeAt(s: State, t: nat): set<nat>
    requires t <= |s.history|
  {
    Replay(s.origin, s.history[..t])
  }

  /** Client k has done no lock transaction since position t. */
  ghost predicate QuietSince(s: State, k: nat, t: nat) {
    t <= |s.history| && forall j :: t <= j < |s.history| ==> s.history[j].client != k
  }

  ghost predicate PhaseInv(s: State, k: nat)
    requires k in s.clients
  {
    match s.clients[k].phase
    case Idle => true
    case HighRead(high, h) =>
      && QuietSince(s, k, h) && high == HighPart(FreeAt(s, h)) && high <= CHANNELS && high !! s.clients[k].held
    case BothRead(high, h, low, l) =>
      && h <= l && QuietSince(s, k, h) && high == HighPart(FreeAt(s, h)) && high <= CHANNELS
      && high !! s.clients[k].held
      && QuietSince(s, k, l) && low == LowPart(FreeAt(s, l)) && low <= CHANNELS && low !! s.clients[k].held
    case Chosen(c, t) => QuietSince(s, k, t) && c in FreeAt(s, t) && c in CHANNELS && c !in s.clients[k].held
  }

  ghost predicate Inv(s: State) {
    && Partition(s)
    && s.free == FreeAt(s, |s.history|)
    && (forall j :: 0 <= j < |s.history| ==> s.history[j].channel in CHANNELS)
    && s.origin <= CHANNELS
    && forall k :: k in s.clients ==> PhaseInv(s, k)
  }

  lemma InvStep(s: State, step: Step)
    requires Inv(s) && Enabled(s, step)
    ensures Inv(Apply(s, step))
  {
    var t := Apply(s, step);
    PartitionStep(s, step);
    HistoryStep(s, step);
    forall k | k in t.clients
      ensures PhaseInv(t, k)
    {
      PhaseStep(s, step, k);
    }
  }

  lemma HistoryStep(s: State, step: Step)
    requires Inv(s) && Enabled(s, step)
    ensures var t := Apply(s, step);
            && t.free == FreeAt(t, |t.history|)
            && forall j :: 0 <= j < |t.history| ==> t.history[j].channel in CHANNELS
  {
    var t := Apply(s, step);
    assert PhaseInv(s, step.client);
    assert s.history[..|s.history|] == s.history;
    assert t.history[..|t.history|] == t.history;
    if |t.history| > |s.history| {
      assert t.history[..|t.history| - 1] == s.history;
    }
  }

  lemma PartitionStep(s: State, step: Step)
    requires Inv(s) && Enabled(s, step)
    ensures Partition(Apply(s, step))
  {
    assert PhaseInv(s, step.client);
    var k := step.client;
    match step
    case Claim(_) =>
      if s.clients[k].phase.channel in s.free {
        Moved(s, Apply(s, step), k, s.free - {s.clients[k].phase.channel});
      } else {
        Moved(s, Apply(s, step), k, s.free);
      }
    case Release(_, c) => Moved(s, Apply(s, step), k, s.free + {c});
    case _ => Moved(s, Apply(s, step), k, s.free);
  }

  /** Moving channels between the free bits and one client keeps the partition. */
  lemma Moved(s: State, t: State, k: nat, free: set<nat>)
    requires Partition(s) && k in s.clients && t.free == free <= CHANNELS
    requires t.clients.Keys == s.clients.Keys
    requires forall l :: l in s.clients && l != k ==> t.clients[l].held == s.clients[l].held
    requires t.clients[k].held !! free && t.clients[k].held + free == s.clients[k].held + s.free
    ensures Partition(t)
  {
    forall c | c in CHANNELS && c !in t.free
      ensures exists l :: l in t.clients && c in t.clients[l].held
    {
      if c in s.free {
        assert c in t.clients[k].held;
      } else {
        var l :| l in s.clients && c in s.clients[l].held;
        assert c in t.clients[l].held;
      }
    }
    forall l | l in s.clients && l != k
      ensures t.clients[l].held !! t.free && t.clients[l].held !! t.clients[k].held
    {
      assert s.clients[l].held !! s.free + s.clients[k].held;
    }
  }

  /** A step adds to the history and leaves what was free before as it is. */
  lemma PastStays(s: State, step: Step, i: nat)
    requires Enabled(s, step) && i <= |s.history|
    ensures FreeAt(Apply(s, step), i) == FreeAt(s, i)
  {
    assert Apply(s, step).history[..i] == s.history[..i];
  }

  lemma PhaseStep(s: State, step: Step, k: nat)
    requires Inv(s) && Enabled(s, step) && k in s.clients
    ensures PhaseInv(Apply(s, step), k)
  {
    var t := Apply(s, step);
    forall i | 0 <= i <= |s.history|
      ensures FreeAt(t, i) == FreeAt(s, i)
    {
      PastStays(s, step, i);
    }
    assert PhaseInv(s, k);
    if k != step.client {
      assert t.clients[k] == s.clients[k];
    } else if step.Choose? {
      var p := s.clients[k].phase;
      if !NothingSeen(p) {
        assert LeastOf(p.high + p.low) in p.high + p.low;
      }
    }
  }

  lemma InvInit(s: State)
    requires Init(s)
    ensures Inv(s)
  {
  }

  /** The invariant holds at the end of every run, however the steps of the clients interleave. */
  lemma {:induction false} InvAlongRun(s: State, steps: seq<Step>)
    requires Inv(s) && Legal(s, steps)
    ensures Inv(Exec(s, steps))
    decreases |steps|
  {
    if steps != [] {
      InvStep(s, steps[0]);
      InvAlongRun(Apply(s, steps[0]), steps[1..]);
    }
  }

  /**
   Safety: after every run from a consistent start the free bits and the clients' channels
   partition the 64 channels.
   */
  lemma ChannelsArePartitioned(s: State, steps: seq<Step>)
    requires Init(s) && Legal(s, steps)
    ensures var t := Exec(s, steps);
            && Partition(t)
            && (forall c: nat :: c in t.free <==> c < 64 && forall k :: k in t.clients ==> c !in t.clients[k].held)
            && (forall k, c: nat :: k in t.clients && c in t.clients[k].held ==> c < 64)
            && (forall k, l, c: nat :: k in t.clients && l in t.clients && k != l ==>
                  !(c in t.clients[k].held && c in t.clients[l].held))
  {
    InvInit(s);
    InvAlongRun(s, steps);
    FreeIsUnheld(Exec(s, steps));
  }

  lemma FreeIsUnheld(t: State)
    requires Partition(t)
    ensures forall c: nat :: c in t.free <==> c < 64 && forall l :: l in t.clients ==> c !in t.clients[l].held
  {
  }

  lemma {:induction false} LostByTaking(s: State, c: nat, t: nat, u: nat)
    requires t <= u <= |s.history|
    requires c in FreeAt(s, t) && c !in FreeAt(s, u)
    ensures exists j :: t <= j < u && s.history[j].Took? && s.history[j].channel == c
    decreases u
  {
    assert s.history[..u][..u - 1] == s.history[..u - 1];
    var last := s.history[u - 1];
    if last.Took? && last.channel == c {
      assert t <= u - 1 < u;
    } else {
      LostByTaking(s, c, t, u - 1);
    }
  }

  /**
   claimChannel throws exactly when some other client owns the chosen channel, and then
   another client took it after this one had read the quadlet with its bit, even when the
   two quadlets were read at different instants.
   */
  lemma ClaimThrowsOnlyIfTaken(s: State, steps: seq<Step>, k: nat)
    requires Init(s) && Legal(s, steps)
    requires Enabled(Exec(s, steps), Claim(k))
    ensures var t := Exec(s, steps);
            var c := t.clients[k].phase.channel;
            && (c !in t.free <==> exists l :: l in t.clients && l != k && c in t.clients[l].held)
            && (c !in t.free ==>
                  exists j :: t.clients[k].phase.seenAt <= j < |t.history|
                           && t.history[j].Took? && t.history[j].channel == c && t.history[j].client != k)
  {
    var t := Exec(s, steps);
    InvInit(s);
    InvAlongRun(s, steps);
    assert PhaseInv(t, k);
    var c, seen := t.clients[k].phase.channel, t.clients[k].phase.seenAt;
    if c !in t.free {
      LostByTaking(t, c, seen, |t.history|);
    }
  }

  // ----- what each operation does, after every run

  /** A step of one client leaves the others as they are. */
  lemma OthersUntouched(s: State, step: Step, l: nat)
    requires Enabled(s, step) && l in s.clients && l != step.client
    ensures Apply(s, step).clients.Keys == s.clients.Keys && Apply(s, step).clients[l] == s.clients[l]
  {
  }

  /** No client is ever stuck: whatever it has got to, its next operation is possible. */
  lemma NextIsPossible(s: State, steps: seq<Step>, k: nat)
    requires Init(s) && Legal(s, steps) && k in Exec(s, steps).clients
    ensures var t := Exec(s, steps);
            match t.clients[k].phase
            case Idle =>
              Enabled(t, ReadHigh(k)) && forall c :: c in t.clients[k].held ==> Enabled(t, Release(k, c))
            case HighRead(_, _) => Enabled(t, ReadLow(k))
            case BothRead(_, _, _, _) => Enabled(t, Choose(k))
            case Chosen(_, _) => Enabled(t, Claim(k))
  {
  }

  /** A quadlet read shows exactly those of its 32 channels that no client holds at that instant. */
  lemma ReadShowsUnheld(s: State, steps: seq<Step>, step: Step)
    requires Init(s) && Legal(s, steps) && (step.ReadHigh? || step.ReadLow?)
    requires Enabled(Exec(s, steps), step)
    ensures var t, u, k := Exec(s, steps), Apply(Exec(s, steps), step), step.client;
            && (forall l :: l in t.clients ==> u.clients[l].held == t.clients[l].held)
            && u.free == t.free && u.history == t.history
            && match step
               case ReadHigh(_) =>
                 && u.clients[k].phase.HighRead? && u.clients[k].phase.highAt == |t.history|
                 && forall c :: c in u.clients[k].phase.high <==>
                      0 <= c < 32 && forall l :: l in t.clients ==> c !in t.clients[l].held
               case ReadLow(_) =>
                 && u.clients[k].phase.BothRead? && u.clients[k].phase.lowAt == |t.history|
                 && u.clients[k].phase.high == t.clients[k].phase.high
                 && u.clients[k].phase.highAt == t.clients[k].phase.highAt
                 && forall c :: c in u.clients[k].phase.low <==>
                      32 <= c < 64 && forall l :: l in t.clients ==> c !in t.clients[l].held
  {
    ChannelsArePartitioned(s, steps);
  }

  /**
   claimChannel succeeds if and only if no other client owns the chosen channel; when it fails,
   another client took the channel after this one had read the quadlet with its bit. Success adds
   exactly this channel, failure nothing, and either way the client can start again.
   */
  lemma ClaimOutcome(s: State, steps: seq<Step>, k: nat)
    requires Init(s) && Legal(s, steps)
    requires Enabled(Exec(s, steps), Claim(k))
    ensures var t, u := Exec(s, steps), Apply(Exec(s, steps), Claim(k));
            var c, seen := t.clients[k].phase.channel, t.clients[k].phase.seenAt;
            && (c in u.clients[k].held <==> forall l :: l in t.clients && l != k ==> c !in t.clients[l].held)
            && (c !in u.clients[k].held ==>
                  exists j :: seen <= j < |t.history|
                           && t.history[j].Took? && t.history[j].channel == c && t.history[j].client != k)
            && c !in t.clients[k].held && c !in u.free && u.clients[k].phase.Idle?
            && (forall d :: d != c ==> (d in u.clients[k].held <==> d in t.clients[k].held))
            && (forall d :: d != c ==> (d in u.free <==> d in t.free))
            && u.history == if c in u.clients[k].held then t.history + [Took(k, c)] else t.history
  {
    var t := Exec(s, steps);
    ClaimThrowsOnlyIfTaken(s, steps, k);
    InvInit(s);
    InvAlongRun(s, steps);
    assert PhaseInv(t, k);
    if t.clients[k].phase.channel in t.free {
      assert forall l :: l in t.clients && l != k ==> t.clients[l].held !! t.free;
    }
  }

  /** releaseChannel gives back exactly the named channel: nobody holds it, and it is free. */
  lemma ReleaseOutcome(s: State, steps: seq<Step>, k: nat, c: nat)
    requires Init(s) && Legal(s, steps)
    requires Enabled(Exec(s, steps), Release(k, c))
    ensures var t, u := Exec(s, steps), Apply(Exec(s, steps), Release(k, c));
            && c in t.clients[k].held && c in u.free && (forall l :: l in u.clients ==> c !in u.clients[l].held)
            && (forall d :: d != c ==> (d in u.clients[k].held <==> d in t.clients[k].held))
            && (forall d :: d != c ==> (d in u.free <==> d in t.free))
            && u.clients[k].phase == t.clients[k].phase && u.history == t.history + [Freed(k, c)]
  {
    ChannelsArePartitioned(s, steps);
    InvInit(s);
    InvAlongRun(s, steps);
    InvStep(Exec(s, steps), Release(k, c));
  }

  /** What the history says was free at an earlier instant is what was free then. */
  lemma {:induction false} FreeAtIsPast(s: State, steps: seq<Step>)
    requires Inv(s) && Legal(s, steps)
    ensures var t := Exec(s, steps);
            |s.history| <= |t.history| && FreeAt(t, |s.history|) == s.free
    decreases |steps|
  {
    FreeStays(s, steps, |s.history|);
  }

  lemma {:induction false} FreeStays(s: State, steps: seq<Step>, i: nat)
    requires Legal(s, steps) && i <= |s.history|
    ensures i <= |Exec(s, steps).history| && FreeAt(Exec(s, steps), i) == FreeAt(s, i)
    decreases |steps|
  {
    if steps != [] {
      PastStays(s, steps[0], i);
      FreeStays(Apply(s, steps[0]), steps[1..], i);
    }
  }

  /**
   The search throws exactly when the high quadlet offered nothing at the instant it was read
   and the low quadlet offered nothing at its own, later instant; otherwise the chosen channel
   is the lowest one of the half that offers it.
   */
  lemma SearchSeesTwoInstants(s: State, steps: seq<Step>, k: nat)
    requires Init(s) && Legal(s, steps)
    requires Enabled(Exec(s, steps), Choose(k))
    ensures var t := Exec(s, steps);
            var p := t.clients[k].phase;
            && p.highAt <= |t.history| && p.lowAt <= |t.history|
            && (NothingSeen(p) <==> HighPart(FreeAt(t, p.highAt)) == {} && LowPart(FreeAt(t, p.lowAt)) == {})
            && (var after := Apply(t, Choose(k)).clients[k].phase;
               && (after.Idle? <==> NothingSeen(p))
               && (after.Chosen? ==>
                     if HighPart(FreeAt(t, p.highAt)) != {} then IsLeast(after.channel, HighPart(FreeAt(t, p.highAt)))
                     else IsLeast(after.channel, LowPart(FreeAt(t, p.lowAt)))))
  {
    var t := Exec(s, steps);
    InvInit(s);
    InvAlongRun(s, steps);
    assert PhaseInv(t, k);
    var p := t.clients[k].phase;
    assert p.high == HighPart(FreeAt(t, p.highAt));
    assert p.low == LowPart(FreeAt(t, p.lowAt));
    if !NothingSeen(p) {
      var c := LeastOf(p.high + p.low);
      if p.high != {} {
        var d :| d in p.high;
        assert c <= d < 32;
      }
    }
  }

  /**
   When a search fails, every channel that was free as the high quadlet was read is in the low
   half, and another client took it before the low quadlet was read.
   */
  lemma FailedSearchWasOvertaken(s: State, steps: seq<Step>, k: nat)
    requires Init(s) && Legal(s, steps)
    requires Enabled(Exec(s, steps), Choose(k)) && NothingSeen(Exec(s, steps).clients[k].phase)
    ensures var t := Exec(s, steps);
            var p := t.clients[k].phase;
            && p.highAt <= p.lowAt <= |t.history|
            && forall c :: c in FreeAt(t, p.highAt) ==>
                 c >= 32 && exists j :: p.highAt <= j < p.lowAt && t.history[j].Took?
                                        && t.history[j].channel == c && t.history[j].client != k
  {
    var t := Exec(s, steps);
    InvInit(s);
    InvAlongRun(s, steps);
    assert PhaseInv(t, k);
    var p := t.clients[k].phase;
    EmptyHalves(FreeAt(t, p.highAt), FreeAt(t, p.lowAt));
    forall c | c in FreeAt(t, p.highAt)
      ensures c >= 32 && exists j :: p.highAt <= j < p.lowAt && t.history[j].Took?
                                     && t.history[j].channel == c && t.history[j].client != k
    {
      LostByTaking(t, c, p.highAt, p.lowAt);
    }
  }

  lemma EmptyHalves(before: set<nat>, after: set<nat>)
    requires HighPart(before) + LowPart(after) == {}
    ensures forall c :: c in before ==> c >= 32 && c !in after
  {
    var high, low := HighPart(before), LowPart(after);
    assert high <= high + low && low <= high + low;
    assert forall c :: c in high <==> c in before && c < 32;
    assert forall c :: c in low <==> c in after && c >= 32;
  }

  lemma {:induction false} ReplayWithin(origin: set<nat>, history: seq<Event>)
    requires origin <= CHANNELS && forall j :: 0 <= j < |history| ==> history[j].channel in CHANNELS
    ensures Replay(origin, history) <= CHANNELS
  {
    if history != [] {
      ReplayWithin(origin, history[..|history| - 1]);
    }
  }

  /** The register that a client has put together from its two reads. */
  function RegisterSeen(s: State, p: Phase): (register: seq<byte>)
    requires p.BothRead? && p.highAt <= |s.history| && p.lowAt <= |s.history|
    ensures |register| == 8
  {
    RegisterOf(FreeAt(s, p.highAt))[..4] + RegisterOf(FreeAt(s, p.lowAt))[4..]
  }

  /** The choice is what getFreeChannel's search finds in that register. */
  lemma ChoiceIsFirstFree(s: State, steps: seq<Step>, k: nat)
    requires Init(s) && Legal(s, steps)
    requires Enabled(Exec(s, steps), Choose(k))
    ensures var t := Exec(s, steps);
            var p := t.clients[k].phase;
            && p.highAt <= |t.history| && p.lowAt <= |t.history|
            && var after := Apply(t, Choose(k)).clients[k].phase;
               && (after.Chosen? ==> IsLeast(after.channel, FreeChannels(RegisterSeen(t, p))))
               && (after.Idle? <==> FreeChannels(RegisterSeen(t, p)) == {})
  {
    var t := Exec(s, steps);
    InvInit(s);
    InvAlongRun(s, steps);
    assert PhaseInv(t, k);
    var p := t.clients[k].phase;
    ReplayWithin(t.origin, t.history[..p.highAt]);
    ReplayWithin(t.origin, t.history[..p.lowAt]);
    TornRegister(FreeAt(t, p.highAt), FreeAt(t, p.lowAt));
  }

  // ----- a torn read can miss every free channel

  function TornSteps(): seq<Step> {
    [ReadHigh(0), ReadHigh(2), ReadLow(2), Choose(2), Release(1, 3), Claim(2), ReadLow(0)]
  }

  /** At every instant of the run some channel is free. */
  ghost predicate NeverExhausted(s: State, steps: seq<Step>)
    requires Legal(s, steps)
    decreases |steps|
  {
    s.free != {} && (steps == [] || NeverExhausted(Apply(s, steps[0]), steps[1..]))
  }

  function TornState(free: set<nat>, c0: Phase, held1: set<nat>, c2: Client, history: seq<Event>): State {
    State({40}, free, map[0 := Client({}, c0), 1 := Client(held1, Idle), 2 := c2], history)
  }

  /** The states the torn run goes through. */
  function TornTrace(): seq<State> {
    var others := CHANNELS - {40};
    [ TornState({40}, Idle, others, Client({}, Idle), []),
      TornState({40}, HighRead({}, 0), others, Client({}, Idle), []),
      TornState({40}, HighRead({}, 0), others, Client({}, HighRead({}, 0)), []),
      TornState({40}, HighRead({}, 0), others, Client({}, BothRead({}, 0, {40}, 0)), []),
      TornState({40}, HighRead({}, 0), others, Client({}, Chosen(40, 0)), []),
      TornState({3, 40}, HighRead({}, 0), others - {3}, Client({}, Chosen(40, 0)), [Freed(1, 3)]),
      TornState({3}, HighRead({}, 0), others - {3}, Client({40}, Idle), [Freed(1, 3), Took(2, 40)]),
      TornState({3}, BothRead({}, 0, {}, 2), others - {3}, Client({40}, Idle), [Freed(1, 3), Took(2, 40)]) ]
  }

  lemma TornStep(i: nat)
    requires i < 7
    ensures Enabled(TornTrace()[i], TornSteps()[i])
    ensures Apply(TornTrace()[i], TornSteps()[i]) == TornTrace()[i + 1]
  {
    var s, step := TornTrace()[i], TornSteps()[i];
    if i < 3 {
      assert HighPart({40}) == {} && LowPart({40}) == {40};
    } else if i == 3 {
      assert s.clients[2].phase.high + s.clients[2].phase.low == {40};
      assert LeastOf({40}) == 40;
    } else if i == 4 {
      assert {40} + {3} == {3, 40};
    } else if i == 5 {
      assert {3, 40} - {40} == {3} && {} + {40} == {40};
    } else {
      assert LowPart({3}) == {};
    }
    assert Apply(s, step).clients == TornTrace()[i + 1].clients;
  }

  /**
   A client can be told that no channel is free although at every instant of the run one was:
   the free one moved from the half not yet read to the half already read.
   */
  lemma TornReadMissesFreeChannel()
    ensures var s := TornTrace()[0];
            && Init(s) && Legal(s, TornSteps()) && NeverExhausted(s, TornSteps())
            && var t := Exec(s, TornSteps()); Enabled(t, Choose(0)) && NothingSeen(t.clients[0].phase)
  {
    TornSuffix(0);
    TornInit();
    assert TornSteps()[0..] == TornSteps();
    assert TornTrace()[7].clients[0].phase == BothRead({}, 0, {}, 2);
  }

  lemma TornInit()
    ensures Init(TornTrace()[0])
  {
    var s := TornTrace()[0];
    forall c | c in CHANNELS && c !in s.free
      ensures exists k :: k in s.clients && c in s.clients[k].held
    {
      assert c in s.clients[1].held;
    }
  }

  lemma {:induction false} TornSuffix(i: nat)
    requires i <= 7
    ensures var s := TornTrace()[i];
            && Legal(s, TornSteps()[i..]) && NeverExhausted(s, TornSteps()[i..])
            && Exec(s, TornSteps()[i..]) == TornTrace()[7]
    decreases 7 - i
  {
    var s, rest := TornTrace()[i], TornSteps()[i..];
    assert s.free != {} by {
      assert 40 in s.free || 3 in s.free;
    }
    if i < 7 {
      TornStep(i);
      TornSuffix(i + 1);
      assert rest[0] == TornSteps()[i] && rest[1..] == TornSteps()[i + 1..];
    }
  }
}
