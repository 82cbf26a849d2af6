/**
 The isochronous resource manager as one process sees it: the channels it has allocated itself,
 those that others hold, and a script of what the others do between its transactions.
 */
module Irm {
  import opened Words
  import opened IrmRegister

  /** One transaction reaches the manager after the others have come to hold `others`, or fails. */
  datatype Event = Served(others: set<nat>) | Failed

  predicate NoFailure(script: seq<Event>) {
    forall e :: e in script ==> e != Failed
  }

  /** In a script without failures the others may come to hold anything at any transaction. */
  lemma EventKinds(script: seq<Event>)
    ensures NoFailure(script) <==> forall i :: 0 <= i < |script| ==> script[i].Served?
  {
    assert forall i :: 0 <= i < |script| ==> script[i] in script;
  }

  lemma NoFailureIsServed(script: seq<Event>)
    requires NoFailure(script)
    ensures IsServed(script) && NoFailure(Rest(script))
  {
    if script != [] {
      TailNoFailure(script);
    }
  }

  lemma TailNoFailure(script: seq<Event>)
    requires script != [] && NoFailure(script)
    ensures NoFailure(script[1..]) && script[0] != Failed
  {
    assert script[0] in script;
    forall e | e in script[1..]
      ensures e in script
    {
    }
  }

  predicate IsServed(script: seq<Event>) {
    script == [] || script[0].Served?
  }

  function Rest(script: seq<Event>): seq<Event> {
    if script == [] then [] else script[1..]
  }

  /**
   What the others hold when the next transaction is handled. They do not take away channels that
   this process holds.
   */
  function OthersNow(script: seq<Event>, others: set<nat>, mine: set<nat>): set<nat> {
    if script != [] && script[0].Served? then script[0].others * CHANNELS - mine else others
  }

  // ----- the transactions, as functions of what is the case before

  datatype View = View(script: seq<Event>, others: set<nat>, mine: set<nat>)

  predicate Consistent(v: View) {
    v.mine <= CHANNELS && v.others <= CHANNELS && v.mine !! v.others
  }

  /** The others have had their turn. */
  function Turned(v: View): View {
    View(Rest(v.script), OthersNow(v.script, v.others, v.mine), v.mine)
  }

  /** claimChannel */
  function Claimed(v: View, c: nat): View {
    var w := Turned(v);
    if IsServed(v.script) && c !in w.mine && c !in w.others then w.(mine := w.mine + {c}) else w
  }

  /** releaseChannel, which frees the channel whoever holds it. */
  function Released(v: View, c: nat): View {
    var w := Turned(v);
    if IsServed(v.script) then w.(mine := w.mine - {c}, others := w.others - {c}) else w
  }

  /** What getFreeChannel sees: each half of the register at its own instant. */
  ghost function Seen(v: View): set<nat> {
    HighPart(CHANNELS - v.mine - Turned(v).others) + LowPart(CHANNELS - v.mine - Turned(Turned(v)).others)
  }

  /** Both reads of getFreeChannel are served. */
  predicate BothServed(v: View) {
    IsServed(v.script) && IsServed(Rest(v.script))
  }

  /** What is the case after getFreeChannel. */
  function Searched(v: View): View {
    if IsServed(v.script) then Turned(Turned(v)) else Turned(v)
  }

  /** getFreeChannel and claimChannel, and the channel claimed. */
  ghost function Created(v: View): (View, Option<nat>) {
    var w := Searched(v);
    if !BothServed(v) || Seen(v) == {} then (w, None)
    else
      var c := LeastOf(Seen(v));
      (Claimed(w, c), if c in Claimed(w, c).mine then Some(c) else None)
  }

  /** A channel that was claimed is a least channel seen, was not held before, and is the only change. */
  lemma CreatedIsLeast(v: View)
    requires Consistent(v)
    ensures var (w, c) := Created(v);
            && Consistent(w)
            && w.mine == (if c.Some? then v.mine + {c.value} else v.mine)
            && (c.Some? ==> IsLeast(c.value, Seen(v)) && c.value in CHANNELS && c.value !in v.mine)
  {
  }

  /** It fails exactly if a read is not served, nothing is seen, or the claim is not served or comes too late. */
  lemma CreatedIff(v: View)
    requires Consistent(v)
    ensures var claim := Searched(v);
            Created(v).1.Some? <==>
            && BothServed(v) && Seen(v) != {} && IsServed(claim.script)
            && forall c: nat :: IsLeast(c, Seen(v)) ==> c !in Turned(claim).others
  {
  }

  lemma LeastIsUnique(s: set<nat>)
    requires s != {}
    ensures forall c: nat :: IsLeast(c, s) <==> c == LeastOf(s)
  {
    assert forall c: nat :: IsLeast(c, s) ==> c <= LeastOf(s) && LeastOf(s) <= c;
  }

  // ----- the same, transaction by transaction

  /** A transaction that is served sees what the others have come to hold; one that fails changes nothing. */
  lemma ReleasedThen(others: set<nat>, mine: set<nat>, now: set<nat>, rest: seq<Event>, c: nat)
    ensures Released(View([Served(now)] + rest, others, mine), c) ==
            View(rest, (set d: nat | d in now && d < 64 && d !in mine && d != c), mine - {c})
    ensures Released(View([Failed] + rest, others, mine), c) == View(rest, others, mine)
    ensures Released(View([], others, mine), c) == View([], others - {c}, mine - {c})
  {
  }

  lemma ClaimedThen(others: set<nat>, mine: set<nat>, now: set<nat>, rest: seq<Event>, c: nat)
    ensures Claimed(View([Served(now)] + rest, others, mine), c) ==
            View(rest, (set d: nat | d in now && d < 64 && d !in mine),
                 if c in now && c < 64 then mine else mine + {c})
    ensures Claimed(View([Failed] + rest, others, mine), c) == View(rest, others, mine)
    ensures Claimed(View([], others, mine), c) == View([], others, if c in others then mine else mine + {c})
  {
    assert [Served(now)] + rest != [] && ([Served(now)] + rest)[1..] == rest;
    assert c in mine ==> mine + {c} == mine;
  }

  /**
   The search shows channels 0 to 31 as they are at its first transaction and channels 32 to 63 as
   they are at its second one.
   */
  lemma SeenThen(v: View, first: set<nat>, second: set<nat>, rest: seq<Event>)
    requires v.script == [Served(first), Served(second)] + rest
    ensures forall c: nat :: c in Seen(v) <==> c < 64 && c !in v.mine && c !in (if c < 32 then first else second)
    ensures Searched(v) == View(rest, (set d: nat | d in second && d < 64 && d !in v.mine), v.mine)
  {
    assert v.script[1..] == [Served(second)] + rest && v.script[1..][1..] == rest;
  }

  /** Search and claim, the others holding `first`, `second` and `third` at the three transactions. */
  lemma CreatedThen(v: View, first: set<nat>, second: set<nat>, third: set<nat>, rest: seq<Event>, c: nat)
    requires Consistent(v) && v.script == [Served(first), Served(second), Served(third)] + rest
    requires c < 64 && c !in v.mine && c !in (if c < 32 then first else second)
    requires forall d: nat :: d < c ==> d in v.mine || d in (if d < 32 then first else second)
    ensures Created(v) == (View(rest, (set d: nat | d in third && d < 64 && d !in v.mine),
                                if c in third then v.mine else v.mine + {c}),
                           if c in third then None else Some(c))
  {
    var rest' := [Served(third)] + rest;
    assert v.script == [Served(first), Served(second)] + rest';
    SeenThen(v, first, second, rest');
    LeastIsUnique(Seen(v));
    assert IsLeast(c, Seen(v));
    assert rest'[1..] == rest;
    ClaimedThen(Searched(v).others, v.mine, third, rest, c);
  }

  class ResourceManager {
    var mine: set<nat>
    var others: set<nat>
    var script: seq<Event>

    ghost predicate Valid()
      reads this
    {
      mine <= CHANNELS && others <= CHANNELS && mine !! others
    }

    constructor (others: set<nat>, script: seq<Event>)
      requires others <= CHANNELS
      ensures Valid() && mine == {} && this.others == others && this.script == script
    {
      mine, this.others, this.script := {}, others, script;
    }

    function Free(): set<nat>
      reads this
    {
      CHANNELS - mine - others
    }

    ghost function Now(): View
      reads this
    {
      View(script, others, mine)
    }

    /** Lets the others act and tells whether the next transaction is served. */
    method Turn() returns (served: bool)
      requires Valid()
      modifies this`others, this`script
      ensures Valid() && Now() == Turned(old(Now()))
      ensures served == IsServed(old(script))
      ensures NoFailure(old(script)) ==> served && NoFailure(script)
    {
      if script == [] {
        return true;
      }
      if NoFailure(script) {
        TailNoFailure(script);
      }
      var e := script[0];
      script := script[1..];
      match e {
        case Failed => served := false;
        case Served(now) =>
          others := (now * CHANNELS) - mine;
          served := true;
      }
    }

    /** getFreeChannel: two quadlet reads, then the search. */
    method GetFreeChannel() returns (r: Result<nat>)
      requires Valid()
      modifies this`others, this`script
      ensures Valid() && Now() == Searched(old(Now()))
      ensures r.Ok? <==> BothServed(old(Now())) && Seen(old(Now())) != {}
      ensures r.Ok? ==> IsLeast(r.value, Seen(old(Now()))) && r.value in CHANNELS && r.value !in mine
      ensures NoFailure(old(script)) ==> NoFailure(script)
      ensures old(script) == [] ==>
                script == [] && others == old(others) && (r.Err? <==> Free() == {})
                  && (r.Ok? ==> IsLeast(r.value, Free()))
    {
      ghost var start := Now();
      var served := Turn();
      if !served {
        return Err;
      }
      ghost var high := Free();
      var first := RegisterOf(Free())[..4];
      served := Turn();
      if !served {
        return Err;
      }
      ghost var low := Free();
      var second := RegisterOf(Free())[4..];
      TornRegister(high, low);
      assert Seen(start) == HighPart(high) + LowPart(low);
      r := FirstFreeChannel(first + second);
      if old(script) == [] {
        assert HighPart(high) + LowPart(low) == Free();
      }
    }

    /** The whole register in one block read; `seen` is what was free at that instant. */
    method ReadRegister() returns (r: Result<seq<byte>>, ghost seen: set<nat>)
      requires Valid()
      modifies this`others, this`script
      ensures Valid() && Now() == Turned(old(Now()))
      ensures r.Ok? <==> IsServed(old(script))
      ensures r.Ok? ==> |r.value| == 8 && FreeChannels(r.value) == seen && seen <= CHANNELS && seen !! mine
      ensures r.Ok? ==> seen == Free()
      ensures NoFailure(old(script)) ==> r.Ok? && NoFailure(script)
      ensures old(script) == [] ==> script == [] && others == old(others) && seen == old(Free())
    {
      seen := Free();
      var served := Turn();
      if !served {
        return Err, seen;
      }
      seen := Free();
      RegisterRoundTrip(seen);
      r := Ok(RegisterOf(Free()));
    }

    /** claimChannel */
    method Claim(c: nat) returns (r: Result<()>)
      requires Valid() && c in CHANNELS
      modifies this
      ensures Valid() && Now() == Claimed(old(Now()), c)
      ensures r.Ok? <==> IsServed(old(script)) && c !in old(mine) && c !in others
      ensures mine == if r.Ok? then old(mine) + {c} else old(mine)
      ensures NoFailure(old(script)) ==> NoFailure(script)
      ensures old(script) == [] ==> script == [] && others == old(others) && (r.Ok? <==> c in old(Free()))
    {
      var served := Turn();
      if !served || c !in Free() {
        return Err;
      }
      mine := mine + {c};
      return Ok(());
    }

    /** releaseChannel: fails when the channel is free already; it does not ask whose it is. */
    method Release(c: nat) returns (r: Result<()>)
      requires Valid() && c in CHANNELS
      modifies this
      ensures Valid() && Now() == Released(old(Now()), c)
      ensures var before := Turned(old(Now()));
              r.Ok? <==> IsServed(old(script)) && (c in before.mine || c in before.others)
      ensures mine == if r.Ok? then old(mine) - {c} else old(mine)
      ensures NoFailure(old(script)) ==> NoFailure(script) && (c in old(mine) ==> r.Ok?)
      ensures old(script) == [] ==> script == [] && others == old(others) - {c} && mine == old(mine) - {c}
    {
      var served := Turn();
      if !served || c in Free() {
        return Err;
      }
      mine := mine - {c};
      others := others - {c};
      return Ok(());
    }
  }
}
