/** Searching the bus for a Phantom, claiming all of them and releasing them again. */
module PhantomSearch {
  import opened Words
  import opened Raw1394
  import opened FirewireDevice
  import opened DeviceRegistry
  import opened DeviceIterator

  // ----- a full pass of the iterator

  ghost predicate NoRepeats(visits: seq<Place>) {
    forall i, j :: 0 <= i < j < |visits| ==> visits[i] != visits[j]
  }

  lemma VisitsDoNotRepeat(bus: Bus)
    requires BusOk(bus)
    ensures NoRepeats(VisitsFrom(bus, 0))
  {
    var v := VisitsFrom(bus, 0);
    forall i, j | 0 <= i < j < |v|
      ensures v[i] != v[j]
    {
      VisitsAscend(bus, 0, i, j);
    }
  }

  /** Opening places that are not to come does not change what is still to come. */
  lemma {:induction false} OpenedElsewhere(visits: seq<Place>, open: set<Place>, more: set<Place>)
    requires forall p :: p in more ==> p !in visits
    ensures Skip(visits, open + more) == Skip(visits, open)
    ensures NotOpen(visits, open + more) == NotOpen(visits, open)
  {
    if visits != [] {
      assert visits[0] in visits;
      OpenedElsewhere(visits[1..], open, more);
    }
  }

  /** The devices of a pass that the caller keeps. */
  function Kept(yielded: seq<Place>, keep: set<Place>): seq<Place> {
    if yielded == [] then []
    else Kept(yielded[..|yielded| - 1], keep) + if yielded[|yielded| - 1] in keep then [yielded[|yielded| - 1]] else []
  }

  ghost function PlacesInOrder(devices: seq<Device>): seq<Place> {
    seq(|devices|, i requires 0 <= i < |devices| => (devices[i].port, devices[i].node))
  }

  lemma PlacesOfKept(live: seq<Device?>, kept: seq<Device>)
    requires AllThere(live)
    ensures AllThere(live + kept)
    ensures Places(live + kept) == Places(live) + set p | p in PlacesInOrder(kept)
  {
    var all := live + kept;
    forall i | 0 <= i < |all|
      ensures all[i] != null && all[i] == if i < |live| then live[i] else kept[i - |live|]
    {
    }
    var more := set p | p in PlacesInOrder(kept);
    forall p | p in Places(live) + more
      ensures p in Places(all)
    {
      if p in Places(live) {
        var i :| 0 <= i < |live| && p == (live[i].port, live[i].node);
        assert p == (all[i].port, all[i].node);
      } else {
        var i :| 0 <= i < |kept| && p == PlacesInOrder(kept)[i];
        assert all[|live| + i] == kept[i];
        assert p == (all[|live| + i].port, all[|live| + i].node);
      }
    }
    forall p | p in Places(all)
      ensures p in Places(live) + more
    {
      var i :| 0 <= i < |all| && p == (all[i].port, all[i].node);
      if i >= |live| {
        assert PlacesInOrder(kept)[i - |live|] == p;
      }
    }
  }

  /** How far a pass has got: what was yielded and what is to come make up the closed places. */
  ghost predicate PassInv(all: seq<Place>, open: set<Place>, rest: seq<Place>, yielded: seq<Place>, kept: seq<Place>,
                          keep: set<Place>)
  {
    && kept == Kept(yielded, keep)
    && yielded + NotOpen(rest, open) == NotOpen(all, open)
    && NoRepeats(rest)
    && forall p :: p in kept ==> p !in rest
  }

  lemma PassStep(all: seq<Place>, open: set<Place>, rest: seq<Place>, yielded: seq<Place>, kept: seq<Place>,
                 keep: set<Place>)
    requires PassInv(all, open, rest, yielded, kept, keep)
    ensures var r := Skip(rest, open + set p | p in kept);
            if r == [] then yielded == NotOpen(all, open)
            else PassInv(all, open, r[1..], yielded + [r[0]], kept + (if r[0] in keep then [r[0]] else []), keep)
  {
    OpenedElsewhere(rest, open, set p | p in kept);
    SkipThenNotOpen(rest, open);
    if Skip(rest, open) == [] {
      assert yielded + [] == yielded;
    } else {
      PassOn(all, open, rest, yielded, kept, keep);
    }
  }

  lemma PassOn(all: seq<Place>, open: set<Place>, rest: seq<Place>, yielded: seq<Place>, kept: seq<Place>,
               keep: set<Place>)
    requires PassInv(all, open, rest, yielded, kept, keep) && Skip(rest, open) != []
    ensures var r := Skip(rest, open);
            PassInv(all, open, r[1..], yielded + [r[0]], kept + (if r[0] in keep then [r[0]] else []), keep)
  {
    var r := Skip(rest, open);
    SkipThenNotOpen(rest, open);
    SkipParts(rest, open);
    YieldOne(yielded, r[0], keep);
    MoveOne(yielded, r[0], NotOpen(r[1..], open));
  }

  lemma MoveOne(first: seq<Place>, p: Place, rest: seq<Place>)
    ensures first + [p] + rest == first + ([p] + rest)
  {
  }

  lemma YieldOne(yielded: seq<Place>, p: Place, keep: set<Place>)
    ensures Kept(yielded + [p], keep) == Kept(yielded, keep) + if p in keep then [p] else []
  {
    var longer := yielded + [p];
    assert longer[..|longer| - 1] == yielded;
  }

  /** Of what is left after skipping, the tail has neither repeats nor anything new. */
  lemma {:induction false} SkipParts(visits: seq<Place>, open: set<Place>)
    requires NoRepeats(visits)
    ensures var r := Skip(visits, open);
            r != [] ==> NoRepeats(r[1..]) && r[0] !in r[1..] && forall p :: p in r[1..] ==> p in visits
  {
    if visits != [] && visits[0] in open {
      SkipParts(visits[1..], open);
    }
  }

  /** Asks the iterator for a device and closes it again unless the caller wants to keep it. */
  method TakeNext(it: DeviceIterator, keep: set<Place>) returns (p: Option<Place>, ghost kept: seq<Device>)
    requires it.Valid() && it.registry.Valid() && BusOk(it.registry.bus)
    modifies it, it.registry`openDevices, it.registry`count, it.registry.openDevices
    ensures it.Valid() && it.registry.Valid()
    ensures it.registry.openDevices == old(it.registry.openDevices) || fresh(it.registry.openDevices)
    ensures it.registry.Live() == old(it.registry.Live()) + kept
    ensures var r := Skip(old(it.Rest()), Places(old(it.registry.Live())));
            if r == [] then p == None && it.Rest() == [] && kept == []
            else p == Some(r[0]) && it.Rest() == r[1..] && PlacesInOrder(kept) == if r[0] in keep then [r[0]] else []
  {
    ghost var live := it.registry.Live();
    var d := it.Next();
    kept := [];
    assert live + [] == live;
    if d == null {
      return None, [];
    }
    p := Some((d.port, d.node));
    if (d.port, d.node) in keep {
      kept := [d];
    } else {
      it.registry.Close(d);
      assert (live + [d])[..|live|] == live;
    }
  }

  /**
   One pass in which the caller keeps the devices it wants and closes the others at once. It
   gets exactly the devices that were not open at the start, each once, in order.
   */
  method FullPass(registry: Registry, keep: set<Place>) returns (yielded: seq<Place>, ghost kept: seq<Device>)
    requires registry.Valid() && BusOk(registry.bus)
    modifies registry`openDevices, registry`count, registry.openDevices
    ensures registry.Valid()
    ensures registry.openDevices == old(registry.openDevices) || fresh(registry.openDevices)
    ensures yielded == NotOpen(VisitsFrom(registry.bus, 0), Places(old(registry.Live())))
    ensures registry.Live() == old(registry.Live()) + kept
    ensures PlacesInOrder(kept) == Kept(yielded, keep)
  {
    var it := new DeviceIterator(registry);
    ghost var live := registry.Live();
    ghost var open := Places(live);
    ghost var all := it.Rest();
    yielded, kept := [], [];
    VisitsDoNotRepeat(registry.bus);
    while true
      invariant it.Valid() && registry.Valid()
      invariant registry.openDevices == old(registry.openDevices) || fresh(registry.openDevices)
      invariant registry.Live() == live + kept
      invariant PassInv(all, open, it.Rest(), yielded, PlacesInOrder(kept), keep)
      decreases |it.Rest()|
    {
      PlacesOfKept(live, kept);
      PassStep(all, open, it.Rest(), yielded, PlacesInOrder(kept), keep);
      SkipThenNotOpen(it.Rest(), Places(registry.Live()));
      ghost var more;
      var p;
      p, more := TakeNext(it, keep);
      if p.None? {
        assert live + kept + more == live + kept;
        return;
      }
      KeepMore(live, kept, more);
      kept := kept + more;
      yielded := yielded + [p.value];
    }
  }

  lemma KeepMore(live: seq<Device?>, kept: seq<Device>, more: seq<Device>)
    ensures PlacesInOrder(kept + more) == PlacesInOrder(kept) + PlacesInOrder(more)
    ensures live + kept + more == live + (kept + more)
  {
  }

  /** After a pass that keeps everything, a second pass finds nothing. */
  lemma {:induction false} NothingLeft(visits: seq<Place>, open: set<Place>, more: set<Place>)
    requires forall p :: p in NotOpen(visits, open) ==> p in more
    ensures NotOpen(visits, open + more) == []
  {
    if visits != [] {
      NothingLeft(visits[1..], open, more);
      assert visits[0] !in open ==> NotOpen(visits, open)[0] in more;
    }
  }

  lemma {:induction false} AllKept(yielded: seq<Place>, keep: set<Place>)
    requires forall p :: p in yielded ==> p in keep
    ensures Kept(yielded, keep) == yielded
  {
    if yielded != [] {
      AllKept(yielded[..|yielded| - 1], keep);
    }
  }

  /** A first pass that keeps every device, and a second one that gets none. */
  method PassTwice(registry: Registry) returns (first: seq<Place>, second: seq<Place>)
    requires registry.Valid() && BusOk(registry.bus)
    modifies registry`openDevices, registry`count, registry.openDevices
    ensures registry.Valid()
    ensures first == NotOpen(VisitsFrom(registry.bus, 0), Places(old(registry.Live())))
    ensures second == []
  {
    ghost var visits, live := VisitsFrom(registry.bus, 0), registry.Live();
    var everything := set p | p in VisitsFrom(registry.bus, 0);
    ghost var kept, keptAgain;
    first, kept := FullPass(registry, everything);
    forall p | p in first
      ensures p in everything
    {
      NotOpenAre(visits, Places(live), p);
    }
    AllKept(first, everything);
    PlacesOfKept(live, kept);
    NothingLeft(visits, Places(live), set p | p in PlacesInOrder(kept));
    second, keptAgain := FullPass(registry, everything);
  }

  // ----- the search for a Phantom

  /** findPhantom stops at this place: it finds its Phantom there, or an exception. */
  predicate Stops(bus: Bus, p: Place, serial: nat) {
    match Identify(ImageAt(bus, p))
    case Unreadable => true
    case Foreign => false
    case Sensable(s) => serial == 0 || s == serial
  }

  /** The visits from the first place on that is not open and stops the search. */
  ghost function FirstStop(bus: Bus, visits: seq<Place>, open: set<Place>, serial: nat): (r: seq<Place>)
    ensures r != [] ==> r[0] !in open && Stops(bus, r[0], serial)
  {
    if visits == [] || (visits[0] !in open && Stops(bus, visits[0], serial)) then visits
    else FirstStop(bus, visits[1..], open, serial)
  }

  /** Everything before the stop is open already or does not stop the search. */
  lemma {:induction false} FirstStopIsFirst(bus: Bus, visits: seq<Place>, open: set<Place>, serial: nat)
    ensures var r := FirstStop(bus, visits, open, serial);
            && Suffix(r, visits)
            && (forall i :: 0 <= i < |visits| - |r| && visits[i] !in open ==>
                  match Identify(ImageAt(bus, visits[i]))
                  case Unreadable => false
                  case Foreign => true
                  case Sensable(s) => serial != 0 && s != serial)
            && (r != [] ==>
                  r[0] !in open && match Identify(ImageAt(bus, r[0]))
                                   case Unreadable => true
                                   case Foreign => false
                                   case Sensable(s) => serial == 0 || s == serial)
  {
    if visits != [] && !(visits[0] !in open && Stops(bus, visits[0], serial)) {
      FirstStopIsFirst(bus, visits[1..], open, serial);
    }
  }

  lemma {:induction false} StopAfterSkip(bus: Bus, visits: seq<Place>, open: set<Place>, serial: nat)
    ensures var r := Skip(visits, open);
            FirstStop(bus, visits, open, serial) ==
            if r == [] || Stops(bus, r[0], serial) then r else FirstStop(bus, r[1..], open, serial)
  {
    if visits != [] && visits[0] in open {
      StopAfterSkip(bus, visits[1..], open, serial);
    }
  }

  datatype Search = Found(device: Device, serial: quadlet) | NotFound | Threw

  /** The result and the final table of a search that stops at the head of `stop`. */
  ghost predicate SearchResult(bus: Bus, stop: seq<Place>, before: seq<Device?>, after: seq<Device?>, r: Search) {
    if stop == [] then r == NotFound && after == before
    else
      && |after| == |before| + 1 && after[..|before|] == before
      && after[|before|] != null && (after[|before|].port, after[|before|].node) == stop[0]
      && Answers(bus, stop[0], after[|before|], r)
  }

  /** What the search makes of the place where it stops. */
  ghost predicate Answers(bus: Bus, p: Place, d: Device, r: Search) {
    match Identify(ImageAt(bus, p))
    case Unreadable => r == Threw
    case Foreign => false
    case Sensable(s) => r == Found(d, s)
  }

  /** An open device can be asked again, with transactions that are as free of failures as before. */
  ghost predicate CanBeAsked(bus: Bus, d: Device)
    reads d.com
  {
    && d.com.memory == ImageAt(bus, (d.port, d.node))
    && (Clean(DelaysAt(bus, (d.port, d.node))) ==> Clean(d.com.script))
  }

  /** The questions put to a device that was just opened, and whether the search stops there. */
  method Judge(d: Device, serial: quadlet, ghost bus: Bus, ghost p: Place) returns (stops: bool, r: Search)
    requires d.Valid() && !d.configRomRead && d.com.memory == ImageAt(bus, p) && d.com.script == DelaysAt(bus, p)
    modifies d, d.com`script, d.com`log
    ensures r.Found? ==> r.device == d
    ensures Clean(DelaysAt(bus, p)) ==> Clean(d.com.script)
    ensures || (stops && r == Threw && !Clean(DelaysAt(bus, p)))
            || (stops == Stops(bus, p, serial) && (stops ==> Answers(bus, p, d, r)))
  {
    var examined := d.Examine();
    if examined.Err? {
      return true, Threw;
    }
    if examined.value.Some? {
      var deviceSerial := examined.value.value;
      if serial == 0 || serial == deviceSerial {
        return true, Found(d, deviceSerial);
      }
    }
    return false, NotFound;
  }

  /** Puts the questions to the device that was opened last and closes it unless the search stops there. */
  method JudgeLast(registry: Registry, d: Device, serial: quadlet, ghost live: seq<Device?>)
    returns (done: bool, r: Search)
    requires registry.Valid() && registry.Live() == live + [d]
    requires d.Valid() && !d.configRomRead && d.com.memory == ImageAt(registry.bus, (d.port, d.node))
    requires d.com.script == DelaysAt(registry.bus, (d.port, d.node))
    modifies d, d.com`script, d.com`log, registry`count, registry.openDevices
    ensures registry.Valid() && registry.Live() == if done then live + [d] else live
    ensures CanBeAsked(registry.bus, d) && (r.Found? ==> r.device == d)
    ensures var bus, p := registry.bus, (d.port, d.node);
            || (done && r == Threw && !Clean(DelaysAt(bus, p)))
            || (done == Stops(bus, p, serial) && (done ==> Answers(bus, p, d, r)))
  {
    done, r := Judge(d, serial, registry.bus, (d.port, d.node));
    if !done {
      registry.Close(d);
      assert (live + [d])[..|live|] == live;
    }
  }

  /**
   The search ends with an exception at a place where a transaction fails for good; the device
   stays in the table.
   */
  ghost predicate Interrupted(bus: Bus, p: Place, before: seq<Device?>, after: seq<Device?>, r: Search) {
    && r == Threw && !Clean(DelaysAt(bus, p))
    && |after| == |before| + 1 && after[..|before|] == before
    && after[|before|] != null && (after[|before|].port, after[|before|].node) == p
  }

  /** That happens no later than where the search would stop. */
  ghost predicate InterruptedOnTheWay(bus: Bus, visits: seq<Place>, stop: seq<Place>, before: seq<Device?>,
                                     after: seq<Device?>, r: Search)
  {
    exists i :: 0 <= i < |visits| && i <= |visits| - |stop| && Interrupted(bus, visits[i], before, after, r)
  }

  lemma NoInterruption(bus: Bus, visits: seq<Place>, stop: seq<Place>, before: seq<Device?>, after: seq<Device?>,
                       r: Search)
    requires CleanBus(bus)
    ensures !InterruptedOnTheWay(bus, visits, stop, before, after, r)
  {
  }

  /**
   One round of the loop of findPhantom: opens the next device and, unless the search stops
   there, closes it again.
   */
  method SearchStep(it: DeviceIterator, serial: quadlet) returns (done: bool, r: Search)
    requires it.Valid() && it.registry.Valid() && BusOk(it.registry.bus)
    modifies it, it.registry`openDevices, it.registry`count, it.registry.openDevices
    ensures it.Valid() && it.registry.Valid()
    ensures it.registry.openDevices == old(it.registry.openDevices) || fresh(it.registry.openDevices)
    ensures var rest := Skip(old(it.Rest()), Places(old(it.registry.Live())));
            var bus := it.registry.bus;
            || (rest != [] && done && Interrupted(bus, rest[0], old(it.registry.Live()), it.registry.Live(), r))
            || if rest == [] || Stops(bus, rest[0], serial)
               then done && SearchResult(bus, rest, old(it.registry.Live()), it.registry.Live(), r)
               else !done && it.Rest() == rest[1..] && it.registry.Live() == old(it.registry.Live())
    ensures r.Found? ==> fresh(r.device) && fresh(r.device.com) && CanBeAsked(it.registry.bus, r.device)
  {
    ghost var live := it.registry.Live();
    var d := it.Next();
    if d == null {
      return true, NotFound;
    }
    done, r := JudgeLast(it.registry, d, serial, live);
  }

  /** One round of the search, on the places that are still to come. */
  lemma NextStop(bus: Bus, todo: seq<Place>, visits: seq<Place>, open: set<Place>, serial: nat)
    requires Suffix(todo, visits)
    ensures var rest, stop := Skip(todo, open), FirstStop(bus, todo, open, serial);
            if rest == [] || Stops(bus, rest[0], serial) then stop == rest
            else FirstStop(bus, rest[1..], open, serial) == stop && Suffix(rest[1..], visits) && |rest[1..]| < |todo|
    ensures var rest, stop := Skip(todo, open), FirstStop(bus, todo, open, serial);
            rest != [] ==>
              var i := |visits| - |rest|; 0 <= i <= |visits| - |stop| && i < |visits| && visits[i] == rest[0]
  {
    var rest := Skip(todo, open);
    StopAfterSkip(bus, todo, open, serial);
    SkipThenNotOpen(todo, open);
    SuffixTransitive(rest, todo, visits);
    if rest != [] {
      StopIsLater(bus, rest, visits, open, serial);
      SuffixTransitive(rest[1..], rest, visits);
    }
  }

  /** The first place left is not behind the place where the search would stop. */
  lemma StopIsLater(bus: Bus, rest: seq<Place>, visits: seq<Place>, open: set<Place>, serial: nat)
    requires rest != [] && Suffix(rest, visits)
    ensures var i := |visits| - |rest|;
            var stop := if Stops(bus, rest[0], serial) then rest else FirstStop(bus, rest[1..], open, serial);
            visits[i] == rest[0] && i <= |visits| - |stop|
  {
    FirstStopIsFirst(bus, rest[1..], open, serial);
  }

  /** The loop of findPhantom. */
  method SearchLoop(registry: Registry, serial: quadlet) returns (r: Search)
    requires registry.Valid() && BusOk(registry.bus)
    modifies registry`openDevices, registry`count, registry.openDevices
    ensures registry.Valid()
    ensures registry.openDevices == old(registry.openDevices) || fresh(registry.openDevices)
    ensures var visits := VisitsFrom(registry.bus, 0);
            var stop := FirstStop(registry.bus, visits, Places(old(registry.Live())), serial);
            || SearchResult(registry.bus, stop, old(registry.Live()), registry.Live(), r)
            || InterruptedOnTheWay(registry.bus, visits, stop, old(registry.Live()), registry.Live(), r)
    ensures CleanBus(registry.bus) ==>
              SearchResult(registry.bus,
                           FirstStop(registry.bus, VisitsFrom(registry.bus, 0), Places(old(registry.Live())), serial),
                           old(registry.Live()), registry.Live(), r)
    ensures r.Found? ==> fresh(r.device) && fresh(r.device.com) && CanBeAsked(registry.bus, r.device)
  {
    var it := new DeviceIterator(registry);
    ghost var live := registry.Live();
    ghost var visits := it.Rest();
    ghost var stop := FirstStop(registry.bus, visits, Places(live), serial);
    while true
      invariant it.Valid() && registry.Valid()
      invariant registry.openDevices == old(registry.openDevices) || fresh(registry.openDevices)
      invariant registry.Live() == live
      invariant Suffix(it.Rest(), visits)
      invariant FirstStop(registry.bus, it.Rest(), Places(live), serial) == stop
      decreases |it.Rest()|
    {
      NextStop(registry.bus, it.Rest(), visits, Places(live), serial);
      var done;
      done, r := SearchStep(it, serial);
      if done {
        if CleanBus(registry.bus) {
          NoInterruption(registry.bus, visits, stop, live, registry.Live(), r);
        }
        return;
      }
    }
  }

  /** What the result of a search says about the places. */
  lemma SearchMeans(bus: Bus, visits: seq<Place>, open: set<Place>, serial: nat, before: seq<Device?>,
                    after: seq<Device?>, r: Search)
    requires SearchResult(bus, FirstStop(bus, visits, open, serial), before, after, r)
    ensures r.Found? ==>
              && Identify(ImageAt(bus, (r.device.port, r.device.node))) == Sensable(r.serial)
              && (serial == 0 || r.serial == serial) && after == before + [r.device]
    ensures r.NotFound? ==>
              forall p :: p in visits && p !in open ==>
                match Identify(ImageAt(bus, p))
                case Unreadable => false
                case Foreign => true
                case Sensable(s) => serial != 0 && s != serial
    ensures r.Threw? ==>
              LeftBehind(visits, before, after) && Identify(ImageAt(bus, PlaceOfLast(after))).Unreadable?
  {
    FirstStopIsFirst(bus, visits, open, serial);
    var stop := FirstStop(bus, visits, open, serial);
    if stop != [] {
      assert visits[|visits| - |stop|] == stop[0];
    }
  }

  lemma InterruptionMeans(bus: Bus, visits: seq<Place>, stop: seq<Place>, before: seq<Device?>, after: seq<Device?>,
                          r: Search)
    requires InterruptedOnTheWay(bus, visits, stop, before, after, r)
    ensures r == Threw && LeftBehind(visits, before, after) && !CleanBus(bus)
  {
    var i :| 0 <= i < |visits| && i <= |visits| - |stop| && Interrupted(bus, visits[i], before, after, r);
  }

  ghost function PlaceOfLast(live: seq<Device?>): Place
    requires live != [] && live[|live| - 1] != null
  {
    (live[|live| - 1].port, live[|live| - 1].node)
  }

  /** One device was opened at one of the places and stays in the table. */
  ghost predicate LeftBehind(visits: seq<Place>, before: seq<Device?>, after: seq<Device?>) {
    && |after| == |before| + 1 && after[..|before|] == before && after[|before|] != null
    && PlaceOfLast(after) in visits
  }

  /**
   findPhantom: the first place in (port, node) order that is not open and holds a SensAble
   device with the serial, or any SensAble device for serial 0. The device is left open; every
   other device that was tried is closed. A node that does not answer ends the search with an
   exception, and its device stays in the table; so does a transaction that fails for good on the
   way.
   */
  method FindPhantom(registry: Registry, serial: quadlet) returns (r: Search)
    requires registry.Valid() && BusOk(registry.bus)
    modifies registry`openDevices, registry`count, registry.openDevices
    ensures registry.Valid()
    ensures registry.openDevices == old(registry.openDevices) || fresh(registry.openDevices)
    ensures var visits := VisitsFrom(registry.bus, 0);
            var stop := FirstStop(registry.bus, visits, Places(old(registry.Live())), serial);
            || SearchResult(registry.bus, stop, old(registry.Live()), registry.Live(), r)
            || InterruptedOnTheWay(registry.bus, visits, stop, old(registry.Live()), registry.Live(), r)
    ensures CleanBus(registry.bus) ==>
              SearchResult(registry.bus,
                           FirstStop(registry.bus, VisitsFrom(registry.bus, 0), Places(old(registry.Live())), serial),
                           old(registry.Live()), registry.Live(), r)
    ensures r.Found? ==> fresh(r.device) && fresh(r.device.com) && CanBeAsked(registry.bus, r.device)
    ensures r.Found? ==>
              && Identify(r.device.com.memory) == Sensable(r.serial) && (serial == 0 || r.serial == serial)
              && registry.Live() == old(registry.Live()) + [r.device]
    ensures r.NotFound? ==>
              forall p :: p in VisitsFrom(registry.bus, 0) && p !in Places(old(registry.Live())) ==>
                match Identify(ImageAt(registry.bus, p))
                case Unreadable => false
                case Foreign => true
                case Sensable(s) => serial != 0 && s != serial
    ensures r.Threw? ==>
              && LeftBehind(VisitsFrom(registry.bus, 0), old(registry.Live()), registry.Live())
              && (CleanBus(registry.bus) ==> Identify(ImageAt(registry.bus, PlaceOfLast(registry.Live()))).Unreadable?)
  {
    ghost var visits, open := VisitsFrom(registry.bus, 0), Places(registry.Live());
    ghost var live := registry.Live();
    r := SearchLoop(registry, serial);
    ghost var stop := FirstStop(registry.bus, visits, open, serial);
    if SearchResult(registry.bus, stop, live, registry.Live(), r) {
      SearchMeans(registry.bus, visits, open, serial, live, registry.Live(), r);
    } else {
      InterruptionMeans(registry.bus, visits, stop, live, registry.Live(), r);
    }
  }
}
