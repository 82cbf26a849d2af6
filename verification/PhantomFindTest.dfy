/**
 The scenario of the phantom_find test: claim every Phantom, release them in reverse order, find
 the last one again by its serial, and try to find it a second time.
 */
module PhantomFindTest {
  import opened Words
  import opened FirewireDevice
  import opened DeviceRegistry
  import opened DeviceIterator
  import opened PhantomSearch

  /** The room for claimed devices; the program does not check that it suffices. */
  const MAX_PHANTOMS := 16

  datatype ClaimEnd = Complete | TooMany | Failed

  datatype Outcome = Succeeded | CouldNotFindAgain | OpenedTwice | Raised | OutOfRoom

  predicate IsPhantom(bus: Bus, p: Place, serial: nat) {
    var who := Identify(ImageAt(bus, p));
    who.Sensable? && (serial == 0 || who.serial == serial)
  }

  /** The Phantoms with a serial (all for 0) that are not open, in (port, node) order. */
  ghost function Phantoms(bus: Bus, visits: seq<Place>, open: set<Place>, serial: nat): seq<Place> {
    if visits == [] then []
    else (if visits[0] !in open && IsPhantom(bus, visits[0], serial) then [visits[0]] else [])
         + Phantoms(bus, visits[1..], open, serial)
  }

  /** Every node that is not open answers the questions that identify it. */
  ghost predicate AllAnswer(bus: Bus, visits: seq<Place>, open: set<Place>) {
    forall p :: p in visits && p !in open ==> !Identify(ImageAt(bus, p)).Unreadable?
  }

  lemma {:induction false} PhantomsAre(bus: Bus, visits: seq<Place>, open: set<Place>, serial: nat, p: Place)
    ensures p in Phantoms(bus, visits, open, serial) <==>
            && p in visits && p !in open
            && match Identify(ImageAt(bus, p))
               case Sensable(s) => serial == 0 || s == serial
               case _ => false
  {
    if visits != [] {
      PhantomsAre(bus, visits[1..], open, serial, p);
    }
  }

  lemma {:induction false} PhantomsElsewhere(bus: Bus, visits: seq<Place>, open: set<Place>, serial: nat, p: Place)
    requires p !in visits
    ensures Phantoms(bus, visits, open + {p}, serial) == Phantoms(bus, visits, open, serial)
  {
    if visits != [] {
      assert visits[0] in visits;
      PhantomsElsewhere(bus, visits[1..], open, serial, p);
    }
  }

  /** Where the search stops is the first Phantom left; opening it leaves the others. */
  lemma {:induction false} ClaimOne(bus: Bus, visits: seq<Place>, open: set<Place>, serial: nat)
    requires NoRepeats(visits)
    ensures var stop := FirstStop(bus, visits, open, serial);
            && (stop == [] ==> Phantoms(bus, visits, open, serial) == [] && AllAnswer(bus, visits, open))
            && (stop != [] ==> stop[0] in visits)
            && (stop != [] && Identify(ImageAt(bus, stop[0])).Sensable? ==>
                  Phantoms(bus, visits, open, serial) == [stop[0]] + Phantoms(bus, visits, open + {stop[0]}, serial))
  {
    if visits != [] {
      if visits[0] !in open && Stops(bus, visits[0], serial) {
        PhantomsElsewhere(bus, visits[1..], open, serial, visits[0]);
      } else {
        ClaimOne(bus, visits[1..], open, serial);
        var stop := FirstStop(bus, visits[1..], open, serial);
        if stop != [] {
          var i :| 0 <= i < |visits[1..]| && visits[1..][i] == stop[0];
          assert visits[i + 1] == stop[0];
        }
      }
    }
  }

  lemma AnswersStay(bus: Bus, all: seq<Place>, open: set<Place>, p: Place)
    requires Identify(ImageAt(bus, p)).Sensable?
    ensures AllAnswer(bus, all, open + {p}) <==> AllAnswer(bus, all, open)
  {
  }

  /** Opening d takes the first Phantom, and no node that does not answer. */
  ghost predicate TakesFirst(bus: Bus, all: seq<Place>, before: set<Place>, after: set<Place>, serial: nat, d: Device) {
    && Identify(ImageAt(bus, (d.port, d.node))).Sensable?
    && Phantoms(bus, all, before, serial) == [(d.port, d.node)] + Phantoms(bus, all, after, serial)
    && (AllAnswer(bus, all, after) <==> AllAnswer(bus, all, before))
  }

  /** findPhantom in terms of the Phantoms that are not open: it takes the first of them. */
  method FindOne(registry: Registry, serial: quadlet, ghost all: seq<Place>) returns (p: Search)
    requires registry.Valid() && BusOk(registry.bus) && all == VisitsFrom(registry.bus, 0)
    modifies registry`openDevices, registry`count, registry.openDevices
    ensures registry.Valid()
    ensures registry.openDevices == old(registry.openDevices) || fresh(registry.openDevices)
    ensures p.Threw? ==> !AllAnswer(registry.bus, all, Places(old(registry.Live()))) || !CleanBus(registry.bus)
    ensures p.NotFound? ==>
              && AllAnswer(registry.bus, all, Places(old(registry.Live()))) && registry.Live() == old(registry.Live())
              && Phantoms(registry.bus, all, Places(old(registry.Live())), serial) == []
    ensures p.Found? ==>
              && fresh(p.device.com) && CanBeAsked(registry.bus, p.device)
              && registry.Live() == old(registry.Live()) + [p.device]
              && TakesFirst(registry.bus, all, Places(old(registry.Live())), Places(registry.Live()), serial, p.device)
  {
    ghost var bus, live := registry.bus, registry.Live();
    VisitsDoNotRepeat(bus);
    ClaimOne(bus, all, Places(live), serial);
    p := FindPhantom(registry, serial);
    if p.Found? {
      assert registry.Live() == live + [p.device];
      PlacesOfLonger(live, p.device);
      AnswersStay(bus, all, Places(live), (p.device.port, p.device.node));
    }
  }

  ghost predicate AreSensable(bus: Bus, list: seq<Device>) {
    forall i :: 0 <= i < |list| ==> Identify(ImageAt(bus, (list[i].port, list[i].node))).Sensable?
  }

  /** After some claims: the claimed and the remaining Phantoms are those of the start. */
  ghost predicate ClaimInv(bus: Bus, all: seq<Place>, start: seq<Device?>, live: seq<Device?>, list: seq<Device>)
    requires AllThere(start) && AllThere(live)
  {
    && live == start + list
    && AreSensable(bus, list)
    && PlacesInOrder(list) + Phantoms(bus, all, Places(live), 0) == Phantoms(bus, all, Places(start), 0)
    && (AllAnswer(bus, all, Places(live)) <==> AllAnswer(bus, all, Places(start)))
  }

  /** How many Phantoms are left to claim. */
  ghost function ToClaim(bus: Bus, all: seq<Place>, live: seq<Device?>): nat
    requires AllThere(live)
  {
    |Phantoms(bus, all, Places(live), 0)|
  }

  lemma ClaimStep(bus: Bus, all: seq<Place>, start: seq<Device?>, live: seq<Device?>, list: seq<Device>, d: Device)
    requires AllThere(start) && AllThere(live) && ClaimInv(bus, all, start, live, list)
    requires AllThere(live + [d]) && TakesFirst(bus, all, Places(live), Places(live + [d]), 0, d)
    ensures ClaimInv(bus, all, start, live + [d], list + [d])
    ensures ToClaim(bus, all, live + [d]) < ToClaim(bus, all, live)
  {
    var p := (d.port, d.node);
    assert start + list + [d] == start + (list + [d]);
    MoveOne(PlacesInOrder(list), p, Phantoms(bus, all, Places(live + [d]), 0));
    KeepMore(start, list, [d]);
    assert PlacesInOrder([d]) == [p];
    assert AreSensable(bus, list + [d]);
  }

  /** Every node that was not open answers, and the Phantoms among them are the devices opened since. */
  ghost predicate AllClaimed(bus: Bus, all: seq<Place>, start: seq<Device?>, live: seq<Device?>, list: seq<Device>)
    requires AllThere(start)
  {
    && AllAnswer(bus, all, Places(start))
    && PlacesInOrder(list) == Phantoms(bus, all, Places(start), 0)
    && live == start + list
  }

  /** The last device claimed has this serial. */
  ghost predicate LastHas(bus: Bus, list: seq<Device>, serial: quadlet) {
    list != [] ==>
      var d := list[|list| - 1]; Identify(ImageAt(bus, (d.port, d.node))) == Sensable(serial)
  }

  /** The last search found nothing more to claim. */
  lemma ClaimDone(bus: Bus, all: seq<Place>, start: seq<Device?>, live: seq<Device?>, list: seq<Device>)
    requires AllThere(start) && AllThere(live) && ClaimInv(bus, all, start, live, list)
    requires AllAnswer(bus, all, Places(live)) && Phantoms(bus, all, Places(live), 0) == []
    ensures AllClaimed(bus, all, start, live, list)
  {
    assert PlacesInOrder(list) + [] == PlacesInOrder(list);
  }

  /** Asks a claimed device for its serial once more. */
  method ReadSerial(d: Device, ghost bus: Bus) returns (r: Result<quadlet>)
    requires CanBeAsked(bus, d) && Identify(ImageAt(bus, (d.port, d.node))).Sensable?
    modifies d.com`script, d.com`log
    ensures CanBeAsked(bus, d)
    ensures r.Ok? ==> Identify(ImageAt(bus, (d.port, d.node))) == Sensable(r.value)
    ensures CleanBus(bus) ==> r.Ok?
  {
    r := d.ReadDeviceSerial();
  }

  /** One more search, after those that have claimed `list`, and the serial that is printed. */
  method ClaimNext(registry: Registry, ghost all: seq<Place>, ghost start: seq<Device?>, ghost list: seq<Device>)
    returns (p: Search)
    requires registry.Valid() && BusOk(registry.bus) && all == VisitsFrom(registry.bus, 0) && AllThere(start)
    requires ClaimInv(registry.bus, all, start, registry.Live(), list)
    modifies registry`openDevices, registry`count, registry.openDevices
    ensures registry.Valid()
    ensures registry.openDevices == old(registry.openDevices) || fresh(registry.openDevices)
    ensures p.Threw? ==> !AllAnswer(registry.bus, all, Places(start)) || !CleanBus(registry.bus)
    ensures p.NotFound? ==> AllClaimed(registry.bus, all, start, registry.Live(), list)
    ensures p.Found? ==>
              && fresh(p.device.com) && CanBeAsked(registry.bus, p.device)
              && Identify(ImageAt(registry.bus, (p.device.port, p.device.node))).Sensable?
              && ClaimInv(registry.bus, all, start, registry.Live(), list + [p.device])
              && ToClaim(registry.bus, all, registry.Live()) < ToClaim(registry.bus, all, old(registry.Live()))
  {
    ghost var live := registry.Live();
    p := FindOne(registry, 0, all);
    match p {
      case NotFound => ClaimDone(registry.bus, all, start, live, list);
      case Threw =>
      case Found(d, _) =>
        ClaimStep(registry.bus, all, start, live, list, d);
        var read := ReadSerial(d, registry.bus);
        if read.Err? {
          p := Threw;
        }
    }
  }

  /** There are at least as many Phantoms as have been claimed. */
  lemma Crowded(bus: Bus, all: seq<Place>, start: seq<Device?>, live: seq<Device?>, list: seq<Device>)
    requires AllThere(start) && AllThere(live) && ClaimInv(bus, all, start, live, list)
    ensures ToClaim(bus, all, start) >= |list|
  {
    assert |PlacesInOrder(list)| == |list|;
  }

  /** Claims every Phantom on the bus, one search after the other, until there is no room for another one. */
  method ClaimAll(registry: Registry) returns (list: seq<Device>, serial: quadlet, end: ClaimEnd)
    requires registry.Valid() && BusOk(registry.bus)
    modifies registry`openDevices, registry`count, registry.openDevices
    ensures registry.Valid()
    ensures registry.openDevices == old(registry.openDevices) || fresh(registry.openDevices)
    ensures end == Failed ==>
              !AllAnswer(registry.bus, VisitsFrom(registry.bus, 0), Places(old(registry.Live())))
                || !CleanBus(registry.bus)
    ensures end == TooMany ==> ToClaim(registry.bus, VisitsFrom(registry.bus, 0), old(registry.Live())) > 16
    ensures end == Complete ==>
              && AllClaimed(registry.bus, VisitsFrom(registry.bus, 0), old(registry.Live()), registry.Live(), list)
              && LastHas(registry.bus, list, serial) && |list| <= 16
  {
    ghost var all := VisitsFrom(registry.bus, 0);
    ghost var start := registry.Live();
    list, serial := [], 0;
    assert start + [] == start;
    while true
      invariant registry.Valid() && |list| <= MAX_PHANTOMS
      invariant registry.openDevices == old(registry.openDevices) || fresh(registry.openDevices)
      invariant ClaimInv(registry.bus, all, start, registry.Live(), list)
      invariant LastHas(registry.bus, list, serial)
      decreases ToClaim(registry.bus, all, registry.Live())
    {
      var p := ClaimNext(registry, all, start, list);
      match p {
        case NotFound =>
          end := Complete;
          return;
        case Threw =>
          end := Failed;
          return;
        case Found(d, _) =>
          if |list| == MAX_PHANTOMS {
            Crowded(registry.bus, all, start, registry.Live(), list + [d]);
            end := TooMany;
            return;
          }
          list := list + [d];
          var read := ReadSerial(d, registry.bus);
          if read.Err? {
            end := Failed;
            return;
          }
          serial := read.value;
      }
    }
  }

  /** Closes devices in the reverse of the order in which they were opened. */
  method ReleaseAll(registry: Registry, list: seq<Device>, ghost start: seq<Device?>)
    requires registry.Valid() && registry.Live() == start + list
    modifies registry`count, registry.openDevices
    ensures registry.Valid() && registry.Live() == start
  {
    var n := |list|;
    assert list[..n] == list;
    while n > 0
      invariant 0 <= n <= |list|
      invariant registry.Valid() && registry.Live() == start + list[..n]
    {
      n := n - 1;
      assert registry.Live()[|registry.Live()| - 1] == list[n];
      registry.Close(list[n]);
      assert (start + list[..n + 1])[..|start| + n] == start + list[..n];
    }
    assert start + list[..0] == start;
  }

  /** Looks for a Phantom with a serial, keeps it open and looks again. */
  method FindTwice(registry: Registry, serial: quadlet) returns (outcome: Outcome)
    requires registry.Valid() && BusOk(registry.bus)
    modifies registry`openDevices, registry`count, registry.openDevices
    ensures outcome == Raised ==>
              !AllAnswer(registry.bus, VisitsFrom(registry.bus, 0), Places(old(registry.Live())))
                || !CleanBus(registry.bus)
    ensures var n := |Phantoms(registry.bus, VisitsFrom(registry.bus, 0), Places(old(registry.Live())), serial)|;
            outcome != Raised ==>
              outcome == if n == 0 then CouldNotFindAgain else if n == 1 then Succeeded else OpenedTwice
  {
    ghost var all := VisitsFrom(registry.bus, 0);
    var p := FindOne(registry, serial, all);
    if p.Threw? {
      return Raised;
    }
    if p.NotFound? {
      return CouldNotFindAgain;
    }
    p := FindOne(registry, serial, all);
    if p.Threw? {
      return Raised;
    }
    return if p.Found? then OpenedTwice else Succeeded;
  }

  /**
   The whole scenario. Where no transaction fails for good, it raises an exception exactly when
   some node does not answer, unless more than 16 Phantoms come first; otherwise the last Phantom
   is always found again, and it cannot be opened twice exactly when no other Phantom has its
   serial. (Serial 0 means any, so a single Phantom with serial 0 passes too.)
   */
  method Run(registry: Registry) returns (outcome: Outcome)
    requires registry.Valid() && BusOk(registry.bus)
    modifies registry`openDevices, registry`count, registry.openDevices
    ensures var bus, all, open := registry.bus, VisitsFrom(registry.bus, 0), Places(old(registry.Live()));
            var phantoms := Phantoms(bus, all, open, 0);
            || (outcome == Raised && !CleanBus(bus))
            || if !AllAnswer(bus, all, open)
            then outcome == Raised || (outcome == OutOfRoom && |phantoms| > 16)
            else if |phantoms| > 16 then outcome == OutOfRoom
            else if phantoms == [] then outcome == Succeeded
            else match Identify(ImageAt(bus, phantoms[|phantoms| - 1]))
                 case Sensable(serial) =>
                   outcome == if |Phantoms(bus, all, open, serial)| == 1 then Succeeded else OpenedTwice
                 case _ => false
  {
    ghost var start := registry.Live();
    ghost var bus, all := registry.bus, VisitsFrom(registry.bus, 0);
    var list, serial, end := ClaimAll(registry);
    if end == Failed {
      return Raised;
    }
    if end == TooMany {
      return OutOfRoom;
    }
    if list == [] {
      return Succeeded;
    }
    assert PlacesInOrder(list)[|list| - 1] == (list[|list| - 1].port, list[|list| - 1].node);
    ReleaseAll(registry, list, start);
    LastIsListed(bus, all, Places(start), serial, PlacesInOrder(list));
    outcome := FindTwice(registry, serial);
  }

  lemma LastIsListed(bus: Bus, all: seq<Place>, open: set<Place>, serial: quadlet, listed: seq<Place>)
    requires listed != [] && listed == Phantoms(bus, all, open, 0)
    requires Identify(ImageAt(bus, listed[|listed| - 1])) == Sensable(serial)
    ensures Phantoms(bus, all, open, serial) != []
  {
    var last := listed[|listed| - 1];
    assert last in listed;
    PhantomsAre(bus, all, open, 0, last);
    PhantomsAre(bus, all, open, serial, last);
  }
}
