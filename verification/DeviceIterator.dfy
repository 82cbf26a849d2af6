/** The lazy enumeration of the nodes that are not open yet. */
module DeviceIterator {
  import opened Words
  import opened Raw1394
  import opened FirewireDevice
  import opened DeviceRegistry

  type Place = (nat, nat)

  /**
   How many nodes the iterator visits on a port. After moving to the next port it does not look
   at the node count again before it visits node 0, so a later port without nodes counts as one.
   */
  function Visited(bus: Bus, port: nat): nat
    requires port < |bus.ports|
  {
    if port > 0 && |bus.ports[port]| == 0 then 1 else |bus.ports[port]|
  }

  function PortVisits(bus: Bus, port: nat): (v: seq<Place>)
    requires port < |bus.ports|
    ensures |v| == Visited(bus, port)
  {
    seq(Visited(bus, port), n requires 0 <= n => (port, NodeId(n)))
  }

  /** Every (port, node) from the given port on, in the order of the visits. */
  function VisitsFrom(bus: Bus, port: nat): seq<Place>
    decreases |bus.ports| - port
  {
    if port >= |bus.ports| then [] else PortVisits(bus, port) + VisitsFrom(bus, port + 1)
  }

  predicate Before(p: Place, q: Place) {
    p.0 < q.0 || (p.0 == q.0 && p.1 < q.1)
  }

  lemma {:induction false} VisitPorts(bus: Bus, port: nat, i: nat)
    requires i < |VisitsFrom(bus, port)|
    ensures port <= VisitsFrom(bus, port)[i].0 < |bus.ports|
    decreases |bus.ports| - port
  {
    var n := Visited(bus, port);
    if i >= n {
      VisitPorts(bus, port + 1, i - n);
    }
  }

  /** The visits are in lexicographic order, so none occurs twice. */
  lemma {:induction false} VisitsAscend(bus: Bus, port: nat, i: nat, j: nat)
    requires BusOk(bus) && i < j < |VisitsFrom(bus, port)|
    ensures Before(VisitsFrom(bus, port)[i], VisitsFrom(bus, port)[j])
    decreases |bus.ports| - port
  {
    var n := Visited(bus, port);
    if i >= n {
      VisitsAscend(bus, port + 1, i - n, j - n);
    } else if j >= n {
      VisitPorts(bus, port + 1, j - n);
    }
  }

  /** A place on the bus: a port and the id of a node that is there. */
  predicate Exists(bus: Bus, p: Place) {
    p.0 < |bus.ports| && 0xffc0 <= p.1 < 0xffc0 + |bus.ports[p.0]|
  }

  lemma {:induction false} VisitsAre(bus: Bus, port: nat, p: Place)
    requires BusOk(bus)
    ensures p in VisitsFrom(bus, port) <==>
            port <= p.0 < |bus.ports| && 0xffc0 <= p.1 < 0xffc0 + Visited(bus, p.0)
    decreases |bus.ports| - port
  {
    if port < |bus.ports| {
      VisitsAre(bus, port + 1, p);
      var v := PortVisits(bus, port);
      if p.0 == port && 0xffc0 <= p.1 < 0xffc0 + Visited(bus, port) {
        assert v[p.1 - 0xffc0] == p;
      }
    }
  }

  /** The visits are exactly the nodes that exist if and only if no later port is empty. */
  lemma VisitsAreTheNodes(bus: Bus)
    requires BusOk(bus)
    ensures (forall p :: p in VisitsFrom(bus, 0) <==> Exists(bus, p)) <==>
            (forall port :: 0 < port < |bus.ports| ==> |bus.ports[port]| > 0)
  {
    forall p: Place
      ensures p in VisitsFrom(bus, 0) <==> p.0 < |bus.ports| && 0xffc0 <= p.1 < 0xffc0 + Visited(bus, p.0)
    {
      VisitsAre(bus, 0, p);
    }
    if port :| 0 < port < |bus.ports| && |bus.ports[port]| == 0 {
      assert (port, 0xffc0) in VisitsFrom(bus, 0) && !Exists(bus, (port, 0xffc0));
    }
  }

  /** A later port without nodes is visited once, at node 0; every other visit is to a node that exists. */
  lemma VisitsExactly(bus: Bus, p: Place)
    requires BusOk(bus)
    ensures p in VisitsFrom(bus, 0) <==>
            && p.0 < |bus.ports|
            && (0xffc0 <= p.1 < 0xffc0 + |bus.ports[p.0]| || (p.0 > 0 && |bus.ports[p.0]| == 0 && p.1 == 0xffc0))
  {
    VisitsAre(bus, 0, p);
  }

  // ----- the places that are not open

  /** What is left after the open places at the front. */
  ghost function Skip(visits: seq<Place>, open: set<Place>): (r: seq<Place>)
    ensures r != [] ==> r[0] !in open
  {
    if visits == [] || visits[0] !in open then visits else Skip(visits[1..], open)
  }

  lemma SkipOne(visits: seq<Place>, open: set<Place>)
    ensures visits == [] ==> Skip(visits, open) == []
    ensures visits != [] && visits[0] in open ==> Skip(visits, open) == Skip(visits[1..], open)
    ensures visits != [] && visits[0] !in open ==> Skip(visits, open) == visits
  {
  }

  ghost function NotOpen(visits: seq<Place>, open: set<Place>): seq<Place> {
    if visits == [] then []
    else (if visits[0] in open then [] else [visits[0]]) + NotOpen(visits[1..], open)
  }

  lemma {:induction false} SkipThenNotOpen(visits: seq<Place>, open: set<Place>)
    ensures var r := Skip(visits, open);
            NotOpen(visits, open) == if r == [] then [] else [r[0]] + NotOpen(r[1..], open)
    ensures Suffix(Skip(visits, open), visits)
  {
    if visits != [] && visits[0] in open {
      SkipThenNotOpen(visits[1..], open);
    }
  }

  lemma {:induction false} NotOpenAre(visits: seq<Place>, open: set<Place>, p: Place)
    ensures p in NotOpen(visits, open) <==> p in visits && p !in open
  {
    if visits != [] {
      NotOpenAre(visits[1..], open, p);
    }
  }

  ghost predicate Ascending(places: seq<Place>) {
    forall i, j :: 0 <= i < j < |places| ==> Before(places[i], places[j])
  }

  lemma {:induction false} NotOpenAscend(visits: seq<Place>, open: set<Place>)
    requires Ascending(visits)
    ensures Ascending(NotOpen(visits, open))
  {
    if visits != [] {
      NotOpenAscend(visits[1..], open);
      var rest := NotOpen(visits[1..], open);
      forall k | 0 <= k < |rest|
        ensures Before(visits[0], rest[k])
      {
        NotOpenAre(visits[1..], open, rest[k]);
        var i :| 0 <= i < |visits[1..]| && visits[1..][i] == rest[k];
        assert Before(visits[0], visits[i + 1]);
      }
    }
  }

  /**
   A pass over a bus without empty later ports yields exactly the nodes that exist and are not
   open, in lexicographic order.
   */
  lemma PassIsExact(bus: Bus, open: set<Place>)
    requires BusOk(bus) && forall port :: 0 < port < |bus.ports| ==> |bus.ports[port]| > 0
    ensures forall p :: p in NotOpen(VisitsFrom(bus, 0), open) <==> Exists(bus, p) && p !in open
    ensures Ascending(NotOpen(VisitsFrom(bus, 0), open))
  {
    var visits := VisitsFrom(bus, 0);
    VisitsAreTheNodes(bus);
    forall p: Place
      ensures p in NotOpen(visits, open) <==> Exists(bus, p) && p !in open
    {
      NotOpenAre(visits, open, p);
    }
    forall i, j | 0 <= i < j < |visits|
      ensures Before(visits[i], visits[j])
    {
      VisitsAscend(bus, 0, i, j);
    }
    NotOpenAscend(visits, open);
  }

  /** The visits from node `node` of a port on. */
  function VisitsAt(bus: Bus, port: nat, node: nat): seq<Place>
    requires port < |bus.ports| && node <= Visited(bus, port)
  {
    PortVisits(bus, port)[node..] + VisitsFrom(bus, port + 1)
  }

  lemma FirstVisit(bus: Bus, port: nat, node: nat)
    requires port < |bus.ports| && node <= Visited(bus, port)
    ensures node < Visited(bus, port) ==>
              && VisitsAt(bus, port, node) != [] && VisitsAt(bus, port, node)[0] == (port, NodeId(node))
              && VisitsAt(bus, port, node)[1..] == VisitsAt(bus, port, node + 1)
    ensures node == Visited(bus, port) ==> VisitsAt(bus, port, node) == VisitsFrom(bus, port + 1)
    ensures VisitsAt(bus, port, 0) == VisitsFrom(bus, port)
  {
  }

  /** What is still to come when all nodes of a port, or all ports, have been visited. */
  lemma PortUsedUp(bus: Bus, port: nat, node: nat)
    requires port < |bus.ports| ==> node == Visited(bus, port)
    ensures port + 1 >= |bus.ports| ==> port >= |bus.ports| || VisitsAt(bus, port, node) == []
    ensures port + 1 < |bus.ports| ==> VisitsAt(bus, port, node) == VisitsAt(bus, port + 1, 0)
  {
    if port < |bus.ports| {
      FirstVisit(bus, port, node);
      if port + 1 < |bus.ports| {
        FirstVisit(bus, port + 1, 0);
      }
    }
  }

  class DeviceIterator {
    const registry: Registry
    var port: nat
    var node: nat
    var nodes: nat

    ghost predicate Valid()
      reads this
    {
      var ports := registry.bus.ports;
      if port < |ports|
      then nodes == |ports[port]| && node <= Visited(registry.bus, port) && (port > 0 ==> node > 0)
      else node >= nodes
    }

    /** The visits that are still to come. */
    ghost function Rest(): seq<Place>
      requires Valid()
      reads this
    {
      if port < |registry.bus.ports|
      then VisitsAt(registry.bus, port, node)
      else []
    }

    /** The cursor is at the first of the places that are still to come. */
    ghost predicate AtFirst(todo: seq<Place>)
      reads this
    {
      && port < |registry.bus.ports| && nodes == |registry.bus.ports[port]| && node < Visited(registry.bus, port)
      && todo != [] && todo[0] == (port, NodeId(node)) && todo[1..] == VisitsAt(registry.bus, port, node + 1)
    }

    constructor (registry: Registry)
      ensures Valid() && Rest() == VisitsFrom(registry.bus, 0) && this.registry == registry
    {
      this.registry := registry;
      port, node := 0, 0;
      nodes := if |registry.bus.ports| == 0 then 0 else |registry.bus.ports[0]|;
      new;
      if |registry.bus.ports| > 0 {
        FirstVisit(registry.bus, 0, 0);
      }
    }

    /** The first half of the loop body of next: moves to the next port when this one is used up. */
    method Advance() returns (end: bool)
      requires Valid()
      modifies this`port, this`node, this`nodes
      ensures end ==> Valid() && Rest() == [] && old(Rest()) == []
      ensures !end ==> AtFirst(old(Rest()))
    {
      end := false;
      ghost var p, n, rest := port, node, Rest();
      if node >= nodes {
        port := port + 1;
        if port >= |registry.bus.ports| {
          assert rest == [] by {
            PortUsedUp(registry.bus, p, n);
          }
          return true;
        }
        nodes := |registry.bus.ports[port]|;
        node := 0;
        assert rest == VisitsAt(registry.bus, port, 0) by {
          PortUsedUp(registry.bus, p, n);
        }
      }
      assert rest == VisitsAt(registry.bus, port, node);
      FirstVisit(registry.bus, port, node);
    }

    /** The loop body of next up to the test whether the device is open. */
    method Look() returns (end: bool, isOpen: bool)
      requires Valid() && registry.Valid()
      modifies this`port, this`node, this`nodes
      ensures end ==> Valid() && Rest() == [] && old(Rest()) == []
      ensures !end ==> AtFirst(old(Rest())) && (isOpen <==> old(Rest())[0] in Places(registry.Live()))
    {
      isOpen := false;
      end := Advance();
      if !end {
        isOpen := registry.DeviceIsOpen(port, NodeId(node));
      }
    }

    /** The loop of next: moves the cursor to the first place still to come that is not open. */
    method Seek() returns (found: bool)
      requires Valid() && registry.Valid() && BusOk(registry.bus)
      modifies this`port, this`node, this`nodes
      ensures var r := Skip(old(Rest()), Places(registry.Live()));
              if r == [] then !found && Valid() && Rest() == [] else found && AtFirst(r)
    {
      ghost var live := registry.Live();
      ghost var open, rest := Places(live), Rest();
      ghost var target := Skip(rest, open);
      while true
        invariant registry.Live() == live
        invariant Valid() && Rest() == rest && Skip(rest, open) == target
        decreases |rest|
      {
        SkipOne(rest, open);
        var end, isOpen := Look();
        if end {
          return false;
        }
        if !isOpen {
          return true;
        }
        node, rest := node + 1, rest[1..];
      }
    }

    /** next: opens the first device still to come that is not open; null at the end. */
    method Next() returns (d: Device?)
      requires Valid() && registry.Valid() && BusOk(registry.bus)
      modifies this`port, this`node, this`nodes
      modifies registry`openDevices, registry`count, registry.openDevices
      ensures Valid() && registry.Valid()
      ensures var r := Skip(old(Rest()), Places(old(registry.Live())));
              if r == [] then d == null && Rest() == [] && registry.Live() == old(registry.Live())
              else d != null && (d.port, d.node) == r[0] && Rest() == r[1..]
                   && registry.Live() == old(registry.Live()) + [d]
      ensures registry.openDevices == old(registry.openDevices) || fresh(registry.openDevices)
      ensures d != null ==> fresh(d) && fresh(d.com) && d.Valid() && !d.configRomRead
                            && d.com.memory == ImageAt(registry.bus, (d.port, d.node))
                            && d.com.script == DelaysAt(registry.bus, (d.port, d.node))
    {
      var found := Seek();
      if !found {
        return null;
      }
      d := registry.Open(port, NodeId(node));
      node := node + 1;
    }
  }

  // ----- any use of the table through iterators

  /** No two open devices are on the same (port, node). */
  ghost predicate NoSharedPlaces(live: seq<Device?>)
    requires AllThere(live)
  {
    forall i, j :: 0 <= i < j < |live| ==> (live[i].port, live[i].node) != (live[j].port, live[j].node)
  }

  lemma NewPlace(live: seq<Device?>, d: Device)
    requires AllThere(live) && NoSharedPlaces(live) && (d.port, d.node) !in Places(live)
    ensures AllThere(live + [d]) && NoSharedPlaces(live + [d])
  {
    forall i | 0 <= i < |live|
      ensures (live[i].port, live[i].node) != (d.port, d.node)
    {
      assert (live[i].port, live[i].node) in Places(live);
    }
  }

  datatype Use = Take(which: nat) | CloseLast | NewIterator

  /** The open places in the order in which they were opened, and what is still to come from each iterator. */
  datatype Enumeration = Enumeration(open: seq<Place>, todo: seq<seq<Place>>)

  ghost function OpenPlaces(live: seq<Device?>): seq<Place>
    requires AllThere(live)
  {
    seq(|live|, i requires 0 <= i < |live| => (live[i].port, live[i].node))
  }

  lemma PlacesAreOpen(live: seq<Device?>)
    requires AllThere(live)
    ensures Places(live) == set p | p in OpenPlaces(live)
  {
    forall i | 0 <= i < |live|
      ensures OpenPlaces(live)[i] in Places(live)
    {
    }
    forall p | p in Places(live)
      ensures p in OpenPlaces(live)
    {
      var i :| 0 <= i < |live| && p == (live[i].port, live[i].node);
      assert OpenPlaces(live)[i] == p;
    }
  }

  /** What a take from an iterator yields: the first place still to come that is not open. */
  ghost function Taken(e: Enumeration, k: nat): seq<Place> {
    if k < |e.todo| then Skip(e.todo[k], set p | p in e.open) else []
  }

  ghost function Used(bus: Bus, e: Enumeration, use: Use): Enumeration {
    match use
    case Take(k) =>
      var r := Taken(e, k);
      if k >= |e.todo| then e
      else if r == [] then e.(todo := e.todo[k := []])
      else Enumeration(e.open + [r[0]], e.todo[k := r[1..]])
    case CloseLast => if e.open == [] then e else e.(open := e.open[..|e.open| - 1])
    case NewIterator => e.(todo := e.todo + [VisitsFrom(bus, 0)])
  }

  ghost function AllUsed(bus: Bus, e: Enumeration, uses: seq<Use>): Enumeration {
    if uses == [] then e else Used(bus, AllUsed(bus, e, uses[..|uses| - 1]), uses[|uses| - 1])
  }

  /** What a use hands to its caller. */
  ghost function Yielded(e: Enumeration, use: Use): Option<Place> {
    if use.Take? && Taken(e, use.which) != [] then Some(Taken(e, use.which)[0]) else None
  }

  ghost function AllYielded(bus: Bus, e: Enumeration, uses: seq<Use>): (r: seq<Option<Place>>)
    ensures |r| == |uses|
  {
    if uses == [] then []
    else
      var n := |uses| - 1;
      AllYielded(bus, e, uses[..n]) + [Yielded(AllUsed(bus, e, uses[..n]), uses[n])]
  }

  ghost function PlaceOf(d: Device?): Option<Place> {
    if d == null then None else Some((d.port, d.node))
  }

  ghost function PlacesTaken(took: seq<Device?>): seq<Option<Place>> {
    seq(|took|, i requires 0 <= i < |took| => PlaceOf(took[i]))
  }

  /** The live devices in the order in which they were opened; took[i] is what the i-th use has got. */
  ghost function Stack(start: seq<Device?>, uses: seq<Use>, took: seq<Device?>): seq<Device?>
    requires |took| == |uses|
  {
    if uses == [] then start
    else
      var n := |uses| - 1;
      Stacked(Stack(start, uses[..n], took[..n]), uses[n], took[n])
  }

  ghost function Stacked(live: seq<Device?>, use: Use, d: Device?): seq<Device?> {
    match use
    case Take(_) => if d == null then live else live + [d]
    case CloseLast => if live == [] then live else live[..|live| - 1]
    case NewIterator => live
  }

  /** After some uses: the live devices, what is still to come, and what each use has got. */
  ghost predicate UsesDone(bus: Bus, start: seq<Device?>, uses: seq<Use>, took: seq<Device?>, live: seq<Device?>,
                           todo: seq<seq<Place>>)
    requires AllThere(start) && AllThere(live)
  {
    var e := Enumeration(OpenPlaces(start), []);
    && |took| == |uses| && live == Stack(start, uses, took)
    && Enumeration(OpenPlaces(live), todo) == AllUsed(bus, e, uses)
    && PlacesTaken(took) == AllYielded(bus, e, uses)
  }

  lemma OneMoreUse(bus: Bus, start: seq<Device?>, uses: seq<Use>, took: seq<Device?>, live: seq<Device?>,
                   todo: seq<seq<Place>>, use: Use, d: Device?, live': seq<Device?>, todo': seq<seq<Place>>)
    requires AllThere(start) && AllThere(live) && AllThere(live')
    requires UsesDone(bus, start, uses, took, live, todo) && live' == Stacked(live, use, d)
    requires var e := Enumeration(OpenPlaces(live), todo);
             Enumeration(OpenPlaces(live'), todo') == Used(bus, e, use) && PlaceOf(d) == Yielded(e, use)
    ensures UsesDone(bus, start, uses + [use], took + [d], live', todo')
  {
    assert (uses + [use])[..|uses|] == uses && (took + [d])[..|took|] == took;
    assert PlacesTaken(took + [d]) == PlacesTaken(took) + [PlaceOf(d)];
  }

  /** The iterators are usable, each for itself, and this is what they have still to come. */
  ghost predicate Iterating(registry: Registry, its: seq<DeviceIterator>, todo: seq<seq<Place>>)
    reads its
  {
    && |its| == |todo|
    && (forall i, j :: 0 <= i < j < |its| ==> its[i] != its[j])
    && (forall i :: 0 <= i < |its| ==> its[i].registry == registry && its[i].Valid() && its[i].Rest() == todo[i])
  }

  /**
   Any number of devices taken from any of several iterators and closed in last-opened-first order,
   across all growths of the table. What every take yields and which places are open is determined
   by the order of the uses alone; the used slots of the table are exactly the live devices in the
   order in which they were opened, and it never holds two devices of one place.
   */
  method AnyUse(registry: Registry, uses: seq<Use>) returns (took: seq<Device?>)
    requires registry.Valid() && BusOk(registry.bus) && NoSharedPlaces(registry.Live())
    modifies registry`openDevices, registry`count, registry.openDevices
    ensures registry.Valid() && NoSharedPlaces(registry.Live())
    ensures |took| == |uses| && registry.Live() == Stack(old(registry.Live()), uses, took)
    ensures var start := Enumeration(OpenPlaces(old(registry.Live())), []);
            && OpenPlaces(registry.Live()) == AllUsed(registry.bus, start, uses).open
            && PlacesTaken(took) == AllYielded(registry.bus, start, uses)
    ensures registry.openDevices == old(registry.openDevices) || fresh(registry.openDevices)
  {
    ghost var start := registry.Live();
    var its: seq<DeviceIterator> := [];
    ghost var todo: seq<seq<Place>> := [];
    took := [];
    for k := 0 to |uses|
      invariant forall i :: 0 <= i < |its| ==> fresh(its[i])
      invariant Iterating(registry, its, todo)
      invariant registry.Valid() && NoSharedPlaces(registry.Live())
      invariant UsesDone(registry.bus, start, uses[..k], took, registry.Live(), todo)
      invariant registry.openDevices == old(registry.openDevices) || fresh(registry.openDevices)
    {
      var d;
      ghost var todo', live := todo, registry.Live();
      assert uses[..k + 1] == uses[..k] + [uses[k]];
      its, d, todo' := UseOnce(registry, its, uses[k], todo);
      OneMoreUse(registry.bus, start, uses[..k], took, live, todo, uses[k], d, registry.Live(), todo');
      took, todo := took + [d], todo';
    }
    assert uses[..|uses|] == uses;
  }

  method UseOnce(registry: Registry, its: seq<DeviceIterator>, use: Use, ghost todo: seq<seq<Place>>)
    returns (its': seq<DeviceIterator>, d: Device?, ghost todo': seq<seq<Place>>)
    requires Iterating(registry, its, todo)
    requires registry.Valid() && BusOk(registry.bus) && NoSharedPlaces(registry.Live())
    modifies its, registry`openDevices, registry`count, registry.openDevices
    ensures Iterating(registry, its', todo') && forall i :: 0 <= i < |its'| ==> its'[i] in its || fresh(its'[i])
    ensures registry.Valid() && NoSharedPlaces(registry.Live())
    ensures registry.openDevices == old(registry.openDevices) || fresh(registry.openDevices)
    ensures registry.Live() == Stacked(old(registry.Live()), use, d)
    ensures var e := Enumeration(OpenPlaces(old(registry.Live())), todo);
            Enumeration(OpenPlaces(registry.Live()), todo') == Used(registry.bus, e, use)
              && PlaceOf(d) == Yielded(e, use)
  {
    its', d, todo' := its, null, todo;
    ghost var live := registry.Live();
    PlacesAreOpen(live);
    match use {
      case Take(k) =>
        if k < |its| {
          d, todo' := TakeFrom(registry, its, k, todo);
        }
      case CloseLast =>
        if registry.count > 0 {
          var last := registry.openDevices[registry.count - 1];
          assert last == live[|live| - 1];
          registry.Close(last);
          assert OpenPlaces(registry.Live()) == OpenPlaces(live)[..|live| - 1];
        }
      case NewIterator =>
        var it := new DeviceIterator(registry);
        its', todo' := its + [it], todo + [VisitsFrom(registry.bus, 0)];
    }
  }

  method TakeFrom(registry: Registry, its: seq<DeviceIterator>, k: nat, ghost todo: seq<seq<Place>>)
    returns (d: Device?, ghost todo': seq<seq<Place>>)
    requires k < |its| && Iterating(registry, its, todo)
    requires registry.Valid() && BusOk(registry.bus) && NoSharedPlaces(registry.Live())
    modifies its, registry`openDevices, registry`count, registry.openDevices
    ensures Iterating(registry, its, todo') && registry.Valid() && NoSharedPlaces(registry.Live())
    ensures registry.openDevices == old(registry.openDevices) || fresh(registry.openDevices)
    ensures var live, r := old(registry.Live()), Skip(todo[k], Places(old(registry.Live())));
            if r == [] then d == null && registry.Live() == live && todo' == todo[k := []]
            else d != null && (d.port, d.node) == r[0] && registry.Live() == live + [d] && todo' == todo[k := r[1..]]
                 && OpenPlaces(registry.Live()) == OpenPlaces(live) + [r[0]]
  {
    ghost var live, r := registry.Live(), Skip(todo[k], Places(registry.Live()));
    d := its[k].Next();
    todo' := todo[k := if r == [] then [] else r[1..]];
    if d != null {
      NewPlace(live, d);
      assert OpenPlaces(live + [d]) == OpenPlaces(live) + [r[0]];
    }
  }
}
