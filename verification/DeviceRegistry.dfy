/** The table of open devices of FirewireDeviceLibraw1394. */
module DeviceRegistry {
  import opened Words
  import opened IrmRegister
  import opened Raw1394
  import opened FirewireDevice

  /**
   What is connected: for each port the memory of its nodes, and for each (port, node id) the
   EAGAINs and faults that a new handle on it meets.
   */
  datatype Bus = Bus(ports: seq<seq<Image>>, delays: map<(nat, nat), seq<Status>>)

  /** Physical ids have six bits. */
  predicate BusOk(bus: Bus) {
    forall p :: 0 <= p < |bus.ports| ==> |bus.ports[p]| <= 64
  }

  predicate CleanBus(bus: Bus) {
    forall at :: at in bus.delays ==> Clean(bus.delays[at])
  }

  /** A bus may have any number of ports with up to 64 nodes each; a clean one has EAGAINs but no faults anywhere. */
  lemma BusKinds(bus: Bus)
    ensures BusOk(bus) <==> forall p :: 0 <= p < |bus.ports| ==> |bus.ports[p]| <= 64
    ensures CleanBus(bus) <==>
            forall at, i :: at in bus.delays && 0 <= i < |bus.delays[at]| ==>
              bus.delays[at][i] == Done || bus.delays[at][i] == Again
  {
    forall at | at in bus.delays
      ensures Clean(bus.delays[at]) <==>
              forall i :: 0 <= i < |bus.delays[at]| ==> bus.delays[at][i] == Done || bus.delays[at][i] == Again
    {
      ScriptKinds(bus.delays[at]);
    }
  }

  /** n | 0xffc0 for a 16-bit node id: the local bus and the low six bits of n. */
  function NodeId(n: nat): nat {
    0xffc0 + n % 64
  }

  /** Bit for bit it is the or of the node id and 0xffc0. */
  lemma NodeIdIsOr(n: nat, k: nat)
    requires n < 0x1_0000
    ensures BitSet(NodeId(n), k) <==> BitSet(n, k) || 6 <= k < 16
  {
    var low, high := n % 64, n / 64;
    SixBits(low, high, k);
    SixBits(low, 1023, k);
    if k >= 6 {
      TenOnes(k - 6);
    }
    if k >= 16 {
      TenBits(high, k - 6);
    }
  }

  /** Bits 0 to 5 of a number are those of its remainder by 64, the others those of its quotient. */
  lemma SixBits(low: nat, high: nat, k: nat)
    requires low < 64
    ensures BitSet(low + 64 * high, k) == if k < 6 then BitSet(low, k) else BitSet(high, k - 6)
  {
    var x := low + 64 * high;
    if k < 6 {
      assert Double(high, 1) == 2 * high;
      assert Double(high, 2) == 4 * high;
      assert Double(high, 4) == 16 * high;
      LowBits(low, high, 6, k);
    } else {
      ShiftedBit(x, 6, k - 6);
      assert Shift(x, 1) == x / 2;
      assert Shift(x, 2) == x / 4;
      assert Shift(x, 3) == x / 8;
      assert Shift(x, 4) == x / 16;
      assert Shift(x, 5) == x / 32;
      assert Shift(x, 6) == high;
    }
  }

  lemma {:induction false} SmallBits(x: nat, n: nat, k: nat)
    requires x < Double(1, n) && k >= n
    ensures !BitSet(x, k)
    decreases k
  {
    if n > 0 {
      SmallBits(x / 2, n - 1, k - 1);
    } else if k > 0 {
      SmallBits(0, 0, k - 1);
    }
  }

  lemma TenBits(x: nat, k: nat)
    requires x < 1024 && k >= 10
    ensures !BitSet(x, k)
  {
    assert Double(1, 1) == 2;
    assert Double(1, 2) == 4;
    assert Double(1, 4) == 16;
    assert Double(1, 6) == 64;
    assert Double(1, 8) == 256;
    assert Double(1, 10) == 1024;
    SmallBits(x, 10, k);
  }

  lemma TenOnes(k: nat)
    ensures BitSet(1023, k) <==> k < 10
  {
    if k < 10 {
      assert BitSet(1, 0) && BitSet(3, 1) && BitSet(7, 2) && BitSet(15, 3) && BitSet(31, 4);
      assert BitSet(63, 5) && BitSet(127, 6) && BitSet(255, 7) && BitSet(511, 8) && BitSet(1023, 9);
    } else {
      TenBits(1023, k);
    }
  }

  lemma NodeIdInjective(m: nat, n: nat)
    requires m < 64 && n < 64
    ensures NodeId(m) == NodeId(n) <==> m == n
  {
  }

  function ImageAt(bus: Bus, at: (nat, nat)): Image {
    if at.0 < |bus.ports| && 0xffc0 <= at.1 < 0xffc0 + |bus.ports[at.0]| then bus.ports[at.0][at.1 - 0xffc0] else map[]
  }

  /** Node n of a port is reached under its node id and no other; elsewhere nothing answers. */
  lemma NodeIsAtItsId(bus: Bus, port: nat, n: nat)
    requires port < |bus.ports| && n < 64
    ensures n < |bus.ports[port]| ==> ImageAt(bus, (port, NodeId(n))) == bus.ports[port][n]
    ensures n >= |bus.ports[port]| ==> ImageAt(bus, (port, NodeId(n))) == map[]
  {
  }

  function DelaysAt(bus: Bus, at: (nat, nat)): seq<Status> {
    if at in bus.delays then bus.delays[at] else []
  }

  ghost predicate AllThere(live: seq<Device?>) {
    forall i :: 0 <= i < |live| ==> live[i] != null
  }

  ghost predicate Distinct(live: seq<Device?>) {
    forall i, j :: 0 <= i < j < |live| ==> live[i] != live[j]
  }

  /** The (port, node) of the open devices. */
  ghost function Places(live: seq<Device?>): set<(nat, nat)>
    requires AllThere(live)
  {
    set i | 0 <= i < |live| :: (live[i].port, live[i].node)
  }

  lemma PlacesOfLonger(live: seq<Device?>, d: Device)
    requires AllThere(live)
    ensures AllThere(live + [d]) && Places(live + [d]) == Places(live) + {(d.port, d.node)}
  {
    var longer := live + [d];
    assert forall i :: 0 <= i < |live| ==> longer[i] == live[i];
    assert longer[|live|] == d;
    assert (longer[|live|].port, longer[|live|].node) in Places(longer);
    forall at | at in Places(live)
      ensures at in Places(longer)
    {
      var i :| 0 <= i < |live| && at == (live[i].port, live[i].node);
      assert at == (longer[i].port, longer[i].node);
    }
  }

  ghost function Find(live: seq<Device?>, d: Device): nat {
    if live == [] || live[0] == d then 0 else 1 + Find(live[1..], d)
  }

  lemma {:induction false} FindIsFirst(live: seq<Device?>, d: Device)
    ensures Find(live, d) <= |live|
    ensures Find(live, d) < |live| ==> live[Find(live, d)] == d
    ensures forall i :: 0 <= i < Find(live, d) ==> live[i] != d
  {
    if live != [] && live[0] != d {
      FindIsFirst(live[1..], d);
    }
  }

  lemma FirstSlot(live: seq<Device?>, d: Device, j: nat)
    requires j <= |live| && (j < |live| ==> live[j] == d) && forall i :: 0 <= i < j ==> live[i] != d
    ensures Find(live, d) == j
  {
    FindIsFirst(live, d);
  }

  /**
   What the destructor makes of the table: it shifts the slots behind the device, but only up
   to the already decremented count, so the last device does not move.
   */
  ghost function Closed(live: seq<Device?>, d: Device): seq<Device?>
    requires live != []
  {
    var n := |live| - 1;
    var j := Find(live[..n], d);
    FindIsFirst(live[..n], d);
    if j < n then live[..j] + live[j + 1..n] + [live[n - 1]] else live[..n]
  }

  lemma ClosedSlots(live: seq<Device?>, d: Device, closed: seq<Device?>)
    requires live != []
    requires var n, j := |live| - 1, Find(live[..|live| - 1], d);
             |closed| == n && forall k {:trigger closed[k]} :: 0 <= k < n ==>
               closed[k] == if j <= k < n - 1 then live[k + 1] else live[k]
    ensures closed == Closed(live, d)
  {
    var n := |live| - 1;
    var j := Find(live[..n], d);
    FindIsFirst(live[..n], d);
    if j < n {
      assert live[..j] + live[j + 1..n] + [live[n - 1]] == closed;
    } else {
      assert live[..n] == closed;
    }
  }

  /** The table without a device, in the order in which the others were opened. */
  ghost function Without(live: seq<Device?>, d: Device): seq<Device?> {
    if live == [] then [] else if live[0] == d then live[1..] else [live[0]] + Without(live[1..], d)
  }

  lemma {:induction false} WithoutAt(live: seq<Device?>, d: Device, j: nat)
    requires j < |live| && live[j] == d && forall i :: 0 <= i < j ==> live[i] != d
    ensures Without(live, d) == live[..j] + live[j + 1..]
  {
    if j > 0 {
      WithoutAt(live[1..], d, j - 1);
      assert live[1..][..j - 1] == live[1..j] && live[1..][j..] == live[j + 1..];
      assert [live[0]] + live[1..j] == live[..j];
    }
  }

  /** Closing a device leaves exactly the others, in order, if and only if it was opened last. */
  lemma CloseExactIffLast(live: seq<Device?>, d: Device)
    requires Distinct(live) && d in live
    ensures Closed(live, d) == Without(live, d) <==> live[|live| - 1] == d
    ensures live[|live| - 1] != d ==> live[|live| - 1] in Without(live, d) && live[|live| - 1] !in Closed(live, d)
  {
    var n := |live| - 1;
    var k :| 0 <= k < |live| && live[k] == d;
    WithoutAt(live, d, k);
    if k == n {
      CloseLast(live, d);
      assert live[n + 1..] == [];
    } else {
      FirstSlot(live[..n], d, k);
      assert (live[..k] + live[k + 1..])[n - 1] == live[n];
      LastIsLost(live, d);
    }
  }

  /**
   Slot by slot: the slots behind the device move down by one, except that the last one that is
   kept does not.
   */
  lemma ClosedAt(live: seq<Device?>, d: Device, j: nat, i: nat)
    requires Distinct(live) && j < |live| && live[j] == d && i < |live| - 1
    ensures |Closed(live, d)| == |live| - 1
    ensures Closed(live, d)[i] == live[if j <= i < |live| - 2 then i + 1 else i]
  {
    ClosedIs(live, d, j);
    if j < |live| - 1 {
      ShiftedAt(live, j, i);
    }
  }

  lemma ClosedIs(live: seq<Device?>, d: Device, j: nat)
    requires Distinct(live) && j < |live| && live[j] == d
    ensures Closed(live, d) == if j < |live| - 1 then Shifted(live, j) else live[..j]
  {
    FirstSlot(live[..|live| - 1], d, j);
  }

  /** The table whose slots behind j have moved down by one, up to the last but one. */
  ghost function Shifted(live: seq<Device?>, j: nat): seq<Device?>
    requires j < |live| - 1
  {
    live[..j] + live[j + 1..|live| - 1] + [live[|live| - 2]]
  }

  lemma ShiftedAt(live: seq<Device?>, j: nat, i: nat)
    requires j < |live| - 1 && i < |live| - 1
    ensures |Shifted(live, j)| == |live| - 1 && Shifted(live, j)[i] == live[if j <= i < |live| - 2 then i + 1 else i]
  {
  }

  /** A device that was opened last but one stays in the table when it is closed, and no other closed one does. */
  lemma StaysIfLastButOne(live: seq<Device?>, d: Device)
    requires Distinct(live) && d in live
    ensures d in Closed(live, d) <==> |live| >= 2 && live[|live| - 2] == d
  {
    var j :| 0 <= j < |live| && live[j] == d;
    var n := |live| - 1;
    if n == 0 {
      ClosedSize(live, d);
    } else {
      ClosedAt(live, d, j, n - 1);
      forall i | 0 <= i < n
        ensures Closed(live, d)[i] == d <==> i == n - 1 && j == n - 1
      {
        ClosedAt(live, d, j, i);
      }
      assert live[n - 1] == d ==> j == n - 1;
    }
  }

  lemma ClosedSize(live: seq<Device?>, d: Device)
    requires live != []
    ensures |Closed(live, d)| == |live| - 1
  {
    FindIsFirst(live[..|live| - 1], d);
  }

  lemma CloseLast(live: seq<Device?>, d: Device)
    requires Distinct(live) && live != [] && live[|live| - 1] == d
    ensures Closed(live, d) == live[..|live| - 1]
  {
    FirstSlot(live[..|live| - 1], d, |live| - 1);
  }

  lemma LastIsLost(live: seq<Device?>, d: Device)
    requires Distinct(live) && live != [] && Find(live[..|live| - 1], d) < |live| - 1
    ensures live[|live| - 1] !in Closed(live, d)
  {
    var n, j := |live| - 1, Find(live[..|live| - 1], d);
    FindIsFirst(live[..n], d);
    var closed := Closed(live, d);
    forall i | 0 <= i < |closed|
      ensures closed[i] != live[n]
    {
      if i < j {
        assert closed[i] == live[i];
      } else if i < n - 1 {
        assert closed[i] == live[j + 1..n][i - j];
      } else {
        assert closed[i] == live[n - 1];
      }
    }
  }

  class Registry {
    const bus: Bus
    var openDevices: array<Device?>
    var count: nat

    ghost predicate Valid()
      reads this, openDevices
    {
      count <= openDevices.Length && AllThere(Live()) && Distinct(Live())
    }

    /** The used slots of the table. */
    ghost function Live(): seq<Device?>
      requires count <= openDevices.Length
      reads this, openDevices
    {
      openDevices[..count]
    }

    constructor (bus: Bus)
      ensures Valid() && Live() == [] && this.bus == bus && fresh(openDevices)
    {
      this.bus := bus;
      openDevices := new Device?[2](_ => null);
      count := 0;
    }

    /** The constructor of FirewireDeviceLibraw1394. */
    method Open(port: nat, node: nat) returns (d: Device)
      requires Valid()
      modifies this`openDevices, this`count, openDevices
      ensures Valid() && fresh(d) && fresh(d.com) && Live() == old(Live()) + [d]
      ensures openDevices == old(openDevices) || fresh(openDevices)
      ensures d.port == port && d.node == node && d.Valid() && !d.configRomRead
      ensures d.com.memory == ImageAt(bus, (port, node)) && d.com.script == DelaysAt(bus, (port, node))
      ensures forall n :: port < |bus.ports| && 0 <= n < |bus.ports[port]| && node == 0xffc0 + n ==>
                d.com.memory == bus.ports[port][n]
      ensures (port, node) in bus.delays ==> d.com.script == bus.delays[(port, node)]
    {
      ghost var live := Live();
      var com := new RemoteNode(ImageAt(bus, (port, node)), {}, DelaysAt(bus, (port, node)));
      d := new Device(port, node, com);
      if count == openDevices.Length {
        var larger := new Device?[openDevices.Length + 2](_ => null);
        forall i | 0 <= i < count {
          larger[i] := openDevices[i];
        }
        openDevices := larger;
      }
      assert Live() == live;
      openDevices[count] := d;
      count := count + 1;
      assert Live() == live + [d];
    }

    /** The two loops of the destructor. */
    method Remove(d: Device)
      requires Valid() && d in Live()
      modifies this`count, openDevices
      ensures count <= openDevices.Length && Live() == Closed(old(Live()), d)
    {
      ghost var live := Live();
      ghost var slots := openDevices[..];
      ghost var n := |live| - 1;
      count := count - 1;
      var i := 0;
      while i < count
        invariant count == n
        invariant i <= count && forall k :: 0 <= k < i ==> slots[k] != d
      {
        if openDevices[i] == d {
          break;
        }
        i := i + 1;
      }
      ghost var j := i;
      FirstSlot(live[..count], d, j);
      i := i + 1;
      while i < count
        invariant count == n
        invariant j < i && (if j == count then i == count + 1 else i <= count)
        invariant forall k {:trigger openDevices[k]} :: 0 <= k < count ==>
                  openDevices[k] == if j <= k < i - 1 then slots[k + 1] else slots[k]
      {
        openDevices[i - 1] := openDevices[i];
        i := i + 1;
      }
      ClosedSlots(live, d, Live());
    }

    /** The destructor. */
    method Close(d: Device)
      requires Valid() && d in Live()
      modifies this`count, openDevices
      ensures count <= openDevices.Length && Live() == Closed(old(Live()), d)
      ensures old(Live())[|old(Live())| - 1] == d ==> Valid() && Live() == old(Live())[..|old(Live())| - 1]
    {
      ghost var live := Live();
      Remove(d);
      if live[|live| - 1] == d {
        CloseLast(live, d);
      }
    }

    /** deviceIsOpen */
    method DeviceIsOpen(port: nat, node: nat) returns (b: bool)
      requires Valid()
      ensures b <==> (port, node) in Places(Live())
    {
      for i := 0 to count
        invariant forall k :: 0 <= k < i ==> (Live()[k].port, Live()[k].node) != (port, node)
      {
        if openDevices[i].port == port && openDevices[i].node == node {
          assert Live()[i] == openDevices[i];
          return true;
        }
      }
      return false;
    }
  }
}
