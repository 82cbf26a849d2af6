/**
 The register handshakes transaction by transaction: what start and stop make of every sequence of
 answers, EAGAINs and failures, and which bytes of the device they change.
 */
module RegisterFates {
  import opened Words
  import opened Raw1394
  import opened PhantomIsoChannel
  import PhantomSession

  function Agains(n: nat): seq<Status> {
    seq(n, _ => Again)
  }

  function Dones(n: nat): seq<Status> {
    seq(n, _ => Done)
  }

  /** A read is tried again after every EAGAIN; the first other status is its fate. */
  lemma {:induction false} RetriedRead(n: nat, fate: Status, rest: seq<Status>)
    requires fate != Again
    ensures AfterRead(Agains(n) + [fate] + rest) == rest
    ensures ReadRefused(Agains(n) + [fate] + rest) <==> fate == Fault
  {
    var script := Agains(n) + [fate] + rest;
    if n == 0 {
      assert script[1..] == rest;
    } else {
      RetriedRead(n - 1, fate, rest);
      assert script[1..] == Agains(n - 1) + [fate] + rest;
    }
  }

  /** What a script says about five transactions, of which the second and the fourth are retried reads. */
  function FiveFates(w1: Status, i: nat, r1: Status, w2: Status, j: nat, r2: Status, w3: Status, rest: seq<Status>)
    : seq<Status>
  {
    [w1] + (Agains(i) + [r1] + ([w2] + (Agains(j) + [r2] + ([w3] + rest))))
  }

  /**
   The receive handshake, for any fate of its five transactions: the first write may meet EAGAIN if
   the register holds the channel already, the second one may not, and the third one may fail to
   change anything; the reads must be answered in the end.
   */
  lemma HandshakeInSteps(m: Image, ignored: set<nat>, channel: nat, w1: Status, i: nat, r1: Status, w2: Status, j: nat,
                         r2: Status, w3: Status, rest: seq<Status>)
    requires r1 != Again && r2 != Again
    ensures var script := FiveFates(w1, i, r1, w2, j, r2, w3, rest);
            && (HandshakeSucceeds(m, ignored, script, channel) <==>
                  && 0x1001 in m && 0x1001 !in ignored
                  && (w1 == Done || (w1 == Again && m[0x1001] == channel))
                  && r1 == Done && w2 == Done && r2 == Done && w3 != Fault)
            && BeforeFinalWrite(script) == [w3] + rest
            && (Told(script, true) <==> w3 == Done)
  {
    var last := [w3] + rest;
    var probe := [w2] + (Agains(j) + [r2] + last);
    var script := FiveFates(w1, i, r1, w2, j, r2, w3, rest);
    assert Tail(script) == Agains(i) + [r1] + probe;
    RetriedRead(i, r1, probe);
    assert Tail(probe) == Agains(j) + [r2] + last;
    RetriedRead(j, r2, last);
  }

  /** Answers behind the end of a script make no difference, so that the lemma above covers every script. */
  lemma {:induction false} PaddedRead(script: seq<Status>, k: nat) returns (k': nat)
    ensures AfterRead(script + Dones(k)) == AfterRead(script) + Dones(k')
    ensures ReadRefused(script + Dones(k)) == ReadRefused(script)
  {
    var padded := script + Dones(k);
    if script == [] {
      k' := if k == 0 then 0 else k - 1;
      assert k > 0 ==> padded[0] == Done && padded[1..] == Dones(k - 1);
    } else if script[0] == Again {
      assert padded[1..] == script[1..] + Dones(k);
      k' := PaddedRead(script[1..], k);
    } else {
      k' := k;
      assert padded[1..] == script[1..] + Dones(k);
    }
  }

  lemma PaddedTail(script: seq<Status>, k: nat) returns (k': nat)
    ensures Tail(script + Dones(k)) == Tail(script) + Dones(k')
    ensures Answered(script + Dones(k)) == Answered(script) && Refused(script + Dones(k)) == Refused(script)
  {
    k' := if script == [] && k > 0 then k - 1 else k;
    if script == [] && k > 0 {
      assert (script + Dones(k))[1..] == Dones(k - 1);
    } else if script != [] {
      assert (script + Dones(k))[1..] == script[1..] + Dones(k);
    }
  }

  lemma HandshakePadded(m: Image, ignored: set<nat>, script: seq<Status>, channel: nat, k: nat)
    ensures HandshakeSucceeds(m, ignored, script + Dones(k), channel) == HandshakeSucceeds(m, ignored, script, channel)
    ensures Told(script + Dones(k), true) == Told(script, true)
  {
    var k1 := PaddedTail(script, k);
    var k2 := PaddedRead(Tail(script), k1);
    var probe := AfterRead(Tail(script));
    var k3 := PaddedTail(probe, k2);
    var k4 := PaddedRead(Tail(probe), k3);
    var k5 := PaddedTail(BeforeFinalWrite(script), k4);
  }

  /** What a script says about the three register reads of start and stop. */
  function ThreeReads(i: nat, a: Status, j: nat, b: Status, k: nat, c: Status, rest: seq<Status>): seq<Status> {
    Agains(i) + [a] + (Agains(j) + [b] + (Agains(k) + [c] + rest))
  }

  lemma ChecksInSteps(i: nat, a: Status, j: nat, b: Status, k: nat, c: Status, rest: seq<Status>)
    requires a != Again && b != Again && c != Again
    ensures var script := ThreeReads(i, a, j, b, k, c, rest);
            && AfterChecks(script) == rest && (ReadRefused(script) <==> a == Fault)
            && (ReadRefused(AfterRead(script)) <==> b == Fault)
            && (ReadRefused(AfterRead(AfterRead(script))) <==> c == Fault)
  {
    RetriedRead(i, a, Agains(j) + [b] + (Agains(k) + [c] + rest));
    RetriedRead(j, b, Agains(k) + [c] + rest);
    RetriedRead(k, c, rest);
  }

  /** stop, for any fate of its four transactions: when it goes through, and the one byte it may change. */
  lemma StopInSteps(m: Image, ignored: set<nat>, i: nat, a: Status, j: nat, b: Status, k: nat, c: Status, w: Status,
                    rest: seq<Status>)
    requires a != Again && b != Again && c != Again
    ensures var script := ThreeReads(i, a, j, b, k, c, [w] + rest);
            && (StopSucceeds(m, script) <==>
                  && 0x1083 in m && m[0x1083] == 0xc0 && 0x1082 in m && m[0x1082] == 0 && 0x1087 in m
                  && a == Done && b == Done && c == Done && (BitSet(m[0x1087], 3) ==> w != Fault))
            && (0x1087 in m ==>
                  && AfterStop(m, ignored, Answered(AfterChecks(script))) ==
                     (if BitSet(m[0x1087], 3) && w == Done && 0x1087 !in ignored then m[0x1087 := 8] else m)
                  && ScriptAfterStop(script, BitSet(m[0x1087], 3)) ==
                     (if BitSet(m[0x1087], 3) then rest else [w] + rest))
  {
    ChecksInSteps(i, a, j, b, k, c, [w] + rest);
    if 0x1087 in m {
      EnableBit(m[0x1087]);
    }
  }

  /** Bit 3 of the control register enables iso transfers; enabling and disabling add 8 and take it away. */
  lemma EnableBit(c: byte)
    ensures IsoEnabled(c) <==> BitSet(c, 3)
    ensures WithEnable(c) == (if BitSet(c, 3) then c else c + 8)
    ensures WithoutEnable(c) == (if BitSet(c, 3) then c - 8 else c)
    ensures OnlyEnable(c) == (if BitSet(c, 3) then 8 else 0)
  {
    var x: nat := c;
    assert BitSet(x, 3) == BitSet(x / 2, 2) == BitSet(x / 2 / 2, 1) == BitSet(x / 2 / 2 / 2, 0);
  }

  /** start, for any fate of its checks and of its last write, behind a channel register that is told. */
  lemma StartInSteps(m: Image, ignored: set<nat>, script: seq<Status>, receiving: bool, channel: nat, w3: Status,
                     i: nat, a: Status, j: nat, b: Status, k: nat, c: Status, w4: Status, rest: seq<Status>)
    requires a != Again && b != Again && c != Again
    requires var left := if receiving then BeforeFinalWrite(script) else script;
             left == [w3] + ThreeReads(i, a, j, b, k, c, [w4] + rest)
    ensures StartSucceeds(m, ignored, script, receiving, channel) <==>
            && (if receiving then HandshakeSucceeds(m, ignored, script, channel)
                else w3 == Again || (w3 == Done && 0x1000 in m))
            && 0x1083 in m && m[0x1083] == 0xc0 && 0x1082 in m && m[0x1082] == 0 && 0x1087 in m
            && a == Done && b == Done && c == Done && (BitSet(m[0x1087], 3) || w4 != Fault)
  {
    var left := if receiving then BeforeFinalWrite(script) else script;
    assert Tail(left) == ThreeReads(i, a, j, b, k, c, [w4] + rest);
    ChecksInSteps(i, a, j, b, k, c, [w4] + rest);
    if 0x1087 in m {
      EnableBit(m[0x1087]);
    }
  }

  /** An EAGAIN on the first write goes through exactly if the register holds the channel already. */
  lemma DroppedFirstWrite(m: Image, ignored: set<nat>, script: seq<Status>, channel: nat)
    requires script != [] && script[0] == Again
    ensures HandshakeSucceeds(m, ignored, script, channel) ==> 0x1001 in m && m[0x1001] == channel
    ensures Prompt(script[1..]) ==>
              (HandshakeSucceeds(m, ignored, script, channel) <==>
                 0x1001 in m && 0x1001 !in ignored && m[0x1001] == channel)
  {
    if Prompt(script[1..]) {
      var rest := script[1..];
      PromptIsClean(rest);
      AfterReadKeeps(rest);
      TailKeeps(AfterRead(rest));
      AfterReadKeeps(Tail(AfterRead(rest)));
      TailKeeps(BeforeFinalWrite(script));
    }
  }

  /** The bytes after a start of the receive channel that returns normally. */
  lemma ReceiveStartInSteps(m: Image, ignored: set<nat>, channel: byte, script: seq<Status>, w3: Status, i: nat,
                            a: Status, j: nat, b: Status, k: nat, c: Status, w4: Status, rest: seq<Status>)
    requires a != Again && b != Again && c != Again && 0x1087 in m
    requires BeforeFinalWrite(script) == [w3] + ThreeReads(i, a, j, b, k, c, [w4] + rest)
    ensures var told := m[0x1001 := if w3 == Done then channel else 0x40];
            Started(m, ignored, script, true, channel) ==
            if !BitSet(m[0x1087], 3) && w4 == Done && 0x1087 !in ignored then told[0x1087 := m[0x1087] + 8] else told
    ensures ScriptAfterStart(script, true, BitSet(m[0x1087], 3)) == if BitSet(m[0x1087], 3) then [w4] + rest else rest
  {
    ChecksInSteps(i, a, j, b, k, c, [w4] + rest);
    assert Tail(BeforeFinalWrite(script)) == ThreeReads(i, a, j, b, k, c, [w4] + rest);
    EnableBit(m[0x1087]);
  }

  /** The bytes after a start of the transmit channel that returns normally. */
  lemma TransmitStartInSteps(m: Image, ignored: set<nat>, channel: byte, w: Status, i: nat, a: Status, j: nat,
                             b: Status, k: nat, c: Status, w4: Status, rest: seq<Status>)
    requires a != Again && b != Again && c != Again && 0x1087 in m
    ensures var script := [w] + ThreeReads(i, a, j, b, k, c, [w4] + rest);
            var told := if w == Done && 0x1000 !in ignored then m[0x1000 := channel] else m;
            && Started(m, ignored, script, false, channel) ==
               (if !BitSet(m[0x1087], 3) && w4 == Done && 0x1087 !in ignored then told[0x1087 := m[0x1087] + 8]
                else told)
            && ScriptAfterStart(script, false, BitSet(m[0x1087], 3)) ==
               (if BitSet(m[0x1087], 3) then [w4] + rest else rest)
  {
    var script := [w] + ThreeReads(i, a, j, b, k, c, [w4] + rest);
    ChecksInSteps(i, a, j, b, k, c, [w4] + rest);
    assert Tail(script) == ThreeReads(i, a, j, b, k, c, [w4] + rest);
    EnableBit(m[0x1087]);
  }

  /** A configured device: the two channel registers, bit 3 of the control register, and nothing else. */
  lemma ConfiguredBytes(m: Image, recv: byte, xmit: byte)
    requires 0x1087 in m
    ensures PhantomSession.Configured(m, recv, xmit) ==
            m[0x1000 := xmit][0x1001 := recv][0x1087 := if BitSet(m[0x1087], 3) then m[0x1087] else m[0x1087] + 8]
  {
    EnableBit(m[0x1087]);
  }

  /** The device has the registers that the handshakes use, and its status is fine. */
  lemma StatusBytes(m: Image)
    ensures HasRegisters(m) <==> 0x1000 in m && 0x1001 in m && 0x1082 in m && 0x1083 in m && 0x1087 in m
    ensures Healthy(m) <==> 0x1083 in m && m[0x1083] == 0xc0 && 0x1082 in m && m[0x1082] == 0
  {
  }
}
