/**
 The control loop of the reverse-engineering application: buttons drive motors and lights, a
 released second button of device 0 resets its bus, and docking after undocking ends the loop.
 */
module OmniLoop {
  import opened Words

  /** In a status byte a cleared bit means: button pressed, gimbal docked. */
  predicate Button1(s: bv8) { s & 1 == 0 }
  predicate Button2(s: bv8) { s & 2 == 0 }
  predicate Docked(s: bv8) { s & 4 == 0 }

  /** Docking is bit 2 of the status byte, the buttons are bits 0 and 1; no other bit matters to any of them. */
  lemma StatusBits(s: bv8, mask: bv8)
    ensures Button1(0) && Button2(0) && Docked(0)
    ensures (Button1(s) <==> !Button1(s ^ 1)) && (Button2(s) <==> !Button2(s ^ 2)) && (Docked(s) <==> !Docked(s ^ 4))
    ensures mask & 1 == 0 ==> (Button1(s ^ mask) <==> Button1(s))
    ensures mask & 2 == 0 ==> (Button2(s ^ mask) <==> Button2(s))
    ensures mask & 4 == 0 ==> (Docked(s ^ mask) <==> Docked(s))
  {
  }

  const DEFAULT_WORD: bv16 := 0x53c0
  const DL_FLASH: bv16 := 1
  const DL_FFLASH: bv16 := 2
  const MOTORS_ON: bv16 := 8

  /** Assigning a one-bit field. */
  function SetField(w: bv16, mask: bv16, b: bool): bv16 {
    if b then w | mask else w & !mask
  }

  /** The status word that belongs to a status byte. */
  function WordFor(s: bv8): bv16 {
    match (Button1(s), Button2(s))
    case (false, false) => 0x53c0
    case (false, true) => 0x53c2
    case (true, false) => 0x53c9
    case (true, true) => 0x53cb
  }

  predicate WordOk(w: bv16) {
    w == 0x53c0 || w == 0x53c2 || w == 0x53c9 || w == 0x53cb
  }

  lemma FieldsGiveWord(w: bv16, s: bv8)
    requires WordOk(w)
    ensures SetField(SetField(SetField(w, MOTORS_ON, Button1(s)), DL_FLASH, Button1(s)), DL_FFLASH, Button2(s)) ==
              WordFor(s)
  {
  }

  /** The motors are on exactly while button 1 is pressed. */
  lemma MotorsFollowButton1(s: bv8)
    ensures WordOk(WordFor(s)) && MOTORS_ON == 8 && (WordFor(s) & 8 != 0 <==> Button1(s))
  {
  }

  /** The word has bits 0 and 3 set while button 1 is pressed, bit 1 while button 2 is, and else is 0x53c0. */
  lemma WordBits(s: bv8)
    ensures WordFor(s) == 0x53c0 | (if s & 1 == 0 then 9 else 0) | (if s & 2 == 0 then 2 else 0)
  {
  }

  /** How often button 2 goes from pressed to released in a series of samples. */
  function Releases(samples: seq<bv8>): nat {
    if |samples| < 2 then 0
    else Releases(samples[..|samples| - 1])
         + if Button2(samples[|samples| - 2]) && !Button2(samples[|samples| - 1]) then 1 else 0
  }

  /** Bit 1 is clear before sample i and set in it. */
  predicate LetGo(samples: seq<bv8>, i: nat) {
    0 < i < |samples| && samples[i - 1] & 2 == 0 && samples[i] & 2 != 0
  }

  lemma {:induction false} ReleasesCount(samples: seq<bv8>)
    ensures var places := set i | 0 < i < |samples| && LetGo(samples, i); Releases(samples) == |places|
  {
    var places := set i | 0 < i < |samples| && LetGo(samples, i);
    if |samples| < 2 {
      assert places == {};
    } else {
      var n := |samples| - 1;
      var earlier := samples[..n];
      ReleasesCount(earlier);
      var before := set i | 0 < i < |earlier| && LetGo(earlier, i);
      assert forall i: nat :: i < n ==> LetGo(samples, i) == LetGo(earlier, i);
      assert places == before + if LetGo(samples, n) then {n} else {};
    }
  }

  lemma OneMoreSample(samples: seq<bv8>, s: bv8)
    ensures Last(samples + [s]) == s
    ensures Releases(samples + [s]) ==
            Releases(samples) + if samples != [] && Button2(Last(samples)) && !Button2(s) then 1 else 0
  {
    assert (samples + [s])[..|samples|] == samples;
  }

  /** The series ends docked and was undocked before. */
  ghost predicate DockedAgain(samples: seq<bv8>) {
    && samples != [] && Docked(samples[|samples| - 1])
    && exists i :: 0 <= i < |samples| && !Docked(samples[i])
  }

  ghost predicate WasUndocked(samples: seq<bv8>) {
    exists i :: 0 <= i < |samples| && !Docked(samples[i])
  }

  /** What select and the two iterations yield for a device in one round. */
  datatype Event = Quiet | Ready(sample: Option<bv8>, recvError: bool, xmitError: bool)

  /**
   The result of select. A negative one is not looked at and leaves the set of descriptors as it
   was, so it is a Round in which every device is Ready.
   */
  datatype Round = Timeout | Round(events: seq<Event>)

  predicate Fails(e: Event) {
    e.Ready? && (e.recvError || e.xmitError)
  }

  /** The samples a device has been processed with after one more event; without a new one the last counts again. */
  function Fed(samples: seq<bv8>, e: Event): seq<bv8> {
    if e.Quiet? then samples else samples + [if e.sample.Some? then e.sample.value else Last(samples)]
  }

  /** A quiet device is not processed; a ready one is with its new sample, else with the last one, at first 0. */
  lemma FedThen(samples: seq<bv8>, s: bv8, recvError: bool, xmitError: bool)
    ensures Fed(samples, Quiet) == samples
    ensures Fed(samples, Ready(Some(s), recvError, xmitError)) == samples + [s]
    ensures Fed([], Ready(None, recvError, xmitError)) == [0]
    ensures Fed(samples + [s], Ready(None, recvError, xmitError)) == samples + [s] + [s]
  {
  }

  /** The index of the first event that fails, or the number of events. */
  function FirstFailure(events: seq<Event>): (j: nat)
    ensures j <= |events|
    ensures forall i :: 0 <= i < j ==> !Fails(events[i])
    ensures j < |events| ==> Fails(events[j])
  {
    if events == [] || Fails(events[0]) then 0 else 1 + FirstFailure(events[1..])
  }

  /**
   The samples of all devices after one round. The round ends at the first failing device, which
   has still been processed if the failure is one of the write.
   */
  function FedRound(samples: seq<seq<bv8>>, events: seq<Event>): seq<seq<bv8>>
    requires |samples| == |events|
  {
    var j := FirstFailure(events);
    seq(|events|, d requires 0 <= d < |events| =>
      if d < j || (d == j && !events[d].recvError) then Fed(samples[d], events[d]) else samples[d])
  }

  /** Every round is answered, for n devices, without an error. */
  predicate Smooth(rounds: seq<Round>, n: nat) {
    forall r :: r in rounds ==> r.Round? && |r.events| == n && forall e :: e in r.events ==> !Fails(e)
  }

  /** The samples that device d has been processed with after the given rounds. */
  function SamplesOf(rounds: seq<Round>, n: nat, d: nat): seq<bv8>
    requires Smooth(rounds, n) && d < n
  {
    if rounds == [] then []
    else
      var last := rounds[|rounds| - 1];
      assert last in rounds;
      Fed(SamplesOf(rounds[..|rounds| - 1], n, d), last.events[d])
  }

  function AllSamples(rounds: seq<Round>, n: nat): seq<seq<bv8>>
    requires Smooth(rounds, n)
  {
    seq(n, d requires 0 <= d < n => SamplesOf(rounds, n, d))
  }

  lemma FailureAt(events: seq<Event>, d: nat)
    requires d < |events| && Fails(events[d]) && forall i :: 0 <= i < d ==> !Fails(events[i])
    ensures FirstFailure(events) == d
  {
  }

  lemma NoFailure(events: seq<Event>)
    requires forall i :: 0 <= i < |events| ==> !Fails(events[i])
    ensures FirstFailure(events) == |events|
  {
  }

  lemma OneMoreRound(rounds: seq<Round>, n: nat, d: nat, events: seq<Event>)
    requires Smooth(rounds, n) && d < n && |events| == n && forall e :: e in events ==> !Fails(e)
    ensures Smooth(rounds + [Round(events)], n)
    ensures SamplesOf(rounds + [Round(events)], n, d) == Fed(SamplesOf(rounds, n, d), events[d])
  {
    var more := rounds + [Round(events)];
    assert Smooth(more, n);
    assert more[..|more| - 1] == rounds;
  }

  datatype Exit = NormalExit | TimedOut | Failed | StillRunning

  function Last(samples: seq<bv8>): bv8 {
    if samples == [] then 0 else samples[|samples| - 1]
  }

  function WordAfter(samples: seq<bv8>): bv16 {
    if samples == [] then DEFAULT_WORD else WordFor(Last(samples))
  }

  ghost predicate IsRecord(words: seq<bv16>, processed: seq<seq<bv8>>, pressed: bool, resets: nat) {
    && |words| == |processed| >= 1
    && (forall d :: 0 <= d < |words| ==> words[d] == WordAfter(processed[d]))
    && (pressed <==> processed[0] != [] && Button2(Last(processed[0])))
    && resets == Releases(processed[0])
  }

  lemma WordsStayOk(samples: seq<bv8>)
    ensures WordOk(WordAfter(samples))
  {
    MotorsFollowButton1(Last(samples));
  }

  lemma OneMoreRecord(words: seq<bv16>, processed: seq<seq<bv8>>, pressed: bool, resets: nat, d: nat, s: bv8)
    requires IsRecord(words, processed, pressed, resets) && d < |words|
    ensures var longer := processed[d := processed[d] + [s]];
            if d == 0
            then IsRecord(words[d := WordFor(s)], longer, Button2(s), resets + if pressed && !Button2(s) then 1 else 0)
            else IsRecord(words[d := WordFor(s)], longer, pressed, resets)
  {
    OneMoreSample(processed[d], s);
    assert WordAfter(processed[d] + [s]) == WordFor(s);
  }

  class Application {
    var status: seq<bv8>     // of each device, zero before the first sample
    var words: seq<bv16>
    var button2Pressed: bool
    var phantomDocked: bool  // set once the gimbal has been seen undocked
    var resets: nat
    ghost var processed: seq<seq<bv8>>  // the status bytes each device has been processed with

    /** Words, click flag and resets are those of the samples processed so far. */
    ghost predicate Recorded()
      reads this
    {
      |status| == |words| && IsRecord(words, processed, button2Pressed, resets)
    }

    ghost predicate Valid()
      reads this
    {
      Recorded() && forall d :: 0 <= d < |status| ==> status[d] == Last(processed[d])
    }

    constructor (n: nat)
      requires n >= 1
      ensures Valid() && |processed| == n && processed[0] == [] && !phantomDocked
      ensures |status| == n && forall d :: 0 <= d < n ==> status[d] == 0 && words[d] == 0x53c0
    {
      status := seq(n, _ => 0);
      words := seq(n, _ => DEFAULT_WORD);
      button2Pressed, phantomDocked, resets := false, false, 0;
      processed := seq(n, _ => []);
    }

    /** The three assignments to the fields of the status word. */
    method ShowButtons(d: nat)
      requires |status| == |words| && d < |words| && WordOk(words[d])
      modifies this`words
      ensures words == old(words)[d := WordFor(status[d])]
    {
      FieldsGiveWord(words[d], status[d]);
      words := words[d := SetField(words[d], MOTORS_ON, Button1(status[d]))];
      words := words[d := SetField(words[d], DL_FLASH, Button1(status[d]))];
      words := words[d := SetField(words[d], DL_FFLASH, Button2(status[d]))];
    }

    /** The click detection: a bus reset when button 2 is let go. */
    method ShowClick()
      requires |status| >= 1
      modifies this`button2Pressed, this`resets
      ensures button2Pressed <==> Button2(status[0])
      ensures resets == old(resets) + if old(button2Pressed) && !Button2(status[0]) then 1 else 0
    {
      if Button2(status[0]) {
        button2Pressed := true;
      } else {
        if button2Pressed {
          button2Pressed := false;
          resets := resets + 1;
        }
      }
    }

    /** Shows the buttons of a device's status byte and detects a click. */
    method React(d: nat)
      requires Recorded() && d < |words|
      modifies this`words, this`button2Pressed, this`resets, this`processed
      ensures Recorded() && processed == old(processed)[d := old(processed)[d] + [status[d]]]
    {
      WordsStayOk(processed[d]);
      OneMoreRecord(words, processed, button2Pressed, resets, d, status[d]);
      ShowButtons(d);
      if d == 0 {
        ShowClick();
      }
      processed := processed[d := processed[d] + [status[d]]];
    }

    /** One device in one round; without a new sample the last one is processed again. */
    method Process(d: nat, e: Event) returns (failed: bool)
      requires Valid() && d < |words|
      modifies this`status, this`words, this`button2Pressed, this`resets, this`processed
      ensures failed <==> e.Ready? && (e.recvError || e.xmitError)
      ensures Recorded() && (!failed ==> Valid())
      ensures |processed| == |old(processed)|
      ensures processed == if failed && e.recvError then old(processed)
                else old(processed)[d := Fed(old(processed)[d], e)]
    {
      if e.Quiet? {
        return false;
      }
      if e.sample.Some? {
        status := status[d := e.sample.value];
      }
      if e.recvError {
        return true;
      }
      React(d);
      return e.xmitError;
    }

    /** The devices of one round, in order. */
    method ProcessAll(events: seq<Event>) returns (failed: bool)
      requires Valid() && |events| == |words|
      modifies this`status, this`words, this`button2Pressed, this`resets, this`processed
      ensures failed <==> exists e :: e in events && Fails(e)
      ensures Recorded() && (!failed ==> Valid()) && |processed| == |old(processed)|
      ensures !failed ==> forall d :: 0 <= d < |events| ==> processed[d] == Fed(old(processed)[d], events[d])
      ensures processed == FedRound(old(processed), events)
    {
      failed := false;
      ghost var before := processed;
      for d := 0 to |events|
        invariant Valid() && |processed| == |before|
        invariant forall i :: 0 <= i < d ==> processed[i] == Fed(before[i], events[i]) && !Fails(events[i])
        invariant forall i :: d <= i < |events| ==> processed[i] == before[i]
      {
        failed := Process(d, events[d]);
        if failed {
          FailureAt(events, d);
          return;
        }
      }
      NoFailure(events);
    }

    /** The body of the do-while loop and its condition; StillRunning asks for another round. */
    method Iterate(round: Round) returns (exit: Exit)
      requires Valid() && Pending(processed[0], phantomDocked)
      requires round.Timeout? || |round.events| == |words|
      modifies this
      ensures Recorded() && |processed| == |old(processed)|
      ensures exit == TimedOut <==> round.Timeout?
      ensures exit == TimedOut ==> Valid() && processed == old(processed)
      ensures exit == Failed <==>
                round.Round? && exists e :: e in round.events && e.Ready? && (e.recvError || e.xmitError)
      ensures exit == NormalExit || exit == StillRunning ==>
                Valid() && forall d :: 0 <= d < |processed| ==> processed[d] == Fed(old(processed)[d], round.events[d])
      ensures exit == Failed ==> processed == FedRound(old(processed), round.events)
      ensures exit == NormalExit ==> DockedAgainAtLast(processed[0])
      ensures exit == StillRunning ==> Pending(processed[0], phantomDocked)
    {
      NextRound(processed[0], phantomDocked);
      if !Docked(status[0]) {
        phantomDocked := true;
      }
      if round.Timeout? {
        return TimedOut;
      }
      ghost var before := processed[0];
      var failed := ProcessAll(round.events);
      if failed {
        return Failed;
      }
      Grown(before, processed[0], phantomDocked);
      return if Docked(status[0]) && phantomDocked then NormalExit else StillRunning;
    }

    /**
     The do-while loop over the rounds that select delivers, of which it completes `used`. It ends
     normally the first time that device 0 has been undocked and is docked again, and never
     otherwise.
     */
    method Run(rounds: seq<Round>) returns (exit: Exit, ghost used: nat)
      requires Valid() && !phantomDocked && forall d :: 0 <= d < |processed| ==> processed[d] == []
      requires forall r :: r in rounds ==> r.Timeout? || |r.events| == |words|
      modifies this
      ensures used <= |rounds| && |processed| == |old(words)| && Smooth(rounds[..used], |processed|)
      ensures Recorded() && (exit != Failed ==> Valid())
      ensures resets == Releases(processed[0]) && |words| == |processed|
      ensures forall d :: 0 <= d < |words| ==>
                words[d] == if processed[d] == [] then 0x53c0 else WordFor(processed[d][|processed[d]| - 1])
      ensures exit != Failed ==> forall d :: 0 <= d < |processed| ==>
                processed[d] == SamplesOf(rounds[..used], |processed|, d)
      ensures exit == NormalExit ==> DockedAgainAtLast(processed[0]) && Bit2ClearsAtLast(processed[0])
      ensures exit == StillRunning || exit == TimedOut ==>
                NeverDockedAgain(processed[0]) && Bit2StaysSet(processed[0], |processed[0]|)
      ensures exit == StillRunning ==> used == |rounds|
      ensures exit == TimedOut ==> used < |rounds| && rounds[used].Timeout?
      ensures exit == Failed ==>
                && used < |rounds| && rounds[used].Round?
                && exists e :: e in rounds[used].events && e.Ready? && (e.recvError || e.xmitError)
      ensures exit == Failed ==>
                && |rounds[used].events| == |processed|
                && processed == FedRound(AllSamples(rounds[..used], |processed|), rounds[used].events)
    {
      var k := 0;
      ghost var n := |words|;
      exit, used := StillRunning, 0;
      while exit == StillRunning && k < |rounds|
        invariant used <= k <= |rounds| && |processed| == n && Smooth(rounds[..used], n)
        invariant Recorded() && (exit != Failed ==> Valid())
        invariant exit != Failed ==> forall d :: 0 <= d < n ==> processed[d] == SamplesOf(rounds[..used], n, d)
        invariant exit == NormalExit ==> DockedAgainAtLast(processed[0])
        invariant exit == TimedOut ==> used < k && rounds[used].Timeout? && NeverDockedAgain(processed[0])
        invariant exit == Failed ==> used < k && rounds[used].Round? && exists e :: e in rounds[used].events && Fails(e)
        invariant exit == Failed ==>
                    && |rounds[used].events| == n
                    && processed == FedRound(AllSamples(rounds[..used], n), rounds[used].events)
        invariant exit == StillRunning ==> used == k && Pending(processed[0], phantomDocked)
      {
        ghost var before := processed;
        assert rounds[k] in rounds;
        assert before == AllSamples(rounds[..used], n);
        exit := Iterate(rounds[k]);
        k := k + 1;
        if exit == StillRunning || exit == NormalExit {
          RoundDone(rounds, used, n, before, processed);
          used := used + 1;
        }
      }
      DockingBits(processed[0]);
    }
  }

  /** The samples after round k, from those before it. */
  lemma RoundDone(rounds: seq<Round>, k: nat, n: nat, before: seq<seq<bv8>>, after: seq<seq<bv8>>)
    requires k < |rounds| && rounds[k].Round? && |rounds[k].events| == n && Smooth(rounds[..k], n)
    requires forall e :: e in rounds[k].events ==> !Fails(e)
    requires |before| == |after| == n && forall d :: 0 <= d < n ==> before[d] == SamplesOf(rounds[..k], n, d)
    requires forall d :: 0 <= d < n ==> after[d] == Fed(before[d], rounds[k].events[d])
    ensures Smooth(rounds[..k + 1], n)
    ensures forall d :: 0 <= d < n ==> after[d] == SamplesOf(rounds[..k + 1], n, d)
  {
    var events := rounds[k].events;
    assert rounds[..k + 1] == rounds[..k] + [Round(events)];
    forall d | 0 <= d < n
      ensures Smooth(rounds[..k + 1], n) && after[d] == SamplesOf(rounds[..k + 1], n, d)
    {
      OneMoreRound(rounds[..k], n, d, events);
    }
    assert Smooth(rounds[..k] + [Round(events)], n);
  }

  /** The loop has not come to its end; `seen` may lag behind by the last sample. */
  ghost predicate Pending(samples: seq<bv8>, seen: bool) {
    && NeverDockedAgain(samples)
    && (seen ==> WasUndocked(samples))
    && (WasUndocked(samples) ==> seen || !Docked(Last(samples)))
  }

  ghost predicate NeverDockedAgain(samples: seq<bv8>) {
    forall k :: 0 <= k <= |samples| ==> !DockedAgain(samples[..k])
  }

  /** The whole series, and no shorter one, ends docked after an undocked sample. */
  ghost predicate DockedAgainAtLast(samples: seq<bv8>) {
    DockedAgain(samples) && forall k :: 0 <= k < |samples| ==> !DockedAgain(samples[..k])
  }

  /** Once bit 2 has been set in one of the first n samples, it is not clear in a later one of them. */
  ghost predicate Bit2StaysSet(samples: seq<bv8>, n: nat)
    requires n <= |samples|
  {
    forall i, k :: 0 <= i < k < n && samples[i] & 4 != 0 ==> samples[k] & 4 != 0
  }

  /** Bit 2 is clear in the last sample, was set before, and has not become clear earlier. */
  ghost predicate Bit2ClearsAtLast(samples: seq<bv8>) {
    && samples != [] && samples[|samples| - 1] & 4 == 0 && Bit2StaysSet(samples, |samples| - 1)
    && exists i :: 0 <= i < |samples| && samples[i] & 4 != 0
  }

  lemma DockingBits(samples: seq<bv8>)
    ensures DockedAgainAtLast(samples) ==> Bit2ClearsAtLast(samples)
    ensures NeverDockedAgain(samples) ==> Bit2StaysSet(samples, |samples|)
  {
    if DockedAgainAtLast(samples) {
      PrefixBits(samples, |samples| - 1);
      var i :| 0 <= i < |samples| && !Docked(samples[i]);
      assert samples[i] & 4 != 0;
    }
    if NeverDockedAgain(samples) {
      PrefixBits(samples, |samples|);
    }
  }

  lemma PrefixBits(samples: seq<bv8>, n: nat)
    requires n <= |samples| && forall k :: 0 <= k <= n ==> !DockedAgain(samples[..k])
    ensures Bit2StaysSet(samples, n)
  {
    forall i, k | 0 <= i < k < n && samples[i] & 4 != 0
      ensures samples[k] & 4 != 0
    {
      var prefix := samples[..k + 1];
      assert prefix[i] == samples[i] && !Docked(prefix[i]) && prefix[|prefix| - 1] == samples[k];
      assert !DockedAgain(prefix);
    }
  }

  /** At the top of the loop the flag catches up. */
  lemma NextRound(samples: seq<bv8>, seen: bool)
    requires Pending(samples, seen)
    ensures Pending(samples, seen || !Docked(Last(samples)))
    ensures seen || !Docked(Last(samples)) <==> WasUndocked(samples)
  {
    if !Docked(Last(samples)) {
      assert samples != [] && !Docked(samples[|samples| - 1]);
    }
  }

  /** What one more sample does to the end condition. */
  lemma Grown(before: seq<bv8>, after: seq<bv8>, seen: bool)
    requires after == before || (after != [] && after[..|after| - 1] == before)
    requires Pending(before, seen) && (seen <==> WasUndocked(before))
    ensures Docked(Last(after)) && seen ==> DockedAgainAtLast(after)
    ensures !(Docked(Last(after)) && seen) ==> Pending(after, seen)
  {
    assert after[..|after|] == after && before[..|before|] == before;
    forall j | 0 <= j < |after|
      ensures !DockedAgain(after[..j])
    {
      assert after[..j] == before[..j];
    }
    if seen {
      var i :| 0 <= i < |before| && !Docked(before[i]);
      assert !Docked(after[i]);
    }
  }
}
