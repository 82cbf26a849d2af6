/**
 The channel allocator of the Mac OS X driver: a process-wide 64-bit `claimed` mask in which the
 32-bit expression 1 << channel sets and clears bits. For channel 31 that expression is negative
 and reaches the mask sign-extended. A machine word is the set of its one bits, so that | is
 union, & is intersection and ~ is the complement within the word.
 */
module MacChannels {
  import opened Words

  type Bits = set<nat>

  const INT: Bits := set b: nat | 0 <= b < 32
  const UPPER: Bits := set b: nat | 32 <= b < 64
  const TOP: Bits := set b: nat | 31 <= b < 64

  /** Conversion of a 32-bit int to a 64-bit long copies the sign bit. */
  function SignExtend(x: Bits): Bits {
    if 31 in x then x + UPPER else x
  }

  /** 1 << channel as it reaches the long. */
  function Mask(c: nat): Bits
    requires c < 32
  {
    SignExtend({c})
  }

  /** claimed |= 1 << channel */
  function Claim(claimed: Bits, c: nat): Bits
    requires c < 32
  {
    claimed + Mask(c)
  }

  /** claimed &= ~(1 << channel): the complement is taken in 32 bits and then widened. */
  function Release(claimed: Bits, c: nat): Bits
    requires c < 32
  {
    claimed * SignExtend(INT - {c})
  }

  /** claimed & (1 << channel) is not zero. */
  predicate IsClaimed(claimed: Bits, c: nat)
    requires c < 32
  {
    claimed * Mask(c) != {}
  }

  /** Bits 31 to 63 are all set or all clear. */
  predicate TopTied(claimed: Bits) {
    TOP <= claimed || TOP !! claimed
  }

  /** The mask stands for the set of channels s. */
  ghost predicate Represents(claimed: Bits, s: set<nat>) {
    claimed <= INT + UPPER && TopTied(claimed) && s <= INT && claimed * INT == s
  }

  /** Testing a channel looks at more than one bit for channel 31, but gives the same answer. */
  lemma TestIsMembership(claimed: Bits, s: set<nat>, c: nat)
    requires Represents(claimed, s) && c < 32
    ensures IsClaimed(claimed, c) <==> c in s
  {
    if c == 31 {
      assert {31} + UPPER == TOP;
      assert 31 in TOP && 31 in INT;
      if TOP !! claimed {
        assert claimed * TOP == {};
        assert 31 !in claimed;
      } else {
        assert 31 in claimed * Mask(31);
      }
    } else {
      assert c in s <==> c in claimed;
      if c in claimed {
        assert c in claimed * Mask(c);
      } else {
        assert claimed * {c} == {};
      }
    }
  }

  lemma ClaimAddsChannel(claimed: Bits, s: set<nat>, c: nat)
    requires Represents(claimed, s) && c < 32
    ensures Represents(Claim(claimed, c), s + {c})
  {
    var m := Claim(claimed, c);
    assert m * INT == s + {c};
    if c == 31 {
      assert TOP <= m;
    } else {
      assert TOP !! {c};
    }
  }

  lemma ReleaseRemovesChannel(claimed: Bits, s: set<nat>, c: nat)
    requires Represents(claimed, s) && c < 32
    ensures Represents(Release(claimed, c), s - {c})
  {
    var m := Release(claimed, c);
    assert m * INT == s - {c};
    if c == 31 {
      assert TOP !! m;
    } else {
      assert TOP <= SignExtend(INT - {c});
      if TOP <= claimed {
        assert TOP <= m;
      }
    }
  }

  class Allocator {
    var claimed: Bits

    constructor ()
      ensures Represents(claimed, {})
    {
      claimed := {};
    }

    /** getFreeChannel: the least unclaimed channel; Err stands for the exception. */
    method GetFreeChannel(ghost s: set<nat>) returns (r: Result<nat>)
      requires Represents(claimed, s)
      ensures r.Ok? ==> IsLeast(r.value, INT - s)
      ensures r.Err? <==> s == INT
    {
      for ch := 0 to 32
        invariant forall c :: 0 <= c < ch ==> c in s
      {
        TestIsMembership(claimed, s, ch);
        if !IsClaimed(claimed, ch) {
          return Ok(ch);
        }
      }
      return Err;
    }

    /** claimChannel: claims without asking whether the channel is claimed already. */
    method ClaimChannel(channel: nat, ghost s: set<nat>)
      requires channel < 32 && Represents(claimed, s)
      modifies this
      ensures Represents(claimed, s + {channel})
    {
      ClaimAddsChannel(claimed, s, channel);
      claimed := Claim(claimed, channel);
    }

    /** releaseChannel */
    method ReleaseChannel(channel: nat, ghost s: set<nat>)
      requires channel < 32 && Represents(claimed, s)
      modifies this
      ensures Represents(claimed, s - {channel})
    {
      ReleaseRemovesChannel(claimed, s, channel);
      claimed := Release(claimed, channel);
    }
  }

  // ----- every sequence of calls

  datatype Call = Claiming(channel: nat) | Releasing(channel: nat)

  predicate CallsOk(calls: seq<Call>) {
    forall i :: 0 <= i < |calls| ==> calls[i].channel < 32
  }

  function MaskAfter(claimed: Bits, calls: seq<Call>): Bits
    requires CallsOk(calls)
  {
    if calls == [] then claimed
    else
      var before := MaskAfter(claimed, calls[..|calls| - 1]);
      match calls[|calls| - 1]
      case Claiming(c) => Claim(before, c)
      case Releasing(c) => Release(before, c)
  }

  function SetAfter(s: set<nat>, calls: seq<Call>): set<nat> {
    if calls == [] then s
    else
      var before := SetAfter(s, calls[..|calls| - 1]);
      match calls[|calls| - 1]
      case Claiming(c) => before + {c}
      case Releasing(c) => before - {c}
  }

  /** The mask refines a set of channels over every sequence of claims and releases. */
  lemma {:induction false} MaskIsSet(claimed: Bits, s: set<nat>, calls: seq<Call>)
    requires Represents(claimed, s) && CallsOk(calls)
    ensures Represents(MaskAfter(claimed, calls), SetAfter(s, calls))
  {
    if calls != [] {
      var earlier, last := calls[..|calls| - 1], calls[|calls| - 1];
      MaskIsSet(claimed, s, earlier);
      ClaimAddsChannel(MaskAfter(claimed, earlier), SetAfter(s, earlier), last.channel);
      ReleaseRemovesChannel(MaskAfter(claimed, earlier), SetAfter(s, earlier), last.channel);
    }
  }

  /**
   Nothing stops a second client from claiming a claimed channel, and its release then frees the
   channel under the first one: two claims and one release leave the channel free.
   */
  lemma ClaimsDoNotCount(claimed: Bits, s: set<nat>, c: nat)
    requires Represents(claimed, s) && c < 32
    ensures !IsClaimed(MaskAfter(claimed, [Claiming(c), Claiming(c), Releasing(c)]), c)
  {
    var calls := [Claiming(c), Claiming(c), Releasing(c)];
    MaskIsSet(claimed, s, calls);
    TestIsMembership(MaskAfter(claimed, calls), SetAfter(s, calls), c);
  }
}
