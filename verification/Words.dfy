/** Bytes, 32-bit quadlets and the byte-order conversions of a little-endian host. */
module Words {

  type byte = x: int | 0 <= x < 0x100
  type quadlet = x: int | 0 <= x < 0x1_0000_0000

  datatype Option<+T> = None | Some(value: T)
  datatype Result<+T> = Ok(value: T) | Err

  /** x & (1 << k) is not zero. */
  predicate BitSet(x: nat, k: nat)
    decreases k
  {
    if k == 0 then x % 2 == 1 else BitSet(x / 2, k - 1)
  }

  /** What `*(quadlet_t *) b` yields on a little-endian host. */
  function HostLoad(b: seq<byte>): quadlet
    requires |b| == 4
  {
    (b[0] as int) + 0x100 * (b[1] as int) + 0x1_0000 * (b[2] as int) + 0x100_0000 * (b[3] as int)
  }

  /** ntohl on a little-endian host: reverses the four bytes of a quadlet. */
  function Ntohl(q: quadlet): quadlet {
    q % 0x100 * 0x100_0000 + q / 0x100 % 0x100 * 0x1_0000 + q / 0x1_0000 % 0x100 * 0x100 + q / 0x100_0000
  }

  /** The number that four bytes stand for on the bus, most significant byte first. */
  function BigEndian(b: seq<byte>): quadlet
    requires |b| == 4
  {
    0x100_0000 * (b[0] as int) + 0x1_0000 * (b[1] as int) + 0x100 * (b[2] as int) + (b[3] as int)
  }

  function ToBigEndian(q: quadlet): (b: seq<byte>)
    ensures |b| == 4
  {
    [q / 0x100_0000, q / 0x1_0000 % 0x100, q / 0x100 % 0x100, q % 0x100]
  }

  lemma HostLoadBytes(b: seq<byte>)
    requires |b| == 4
    ensures HostLoad(b) % 0x100 == b[0]
    ensures HostLoad(b) / 0x100 % 0x100 == b[1]
    ensures HostLoad(b) / 0x1_0000 % 0x100 == b[2]
    ensures HostLoad(b) / 0x100_0000 == b[3]
  {
    var q := HostLoad(b);
    var b1: int, b2: int, b3: int := b[1], b[2], b[3];
    assert q / 0x100 == b1 + 0x100 * b2 + 0x1_0000 * b3;
    assert q / 0x1_0000 == b2 + 0x100 * b3;
  }

  /** Loading four bus bytes and swapping them gives the big-endian number. */
  lemma NtohlOfHostLoad(b: seq<byte>)
    requires |b| == 4
    ensures Ntohl(HostLoad(b)) == BigEndian(b)
  {
    HostLoadBytes(b);
  }

  /** A comparison against an unswapped constant is one against the swapped constant. */
  lemma NtohlInjective(p: quadlet, q: quadlet)
    ensures Ntohl(p) == Ntohl(q) <==> p == q
  {
    NtohlInvolutive(p);
    NtohlInvolutive(q);
  }

  lemma NtohlReverses(a: byte, b: byte, c: byte, d: byte)
    ensures Ntohl(a as int + 0x100 * b as int + 0x1_0000 * c as int + 0x100_0000 * d as int) ==
            d as int + 0x100 * c as int + 0x1_0000 * b as int + 0x100_0000 * a as int
  {
    NtohlOfHostLoad([a, b, c, d]);
  }

  lemma NtohlInvolutive(q: quadlet)
    ensures Ntohl(Ntohl(q)) == q
  {
    var a, b, c, d := q % 0x100, q / 0x100 % 0x100, q / 0x1_0000 % 0x100, q / 0x100_0000;
    BigEndianRoundTrip(q);
    assert q == a + 0x100 * b + 0x1_0000 * c + 0x100_0000 * d;
    NtohlReverses(a, b, c, d);
    NtohlReverses(d, c, b, a);
  }

  lemma BigEndianRoundTrip(q: quadlet)
    ensures BigEndian(ToBigEndian(q)) == q
  {
    assert q / 0x1_0000 == q / 0x100 / 0x100;
    assert q / 0x100_0000 == q / 0x1_0000 / 0x100;
  }

  /** Least element of a set of channel numbers. */
  predicate IsLeast(c: nat, s: set<nat>) {
    c in s && forall d :: d in s ==> c <= d
  }

  ghost function LeastOf(s: set<nat>): (c: nat)
    requires s != {}
    ensures IsLeast(c, s)
  {
    LeastExists(s);
    var c :| IsLeast(c, s);
    c
  }

  lemma {:induction false} LeastExists(s: set<nat>)
    requires s != {}
    ensures exists c :: IsLeast(c, s)
    decreases s
  {
    var x :| x in s;
    if s == {x} {
      assert IsLeast(x, s);
    } else {
      LeastExists(s - {x});
      var y :| IsLeast(y, s - {x});
      var m := if x < y then x else y;
      forall d | d in s
        ensures m <= d
      {
        assert d == x || d in s - {x};
      }
      assert IsLeast(m, s);
    }
  }
}
