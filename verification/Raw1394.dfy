/**
 A node on the bus as libraw1394 shows it: byte memory that is read and written in single
 transactions, each of which may be answered, may have to be tried again (EAGAIN) or may fail.
 On top of it, the read and write of CommunicationLibraw1394.
 */
module Raw1394 {
  import opened Words

  /** The bytes a node answers for; reading or writing anywhere else is an address error. */
  type Image = map<nat, byte>

  /** What becomes of a transaction. */
  datatype Status = Done | Again | Fault

  /** A completed read transaction. */
  datatype Transaction = Transaction(address: nat, length: nat)

  predicate Readable(m: Image, a: nat, n: nat) {
    forall i :: a <= i < a + n ==> i in m
  }

  function Bytes(m: Image, a: nat, n: nat): (b: seq<byte>)
    requires Readable(m, a, n)
    ensures |b| == n
  {
    seq(n, i requires 0 <= i < n => m[a + i])
  }

  /** No transaction of the script fails for good. */
  predicate Clean(script: seq<Status>) {
    forall s :: s in script ==> s != Fault
  }

  /** Every transaction of the script is answered at once. */
  predicate Prompt(script: seq<Status>) {
    forall s :: s in script ==> s == Done
  }

  /** Clean scripts hold answers and EAGAINs in any order, prompt ones answers only. */
  lemma ScriptKinds(script: seq<Status>)
    ensures Clean(script) <==> forall i :: 0 <= i < |script| ==> script[i] == Done || script[i] == Again
    ensures Prompt(script) <==> forall i :: 0 <= i < |script| ==> script[i] == Done
  {
    assert forall i :: 0 <= i < |script| ==> script[i] in script;
  }

  lemma PromptIsClean(script: seq<Status>)
    requires Prompt(script)
    ensures Clean(script)
  {
  }

  predicate Suffix<T(==)>(s: seq<T>, t: seq<T>) {
    |s| <= |t| && s == t[|t| - |s|..]
  }

  lemma SuffixTransitive<T>(r: seq<T>, s: seq<T>, t: seq<T>)
    requires Suffix(r, s) && Suffix(s, t)
    ensures Suffix(r, t)
  {
  }

  lemma SuffixTail<T>(r: seq<T>, s: seq<T>, t: seq<T>)
    requires Suffix(s, t) && r == if s == [] then [] else s[1..]
    ensures Suffix(r, t)
  {
    assert Suffix(r, s);
    SuffixTransitive(r, s, t);
  }

  /** What was taken from a script. */
  function Used(before: seq<Status>, after: seq<Status>): seq<Status>
    requires |after| <= |before|
  {
    before[..|before| - |after|]
  }

  lemma {:induction false} TakeOne(start: seq<Status>, before: seq<Status>, after: seq<Status>)
    requires Suffix(before, start) && after == if before == [] then [] else before[1..]
    ensures Suffix(after, start)
    ensures Clean(Used(start, after)) <==> Clean(Used(start, before)) && (before == [] || before[0] != Fault)
  {
    SuffixTail(after, before, start);
    if before != [] {
      assert Used(start, after) == Used(start, before) + [before[0]];
      assert before[0] in Used(start, after);
      assert forall s :: s in Used(start, before) ==> s in Used(start, after);
    }
  }

  lemma SuffixKeeps(s: seq<Status>, t: seq<Status>)
    requires Suffix(s, t)
    ensures Clean(t) ==> Clean(s)
    ensures Prompt(t) ==> Prompt(s)
  {
    forall x | x in s
      ensures x in t
    {
      var i :| 0 <= i < |s| && s[i] == x;
      assert t[|t| - |s| + i] == x;
    }
  }

  /** The next transaction is answered; it fails for good. */
  predicate Answered(script: seq<Status>) {
    script == [] || script[0] == Done
  }

  predicate Refused(script: seq<Status>) {
    script != [] && script[0] == Fault
  }

  function Tail(script: seq<Status>): seq<Status> {
    if script == [] then [] else script[1..]
  }

  /** What is left of the script when a retried transaction has come to its end. */
  function AfterRead(script: seq<Status>): seq<Status> {
    if script == [] then [] else if script[0] == Again then AfterRead(script[1..]) else script[1..]
  }

  /** What is left after n retried transactions. */
  function AfterReads(script: seq<Status>, n: nat): seq<Status> {
    if n == 0 then script else AfterRead(AfterReads(script, n - 1))
  }

  lemma {:induction false} AfterReadsJoin(script: seq<Status>, m: nat, n: nat)
    ensures AfterReads(AfterReads(script, m), n) == AfterReads(script, m + n)
  {
    if n > 0 {
      AfterReadsJoin(script, m, n - 1);
    }
  }

  /** A retried transaction fails for good in the end. */
  predicate ReadRefused(script: seq<Status>) {
    script != [] && if script[0] == Again then ReadRefused(script[1..]) else script[0] == Fault
  }

  lemma {:induction false} AfterReadKeeps(script: seq<Status>)
    ensures Clean(script) ==> Clean(AfterRead(script)) && !ReadRefused(script)
    ensures Prompt(script) ==> Prompt(AfterRead(script)) && Answered(script)
  {
    if script != [] {
      HeadOf(script);
      SuffixKeeps(script[1..], script);
      if script[0] == Again {
        AfterReadKeeps(script[1..]);
      }
    }
  }

  lemma TailKeeps(script: seq<Status>)
    ensures Clean(script) ==> Clean(Tail(script)) && !Refused(script)
    ensures Prompt(script) ==> Prompt(Tail(script)) && Answered(script)
  {
    SuffixKeeps(Tail(script), script);
    if script != [] {
      HeadOf(script);
    }
  }

  lemma HeadOf(s: seq<Status>)
    requires s != []
    ensures s[0] == Fault ==> !Clean(s)
    ensures s[0] != Done ==> !Prompt(s)
  {
    assert s[0] in s;
  }

  /** The reads that fetch n bytes from a in quadlets, the last one holding the 1 to 4 remaining bytes. */
  function Chunks(a: nat, n: nat): seq<Transaction>
    decreases n
  {
    if n == 0 then []
    else if n <= 4 then [Transaction(a, n)]
    else [Transaction(a, 4)] + Chunks(a + 4, n - 4)
  }

  /** There are ceil(n / 4) chunks; they lie end to end, start at a and end exactly at a + n. */
  lemma {:induction false} ChunksCover(a: nat, n: nat)
    ensures var c := Chunks(a, n);
            && |c| == (n + 3) / 4
            && (forall i :: 0 <= i < |c| ==> c[i].address == a + 4 * i)
            && (forall i :: 0 <= i < |c| ==> c[i].length == if i < |c| - 1 then 4 else n - 4 * i)
            && (forall i :: 0 <= i < |c| ==> 1 <= c[i].length <= 4)
    decreases n
  {
    if n > 4 {
      ChunksCover(a + 4, n - 4);
    }
  }

  /** How many of n bytes the first k chunks hold. */
  function UpTo(k: nat, n: nat): nat {
    if 4 * k < n then 4 * k else n
  }

  function Chunk(a: nat, k: nat, n: nat): Transaction
    requires 4 * k < n
  {
    Transaction(a + 4 * k, UpTo(k + 1, n) - 4 * k)
  }

  /** The chunks of the first k + 1 are those of the first k and one more. */
  lemma {:induction false} ChunksStep(a: nat, k: nat, n: nat)
    requires 4 * k < n
    ensures Chunks(a, UpTo(k + 1, n)) == Chunks(a, UpTo(k, n)) + [Chunk(a, k, n)]
    decreases k
  {
    if k > 0 {
      ChunksStep(a + 4, k - 1, n - 4);
    }
  }

  /** Every transaction completed since `before` lies below an address. */
  predicate LogBelow(before: seq<Transaction>, after: seq<Transaction>, bound: nat) {
    && before <= after
    && forall i :: |before| <= i < |after| ==> after[i].address + after[i].length <= bound
  }

  lemma ChunksBelow(before: seq<Transaction>, a: nat, n: nat, bound: nat)
    requires a + n <= bound
    ensures LogBelow(before, before + Chunks(a, n), bound)
  {
    ChunksCover(a, n);
  }

  lemma LogBelowJoin(first: seq<Transaction>, second: seq<Transaction>, third: seq<Transaction>, b: nat, c: nat,
                     bound: nat)
    requires LogBelow(first, second, b) && LogBelow(second, third, c) && b <= bound && c <= bound
    ensures LogBelow(first, third, bound)
  {
    forall i | |first| <= i < |third|
      ensures third[i].address + third[i].length <= bound
    {
      assert i < |second| ==> third[i] == second[i];
    }
  }

  /** The memory after a write was carried out. */
  function Stored(m: Image, ignored: set<nat>, a: nat, data: seq<byte>): Image {
    map x | x in m :: if a <= x < a + |data| && x !in ignored then data[x - a] else m[x]
  }

  /** What was written can be read back, in the order of the data, and no other byte changes. */
  lemma StoredIsReadBack(m: Image, ignored: set<nat>, a: nat, data: seq<byte>)
    requires Readable(m, a, |data|)
    ensures var m' := Stored(m, ignored, a, data);
            && m'.Keys == m.Keys
            && (forall x :: x in m && (x in ignored || x < a || a + |data| <= x) ==> m'[x] == m[x])
            && Readable(m', a, |data|)
            && ((forall x :: x in ignored ==> x < a || a + |data| <= x) ==> Bytes(m', a, |data|) == data)
  {
    var m' := Stored(m, ignored, a, data);
    assert m'.Keys == m.Keys;
    assert forall i :: a <= i < a + |data| ==> i in m';
  }

  lemma StoredByte(m: Image, ignored: set<nat>, a: nat, c: byte)
    ensures Readable(m, a, 1) <==> a in m
    ensures a in m ==> Stored(m, ignored, a, [c]) == if a in ignored then m else m[a := c]
  {
    assert a <= a < a + 1;
  }

  lemma ReadableJoin(m: Image, a: nat, n: nat, k: nat)
    requires Readable(m, a, n) && Readable(m, a + n, k)
    ensures Readable(m, a, n + k)
  {
  }

  /** The first n bytes of a buffer are those of the node from address a on. */
  predicate Filled(m: Image, a: nat, n: nat, b: seq<byte>) {
    n <= |b| && Readable(m, a, n) && forall i :: 0 <= i < n ==> b[i] == m[a + i]
  }

  lemma FilledFurther(m: Image, a: nat, p: nat, n: nat, before: seq<byte>, after: seq<byte>)
    requires Filled(m, a, p, before) && p + n <= |after| && |before| == |after| && Readable(m, a + p, n)
    requires forall i :: 0 <= i < p ==> after[i] == before[i]
    requires forall i :: p <= i < p + n ==> after[i] == m[a + p + (i - p)]
    ensures Filled(m, a, p + n, after)
  {
    ReadableJoin(m, a, p, n);
  }

  /** What a read that has got to `pos` has made of the script it started with. */
  predicate ReadSoFar(start: seq<Status>, script: seq<Status>, pos: nat, length: nat) {
    && Suffix(script, start) && Clean(Used(start, script))
    && (pos == 0 ==> AfterRead(script) == AfterRead(start) && ReadRefused(script) == ReadRefused(start))
    && (0 < pos && length <= 4 ==> script == AfterRead(start) && !ReadRefused(start))
  }

  lemma ReadFurther(start: seq<Status>, script: seq<Status>, pos: nat, length: nat)
    requires ReadSoFar(start, script, pos, length) && pos < length && (0 < pos ==> 4 <= pos)
    ensures Suffix(Tail(script), start)
    ensures Refused(script) ==> !Clean(Used(start, Tail(script))) && !Clean(start)
    ensures !Refused(script) ==> Clean(Used(start, Tail(script)))
    ensures Answered(script) ==> ReadSoFar(start, Tail(script), pos + 4, length)
    ensures !Answered(script) && !Refused(script) ==> ReadSoFar(start, Tail(script), pos, length)
    ensures length <= 4 && (Answered(script) || Refused(script)) ==>
              Tail(script) == AfterRead(start) && (ReadRefused(start) <==> Refused(script))
  {
    TakeOne(start, script, Tail(script));
    SuffixKeeps(script, start);
    if script != [] {
      HeadOf(script);
    }
  }

  /**
   One node. `script` fixes the fate of the coming transactions (those after its end are
   answered), so that EAGAIN can occur any finite number of times anywhere. Writes to the
   addresses in `ignored` are answered but change nothing.
   */
  class RemoteNode {
    var memory: Image
    const ignored: set<nat>
    var script: seq<Status>
    var log: seq<Transaction>

    constructor (memory: Image, ignored: set<nat>, script: seq<Status>)
      ensures this.memory == memory && this.ignored == ignored && this.script == script && log == []
    {
      this.memory, this.ignored, this.script, this.log := memory, ignored, script, [];
    }

    /** Takes the fate of one transaction from the script. */
    method Take() returns (s: Status)
      modifies this`script
      ensures old(script) == [] ==> s == Done && script == []
      ensures old(script) != [] ==> s == old(script)[0] && script == old(script)[1..]
    {
      if script == [] {
        return Done;
      }
      s := script[0];
      script := script[1..];
    }

    /** raw1394_read: one transaction of n bytes into buffer[at..at + n]. */
    method RawRead(address: nat, n: nat, buffer: array<byte>, at: nat) returns (s: Status)
      requires at + n <= buffer.Length
      modifies this`script, this`log, buffer
      ensures s == Done ==> Readable(memory, address, n)
                            && forall i :: at <= i < at + n ==> buffer[i] == memory[address + (i - at)]
      ensures forall i :: 0 <= i < at || at + n <= i < buffer.Length ==> buffer[i] == old(buffer[i])
      ensures s == Done ==> log == old(log) + [Transaction(address, n)]
      ensures s != Done ==> buffer[..] == old(buffer[..]) && log == old(log)
      ensures s == Fault <==> (old(script) != [] && old(script)[0] == Fault)
                              || ((old(script) == [] || old(script)[0] == Done) && !Readable(memory, address, n))
      ensures s == Again <==> old(script) != [] && old(script)[0] == Again
      ensures script == Tail(old(script))
    {
      s := Take();
      if s == Done {
        if !Readable(memory, address, n) {
          return Fault;
        }
        forall i | 0 <= i < n {
          buffer[at + i] := memory[address + i];
        }
        log := log + [Transaction(address, n)];
      }
    }

    /** raw1394_write: one transaction. */
    method RawWrite(address: nat, data: seq<byte>) returns (s: Status)
      modifies this`script, this`memory
      ensures memory == if s == Done then Stored(old(memory), ignored, address, data) else old(memory)
      ensures s == Fault <==> Refused(old(script)) || (Answered(old(script)) && !Readable(old(memory), address, |data|))
      ensures s == Again <==> !Refused(old(script)) && !Answered(old(script))
      ensures script == Tail(old(script))
    {
      s := Take();
      if s == Done {
        if !Readable(memory, address, |data|) {
          return Fault;
        }
        memory := Stored(memory, ignored, address, data);
      }
    }

    /** A read of one byte into a variable that is 0 before. */
    method RawReadByte(address: nat) returns (s: Status, c: byte)
      modifies this`script, this`log
      ensures if s == Done then address in memory && c == memory[address] else c == 0
      ensures s == Fault <==> Refused(old(script)) || (Answered(old(script)) && address !in memory)
      ensures s == Again <==> !Refused(old(script)) && !Answered(old(script))
      ensures script == Tail(old(script))
    {
      var buffer := new byte[1](_ => 0);
      StoredByte(memory, ignored, address, 0);
      s := RawRead(address, 1, buffer, 0);
      assert s == Done ==> address <= address < address + 1;
      assert s != Done ==> buffer[..][0] == 0;
      c := buffer[0];
    }

    /** raw1394_write of one byte. */
    method RawWriteByte(address: nat, c: byte) returns (s: Status)
      modifies this`script, this`memory
      ensures memory == if s == Done && address !in ignored then old(memory)[address := c] else old(memory)
      ensures s == Fault <==> Refused(old(script)) || (Answered(old(script)) && address !in old(memory))
      ensures s == Again <==> !Refused(old(script)) && !Answered(old(script))
      ensures script == Tail(old(script))
    {
      StoredByte(memory, ignored, address, c);
      s := RawWrite(address, [c]);
    }

    /**
     CommunicationLibraw1394::read: quadlet by quadlet, each tried until it is answered. Err
     stands for the exception.
     */
    method Read(address: nat, buffer: array<byte>, length: nat) returns (r: Result<()>)
      requires length <= buffer.Length
      modifies this`script, this`log, buffer
      ensures r.Ok? ==> Readable(memory, address, length)
                        && buffer[..length] == Bytes(memory, address, length)
      ensures r.Ok? ==> log == old(log) + Chunks(address, length)
      ensures forall i :: length <= i < buffer.Length ==> buffer[i] == old(buffer[i])
      ensures Suffix(script, old(script))
      ensures r.Ok? <==> Clean(Used(old(script), script)) && Readable(memory, address, length)
      ensures Clean(old(script)) && Readable(memory, address, length) ==> r.Ok?
      ensures 1 <= length <= 4 ==> script == AfterRead(old(script))
      ensures 1 <= length <= 4 ==> (r.Ok? <==> !ReadRefused(old(script)) && Readable(memory, address, length))
      ensures LogBelow(old(log), log, address + length)
    {
      var pos := 0;
      ghost var start, k := script, 0;
      while pos < length
        invariant pos == 4 * k && pos < length + 4
        invariant Filled(memory, address, UpTo(k, length), buffer[..])
        invariant log == old(log) + Chunks(address, UpTo(k, length))
        invariant forall i :: length <= i < buffer.Length ==> buffer[i] == old(buffer[i])
        invariant ReadSoFar(start, script, pos, length)
        decreases length + 4 - pos, |script|
      {
        var s := Attempt(address, buffer, pos, length, start);
        if s == Fault {
          ChunksBelow(old(log), address, UpTo(k, length), address + length);
          return Err;
        }
        if s == Done {
          ChunksStep(address, k, length);
          pos, k := pos + 4, k + 1;
        }
      }
      ChunksBelow(old(log), address, length, address + length);
      return Ok(());
    }

    /** One attempt at the quadlet, or the rest, at `pos`. */
    method Attempt(address: nat, buffer: array<byte>, pos: nat, length: nat, ghost start: seq<Status>)
      returns (s: Status)
      requires pos < length <= buffer.Length && pos % 4 == 0
      requires Filled(memory, address, pos, buffer[..]) && ReadSoFar(start, script, pos, length)
      modifies this`script, this`log, buffer
      ensures forall i :: length <= i < buffer.Length ==> buffer[i] == old(buffer[i])
      ensures s == Done ==>
                && Filled(memory, address, UpTo(pos / 4 + 1, length), buffer[..])
                && log == old(log) + [Chunk(address, pos / 4, length)]
                && ReadSoFar(start, script, pos + 4, length)
      ensures s != Done ==> buffer[..] == old(buffer[..]) && log == old(log)
      ensures s == Again ==> ReadSoFar(start, script, pos, length) && |script| < |old(script)|
      ensures s == Fault ==>
                && Suffix(script, start) && !(Clean(Used(start, script)) && Readable(memory, address, length))
                && !(Clean(start) && Readable(memory, address, length))
                && (length <= 4 ==>
                      script == AfterRead(start) && !(!ReadRefused(start) && Readable(memory, address, length)))
    {
      var n := if length - pos >= 4 then 4 else length - pos;
      ghost var bytes := buffer[..];
      assert pos == 4 * (pos / 4) && UpTo(pos / 4 + 1, length) == pos + n;
      ReadFurther(start, script, pos, length);
      s := RawRead(address + pos, n, buffer, pos);
      if s == Done {
        FilledFurther(memory, address, pos, n, bytes, buffer[..]);
      }
    }

    /**
     CommunicationLibraw1394::write: an EAGAIN drops the data without telling the caller;
     `landed` tells that the transaction was carried out.
     */
    method Write(address: nat, data: seq<byte>) returns (r: Result<()>, ghost landed: bool)
      modifies this`script, this`memory
      ensures r.Err? <==> Refused(old(script)) || (Answered(old(script)) && !Readable(old(memory), address, |data|))
      ensures landed <==> Answered(old(script)) && Readable(old(memory), address, |data|)
      ensures script == Tail(old(script))
      ensures memory == if landed then Stored(old(memory), ignored, address, data) else old(memory)
    {
      var s := RawWrite(address, data);
      landed := s == Done;
      r := if s == Fault then Err else Ok(());
    }

    /** A write of one byte through Write. */
    method WriteByte(address: nat, c: byte) returns (r: Result<()>, ghost landed: bool)
      modifies this`script, this`memory
      ensures r.Err? <==> Refused(old(script)) || (Answered(old(script)) && address !in old(memory))
      ensures landed <==> Answered(old(script)) && address in old(memory)
      ensures script == Tail(old(script))
      ensures memory == if landed && address !in ignored then old(memory)[address := c] else old(memory)
      ensures Clean(old(script)) && address in old(memory) ==> r.Ok?
      ensures r.Ok? && Prompt(old(script)) ==> landed
      ensures (Clean(old(script)) ==> Clean(script)) && (Prompt(old(script)) ==> Prompt(script))
    {
      StoredByte(memory, ignored, address, c);
      TailKeeps(script);
      r, landed := Write(address, [c]);
    }

    /** A read of one byte through Read. */
    method ReadByte(address: nat) returns (r: Result<byte>)
      modifies this`script, this`log
      ensures r.Ok? ==> address in memory && r.value == memory[address]
      ensures r.Ok? <==> !ReadRefused(old(script)) && address in memory
      ensures script == AfterRead(old(script))
      ensures Clean(old(script)) && address in memory ==> r.Ok?
      ensures (Clean(old(script)) ==> Clean(script)) && (Prompt(old(script)) ==> Prompt(script))
    {
      var buffer := new byte[1];
      var done := Read(address, buffer, 1);
      SuffixKeeps(script, old(script));
      if done.Err? {
        return Err;
      }
      assert buffer[0] == buffer[..][0];
      return Ok(buffer[0]);
    }
  }
}
