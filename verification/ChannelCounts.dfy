/** How many bytes safe_read() and safe_write() move, and what they return, from the script of the
    kernel's answers alone. */
module ChannelCounts {
  import opened Basics
  import opened Channels

  // ---------- reading ----------

  /** The first read that fails, or the length of the script. */
  function FirstFailing(script: seq<ReadOutcome>): (f: nat)
    ensures f <= |script| && (f < |script| ==> script[f] == ReadFailing)
    ensures forall i :: 0 <= i < f ==> script[i] != ReadFailing
  {
    if script == [] || script[0] == ReadFailing then 0 else 1 + FirstFailing(script[1..])
  }

  /** The bytes that the reads of a script can bring; every read that is not interrupted brings
      at least one. */
  function Offered(script: seq<ReadOutcome>): nat {
    if script == [] then 0
    else (if script[0].Got? then AtLeastOne(script[0].n) else 0) + Offered(script[1..])
  }

  function AtLeastOne(n: nat): nat {
    if n == 0 then 1 else n
  }

  lemma OfferedBefore(script: seq<ReadOutcome>, f: nat)
    requires 0 < f <= |script|
    ensures Offered(script[..f]) ==
            (if script[0].Got? then AtLeastOne(script[0].n) else 0) + Offered(script[1..][..f - 1])
  {
    assert script[..f][1..] == script[1..][..f - 1];
  }

  /** The number of bytes that are read: all that were asked for or are left, or those that came
      before the first failing read. */
  function ReadCount(s: Source, count: nat): nat {
    var f, m := FirstFailing(s.script), Min(count, |s.rest|);
    if f == |s.script| then m else Min(m, Offered(s.script[..f]))
  }

  /** Nothing was read, because the first read that was not interrupted failed. */
  predicate ReadFails(s: Source) {
    var f := FirstFailing(s.script);
    f < |s.script| && Offered(s.script[..f]) == 0
  }

  /** What one read() changes in the count. */
  lemma OneRead(s: Source, count: nat)
    ensures var (s', r) := Read(s, count);
            if r == Fail(EINTR) then ReadFails(s) == ReadFails(s') && ReadCount(s, count) == ReadCount(s', count)
            else if r.Count? then
              !ReadFails(s) && ReadCount(s, count) == if 0 < r.n < count then r.n + ReadCount(s', count - r.n) else r.n
            else ReadFails(s) && r == Fail(EOTHER)
  {
    var f := FirstFailing(s.script);
    if s.script != [] && f > 0 {
      OfferedBefore(s.script, f);
    }
  }

  lemma {:induction false} SafeReadCounts(s: Source, count: nat)
    ensures SafeReadResult(s, count).1 == if ReadFails(s) then Fail(EOTHER) else Count(ReadCount(s, count))
    decreases count, |s.script|
  {
    var (s', r) := Read(s, count);
    OneRead(s, count);
    if r == Fail(EINTR) {
      SafeReadCounts(s', count);
    } else if r.Count? && 0 < r.n < count {
      SafeReadCounts(s', count - r.n);
      if ReadFails(s') {
        NothingAfterFailure(s', count - r.n);
      }
    }
  }

  lemma NothingAfterFailure(s: Source, count: nat)
    requires ReadFails(s)
    ensures ReadCount(s, count) == 0
  {
  }

  /** safe_read() goes on after short reads and interruptions: it returns less than was asked for
      and is left if and only if a read fails before that many bytes were there. */
  lemma ShortReadIff(s: Source, count: nat)
    ensures var r, m := SafeReadResult(s, count).1, Min(count, |s.rest|);
            && Bytes(r) <= m
            && (Bytes(r) < m <==>
                exists k :: 0 <= k < |s.script| && s.script[k] == ReadFailing && Offered(s.script[..k]) < m)
            && (r.Fail? ==> Bytes(r) == 0 && r.errno == EOTHER)
  {
    SafeReadCounts(s, count);
    var f, m := FirstFailing(s.script), Min(count, |s.rest|);
    forall k | 0 <= k < |s.script| && s.script[k] == ReadFailing
      ensures Offered(s.script[..f]) <= Offered(s.script[..k])
    {
      OfferedGrows(s.script, f, k);
    }
  }

  lemma {:induction false} OfferedGrows(script: seq<ReadOutcome>, a: nat, b: nat)
    requires a <= b <= |script|
    ensures Offered(script[..a]) <= Offered(script[..b])
  {
    if a > 0 {
      OfferedBefore(script, a);
      OfferedBefore(script, b);
      OfferedGrows(script[1..], a - 1, b - 1);
    }
  }

  /** Without read errors, all that was asked for or is left is read. */
  lemma {:induction false} ReadableReadsAll(s: Source, count: nat)
    requires Readable(s)
    ensures SafeReadResult(s, count).1 == Count(Min(count, |s.rest|))
  {
    SafeReadCounts(s, count);
  }

  // ---------- writing ----------

  /** An answer that ends safe_write(): an error, or a full pipe that does not block. */
  predicate Stops(o: WriteOutcome, nonblocking: bool) {
    o.Failing? || (nonblocking && o == WouldBlock)
  }

  function FirstStop(script: seq<WriteOutcome>, nonblocking: bool): (f: nat)
    ensures f <= |script| && (f < |script| ==> Stops(script[f], nonblocking))
    ensures forall i :: 0 <= i < f ==> !Stops(script[i], nonblocking)
  {
    if script == [] || Stops(script[0], nonblocking) then 0 else 1 + FirstStop(script[1..], nonblocking)
  }

  /** The bytes that the writes of a script take at most; a blocking sink that is full takes
      whatever it is given (`Waits`). */
  function Taken(script: seq<WriteOutcome>): nat {
    if script == [] then 0
    else (if script[0].Took? then AtLeastOne(script[0].n) else 0) + Taken(script[1..])
  }

  predicate Waits(script: seq<WriteOutcome>) {
    script != [] && (script[0] == WouldBlock || Waits(script[1..]))
  }

  lemma TakenBefore(script: seq<WriteOutcome>, f: nat)
    requires 0 < f <= |script|
    ensures Taken(script[..f]) ==
            (if script[0].Took? then AtLeastOne(script[0].n) else 0) + Taken(script[1..][..f - 1])
    ensures Waits(script[..f]) <==> script[0] == WouldBlock || Waits(script[1..][..f - 1])
  {
    assert script[..f][1..] == script[1..][..f - 1];
  }

  /** The number of bytes that are written: all of them, or those that were taken before the first
      error. */
  function WriteCount(s: Sink, n: nat): nat {
    var f := FirstStop(s.script, s.nonblocking);
    if s.broken then 0
    else if f == |s.script| || Waits(s.script[..f]) then n
    else Min(n, Taken(s.script[..f]))
  }

  /** Nothing was written, because the sink is broken or the first write that was not interrupted
      met an error. */
  predicate WriteFails(s: Sink) {
    var f := FirstStop(s.script, s.nonblocking);
    s.broken || (f < |s.script| && Taken(s.script[..f]) == 0 && !Waits(s.script[..f]))
  }

  function WriteError(s: Sink): Errno
    requires WriteFails(s)
  {
    if !s.broken && s.script[FirstStop(s.script, s.nonblocking)] == WouldBlock then EAGAIN else EOTHER
  }

  /** What one write() changes in the count. */
  lemma OneWrite(s: Sink, bytes: seq<byte>)
    requires bytes != []
    ensures var (s', r) := Write(s, bytes); var n := |bytes|;
            if r == Fail(EINTR) then
              WriteFails(s) == WriteFails(s') && WriteCount(s, n) == WriteCount(s', n)
            else if r.Count? then
              !WriteFails(s) && WriteCount(s, n) == if r.n < n then r.n + WriteCount(s', n - r.n) else n
            else WriteFails(s) && r == Fail(WriteError(s))
  {
    var f := FirstStop(s.script, s.nonblocking);
    if !s.broken && s.script != [] && f > 0 {
      TakenBefore(s.script, f);
    }
  }

  lemma SameError(s: Sink, bytes: seq<byte>)
    requires bytes != [] && WriteFails(s) && Write(s, bytes).1 == Fail(EINTR)
    ensures var s' := Write(s, bytes).0; WriteFails(s') && WriteError(s) == WriteError(s')
  {
    OneWrite(s, bytes);
  }

  lemma NothingWritten(s: Sink, n: nat)
    requires WriteFails(s)
    ensures WriteCount(s, n) == 0
  {
  }

  /** safe_write() goes on after short writes and interruptions, up to the first error. */
  lemma {:induction false} SafeWriteCounts(s: Sink, bytes: seq<byte>)
    ensures var r := SafeWriteResult(s, bytes).1;
            r == if bytes != [] && WriteFails(s) then Fail(WriteError(s)) else Count(WriteCount(s, |bytes|))
    decreases |bytes|, |s.script|
  {
    if bytes == [] {
      return;
    }
    var (s', r) := Write(s, bytes);
    OneWrite(s, bytes);
    if r == Fail(EINTR) {
      SafeWriteCounts(s', bytes);
      if WriteFails(s) {
        SameError(s, bytes);
      }
    } else if r.Count? && r.n < |bytes| {
      SafeWriteCounts(s', bytes[r.n..]);
      if WriteFails(s') {
        NothingWritten(s', |bytes| - r.n);
      }
    }
  }
}
