/**
 read(2) and write(2) on a stream and on a sink, each driven by an arbitrary finite script of
 outcomes, and safe_read() and safe_write() on top of them.
 */
module Channels {
  import opened Basics

  datatype Errno = EINTR | EAGAIN | EOTHER

  /** The return value of read() and write(): a count, or -1 with errno. */
  datatype Rtn = Count(n: nat) | Fail(errno: Errno)

  /** The number of bytes that a call moved. */
  function Bytes(r: Rtn): nat {
    if r.Count? then r.n else 0
  }

  /** What safe_read() and safe_write() return when `size` bytes were moved before the calls
      that returned `more`. */
  function Total(size: nat, more: Rtn): Rtn {
    if size == 0 then more else Count(size + Bytes(more))
  }

  function Min(a: nat, b: nat): nat {
    if a < b then a else b
  }

  // ---------- writing ----------

  /** What the kernel does with one write(): takes some bytes, is interrupted, would block, or
      reports an error, for this call only or for good. */
  datatype WriteOutcome = Took(n: nat) | Interrupted | WouldBlock | Failing(forGood: bool)

  /** A pipe or file that is written to; after the script, every write takes all bytes. */
  datatype Sink = Sink(received: seq<byte>, script: seq<WriteOutcome>, broken: bool, nonblocking: bool)

  /** write(): never takes more than it is given, and at least one byte unless given none; a
      blocking sink waits instead of reporting EAGAIN. */
  function Write(s: Sink, bytes: seq<byte>): (r: (Sink, Rtn))
    ensures r.1.Count? ==> r.1.n <= |bytes| && (r.1.n == 0 ==> bytes == [])
    ensures |r.0.script| <= |s.script| && (r.1 == Fail(EINTR) ==> |r.0.script| < |s.script|)
  {
    if bytes == [] then (s, Count(0))
    else if s.broken then (s, Fail(EOTHER))
    else if s.script == [] then (s.(received := s.received + bytes), Count(|bytes|))
    else
      var next := s.(script := s.script[1..]);
      match s.script[0]
      case Took(n) =>
        var k := Min(if n == 0 then 1 else n, |bytes|);
        (next.(received := s.received + bytes[..k]), Count(k))
      case Interrupted => (next, Fail(EINTR))
      case WouldBlock =>
        if s.nonblocking then (next, Fail(EAGAIN))
        else (next.(received := s.received + bytes), Count(|bytes|))
      case Failing(forGood) => (next.(broken := forGood), Fail(EOTHER))
  }

  /** safe_write(): the sink afterwards and the return value. */
  function SafeWriteResult(s: Sink, bytes: seq<byte>): (r: (Sink, Rtn))
    ensures Bytes(r.1) <= |bytes|
    decreases |bytes|, |s.script|
  {
    var (s', r) := Write(s, bytes);
    if r == Fail(EINTR) then SafeWriteResult(s', bytes)
    else if r.Count? && 0 < r.n < |bytes| then
      var o := SafeWriteResult(s', bytes[r.n..]);
      (o.0, Total(r.n, o.1))
    else (s', r)
  }

  lemma WriteTakes(s: Sink, bytes: seq<byte>)
    ensures var (s', r) := Write(s, bytes);
            && s'.received == s.received + bytes[..Bytes(r)]
            && s'.nonblocking == s.nonblocking && (s.broken ==> s'.broken)
  {
  }

  /** The bytes that safe_write() reports are the bytes that arrive, in order, once. */
  lemma {:induction false} SafeWriteDelivers(s: Sink, bytes: seq<byte>)
    ensures var (s', r) := SafeWriteResult(s, bytes);
            && s'.received == s.received + bytes[..Bytes(r)]
            && s'.nonblocking == s.nonblocking && (s.broken ==> s'.broken)
    decreases |bytes|, |s.script|
  {
    var (s', r) := Write(s, bytes);
    WriteTakes(s, bytes);
    if r == Fail(EINTR) {
      SafeWriteDelivers(s', bytes);
      assert s.received + bytes[..0] == s.received;
    } else if r.Count? && 0 < r.n < |bytes| {
      SafeWriteDelivers(s', bytes[r.n..]);
      TakeTwice(s.received, bytes, r.n, Bytes(SafeWriteResult(s', bytes[r.n..]).1));
    }
  }

  lemma TakeTwice(before: seq<byte>, bytes: seq<byte>, n: nat, m: nat)
    requires n + m <= |bytes|
    ensures before + bytes[..n] + bytes[n..][..m] == before + bytes[..n + m]
  {
    assert bytes[..n] + bytes[n..][..m] == bytes[..n + m];
  }

  /** Errors last: a pipe whose reader has gone stays that way. */
  predicate Lasting(s: Sink) {
    forall k :: 0 <= k < |s.script| ==> s.script[k] != Failing(false)
  }

  /** A sink whose errors last keeps that, and if it is blocking, it takes everything or is
      broken from then on. */
  lemma {:induction false} SafeWriteAllOrBroken(s: Sink, bytes: seq<byte>)
    requires Lasting(s)
    ensures var (s', r) := SafeWriteResult(s, bytes);
            Lasting(s') && (!s.nonblocking ==> Bytes(r) == |bytes| || s'.broken)
    decreases |bytes|, |s.script|
  {
    var (s', r) := Write(s, bytes);
    if r == Fail(EINTR) {
      SafeWriteAllOrBroken(s', bytes);
    } else if r.Count? && 0 < r.n < |bytes| {
      SafeWriteAllOrBroken(s', bytes[r.n..]);
    }
  }

  /** Nothing arrives at a broken sink. */
  lemma BrokenStaysBroken(s: Sink, bytes: seq<byte>)
    requires s.broken
    ensures SafeWriteResult(s, bytes).0 == s
  {
  }

  /** No write on this sink ever reports an error other than EINTR and EAGAIN. */
  predicate Flawless(s: Sink) {
    !s.broken && forall k :: 0 <= k < |s.script| ==> !s.script[k].Failing?
  }

  lemma {:induction false} FlawlessNeverBreaks(s: Sink, bytes: seq<byte>)
    requires Flawless(s)
    ensures Flawless(SafeWriteResult(s, bytes).0)
    decreases |bytes|, |s.script|
  {
    var (s', r) := Write(s, bytes);
    if r == Fail(EINTR) {
      FlawlessNeverBreaks(s', bytes);
    } else if r.Count? && 0 < r.n < |bytes| {
      FlawlessNeverBreaks(s', bytes[r.n..]);
    }
  }

  // ---------- reading ----------

  datatype ReadOutcome = Got(n: nat) | ReadInterrupted | ReadFailing

  /** A stream that is read from: `rest` is what is still to come. */
  datatype Source = Source(rest: seq<byte>, script: seq<ReadOutcome>)

  /** read(): returns 0 only at the end of the stream (or if asked for nothing). */
  function Read(s: Source, count: nat): (r: (Source, Rtn))
    ensures Bytes(r.1) <= count && Bytes(r.1) + |r.0.rest| == |s.rest|
    ensures r.1 == Count(0) && count > 0 ==> s.rest == []
    ensures |r.0.script| <= |s.script| && (r.1 == Fail(EINTR) ==> |r.0.script| < |s.script|)
  {
    if s.script == [] then
      var k := Min(count, |s.rest|);
      (s.(rest := s.rest[k..]), Count(k))
    else
      var next := s.(script := s.script[1..]);
      match s.script[0]
      case Got(n) =>
        var k := Min(Min(if n == 0 then 1 else n, count), |s.rest|);
        (next.(rest := s.rest[k..]), Count(k))
      case ReadInterrupted => (next, Fail(EINTR))
      case ReadFailing => (next, Fail(EOTHER))
  }

  lemma ReadTakes(s: Source, count: nat)
    ensures var (s', r) := Read(s, count); s.rest == s.rest[..Bytes(r)] + s'.rest
  {
  }

  /** safe_read(): the stream afterwards and the return value. */
  function SafeReadResult(s: Source, count: nat): (r: (Source, Rtn))
    ensures Bytes(r.1) <= count && Bytes(r.1) + |r.0.rest| == |s.rest|
    decreases count, |s.script|
  {
    var (s', r) := Read(s, count);
    if r == Fail(EINTR) then SafeReadResult(s', count)
    else if r.Count? && 0 < r.n < count then
      var o := SafeReadResult(s', count - r.n);
      (o.0, Total(r.n, o.1))
    else (s', r)
  }

  /** safe_read() consumes exactly what it reports, and reports 0 only at the end. */
  lemma {:induction false} SafeReadConsumes(s: Source, count: nat)
    ensures var (s', r) := SafeReadResult(s, count);
            s.rest == s.rest[..Bytes(r)] + s'.rest && (r == Count(0) && count > 0 ==> s.rest == [])
    decreases count, |s.script|
  {
    var (s', r) := Read(s, count);
    ReadTakes(s, count);
    if r == Fail(EINTR) {
      assert s.rest[..0] + s'.rest == s'.rest;
      SafeReadConsumes(s', count);
    } else if r.Count? && 0 < r.n < count {
      SafeReadConsumes(s', count - r.n);
      var o := SafeReadResult(s', count - r.n);
      SplitTwice(s.rest, r.n, s'.rest, Bytes(o.1), o.0.rest);
    }
  }

  lemma SplitTwice(a: seq<byte>, n: nat, b: seq<byte>, m: nat, c: seq<byte>)
    requires n <= |a| && a == a[..n] + b && m <= |b| && b == b[..m] + c
    ensures n + m <= |a| && a == a[..n + m] + c
  {
    assert a[..n + m] == a[..n] + b[..m];
  }

  /** A stream without read errors. */
  predicate Readable(s: Source) {
    forall k :: 0 <= k < |s.script| ==> s.script[k] != ReadFailing
  }

  lemma {:induction false} ReadableNeverFails(s: Source, count: nat)
    requires Readable(s)
    ensures Readable(SafeReadResult(s, count).0) && SafeReadResult(s, count).1.Count?
    decreases count, |s.script|
  {
    var (s', r) := Read(s, count);
    if r == Fail(EINTR) {
      ReadableNeverFails(s', count);
    } else if r.Count? && 0 < r.n < count {
      ReadableNeverFails(s', count - r.n);
    }
  }

  // ---------- the loops ----------

  class SinkFd {
    var sink: Sink

    constructor (sink: Sink)
      ensures this.sink == sink
    {
      this.sink := sink;
    }

    /** blockfd() */
    method Block()
      modifies this
      ensures sink == old(sink).(nonblocking := false)
    {
      sink := sink.(nonblocking := false);
    }

    method WriteCall(bytes: seq<byte>) returns (r: Rtn)
      modifies this
      ensures (sink, r) == Write(old(sink), bytes)
    {
      var (s, rtn) := Write(sink, bytes);
      sink, r := s, rtn;
    }
  }

  class SourceFd {
    var source: Source

    constructor (source: Source)
      ensures this.source == source
    {
      this.source := source;
    }

    /** read() into buf[at..at + count]. */
    method ReadCall(buf: array<byte>, at: nat, count: nat) returns (r: Rtn)
      requires at + count <= buf.Length
      modifies this, buf
      ensures (source, r) == Read(old(source), count)
      ensures buf[..at + Bytes(r)] == old(buf[..at]) + old(source).rest[..Bytes(r)]
    {
      var (s, rtn) := Read(source, count);
      var n := Bytes(rtn);
      forall k | 0 <= k < n {
        buf[at + k] := source.rest[k];
      }
      source, r := s, rtn;
    }
  }

  /** How far safe_write() has come: `left` is still to be written behind `size` bytes, and the
      result will be `whole`. */
  ghost predicate WriteState(s: Sink, left: seq<byte>, size: nat, whole: (Sink, Rtn)) {
    && (size > 0 ==> left != [])
    && whole.0 == SafeWriteResult(s, left).0
    && whole.1 == Total(size, SafeWriteResult(s, left).1)
  }

  /** One more write() of safe_write(), seen from the specification. */
  lemma WriteStep(s: Sink, left: seq<byte>, size: nat, whole: (Sink, Rtn), s': Sink, r: Rtn)
    requires WriteState(s, left, size, whole) && (s', r) == Write(s, left)
    ensures r == Fail(EINTR) ==> WriteState(s', left, size, whole)
    ensures r.Count? && 0 < r.n < |left| ==> WriteState(s', left[r.n..], size + r.n, whole)
    ensures r.Count? && (r.n == 0 || r.n == |left|) ==> whole == (s', Count(size + r.n))
    ensures r.Fail? && r.errno != EINTR ==> whole == (s', if size == 0 then r else Count(size))
  {
  }

  /** safe_write() of buf[from..from + count]. */
  method SafeWrite(fd: SinkFd, buf: array<byte>, from: nat, count: nat) returns (rtn: Rtn)
    requires from + count <= buf.Length
    modifies fd
    ensures (fd.sink, rtn) == SafeWriteResult(old(fd.sink), buf[from..from + count])
  {
    var size := 0;
    ghost var whole := SafeWriteResult(fd.sink, buf[from..from + count]);
    while true
      invariant 0 <= size <= count
      invariant WriteState(fd.sink, buf[from + size..from + count], size, whole)
      decreases count - size, |fd.sink.script|
    {
      ghost var left, s := buf[from + size..from + count], fd.sink;
      var r := fd.WriteCall(buf[from + size..from + count]);
      WriteStep(s, left, size, whole, fd.sink, r);
      if r.Count? {
        assert left[r.n..] == buf[from + size + r.n..from + count];
        size := size + r.n;
        if r.n == 0 || size >= count {
          return Count(size);
        }
      } else if r.errno != EINTR {
        return if size == 0 then r else Count(size);
      }
    }
  }

  /** How far safe_read() has come: `front` is in the buffer, the rest of the stream is still
      to come, and the result will be `whole`. */
  ghost predicate ReadState(s: Source, front: seq<byte>, count: nat, all: seq<byte>, whole: (Source, Rtn)) {
    && |front| <= count && (|front| == count ==> count == 0)
    && front + s.rest == all
    && whole.0 == SafeReadResult(s, count - |front|).0
    && whole.1 == Total(|front|, SafeReadResult(s, count - |front|).1)
  }

  ghost predicate ReadDone(s: Source, rtn: Rtn, buf: seq<byte>, all: seq<byte>, whole: (Source, Rtn)) {
    (s, rtn) == whole && Bytes(rtn) <= |buf| && buf[..Bytes(rtn)] + s.rest == all
  }

  lemma Moved(a: seq<byte>, r: seq<byte>, n: nat, b: seq<byte>, r': seq<byte>)
    requires n <= |r| && b == a + r[..n] && r == r[..n] + r'
    ensures b + r' == a + r
  {
    assert a + r[..n] + r' == a + (r[..n] + r');
  }

  lemma ReadMoves(s: Source, front: seq<byte>, count: nat, s': Source, r: Rtn, front': seq<byte>)
    requires (s', r) == Read(s, count) && front' == front + s.rest[..Bytes(r)]
    ensures front' + s'.rest == front + s.rest && |front'| == |front| + Bytes(r)
  {
    ReadTakes(s, count);
    Moved(front, s.rest, Bytes(r), front', s'.rest);
  }

  /** Whether safe_read() repeats the call, with `size` of `count` bytes read. */
  predicate GoesOn(r: Rtn, size: nat, count: nat) {
    if r.Count? then r.n > 0 && size < count else r.errno == EINTR
  }

  /** One more read() of safe_read(), seen from the specification. */
  lemma ReadStep(s: Source, front: seq<byte>, count: nat, all: seq<byte>, whole: (Source, Rtn), s': Source,
        r: Rtn, front': seq<byte>)
    requires ReadState(s, front, count, all, whole) && (s', r) == Read(s, count - |front|)
    requires front' + s'.rest == all && |front'| == |front| + Bytes(r)
    ensures if GoesOn(r, |front'|, count) then ReadState(s', front', count, all, whole)
            else whole.0 == s' && whole.1 == if r.Count? || front' != [] then Count(|front'|) else r
  {
  }

  lemma ReadRound(s: Source, front: seq<byte>, count: nat, all: seq<byte>, whole: (Source, Rtn), s': Source,
        r: Rtn, front': seq<byte>)
    requires ReadState(s, front, count, all, whole) && (s', r) == Read(s, count - |front|)
    requires front' == front + s.rest[..Bytes(r)]
    ensures |front'| <= count
    ensures GoesOn(r, |front'|, count) ==>
              ReadState(s', front', count, all, whole) && (|front'| > |front| || |s'.script| < |s.script|)
    ensures !GoesOn(r, |front'|, count) ==>
              ReadDone(s', if r.Count? || front' != [] then Count(|front'|) else r, front', all, whole)
  {
    ReadMoves(s, front, count - |front|, s', r, front');
    ReadStep(s, front, count, all, whole, s', r, front');
    assert front'[..|front'|] == front';
  }

  /** One read() of safe_read(). */
  method ReadOnce(fd: SourceFd, buf: array<byte>, count: nat, size0: nat, ghost all: seq<byte>,
        ghost whole: (Source, Rtn))
    returns (size: nat, stop: bool, rtn: Rtn)
    requires size0 <= count <= buf.Length && ReadState(fd.source, buf[..size0], count, all, whole)
    modifies fd, buf
    ensures size0 <= size <= count
    ensures !stop ==> ReadState(fd.source, buf[..size], count, all, whole)
    ensures !stop ==> size > size0 || |fd.source.script| < |old(fd.source.script)|
    ensures stop ==> ReadDone(fd.source, rtn, buf[..size], all, whole)
  {
    ghost var was, s := buf[..size0], fd.source;
    var r := fd.ReadCall(buf, size0, count - size0);
    size := size0 + Bytes(r);
    ReadRound(s, was, count, all, whole, fd.source, r, buf[..size]);
    stop := !GoesOn(r, size, count);
    rtn := if r.Count? || size > 0 then Count(size) else r;
  }

  lemma ReadStart(s: Source, front: seq<byte>, count: nat, whole: (Source, Rtn))
    requires front == [] && whole.0 == SafeReadResult(s, count).0 && whole.1 == SafeReadResult(s, count).1
    ensures ReadState(s, front, count, s.rest, whole)
  {
    assert count - |front| == count;
    NothingBefore(front, s.rest);
  }

  lemma NothingBefore(front: seq<byte>, rest: seq<byte>)
    requires front == []
    ensures front + rest == rest
  {
  }

  /** safe_read() into the front of the buffer. */
  method SafeRead(fd: SourceFd, buf: array<byte>, count: nat) returns (rtn: Rtn)
    requires count <= buf.Length
    modifies fd, buf
    ensures (fd.source, rtn) == SafeReadResult(old(fd.source), count)
    ensures Bytes(rtn) <= buf.Length && buf[..Bytes(rtn)] + fd.source.rest == old(fd.source).rest
  {
    ghost var all, whole := fd.source.rest, SafeReadResult(fd.source, count);
    ReadStart(fd.source, buf[..0], count, whole);
    var size, stop := 0, false;
    rtn := Count(0);
    while !stop
      invariant size <= count
      invariant if stop then ReadDone(fd.source, rtn, buf[..size], all, whole)
                else ReadState(fd.source, buf[..size], count, all, whole)
      decreases !stop, count - size, |fd.source.script|
    {
      size, stop, rtn := ReadOnce(fd, buf, count, size, all, whole);
    }
    assert buf[..size][..Bytes(rtn)] == buf[..Bytes(rtn)];
  }
}
