/**
 Writing one chunk after the other to a sink without looking at the return values of
 safe_write(), and exactly when that leaves a hole in what arrives.
 */
module Feeding {
  import opened Basics
  import opened Channels

  /** A sink after safe_write() of every chunk. */
  function Feed(s: Sink, chunks: seq<seq<byte>>): Sink
    decreases |chunks|
  {
    if chunks == [] then s else Feed(SafeWriteResult(s, chunks[0]).0, chunks[1..])
  }

  function Joined(chunks: seq<seq<byte>>): seq<byte> {
    if chunks == [] then [] else chunks[0] + Joined(chunks[1..])
  }

  lemma JoinTail(c: seq<byte>, chunks: seq<seq<byte>>)
    ensures Joined([c] + chunks) == c + Joined(chunks)
  {
    assert ([c] + chunks)[1..] == chunks;
  }

  lemma FeedFirst(s: Sink, c: seq<byte>, chunks: seq<seq<byte>>)
    ensures Feed(s, [c] + chunks) == Feed(SafeWriteResult(s, c).0, chunks)
  {
    assert ([c] + chunks)[1..] == chunks;
  }

  lemma PartThenRest(a: seq<byte>, c: seq<byte>, n: nat, rest: seq<byte>)
    requires n <= |c|
    ensures a <= a + c[..n] <= a + (c + rest)
    ensures n == |c| ==> a + c[..n] + rest == a + (c + rest)
  {
    assert a + (c + rest) == a + c[..n] + (c[n..] + rest);
  }

  // ---------- errors that last ----------

  /** A blocking sink whose errors last holds a prefix of what it was fed, and all of it unless
      it broke. */
  lemma {:induction false} FeedDelivers(s: Sink, chunks: seq<seq<byte>>)
    requires Lasting(s) && !s.nonblocking
    ensures var s' := Feed(s, chunks);
            && s.received <= s'.received <= s.received + Joined(chunks)
            && (s'.broken || s'.received == s.received + Joined(chunks))
    decreases |chunks|
  {
    if chunks != [] {
      var (s1, r) := SafeWriteResult(s, chunks[0]);
      SafeWriteDelivers(s, chunks[0]);
      SafeWriteAllOrBroken(s, chunks[0]);
      PartThenRest(s.received, chunks[0], Bytes(r), Joined(chunks[1..]));
      if s1.broken {
        FeedBroken(s1, chunks[1..]);
      } else {
        FeedDelivers(s1, chunks[1..]);
      }
    }
  }

  /** A broken sink never receives anything again. */
  lemma {:induction false} FeedBroken(s: Sink, chunks: seq<seq<byte>>)
    requires s.broken
    ensures Feed(s, chunks) == s
    decreases |chunks|
  {
    if chunks != [] {
      BrokenStaysBroken(s, chunks[0]);
      FeedBroken(s, chunks[1..]);
    }
  }

  // ---------- any errors: what arrives ----------

  /** What each safe_write() takes of its chunk. */
  function Pieces(s: Sink, chunks: seq<seq<byte>>): seq<seq<byte>>
    decreases |chunks|
  {
    if chunks == [] then []
    else
      var (s', r) := SafeWriteResult(s, chunks[0]);
      [chunks[0][..Bytes(r)]] + Pieces(s', chunks[1..])
  }

  /** Some safe_write() returned less than it was given. */
  predicate CutShort(s: Sink, chunks: seq<seq<byte>>)
    decreases |chunks|
  {
    chunks != [] &&
    var (s', r) := SafeWriteResult(s, chunks[0]);
    Bytes(r) < |chunks[0]| || CutShort(s', chunks[1..])
  }

  /** Whatever the errors, a sink receives one prefix of every chunk, in order; and nothing is
      missing if and only if no return value of safe_write() was short. */
  lemma {:induction false} ReceivedIsPieces(s: Sink, chunks: seq<seq<byte>>)
    ensures Feed(s, chunks).received == s.received + Joined(Pieces(s, chunks))
    ensures |Joined(Pieces(s, chunks))| <= |Joined(chunks)|
    ensures Feed(s, chunks).received == s.received + Joined(chunks) <==> !CutShort(s, chunks)
    decreases |chunks|
  {
    if chunks != [] {
      var (s', r) := SafeWriteResult(s, chunks[0]);
      SafeWriteDelivers(s, chunks[0]);
      ReceivedIsPieces(s', chunks[1..]);
      JoinTail(chunks[0][..Bytes(r)], Pieces(s', chunks[1..]));
      OnePiece(s.received, chunks[0], Bytes(r), Joined(Pieces(s', chunks[1..])), Joined(chunks[1..]));
    }
  }

  lemma OnePiece(a: seq<byte>, c: seq<byte>, n: nat, pieces: seq<byte>, rest: seq<byte>)
    requires n <= |c| && |pieces| <= |rest|
    ensures a + c[..n] + pieces == a + (c[..n] + pieces)
    ensures a + c[..n] + pieces == a + (c + rest) <==> n == |c| && a + c[..n] + pieces == a + c[..n] + rest
  {
    if n < |c| {
      assert |a + c[..n] + pieces| < |a + (c + rest)|;
    } else {
      assert a + c[..n] + rest == a + (c + rest);
    }
  }

  // ---------- any errors: when there is no hole ----------

  /** An error after which the sink may take data again. */
  predicate Passing(o: WriteOutcome, nonblocking: bool) {
    o == Failing(false) || (nonblocking && o == WouldBlock)
  }

  /** The sink takes nothing any more: it is only interrupted and reports errors until it breaks. */
  predicate Dies(script: seq<WriteOutcome>, nonblocking: bool) {
    script != [] &&
    (script[0] == Failing(true) ||
     ((script[0] == Interrupted || Passing(script[0], nonblocking)) && Dies(script[1..], nonblocking)))
  }

  /** Behind the first error that passes, if one is reached before the sink breaks, it takes
      nothing any more. */
  predicate Gapless(script: seq<WriteOutcome>, nonblocking: bool) {
    script == [] || script[0] == Failing(true) ||
    (if Passing(script[0], nonblocking) then Dies(script[1..], nonblocking) else Gapless(script[1..], nonblocking))
  }

  predicate Intact(s: Sink) {
    s.broken || Gapless(s.script, s.nonblocking)
  }

  predicate Dead(s: Sink) {
    s.broken || Dies(s.script, s.nonblocking)
  }

  lemma {:induction false} DeadIsIntact(s: Sink)
    requires Dead(s)
    ensures Intact(s)
    decreases |s.script|
  {
    if !s.broken && s.script[0] == Interrupted {
      DeadIsIntact(s.(script := s.script[1..]));
    }
  }

  lemma {:induction false} LastingIsIntact(s: Sink)
    requires Lasting(s) && !s.nonblocking
    ensures Intact(s)
    decreases |s.script|
  {
    if s.script != [] {
      LastingIsIntact(s.(script := s.script[1..]));
    }
  }

  lemma WriteKeepsIntact(s: Sink, bytes: seq<byte>)
    requires Intact(s) && bytes != []
    ensures var (s', r) := Write(s, bytes);
            if r.Count? || r.errno == EINTR then Intact(s') else Dead(s')
  {
  }

  lemma WriteToDead(s: Sink, bytes: seq<byte>)
    requires Dead(s) && bytes != []
    ensures var (s', r) := Write(s, bytes); r.Fail? && Dead(s')
  {
  }

  /** Writing to a sink that will leave no hole: it stays one, and unless it took everything it
      is dead. */
  lemma {:induction false} SafeWriteKeepsIntact(s: Sink, bytes: seq<byte>)
    requires Intact(s)
    ensures var (s', r) := SafeWriteResult(s, bytes); if Bytes(r) == |bytes| then Intact(s') else Dead(s')
    decreases |bytes|, |s.script|
  {
    if bytes != [] {
      var (s', r) := Write(s, bytes);
      WriteKeepsIntact(s, bytes);
      if r == Fail(EINTR) {
        SafeWriteKeepsIntact(s', bytes);
      } else if r.Count? && r.n < |bytes| {
        SafeWriteKeepsIntact(s', bytes[r.n..]);
      }
    }
  }

  lemma {:induction false} SafeWriteToDead(s: Sink, bytes: seq<byte>)
    requires Dead(s)
    ensures var (s', r) := SafeWriteResult(s, bytes); Bytes(r) == 0 && Dead(s')
    decreases |s.script|
  {
    if bytes != [] {
      var (s', r) := Write(s, bytes);
      WriteToDead(s, bytes);
      if r == Fail(EINTR) {
        SafeWriteToDead(s', bytes);
      }
    }
  }

  lemma {:induction false} FeedDead(s: Sink, chunks: seq<seq<byte>>)
    requires Dead(s)
    ensures Feed(s, chunks).received == s.received
    decreases |chunks|
  {
    if chunks != [] {
      SafeWriteToDead(s, chunks[0]);
      SafeWriteDelivers(s, chunks[0]);
      assert s.received + chunks[0][..0] == s.received;
      FeedDead(SafeWriteResult(s, chunks[0]).0, chunks[1..]);
    }
  }

  lemma {:induction false} IntactHasNoHole(s: Sink, chunks: seq<seq<byte>>)
    requires Intact(s)
    ensures Feed(s, chunks).received <= s.received + Joined(chunks)
    decreases |chunks|
  {
    if chunks != [] {
      var (s', r) := SafeWriteResult(s, chunks[0]);
      SafeWriteDelivers(s, chunks[0]);
      SafeWriteKeepsIntact(s, chunks[0]);
      PartThenRest(s.received, chunks[0], Bytes(r), Joined(chunks[1..]));
      if Bytes(r) == |chunks[0]| {
        IntactHasNoHole(s', chunks[1..]);
      } else {
        FeedDead(s', chunks[1..]);
      }
    }
  }

  // ---------- the other half ----------

  const ZERO: seq<byte> := [0]
  const ONE: seq<byte> := [1]

  /** One byte meets the first outcome of a script. */
  lemma OneByte(s: Sink, c: seq<byte>)
    requires |c| == 1 && !s.broken && s.script != []
    ensures var next := s.(script := s.script[1..]);
            var o := SafeWriteResult(s, c);
            if s.script[0] == Interrupted then o == SafeWriteResult(next, c)
            else if s.script[0].Failing? || Passing(s.script[0], s.nonblocking) then
              o.0 == next.(broken := s.script[0] == Failing(true)) && Bytes(o.1) == 0
            else o.0 == next.(received := s.received + c) && Bytes(o.1) == 1
  {
    assert c[..1] == c;
  }

  lemma AfterScript(s: Sink, c: seq<byte>)
    requires |c| == 1 && !s.broken && s.script == []
    ensures SafeWriteResult(s, c).0.received == s.received + c
  {
  }

  /** A sink that is not dead takes a byte at last. */
  lemma {:induction false} TakesAgain(s: Sink) returns (chunks: seq<seq<byte>>)
    requires !Dead(s)
    ensures chunks != [] && chunks[0] == ZERO && Feed(s, chunks).received == s.received + ZERO
    decreases |s.script|
  {
    var next := if s.script == [] then s else s.(script := s.script[1..]);
    if s.script == [] {
      AfterScript(s, ZERO);
    } else {
      OneByte(s, ZERO);
    }
    if s.script != [] && s.script[0] == Interrupted {
      chunks := TakesAgain(next);
      SameFirst(s, next, chunks);
    } else if s.script != [] && Passing(s.script[0], s.nonblocking) {
      var more := TakesAgain(next);
      chunks := [ZERO] + more;
      FeedFirst(s, ZERO, more);
    } else {
      chunks := [ZERO];
      FeedFirst(s, ZERO, []);
      assert [ZERO] + [] == chunks;
    }
  }

  lemma SameFirst(s: Sink, t: Sink, chunks: seq<seq<byte>>)
    requires chunks != [] && SafeWriteResult(s, chunks[0]) == SafeWriteResult(t, chunks[0])
    ensures Feed(s, chunks) == Feed(t, chunks)
  {
  }

  /** The sink does not hold a prefix of what it was given. */
  predicate Hole(s: Sink, chunks: seq<seq<byte>>) {
    !(Feed(s, chunks).received <= s.received + Joined(chunks))
  }

  lemma HoleIs(s: Sink, chunks: seq<seq<byte>>)
    requires Hole(s, chunks)
    ensures !(Feed(s, chunks).received <= s.received + Joined(chunks))
  {
  }

  lemma LostFirst(s: Sink, more: seq<seq<byte>>)
    requires SafeWriteResult(s, ONE).0.received == s.received
    requires Feed(SafeWriteResult(s, ONE).0, more).received == s.received + ZERO
    ensures Hole(s, [ONE] + more)
  {
    FeedFirst(s, ONE, more);
    JoinTail(ONE, more);
    var n := |s.received|;
    assert (s.received + ZERO)[n] == 0 && (s.received + (ONE + Joined(more)))[n] == 1;
  }

  lemma HoleBehind(s: Sink, c: seq<byte>, s': Sink, more: seq<seq<byte>>)
    requires s' == SafeWriteResult(s, c).0 && s'.received == s.received + c && Hole(s', more)
    ensures Hole(s, [c] + more)
  {
    var all := [c] + more;
    FeedFirst(s, c, more);
    JoinTail(c, more);
    assert s.received + Joined(all) == s'.received + Joined(more);
    assert Feed(s, all) == Feed(s', more);
  }

  /** A sink that is not intact leaves a hole behind in some chunks of one byte. */
  lemma {:induction false} HoleFound(s: Sink) returns (chunks: seq<seq<byte>>)
    requires !Intact(s)
    ensures chunks != [] && |chunks[0]| == 1 && Hole(s, chunks)
    decreases |s.script|
  {
    var next := s.(script := s.script[1..]);
    if s.script[0] == Interrupted {
      chunks := HoleFound(next);
      OneByte(s, chunks[0]);
      SameFirst(s, next, chunks);
    } else if Passing(s.script[0], s.nonblocking) {
      OneByte(s, ONE);
      var more := TakesAgain(next);
      chunks := [ONE] + more;
      LostFirst(s, more);
    } else {
      OneByte(s, ZERO);
      var s' := SafeWriteResult(s, ZERO).0;
      var more := HoleFound(s');
      chunks := [ZERO] + more;
      HoleBehind(s, ZERO, s', more);
    }
  }

  /** A sink holds a prefix of everything it may be given if and only if no error in its script
      passes before it takes data again. */
  lemma NoHoleIffIntact(s: Sink)
    ensures (forall chunks: seq<seq<byte>> :: Feed(s, chunks).received <= s.received + Joined(chunks)) <==> Intact(s)
  {
    if Intact(s) {
      forall chunks: seq<seq<byte>> ensures Feed(s, chunks).received <= s.received + Joined(chunks) {
        IntactHasNoHole(s, chunks);
      }
    } else {
      var chunks := HoleFound(s);
      HoleIs(s, chunks);
      assert exists c: seq<seq<byte>> :: !(Feed(s, c).received <= s.received + Joined(c));
    }
  }

  // ---------- when everything arrives ----------

  /** No write on this sink ever fails, but for interruptions. */
  predicate TakesAll(s: Sink) {
    !s.broken && forall k :: 0 <= k < |s.script| ==> !s.script[k].Failing? && !Passing(s.script[k], s.nonblocking)
  }

  lemma {:induction false} TakesAllIsIntact(s: Sink)
    requires TakesAll(s)
    ensures Intact(s)
    decreases |s.script|
  {
    if s.script != [] {
      TakesAllIsIntact(s.(script := s.script[1..]));
    }
  }

  lemma {:induction false} SafeWriteTakesAll(s: Sink, bytes: seq<byte>)
    requires TakesAll(s)
    ensures var (s', r) := SafeWriteResult(s, bytes); Bytes(r) == |bytes| && TakesAll(s')
    decreases |bytes|, |s.script|
  {
    if bytes != [] {
      var (s', r) := Write(s, bytes);
      if r == Fail(EINTR) {
        SafeWriteTakesAll(s', bytes);
      } else if r.Count? && r.n < |bytes| {
        SafeWriteTakesAll(s', bytes[r.n..]);
      }
    }
  }

  lemma {:induction false} FeedTakesAll(s: Sink, chunks: seq<seq<byte>>)
    requires TakesAll(s)
    ensures Feed(s, chunks).received == s.received + Joined(chunks)
    decreases |chunks|
  {
    if chunks != [] {
      var (s', r) := SafeWriteResult(s, chunks[0]);
      SafeWriteDelivers(s, chunks[0]);
      SafeWriteTakesAll(s, chunks[0]);
      PartThenRest(s.received, chunks[0], Bytes(r), Joined(chunks[1..]));
      FeedTakesAll(s', chunks[1..]);
    }
  }

  lemma {:induction false} ShortFound(s: Sink) returns (chunks: seq<seq<byte>>)
    requires !TakesAll(s)
    ensures chunks != [] && chunks[0] == ZERO && CutShort(s, chunks)
    decreases |s.script|
  {
    if s.broken || s.script[0].Failing? || Passing(s.script[0], s.nonblocking) {
      if !s.broken {
        OneByte(s, ZERO);
      }
      return [ZERO];
    }
    var next := s.(script := s.script[1..]);
    OneByte(s, ZERO);
    if s.script[0] == Interrupted {
      chunks := ShortFound(next);
    } else {
      var more := ShortFound(next.(received := s.received + ZERO));
      chunks := [ZERO] + more;
      assert chunks[1..] == more;
    }
  }

  /** Everything that a sink may be given arrives if and only if nothing but interruptions is in
      its script. */
  lemma AllArrivesIffTakesAll(s: Sink)
    ensures (forall chunks: seq<seq<byte>> :: Feed(s, chunks).received == s.received + Joined(chunks)) <==> TakesAll(s)
  {
    if TakesAll(s) {
      forall chunks: seq<seq<byte>> ensures Feed(s, chunks).received == s.received + Joined(chunks) {
        FeedTakesAll(s, chunks);
      }
    } else {
      var chunks := ShortFound(s);
      ReceivedIsPieces(s, chunks);
      assert Feed(s, chunks).received != s.received + Joined(chunks);
    }
  }

  // ---------- two holes ----------

  lemma FeedTwo(s: Sink, a: byte, b: byte)
    ensures Feed(s, [[a], [b]]) == SafeWriteResult(SafeWriteResult(s, [a]).0, [b]).0
  {
    assert [[a], [b]][1..] == [[b]] && [[b]][1..] == [];
    var end := SafeWriteResult(SafeWriteResult(s, [a]).0, [b]).0;
    assert Feed(end, []) == end;
  }

  /** An error that does not last, as of a file on a disk that is full for a moment, leaves a
      hole: the return value of safe_write() is not looked at. */
  lemma PassingErrorLeavesHole()
    ensures Feed(Sink([], [Failing(false)], false, false), [[1], [2]]).received == [2]
  {
    var s := Sink([], [Failing(false)], false, false);
    FeedTwo(s, 1, 2);
    assert SafeWriteResult(s, [1]).0 == Sink([], [], false, false);
    var two: seq<byte> := [2];
    assert [] + two == two;
    assert Write(Sink([], [], false, false), [2]) == (Sink([2], [], false, false), Count(1));
  }

  /** And so does a pipe that is not blocking while the copy loop runs. */
  lemma FullPipeLeavesHole()
    ensures Feed(Sink([], [WouldBlock], false, true), [[1], [2]]).received == [2]
  {
    var s := Sink([], [WouldBlock], false, true);
    FeedTwo(s, 1, 2);
    assert SafeWriteResult(s, [1]).0 == Sink([], [], false, true);
    var two: seq<byte> := [2];
    assert [] + two == two;
    assert Write(Sink([], [], false, true), [2]) == (Sink([2], [], false, true), Count(1));
  }
}
