/**
 Copying standard input to the core output and to the unwinder's pipe: the non-blocking warm-up
 that feeds the first buffer until the process is known, and the copy loop behind it.
 */
module Duplication {
  import opened Basics
  import opened Channels
  import opened Feeding

  /** One round of the warm-up loop: the pipe, buf_write, the number of fruitless tries, and
      whether feeding failed for another reason than a full pipe. */
  function WarmRound(info: Sink, data: seq<byte>, sent: nat, tries: nat): (r: (Sink, nat, nat, bool))
    requires sent <= |data|
    ensures sent <= r.1 <= |data|
  {
    var (info', r) := SafeWriteResult(info, data[sent..]);
    var tries' := if Bytes(r) > 0 then 0 else tries;
    (info', sent + Bytes(r), if r.Fail? then tries' + 1 else tries', r.Fail? && r.errno != EAGAIN)
  }

  /** The warm-up loop: the pipe afterwards and buf_write. The process is found in round number
      `rounds`, counting from here. */
  function WarmUp(info: Sink, data: seq<byte>, sent: nat, tries: nat, rounds: nat): (r: (Sink, nat))
    requires sent <= |data|
    ensures r.1 <= |data|
    decreases rounds
  {
    if tries >= 50 then (info, sent)
    else
      var (info', sent', tries', failed) := WarmRound(info, data, sent, tries);
      if rounds == 0 || failed then (info', sent') else WarmUp(info', data, sent', tries', rounds - 1)
  }

  /** What the copy loop reads, one buffer after the other. */
  function Chunks(s: Source, size: nat): (c: seq<seq<byte>>)
    decreases |s.rest|
  {
    var (s', r) := SafeReadResult(s, size);
    if Bytes(r) == 0 then [] else [s.rest[..Bytes(r)]] + Chunks(s', size)
  }

  function SourceAfter(s: Source, size: nat): Source
    decreases |s.rest|
  {
    var (s', r) := SafeReadResult(s, size);
    if Bytes(r) == 0 then s' else SourceAfter(s', size)
  }

  function Blocking(s: Sink): Sink {
    s.(nonblocking := false)
  }

  /** A sink after it was given a chunk, if there was one. */
  function FeedChunk(s: Sink, chunk: seq<byte>): Sink {
    if chunk == [] then s else SafeWriteResult(s, chunk).0
  }

  /** The warm-up, which only happens if there is something to send. */
  function Warm(info: Sink, first: seq<byte>, rounds: nat): (r: (Sink, nat))
    ensures r.1 <= |first|
  {
    if first == [] then (info, 0) else WarmUp(info, first, 0, 0, rounds)
  }

  /** The unwinder's pipe at the end: a function of the pipe, of what was read and of the round
      in which the process was found; the core output plays no part. */
  function InfoAfter(info: Sink, first: seq<byte>, chunks: seq<seq<byte>>, rounds: nat): Sink {
    var (warm, sent) := Warm(info, first, rounds);
    Feed(FeedChunk(Blocking(warm), first[sent..]), chunks)
  }

  method WarmOnce(info: SinkFd, buf: array<byte>, read: nat, sent0: nat, tries0: nat)
    returns (sent: nat, tries: nat, failed: bool)
    requires sent0 <= read <= buf.Length
    modifies info
    ensures (info.sink, sent, tries, failed) == WarmRound(old(info.sink), buf[..read], sent0, tries0)
  {
    sent, tries, failed := sent0, tries0, false;
    assert buf[..read][sent..] == buf[sent..sent + (read - sent)];
    var rtn := SafeWrite(info, buf, sent, read - sent);
    if Bytes(rtn) > 0 {
      sent := sent + Bytes(rtn);
      tries := 0;
    }
    if rtn.Fail? {
      failed := rtn.errno != EAGAIN;
      tries := tries + 1;
    }
  }

  method WarmUpLoop(info: SinkFd, buf: array<byte>, read: nat, rounds: nat) returns (sent: nat)
    requires read <= buf.Length
    modifies info
    ensures (info.sink, sent) == WarmUp(old(info.sink), buf[..read], 0, 0, rounds)
  {
    var tries, round := 0, 0;
    sent := 0;
    ghost var data, whole := buf[..read], WarmUp(info.sink, buf[..read], 0, 0, rounds);
    while tries < 50
      invariant sent <= read && round <= rounds
      invariant whole == WarmUp(info.sink, data, sent, tries, rounds - round)
      decreases rounds - round
    {
      var failed;
      sent, tries, failed := WarmOnce(info, buf, read, sent, tries);
      if round == rounds || failed {
        break;
      }
      round := round + 1;
    }
  }

  /** One round of the copy loop, seen from one sink. */
  lemma FeedRound(s: Sink, src: Source, size: nat)
    ensures var (src', r) := SafeReadResult(src, size);
            if Bytes(r) == 0 then Feed(s, Chunks(src, size)) == s && SourceAfter(src, size) == src'
            else
              && Feed(s, Chunks(src, size)) == Feed(FeedChunk(s, src.rest[..Bytes(r)]), Chunks(src', size))
              && SourceAfter(src, size) == SourceAfter(src', size)
  {
    var (src', r) := SafeReadResult(src, size);
    if Bytes(r) > 0 {
      assert Chunks(src, size)[1..] == Chunks(src', size);
    }
  }

  /** One round of the copy loop. */
  method CopyRound(input: SourceFd, core: SinkFd, info: SinkFd?, buf: array<byte>) returns (rtn: Rtn)
    requires core != info
    modifies input, core, info, buf
    ensures (input.source, rtn) == SafeReadResult(old(input.source), buf.Length)
    ensures core.sink == FeedChunk(old(core.sink), old(input.source).rest[..Bytes(rtn)])
    ensures info != null ==> info.sink == FeedChunk(old(info.sink), old(input.source).rest[..Bytes(rtn)])
  {
    ghost var rest := input.source.rest;
    rtn := SafeRead(input, buf, buf.Length);
    ghost var chunk := rest[..Bytes(rtn)];
    if Bytes(rtn) > 0 {
      assert buf[0..0 + Bytes(rtn)] == chunk;
      var _ := SafeWrite(core, buf, 0, Bytes(rtn));
      if info != null {
        var _ := SafeWrite(info, buf, 0, Bytes(rtn));
      }
    }
  }

  /** The copy loop; each sink receives what it would receive if the other were not there. */
  method CopyLoop(input: SourceFd, core: SinkFd, info: SinkFd?, buf: array<byte>)
    requires buf.Length > 0 && core != info
    modifies input, core, info, buf
    ensures input.source == SourceAfter(old(input.source), buf.Length)
    ensures core.sink == Feed(old(core.sink), Chunks(old(input.source), buf.Length))
    ensures info != null ==> info.sink == Feed(old(info.sink), Chunks(old(input.source), buf.Length))
  {
    ghost var n, all := buf.Length, Chunks(input.source, buf.Length);
    ghost var coreEnd, sourceEnd := Feed(core.sink, all), SourceAfter(input.source, n);
    ghost var infoEnd := if info != null then Feed(info.sink, all) else core.sink;
    var more := true;
    while more
      invariant sourceEnd == if more then SourceAfter(input.source, n) else input.source
      invariant coreEnd == if more then Feed(core.sink, Chunks(input.source, n)) else core.sink
      invariant info != null ==> infoEnd == if more then Feed(info.sink, Chunks(input.source, n)) else info.sink
      decreases more, |input.source.rest|
    {
      FeedRound(core.sink, input.source, n);
      if info != null {
        FeedRound(info.sink, input.source, n);
      }
      var rtn := CopyRound(input, core, info, buf);
      more := Bytes(rtn) > 0;
    }
  }

  /** What the first safe_read() takes from the stream, if it happens. */
  function ReadAhead(s: Source, size: nat, used: bool): (seq<byte>, Source) {
    if used then (s.rest[..Bytes(SafeReadResult(s, size).1)], SafeReadResult(s, size).0) else ([], s)
  }

  /** main() up to the end of the warm-up: buf_read and buf_write. A first read that fails counts
      as 0: its -1 is given to write() as a count, which Linux refuses (EINVAL), and is below
      buf_write. */
  method FirstBuffer(input: SourceFd, info: SinkFd?, started: bool, buf: array<byte>, rounds: nat)
    returns (read: nat, sent: nat)
    modifies input, info, buf
    ensures sent <= read <= buf.Length
    ensures (buf[..read], input.source) == ReadAhead(old(input.source), buf.Length, info != null && started)
    ensures info != null ==> (info.sink, sent) == Warm(old(info.sink), buf[..read], rounds)
  {
    read, sent := 0, 0;
    if info != null && started {
      ghost var rest := input.source.rest;
      var r := SafeRead(input, buf, buf.Length);
      read := Bytes(r);
      assert buf[..read] == rest[..read];
      if read > 0 {
        sent := WarmUpLoop(info, buf, read, rounds);
      }
    }
  }

  /** The hand-over: the whole first buffer to the core output, its unsent tail to the pipe. */
  method HandOver(core: SinkFd, info: SinkFd, buf: array<byte>, read: nat, sent: nat)
    requires sent <= read <= buf.Length && core != info
    modifies core, info
    ensures core.sink == FeedChunk(old(core.sink), buf[..read])
    ensures info.sink == FeedChunk(Blocking(old(info.sink)), buf[..read][sent..])
  {
    info.Block();
    assert buf[0..0 + read] == buf[..read] && buf[sent..sent + (read - sent)] == buf[..read][sent..];
    var _ := SafeWrite(core, buf, 0, read);
    if read > sent {
      var _ := SafeWrite(info, buf, sent, read - sent);
    }
  }

  /** Everything that main() copies. `info` is null when the pipe could not be made, and
      without the thread (`started`) nothing is read ahead. */
  method Duplicate(input: SourceFd, core: SinkFd, info: SinkFd?, started: bool, buf: array<byte>, rounds: nat)
    requires buf.Length > 0 && core != info
    modifies input, core, info, buf
    ensures var (first, rest) := ReadAhead(old(input.source), buf.Length, info != null && started);
            var chunks := Chunks(rest, buf.Length);
            && input.source == SourceAfter(rest, buf.Length)
            && core.sink == Feed(FeedChunk(old(core.sink), first), chunks)
            && (info != null ==> info.sink == InfoAfter(old(info.sink), first, chunks, rounds))
  {
    var read, sent := FirstBuffer(input, info, started, buf, rounds);
    if info != null {
      HandOver(core, info, buf, read, sent);
    }
    CopyLoop(input, core, info, buf);
  }

  // ---------- conservation ----------

  /** Nothing that is read is lost or repeated. */
  lemma {:induction false} ChunksJoin(s: Source, size: nat)
    ensures Joined(Chunks(s, size)) + SourceAfter(s, size).rest == s.rest
    decreases |s.rest|
  {
    var (s', r) := SafeReadResult(s, size);
    SafeReadConsumes(s, size);
    if Bytes(r) > 0 {
      ChunksJoin(s', size);
      JoinTail(s.rest[..Bytes(r)], Chunks(s', size));
      AppendThree(s.rest[..Bytes(r)], Joined(Chunks(s', size)), SourceAfter(s', size).rest);
    } else {
      assert s.rest[..0] + s'.rest == s'.rest;
    }
  }

  /** A stream without read errors is read to its end. */
  lemma {:induction false} ReadsToTheEnd(s: Source, size: nat)
    requires Readable(s) && size > 0
    ensures SourceAfter(s, size).rest == []
    decreases |s.rest|
  {
    var (s', r) := SafeReadResult(s, size);
    ReadableNeverFails(s, size);
    SafeReadConsumes(s, size);
    if Bytes(r) > 0 {
      ReadsToTheEnd(s', size);
    }
  }

  /** The pipe has gone from info to info' by receiving a piece of the buffer. */
  ghost predicate Sent(info: Sink, info': Sink, data: seq<byte>, from: nat, to: nat) {
    && from <= to <= |data| && info'.received == info.received + data[from..to]
    && (Intact(Blocking(info)) ==> Intact(Blocking(info'))) && (Flawless(info) ==> Flawless(info'))
  }

  /** What is left of a script that leaves no hole leaves none; while the warm-up runs, a full
      pipe is no loss. */
  lemma {:induction false} WarmUpKeepsIntact(s: Sink, bytes: seq<byte>)
    requires Intact(Blocking(s))
    ensures Intact(Blocking(SafeWriteResult(s, bytes).0))
    decreases |bytes|, |s.script|
  {
    if bytes != [] {
      var (s', r) := Write(s, bytes);
      WriteKeepsRest(s, bytes);
      if r == Fail(EINTR) {
        WarmUpKeepsIntact(s', bytes);
      } else if r.Count? && r.n < |bytes| {
        WarmUpKeepsIntact(s', bytes[r.n..]);
      }
    }
  }

  lemma WriteKeepsRest(s: Sink, bytes: seq<byte>)
    requires Intact(Blocking(s)) && bytes != []
    ensures Intact(Blocking(Write(s, bytes).0))
  {
    var s' := Blocking(Write(s, bytes).0);
    if !s.broken && s.script != [] && s.script[0] == Failing(false) {
      DeadIsIntact(s');
    }
  }

  lemma WarmRoundDelivers(info: Sink, data: seq<byte>, sent: nat, tries: nat)
    requires sent <= |data|
    ensures Sent(info, WarmRound(info, data, sent, tries).0, data, sent, WarmRound(info, data, sent, tries).1)
  {
    var r := SafeWriteResult(info, data[sent..]).1;
    SafeWriteDelivers(info, data[sent..]);
    assert data[sent..][..Bytes(r)] == data[sent..sent + Bytes(r)];
    if Intact(Blocking(info)) {
      WarmUpKeepsIntact(info, data[sent..]);
    }
    if Flawless(info) {
      FlawlessNeverBreaks(info, data[sent..]);
    }
  }

  /** However often the warm-up is interrupted, told to try again or cut short, buf_write is
      exactly what has arrived. */
  lemma {:induction false} WarmUpDelivers(info: Sink, data: seq<byte>, sent: nat, tries: nat, rounds: nat)
    requires sent <= |data|
    ensures Sent(info, WarmUp(info, data, sent, tries, rounds).0, data, sent, WarmUp(info, data, sent, tries, rounds).1)
    decreases rounds
  {
    if tries < 50 {
      var (info1, sent1, tries1, failed) := WarmRound(info, data, sent, tries);
      WarmRoundDelivers(info, data, sent, tries);
      if rounds > 0 && !failed {
        WarmUpDelivers(info1, data, sent1, tries1, rounds - 1);
        var sent2 := WarmUp(info1, data, sent1, tries1, rounds - 1).1;
        assert data[sent..sent1] + data[sent1..sent2] == data[sent..sent2];
      }
    }
  }

  lemma PieceIsChunk(s: Sink, piece: seq<byte>, chunks: seq<seq<byte>>)
    ensures var pieces := if piece == [] then chunks else [piece] + chunks;
            Feed(FeedChunk(s, piece), chunks) == Feed(s, pieces) && Joined(pieces) == piece + Joined(chunks)
  {
    if piece == [] {
      assert piece + Joined(chunks) == Joined(chunks);
    } else {
      FeedFirst(s, piece, chunks);
      JoinTail(piece, chunks);
    }
  }

  /** A sink that is given one piece and then the chunks holds a prefix of all of them if it
      leaves no hole, and everything if it never fails. */
  lemma PieceAndChunks(s: Sink, piece: seq<byte>, chunks: seq<seq<byte>>)
    requires Intact(s)
    ensures var end, all := Feed(FeedChunk(s, piece), chunks), s.received + (piece + Joined(chunks));
            end.received <= all && (TakesAll(s) ==> end.received == all)
  {
    var pieces := if piece == [] then chunks else [piece] + chunks;
    PieceIsChunk(s, piece, chunks);
    IntactHasNoHole(s, pieces);
    if TakesAll(s) {
      FeedTakesAll(s, pieces);
    }
  }

  /** The unwinder's pipe receives a prefix of what was read, whatever the warm-up did, with
      nothing lost or repeated where the loops hand over; and everything if it never fails. */
  lemma InfoReceivesPrefix(info: Sink, first: seq<byte>, chunks: seq<seq<byte>>, rounds: nat)
    requires Intact(Blocking(info))
    ensures var end, all := InfoAfter(info, first, chunks, rounds), info.received + (first + Joined(chunks));
            end.received <= all && (Flawless(info) ==> end.received == all)
  {
    var (warm, sent) := Warm(info, first, rounds);
    WarmUpDelivers(info, first, 0, 0, rounds);
    assert Sent(info, warm, first, 0, sent);
    PieceAndChunks(Blocking(warm), first[sent..], chunks);
    Regroup(info.received, first, sent, Joined(chunks));
  }

  /** Without a first buffer there is no warm-up. */
  lemma NoWarmUp(info: Sink, chunks: seq<seq<byte>>, rounds: nat)
    ensures InfoAfter(info, [], chunks, rounds) == Feed(Blocking(info), chunks)
    ensures [] + Joined(chunks) == Joined(chunks)
  {
  }

  /** What the core output and the pipe hold is a prefix of what was read, however it was cut
      into buffers and whenever the process was found, if and only if no error of either passes
      before that sink takes data again. The non-blocking warm-up needs no condition. */
  lemma NoHolesIffIntact(core: Sink, info: Sink)
    ensures (forall first: seq<byte>, chunks: seq<seq<byte>> ::
               Feed(FeedChunk(core, first), chunks).received <= core.received + (first + Joined(chunks))) <==>
            Intact(core)
    ensures (forall first: seq<byte>, chunks: seq<seq<byte>>, rounds: nat ::
               InfoAfter(info, first, chunks, rounds).received <= info.received + (first + Joined(chunks))) <==>
            Intact(Blocking(info))
  {
    CoreNoHolesIffIntact(core);
    InfoNoHolesIffIntact(info);
  }

  lemma CoreNoHolesIffIntact(core: Sink)
    ensures (forall first: seq<byte>, chunks: seq<seq<byte>> ::
               Feed(FeedChunk(core, first), chunks).received <= core.received + (first + Joined(chunks))) <==>
            Intact(core)
  {
    if Intact(core) {
      forall first: seq<byte>, chunks: seq<seq<byte>>
        ensures Feed(FeedChunk(core, first), chunks).received <= core.received + (first + Joined(chunks))
      {
        PieceAndChunks(core, first, chunks);
      }
    } else {
      var chunks := HoleFound(core);
      NoWarmUp(core, chunks, 0);
      assert FeedChunk(core, []) == core;
      assert !(Feed(FeedChunk(core, []), chunks).received <= core.received + ([] + Joined(chunks)));
    }
  }

  lemma InfoNoHolesIffIntact(info: Sink)
    ensures (forall first: seq<byte>, chunks: seq<seq<byte>>, rounds: nat ::
               InfoAfter(info, first, chunks, rounds).received <= info.received + (first + Joined(chunks))) <==>
            Intact(Blocking(info))
  {
    if Intact(Blocking(info)) {
      forall first: seq<byte>, chunks: seq<seq<byte>>, rounds: nat
        ensures InfoAfter(info, first, chunks, rounds).received <= info.received + (first + Joined(chunks))
      {
        InfoReceivesPrefix(info, first, chunks, rounds);
      }
    } else {
      var chunks := HoleFound(Blocking(info));
      NoWarmUp(info, chunks, 0);
      assert !(InfoAfter(info, [], chunks, 0).received <= info.received + ([] + Joined(chunks)));
    }
  }

  lemma Regroup(a: seq<byte>, first: seq<byte>, n: nat, rest: seq<byte>)
    requires n <= |first|
    ensures a + first[0..n] + (first[n..] + rest) == a + (first + rest)
  {
  }

  /** All that is read arrives in the first buffer or in a chunk. */
  lemma EverythingIsRead(input: Source, size: nat, used: bool)
    requires size > 0
    ensures var (first, rest) := ReadAhead(input, size, used);
            var read := first + Joined(Chunks(rest, size));
            read <= input.rest && (Readable(input) ==> read == input.rest)
  {
    var (first, rest) := ReadAhead(input, size, used);
    var joined, left := Joined(Chunks(rest, size)), SourceAfter(rest, size).rest;
    ReadAheadConsumes(input, size, used);
    ChunksJoin(rest, size);
    AppendThree(first, joined, left);
    if Readable(input) {
      ReadsToTheEnd(rest, size);
    }
  }

  lemma AppendThree(a: seq<byte>, b: seq<byte>, c: seq<byte>)
    ensures a + (b + c) == a + b + c && a + b <= a + b + c
    ensures c == [] ==> a + b == a + b + c
  {
  }

  lemma ReadAheadConsumes(input: Source, size: nat, used: bool)
    ensures var (first, rest) := ReadAhead(input, size, used);
            input.rest == first + rest.rest && (Readable(input) ==> Readable(rest))
  {
    SafeReadConsumes(input, size);
    if Readable(input) {
      ReadableNeverFails(input, size);
    }
  }

  /** Both sinks and the stream together: whatever the stream's script, each sink that leaves no
      hole holds a prefix of the stream, and all of it if neither fails; no byte is lost,
      repeated or reordered, and neither sink depends on the other. */
  lemma StreamConservation(input: Source, core: Sink, info: Sink, size: nat, used: bool, rounds: nat)
    requires size > 0 && core.received == [] && info.received == []
    ensures var (first, rest) := ReadAhead(input, size, used);
            var chunks := Chunks(rest, size);
            var core', info' := Feed(FeedChunk(core, first), chunks), InfoAfter(info, first, chunks, rounds);
            && (Intact(core) ==> core'.received <= input.rest)
            && (Intact(Blocking(info)) ==> info'.received <= input.rest)
            && (Readable(input) && TakesAll(core) ==> core'.received == input.rest)
            && (Readable(input) && Flawless(info) ==> info'.received == input.rest)
  {
    var (first, rest) := ReadAhead(input, size, used);
    var chunks := Chunks(rest, size);
    var read := first + Joined(chunks);
    EverythingIsRead(input, size, used);
    assert core.received + read == read == info.received + read;
    if TakesAll(core) {
      TakesAllIsIntact(core);
    }
    if Intact(core) {
      PieceAndChunks(core, first, chunks);
    }
    if Flawless(info) {
      TakesAllIsIntact(Blocking(info));
    }
    if Intact(Blocking(info)) {
      InfoReceivesPrefix(info, first, chunks, rounds);
    }
  }
}
