/** How far the warm-up comes, and why it ends; how the stream is cut into buffers. */
module WarmUpProperties {
  import opened Basics
  import opened Channels
  import opened ChannelCounts
  import opened Feeding
  import opened Duplication

  // ---------- one write after the other ----------

  /** The pipe and the number of bytes sent, after k writes of all that is left of the data. */
  function AfterWrites(info: Sink, data: seq<byte>, k: nat): (r: (Sink, nat))
    ensures r.1 <= |data|
  {
    if k == 0 then (info, 0)
    else
      var (s, n) := AfterWrites(info, data, k - 1);
      var (s', r) := SafeWriteResult(s, data[n..]);
      (s', n + Bytes(r))
  }

  /** What write number k returns. */
  function Return(info: Sink, data: seq<byte>, k: nat): Rtn
    requires k > 0
  {
    var (s, n) := AfterWrites(info, data, k - 1);
    SafeWriteResult(s, data[n..]).1
  }

  /** Write number k met an error other than a full pipe. */
  predicate Refused(info: Sink, data: seq<byte>, k: nat)
    requires k > 0
  {
    Return(info, data, k).Fail? && Return(info, data, k) != Fail(EAGAIN)
  }

  /** Fifty writes in a row, up to number k, met a full pipe and sent nothing. */
  predicate FiftyFull(info: Sink, data: seq<byte>, k: nat) {
    k >= 50 && forall j :: k - 50 < j <= k ==> Return(info, data, j) == Fail(EAGAIN)
  }

  /** The last t writes met a full pipe, and the one before them did not. */
  predicate FullSince(info: Sink, data: seq<byte>, k: nat, t: nat) {
    && t <= k && (forall j :: k - t < j <= k ==> Return(info, data, j) == Fail(EAGAIN))
    && (t < k ==> Return(info, data, k - t) != Fail(EAGAIN))
    && (AfterWrites(info, data, k).1 == |data| ==> t == 0)
  }

  lemma NotYetFifty(info: Sink, data: seq<byte>, k: nat, t: nat)
    requires FullSince(info, data, k, t)
    ensures FiftyFull(info, data, k) <==> t >= 50
  {
    if t < 50 <= k {
      assert Return(info, data, k - t) != Fail(EAGAIN);
    }
  }

  /** What one more write means for the number of fruitless tries. */
  lemma TriesAfter(info: Sink, data: seq<byte>, k: nat, t: nat)
    requires FullSince(info, data, k, t)
    ensures var r := Return(info, data, k + 1);
            && (r == Fail(EAGAIN) ==> FullSince(info, data, k + 1, t + 1))
            && (r.Count? ==> FullSince(info, data, k + 1, 0))
            && (r.Count? && r.n == 0 ==> t == 0)
  {
    var (s, n) := AfterWrites(info, data, k);
    if n < |data| && Return(info, data, k + 1).Count? {
      SomethingWritten(s, data[n..]);
    }
    if Return(info, data, k + 1) == Fail(EAGAIN) {
      NotFullYet(s, data[n..]);
    }
  }

  lemma NotFullYet(s: Sink, bytes: seq<byte>)
    requires SafeWriteResult(s, bytes).1.Fail?
    ensures bytes != []
  {
    SafeWriteCounts(s, bytes);
  }

  lemma OneMoreWrite(info: Sink, data: seq<byte>, k: nat, t: nat)
    requires FullSince(info, data, k, t)
    ensures var (s, n) := AfterWrites(info, data, k);
            var (s', n', t', failed) := WarmRound(s, data, n, t);
            && (s', n') == AfterWrites(info, data, k + 1)
            && (failed <==> Refused(info, data, k + 1))
            && (!failed ==> FullSince(info, data, k + 1, t'))
  {
    TriesAfter(info, data, k, t);
  }

  lemma SomethingWritten(s: Sink, bytes: seq<byte>)
    requires bytes != [] && SafeWriteResult(s, bytes).1.Count?
    ensures Bytes(SafeWriteResult(s, bytes).1) > 0
  {
    SafeWriteCounts(s, bytes);
  }

  lemma WarmUpStep(s: Sink, data: seq<byte>, n: nat, t: nat, rounds: nat)
    requires n <= |data| && t < 50
    ensures var (s', n', t', failed) := WarmRound(s, data, n, t);
            && (rounds == 0 || failed || t' >= 50 ==> WarmUp(s, data, n, t, rounds) == (s', n'))
            && (rounds > 0 && !failed ==> WarmUp(s, data, n, t, rounds) == WarmUp(s', data, n', t', rounds - 1))
  {
  }

  /** Write number w ends the loop, and none between k and w does. */
  predicate EndsAt(info: Sink, data: seq<byte>, k: nat, w: nat, last: nat) {
    && k < w <= last && (w < last ==> Refused(info, data, w) || FiftyFull(info, data, w))
    && forall j :: k < j < w ==> !Refused(info, data, j) && !FiftyFull(info, data, j)
  }

  lemma EndsLater(info: Sink, data: seq<byte>, k: nat, w: nat, last: nat)
    requires !Refused(info, data, k + 1) && !FiftyFull(info, data, k + 1) && EndsAt(info, data, k + 1, w, last)
    ensures EndsAt(info, data, k, w, last)
  {
  }

  /** What the loop comes to in the end, from behind write number k on. */
  predicate Leads(info: Sink, data: seq<byte>, k: nat, t: nat, rounds: nat, end: (Sink, nat)) {
    var (s, n) := AfterWrites(info, data, k);
    WarmUp(s, data, n, t, rounds) == end
  }

  lemma LastWrite(info: Sink, data: seq<byte>, k: nat, t: nat, rounds: nat, end: (Sink, nat))
    requires FullSince(info, data, k, t) && t < 50 && Leads(info, data, k, t, rounds, end)
    requires rounds == 0 || Refused(info, data, k + 1) || FiftyFull(info, data, k + 1)
    ensures EndsAt(info, data, k, k + 1, k + 1 + rounds) && end == AfterWrites(info, data, k + 1)
  {
    var (s, n) := AfterWrites(info, data, k);
    OneMoreWrite(info, data, k, t);
    WarmUpStep(s, data, n, t, rounds);
    if !Refused(info, data, k + 1) {
      NotYetFifty(info, data, k + 1, WarmRound(s, data, n, t).2);
    }
  }

  lemma NextWrite(info: Sink, data: seq<byte>, k: nat, t: nat, rounds: nat, end: (Sink, nat)) returns (t': nat)
    requires FullSince(info, data, k, t) && t < 50 && rounds > 0 && Leads(info, data, k, t, rounds, end)
    requires !Refused(info, data, k + 1) && !FiftyFull(info, data, k + 1)
    ensures FullSince(info, data, k + 1, t') && t' < 50 && true == Leads(info, data, k + 1, t', rounds - 1, end)
  {
    var (s, n) := AfterWrites(info, data, k);
    OneMoreWrite(info, data, k, t);
    WarmUpStep(s, data, n, t, rounds);
    t' := WarmRound(s, data, n, t).2;
    NotYetFifty(info, data, k + 1, t');
  }

  lemma {:induction false} WarmUpStopsFrom(info: Sink, data: seq<byte>, k: nat, t: nat, rounds: nat, end: (Sink, nat))
    returns (w: nat)
    requires FullSince(info, data, k, t) && t < 50 && true == Leads(info, data, k, t, rounds, end)
    ensures EndsAt(info, data, k, w, k + 1 + rounds) && end == AfterWrites(info, data, w)
    decreases rounds
  {
    if rounds == 0 || Refused(info, data, k + 1) || FiftyFull(info, data, k + 1) {
      LastWrite(info, data, k, t, rounds, end);
      w := k + 1;
    } else {
      var t' := NextWrite(info, data, k, t, rounds, end);
      w := WarmUpStopsFrom(info, data, k + 1, t', rounds - 1, end);
      EndsLater(info, data, k, w, k + 1 + rounds);
    }
  }

  /** The warm-up makes one write after the other. It makes at least one, and ends when the process
      is found (behind write number rounds + 1), or before that exactly behind the first write
      that meets an error other than a full pipe, or the fiftieth full pipe in a row. */
  lemma WarmUpStops(info: Sink, data: seq<byte>, rounds: nat) returns (w: nat)
    requires data != []
    ensures 1 <= w <= rounds + 1 && Warm(info, data, rounds) == AfterWrites(info, data, w)
    ensures w <= rounds ==> Refused(info, data, w) || FiftyFull(info, data, w)
    ensures forall j :: 0 < j < w ==> !Refused(info, data, j) && !FiftyFull(info, data, j)
  {
    w := WarmUpStopsFrom(info, data, 0, 0, rounds, Warm(info, data, rounds));
  }

  /** If something is left unsent, the last write met an error or a full pipe. */
  lemma UnsentIffStopped(info: Sink, data: seq<byte>, k: nat)
    requires k > 0
    ensures var (s, n) := AfterWrites(info, data, k - 1);
            var f := FirstStop(s.script, s.nonblocking);
            AfterWrites(info, data, k).1 < |data| <==>
              n < |data| &&
              (s.broken || (f < |s.script| && !Waits(s.script[..f]) && Taken(s.script[..f]) < |data| - n))
  {
    var (s, n) := AfterWrites(info, data, k - 1);
    SafeWriteCounts(s, data[n..]);
  }

  lemma {:induction false} AllSent(info: Sink, data: seq<byte>, k: nat)
    requires TakesAll(info) && k > 0
    ensures var (s, n) := AfterWrites(info, data, k); TakesAll(s) && n == |data| && s.received == info.received + data
  {
    var (s, n) := AfterWrites(info, data, k - 1);
    if k > 1 {
      AllSent(info, data, k - 1);
    }
    SafeWriteTakesAll(s, data[n..]);
    SafeWriteDelivers(s, data[n..]);
    assert data[n..][..|data| - n] == data[n..];
    assert s.received + data[n..] == info.received + data;
  }

  /** A pipe without errors that is never full has received the whole first buffer when the
      warm-up ends, whenever that is. */
  lemma WarmUpSendsAll(info: Sink, data: seq<byte>, rounds: nat)
    requires TakesAll(info)
    ensures var (s, n) := Warm(info, data, rounds); n == |data| && s.received == info.received + data
  {
    if data == [] {
      assert info.received + data == info.received;
    } else {
      var w := WarmUpStops(info, data, rounds);
      AllSent(info, data, w);
    }
  }

  // ---------- the buffers ----------

  /** The first buffer is as full as the stream allows, unless reading it ahead is not asked for. */
  lemma FirstBufferIsFull(input: Source, size: nat, used: bool)
    ensures var (first, rest) := ReadAhead(input, size, used);
            && first <= input.rest
            && |first| == (if !used || ReadFails(input) then 0 else ReadCount(input, size))
            && (used && Readable(input) ==> |first| == Min(size, |input.rest|))
  {
    SafeReadCounts(input, size);
    if Readable(input) {
      ReadableReadsAll(input, size);
    }
  }

  /** No buffer is empty, and all but the last are full. */
  predicate FullBuffers(c: seq<seq<byte>>, size: nat) {
    c == [] || (0 < |c[0]| <= size && (|c| > 1 ==> |c[0]| == size) && FullBuffers(c[1..], size))
  }

  lemma {:induction false} FullBuffersAt(c: seq<seq<byte>>, size: nat, k: nat)
    requires FullBuffers(c, size) && k < |c|
    ensures 0 < |c[k]| <= size && (k < |c| - 1 ==> |c[k]| == size)
  {
    if k > 0 {
      FullBuffersAt(c[1..], size, k - 1);
    }
  }

  /** Without read errors every buffer but the last is full, and none is empty. */
  lemma {:induction false} BuffersAreFull(s: Source, size: nat)
    requires Readable(s) && size > 0
    ensures FullBuffers(Chunks(s, size), size)
    decreases |s.rest|
  {
    var (s', r) := SafeReadResult(s, size);
    ReadableReadsAll(s, size);
    ReadableNeverFails(s, size);
    if Bytes(r) > 0 {
      BuffersAreFull(s', size);
      assert Chunks(s, size)[1..] == Chunks(s', size);
      if Bytes(r) < size {
        ReadableReadsAll(s', size);
        assert Chunks(s', size) == [];
      }
    }
  }
}
