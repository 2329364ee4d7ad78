/** What a complete filter chain does, and why closing it cannot block. */
module ChainProperties {
  import opened Basics
  import opened Processes
  import opened FilterChain

  // ---------- data ----------

  predicate IsReader(children: map<nat, Proc>, p: nat, pipe: nat) {
    p in children && 0 in children[p].fds && 1 in children[p].fds && children[p].fds[0].obj == PipeIn(pipe)
  }

  /** Where data written to o ends up, following at most `fuel` processes from the pipe they
      read to their standard output; `run` is what a command does to its input. */
  ghost function Flow(children: map<nat, Proc>, run: (string, seq<byte>) -> seq<byte>, o: Obj, data: seq<byte>,
                      fuel: nat): (Obj, seq<byte>)
    decreases fuel
  {
    if fuel > 0 && o.PipeOut? && exists p :: IsReader(children, p, o.id) then
      var p :| IsReader(children, p, o.id);
      Flow(children, run, children[p].fds[1].obj, run(children[p].cmd, data), fuel - 1)
    else (o, data)
  }

  /** The filters one after the other, in configuration order. */
  function Composition(run: (string, seq<byte>) -> seq<byte>, filters: seq<string>, data: seq<byte>): seq<byte> {
    if filters == [] then data else Composition(run, filters[1..], run(filters[0], data))
  }

  lemma OnlyReader(z: Sys, out: Obj, filters: seq<string>, x: nat, p: nat)
    requires ValidSys(z) && x < |filters|
    requires IsReader(Children(z, out, filters, |filters|), p, z.nextPipe + x)
    ensures p == z.nextPid + x
  {
    ChildAt(z, out, filters, |filters|, p);
  }

  /** Data written to the chain's first pipe goes through all the filters, in order, and ends
      at the output. */
  lemma {:induction false} ChainIsComposition(z: Sys, fd: nat, filters: seq<string>,
                                              run: (string, seq<byte>) -> seq<byte>, x: nat, data: seq<byte>, fuel: nat)
    requires ValidSys(z) && fd in z.table && !z.table[fd].obj.PipeOut? && filters != []
    requires x <= |filters| <= fuel + x
    ensures var o := if x == |filters| then z.table[fd].obj else PipeOut(z.nextPipe + x);
            Flow(Complete(z, fd, filters).children, run, o, data, fuel) ==
            (z.table[fd].obj, Composition(run, filters[x..], data))
    decreases fuel
  {
    var out := z.table[fd].obj;
    if x < |filters| {
      var c := Children(z, out, filters, |filters|);
      ChildAt(z, out, filters, |filters|, z.nextPid + x);
      assert IsReader(c, z.nextPid + x, z.nextPipe + x);
      var pipe := z.nextPipe + x;
      forall p | IsReader(c, p, pipe) ensures p == z.nextPid + x {
        OnlyReader(z, out, filters, x, p);
      }
      ChainIsComposition(z, fd, filters, run, x + 1, run(filters[x], data), fuel - 1);
      assert filters[x..][1..] == filters[x + 1..];
    }
  }

  // ---------- ends of pipes ----------

  /** The pipes of a chain: r.fd feeds the first filter, each filter reads its own pipe, and the
      write end of a pipe is held by nobody but the filter before it (or r.fd). */
  ghost predicate ChainUp(s: Sys, filter: seq<RunFilter>, fd: int, base: nat) {
    && fd in s.table
    && (forall x :: 0 <= x < |filter| ==> Reads(s, filter[x].pid, base + x))
    && (forall x :: 0 <= x < |filter| ==> SoleWriter(s, base + x, fd, filter[..x]))
    && (forall x, y :: 0 <= x < y < |filter| ==> filter[x].pid != filter[y].pid)
  }

  /** The write end of this pipe is held only by the last of the filters before it or, if there
      is none, by this process as fd. */
  ghost predicate SoleWriter(s: Sys, pipe: nat, fd: int, before: seq<RunFilter>) {
    && (forall f :: f in s.table && s.table[f].obj == PipeOut(pipe) ==> before == [] && f == fd)
    && (forall p :: p in s.children && TableHolds(s.children[p].fds, PipeOut(pipe)) ==>
          before != [] && p == before[|before| - 1].pid)
  }

  predicate Reads(s: Sys, pid: nat, pipe: nat) {
    pid in s.children && 0 in s.children[pid].fds && s.children[pid].fds[0].obj == PipeIn(pipe)
  }

  predicate IsPipe(o: Obj) {
    o.PipeIn? || o.PipeOut?
  }

  /** Which write ends of new pipes a filter of the chain holds. */
  lemma FilterHolds(z: Sys, out: Obj, filters: seq<string>, m: nat, pipe: nat)
    requires ValidSys(z) && m < |filters| && !IsPipe(out)
    ensures TableHolds(FilterProc(z, out, filters, m).fds, PipeOut(pipe)) ==>
              pipe == z.nextPipe + m + 1 && m + 1 < |filters|
  {
  }

  /** Which process has a write end, once the chain is built: one that was there before, or the
      filter before the pipe. */
  lemma ChildHolds(z: Sys, out: Obj, filters: seq<string>, p: nat, pipe: nat)
    requires ValidSys(z) && !IsPipe(out) && p in Children(z, out, filters, |filters|)
    ensures var c, m := Children(z, out, filters, |filters|), p - z.nextPid;
            TableHolds(c[p].fds, PipeOut(pipe)) ==>
              if 0 <= m < |filters| then m + 1 < |filters| && pipe == z.nextPipe + m + 1
              else p in z.children && c[p] == z.children[p]
  {
    ChildAt(z, out, filters, |filters|, p);
    if z.nextPid <= p < z.nextPid + |filters| {
      FilterHolds(z, out, filters, p - z.nextPid, pipe);
    }
  }

  /** The write ends of the pipe of filter x of a new chain. */
  lemma CompleteSoleWriter(z: Sys, fd: nat, filters: seq<string>, x: nat)
    requires ValidSys(z) && fd in z.table && !IsPipe(z.table[fd].obj) && x < |filters|
    ensures SoleWriter(Complete(z, fd, filters), z.nextPipe + x, z.nextFd + 1, RunFilters(z, filters, |filters|)[..x])
  {
    var s, n, out := Complete(z, fd, filters), |filters|, z.table[fd].obj;
    var before, pipe := RunFilters(z, filters, n)[..x], z.nextPipe + x;
    forall p | p in s.children && TableHolds(s.children[p].fds, PipeOut(pipe))
      ensures before != [] && p == before[|before| - 1].pid
    {
      ChildHolds(z, out, filters, p, pipe);
    }
  }

  /** Every new chain is wired like this. */
  lemma CompleteIsUp(z: Sys, fd: nat, filters: seq<string>)
    requires ValidSys(z) && fd in z.table && !IsPipe(z.table[fd].obj) && filters != []
    ensures ChainUp(Complete(z, fd, filters), RunFilters(z, filters, |filters|), z.nextFd + 1, z.nextPipe)
  {
    var s, n := Complete(z, fd, filters), |filters|;
    var r := RunFilters(z, filters, n);
    forall x | 0 <= x < n
      ensures Reads(s, r[x].pid, z.nextPipe + x) && SoleWriter(s, z.nextPipe + x, z.nextFd + 1, r[..x])
    {
      ChildAt(z, z.table[fd].obj, filters, n, z.nextPid + x);
      CompleteSoleWriter(z, fd, filters, x);
    }
  }

  /** Building a chain gives no process a write end of an older pipe. */
  lemma OldSoleWriter(z: Sys, fd: nat, filters: seq<string>, pipe: nat, other: int, before: seq<RunFilter>)
    requires ValidSys(z) && fd in z.table && !IsPipe(z.table[fd].obj) && filters != []
    requires pipe < z.nextPipe && SoleWriter(z, pipe, other, before)
    ensures SoleWriter(Complete(z, fd, filters), pipe, other, before)
  {
    var s, n, out := Complete(z, fd, filters), |filters|, z.table[fd].obj;
    forall p | p in s.children && TableHolds(s.children[p].fds, PipeOut(pipe))
      ensures before != [] && p == before[|before| - 1].pid
    {
      ChildHolds(z, out, filters, p, pipe);
    }
  }

  /** A chain that was up stays up when the chain of the other stream is built next to it: its
      descriptors are close-on-exec, so no new process inherits them. */
  lemma ChainSurvives(z: Sys, fd: nat, filters: seq<string>, other: seq<RunFilter>, otherFd: nat, base: nat)
    requires ValidSys(z) && fd in z.table && !IsPipe(z.table[fd].obj) && filters != []
    requires ChainUp(z, other, otherFd, base) && otherFd != fd && base + |other| <= z.nextPipe
    ensures ChainUp(Complete(z, fd, filters), other, otherFd, base)
  {
    var s, n, out := Complete(z, fd, filters), |filters|, z.table[fd].obj;
    forall x | 0 <= x < |other|
      ensures Reads(s, other[x].pid, base + x) && SoleWriter(s, base + x, otherFd, other[..x])
    {
      assert Reads(z, other[x].pid, base + x);
      ChildAt(z, out, filters, n, other[x].pid);
      OldSoleWriter(z, fd, filters, base + x, otherFd, other[..x]);
    }
  }

  // ---------- close_output() ----------

  function FirstPids(filter: seq<RunFilter>, n: nat): seq<nat>
    requires n <= |filter|
  {
    seq(n, x requires 0 <= x < n => filter[x].pid)
  }

  function PidSet(filter: seq<RunFilter>, n: nat): (s: set<nat>)
    requires n <= |filter|
    ensures forall x :: 0 <= x < n ==> filter[x].pid in s
    ensures forall p :: p in s ==> exists x :: 0 <= x < n && filter[x].pid == p
  {
    if n == 0 then {} else PidSet(filter, n - 1) + {filter[n - 1].pid}
  }

  /** s after its output was closed and the first n filters were waited for. */
  function Waited(s: Sys, fd: nat, filter: seq<RunFilter>, n: nat): Sys
    requires n <= |filter|
  {
    Close(s, fd).(children := s.children - PidSet(filter, n), reaped := s.reaped + FirstPids(filter, n))
  }

  /** Once the output is closed and the filters before it have ended, a filter reads EOF. */
  lemma NextFinishes(s: Sys, filter: seq<RunFilter>, fd: nat, base: nat, n: nat)
    requires ChainUp(s, filter, fd, base) && n < |filter|
    ensures Finishes(Waited(s, fd, filter, n), filter[n].pid)
  {
    var t := Waited(s, fd, filter, n);
    var pipe := base + n;
    assert Reads(s, filter[n].pid, pipe) && SoleWriter(s, pipe, fd, filter[..n]);
    forall p | p in t.children ensures !TableHolds(t.children[p].fds, PipeOut(pipe)) {
      if TableHolds(s.children[p].fds, PipeOut(pipe)) {
        assert false;
      }
    }
  }

  lemma WaitOne(s: Sys, fd: nat, filter: seq<RunFilter>, n: nat)
    requires n < |filter|
    ensures Reap(Waited(s, fd, filter, n), filter[n].pid) == Waited(s, fd, filter, n + 1)
  {
    assert s.children - PidSet(filter, n) - {filter[n].pid} == s.children - PidSet(filter, n + 1);
    assert FirstPids(filter, n) + [filter[n].pid] == FirstPids(filter, n + 1);
  }

  /** close_output(), with a chain that is up or without one: every wait comes back, each filter
      is waited for once, in order; a second call does nothing. */
  method CloseOutput(k: Machine, r: RunOutput, ghost base: nat)
    requires r.fd >= 0 && r.filter != [] ==> ChainUp(k.sys, r.filter, r.fd, base)
    modifies k, r
    ensures r.fd < 0
    ensures old(r.fd) < 0 ==> k.sys == old(k.sys)
    ensures old(r.fd) >= 0 ==> k.sys == Waited(old(k.sys), old(r.fd), old(r.filter), |old(r.filter)|)
  {
    if r.fd < 0 {
      return;
    }
    ghost var s, fd := k.sys, r.fd;
    k.CloseCall(r.fd);
    r.fd := -1;
    var n := 0;
    assert s.children - {} == s.children && s.reaped + [] == s.reaped && FirstPids(r.filter, 0) == [];
    while n < |r.filter|
      invariant n <= |r.filter| && r.filter == old(r.filter) && r.fd == -1
      invariant k.sys == Waited(s, fd, r.filter, n)
    {
      NextFinishes(s, r.filter, fd, base, n);
      k.WaitCall(r.filter[n].pid);
      WaitOne(s, fd, r.filter, n);
      n := n + 1;
    }
  }
}
