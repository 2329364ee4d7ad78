/** The filter part of open_output(), its error exits, and close_output(). */
module FilterChain {
  import opened Processes
  import opened ChainOutcomes

  /** struct run_multi_filter_s */
  datatype RunFilter = RunFilter(cmd: string, pid: nat)

  /** struct run_output_s */
  class RunOutput {
    var fd: int
    var filter: seq<RunFilter>

    constructor ()
      ensures fd == -1 && filter == []
    {
      fd, filter := -1, [];
    }
  }

  // ---------- what the loop has built before filter m ----------

  /** The m-th filter: its standard input is pipe number m of the chain, its standard output
      the next pipe or, for the last filter, the output. */
  function FilterProc(z: Sys, out: Obj, filters: seq<string>, m: nat): Proc
    requires m < |filters|
  {
    Proc(filters[m],
         Inherited(z.table)[0 := Entry(PipeIn(z.nextPipe + m), false)]
                           [1 := Entry(if m + 1 == |filters| then out else PipeOut(z.nextPipe + m + 1), false)])
  }

  function Children(z: Sys, out: Obj, filters: seq<string>, m: nat): map<nat, Proc>
    requires m <= |filters|
  {
    if m == 0 then z.children
    else Children(z, out, filters, m - 1)[z.nextPid + m - 1 := FilterProc(z, out, filters, m - 1)]
  }

  function RunFilters(z: Sys, filters: seq<string>, m: nat): seq<RunFilter>
    requires m <= |filters|
  {
    seq(m, x requires 0 <= x < m => RunFilter(filters[x], z.nextPid + x))
  }

  /** The system before filter m, if it was z when the output was open. */
  function Before(z: Sys, fd: nat, filters: seq<string>, m: nat): Sys
    requires m < |filters| && fd in z.table
  {
    z.(table := z.table[z.nextFd + 1 := Entry(PipeOut(z.nextPipe), true)]
                       [z.nextFd + 2 * m := Entry(PipeIn(z.nextPipe + m), true)],
       children := Children(z, z.table[fd].obj, filters, m),
       nextFd := z.nextFd + 2 * (m + 1), nextPipe := z.nextPipe + m + 1, nextPid := z.nextPid + m)
  }

  /** The system once the chain is complete. */
  function Complete(z: Sys, fd: nat, filters: seq<string>): Sys
    requires filters != [] && fd in z.table
  {
    var n := |filters|;
    z.(table := (z.table - {fd})[z.nextFd + 1 := Entry(PipeOut(z.nextPipe), true)],
       children := Children(z, z.table[fd].obj, filters, n),
       nextFd := z.nextFd + 2 * n, nextPipe := z.nextPipe + n, nextPid := z.nextPid + n)
  }

  lemma FirstPipe(z: Sys, fd: nat, filters: seq<string>)
    requires ValidSys(z) && fd in z.table && filters != []
    ensures Pipe(z) == Before(z, fd, filters, 0)
    ensures RunFilters(z, filters, 0) == []
  {
    assert Children(z, z.table[fd].obj, filters, 0) == z.children;
  }

  lemma NothingNewInherited(z: Sys, fd: nat, filters: seq<string>, m: nat)
    requires ValidSys(z) && fd in z.table && m < |filters|
    ensures Inherited(Before(z, fd, filters, m).table) == Inherited(z.table)
    ensures Inherited(Pipe(Before(z, fd, filters, m)).table) == Inherited(z.table)
  {
  }

  /** One round for a filter that is not the last: a pipe, the process, and two closes. */
  lemma MiddleFilter(z: Sys, fd: nat, filters: seq<string>, m: nat)
    requires ValidSys(z) && fd in z.table && m + 1 < |filters|
    ensures var s := Pipe(Before(z, fd, filters, m));
            var infd, outfd := z.nextFd + 2 * m, z.nextFd + 2 * m + 3;
            && infd in s.table && outfd in s.table
            && Close(Close(Spawn(s, filters[m], infd, outfd), infd), outfd) == Before(z, fd, filters, m + 1)
  {
    var s := Pipe(Before(z, fd, filters, m));
    var infd, outfd := z.nextFd + 2 * m, z.nextFd + 2 * m + 3;
    NothingNewInherited(z, fd, filters, m);
    var t := Spawn(s, filters[m], infd, outfd);
    assert t.children == Children(z, z.table[fd].obj, filters, m + 1);
    assert Close(Close(t, infd), outfd).table == Before(z, fd, filters, m + 1).table;
  }

  lemma LastFilter(z: Sys, fd: nat, filters: seq<string>)
    requires ValidSys(z) && fd in z.table && filters != []
    ensures var m := |filters| - 1;
            var s := Before(z, fd, filters, m);
            var infd := z.nextFd + 2 * m;
            infd in s.table && fd in s.table &&
            Close(Close(Spawn(s, filters[m], infd, fd), infd), fd) == Complete(z, fd, filters)
  {
    var m := |filters| - 1;
    var s := Before(z, fd, filters, m);
    var infd := z.nextFd + 2 * m;
    NothingNewInherited(z, fd, filters, m);
    var t := Spawn(s, filters[m], infd, fd);
    assert t.children == Children(z, z.table[fd].obj, filters, m + 1);
    assert Close(Close(t, infd), fd).table == Complete(z, fd, filters).table;
  }

  // ---------- error exits ----------

  function Pids(z: Sys, m: nat): set<nat> {
    if m == 0 then {} else Pids(z, m - 1) + {z.nextPid + m - 1}
  }

  function PidLog(z: Sys, m: nat): seq<nat> {
    if m == 0 then [] else PidLog(z, m - 1) + [z.nextPid + m - 1]
  }

  /** s after the first j children of the chain were killed and waited for. */
  function Unwound(z: Sys, s: Sys, j: nat): Sys {
    s.(children := s.children - Pids(z, j), killed := s.killed + Pids(z, j), reaped := s.reaped + PidLog(z, j))
  }

  lemma {:induction false} PidsAre(z: Sys, j: nat, p: nat)
    ensures p in Pids(z, j) <==> z.nextPid <= p < z.nextPid + j
  {
    if j > 0 {
      PidsAre(z, j - 1, p);
    }
  }

  lemma {:induction false} ChildAt(z: Sys, out: Obj, filters: seq<string>, m: nat, p: nat)
    requires m <= |filters|
    ensures var c := Children(z, out, filters, m);
            if z.nextPid <= p < z.nextPid + m then p in c && c[p] == FilterProc(z, out, filters, p - z.nextPid)
            else (p in c <==> p in z.children) && (p in c ==> c[p] == z.children[p])
  {
    if m > 0 {
      ChildAt(z, out, filters, m - 1, p);
    }
  }

  lemma AllChildrenGone(z: Sys, out: Obj, filters: seq<string>, m: nat)
    requires m <= |filters| && ValidSys(z)
    ensures Children(z, out, filters, m) - Pids(z, m) == z.children
  {
    var c := Children(z, out, filters, m);
    forall p
      ensures (p in c - Pids(z, m) <==> p in z.children) && (p in z.children ==> p in c && c[p] == z.children[p])
    {
      if p >= 0 {
        PidsAre(z, m, p);
        ChildAt(z, out, filters, m, p);
      }
    }
  }

  /** Descriptors that nobody closes: those of the filter that could not be started, unless it
      is the last one. */
  function Leak(z: Sys, n: nat, at: nat, piped: bool): Table {
    if piped && at + 1 < n then
      map[z.nextFd + 2 * at := Entry(PipeIn(z.nextPipe + at), true),
          z.nextFd + 2 * at + 3 := Entry(PipeOut(z.nextPipe + at + 1), true)]
    else map[]
  }

  /** The system when filter `at` fails, after its pipe was made (if it has one) or before. */
  function AtFailure(z: Sys, fd: nat, filters: seq<string>, at: nat, piped: bool): Sys
    requires at < |filters| && fd in z.table
  {
    if piped && at + 1 < |filters| then Pipe(Before(z, fd, filters, at)) else Before(z, fd, filters, at)
  }

  /** The system after the error exit, without the null device. */
  function AfterFailure(z: Sys, fd: nat, filters: seq<string>, at: nat, piped: bool): Sys
    requires at < |filters| && fd in z.table
  {
    var s := AtFailure(z, fd, filters, at, piped);
    s.(table := (z.table - {fd}) + Leak(z, |filters|, at, piped),
       children := z.children, killed := z.killed + Pids(z, at), reaped := z.reaped + PidLog(z, at))
  }

  /** The read end that the next filter would have got. */
  function NextIn(z: Sys, n: nat, at: nat, piped: bool): nat {
    if piped && at + 1 < n then z.nextFd + 2 * at + 2 else z.nextFd + 2 * at
  }

  lemma UnwindsTo(z: Sys, fd: nat, filters: seq<string>, at: nat, piped: bool)
    requires ValidSys(z) && fd in z.table && at < |filters|
    ensures var s := Unwound(z, AtFailure(z, fd, filters, at, piped), at);
            Close(Close(Close(s, z.nextFd + 1), NextIn(z, |filters|, at, piped)), fd) ==
            AfterFailure(z, fd, filters, at, piped)
  {
    var s := Unwound(z, AtFailure(z, fd, filters, at, piped), at);
    var next := NextIn(z, |filters|, at, piped);
    AllChildrenGone(z, z.table[fd].obj, filters, at);
    TableUnwinds(z, fd, filters, at, piped);
    CloseThree(s, z.nextFd + 1, next, fd);
  }

  lemma CloseThree(s: Sys, a: nat, b: nat, c: nat)
    requires a in s.table && b in s.table && c in s.table && a != b && b != c && a != c
    ensures Close(Close(Close(s, a), b), c) == s.(table := s.table - {a, b, c})
  {
    assert s.table - {a} - {b} - {c} == s.table - {a, b, c};
  }

  /** What the tables before and after the error exit have in common. */
  ghost predicate DropsTo(t: Table, w: nat, next: nat, fd: nat, left: Table) {
    && w in t && next in t && fd in t && next != fd && fd != w && next != w
    && t - {w, next, fd} == left
  }

  lemma TableUnwinds(z: Sys, fd: nat, filters: seq<string>, at: nat, piped: bool)
    requires ValidSys(z) && fd in z.table && at < |filters|
    ensures DropsTo(AtFailure(z, fd, filters, at, piped).table, z.nextFd + 1, NextIn(z, |filters|, at, piped), fd,
                    (z.table - {fd}) + Leak(z, |filters|, at, piped))
  {
    TableUnwindsTo(z.table, z.nextFd, z.nextPipe, fd, at, piped && at + 1 < |filters|);
  }

  /** The same, on the tables alone. */
  lemma TableUnwindsTo(t: Table, n: nat, p: nat, fd: nat, at: nat, extra: bool)
    requires fd in t && forall f :: f in t ==> f < n
    ensures var w, i := n + 1, n + 2 * at;
            var b := t[w := Entry(PipeOut(p), true)][i := Entry(PipeIn(p + at), true)];
            if extra then
              DropsTo(b[i + 2 := Entry(PipeIn(p + at + 1), true)][i + 3 := Entry(PipeOut(p + at + 1), true)],
                      w, i + 2, fd,
                      (t - {fd}) + map[i := Entry(PipeIn(p + at), true), i + 3 := Entry(PipeOut(p + at + 1), true)])
            else DropsTo(b, w, i, fd, (t - {fd}) + map[])
  {
    var w, i := n + 1, n + 2 * at;
    DropFour(t, fd, w, Entry(PipeOut(p), true), i, Entry(PipeIn(p + at), true), i + 2, Entry(PipeIn(p + at + 1), true),
             i + 3, Entry(PipeOut(p + at + 1), true));
    DropTwo(t, fd, w, Entry(PipeOut(p), true), i, Entry(PipeIn(p + at), true));
  }

  lemma DropTwo(t: Table, fd: nat, w: nat, we: Entry, i: nat, ie: Entry)
    requires fd in t && w !in t && i !in t && w != i
    ensures DropsTo(t[w := we][i := ie], w, i, fd, (t - {fd}) + map[])
  {
  }

  lemma DropFour(t: Table, fd: nat, w: nat, we: Entry, i: nat, ie: Entry, j: nat, je: Entry, o: nat, oe: Entry)
    requires fd in t && w !in t && i !in t && j !in t && o !in t
    requires w != i && w != j && w != o && i != j && i != o && j != o
    ensures DropsTo(t[w := we][i := ie][j := je][o := oe], w, j, fd, (t - {fd}) + map[i := ie, o := oe])
  {
  }

  /** "err1": kills and waits for every filter that runs. */
  method KillAll(k: Machine, r: RunOutput, ghost z: Sys, ghost s: Sys, ghost m: nat,
        ghost filters: seq<string>, ghost out: Obj)
    requires m <= |filters| && r.filter == RunFilters(z, filters, m)
    requires k.sys == s && s.children == Children(z, out, filters, m)
    modifies k`sys, r
    ensures r.filter == [] && r.fd == old(r.fd)
    ensures k.sys == Unwound(z, s, m)
  {
    ghost var j := 0;
    assert s.children - {} == s.children && s.killed + {} == s.killed && s.reaped + [] == s.reaped;
    while r.filter != []
      invariant j <= m && r.filter == RunFilters(z, filters, m)[j..] && r.fd == old(r.fd)
      invariant k.sys == Unwound(z, s, j)
      decreases |r.filter|
    {
      var tmp := r.filter[0];
      r.filter := r.filter[1..];
      ChildAt(z, out, filters, m, tmp.pid);
      PidsAre(z, j, tmp.pid);
      k.KillCall(tmp.pid);
      k.WaitCall(tmp.pid);
      UnwindOne(z, s, j);
      j := j + 1;
    }
  }

  lemma UnwindOne(z: Sys, s: Sys, j: nat)
    ensures Reap(Kill(Unwound(z, s, j), z.nextPid + j), z.nextPid + j) == Unwound(z, s, j + 1)
  {
    assert s.children - Pids(z, j) - {z.nextPid + j} == s.children - Pids(z, j + 1);
    assert s.killed + Pids(z, j) + {z.nextPid + j} == s.killed + Pids(z, j + 1);
    assert s.reaped + PidLog(z, j) + [z.nextPid + j] == s.reaped + PidLog(z, j + 1);
  }

  lemma OneMoreFilter(z: Sys, filters: seq<string>, m: nat)
    requires m < |filters|
    ensures RunFilters(z, filters, m) + [RunFilter(filters[m], z.nextPid + m)] == RunFilters(z, filters, m + 1)
  {
  }

  // ---------- open_output() ----------

  /** The number of the first call that is made for filter m. */
  function FirstCall(m: nat): nat {
    1 + 3 * m
  }

  /** The construction has come to filter m without a failing call. */
  ghost predicate NoFaultYet(all: seq<bool>, left: seq<bool>, c: nat) {
    NoneBefore(all, c) && left == Dropped(all, c)
  }

  /** Call number c is the first that fails, for filter m of n. */
  ghost predicate FailsAt(all: seq<bool>, left: seq<bool>, c: nat, n: nat, m: nat, piped: bool) {
    && FaultAt(all, c) && NoneBefore(all, c) && left == Dropped(all, c + 1)
    && FirstCall(m) <= c < 3 * n && FilterOf(c) == m && (piped <==> m + 1 == n || c % 3 != 1)
  }

  /** The memory and the process of a filter, from call number c on; its ends of the pipes are
      closed here. */
  method StartProcess(k: Machine, r: RunOutput, cmd: string, infd: nat, outfd: nat, ghost all: seq<bool>, ghost c: nat)
    returns (ok: bool, ghost f: nat)
    requires infd in k.sys.table && outfd in k.sys.table && NoFaultYet(all, k.faults, c)
    modifies k, r
    ensures r.fd == old(r.fd)
    ensures ok ==> k.sys == Close(Close(Spawn(old(k.sys), cmd, infd, outfd), infd), outfd)
    ensures ok ==> r.filter == old(r.filter) + [RunFilter(cmd, old(k.sys).nextPid)]
    ensures ok ==> NoFaultYet(all, k.faults, c + 2)
    ensures !ok ==> k.sys == old(k.sys) && r.filter == old(r.filter)
    ensures !ok ==> c <= f <= c + 1 && FaultAt(all, f) && NoneBefore(all, f) && k.faults == Dropped(all, f + 1)
  {
    AfterOneCall(all, c);
    AfterOneCall(all, c + 1);
    f := c;
    var room := k.MallocCall();
    if !room {
      return false, f;
    }
    f := c + 1;
    var pid := k.SpawnCall(cmd, infd, outfd);
    if pid < 0 {
      return false, f;
    }
    k.CloseCall(infd);
    k.CloseCall(outfd);
    r.filter := r.filter + [RunFilter(cmd, pid)];
    ok := true;
  }

  /** The first m filters run, and no call has failed. */
  ghost predicate Going(z: Sys, fd: nat, filters: seq<string>, all: seq<bool>, s: Sys, filter: seq<RunFilter>,
                        left: seq<bool>, next: nat, m: nat)
    requires fd in z.table && 0 < |filters| && m <= |filters|
  {
    && filter == RunFilters(z, filters, m)
    && (m < |filters| ==> s == Before(z, fd, filters, m) && next == z.nextFd + 2 * m)
    && (m < |filters| ==> NoFaultYet(all, left, FirstCall(m)))
    && (m == |filters| ==> s == Complete(z, fd, filters) && NoFaultYet(all, left, 3 * m))
  }

  /** Filter m could not be started; call number c was the first that failed. */
  ghost predicate Stopped(z: Sys, fd: nat, filters: seq<string>, all: seq<bool>, s: Sys, filter: seq<RunFilter>,
                          left: seq<bool>, next: nat, m: nat, piped: bool, c: nat)
    requires fd in z.table && m < |filters|
  {
    && filter == RunFilters(z, filters, m)
    && s == AtFailure(z, fd, filters, m, piped) && next == NextIn(z, |filters|, m, piped)
    && FailsAt(all, left, c, |filters|, m, piped)
  }

  lemma PipeRound(z: Sys, fd: nat, filters: seq<string>, all: seq<bool>, m: nat)
    requires fd in z.table && m + 1 < |filters| && NoneBefore(all, FirstCall(m))
    ensures var left := Dropped(all, FirstCall(m));
            if Next(left) then
              Stopped(z, fd, filters, all, Before(z, fd, filters, m), RunFilters(z, filters, m), Later(left),
                      z.nextFd + 2 * m, m, false, FirstCall(m))
            else NoFaultYet(all, Later(left), FirstCall(m) + 1)
  {
    AfterOneCall(all, FirstCall(m));
  }

  /** A filter with its pipes that gets no memory, or no process. */
  lemma ProcessFails(z: Sys, fd: nat, filters: seq<string>, all: seq<bool>, m: nat, c: nat)
    requires fd in z.table && m < |filters| && NoneBefore(all, c) && FaultAt(all, c)
    requires var c0 := FirstCall(m) + (if m + 1 < |filters| then 1 else 0); c0 <= c <= c0 + 1
    ensures Stopped(z, fd, filters, all, AtFailure(z, fd, filters, m, true), RunFilters(z, filters, m),
                    Dropped(all, c + 1), NextIn(z, |filters|, m, true), m, true, c)
  {
  }

  lemma ProcessRuns(z: Sys, fd: nat, filters: seq<string>, all: seq<bool>, m: nat, c: nat, s: Sys, outfd: nat)
    requires ValidSys(z) && fd in z.table && m < |filters| && NoneBefore(all, c + 2)
    requires c == FirstCall(m) + (if m + 1 < |filters| then 1 else 0)
    requires s == AtFailure(z, fd, filters, m, true)
    requires outfd == if m + 1 < |filters| then z.nextFd + 2 * m + 3 else fd
    ensures var infd := z.nextFd + 2 * m;
            && infd in s.table && outfd in s.table
            && Going(z, fd, filters, all, Close(Close(Spawn(s, filters[m], infd, outfd), infd), outfd),
                     RunFilters(z, filters, m) + [RunFilter(filters[m], s.nextPid)], Dropped(all, c + 2),
                     NextIn(z, |filters|, m, true), m + 1)
  {
    OneMoreFilter(z, filters, m);
    if m + 1 < |filters| {
      MiddleFilter(z, fd, filters, m);
    } else {
      LastFilter(z, fd, filters);
    }
  }

  lemma EndsOpen(z: Sys, fd: nat, filters: seq<string>, m: nat)
    requires ValidSys(z) && fd in z.table && m < |filters|
    ensures var s := AtFailure(z, fd, filters, m, true);
            z.nextFd + 2 * m in s.table && (if m + 1 < |filters| then z.nextFd + 2 * m + 3 else fd) in s.table
  {
  }

  /** One round of the loop over the filters. */
  method StartFilter(k: Machine, r: RunOutput, filters: seq<string>, m: nat, nextIn: nat, fd: nat, ghost z: Sys,
                     ghost all: seq<bool>)
    returns (ok: bool, next: nat, ghost piped: bool, ghost c: nat)
    requires ValidSys(z) && fd in z.table && m < |filters|
    requires Going(z, fd, filters, all, k.sys, r.filter, k.faults, nextIn, m)
    modifies k, r
    ensures r.fd == old(r.fd)
    ensures ok ==> Going(z, fd, filters, all, k.sys, r.filter, k.faults, next, m + 1)
    ensures !ok ==> Stopped(z, fd, filters, all, k.sys, r.filter, k.faults, next, m, piped, c)
  {
    var outfd := fd;
    next, piped, c := nextIn, false, FirstCall(m);
    if m + 1 < |filters| {
      PipeRound(z, fd, filters, all, m);
      var made, p0, p1 := k.PipeCall();
      if !made {
        return false, next, piped, c;
      }
      outfd, next := p1, p0;
      c := c + 1;
    }
    EndsOpen(z, fd, filters, m);
    ghost var s, c0 := k.sys, c;
    ok, c := StartProcess(k, r, filters[m], nextIn, outfd, all, c);
    piped := true;
    if ok {
      ProcessRuns(z, fd, filters, all, m, c0, s, outfd);
    } else {
      ProcessFails(z, fd, filters, all, m, c);
    }
  }

  /** "err1" and "err0": what is left behind is the null device, or nothing. */
  method ErrorExit(k: Machine, r: RunOutput, filters: seq<string>, nextIn: nat, fd: nat, ghost z: Sys,
        ghost at: nat, ghost piped: bool)
    requires ValidSys(z) && fd in z.table && at < |filters|
    requires k.sys == AtFailure(z, fd, filters, at, piped) && nextIn == NextIn(z, |filters|, at, piped)
    requires r.filter == RunFilters(z, filters, at) && r.fd == z.nextFd + 1
    modifies k, r
    ensures r.filter == []
    ensures (k.sys, r.fd, k.faults) == NullDevice(AfterFailure(z, fd, filters, at, piped), old(k.faults))
  {
    UnwindsTo(z, fd, filters, at, piped);
    KillAll(k, r, z, k.sys, at, filters, z.table[fd].obj);
    k.CloseCall(r.fd);
    k.CloseCall(nextIn);
    k.CloseCall(fd);
    r.fd := k.OpenDevNull();
  }

  /** What the filter part of open_output() leaves behind, for an output that is open as fd: the
      system, the descriptor of the output, its filters and the faults that are left, as the
      calls that fail decide. */
  function SetupResult(z: Sys, faults: seq<bool>, fd: nat, filters: seq<string>): (Sys, int, seq<RunFilter>, seq<bool>)
    requires fd in z.table
  {
    var n := |filters|;
    if n == 0 then (z, fd, [], faults)
    else
      match OutcomeOf(faults, n)
      case Built => (Complete(z, fd, filters), z.nextFd + 1, RunFilters(z, filters, n), Dropped(faults, 3 * n))
      case NoPipe => (Close(z, fd), fd, [], Dropped(faults, 1))
      case FailedAt(at, piped) =>
        OutcomeIff(faults, n);
        var (s, out, left) :=
          NullDevice(AfterFailure(z, fd, filters, at, piped), Dropped(faults, FirstFault(faults, n, 0) + 1));
        (s, out, [], left)
  }

  lemma FailureIs(z: Sys, all: seq<bool>, fd: nat, filters: seq<string>, at: nat, piped: bool, c: nat)
    requires fd in z.table && at < |filters| && FailsAt(all, Dropped(all, c + 1), c, |filters|, at, piped)
    ensures var (s, out, left) := NullDevice(AfterFailure(z, fd, filters, at, piped), Dropped(all, c + 1));
            SetupResult(z, all, fd, filters) == (s, out, [], left)
    ensures !NoneBefore(all, 3 * |filters|)
  {
    FirstFaultIs(all, |filters|, c);
  }

  /** One filter, or the error exit. */
  method StartOrUnwind(k: Machine, r: RunOutput, filters: seq<string>, m: nat, nextIn: nat, fd: nat, ghost z: Sys,
                       ghost all: seq<bool>)
    returns (ok: bool, next: nat)
    requires ValidSys(z) && fd in z.table && m < |filters| && r.fd == z.nextFd + 1
    requires Going(z, fd, filters, all, k.sys, r.filter, k.faults, nextIn, m)
    modifies k, r
    ensures ok ==> r.fd == old(r.fd) && Going(z, fd, filters, all, k.sys, r.filter, k.faults, next, m + 1)
    ensures !ok ==> !NoneBefore(all, 3 * |filters|)
    ensures !ok ==> (k.sys, r.fd, r.filter, k.faults) == SetupResult(z, all, fd, filters)
  {
    ghost var piped, c;
    ok, next, piped, c := StartFilter(k, r, filters, m, nextIn, fd, z, all);
    if !ok {
      FailureIs(z, all, fd, filters, m, piped, c);
      ErrorExit(k, r, filters, next, fd, z, m, piped);
    }
  }

  lemma SuccessIs(z: Sys, all: seq<bool>, fd: nat, filters: seq<string>, s: Sys, filter: seq<RunFilter>,
                  left: seq<bool>, next: nat)
    requires fd in z.table && filters != [] && Going(z, fd, filters, all, s, filter, left, next, |filters|)
    ensures SetupResult(z, all, fd, filters) == (s, z.nextFd + 1, filter, left)
    ensures NoneBefore(all, 3 * |filters|)
  {
    OutcomeIff(all, |filters|);
  }

  /** The loop over the filters, behind the first pipe. */
  method StartFilters(k: Machine, r: RunOutput, filters: seq<string>, nextIn: nat, fd: nat, ghost z: Sys,
                      ghost all: seq<bool>)
    returns (ok: bool)
    requires ValidSys(z) && fd in z.table && filters != [] && r.fd == z.nextFd + 1
    requires Going(z, fd, filters, all, k.sys, r.filter, k.faults, nextIn, 0)
    modifies k, r
    ensures ok <==> NoneBefore(all, 3 * |filters|)
    ensures (k.sys, r.fd, r.filter, k.faults) == SetupResult(z, all, fd, filters)
  {
    var m, next := 0, nextIn;
    while m < |filters|
      invariant m <= |filters| && r.fd == z.nextFd + 1
      invariant Going(z, fd, filters, all, k.sys, r.filter, k.faults, next, m)
    {
      ok, next := StartOrUnwind(k, r, filters, m, next, fd, z, all);
      if !ok {
        return;
      }
      m := m + 1;
    }
    SuccessIs(z, all, fd, filters, k.sys, r.filter, k.faults, next);
    ok := true;
  }

  lemma NoPipeIs(z: Sys, all: seq<bool>, fd: nat, filters: seq<string>)
    requires fd in z.table && filters != [] && Next(all)
    ensures SetupResult(z, all, fd, filters) == (Close(z, fd), fd, [], Later(all))
    ensures !NoneBefore(all, 3 * |filters|)
  {
    OutcomeIff(all, |filters|);
    assert FaultAt(all, 0);
  }

  lemma FirstPipeMade(z: Sys, all: seq<bool>, fd: nat, filters: seq<string>)
    requires ValidSys(z) && fd in z.table && filters != [] && !Next(all)
    ensures Going(z, fd, filters, all, Pipe(z), [], Later(all), z.nextFd, 0)
  {
    FirstPipe(z, fd, filters);
    assert all == Dropped(all, 0);
    AfterOneCall(all, 0);
  }

  /** The filter part of open_output(), for an output that is open as fd. It succeeds exactly if
      none of its calls fails; otherwise the first call that fails decides what is left. */
  method SetupFilters(k: Machine, r: RunOutput, filters: seq<string>, fd: nat) returns (ok: bool)
    requires ValidSys(k.sys) && fd in k.sys.table
    modifies k, r
    ensures ok <==> NoneBefore(old(k.faults), 3 * |filters|)
    ensures (k.sys, r.fd, r.filter, k.faults) == SetupResult(old(k.sys), old(k.faults), fd, filters)
  {
    ghost var z, all := k.sys, k.faults;
    r.filter, r.fd := [], fd;
    if filters == [] {
      return true;
    }
    var made, nextIn, first := k.PipeCall();
    if !made {
      NoPipeIs(z, all, fd, filters);
      k.CloseCall(fd);
      return false;
    }
    FirstPipeMade(z, all, fd, filters);
    r.fd := first;
    ok := StartFilters(k, r, filters, nextIn, fd, z, all);
  }
}
