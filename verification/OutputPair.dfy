/** The two outputs of main(): the info output is opened first and closed last, the core output
    in between, whatever fails on the way. */
module OutputPair {
  import opened Processes
  import opened ChainOutcomes
  import opened FilterChain
  import opened ChainProperties

  // ---------- what does not disturb a chain ----------

  /** From s to t, nobody gains a write end of this chain's pipes, and its processes and its
      descriptor stay. */
  ghost predicate Spares(s: Sys, t: Sys, filter: seq<RunFilter>, fd: int, base: nat) {
    && fd in t.table
    && (forall f :: f in t.table && t.table[f].obj.PipeOut? && base <= t.table[f].obj.id < base + |filter| ==>
          f in s.table && s.table[f].obj == t.table[f].obj)
    && (forall x :: 0 <= x < |filter| && filter[x].pid in s.children ==>
          filter[x].pid in t.children && t.children[filter[x].pid] == s.children[filter[x].pid])
    && (forall p :: p in t.children ==>
          (p in s.children && t.children[p] == s.children[p]) || NewProcess(t.children[p].fds, base, base + |filter|))
  }

  predicate NewProcess(t: Table, from: nat, to: nat) {
    forall f :: f in t && t[f].obj.PipeOut? ==> !(from <= t[f].obj.id < to)
  }

  lemma SparedStaysUp(s: Sys, t: Sys, filter: seq<RunFilter>, fd: int, base: nat)
    requires ChainUp(s, filter, fd, base) && Spares(s, t, filter, fd, base)
    ensures ChainUp(t, filter, fd, base)
  {
    forall x | 0 <= x < |filter|
      ensures Reads(t, filter[x].pid, base + x) && SoleWriter(t, base + x, fd, filter[..x])
    {
      assert Reads(s, filter[x].pid, base + x) && SoleWriter(s, base + x, fd, filter[..x]);
    }
  }

  /** A chain that is there at all is up, on pipes and processes that were made already. */
  ghost predicate Closable(s: Sys, filter: seq<RunFilter>, fd: int, base: nat) {
    filter != [] ==>
      && ChainUp(s, filter, fd, base) && base + |filter| <= s.nextPipe
      && forall x :: 0 <= x < |filter| ==> filter[x].pid < s.nextPid
  }

  /** Closing the other output leaves a chain up. */
  lemma SurvivesClosing(s: Sys, filter: seq<RunFilter>, fd: int, base: nat, other: seq<RunFilter>, otherFd: nat)
    requires Closable(s, filter, fd, base) && fd != otherFd
    requires forall x, y :: 0 <= x < |filter| && 0 <= y < |other| ==> filter[x].pid != other[y].pid
    ensures Closable(Waited(s, otherFd, other, |other|), filter, fd, base)
  {
    if filter != [] {
      SparedStaysUp(s, Waited(s, otherFd, other, |other|), filter, fd, base);
    }
  }

  lemma NullDeviceSpares(s: Sys, faults: seq<bool>, filter: seq<RunFilter>, fd: int, base: nat)
    requires fd in s.table && forall f :: f in s.table ==> f < s.nextFd
    ensures Spares(s, NullDevice(s, faults).0, filter, fd, base)
  {
  }

  /** An error exit leaves the other chain up. */
  lemma SurvivesFailure(z: Sys, fd: nat, filters: seq<string>, at: nat, piped: bool, other: seq<RunFilter>,
                        otherFd: nat, base: nat)
    requires ValidSys(z) && fd in z.table && at < |filters|
    requires ChainUp(z, other, otherFd, base) && otherFd != fd && base + |other| <= z.nextPipe
    ensures ChainUp(AfterFailure(z, fd, filters, at, piped), other, otherFd, base)
  {
    SparedStaysUp(z, AfterFailure(z, fd, filters, at, piped), other, otherFd, base);
  }

  lemma FailureKeepsNumbers(z: Sys, fd: nat, filters: seq<string>, at: nat, piped: bool)
    requires ValidSys(z) && fd in z.table && at < |filters|
    ensures var s := AfterFailure(z, fd, filters, at, piped);
            && (forall f :: f in s.table ==> f < s.nextFd)
            && z.nextPipe <= s.nextPipe && z.nextPid <= s.nextPid
  {
  }

  // ---------- building the other chain ----------

  /** However the construction of the other chain ends, this one stays up. */
  lemma SurvivesSetup(z: Sys, faults: seq<bool>, fd: nat, filters: seq<string>, other: seq<RunFilter>, otherFd: int,
                      base: nat)
    requires ValidSys(z) && fd in z.table && !IsPipe(z.table[fd].obj)
    requires Closable(z, other, otherFd, base) && otherFd != fd
    ensures Closable(SetupResult(z, faults, fd, filters).0, other, otherFd, base)
  {
    if other != [] && filters != [] {
      OutcomeIff(faults, |filters|);
      match OutcomeOf(faults, |filters|)
      case Built => ChainSurvives(z, fd, filters, other, otherFd, base);
      case NoPipe => SparedStaysUp(z, Close(z, fd), other, otherFd, base);
      case FailedAt(at, piped) =>
        var s, left := AfterFailure(z, fd, filters, at, piped), Dropped(faults, FirstFault(faults, |filters|, 0) + 1);
        SurvivesFailure(z, fd, filters, at, piped, other, otherFd, base);
        FailureKeepsNumbers(z, fd, filters, at, piped);
        NullDeviceSpares(s, left, other, otherFd, base);
        SparedStaysUp(s, NullDevice(s, left).0, other, otherFd, base);
    }
  }

  /** A chain that was built can be closed. */
  lemma SetupIsClosable(z: Sys, faults: seq<bool>, fd: nat, filters: seq<string>)
    requires ValidSys(z) && fd in z.table && !IsPipe(z.table[fd].obj)
    ensures var (s, out, filter, left) := SetupResult(z, faults, fd, filters);
            && Closable(s, filter, out, z.nextPipe)
            && forall x :: 0 <= x < |filter| ==> z.nextPid <= filter[x].pid
  {
    if filters != [] && OutcomeOf(faults, |filters|) == Built {
      CompleteIsUp(z, fd, filters);
    }
  }

  // ---------- what is left in the end ----------

  lemma PidSetOfChain(z: Sys, filters: seq<string>, m: nat)
    requires m <= |filters|
    ensures PidSet(RunFilters(z, filters, |filters|), m) == Pids(z, m)
  {
    if m > 0 {
      PidSetOfChain(z, filters, m - 1);
    }
  }

  /** Waiting for the filters of a chain leaves the children that were there before. */
  lemma SetupThenWait(z: Sys, faults: seq<bool>, fd: nat, filters: seq<string>)
    requires ValidSys(z) && fd in z.table
    ensures var (s, out, filter, left) := SetupResult(z, faults, fd, filters);
            s.children - PidSet(filter, |filter|) == z.children
  {
    if filters != [] {
      OutcomeIff(faults, |filters|);
      if OutcomeOf(faults, |filters|) == Built {
        PidSetOfChain(z, filters, |filters|);
        AllChildrenGone(z, z.table[fd].obj, filters, |filters|);
      }
    }
  }

  /** The only descriptor that is closed although it is not open is that of an output whose
      first pipe could not be made. */
  lemma SetupDescriptor(z: Sys, faults: seq<bool>, fd: nat, filters: seq<string>)
    requires ValidSys(z) && fd in z.table
    ensures var (s, out, filter, left) := SetupResult(z, faults, fd, filters);
            && s.badCloses == z.badCloses
            && (out in s.table <==> out >= 0 && OutcomeOf(faults, |filters|) != NoPipe)
  {
    OutcomeIff(faults, |filters|);
  }

  // ---------- main() ----------

  /** fdopen() of an output: it fails if the descriptor is not open. */
  predicate Usable(s: Sys, fd: int) {
    fd in s.table
  }

  /** How often a descriptor is closed that is not open: once, if the first pipe of the info
      output, or else of the core output, cannot be made. */
  function BadCloses(z: Sys, faults: seq<bool>, infoFilters: seq<string>, coreFilters: seq<string>): nat {
    var s := OpenFile(z);
    var (_, out, _, left) := SetupResult(s, faults, z.nextFd, infoFilters);
    if OutcomeOf(faults, |infoFilters|) == NoPipe then 1
    else if out >= 0 && OutcomeOf(left, |coreFilters|) == NoPipe then 1
    else 0
  }

  lemma OpenKeepsValid(s: Sys)
    requires ValidSys(s)
    ensures ValidSys(OpenFile(s))
  {
  }

  lemma SetupKeepsValid(z: Sys, faults: seq<bool>, fd: nat, filters: seq<string>)
    requires ValidSys(z) && fd in z.table && !IsPipe(z.table[fd].obj)
    ensures ValidSys(SetupResult(z, faults, fd, filters).0)
  {
    if filters != [] {
      OutcomeIff(faults, |filters|);
      match OutcomeOf(faults, |filters|)
      case Built => CompleteIsValid(z, fd, filters);
      case NoPipe => CloseKeepsValid(z, fd);
      case FailedAt(at, piped) =>
        FailureIsValid(z, fd, filters, at, piped);
        NullKeepsValid(AfterFailure(z, fd, filters, at, piped), Dropped(faults, FirstFault(faults, |filters|, 0) + 1));
    }
  }

  lemma CloseKeepsValid(s: Sys, fd: nat)
    requires ValidSys(s)
    ensures ValidSys(Close(s, fd))
  {
  }

  lemma NullKeepsValid(s: Sys, faults: seq<bool>)
    requires ValidSys(s)
    ensures ValidSys(NullDevice(s, faults).0)
  {
  }

  lemma FailureIsValid(z: Sys, fd: nat, filters: seq<string>, at: nat, piped: bool)
    requires ValidSys(z) && fd in z.table && at < |filters|
    ensures ValidSys(AfterFailure(z, fd, filters, at, piped))
  {
    var s := AfterFailure(z, fd, filters, at, piped);
    forall p | p in s.killed ensures p < s.nextPid {
      if p !in z.killed {
        PidsAre(z, at, p);
      }
    }
  }

  lemma CompleteIsValid(z: Sys, fd: nat, filters: seq<string>)
    requires ValidSys(z) && fd in z.table && filters != []
    ensures ValidSys(Complete(z, fd, filters))
  {
    var s, n, out := Complete(z, fd, filters), |filters|, z.table[fd].obj;
    forall p | p in s.children ensures p < s.nextPid && PipesBelow(s.children[p].fds, s.nextPipe) {
      ChildAt(z, out, filters, n, p);
    }
  }

  lemma SetupNumbers(z: Sys, faults: seq<bool>, fd: nat, filters: seq<string>)
    requires ValidSys(z) && fd in z.table
    ensures var (s, out, filter, left) := SetupResult(z, faults, fd, filters);
            && (out < 0 || out == fd || out >= z.nextFd) && z.nextPid <= s.nextPid
            && forall f :: f in z.table && f != fd ==> f in s.table
  {
    if filters != [] {
      OutcomeIff(faults, |filters|);
      if OutcomeOf(faults, |filters|).FailedAt? {
        var o := OutcomeOf(faults, |filters|);
        FailureKeepsTable(z, fd, filters, o.at, o.piped);
      }
    }
  }

  lemma FailureKeepsTable(z: Sys, fd: nat, filters: seq<string>, at: nat, piped: bool)
    requires ValidSys(z) && fd in z.table && at < |filters|
    ensures var s := AfterFailure(z, fd, filters, at, piped);
            z.nextFd <= s.nextFd && z.nextPid <= s.nextPid && forall f :: f in z.table && f != fd ==> f in s.table
  {
  }

  /** What opening one output leaves behind, seen from the outside. */
  ghost predicate StreamUp(z: Sys, s: Sys, fd: int, filter: seq<RunFilter>, noPipe: bool) {
    && ValidSys(s) && Closable(s, filter, fd, z.nextPipe)
    && s.children - PidSet(filter, |filter|) == z.children && s.badCloses == z.badCloses
    && (fd in s.table <==> fd >= 0 && !noPipe) && (fd < 0 || fd >= z.nextFd)
    && (forall x :: 0 <= x < |filter| ==> z.nextPid <= filter[x].pid)
    && z.nextPid <= s.nextPid && (forall f :: f in z.table ==> f in s.table)
  }

  lemma StreamFacts(z: Sys, faults: seq<bool>, filters: seq<string>)
    requires ValidSys(z)
    ensures z.nextFd in OpenFile(z).table
    ensures var (s, fd, filter, left) := SetupResult(OpenFile(z), faults, z.nextFd, filters);
            StreamUp(z, s, fd, filter, OutcomeOf(faults, |filters|) == NoPipe)
  {
    var o := OpenFile(z);
    OpenKeepsValid(z);
    SetupKeepsValid(o, faults, z.nextFd, filters);
    SetupIsClosable(o, faults, z.nextFd, filters);
    SetupThenWait(o, faults, z.nextFd, filters);
    SetupDescriptor(o, faults, z.nextFd, filters);
    SetupNumbers(o, faults, z.nextFd, filters);
  }

  /** Opening the second output leaves the first one as it was. */
  lemma FirstSurvives(z: Sys, faults: seq<bool>, filters: seq<string>, other: seq<RunFilter>, otherFd: int, base: nat)
    requires ValidSys(z) && Closable(z, other, otherFd, base) && otherFd in z.table
    ensures z.nextFd in OpenFile(z).table
    ensures Closable(SetupResult(OpenFile(z), faults, z.nextFd, filters).0, other, otherFd, base)
  {
    OpenKeepsValid(z);
    if other != [] {
      SparedStaysUp(z, OpenFile(z), other, otherFd, base);
    }
    SurvivesSetup(OpenFile(z), faults, z.nextFd, filters, other, otherFd, base);
  }

  /** One output is opened, with its filters. */
  method OpenStream(k: Machine, r: RunOutput, filters: seq<string>)
    requires ValidSys(k.sys)
    modifies k, r
    ensures old(k.sys).nextFd in OpenFile(old(k.sys)).table
    ensures (k.sys, r.fd, r.filter, k.faults) ==
            SetupResult(OpenFile(old(k.sys)), old(k.faults), old(k.sys).nextFd, filters)
    ensures StreamUp(old(k.sys), k.sys, r.fd, r.filter, OutcomeOf(old(k.faults), |filters|) == NoPipe)
  {
    OpenKeepsValid(k.sys);
    StreamFacts(k.sys, k.faults, filters);
    var fd := k.OpenCall();
    var _ := SetupFilters(k, r, filters, fd);
  }

  /** close_output() of an output that was opened in state z and, if its descriptor is open, is
      open still. */
  method CloseStream(k: Machine, r: RunOutput, ghost z: Sys)
    requires Closable(k.sys, r.filter, r.fd, z.nextPipe)
    modifies k, r
    ensures r.fd < 0
    ensures k.sys.children == if old(r.fd) < 0 then old(k.sys).children
                              else old(k.sys).children - PidSet(old(r.filter), |old(r.filter)|)
    ensures k.sys.badCloses == old(k.sys).badCloses +
                               if old(r.fd) < 0 || old(r.fd) in old(k.sys).table then 0 else 1
    ensures old(r.fd) >= 0 ==> k.sys == Waited(old(k.sys), old(r.fd), old(r.filter), |old(r.filter)|)
  {
    CloseOutput(k, r, z.nextPipe);
  }

  /** The core output while the info output is open: it is opened, used and closed, and the info
      output can be closed afterwards. */
  method CoreStream(k: Machine, core: RunOutput, filters: seq<string>, ghost info: seq<RunFilter>, ghost fd: int,
                    ghost base: nat)
    requires ValidSys(k.sys) && Closable(k.sys, info, fd, base) && fd in k.sys.table
    modifies k, core
    ensures core.fd < 0 && k.sys.children == old(k.sys).children
    ensures Closable(k.sys, info, fd, base) && fd in k.sys.table
    ensures var out := SetupResult(OpenFile(old(k.sys)), old(k.faults), old(k.sys).nextFd, filters).1;
            k.sys.badCloses == old(k.sys).badCloses +
                               if OutcomeOf(old(k.faults), |filters|) == NoPipe then 1 else 0
  {
    ghost var z := k.sys;
    FirstSurvives(z, k.faults, filters, info, fd, base);
    OpenStream(k, core, filters);
    if core.fd >= 0 {
      SurvivesClosing(k.sys, info, fd, base, core.filter, core.fd);
      CloseStream(k, core, z);
    }
  }

  /** The life of both outputs in main(). Whatever fails, no wait blocks, and in the end the
      children are those from before: every filter that was started was waited for. */
  method TwoOutputs(k: Machine, info: RunOutput, core: RunOutput, infoFilters: seq<string>, coreFilters: seq<string>)
    requires ValidSys(k.sys) && info != core && core.fd < 0
    modifies k, info, core
    ensures info.fd < 0 && core.fd < 0
    ensures k.sys.children == old(k.sys).children
    ensures k.sys.badCloses == old(k.sys).badCloses + BadCloses(old(k.sys), old(k.faults), infoFilters, coreFilters)
  {
    ghost var z := k.sys;
    OpenStream(k, info, infoFilters);
    if info.fd < 0 {
      return;
    }
    if Usable(k.sys, info.fd) {
      CoreStream(k, core, coreFilters, info.filter, info.fd, z.nextPipe);
    }
    CloseStream(k, info, z);
  }

  // ---------- what the error exits forget ----------

  /** An end of a pipe of this chain is open although it is not the output. */
  ghost predicate PipeLeft(z: Sys, s: Sys, out: int) {
    exists f :: f in s.table && f !in z.table && f != out && IsPipe(s.table[f].obj)
  }

  /** The error exit leaves ends of a pipe open if and only if the first failing call was for the
      memory or the process of a filter that is not the last. */
  lemma PipeLeftIff(z: Sys, faults: seq<bool>, fd: nat, filters: seq<string>)
    requires ValidSys(z) && fd in z.table
    ensures var (s, out, filter, left) := SetupResult(z, faults, fd, filters);
            PipeLeft(z, s, out) <==> LosesPipe(OutcomeOf(faults, |filters|), |filters|)
  {
    if filters != [] {
      OutcomeIff(faults, |filters|);
      var o := OutcomeOf(faults, |filters|);
      if o.FailedAt? {
        LeakLeft(z, fd, filters, o.at, o.piped, Dropped(faults, FirstFault(faults, |filters|, 0) + 1));
      }
    }
  }

  /** The null device brings no pipe. */
  lemma NullIsNoPipe(s: Sys, left: seq<bool>)
    requires forall f :: f in s.table ==> f < s.nextFd
    ensures var (t, out, _) := NullDevice(s, left);
            && out !in s.table && (forall f :: f in s.table ==> f in t.table && t.table[f] == s.table[f])
            && forall f :: f in t.table && IsPipe(t.table[f].obj) ==> f in s.table
  {
  }

  lemma LeakIn(z: Sys, fd: nat, filters: seq<string>, at: nat, piped: bool)
    requires ValidSys(z) && fd in z.table && at < |filters|
    ensures var t, i := AfterFailure(z, fd, filters, at, piped).table, z.nextFd + 2 * at;
            if piped && at + 1 < |filters| then
              && i in t && i !in z.table && t[i].obj == PipeIn(z.nextPipe + at)
              && i + 3 in t && i + 3 !in z.table && t[i + 3].obj == PipeOut(z.nextPipe + at + 1)
            else forall f :: f in t ==> f in z.table
  {
  }

  lemma LeakLeft(z: Sys, fd: nat, filters: seq<string>, at: nat, piped: bool, left: seq<bool>)
    requires ValidSys(z) && fd in z.table && at < |filters|
    ensures var (s, out, _) := NullDevice(AfterFailure(z, fd, filters, at, piped), left);
            && (PipeLeft(z, s, out) <==> piped && at + 1 < |filters|)
            && (piped && at + 1 < |filters| ==> z.nextFd + 2 * at in s.table && z.nextFd + 2 * at + 3 in s.table)
  {
    var s0 := AfterFailure(z, fd, filters, at, piped);
    var (s, out, _) := NullDevice(s0, left);
    FailureKeepsNumbers(z, fd, filters, at, piped);
    NullIsNoPipe(s0, left);
    LeakIn(z, fd, filters, at, piped);
    if piped && at + 1 < |filters| {
      var f := z.nextFd + 2 * at;
      assert f in s.table && f !in z.table && f != out && IsPipe(s.table[f].obj);
    }
  }

  /** Two filters, and no memory for the first: both ends of the pipe between them stay open. */
  lemma LostPipe(z: Sys, fd: nat)
    requires ValidSys(z) && fd in z.table
    ensures var (s, out, filter, left) := SetupResult(z, [false, false, true], fd, ["head", "xz"]);
            PipeLeft(z, s, out) && z.nextFd in s.table && z.nextFd + 3 in s.table
  {
    var faults: seq<bool>, filters := [false, false, true], ["head", "xz"];
    assert |filters| == 2 && OutcomeOf(faults, 2) == FailedAt(0, true) by {
      BadOutcomes();
    }
    LeakLeft(z, fd, filters, 0, true, Dropped(faults, FirstFault(faults, 2, 0) + 1));
  }

  /** One filter, and no pipe for it: the output is closed, and closed again in the end. */
  lemma ClosedTwice(z: Sys)
    ensures BadCloses(z, [true], ["xz"], []) == 1
  {
    BadOutcomes();
  }

  /** A descriptor is closed once too often if and only if the first pipe of the info chain, or
      else of the core chain, cannot be made. */
  lemma BadCloseIff(z: Sys, faults: seq<bool>, infoFilters: seq<string>, coreFilters: seq<string>)
    ensures var (_, out, _, left) := SetupResult(OpenFile(z), faults, z.nextFd, infoFilters);
            BadCloses(z, faults, infoFilters, coreFilters) == 1 <==>
              (infoFilters != [] && Next(faults)) || (out >= 0 && coreFilters != [] && Next(left))
    ensures BadCloses(z, faults, infoFilters, coreFilters) <= 1
  {
    var left := SetupResult(OpenFile(z), faults, z.nextFd, infoFilters).3;
    OutcomeIff(faults, |infoFilters|);
    OutcomeIff(left, |coreFilters|);
    assert Next(faults) == FaultAt(faults, 0) && Next(left) == FaultAt(left, 0);
  }
}
