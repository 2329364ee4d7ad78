/** What the filter part of open_output() leaves the caller with: the start of the chain, or the
    null device. */
module SetupProperties {
  import opened Basics
  import opened Processes
  import opened ChainOutcomes
  import opened FilterChain
  import opened ChainProperties
  import opened OutputPair

  /** With or without filters, what is written to the descriptor of an output that was set up
      goes through all of them, in order, and ends where the output was opened. */
  lemma WrittenThroughFilters(z: Sys, faults: seq<bool>, fd: nat, filters: seq<string>,
                              run: (string, seq<byte>) -> seq<byte>, data: seq<byte>)
    requires ValidSys(z) && fd in z.table && !IsPipe(z.table[fd].obj) && NoneBefore(faults, 3 * |filters|)
    ensures var (s, out, filter, left) := SetupResult(z, faults, fd, filters);
            && out >= 0 && out in s.table && |filter| == |filters|
            && Flow(s.children, run, s.table[out].obj, data, |filters|) ==
               (z.table[fd].obj, Composition(run, filters, data))
  {
    if filters != [] {
      NoFault(faults, |filters|);
      ChainIsComposition(z, fd, filters, run, 0, data, |filters|);
      assert filters[0..] == filters;
    }
  }

  /** The calls that open_devnull() makes: open(), unless it was made before, and dup(). */
  function NullCalls(s: Sys): nat {
    if s.nullFd < 0 then 2 else 1
  }

  /** Nothing has changed but for new descriptors of the null device: fd, and the one that is
      kept. */
  ghost predicate OnlyNullAdded(s: Sys, t: Sys, fd: int) {
    && t == s.(table := t.table, nullFd := t.nullFd, nextFd := t.nextFd)
    && (forall f :: f in s.table ==> f in t.table && t.table[f] == s.table[f])
    && (forall f :: f in t.table && f !in s.table ==> t.table[f] == Entry(Other, false) && f in {fd, t.nullFd})
  }

  predicate NewIn(s: Sys, t: Sys, fd: int) {
    fd >= 0 && fd in t.table && fd !in s.table && t.table[fd] == Entry(Other, false)
  }

  lemma TwoCalls(faults: seq<bool>)
    ensures Next(faults) == FaultAt(faults, 0) && Next(Later(faults)) == FaultAt(faults, 1)
    ensures NoneBefore(faults, 1) <==> !FaultAt(faults, 0)
    ensures NoneBefore(faults, 2) <==> !FaultAt(faults, 0) && !FaultAt(faults, 1)
  {
  }

  /** open_devnull() gives a new descriptor of the null device if and only if none of its calls
      fails; the one that it keeps is opened by its first call that works, and stays. */
  lemma NullDeviceOpens(s: Sys, faults: seq<bool>)
    requires ValidSys(s)
    ensures var (t, fd, left) := NullDevice(s, faults);
            && (fd >= 0 <==> NoneBefore(faults, NullCalls(s)))
            && (fd >= 0 ==> NewIn(s, t, fd) && (s.nullFd < 0 ==> fd != t.nullFd))
            && (t.nullFd >= 0 <==> s.nullFd >= 0 || !FaultAt(faults, 0))
            && (if s.nullFd >= 0 then t.nullFd == s.nullFd else t.nullFd >= 0 ==> NewIn(s, t, t.nullFd))
            && OnlyNullAdded(s, t, fd)
  {
    TwoCalls(faults);
  }

  /** Call number c, which is for a filter, is the first that fails. */
  ghost predicate FilterFails(faults: seq<bool>, n: nat, c: nat) {
    0 < c < 3 * n && FaultAt(faults, c) && NoneBefore(faults, c)
  }

  lemma FailureKeeps(z: Sys, fd: nat, filters: seq<string>, at: nat, piped: bool)
    requires ValidSys(z) && fd in z.table && at < |filters|
    ensures var s := AfterFailure(z, fd, filters, at, piped);
            && s.nullFd == z.nullFd
            && forall f :: f in z.table && f != fd ==> f in s.table && s.table[f] == z.table[f]
  {
    var leak := Leak(z, |filters|, at, piped);
    forall f | f in z.table && f != fd ensures f in z.table - {fd} && f !in leak {
      assert f < z.nextFd;
    }
  }

  lemma ResultOfFailure(z: Sys, faults: seq<bool>, fd: nat, filters: seq<string>, c: nat) returns (s: Sys)
    requires ValidSys(z) && fd in z.table && FilterFails(faults, |filters|, c)
    ensures ValidSys(s) && s.nullFd == z.nullFd
    ensures forall f :: f in z.table && f != fd ==> f in s.table && s.table[f] == z.table[f]
    ensures var (t, out, left) := NullDevice(s, Dropped(faults, c + 1));
            SetupResult(z, faults, fd, filters) == (t, out, [], left)
  {
    FirstFaultIs(faults, |filters|, c);
    var at, piped := FilterOf(c), FilterOf(c) + 1 == |filters| || c % 3 != 1;
    s := AfterFailure(z, fd, filters, at, piped);
    FailureIsValid(z, fd, filters, at, piped);
    FailureKeeps(z, fd, filters, at, piped);
  }

  lemma FaultsBehind(faults: seq<bool>, c: nat, n: nat)
    ensures NoneBefore(Dropped(faults, c + 1), n) <==> forall x :: c < x <= c + n ==> !FaultAt(faults, x)
  {
    var left := Dropped(faults, c + 1);
    if forall x :: c < x <= c + n ==> !FaultAt(faults, x) {
      forall y | 0 <= y < n ensures !FaultAt(left, y) {
        assert FaultAt(left, y) == FaultAt(faults, y + c + 1);
      }
    } else {
      var x :| c < x <= c + n && FaultAt(faults, x);
      assert FaultAt(left, x - c - 1);
    }
  }

  /** After an error exit the output is a new descriptor of the null device, beside those that
      were there before, if and only if open_devnull() succeeds from the call behind the one that
      failed; otherwise it has none. */
  lemma ErrorExitOpensNull(z: Sys, faults: seq<bool>, fd: nat, filters: seq<string>, c: nat)
    requires ValidSys(z) && fd in z.table && FilterFails(faults, |filters|, c)
    ensures var (s, out, filter, left) := SetupResult(z, faults, fd, filters);
            && filter == []
            && (out >= 0 <==> forall x :: c < x <= c + NullCalls(z) ==> !FaultAt(faults, x))
            && (out >= 0 ==> out in s.table && s.table[out] == Entry(Other, false))
            && forall f :: f in z.table && f != fd ==> f in s.table && s.table[f] == z.table[f] && f != out
  {
    var s := ResultOfFailure(z, faults, fd, filters, c);
    NullDeviceOpens(s, Dropped(faults, c + 1));
    FaultsBehind(faults, c, NullCalls(z));
  }

  lemma {:induction false} LogOf(z: Sys, m: nat, k: nat)
    requires k < m
    ensures |PidLog(z, m)| == m && PidLog(z, m)[k] == z.nextPid + k
  {
    if m > 1 {
      LogOf(z, m - 1, if k < m - 1 then k else 0);
    }
  }

  /** The error exit waits for the filters that were started, each once, in their order. */
  lemma ReapedInOrder(z: Sys, fd: nat, filters: seq<string>, at: nat, piped: bool, k: nat)
    requires fd in z.table && at < |filters| && k < at
    ensures var s := AfterFailure(z, fd, filters, at, piped);
            && |s.reaped| == |z.reaped| + at && z.reaped <= s.reaped
            && s.reaped[|z.reaped| + k] == RunFilters(z, filters, at)[k].pid
  {
    LogOf(z, at, k);
  }
}
