/** Which failing call ends the construction of a filter chain, and how. */
module ChainOutcomes {
  import opened Processes

  /** How the construction ended; filter `at` failed with or without its pipe. */
  datatype Outcome = Built | NoPipe | FailedAt(at: nat, piped: bool)

  /** Call number c fails. */
  predicate FaultAt(faults: seq<bool>, c: nat) {
    c < |faults| && faults[c]
  }

  /** What is left of the faults after c calls. */
  function Dropped(faults: seq<bool>, c: nat): seq<bool> {
    if c <= |faults| then faults[c..] else []
  }

  lemma AfterOneCall(faults: seq<bool>, c: nat)
    ensures Next(Dropped(faults, c)) == FaultAt(faults, c)
    ensures Later(Dropped(faults, c)) == Dropped(faults, c + 1)
  {
  }

  predicate NoneBefore(faults: seq<bool>, c: nat) {
    forall x :: 0 <= x < c ==> !FaultAt(faults, x)
  }

  /** A chain of n filters takes 3 * n calls that can fail: the first pipe, then for every filter
      a pipe (unless it is the last), its memory and its process. The first one that fails, or
      3 * n. */
  function FirstFault(faults: seq<bool>, n: nat, from: nat): (c: nat)
    requires from <= 3 * n
    ensures from <= c <= 3 * n && (c < 3 * n ==> FaultAt(faults, c))
    ensures forall x :: from <= x < c ==> !FaultAt(faults, x)
    decreases 3 * n - from
  {
    if from == 3 * n || FaultAt(faults, from) then from else FirstFault(faults, n, from + 1)
  }

  /** The filter that call number c > 0 is made for. */
  function FilterOf(c: nat): nat
    requires c > 0
  {
    (c - 1) / 3
  }

  /** The outcome, from the calls that fail and the number of filters. */
  function OutcomeOf(faults: seq<bool>, n: nat): Outcome {
    var c := FirstFault(faults, n, 0);
    if c == 3 * n then Built
    else if c == 0 then NoPipe
    else FailedAt(FilterOf(c), FilterOf(c) + 1 == n || c % 3 != 1)
  }

  lemma FirstFaultIs(faults: seq<bool>, n: nat, c: nat)
    requires c < 3 * n && FaultAt(faults, c) && NoneBefore(faults, c)
    ensures FirstFault(faults, n, 0) == c
  {
  }

  lemma NoFault(faults: seq<bool>, n: nat)
    requires NoneBefore(faults, 3 * n)
    ensures FirstFault(faults, n, 0) == 3 * n
  {
  }

  /** A filter other than the last could not be started although it had its pipe. */
  predicate LosesPipe(o: Outcome, n: nat) {
    o.FailedAt? && o.piped && o.at + 1 < n
  }

  /** The chain is built if and only if none of its calls fails; there is no error exit if and
      only if the first one does; and a pipe is lost if and only if the first failing call is for
      the memory or the process of a filter other than the last. */
  lemma OutcomeIff(faults: seq<bool>, n: nat)
    ensures OutcomeOf(faults, n) == Built <==> NoneBefore(faults, 3 * n)
    ensures OutcomeOf(faults, n) == NoPipe <==> n > 0 && FaultAt(faults, 0)
    ensures LosesPipe(OutcomeOf(faults, n), n) <==>
              exists c :: 0 < c < 3 * n - 2 && c % 3 != 1 && FaultAt(faults, c) && NoneBefore(faults, c)
    ensures OutcomeOf(faults, n).FailedAt? ==> OutcomeOf(faults, n).at < n
  {
    var c := FirstFault(faults, n, 0);
    if NoneBefore(faults, 3 * n) {
      NoFault(faults, n);
    }
    forall d | 0 < d < 3 * n - 2 && FaultAt(faults, d) && NoneBefore(faults, d) ensures d == c {
      FirstFaultIs(faults, n, d);
    }
    if 0 < c < 3 * n - 2 && c % 3 != 1 {
      assert FaultAt(faults, c) && NoneBefore(faults, c);
    }
  }

  /** The two ways out that leave something behind, on one and on two filters: the first pipe
      cannot be made, and there is no memory for the first filter. */
  lemma BadOutcomes()
    ensures OutcomeOf([true], 1) == NoPipe
    ensures OutcomeOf([false, false, true], 2) == FailedAt(0, true) && LosesPipe(FailedAt(0, true), 2)
  {
    FirstFaultIs([true], 1, 0);
    FirstFaultIs([false, false, true], 2, 2);
  }
}
