/**
  The readiness gate both versions put in front of every copy: call
  `IsFileReady` on the system save file until it answers true, giving up
  after 25 attempts (no delay between attempts).

  `IsFileReady` itself (open for reading, report a positive length, false on
  any exception) is an oracle: the answers it would give are a stream, one
  answer per call, and answers past the end of the stream read as "not ready".
 */
module Readiness {

  /** Calls of `IsFileReady` made before giving up. */
  const MaxProbes: nat := 25

  /** The answer of the `k`-th call (from 0). */
  function Answer(probes: seq<bool>, k: nat): bool {
    k < |probes| && probes[k]
  }

  /** The outcome of the gate: whether the file became ready, and how many calls it took. */
  datatype Wait = Wait(ready: bool, used: nat)

  /** One of the calls the budget allows answers "ready". */
  predicate ReadyWithinBudget(probes: seq<bool>) {
    exists k :: 0 <= k < MaxProbes && Answer(probes, k)
  }

  /** The gate, entered after `k` calls that all answered "not ready". */
  function ScanFrom(probes: seq<bool>, k: nat): (w: Wait)
    requires k <= MaxProbes
    ensures k <= w.used <= MaxProbes
    ensures w.ready <==> exists j :: k <= j < MaxProbes && Answer(probes, j)
    ensures w.ready ==> k < w.used && Answer(probes, w.used - 1)
    ensures forall j :: k <= j < w.used - 1 ==> !Answer(probes, j)
    ensures !w.ready ==> w.used == MaxProbes
    decreases MaxProbes - k
  {
    if k == MaxProbes then Wait(false, MaxProbes)
    else if Answer(probes, k) then Wait(true, k + 1)
    else ScanFrom(probes, k + 1)
  }

  /**
    The gate: it stops at the first "ready" answer; it fails exactly when all
    25 answers are "not ready", and then it has made all 25 calls.
   */
  function WaitReady(probes: seq<bool>): (w: Wait)
    ensures 1 <= w.used <= MaxProbes
    ensures w.ready <==> ReadyWithinBudget(probes)
    ensures w.ready ==> Answer(probes, w.used - 1)
    ensures forall j :: 0 <= j < w.used - 1 ==> !Answer(probes, j)
    ensures !w.ready ==> w.used == MaxProbes && forall j :: 0 <= j < MaxProbes ==> !Answer(probes, j)
  {
    ScanFrom(probes, 0)
  }

  /** The answers left for later calls once `used` of them are consumed. */
  function Rest(probes: seq<bool>, used: nat): (r: seq<bool>)
    ensures forall k: nat :: Answer(r, k) == Answer(probes, used + k)
  {
    if used <= |probes| then probes[used..] else []
  }

  /**
    The loop as the source writes it: a counter starting at 25, decremented
    after each "not ready" answer, and failure reported when it reaches 0.
   */
  method ProbeUntilReady(probes: seq<bool>) returns (ready: bool, used: nat)
    ensures used <= MaxProbes
    ensures ready <==> ReadyWithinBudget(probes)
    ensures Wait(ready, used) == WaitReady(probes)
  {
    var counter := MaxProbes;
    used := 0;
    while counter > 0 && !Answer(probes, used)
      invariant 0 <= counter <= MaxProbes
      invariant used + counter == MaxProbes
      invariant forall j :: 0 <= j < used ==> !Answer(probes, j)
      decreases counter
    {
      counter := counter - 1;
      used := used + 1;
    }
    ready := counter != 0;
    if ready {
      // the call that answered "ready" and ended the loop
      assert Answer(probes, used);
      assert WaitReady(probes).used == used + 1;
      used := used + 1;
    }
  }
}
