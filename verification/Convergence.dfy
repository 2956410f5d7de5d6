/** Waiting for a window of consecutive successes. Models AwaitConvergence in
    conformance/utils/http/http.go. */
module Convergence {

  datatype Outcome = Converged(attempts: nat) | TimedOut(attempts: nat)

  /** A threshold below one asks for a single success. */
  function Needed(threshold: int): nat
  {
    if threshold < 1 then 1 else threshold
  }

  /** The `needed` calls up to call number `n` all succeeded. */
  predicate Window(outcomes: seq<bool>, n: nat, needed: nat)
  {
    needed <= n <= |outcomes| && forall i | n - needed <= i < n :: outcomes[i]
  }

  lemma WindowIs(outcomes: seq<bool>, n: nat, needed: nat)
    ensures Window(outcomes, n, needed) <==> needed <= n <= |outcomes| && false !in outcomes[n - needed..n]
  {
    if needed <= n <= |outcomes| && false !in outcomes[n - needed..n] {
      forall i | n - needed <= i < n ensures outcomes[i] {
        assert outcomes[n - needed..n][i - (n - needed)] == outcomes[i];
      }
    }
  }

  /** `outcomes` are the results of the calls there is time for; the timer fires after the last one,
      whether noticed before the next call or while waiting after a failed one. */
  method AwaitConvergence(threshold: int, outcomes: seq<bool>) returns (r: Outcome)
    ensures match r
            case Converged(n) =>
              Window(outcomes, n, Needed(threshold)) && forall k | 0 <= k < n :: !Window(outcomes, k, Needed(threshold))
            case TimedOut(n) =>
              n == |outcomes| && forall k | 0 <= k <= n :: !Window(outcomes, k, Needed(threshold))
    ensures var needed, n := if threshold < 1 then 1 else threshold, r.attempts;
            n <= |outcomes| && (r.Converged? ==> needed <= n && false !in outcomes[n - needed..n])
  {
    var successes, attempts := 0, 0;
    while attempts < |outcomes|
      invariant 0 <= successes <= attempts <= |outcomes| && successes < Needed(threshold)
      invariant forall i | attempts - successes <= i < attempts :: outcomes[i]
      invariant successes < attempts ==> !outcomes[attempts - successes - 1]
      invariant forall k | 0 <= k <= attempts :: !Window(outcomes, k, Needed(threshold))
    {
      var completed := outcomes[attempts];
      attempts := attempts + 1;
      if completed {
        successes := successes + 1;
        if successes >= threshold {
          return Converged(attempts);
        }
      } else {
        successes := 0;
      }
    }
    r := TimedOut(attempts);
  }

  /** Calls after the window has been found are never made: a longer future changes nothing. */
  lemma FirstWindowUnique(outcomes: seq<bool>, future: seq<bool>, needed: nat, n: nat, m: nat)
    requires Window(outcomes, n, needed) && forall k | 0 <= k < n :: !Window(outcomes, k, needed)
    requires Window(outcomes + future, m, needed) && forall k | 0 <= k < m :: !Window(outcomes + future, k, needed)
    ensures n == m
  {
    assert forall i | 0 <= i < |outcomes| :: (outcomes + future)[i] == outcomes[i];
    assert Window(outcomes + future, n, needed);
    assert m <= n;
    assert Window(outcomes, m, needed);
  }
}
