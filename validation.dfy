/**
 What `validate` reports: one warning per (environment, app) entry whose app
 is not available, and a confirmation only when there are no warnings.
 */
module Validation {
  import opened Availability
  import opened Environments

  /** A warning names the environment and the app. */
  type Warning = (string, string)

  /**
   How many warnings `validate` prints for pair `w`: one per occurrence of the
   app in that environment's list when the app is unavailable, none otherwise.
   */
  function WarningCount(envs: Environments, host: Host, w: Warning): nat
  {
    if w.0 in envs && !Available(w.1, host) then multiset(envs[w.0])[w.1] else 0
  }

  /** Every entry of every environment is available. */
  predicate AllAvailable(envs: Environments, host: Host)
  {
    forall e, i :: e in envs && 0 <= i < |envs[e]| ==> Available(envs[e][i], host)
  }

  /** No warning is due exactly when every entry is available. */
  lemma NoWarningsIffAllAvailable(envs: Environments, host: Host)
    ensures (forall w :: WarningCount(envs, host, w) == 0) <==> AllAvailable(envs, host)
  {
    if forall w :: WarningCount(envs, host, w) == 0 {
      forall e, i | e in envs && 0 <= i < |envs[e]| ensures Available(envs[e][i], host) {
        assert envs[e][i] in multiset(envs[e]);
        assert WarningCount(envs, host, (e, envs[e][i])) == 0;
      }
    }
  }
}
