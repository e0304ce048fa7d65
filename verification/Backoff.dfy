/** The two reconnect delays: the web client's power of two (client/ws.js) and the mobile client's
    capped doubling (mobile/src/telemetry/ws-client.js). */
module Backoff {
  import opened Basics

  /** The web client's delay after `failures` consecutive failures. */
  function WebDelay(base: real, cap: real, failures: nat): real {
    MinR(cap, base * Pow(2.0, failures))
  }

  /** The mobile client's: `backoffMs` after doubling it that often. */
  function MobileDelay(base: real, cap: real, failures: nat): real {
    if failures == 0 then base else MinR(MobileDelay(base, cap, failures - 1) * 2.0, cap)
  }

  /** The delay state of the mobile client; `failures` counts the reconnects scheduled since the last
      `connect` or open. */
  class MobileBackoff {
    const BASE_MS := 1000.0
    const MAX_BACKOFF_MS := 15000.0
    var backoffMs: real
    ghost var failures: nat

    ghost predicate Valid()
      reads this
    {
      backoffMs == MobileDelay(BASE_MS, MAX_BACKOFF_MS, failures)
    }

    constructor ()
      ensures Valid() && failures == 0 && backoffMs == 1000.0
    {
      backoffMs, failures := BASE_MS, 0;
    }

    /** `connect`, and the `onopen` handler. */
    method Reset()
      modifies this
      ensures Valid() && failures == 0 && backoffMs == 1000.0
    {
      backoffMs, failures := BASE_MS, 0;
    }

    method ScheduleReconnect() returns (delay: real)
      requires Valid()
      modifies this
      ensures Valid() && failures == old(failures) + 1
      ensures delay == MobileDelay(BASE_MS, MAX_BACKOFF_MS, old(failures))
      ensures delay == WebDelay(BASE_MS, MAX_BACKOFF_MS, old(failures))
      ensures delay == old(backoffMs) && backoffMs == if 2.0 * delay <= 15000.0 then 2.0 * delay else 15000.0
    {
      DelaysAgreeAt(BASE_MS, MAX_BACKOFF_MS, failures);
      delay := backoffMs;
      backoffMs := MinR(backoffMs * 2.0, MAX_BACKOFF_MS);
      failures := failures + 1;
    }
  }

  lemma {:induction false} DelaysAgreeAt(base: real, cap: real, failures: nat)
    requires 0.0 <= base <= cap
    ensures MobileDelay(base, cap, failures) == WebDelay(base, cap, failures)
  {
    if failures > 0 {
      DelaysAgreeAt(base, cap, failures - 1);
      var p := Pow(2.0, failures - 1);
      assert base * (2.0 * p) == 2.0 * (base * p);
    }
  }

  /** The two forms are the same function of the failure count exactly when the base does not exceed
      the cap; otherwise the mobile form starts above its cap. */
  lemma DelaysAgree(base: real, cap: real)
    requires 0.0 <= base
    ensures (forall n: nat :: MobileDelay(base, cap, n) == WebDelay(base, cap, n)) <==> base <= cap
  {
    if base <= cap {
      forall n: nat ensures MobileDelay(base, cap, n) == WebDelay(base, cap, n) {
        DelaysAgreeAt(base, cap, n);
      }
    } else {
      assert MobileDelay(base, cap, 0) != WebDelay(base, cap, 0);
    }
  }

  lemma {:induction false} PowPositive(n: nat)
    ensures Pow(2.0, n) >= 1.0
  {
    if n > 0 {
      PowPositive(n - 1);
    }
  }

  lemma {:induction false} PowGrows(m: nat, n: nat)
    requires m <= n
    ensures Pow(2.0, m) <= Pow(2.0, n)
  {
    if m < n {
      PowGrows(m, n - 1);
      PowPositive(n - 1);
    }
  }

  /** The web delay from one failure to the next: it starts at the base and doubles, both up to the cap. */
  lemma WebDoubles(base: real, cap: real, failures: nat)
    requires 0.0 <= base && 0.0 <= cap
    ensures WebDelay(base, cap, 0) == if base <= cap then base else cap
    ensures var delay := WebDelay(base, cap, failures);
      WebDelay(base, cap, failures + 1) == if 2.0 * delay <= cap then 2.0 * delay else cap
  {
    var p := Pow(2.0, failures);
    assert base * (2.0 * p) == 2.0 * (base * p);
  }

  /** Delays never shrink from one failure to the next, and stay between the first one and the cap. */
  lemma DelayGrows(base: real, cap: real, m: nat, n: nat)
    requires 0.0 <= base && m <= n
    ensures WebDelay(base, cap, m) <= WebDelay(base, cap, n) <= cap
  {
    PowGrows(m, n);
    var p, q := Pow(2.0, m), Pow(2.0, n);
    assert base * (q - p) >= 0.0;
    assert base * q == base * p + base * (q - p);
  }
}
