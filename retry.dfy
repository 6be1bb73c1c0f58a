/** The counted retry loop shared by downloadObjectRetry (backup.js:89-107)
    and uploadObjectRetry (restore.js:75-93). The transfer itself is an
    oracle: attempt number `k` of a run succeeds exactly when
    `Succeeds(outcomes, k)`. A loop that starts when `start` attempts have
    already been made, with `max` attempts allowed, is specified here; the
    loops themselves are methods of the exporter and the importer. */
module Retry {

  /** Attempt number `k` of the run succeeds; attempts past the end of
      the oracle fail. */
  predicate Succeeds(outcomes: seq<bool>, k: nat)
  {
    k < |outcomes| && outcomes[k]
  }

  /** How many attempts the loop makes: it stops after the first success,
      and after `max` attempts otherwise. */
  function Attempts(outcomes: seq<bool>, start: nat, max: nat): (n: nat)
    ensures n <= max
    ensures max > 0 ==> n > 0
    decreases max
  {
    if max == 0 then 0
    else if Succeeds(outcomes, start) then 1
    else 1 + Attempts(outcomes, start + 1, max - 1)
  }

  /** The loop resolves, rather than rejecting, when one of its attempts
      succeeds. */
  predicate Resolves(outcomes: seq<bool>, start: nat, max: nat)
    decreases max
  {
    max > 0 && (Succeeds(outcomes, start) || Resolves(outcomes, start + 1, max - 1))
  }

  /** The loop resolves exactly when some attempt within its budget would
      succeed. */
  lemma {:induction false} ResolvesIff(outcomes: seq<bool>, start: nat, max: nat)
    ensures Resolves(outcomes, start, max) <==>
            exists k :: start <= k < start + max && Succeeds(outcomes, k)
    decreases max
  {
    if max > 0 {
      ResolvesIff(outcomes, start + 1, max - 1);
      if Succeeds(outcomes, start) {
        assert start <= start < start + max;
      } else if exists k :: start <= k < start + max && Succeeds(outcomes, k) {
        var k :| start <= k < start + max && Succeeds(outcomes, k);
        assert start + 1 <= k;
      }
    }
  }

  /** A loop that resolves stops at its first successful attempt: the last
      attempt made succeeded and all earlier ones failed. */
  lemma {:induction false} StopsAtFirstSuccess(outcomes: seq<bool>, start: nat, max: nat)
    requires Resolves(outcomes, start, max)
    ensures Succeeds(outcomes, start + Attempts(outcomes, start, max) - 1)
    ensures forall k :: start <= k < start + Attempts(outcomes, start, max) - 1 ==>
              !Succeeds(outcomes, k)
    decreases max
  {
    if !Succeeds(outcomes, start) {
      StopsAtFirstSuccess(outcomes, start + 1, max - 1);
    }
  }

  /** A loop that rejects has made exactly `max` attempts, all failed. */
  lemma {:induction false} RejectsAfterMax(outcomes: seq<bool>, start: nat, max: nat)
    requires !Resolves(outcomes, start, max)
    ensures Attempts(outcomes, start, max) == max
    ensures forall k :: start <= k < start + max ==> !Succeeds(outcomes, k)
    decreases max
  {
    if max > 0 {
      RejectsAfterMax(outcomes, start + 1, max - 1);
    }
  }

  /** Converse of StopsAtFirstSuccess, used by the loops: if attempt `i`
      is the first success within the budget, the loop resolves after
      `i + 1` attempts. */
  lemma {:induction false} FirstSuccessAt(outcomes: seq<bool>, start: nat, max: nat, i: nat)
    requires i < max
    requires forall k :: start <= k < start + i ==> !Succeeds(outcomes, k)
    requires Succeeds(outcomes, start + i)
    ensures Resolves(outcomes, start, max)
    ensures Attempts(outcomes, start, max) == i + 1
    decreases i
  {
    if i > 0 {
      FirstSuccessAt(outcomes, start + 1, max - 1, i - 1);
    }
  }

  /** Converse of RejectsAfterMax, used by the loops. */
  lemma {:induction false} AllFail(outcomes: seq<bool>, start: nat, max: nat)
    requires forall k :: start <= k < start + max ==> !Succeeds(outcomes, k)
    ensures !Resolves(outcomes, start, max)
    ensures Attempts(outcomes, start, max) == max
    decreases max
  {
    if max > 0 {
      AllFail(outcomes, start + 1, max - 1);
    }
  }
}
