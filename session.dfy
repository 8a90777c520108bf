/**
 * Session ids (meta.js `next_session`): a counter that wraps to 0 once it
 * exceeds one hundred million, then steps by one, so ids run
 * 1, 2, ..., 100,000,001 and start again at 1.
 */
module Session {
  const MaxSession: int := 100_000_000

  /** The number of distinct ids the counter cycles through. */
  const Period: int := MaxSession + 1

  /** `next_session`: the id that follows counter value `s`. */
  function NextSession(s: int): (r: int)
    ensures s >= 0 ==> 1 <= r <= Period
    ensures r == s + 1 || r == 1
    ensures r == 1 <==> (s > MaxSession || s == 0)
  {
    var wrapped := if s > MaxSession then 0 else s;
    wrapped + 1
  }

  /** The id the k-th call returns, counting from a counter that starts at 0. */
  function SessionAfter(k: nat): int
  {
    if k == 0 then 0 else NextSession(SessionAfter(k - 1))
  }

  /** The ids from a zeroed counter cycle with period 100,000,001, starting at 1. */
  lemma {:induction false} SessionCycle(k: nat)
    requires k >= 1
    ensures SessionAfter(k) == (k - 1) % Period + 1
  {
    if k > 1 {
      SessionCycle(k - 1);
      var prev := (k - 2) % Period;
      if prev == Period - 1 {
        assert k - 1 == (k - 2) + 1;
        assert (k - 1) % Period == 0;
      } else {
        assert (k - 1) % Period == prev + 1;
      }
    }
  }

  /** The first id is 1, the 100,000,001st is 100,000,001 and the 100,000,002nd is 1 again. */
  lemma SessionWraps()
    ensures SessionAfter(1) == 1
    ensures SessionAfter(Period) == Period
    ensures SessionAfter(Period + 1) == 1
  {
    SessionCycle(1);
    SessionCycle(Period);
    SessionCycle(Period + 1);
  }

  lemma ResiduesDistinct(a: nat, b: nat)
    requires a < b < a + Period
    ensures a % Period != b % Period
  {
  }

  /** Two calls fewer than 100,000,001 apart never return the same id. */
  lemma DistinctWithinPeriod(i: nat, j: nat)
    requires 1 <= i < j < i + Period
    ensures SessionAfter(i) != SessionAfter(j)
  {
    SessionCycle(i);
    SessionCycle(j);
    ResiduesDistinct(i - 1, j - 1);
  }
}
