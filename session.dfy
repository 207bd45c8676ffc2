// The per-session state of the API backend (backend/session.py): the loaded clauses and
// the integer query counters that `record_query` advances and `reset` clears, with the
// percentages `stats` derives from them.

module Session {

  /** Python's `round(n / d)` for `d > 0`: the nearest integer, ties going to the even one. */
  function RoundHalfEven(n: int, d: int): (r: int)
    requires d > 0
    ensures 2 * (n - r * d) <= d && 2 * (r * d - n) <= d
    ensures 2 * (n - r * d) == d || 2 * (r * d - n) == d ==> r % 2 == 0
  {
    var q := n / d;
    var m := n % d;
    assert n == q * d + m;
    if 2 * m < d then q
    else if 2 * m > d then q + 1
    else if q % 2 == 0 then q
    else q + 1
  }

  /** A product with a positive factor keeps the order of the other factor. */
  lemma ScaleBelow(x: int, y: int, d: int)
    requires d > 0
    ensures x <= y ==> x * d <= y * d
  {
  }

  /** Division of `q * k + s` by `q` when `0 <= s < q`. */
  lemma DivUnique(n: int, q: int, k: int, s: int)
    requires q > 0 && 0 <= s < q && n == q * k + s
    ensures n / q == k && n % q == s
  {
    var k', s' := n / q, n % q;
    assert q * (k' - k) == s - s';
    ScaleBelow(1, k' - k, q);
    ScaleBelow(k' - k, -1, q);
  }

  /**
   * Two shares of the same whole round to percentages that add up to 100: when one
   * rounds up the other rounds down, and on a tie exactly one of them is odd.
   */
  lemma {:induction false} RoundComplement(a: int, b: int, q: int)
    requires q > 0 && a + b == 100 * q
    ensures RoundHalfEven(a, q) + RoundHalfEven(b, q) == 100
  {
    var x, m := a / q, a % q;
    assert a == q * x + m;
    if m == 0 {
      DivUnique(b, q, 100 - x, 0);
    } else {
      assert b == q * (99 - x) + (q - m);
      DivUnique(b, q, 99 - x, q - m);
      if 2 * m == q {
        assert (99 - x) % 2 == 0 <==> x % 2 == 1;
      }
    }
  }

  /** The counters `stats` reports, without its floating-point fields. */
  datatype SessionStats = SessionStats(
    queryCount: int,
    localCount: int,
    cloudCount: int,
    localPct: int,
    cloudPct: int,
    totalWordsSentToCloud: int)

  /** A percentage of `part` out of `whole`, or 0 when nothing has been counted. */
  function Percent(part: int, whole: int): int {
    if whole > 0 then RoundHalfEven(100 * part, whole) else 0
  }

  class Session {
    var clauses: map<string, string>
    var documentLoaded: bool
    var queryCount: int
    var localCount: int
    var cloudCount: int
    var totalWordsSentToCloud: int

    /** Every query is counted once, either as local or as cloud. */
    ghost predicate Valid()
      reads this
    {
      0 <= localCount && 0 <= cloudCount && queryCount == localCount + cloudCount
    }

    constructor ()
      ensures clauses == map[] && !documentLoaded
      ensures queryCount == 0 && localCount == 0 && cloudCount == 0 && totalWordsSentToCloud == 0
      ensures Valid()
    {
      clauses := map[];
      documentLoaded := false;
      queryCount := 0;
      localCount := 0;
      cloudCount := 0;
      totalWordsSentToCloud := 0;
    }

    /**
     * `record_query(source, latency_ms, words_sent)`: one more query, local exactly when
     * the source is "on-device"; the words sent count only for the cloud.
     */
    method RecordQuery(source: string, wordsSent: int)
      modifies this
      ensures queryCount == old(queryCount) + 1
      ensures source == "on-device" ==>
        localCount == old(localCount) + 1 && cloudCount == old(cloudCount)
        && totalWordsSentToCloud == old(totalWordsSentToCloud)
      ensures source != "on-device" ==>
        localCount == old(localCount) && cloudCount == old(cloudCount) + 1
        && totalWordsSentToCloud == old(totalWordsSentToCloud) + wordsSent
      ensures wordsSent >= 0 ==> totalWordsSentToCloud >= old(totalWordsSentToCloud)
      ensures clauses == old(clauses) && documentLoaded == old(documentLoaded)
      ensures old(Valid()) ==> Valid()
    {
      queryCount := queryCount + 1;
      if source == "on-device" {
        localCount := localCount + 1;
      } else {
        cloudCount := cloudCount + 1;
        totalWordsSentToCloud := totalWordsSentToCloud + wordsSent;
      }
    }

    /** `stats()`: the counters as they stand and the two rounded percentages. */
    function Stats(): (r: SessionStats)
      reads this
      ensures r.queryCount == queryCount && r.localCount == localCount && r.cloudCount == cloudCount
      ensures r.totalWordsSentToCloud == totalWordsSentToCloud
      ensures queryCount <= 0 ==> r.localPct == 0 && r.cloudPct == 0
      ensures queryCount > 0 ==>
        r.localPct == RoundHalfEven(100 * localCount, queryCount)
        && r.cloudPct == RoundHalfEven(100 * cloudCount, queryCount)
    {
      SessionStats(
        queryCount, localCount, cloudCount,
        Percent(localCount, queryCount), Percent(cloudCount, queryCount),
        totalWordsSentToCloud)
    }

    /** `reset()`: every field back to its default. */
    method Reset()
      modifies this
      ensures clauses == map[] && !documentLoaded
      ensures queryCount == 0 && localCount == 0 && cloudCount == 0 && totalWordsSentToCloud == 0
      ensures Valid()
    {
      clauses := map[];
      documentLoaded := false;
      queryCount := 0;
      localCount := 0;
      cloudCount := 0;
      totalWordsSentToCloud := 0;
    }
  }

  /** The two percentages of a session with queries add up to exactly 100. */
  lemma PercentagesSum(queryCount: int, localCount: int, cloudCount: int)
    requires 0 < queryCount == localCount + cloudCount
    ensures Percent(localCount, queryCount) + Percent(cloudCount, queryCount) == 100
  {
    RoundComplement(100 * localCount, 100 * cloudCount, queryCount);
  }

  /** A share of the queries rounds to a percentage between 0 and 100. */
  lemma PercentBounds(part: int, whole: int)
    requires 0 <= part <= whole
    ensures 0 <= Percent(part, whole) <= 100
  {
    if whole > 0 {
      var n := 100 * part;
      var r := RoundHalfEven(n, whole);
      assert n <= 100 * whole;
      if r < 0 {
        ScaleBelow(r, -1, whole);
      }
      if r > 100 {
        ScaleBelow(101, r, whole);
      }
    }
  }

  /**
   * On a session that counted every query as local or cloud, the two percentages `stats`
   * reports lie between 0 and 100 and add up to exactly 100 once a query was recorded.
   */
  lemma StatsPercentages(s: Session)
    requires s.Valid()
    ensures 0 <= s.Stats().localPct <= 100 && 0 <= s.Stats().cloudPct <= 100
    ensures s.queryCount > 0 ==> s.Stats().localPct + s.Stats().cloudPct == 100
  {
    PercentBounds(s.localCount, s.queryCount);
    PercentBounds(s.cloudCount, s.queryCount);
    if s.queryCount > 0 {
      PercentagesSum(s.queryCount, s.localCount, s.cloudCount);
    }
  }
}
