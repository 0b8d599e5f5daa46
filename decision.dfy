/**
 * `decideFate`: skip an item whose like count is below the threshold, with a
 * cap on how many items are skipped in a row.
 */
module Decision {
  import opened JsNumbers

  /** At most this many items are skipped in a row before the engine lets one play. */
  const MaxConsecutiveSkips: int := 20

  /** What `decideFate` does: whether it dispatches a skip, and the consecutive-skip counter it leaves. */
  datatype Fate = Fate(skip: bool, skips: int)

  /**
   * `decideFate(videoId, likeCount)` with the counter `skips`: below the
   * threshold and under the cap, one skip and the counter goes up by one;
   * below the threshold at the cap, no skip and the counter is reset; at or
   * above the threshold (or a NaN count), no skip and the counter is reset.
   */
  function DecideFate(count: JsNumber, threshold: int, skips: int): (f: Fate)
    ensures f.skip <==> LessThan(count, threshold) && skips < MaxConsecutiveSkips
    ensures f.skip ==> f.skips == skips + 1
    ensures !f.skip ==> f.skips == 0
  {
    if LessThan(count, threshold) then
      if skips >= MaxConsecutiveSkips then Fate(false, 0)
      else Fate(true, skips + 1)
    else Fate(false, 0)
  }

  /** The fates of the items in `counts`, decided one after another from the counter `skips`. */
  function Run(counts: seq<JsNumber>, threshold: int, skips: int): (fates: seq<Fate>)
    ensures |fates| == |counts|
  {
    if counts == [] then []
    else
      var f := DecideFate(counts[0], threshold, skips);
      [f] + Run(counts[1..], threshold, f.skips)
  }

  /** The counter each item of a run is decided with: `skips` for the first, the previous fate's counter after. */
  function CounterBefore(fates: seq<Fate>, skips: int, k: nat): int
    requires k <= |fates|
  {
    if k == 0 then skips else fates[k - 1].skips
  }

  /** Item `k` of a run is decided from the counter the item before it left. */
  lemma {:induction false} RunStep(counts: seq<JsNumber>, threshold: int, skips: int, k: nat)
    requires k < |counts|
    ensures Run(counts, threshold, skips)[k]
         == DecideFate(counts[k], threshold, CounterBefore(Run(counts, threshold, skips), skips, k))
  {
    if k > 0 {
      var f := DecideFate(counts[0], threshold, skips);
      RunStep(counts[1..], threshold, f.skips, k - 1);
      var rest := Run(counts[1..], threshold, f.skips);
      assert Run(counts, threshold, skips) == [f] + rest;
      if k > 1 {
        assert CounterBefore(rest, f.skips, k - 1) == rest[k - 2].skips;
      }
    }
  }

  /** Along any run that starts with a counter in range, every counter stays in `0..MaxConsecutiveSkips`. */
  lemma {:induction false} RunCounterInRange(counts: seq<JsNumber>, threshold: int, skips: int)
    requires 0 <= skips <= MaxConsecutiveSkips
    ensures forall k :: 0 <= k < |counts| ==> 0 <= Run(counts, threshold, skips)[k].skips <= MaxConsecutiveSkips
  {
    if counts != [] {
      var f := DecideFate(counts[0], threshold, skips);
      RunCounterInRange(counts[1..], threshold, f.skips);
      var rest := Run(counts[1..], threshold, f.skips);
      assert Run(counts, threshold, skips) == [f] + rest;
    }
  }

  /** A streak of `m` skips ending at item `k` leaves a counter of at least `m`. */
  lemma {:induction false} StreakCounter(counts: seq<JsNumber>, threshold: int, skips: int, k: nat, m: nat)
    requires 0 <= skips && k < |counts| && m <= k + 1
    requires forall i :: k + 1 - m <= i <= k ==> Run(counts, threshold, skips)[i].skip
    ensures Run(counts, threshold, skips)[k].skips >= m
  {
    var fates := Run(counts, threshold, skips);
    RunStep(counts, threshold, skips, k);
    if m > 0 && k > 0 {
      StreakCounter(counts, threshold, skips, k - 1, m - 1);
    }
    assert CounterBefore(fates, skips, k) >= 0 by {
      if k > 0 {
        NonNegativeCounters(counts, threshold, skips, k - 1);
      }
    }
  }

  lemma {:induction false} NonNegativeCounters(counts: seq<JsNumber>, threshold: int, skips: int, k: nat)
    requires 0 <= skips && k < |counts|
    ensures Run(counts, threshold, skips)[k].skips >= 0
  {
    RunStep(counts, threshold, skips, k);
    if k > 0 {
      NonNegativeCounters(counts, threshold, skips, k - 1);
    }
  }

  /** The safety cap: from a counter in range, no run ever skips more than `MaxConsecutiveSkips` items in a row. */
  lemma AtMostTwentyInARow(counts: seq<JsNumber>, threshold: int, skips: int, start: nat, m: nat)
    requires 0 <= skips <= MaxConsecutiveSkips
    requires start + m <= |counts|
    requires forall i :: start <= i < start + m ==> Run(counts, threshold, skips)[i].skip
    ensures m <= MaxConsecutiveSkips
  {
    if m > 0 {
      StreakCounter(counts, threshold, skips, start + m - 1, m);
      RunCounterInRange(counts, threshold, skips);
    }
  }

  /**
   * When every count is below the threshold, the counter cycles: the item
   * `k` steps after a counter `skips` leaves `(skips + k + 1) % 21`, and it
   * is skipped unless the counter it meets is already at the cap.
   */
  lemma {:induction false} AllBelowThreshold(counts: seq<JsNumber>, threshold: int, skips: int, k: nat)
    requires 0 <= skips <= MaxConsecutiveSkips
    requires forall i :: 0 <= i < |counts| ==> LessThan(counts[i], threshold)
    requires k < |counts|
    ensures Run(counts, threshold, skips)[k].skips == (skips + k + 1) % (MaxConsecutiveSkips + 1)
    ensures Run(counts, threshold, skips)[k].skip <==> (skips + k) % (MaxConsecutiveSkips + 1) != MaxConsecutiveSkips
  {
    var before := CounterBefore(Run(counts, threshold, skips), skips, k);
    assert before == (skips + k) % (MaxConsecutiveSkips + 1) by {
      if k > 0 {
        AllBelowThreshold(counts, threshold, skips, k - 1);
      }
    }
    RunStep(counts, threshold, skips, k);
    CounterWraps(skips + k);
  }

  /** The counter steps up by one modulo `MaxConsecutiveSkips + 1`. */
  lemma CounterWraps(x: nat)
    ensures (x + 1) % (MaxConsecutiveSkips + 1)
         == if x % (MaxConsecutiveSkips + 1) == MaxConsecutiveSkips then 0 else x % (MaxConsecutiveSkips + 1) + 1
  {
  }

  /** Twenty-one zero counts in a row from a fresh counter: twenty skips, then one item kept with the counter reset. */
  lemma TwentyOneZeros(threshold: int)
    requires threshold > 0
    ensures var fates := Run(seq(21, _ => Zero), threshold, 0);
      (forall k :: 0 <= k < 20 ==> fates[k].skip && fates[k].skips == k + 1)
      && !fates[20].skip && fates[20].skips == 0
  {
    var counts := seq(21, _ => Zero);
    forall k | 0 <= k < 21
      ensures Run(counts, threshold, 0)[k].skips == (k + 1) % 21
      ensures Run(counts, threshold, 0)[k].skip <==> k % 21 != 20
    {
      AllBelowThreshold(counts, threshold, 0, k);
    }
  }

  /** With threshold 1000, the counts 500, 2000, 999, 1000: skip, keep, skip, keep, with counters 1, 0, 1, 0. */
  lemma MixedCountsExample()
    ensures Run([Finite(Scaled(500, 0)), Finite(Scaled(2000, 0)), Finite(Scaled(999, 0)), Finite(Scaled(1000, 0))], 1000, 0)
         == [Fate(true, 1), Fate(false, 0), Fate(true, 1), Fate(false, 0)]
  {
  }
}
