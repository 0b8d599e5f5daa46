/**
 * One tick of `pollLikeCount` and the chain of ticks it schedules for one
 * item: abort when the page has moved on, decide as soon as a count is found,
 * decide with 0 once the wait is used up, otherwise poll again later.
 */
module Polling {
  import opened Wrappers
  import opened JsNumbers

  const PollInterval: nat := 400
  const MaxWait: nat := 4000
  /** The wait between the last DOM mutation and the check that starts a poll chain; documentation only, since wall-clock time is not modelled. */
  const SettleDelay: nat := 800

  /** What one tick of `pollLikeCount` does. */
  datatype PollOutcome = Aborted | Decided(count: JsNumber) | Retry(elapsed: nat)

  /**
   * One tick at `elapsed` milliseconds: `current` says the page is still on
   * the Shorts feed showing the polled item, `found` is what `getLikeCount()`
   * returned.
   */
  function PollStep(current: bool, found: Option<JsNumber>, elapsed: nat): (o: PollOutcome)
    ensures o.Aborted? <==> !current
    ensures current && found.Some? ==> o == Decided(found.value)
    ensures current && found.None? && elapsed >= MaxWait ==> o == Decided(Zero)
    ensures o.Retry? <==> current && found.None? && elapsed < MaxWait
    ensures o.Retry? ==> o.elapsed == elapsed + PollInterval
  {
    if !current then Aborted
    else if found.Some? then Decided(found.value)
    else if elapsed >= MaxWait then Decided(Zero)
    else Retry(elapsed + PollInterval)
  }

  /**
   * The ticks of one chain for an item that stays current, starting at
   * `elapsed`, with `results[i]` what the `i`-th tick's extraction returns:
   * the count decided and the number of ticks it took, or None when the
   * results run out first.
   */
  function RunPoll(results: seq<Option<JsNumber>>, elapsed: nat): (r: Option<(JsNumber, nat)>)
    ensures r.Some? ==> 1 <= r.value.1 <= |results|
    ensures r.Some? ==> forall i :: 0 <= i < r.value.1 - 1 ==> results[i].None?
    ensures r.Some? ==> r.value.0 == if results[r.value.1 - 1].Some? then results[r.value.1 - 1].value else Zero
    ensures r.Some? && results[r.value.1 - 1].None? ==> elapsed + (r.value.1 - 1) * PollInterval >= MaxWait
    decreases |results|
  {
    if results == [] then None
    else
      match PollStep(true, results[0], elapsed)
      case Decided(c) => Some((c, 1))
      case Retry(next) =>
        (match RunPoll(results[1..], next)
         case Some((c, n)) => Some((c, n + 1))
         case None => None)
      case Aborted => None
  }

  /**
   * Bounded polling: a chain started at a multiple of the interval no later
   * than `MaxWait` decides within `(MaxWait - elapsed) / PollInterval + 1`
   * ticks, so a chain started at 0 runs at most 11 extractions.
   */
  lemma {:induction false} PollDecidesInTime(results: seq<Option<JsNumber>>, elapsed: nat)
    requires elapsed % PollInterval == 0 && elapsed <= MaxWait
    requires |results| >= (MaxWait - elapsed) / PollInterval + 1
    ensures RunPoll(results, elapsed).Some?
    ensures RunPoll(results, elapsed).value.1 <= (MaxWait - elapsed) / PollInterval + 1
    decreases MaxWait - elapsed
  {
    if PollStep(true, results[0], elapsed).Retry? {
      PollDecidesInTime(results[1..], elapsed + PollInterval);
    }
  }

  /** The first tick that finds a count decides with it: no later tick runs. */
  lemma {:induction false} FirstFoundWins(results: seq<Option<JsNumber>>, elapsed: nat, k: nat)
    requires elapsed + k * PollInterval <= MaxWait
    requires k < |results| && results[k].Some?
    requires forall i :: 0 <= i < k ==> results[i].None?
    ensures RunPoll(results, elapsed) == Some((results[k].value, k + 1))
  {
    if k > 0 {
      assert results[0].None?;
      FirstFoundWins(results[1..], elapsed + PollInterval, k - 1);
    }
  }

  /** A count that never appears is treated as 0 after exactly 11 ticks of a chain started at 0. */
  lemma NeverFoundIsZero(results: seq<Option<JsNumber>>)
    requires |results| >= 11
    requires forall i :: 0 <= i < |results| ==> results[i].None?
    ensures RunPoll(results, 0) == Some((Zero, 11))
  {
    NeverFoundFrom(results, 0);
  }

  lemma {:induction false} NeverFoundFrom(results: seq<Option<JsNumber>>, elapsed: nat)
    requires elapsed % PollInterval == 0 && elapsed <= MaxWait
    requires |results| >= (MaxWait - elapsed) / PollInterval + 1
    requires forall i :: 0 <= i < |results| ==> results[i].None?
    ensures RunPoll(results, elapsed) == Some((Zero, (MaxWait - elapsed) / PollInterval + 1))
    decreases MaxWait - elapsed
  {
    if elapsed < MaxWait {
      NeverFoundFrom(results[1..], elapsed + PollInterval);
    }
  }
}
