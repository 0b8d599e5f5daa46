/**
 * The state machine of the content script as values: the module state of
 * content.js (the observer, the last processed item, the consecutive-skip
 * counter, the pending check) together with the timers it has armed, and the
 * state each handler leaves behind. The `Monitor` class is proved against
 * these functions; the properties of the engine are lemmas about them.
 */
module Lifecycle {
  import opened Wrappers
  import opened JsNumbers
  import opened Route
  import opened Dom
  import opened Extraction
  import opened Decision
  import opened Polling

  const DefaultThreshold: int := 1000
  /** The retry delay of `tryActivate`; documentation only, since wall-clock time is not modelled. */
  const ActivateRetryInterval: nat := 500
  const ActivateMaxRetries: nat := 10

  type TimerId = nat

  /** The callback of an armed `setTimeout`. */
  datatype Task =
    | RetryActivate(attempt: nat)           // `tryActivate(attempt)` after `ActivateRetryInterval`
    | Check                                 // the debounced check after `SettleDelay`
    | Poll(videoId: string, elapsed: nat)   // `pollLikeCount(videoId, elapsed)` after `PollInterval`

  /** What the handlers read but never write: `location.pathname`, the page, the threshold setting. */
  datatype Env = Env(path: string, page: Page, threshold: int)

  /**
   * The state the handlers write. `observed` is the container the
   * MutationObserver watches (None for `observer === null`); `timers` are the
   * armed timeouts by id, `nextTimer` the id the next one gets; `skipped` lists
   * the items a skip was dispatched for, in order.
   */
  datatype Core = Core(
    observed: Option<string>,
    lastVideoId: Option<string>,
    consecutiveSkips: int,
    pendingCheck: Option<TimerId>,
    timers: map<TimerId, Task>,
    nextTimer: TimerId,
    skipped: seq<string>)

  /** The state when the script loads. */
  const Initial: Core := Core(None, None, 0, None, map[], 0, [])

  /** Every armed timer has an id that was handed out already. */
  predicate TimersBelowNext(c: Core)
  {
    forall id :: id in c.timers ==> id < c.nextTimer
  }

  /** At most one check is armed, and `pendingCheck` names it. */
  predicate OnePendingCheck(c: Core)
  {
    (c.pendingCheck.Some? ==> c.pendingCheck.value in c.timers && c.timers[c.pendingCheck.value] == Check)
    && (forall id :: id in c.timers && c.timers[id] == Check ==> c.pendingCheck == Some(id))
  }

  /** Retries carry attempts `1..ActivateMaxRetries`; polls carry elapsed times on the interval grid up to `MaxWait`. */
  predicate TasksInRange(c: Core)
  {
    (forall id :: id in c.timers && c.timers[id].RetryActivate? ==> 1 <= c.timers[id].attempt <= ActivateMaxRetries)
    && (forall id :: id in c.timers && c.timers[id].Poll? ==>
          c.timers[id].elapsed % PollInterval == 0 && PollInterval <= c.timers[id].elapsed <= MaxWait)
  }

  /** The invariant every event handler keeps. */
  predicate Valid(c: Core)
  {
    0 <= c.consecutiveSkips <= MaxConsecutiveSkips
    && TimersBelowNext(c)
    && OnePendingCheck(c)
    && (c.pendingCheck.Some? ==> c.observed.Some?)
    && TasksInRange(c)
  }

  /** `after` has dispatched at most one skip beyond those of `before`, and has forgotten none of them. */
  predicate AtMostOneSkipAdded(before: Core, after: Core)
  {
    |before.skipped| <= |after.skipped| <= |before.skipped| + 1 && after.skipped[..|before.skipped|] == before.skipped
  }

  /** `setTimeout(task, ...)`: the task armed under a fresh id. */
  function SetTimer(c: Core, task: Task): Core
  {
    c.(timers := c.timers[c.nextTimer := task], nextTimer := c.nextTimer + 1)
  }

  /** `cancelCheck()`. */
  function AfterCancelCheck(c: Core): (d: Core)
    ensures d.pendingCheck.None?
    ensures d.timers.Keys <= c.timers.Keys
    ensures forall id :: id in d.timers ==> d.timers[id] == c.timers[id]
    ensures d == c.(timers := d.timers, pendingCheck := None)
  {
    if c.pendingCheck.Some? then c.(timers := c.timers - {c.pendingCheck.value}, pendingCheck := None)
    else c
  }

  /** `scheduleCheck()`: cancel the pending check, arm a new one. */
  function AfterScheduleCheck(c: Core): (d: Core)
    ensures d.pendingCheck == Some(c.nextTimer) && d.nextTimer == c.nextTimer + 1
    ensures c.nextTimer in d.timers && d.timers[c.nextTimer] == Check
    ensures d.observed == c.observed && d.lastVideoId == c.lastVideoId
    ensures d.consecutiveSkips == c.consecutiveSkips && d.skipped == c.skipped
  {
    var d := AfterCancelCheck(c);
    SetTimer(d, Check).(pendingCheck := Some(d.nextTimer))
  }

  /** `decideFate(videoId, count)`: the counter update, and a skip recorded when one is dispatched. */
  function AfterDecideFate(c: Core, env: Env, videoId: string, count: JsNumber): (d: Core)
    ensures d.skipped != c.skipped <==> LessThan(count, env.threshold) && c.consecutiveSkips < MaxConsecutiveSkips
    ensures d.skipped != c.skipped ==> d.skipped == c.skipped + [videoId]
    ensures d.consecutiveSkips <= MaxConsecutiveSkips && (c.consecutiveSkips >= 0 ==> d.consecutiveSkips >= 0)
    ensures d == c.(consecutiveSkips := d.consecutiveSkips, skipped := d.skipped)
  {
    var f := DecideFate(count, env.threshold, c.consecutiveSkips);
    c.(consecutiveSkips := f.skips, skipped := if f.skip then c.skipped + [videoId] else c.skipped)
  }

  /** The poll for `videoId` still concerns the item on screen. */
  predicate IsCurrent(env: Env, videoId: string)
  {
    IsOnShorts(env.path) && GetVideoId(env.path) == Some(videoId)
  }

  /** One poll tick, given whether the item is still current and what `getLikeCount()` found. */
  function AfterPollTick(c: Core, env: Env, videoId: string, current: bool, found: Option<JsNumber>, elapsed: nat): (d: Core)
    ensures !current ==> d == c
    ensures AtMostOneSkipAdded(c, d)
    ensures d.observed == c.observed && d.lastVideoId == c.lastVideoId && d.pendingCheck == c.pendingCheck
  {
    match PollStep(current, found, elapsed)
    case Aborted => c
    case Decided(count) => AfterDecideFate(c, env, videoId, count)
    case Retry(next) => SetTimer(c, Poll(videoId, next))
  }

  /** `pollLikeCount(videoId, elapsed)`: a tick that reads the route and the page. */
  function AfterPoll(c: Core, env: Env, videoId: string, elapsed: nat): (d: Core)
    ensures !IsCurrent(env, videoId) ==> d == c
    ensures AtMostOneSkipAdded(c, d)
    ensures d.observed == c.observed && d.lastVideoId == c.lastVideoId && d.pendingCheck == c.pendingCheck
  {
    AfterPollTick(c, env, videoId, IsCurrent(env, videoId), LikeCount(env.page), elapsed)
  }

  /** `processCurrentShort()`. */
  function AfterProcess(c: Core, env: Env): (d: Core)
    ensures !IsOnShorts(env.path) ==> d == c
    ensures IsOnShorts(env.path) && GetVideoId(env.path).Some? ==> d.lastVideoId == GetVideoId(env.path)
    ensures AtMostOneSkipAdded(c, d)
    ensures d.observed == c.observed && d.pendingCheck == c.pendingCheck
  {
    if !IsOnShorts(env.path) then c
    else
      match GetVideoId(env.path)
      case None => c
      case Some(id) =>
        if c.lastVideoId == Some(id) then c
        else AfterPoll(c.(lastVideoId := Some(id)), env, id, 0)
  }

  /** `tryActivate(attempt)`. */
  function AfterTryActivate(c: Core, env: Env, attempt: nat): (d: Core)
    ensures c.observed.Some? || !IsOnShorts(env.path) ==> d == c
    ensures d.observed.Some? <==> c.observed.Some? || (IsOnShorts(env.path) && FirstContainer(env.page).Some?)
    ensures d.lastVideoId == c.lastVideoId && d.consecutiveSkips == c.consecutiveSkips && d.skipped == c.skipped
  {
    if c.observed.Some? || !IsOnShorts(env.path) then c
    else
      match FirstContainer(env.page)
      case None => if attempt < ActivateMaxRetries then SetTimer(c, RetryActivate(attempt + 1)) else c
      case Some(sel) => AfterScheduleCheck(c.(observed := Some(sel)))
  }

  /** `activate()`. */
  function AfterActivate(c: Core, env: Env): (d: Core)
    ensures c.observed.Some? ==> d == c
    ensures d.observed.Some? <==> c.observed.Some? || (IsOnShorts(env.path) && FirstContainer(env.page).Some?)
    ensures d.lastVideoId == c.lastVideoId && d.consecutiveSkips == c.consecutiveSkips && d.skipped == c.skipped
  {
    if c.observed.Some? then c else AfterTryActivate(c, env, 0)
  }

  /** `deactivate()`. */
  function AfterDeactivate(c: Core): (d: Core)
    ensures d.observed.None? && d.pendingCheck.None? && d.lastVideoId.None? && d.consecutiveSkips == 0
    ensures d.timers.Keys <= c.timers.Keys && d.nextTimer == c.nextTimer && d.skipped == c.skipped
  {
    AfterCancelCheck(c.(observed := None)).(lastVideoId := None, consecutiveSkips := 0)
  }

  /** `onRouteChange()`. */
  function AfterRouteChange(c: Core, env: Env): (d: Core)
    ensures !IsOnShorts(env.path) ==> d.observed.None? && d.lastVideoId.None? && d.consecutiveSkips == 0
    ensures IsOnShorts(env.path) ==> d.lastVideoId == c.lastVideoId && d.consecutiveSkips == c.consecutiveSkips
    ensures d.skipped == c.skipped
  {
    if IsOnShorts(env.path) then AfterActivate(c, env) else AfterDeactivate(c)
  }

  /** The callback of a timer that fired: a check first clears `pendingCheck`. */
  function AfterTask(c: Core, env: Env, task: Task): (d: Core)
    ensures task.RetryActivate? ==> d.skipped == c.skipped
    ensures AtMostOneSkipAdded(c, d)
  {
    match task
    case RetryActivate(attempt) => AfterTryActivate(c, env, attempt)
    case Check => AfterProcess(c.(pendingCheck := None), env)
    case Poll(videoId, elapsed) => AfterPoll(c, env, videoId, elapsed)
  }

  /** The timer `id` fires: it is disarmed and its callback runs. */
  function AfterTimer(c: Core, env: Env, id: TimerId): (d: Core)
    requires id in c.timers
    ensures AtMostOneSkipAdded(c, d)
  {
    AfterTask(c.(timers := c.timers - {id}), env, c.timers[id])
  }

  // ----- The invariant -----

  lemma InitialValid()
    ensures Valid(Initial)
  {
  }

  /** Arming a timer other than a check keeps the invariant. */
  lemma SetTimerValid(c: Core, task: Task)
    requires Valid(c) && !task.Check?
    requires task.RetryActivate? ==> 1 <= task.attempt <= ActivateMaxRetries
    requires task.Poll? ==> task.elapsed % PollInterval == 0 && PollInterval <= task.elapsed <= MaxWait
    ensures Valid(SetTimer(c, task))
  {
    var d := SetTimer(c, task);
    assert c.nextTimer !in c.timers;
    forall id | id in d.timers && d.timers[id] == Check ensures d.pendingCheck == Some(id) {
      assert id != c.nextTimer && id in c.timers;
    }
  }

  /** `cancelCheck()` disarms the pending check and leaves no check armed; every other timer stays. */
  lemma CancelCheckClears(c: Core)
    requires OnePendingCheck(c)
    ensures AfterCancelCheck(c).pendingCheck.None?
    ensures forall id :: id in AfterCancelCheck(c).timers ==> AfterCancelCheck(c).timers[id] != Check
    ensures forall id :: id in c.timers && c.timers[id] != Check ==>
              id in AfterCancelCheck(c).timers && AfterCancelCheck(c).timers[id] == c.timers[id]
    ensures AfterCancelCheck(c).timers.Keys <= c.timers.Keys
    ensures AfterCancelCheck(c) == c.(timers := AfterCancelCheck(c).timers, pendingCheck := None)
  {
  }

  /**
   * Debounce: `scheduleCheck()` leaves exactly one check armed, under the
   * newest id, disarms the one that was pending, and keeps every other timer.
   */
  lemma ScheduleCheckDebounces(c: Core)
    requires Valid(c) && c.observed.Some?
    ensures var d := AfterScheduleCheck(c);
      d.pendingCheck == Some(c.nextTimer)
      && d.nextTimer == c.nextTimer + 1
      && (forall id :: id in d.timers && d.timers[id] == Check ==> id == c.nextTimer)
      && (c.pendingCheck.Some? ==> c.pendingCheck.value !in d.timers)
      && (forall id :: id in c.timers && c.timers[id] != Check ==> id in d.timers && d.timers[id] == c.timers[id])
      && Valid(d)
  {
    CancelCheckClears(c);
    var e := AfterCancelCheck(c);
    var d := AfterScheduleCheck(c);
    assert c.nextTimer !in e.timers;
    forall id | id in d.timers ensures id < d.nextTimer {
      if id != c.nextTimer {
        assert id in e.timers;
      }
    }
  }

  /** The state after `n` mutations in a row, each answered by `onMutation()`. */
  function Mutations(c: Core, n: nat): Core
  {
    if n == 0 then c else AfterScheduleCheck(Mutations(c, n - 1))
  }

  /**
   * A burst of mutations collapses into one check: after `n >= 1` of them
   * exactly one check is armed, the last one scheduled, and the other timers
   * and the rest of the state are as before.
   */
  lemma {:induction false} MutationBurst(c: Core, n: nat)
    requires Valid(c) && c.observed.Some? && n >= 1
    ensures var d := Mutations(c, n);
      d.pendingCheck == Some(c.nextTimer + n - 1)
      && (forall id :: id in d.timers && d.timers[id] == Check ==> id == c.nextTimer + n - 1)
      && (forall id :: id in c.timers && c.timers[id] != Check ==> id in d.timers && d.timers[id] == c.timers[id])
      && d.nextTimer == c.nextTimer + n
      && d.observed == c.observed && d.lastVideoId == c.lastVideoId
      && d.consecutiveSkips == c.consecutiveSkips && d.skipped == c.skipped
      && Valid(d)
  {
    if n == 1 {
      ScheduleCheckDebounces(c);
    } else {
      MutationBurst(c, n - 1);
      var p := Mutations(c, n - 1);
      ScheduleCheckDebounces(p);
    }
  }

  /** `decideFate` keeps the invariant: it touches only the counter, which stays in range, and the skip record. */
  lemma DecideFateValid(c: Core, env: Env, videoId: string, count: JsNumber)
    requires Valid(c)
    ensures Valid(AfterDecideFate(c, env, videoId, count))
  {
  }

  lemma PollTickValid(c: Core, env: Env, videoId: string, current: bool, found: Option<JsNumber>, elapsed: nat)
    requires Valid(c) && elapsed % PollInterval == 0 && elapsed <= MaxWait
    ensures Valid(AfterPollTick(c, env, videoId, current, found, elapsed))
  {
    var o := PollStep(current, found, elapsed);
    if o.Retry? {
      SetTimerValid(c, Poll(videoId, o.elapsed));
    }
  }

  lemma PollValid(c: Core, env: Env, videoId: string, elapsed: nat)
    requires Valid(c) && elapsed % PollInterval == 0 && elapsed <= MaxWait
    ensures Valid(AfterPoll(c, env, videoId, elapsed))
  {
    PollTickValid(c, env, videoId, IsCurrent(env, videoId), LikeCount(env.page), elapsed);
  }

  lemma ProcessValid(c: Core, env: Env)
    requires Valid(c)
    ensures Valid(AfterProcess(c, env))
  {
    if IsOnShorts(env.path) && GetVideoId(env.path).Some? && c.lastVideoId != GetVideoId(env.path) {
      PollValid(c.(lastVideoId := GetVideoId(env.path)), env, GetVideoId(env.path).value, 0);
    }
  }

  lemma TryActivateValid(c: Core, env: Env, attempt: nat)
    requires Valid(c)
    ensures Valid(AfterTryActivate(c, env, attempt))
  {
    if c.observed.None? && IsOnShorts(env.path) {
      match FirstContainer(env.page)
      case None =>
        if attempt < ActivateMaxRetries {
          SetTimerValid(c, RetryActivate(attempt + 1));
        }
      case Some(sel) =>
        ScheduleCheckDebounces(c.(observed := Some(sel)));
    }
  }

  lemma DeactivateValid(c: Core)
    requires Valid(c)
    ensures Valid(AfterDeactivate(c))
  {
    CancelCheckClears(c.(observed := None));
  }

  /**
   * Script load: the first `onRouteChange()` off the feed leaves the initial
   * state; on the feed it is the first attempt to activate.
   */
  lemma Startup(env: Env)
    ensures Valid(AfterRouteChange(Initial, env))
    ensures !IsOnShorts(env.path) ==> AfterRouteChange(Initial, env) == Initial
    ensures IsOnShorts(env.path) ==> AfterRouteChange(Initial, env) == AfterTryActivate(Initial, env, 0)
  {
    InitialValid();
    RouteChangeValid(Initial, env);
  }

  /** Every event keeps the invariant: a route change, a mutation while observing, any armed timer firing. */
  lemma RouteChangeValid(c: Core, env: Env)
    requires Valid(c)
    ensures Valid(AfterRouteChange(c, env))
  {
    if IsOnShorts(env.path) {
      if c.observed.None? {
        TryActivateValid(c, env, 0);
      }
    } else {
      DeactivateValid(c);
    }
  }

  lemma MutationValid(c: Core)
    requires Valid(c) && c.observed.Some?
    ensures Valid(AfterScheduleCheck(c))
  {
    ScheduleCheckDebounces(c);
  }

  lemma TimerValid(c: Core, env: Env, id: TimerId)
    requires Valid(c) && id in c.timers
    ensures Valid(AfterTimer(c, env, id))
  {
    var d := c.(timers := c.timers - {id});
    match c.timers[id]
    case RetryActivate(attempt) =>
      assert Valid(d);
      TryActivateValid(d, env, attempt);
    case Check =>
      assert Valid(d.(pendingCheck := None));
      ProcessValid(d.(pendingCheck := None), env);
    case Poll(videoId, elapsed) =>
      assert Valid(d);
      PollValid(d, env, videoId, elapsed);
  }

  // ----- Lifecycle -----

  /** With an observer in place, `activate()` and `tryActivate()` do nothing. */
  lemma ActivateWhenObserving(c: Core, env: Env, attempt: nat)
    requires c.observed.Some?
    ensures AfterActivate(c, env) == c && AfterTryActivate(c, env, attempt) == c
  {
  }

  /**
   * `tryActivate` without a container: it arms the next attempt while
   * attempts remain, and after the last one gives up with no observer and
   * nothing armed.
   */
  lemma TryActivateWithoutContainer(c: Core, env: Env, attempt: nat)
    requires c.observed.None? && IsOnShorts(env.path) && FirstContainer(env.page).None?
    ensures attempt < ActivateMaxRetries ==> AfterTryActivate(c, env, attempt) == SetTimer(c, RetryActivate(attempt + 1))
    ensures attempt >= ActivateMaxRetries ==> AfterTryActivate(c, env, attempt) == c
    ensures AfterTryActivate(c, env, attempt).observed.None?
  {
  }

  /** `tryActivate` with a container: it observes the first container found and arms a check. */
  lemma TryActivateWithContainer(c: Core, env: Env, attempt: nat)
    requires Valid(c) && c.observed.None? && IsOnShorts(env.path) && FirstContainer(env.page).Some?
    ensures AfterTryActivate(c, env, attempt).observed == FirstContainer(env.page)
    ensures AfterTryActivate(c, env, attempt).pendingCheck == Some(c.nextTimer)
  {
    CancelCheckClears(c.(observed := FirstContainer(env.page)));
  }

  /** With a container on the page, activating twice is activating once. */
  lemma ActivateTwiceWithContainer(c: Core, env: Env)
    requires FirstContainer(env.page).Some?
    ensures AfterActivate(AfterActivate(c, env), env) == AfterActivate(c, env)
  {
  }

  /**
   * Without one, `activate()` guards only on the observer: a second call
   * before the first retry fires arms a second retry chain.
   */
  lemma ActivateTwiceWithoutContainer(c: Core, env: Env)
    requires c.observed.None? && IsOnShorts(env.path) && FirstContainer(env.page).None?
    ensures AfterActivate(AfterActivate(c, env), env).timers
         == c.timers[c.nextTimer := RetryActivate(1)][c.nextTimer + 1 := RetryActivate(1)]
  {
  }

  /** The retry chain is bounded: a retry fired at any attempt never arms one past `ActivateMaxRetries`. */
  lemma RetryChainBounded(c: Core, env: Env, attempt: nat)
    requires Valid(c)
    ensures forall id :: id in AfterTryActivate(c, env, attempt).timers && AfterTryActivate(c, env, attempt).timers[id].RetryActivate? ==>
              AfterTryActivate(c, env, attempt).timers[id].attempt <= ActivateMaxRetries
  {
    TryActivateValid(c, env, attempt);
  }

  /** `deactivate()` drops the observer, the pending check, the last item and the counter, and leaves no check armed. */
  lemma DeactivateResets(c: Core)
    requires Valid(c)
    ensures var d := AfterDeactivate(c);
      d.observed.None? && d.pendingCheck.None? && d.lastVideoId.None? && d.consecutiveSkips == 0
      && (forall id :: id in d.timers ==> d.timers[id] != Check)
  {
    CancelCheckClears(c.(observed := None));
  }

  /** A route change off the Shorts feed deactivates; one onto it never drops an observer. */
  lemma RouteChangeCases(c: Core, env: Env)
    requires Valid(c)
    ensures !IsOnShorts(env.path) ==> AfterRouteChange(c, env) == AfterDeactivate(c)
    ensures IsOnShorts(env.path) && c.observed.Some? ==> AfterRouteChange(c, env) == c
    ensures IsOnShorts(env.path) ==> AfterRouteChange(c, env).consecutiveSkips == c.consecutiveSkips
  {
  }

  // ----- The debounced check -----

  /** A firing check clears `pendingCheck` before processing, and processing never arms another check. */
  lemma CheckFiring(c: Core, env: Env, id: TimerId)
    requires Valid(c) && id in c.timers && c.timers[id] == Check
    ensures AfterTimer(c, env, id).pendingCheck.None?
    ensures forall t :: t in AfterTimer(c, env, id).timers ==> AfterTimer(c, env, id).timers[t] != Check
  {
    TimerValid(c, env, id);
  }

  // ----- The duplicate-item guard -----

  /** `processCurrentShort()` starts nothing off the feed, without an id, or for the item it processed last. */
  lemma ProcessGuards(c: Core, env: Env)
    requires !IsOnShorts(env.path) || GetVideoId(env.path).None? || GetVideoId(env.path) == c.lastVideoId
    ensures AfterProcess(c, env) == c
  {
  }

  /** Otherwise it records the item as processed before its first poll. */
  lemma ProcessRecordsItem(c: Core, env: Env)
    requires IsOnShorts(env.path) && GetVideoId(env.path).Some? && GetVideoId(env.path) != c.lastVideoId
    ensures AfterProcess(c, env).lastVideoId == GetVideoId(env.path)
    ensures AfterProcess(c, env) == AfterPoll(c.(lastVideoId := GetVideoId(env.path)), env, GetVideoId(env.path).value, 0)
  {
  }

  /** Processing the same page twice is processing it once: the second check finds the item already handled. */
  lemma ProcessIdempotent(c: Core, env: Env)
    ensures AfterProcess(AfterProcess(c, env), env) == AfterProcess(c, env)
  {
    if IsOnShorts(env.path) && GetVideoId(env.path).Some? && GetVideoId(env.path) != c.lastVideoId {
      ProcessRecordsItem(c, env);
      ProcessGuards(AfterProcess(c, env), env);
    }
  }

  /**
   * `deactivate` forgets the last item but leaves poll timeouts armed: after
   * leaving the feed, a poll chain that was running is still running.
   */
  lemma PollSurvivesLeaving(c: Core, env: Env, t: TimerId)
    requires Valid(c) && !IsOnShorts(env.path)
    requires t in c.timers && c.timers[t].Poll?
    ensures var d := AfterRouteChange(c, env);
      d.lastVideoId.None? && t in d.timers && d.timers[t] == c.timers[t]
  {
    assert c.pendingCheck != Some(t);
  }

  /**
   * Back on the same item with a poll chain for it still armed, the next check
   * starts a second chain for that item: both are armed afterwards.
   */
  lemma SecondPollChain(c: Core, env: Env, t: TimerId, id: string)
    requires TimersBelowNext(c) && c.lastVideoId.None?
    requires t in c.timers && c.timers[t].Poll? && c.timers[t].videoId == id
    requires IsCurrent(env, id) && LikeCount(env.page).None?
    ensures var d := AfterProcess(c, env);
      t in d.timers && d.timers[t] == c.timers[t]
      && c.nextTimer in d.timers && d.timers[c.nextTimer] == Poll(id, PollInterval)
      && t != c.nextTimer
  {
    ProcessRecordsItem(c, env);
    PollRetries(c.(lastVideoId := Some(id)), env, id, 0);
  }

  /** A poll tick for the item on screen that finds no count before the wait is over arms the next tick. */
  lemma PollRetries(c: Core, env: Env, id: string, elapsed: nat)
    requires IsCurrent(env, id) && LikeCount(env.page).None? && elapsed < MaxWait
    ensures AfterPoll(c, env, id, elapsed) == SetTimer(c, Poll(id, elapsed + PollInterval))
  {
    PollCases(c, env, id, true, None, elapsed);
  }

  /**
   * Two armed poll chains for one item each dispatch a skip when they find a
   * count below the threshold: the same item is skipped twice.
   */
  lemma SameItemSkippedTwice(c: Core, env: Env, t1: TimerId, t2: TimerId, id: string, count: JsNumber)
    requires t1 != t2 && t1 in c.timers && t2 in c.timers
    requires c.timers[t1].Poll? && c.timers[t1].videoId == id
    requires c.timers[t2].Poll? && c.timers[t2].videoId == id
    requires IsCurrent(env, id) && LikeCount(env.page) == Some(count)
    requires LessThan(count, env.threshold) && 0 <= c.consecutiveSkips < MaxConsecutiveSkips - 1
    ensures var d := AfterTimer(c, env, t1);
      t2 in d.timers && AfterTimer(d, env, t2).skipped == c.skipped + [id, id]
  {
    PollTimerSkips(c, env, t1, id, count);
    var d := AfterTimer(c, env, t1);
    assert t2 in d.timers && d.timers[t2] == c.timers[t2] && d.consecutiveSkips == c.consecutiveSkips + 1;
    PollTimerSkips(d, env, t2, id, count);
    assert d.skipped + [id] == c.skipped + [id, id];
  }

  /** A poll timer that fires for the item on screen and finds a count below the threshold, under the cap, skips the item. */
  lemma PollTimerSkips(c: Core, env: Env, t: TimerId, id: string, count: JsNumber)
    requires t in c.timers && c.timers[t].Poll? && c.timers[t].videoId == id
    requires IsCurrent(env, id) && LikeCount(env.page) == Some(count)
    requires LessThan(count, env.threshold) && c.consecutiveSkips < MaxConsecutiveSkips
    ensures AfterTimer(c, env, t)
         == c.(timers := c.timers - {t}, consecutiveSkips := c.consecutiveSkips + 1, skipped := c.skipped + [id])
  {
    PollTimerDecides(c, env, t, id, count);
    DecideFateSkips(c.(timers := c.timers - {t}), env, id, count);
  }

  /** A count below the threshold, under the cap, is a skip: the item is recorded and the counter goes up. */
  lemma DecideFateSkips(c: Core, env: Env, id: string, count: JsNumber)
    requires LessThan(count, env.threshold) && c.consecutiveSkips < MaxConsecutiveSkips
    ensures var d := AfterDecideFate(c, env, id, count);
      d == c.(consecutiveSkips := c.consecutiveSkips + 1, skipped := c.skipped + [id])
  {
  }

  /** A poll timer for the item on screen, firing when a count is found, decides with that count. */
  lemma PollTimerDecides(c: Core, env: Env, t: TimerId, id: string, count: JsNumber)
    requires t in c.timers && c.timers[t].Poll? && c.timers[t].videoId == id
    requires IsCurrent(env, id) && LikeCount(env.page) == Some(count)
    ensures AfterTimer(c, env, t) == AfterDecideFate(c.(timers := c.timers - {t}), env, id, count)
  {
    var c1 := c.(timers := c.timers - {t});
    var e := c.timers[t].elapsed;
    assert AfterTimer(c, env, t) == AfterPoll(c1, env, id, e);
    PollCases(c1, env, id, true, Some(count), e);
  }

  // ----- The poll loop -----

  /**
   * A tick for an item no longer on screen changes nothing; a tick that
   * finds a count decides at once; one at the end of the wait decides with 0;
   * any other tick arms the next one `PollInterval` later.
   */
  lemma PollCases(c: Core, env: Env, videoId: string, current: bool, found: Option<JsNumber>, elapsed: nat)
    ensures !current ==> AfterPollTick(c, env, videoId, current, found, elapsed) == c
    ensures current && found.Some? ==>
              AfterPollTick(c, env, videoId, current, found, elapsed) == AfterDecideFate(c, env, videoId, found.value)
    ensures current && found.None? && elapsed >= MaxWait ==>
              AfterPollTick(c, env, videoId, current, found, elapsed) == AfterDecideFate(c, env, videoId, Zero)
    ensures current && found.None? && elapsed < MaxWait ==>
              AfterPollTick(c, env, videoId, current, found, elapsed) == SetTimer(c, Poll(videoId, elapsed + PollInterval))
  {
  }
}
