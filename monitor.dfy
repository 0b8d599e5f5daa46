/**
 * The content script as an object: the module-level variables of content.js
 * become the fields of `Monitor`, each handler a method that updates them in
 * place. Every method is proved to leave exactly the state the matching
 * function of `Lifecycle` describes, and the event handlers keep
 * `Lifecycle.Valid`.
 */
module Skipper {
  import opened Wrappers
  import opened JsNumbers
  import opened Route
  import opened Dom
  import opened Extraction
  import opened Decision
  import opened Polling
  import opened Lifecycle

  class Monitor {
    // What the script reads: `location.pathname`, the page, the threshold setting.
    var path: string
    var page: Page
    var threshold: int

    // What the script writes.
    var observed: Option<string>
    var lastVideoId: Option<string>
    var consecutiveSkips: int
    var pendingCheck: Option<TimerId>
    var timers: map<TimerId, Task>
    var nextTimer: TimerId
    var skipped: seq<string>

    function Environment(): Env
      reads this
    {
      Env(path, page, threshold)
    }

    function State(): Core
      reads this
    {
      Core(observed, lastVideoId, consecutiveSkips, pendingCheck, timers, nextTimer, skipped)
    }

    predicate Valid()
      reads this
    {
      Lifecycle.Valid(State())
    }

    /** The script loads on `path` with the default threshold and nothing observed or armed. */
    constructor (path: string, page: Page)
      ensures Environment() == Env(path, page, DefaultThreshold)
      ensures State() == Initial
      ensures Valid()
    {
      this.path := path;
      this.page := page;
      threshold := DefaultThreshold;
      observed := None;
      lastVideoId := None;
      consecutiveSkips := 0;
      pendingCheck := None;
      timers := map[];
      nextTimer := 0;
      skipped := [];
      InitialValid();
    }

    /** The threshold setting changes (storage load or change event); the engine state is untouched. */
    method SetThreshold(t: int)
      modifies this
      requires Valid()
      ensures Environment() == old(Environment()).(threshold := t)
      ensures State() == old(State())
      ensures Valid()
    {
      threshold := t;
    }

    /** The page navigates or re-renders; the engine state is untouched until an event reaches it. */
    method SetPage(newPath: string, newPage: Page)
      modifies this
      requires Valid()
      ensures Environment() == old(Environment()).(path := newPath, page := newPage)
      ensures State() == old(State())
      ensures Valid()
    {
      path := newPath;
      page := newPage;
    }

    /** `setTimeout`: arm `task` under a fresh id. */
    method SetTimer(task: Task) returns (id: TimerId)
      modifies this
      ensures id == old(nextTimer)
      ensures Environment() == old(Environment())
      ensures State() == Lifecycle.SetTimer(old(State()), task)
    {
      id := nextTimer;
      timers := timers[id := task];
      nextTimer := nextTimer + 1;
    }

    /** `onRouteChange()`. */
    method OnRouteChange()
      modifies this
      requires Valid()
      ensures Environment() == old(Environment())
      ensures State() == AfterRouteChange(old(State()), old(Environment()))
      ensures Valid()
    {
      if IsOnShorts(path) {
        Activate();
      } else {
        Deactivate();
      }
      RouteChangeValid(old(State()), old(Environment()));
    }

    /** The MutationObserver callback: a mutation inside the observed container. */
    method OnMutation()
      modifies this
      requires Valid() && observed.Some?
      ensures Environment() == old(Environment())
      ensures State() == AfterScheduleCheck(old(State()))
      ensures Valid()
    {
      ScheduleCheck();
      MutationValid(old(State()));
    }

    /** The armed timer `id` fires: it is disarmed and its callback runs. */
    method FireTimer(id: TimerId)
      modifies this
      requires Valid() && id in timers
      ensures Environment() == old(Environment())
      ensures State() == AfterTimer(old(State()), old(Environment()), id)
      ensures Valid()
    {
      var task := timers[id];
      timers := timers - {id};
      RunTask(task);
      TimerValid(old(State()), old(Environment()), id);
    }

    /** The callback of a fired timer. */
    method RunTask(task: Task)
      modifies this
      ensures Environment() == old(Environment())
      ensures State() == AfterTask(old(State()), old(Environment()), task)
    {
      match task
      case RetryActivate(attempt) =>
        TryActivate(attempt);
      case Check =>
        pendingCheck := None;
        ProcessCurrentShort();
      case Poll(videoId, elapsed) =>
        PollLikeCount(videoId, elapsed);
    }

    /** `activate()`. */
    method Activate()
      modifies this
      ensures Environment() == old(Environment())
      ensures State() == AfterActivate(old(State()), old(Environment()))
    {
      if observed.Some? {
        return;
      }
      TryActivate(0);
    }

    /** `tryActivate(attempt)`: observe the first container found, or arm another attempt while attempts remain. */
    method TryActivate(attempt: nat)
      modifies this
      ensures Environment() == old(Environment())
      ensures State() == AfterTryActivate(old(State()), old(Environment()), attempt)
    {
      if observed.Some? || !IsOnShorts(path) {
        return;
      }
      var target := FindContainer(page);
      if target.None? {
        if attempt < ActivateMaxRetries {
          var _ := SetTimer(RetryActivate(attempt + 1));
        }
        return;
      }
      observed := target;
      ScheduleCheck();
    }

    /** `deactivate()`. */
    method Deactivate()
      modifies this
      ensures Environment() == old(Environment())
      ensures State() == AfterDeactivate(old(State()))
    {
      observed := None;
      CancelCheck();
      lastVideoId := None;
      consecutiveSkips := 0;
    }

    /** `scheduleCheck()`. */
    method ScheduleCheck()
      modifies this
      ensures Environment() == old(Environment())
      ensures State() == AfterScheduleCheck(old(State()))
    {
      CancelCheck();
      var id := SetTimer(Check);
      pendingCheck := Some(id);
    }

    /** `cancelCheck()`. */
    method CancelCheck()
      modifies this
      ensures Environment() == old(Environment())
      ensures State() == AfterCancelCheck(old(State()))
    {
      if pendingCheck.Some? {
        timers := timers - {pendingCheck.value};
        pendingCheck := None;
      }
    }

    /** `processCurrentShort()`. */
    method ProcessCurrentShort()
      modifies this
      ensures Environment() == old(Environment())
      ensures State() == AfterProcess(old(State()), old(Environment()))
    {
      if !IsOnShorts(path) {
        return;
      }
      var videoId := GetVideoId(path);
      if videoId.None? || videoId == lastVideoId {
        return;
      }
      lastVideoId := videoId;
      PollLikeCount(videoId.value, 0);
    }

    /** `pollLikeCount(videoId, elapsed)`. */
    method PollLikeCount(videoId: string, elapsed: nat)
      modifies this
      ensures Environment() == old(Environment())
      ensures State() == AfterPoll(old(State()), old(Environment()), videoId, elapsed)
    {
      if !IsOnShorts(path) || GetVideoId(path) != Some(videoId) {
        return;
      }
      var count := GetLikeCount(page);
      PollTick(videoId, count, elapsed);
    }

    /** The rest of a tick for the current item, once `getLikeCount()` returned `count`. */
    method PollTick(videoId: string, count: Option<JsNumber>, elapsed: nat)
      modifies this
      ensures Environment() == old(Environment())
      ensures State() == AfterPollTick(old(State()), old(Environment()), videoId, true, count, elapsed)
    {
      if count.Some? {
        DecideFate(videoId, count.value);
        return;
      }
      if elapsed >= MaxWait {
        DecideFate(videoId, Zero);
        return;
      }
      var _ := SetTimer(Poll(videoId, elapsed + PollInterval));
    }

    /** `decideFate(videoId, count)`: dispatch a skip below the threshold unless the cap is reached. */
    method DecideFate(videoId: string, count: JsNumber)
      modifies this
      ensures Environment() == old(Environment())
      ensures State() == AfterDecideFate(old(State()), old(Environment()), videoId, count)
    {
      if LessThan(count, threshold) {
        if consecutiveSkips >= MaxConsecutiveSkips {
          consecutiveSkips := 0;
          return;
        }
        consecutiveSkips := consecutiveSkips + 1;
        skipped := skipped + [videoId];
      } else {
        consecutiveSkips := 0;
      }
    }
  }
}
