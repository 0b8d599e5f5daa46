# YT Shorts Skipper: the skip-decision engine in Dafny

The content script of the YT Shorts Skipper browser extension watches the
YouTube Shorts feed. When a new item appears it reads the item's like count
from the page. If the count is below a threshold, the script skips to the next
item, but never more than 20 times in a row. This project models that engine
(`content.js`) and proves properties of it.

- **Route guard** (`route.dfy`). `isOnShorts` and `getVideoId` over the path.
  The pattern `/\/shorts\/([a-zA-Z0-9_-]+)/` is modelled as the leftmost,
  unanchored match with a greedy capture group.
- **Parsing counts** (`js_strings.dfy`, `js_numbers.dfy`, `abbreviated.dfy`).
  - `trim`, the comma removal, `parseInt(_, 10)` and `parseFloat` as prefix
    parsers.
  - `parseAbbreviated` with its `B`/`M`/`K` suffixes.
  - The numeric token that the aria-label fallbacks cut out with
    `/([\d,]+\.?\d*)\s*([KMBkmb])?/`.
  - Numbers are exact: a finite value is an integer times a power of ten.
    NaN and the infinities that `parseFloat` can produce are kept.
- **Extraction** (`dom.dfy`, `extraction.dfy`).
  - A query root is reduced to what its `querySelectorAll` calls return:
    - for each of the ten like-count selectors, the texts of its matches in
      document order;
    - the labels of the two aria-label queries.
  - `extractLikeFromElement` is a method with the source's nested loops and
    `likeButtonFound` flag. It is proved equal to a pure specification,
    `ExtractSpec`, whose properties are lemmas.
  - `getActiveRenderer` and `getLikeCount` are modelled the same way.
- **Decision** (`decision.dfy`). `decideFate` and runs of decisions over a
  sequence of counts.
- **Polling** (`polling.dfy`). One tick of `pollLikeCount`, and the chain of
  ticks for one item.
- **Lifecycle** (`lifecycle.dfy`, `monitor.dfy`).
  - The module-level state becomes the fields of the class
    `Skipper.Monitor`:
    - `observer`, with the observed container's selector standing for the
      observer;
    - `lastVideoId`, `consecutiveSkips`, `pendingCheck` and `threshold`;
    - the armed timeouts, as a map from timer id to task;
    - the items a skip was dispatched for.
  - Events are method calls:
    - `OnRouteChange`, the `yt-navigate-finish` listener;
    - `OnMutation`, the MutationObserver callback;
    - `FireTimer(id)`, an armed timeout running;
    - `SetThreshold`, a settings change;
    - `SetPage`, the browser changing the path or the page.
  - Every method is proved to leave exactly the state that a pure function
    of `Lifecycle` gives. The invariant `Lifecycle.Valid`, and the lifecycle
    and debounce properties, are lemmas about those functions.
  - Processing the same item twice in a row adds nothing. One item can still
    get two poll chains. `deactivate` forgets the last item but leaves poll
    timeouts armed, so leaving the feed and coming back to the same item
    starts a second chain beside the first. Each chain can then skip the
    item (`Lifecycle.SecondPollChain`, `Lifecycle.SameItemSkippedTwice`).

The paths below are relative to the repository root. All line numbers refer
to `yt-shorts-skipper/content.js`.

## Model

| member | source | states |
|---|---|---|
| JsStrings.Trim | yt-shorts-skipper/content.js:258 | the result neither starts nor ends with white space |
| JsStrings.TrimMiddle | yt-shorts-skipper/content.js:258 | white space, a middle with no white space at its ends, white space: `trim` gives exactly the middle |
| JsStrings.RemoveCommas | yt-shorts-skipper/content.js:309 | no comma is left, and every other character is kept as often as it occurs |
| JsStrings.RemoveCommasAppend | yt-shorts-skipper/content.js:309 | comma removal works piecewise, so the kept characters stay in order |
| JsStrings.RemoveCommasIdempotent | yt-shorts-skipper/content.js:309 | removing the commas a second time changes nothing |
| JsNumbers.AcceptCount | yt-shorts-skipper/content.js:265 | a parsed value is kept exactly when it is not NaN and is `>= 0`; a rejected one is NaN, negative or minus infinity |
| JsNumbers.ParseInt | yt-shorts-skipper/content.js:314 | `parseInt(_, 10)` is NaN exactly when no digit follows the leading white space and sign; it is never infinite, always an integer, and negative only after a minus sign |
| JsNumbers.ParseIntOfDigits | yt-shorts-skipper/content.js:314 | digits followed by a non-digit are read as exactly those digits |
| JsNumbers.ParseIntRoundTrip | yt-shorts-skipper/content.js:314 | `parseInt` reads back the decimal rendering of any natural number, whatever non-digit follows |
| JsNumbers.LexDecimal | yt-shorts-skipper/content.js:311-313 | the longest decimal-literal prefix is absent exactly when the text starts neither with a digit nor with a point and a digit; otherwise it is well formed |
| JsNumbers.LexOfExponent | yt-shorts-skipper/content.js:311-313 | `d.f` then `e` or `E`, an optional sign and exponent digits, then a non-digit: the literal has the digits of `d` and `f` and the signed exponent |
| JsNumbers.ParseFloatOfWholeExponent | yt-shorts-skipper/content.js:311-313 | digits then `e` or `E`, an optional sign and exponent digits, then a non-digit: the digits times ten to the signed exponent |
| JsNumbers.ParseFloatOfExponent | yt-shorts-skipper/content.js:311-313 | `parseFloat` reads such text as the digits of `d` and `f` times ten to the signed exponent minus the length of `f` |
| JsNumbers.ParseFloat | yt-shorts-skipper/content.js:311-313 | `parseFloat` is NaN exactly when neither `Infinity` nor a decimal literal follows the white space and sign, and negative only after a minus sign |
| JsNumbers.ParseFloatOfDecimal | yt-shorts-skipper/content.js:311-313 | `d.f` followed by a non-digit, non-exponent character is read as the digits of `d` and `f` as one integer, scaled down by the length of `f` |
| JsNumbers.ParseFloatOfDigits | yt-shorts-skipper/content.js:311-313 | digits followed by a character that cannot continue a literal are read as that integer |
| Abbreviated.SuffixPower | yt-shorts-skipper/content.js:310-313 | a scale applies exactly when the cleaned text ends in one of `BbMmKk` |
| Abbreviated.LetterPower | yt-shorts-skipper/content.js:310-313 | `B`/`b`, `M`/`m`, `K`/`k` scale by 10^9, 10^6, 10^3, in both directions; any other letter gives no scale |
| Abbreviated.ParseAbbreviated | yt-shorts-skipper/content.js:308-315 | text without a suffix is read by `parseInt` after comma removal and trimming; a negative result needs a minus sign |
| Abbreviated.CommaAnywhere | yt-shorts-skipper/content.js:309 | a comma inserted anywhere in the text does not change the number |
| Abbreviated.OfDigits | yt-shorts-skipper/content.js:308-315 | a plain run of digits is the integer it spells |
| Abbreviated.OfSuffixedDigits | yt-shorts-skipper/content.js:310-313 | digits with a suffix letter are that integer times the letter's power of ten |
| Abbreviated.OfSuffixedDecimal | yt-shorts-skipper/content.js:310-313 | `d.f` with a suffix letter is the digits of `d` and `f` times 10^(power - length of `f`) |
| Abbreviated.ThousandsExample | yt-shorts-skipper/content.js:309 | `"12,345"` is 12345 |
| Abbreviated.MillionsExample | yt-shorts-skipper/content.js:312 | `"3M"` is 3 * 10^6 |
| Abbreviated.ThousandsSuffixExample | yt-shorts-skipper/content.js:313 | `"1.2K"` is 12 * 10^2 |
| Abbreviated.TrailingJunkExample | yt-shorts-skipper/content.js:314 | `"12abc"` is 12 |
| Abbreviated.NumericToken | yt-shorts-skipper/content.js:279-281 | there is no token exactly when the label holds no digit and no comma |
| Abbreviated.TokenStartsAtFirstDigitOrComma | yt-shorts-skipper/content.js:279-281 | the token begins at the first digit or comma of the label |
| Abbreviated.TokenShape | yt-shorts-skipper/content.js:279-281 | digits and commas, an optional point with digits, white space, then a suffix letter or another character: the token is the run, the fraction and the suffix letter if there is one |
| Abbreviated.OtherPeopleExample | yt-shorts-skipper/content.js:278-286 | `"along with 12,345 other people"` has the token `12,345` and yields 12345 |
| Abbreviated.LabelCount | yt-shorts-skipper/content.js:278-286 | a label yields a count exactly when it has a token whose parse is non-negative and not NaN, and the count is that parse |
| Abbreviated.TokenIsFirstNumber | yt-shorts-skipper/content.js:279-281 | the token is the first run of digits when nothing before it is a digit or a comma |
| Abbreviated.CommaBeforeNumber | yt-shorts-skipper/content.js:279-283 | a comma before the first digit becomes the whole token, and the label yields no count |
| Route.OnShortsIff | yt-shorts-skipper/content.js:41-43 | on the feed exactly when the path is `/shorts/` followed by anything |
| Route.IdAt | yt-shorts-skipper/content.js:46 | the capture group is non-empty, made only of id characters, follows `/shorts/` at the match, and is maximal |
| Route.GetVideoId | yt-shorts-skipper/content.js:45-48 | None exactly when the pattern matches nowhere; otherwise a non-empty id of `[A-Za-z0-9_-]` that is the capture at the leftmost match position |
| Route.OnShortsId | yt-shorts-skipper/content.js:41-48 | on the feed with an id character after `/shorts/`, the id is the run that starts the second segment |
| Route.BareShortsPath | yt-shorts-skipper/content.js:41-48 | `/shorts/` alone is on the feed and has no id |
| Route.UnanchoredId | yt-shorts-skipper/content.js:46 | `/feed/shorts/abc` is off the feed yet has the id `abc` |
| Dom.FirstContainer | yt-shorts-skipper/content.js:60-74 | no container exactly when none of the four selectors selects anything; otherwise the first selector in order that does |
| Dom.FindContainer | yt-shorts-skipper/content.js:67-74 | the loop over the container selectors stops at the first that selects something |
| Extraction.LikeWordSpellings | yt-shorts-skipper/content.js:260 | `/^like$/i` holds exactly for the four letters of `like`, each in either case |
| Extraction.ElementCount | yt-shorts-skipper/content.js:256-268 | empty or `like` text yields 0; any other trimmed text yields its parse when that is a count, and the element is passed over otherwise |
| Extraction.FirstHitIsFirst | yt-shorts-skipper/content.js:254-270 | the search finds nothing exactly when no element yields a value, and otherwise the value of the first element that does |
| Extraction.ExtractSpec | yt-shorts-skipper/content.js:237-306 | the result is a count; when a like-count selector matched, it is never `null`, and it is 0 when no matched element yields a count |
| Extraction.FirstMatchWins | yt-shorts-skipper/content.js:254-270 | selector order, then document order: the first element yielding a count gives the result, whatever follows |
| Extraction.NullOnlyWhenAllFail | yt-shorts-skipper/content.js:272-305 | `null` exactly when no like-count selector matched and no label of either aria-label list yields a count |
| Extraction.FirstAriaButtonWins | yt-shorts-skipper/content.js:272-287 | with no like-count match, the first `like` button label that yields a count gives the result |
| Extraction.FirstButtonAriaWins | yt-shorts-skipper/content.js:289-303 | when no such label yields a count, the first label inside `#like-button` that does gives the result |
| Extraction.AriaIgnoredOnceMatched | yt-shorts-skipper/content.js:272-276 | once a like-count selector matched, changing the aria-labels changes nothing |
| Extraction.ExtractLikeFromElement | yt-shorts-skipper/content.js:237-306 | the loops with the `likeButtonFound` flag return exactly `ExtractSpec` |
| Extraction.FirstLabelCount | yt-shorts-skipper/content.js:276-303 | an aria-label loop returns the count of the first label that yields one |
| Extraction.ActiveIndex | yt-shorts-skipper/content.js:205-220 | the first renderer marked `is-active`, else the first in the viewport, else the first; none only when there are no renderers |
| Extraction.ActiveRenderer | yt-shorts-skipper/content.js:205-220 | `null` exactly when the page has no renderer; otherwise the renderer that `ActiveIndex` picks |
| Extraction.GetActiveRenderer | yt-shorts-skipper/content.js:205-220 | the `[is-active]` query, the viewport loop and the fallback return exactly `ActiveRenderer` |
| Extraction.LikeCount | yt-shorts-skipper/content.js:224-235 | a count when there is one; the active renderer's result when it gives one, otherwise the document's; `null` exactly when both give `null` |
| Extraction.GetLikeCount | yt-shorts-skipper/content.js:224-235 | the renderer scope first, the document only after a `null`: exactly `LikeCount` |
| Decision.DecideFate | yt-shorts-skipper/content.js:185-201 | a skip exactly when the count is below the threshold and the counter is under 20; a skip raises the counter by one, anything else resets it to 0 |
| Decision.RunStep | yt-shorts-skipper/content.js:185-201 | item k of a run is `decideFate` of its count with the counter the item before it left |
| Decision.RunCounterInRange | yt-shorts-skipper/content.js:185-201 | from a counter in 0..20, every counter along any run stays in 0..20 |
| Decision.AtMostTwentyInARow | yt-shorts-skipper/content.js:186-192 | no run ever skips more than 20 items in a row |
| Decision.AllBelowThreshold | yt-shorts-skipper/content.js:186-192 | with every count below the threshold the counter cycles modulo 21, and an item is skipped unless it meets the cap |
| Decision.TwentyOneZeros | yt-shorts-skipper/content.js:185-201 | 21 zero counts from a fresh counter: 20 skips with counters 1..20, then a keep with the counter reset |
| Decision.MixedCountsExample | yt-shorts-skipper/content.js:185-201 | with threshold 1000, counts 500, 2000, 999, 1000 give skip, keep, skip, keep with counters 1, 0, 1, 0 |
| Polling.PollStep | yt-shorts-skipper/content.js:158-183 | a tick aborts exactly when the item is no longer current; a found count decides at once; with nothing found it decides 0 at 4000 ms or later, and otherwise polls again 400 ms later |
| Polling.RunPoll | yt-shorts-skipper/content.js:158-183 | a chain decides on a tick where every earlier tick found nothing, with the count found there or 0; it decides 0 only at 4000 ms or later |
| Polling.PollDecidesInTime | yt-shorts-skipper/content.js:173-182 | a chain started on the 400 ms grid no later than 4000 ms decides within (4000 - elapsed) / 400 + 1 ticks, so at most 11 from 0 |
| Polling.FirstFoundWins | yt-shorts-skipper/content.js:165-171 | the first tick that finds a count decides with it |
| Polling.NeverFoundIsZero | yt-shorts-skipper/content.js:173-177 | a count that never appears is decided as 0 on the 11th tick |
| Lifecycle.AfterCancelCheck | yt-shorts-skipper/content.js:136-141 | no check is pending; timers may only be disarmed, never changed; nothing else changes |
| Lifecycle.AfterScheduleCheck | yt-shorts-skipper/content.js:128-134 | a new check is pending and armed under a fresh timer id; the observer, the last item, the counter and the skips are unchanged |
| Lifecycle.AfterDecideFate | yt-shorts-skipper/content.js:185-201 | the item is added to the skips exactly when `decideFate` skips; only the counter and the skips change, and the counter stays at most 20 |
| Lifecycle.AfterPollTick | yt-shorts-skipper/content.js:165-182 | a stale tick changes nothing; a tick adds at most one skip and leaves the observer, the last item and the pending check alone |
| Lifecycle.AfterPoll | yt-shorts-skipper/content.js:158-183 | the same for a whole poll callback, which first checks that the item is current |
| Lifecycle.AfterProcess | yt-shorts-skipper/content.js:145-156 | off the feed nothing changes; with an id that id becomes the last item; at most one skip is added |
| Lifecycle.AfterTryActivate | yt-shorts-skipper/content.js:56-92 | with an observer or off the feed nothing changes; an observer afterwards exactly when there was one or a container was found on the feed; the last item, the counter and the skips are unchanged |
| Lifecycle.AfterActivate | yt-shorts-skipper/content.js:50-54 | the same for `activate`, which changes nothing with an observer in place |
| Lifecycle.AfterDeactivate | yt-shorts-skipper/content.js:94-104 | no observer, no pending check, no last item, counter 0; timers may only be disarmed; the skips are kept |
| Lifecycle.AfterRouteChange | yt-shorts-skipper/content.js:106-113 | off the feed no observer, no last item and counter 0; on the feed the last item and the counter are kept; the skips are never changed |
| Lifecycle.AfterTask | yt-shorts-skipper/content.js:130-133 | a retry adds no skip; any task adds at most one |
| Lifecycle.AfterTimer | yt-shorts-skipper/content.js:130-133 | a firing timer adds at most one skip |
| Lifecycle.InitialValid | yt-shorts-skipper/content.js:13-17 | the state at load satisfies the invariant |
| Lifecycle.CancelCheckClears | yt-shorts-skipper/content.js:136-141 | no check is pending or armed afterwards, and every other timer stays |
| Lifecycle.ScheduleCheckDebounces | yt-shorts-skipper/content.js:128-134 | exactly one check is armed afterwards, the newest; the previous one is disarmed, the other timers are kept, and the invariant holds |
| Lifecycle.MutationBurst | yt-shorts-skipper/content.js:117-134 | after any burst of mutations only the check scheduled last is armed; the other timers and the rest of the state are unchanged |
| Lifecycle.DecideFateValid | yt-shorts-skipper/content.js:185-201 | a decision keeps the invariant, including the counter range |
| Lifecycle.PollValid | yt-shorts-skipper/content.js:158-183 | a poll tick keeps the invariant |
| Lifecycle.ProcessValid | yt-shorts-skipper/content.js:145-156 | processing keeps the invariant |
| Lifecycle.TryActivateValid | yt-shorts-skipper/content.js:56-92 | an activation attempt keeps the invariant |
| Lifecycle.DeactivateValid | yt-shorts-skipper/content.js:94-104 | deactivation keeps the invariant |
| Lifecycle.Startup | yt-shorts-skipper/content.js:385-386 | the first route change keeps the invariant: off the feed it leaves the load state, on the feed it is the first activation attempt |
| Lifecycle.RouteChangeValid | yt-shorts-skipper/content.js:106-113 | a route change keeps the invariant |
| Lifecycle.MutationValid | yt-shorts-skipper/content.js:117-121 | a mutation while observing keeps the invariant |
| Lifecycle.TimerValid | yt-shorts-skipper/content.js:130-133 | any armed timer firing keeps the invariant |
| Lifecycle.ActivateWhenObserving | yt-shorts-skipper/content.js:50-58 | with an observer in place, `activate` and `tryActivate` change nothing |
| Lifecycle.TryActivateWithoutContainer | yt-shorts-skipper/content.js:76-85 | with no container, attempts below 10 arm the next attempt and attempt 10 or later changes nothing; no observer either way |
| Lifecycle.TryActivateWithContainer | yt-shorts-skipper/content.js:87-90 | the first container found is observed and a check is pending |
| Lifecycle.ActivateTwiceWithContainer | yt-shorts-skipper/content.js:50-54 | with a container on the page, activating twice is activating once |
| Lifecycle.ActivateTwiceWithoutContainer | yt-shorts-skipper/content.js:50-54 | without one, two activations arm two retry chains |
| Lifecycle.RetryChainBounded | yt-shorts-skipper/content.js:76-80 | no retry is ever armed beyond attempt 10 |
| Lifecycle.DeactivateResets | yt-shorts-skipper/content.js:94-104 | no observer, no pending check, no last item, counter 0, and no check armed |
| Lifecycle.RouteChangeCases | yt-shorts-skipper/content.js:106-113 | off the feed it deactivates; on the feed it never drops an observer and never touches the counter |
| Lifecycle.CheckFiring | yt-shorts-skipper/content.js:130-133 | a firing check clears the pending check, and none is armed afterwards |
| Lifecycle.ProcessGuards | yt-shorts-skipper/content.js:145-150 | off the feed, without an id, or for the last item, processing changes nothing |
| Lifecycle.ProcessRecordsItem | yt-shorts-skipper/content.js:152-155 | otherwise the item is recorded as the last one before its first poll tick at 0 ms |
| Lifecycle.ProcessIdempotent | yt-shorts-skipper/content.js:145-156 | processing the same page twice in a row is processing it once: the second call adds nothing |
| Lifecycle.PollSurvivesLeaving | yt-shorts-skipper/content.js:94-113 | leaving the feed forgets the last item but keeps every armed poll timer |
| Lifecycle.SecondPollChain | yt-shorts-skipper/content.js:145-160 | back on an item whose poll chain is still armed, the next check arms a second chain for it beside the first |
| Lifecycle.SameItemSkippedTwice | yt-shorts-skipper/content.js:158-201 | two armed chains for one item that find a count below the threshold skip that item twice |
| Lifecycle.PollCases | yt-shorts-skipper/content.js:158-183 | a stale tick changes nothing; a found count is decided; at 4000 ms 0 is decided; otherwise the next tick is armed 400 ms later |
| Skipper.Monitor.constructor | yt-shorts-skipper/content.js:13-17 | the default threshold, nothing observed, nothing armed, counter 0 |
| Skipper.Monitor.SetThreshold | yt-shorts-skipper/content.js:30-35 | only the threshold changes, and the invariant holds |
| Skipper.Monitor.OnRouteChange | yt-shorts-skipper/content.js:106-113 | the new state is `AfterRouteChange` of the old one, and the invariant holds |
| Skipper.Monitor.OnMutation | yt-shorts-skipper/content.js:117-121 | the new state is `AfterScheduleCheck` of the old one, and the invariant holds |
| Skipper.Monitor.FireTimer | yt-shorts-skipper/content.js:130-133 | the timer is disarmed and its callback runs: the new state is `AfterTimer`, and the invariant holds |
| Skipper.Monitor.RunTask | yt-shorts-skipper/content.js:130-133 | a fired retry, check or poll callback leaves `AfterTask` |
| Skipper.Monitor.Activate | yt-shorts-skipper/content.js:50-54 | leaves `AfterActivate` |
| Skipper.Monitor.TryActivate | yt-shorts-skipper/content.js:56-92 | leaves `AfterTryActivate` |
| Skipper.Monitor.Deactivate | yt-shorts-skipper/content.js:94-104 | leaves `AfterDeactivate` |
| Skipper.Monitor.ScheduleCheck | yt-shorts-skipper/content.js:128-134 | leaves `AfterScheduleCheck` |
| Skipper.Monitor.CancelCheck | yt-shorts-skipper/content.js:136-141 | leaves `AfterCancelCheck` |
| Skipper.Monitor.ProcessCurrentShort | yt-shorts-skipper/content.js:145-156 | leaves `AfterProcess` |
| Skipper.Monitor.PollLikeCount | yt-shorts-skipper/content.js:158-183 | leaves `AfterPoll` |
| Skipper.Monitor.PollTick | yt-shorts-skipper/content.js:165-182 | once the item is known to be current, leaves the tick's state for the count found |
| Skipper.Monitor.DecideFate | yt-shorts-skipper/content.js:185-201 | leaves `AfterDecideFate`: the counter of `Decision.DecideFate`, and the item recorded as skipped exactly when a skip is dispatched |

## Left out

- Settings I/O (lines 23-37). Reading `chrome.storage.sync` and the change
  listener are replaced by `SetThreshold`. The threshold is an integer; a
  stored value of another type is not modelled.
- `notifyBackground` (lines 379-381). It is a fire-and-forget message to
  another extension component.
- `skipShort` (lines 366-375). The synthetic key press is recorded as the
  item id appended to `skipped`; its effect on the page is not modelled.
- `dumpPageDiagnostics`, `dumpLikeButtonDiagnostics` and all console output
  (lines 319-362). They only log.
- Timing.
  - The delays (500 ms retry, 800 ms settle, 400 ms poll) are constants, but
    wall-clock time is not modelled.
  - Any armed timer may fire next, a superset of the orders the browser
    produces.
  - The MutationObserver is reduced to the selector of the observed
    container. Which mutations reach it is up to the caller of `OnMutation`.
- `Dom`. A query root is described only by what its like-count and
  aria-label queries return.
  - The document's answers are not tied to those of the renderers inside it.
  - `querySelector` on the containers is reduced to the set of container
    selectors that select something.
- `Extraction.InViewport`. The viewport test on the bounding box (line 214)
  is a per-renderer boolean, because layout geometry is floating point.
- `JsNumbers`. Finite numbers are exact.
  - IEEE-754 rounding and overflow, including the rounding of
    `parseFloat(text) * 1e9`, are not modelled.
  - Minus zero is not told apart from zero.
  - A comparison with a non-integer threshold is not modelled.
- Regular expressions.
  - `/^like$/i` is modelled by ASCII case folding of the four letters.
  - `toUpperCase` is modelled only for ASCII letters. No other character
    upper-cases to `B`, `M` or `K`.
- `pendingCheck` truthiness. The timer id is an `Option`, since browser
  timeout ids are positive and therefore always truthy.
- Double activation. `activate` guards only on the observer, so two
  activations with no container on the page start two retry chains, and both
  run (`Lifecycle.ActivateTwiceWithoutContainer`).
- `yt-shorts-skipper/options.js` and `yt-shorts-skipper/background.js`:
  settings UI and badge plumbing, with no part in the decision.
