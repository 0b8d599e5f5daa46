/**
 * The route guard of content.js: whether the page is on the Shorts feed
 * (`isOnShorts`) and which item it shows (`getVideoId`), both read from
 * `location.pathname`.
 */
module Route {
  import opened Wrappers
  import opened JsStrings

  const ShortsPrefix: string := "/shorts/"

  /** `location.pathname.startsWith('/shorts/')`. */
  predicate IsOnShorts(path: string)
  {
    ShortsPrefix <= path
  }

  /** On the feed exactly when the path is `/shorts/` followed by anything, the empty rest included. */
  lemma OnShortsIff(path: string)
    ensures IsOnShorts(path) <==> exists rest :: path == ShortsPrefix + rest
  {
    if IsOnShorts(path) {
      var rest := path[|ShortsPrefix|..];
      assert path == ShortsPrefix + rest;
    }
  }

  /** `/shorts/` occurs in `path` at `i` and an id character follows it: where `/\/shorts\/([a-zA-Z0-9_-]+)/` can match. */
  predicate IdStartsAt(path: string, i: nat)
  {
    i + |ShortsPrefix| < |path|
    && path[i..i + |ShortsPrefix|] == ShortsPrefix
    && InClass(path[i + |ShortsPrefix|], IdChar)
  }

  /** The capture group of a match at `i`: the longest run of id characters after `/shorts/`. */
  function IdAt(path: string, i: nat): (id: string)
    requires IdStartsAt(path, i)
    ensures |id| > 0 && forall k :: 0 <= k < |id| ==> InClass(id[k], IdChar)
    ensures i + |ShortsPrefix| + |id| <= |path|
    ensures path[i..i + |ShortsPrefix| + |id|] == ShortsPrefix + id
    ensures i + |ShortsPrefix| + |id| == |path| || !InClass(path[i + |ShortsPrefix| + |id|], IdChar)
  {
    var start := i + |ShortsPrefix|;
    var n := LeadingRun(path[start..], IdChar);
    assert path[i..start + n] == path[i..start] + path[start..start + n];
    path[start..start + n]
  }

  /** The first position at or after `i` where the pattern matches; `|path|` when there is none. */
  function FirstIdStart(path: string, i: nat): (j: nat)
    requires i <= |path|
    ensures i <= j <= |path|
    ensures j < |path| ==> IdStartsAt(path, j)
    ensures forall k :: i <= k < j ==> !IdStartsAt(path, k)
    decreases |path| - i
  {
    if i == |path| then i
    else if IdStartsAt(path, i) then i
    else FirstIdStart(path, i + 1)
  }

  /**
   * `getVideoId()`: the capture group of the leftmost match of the unanchored
   * `/\/shorts\/([a-zA-Z0-9_-]+)/` in the path, or None (`null`).
   */
  function GetVideoId(path: string): (id: Option<string>)
    ensures id.None? <==> forall k :: 0 <= k < |path| ==> !IdStartsAt(path, k)
    ensures id.Some? ==> |id.value| > 0 && forall k :: 0 <= k < |id.value| ==> InClass(id.value[k], IdChar)
    ensures id.Some? ==> exists j :: 0 <= j < |path| && IdStartsAt(path, j)
                                     && (forall k :: 0 <= k < j ==> !IdStartsAt(path, k)) && id.value == IdAt(path, j)
  {
    var j := FirstIdStart(path, 0);
    if j == |path| then None
    else
      assert forall k :: j <= k < |path| && k == j ==> IdStartsAt(path, k);
      Some(IdAt(path, j))
  }

  /**
   * On the Shorts feed with an id character right after `/shorts/`, the id is
   * the run of id characters that starts the path's second segment.
   */
  lemma OnShortsId(path: string)
    requires IsOnShorts(path) && |path| > |ShortsPrefix| && InClass(path[|ShortsPrefix|], IdChar)
    ensures GetVideoId(path) == Some(IdAt(path, 0))
  {
    assert path[0..|ShortsPrefix|] == ShortsPrefix;
    assert IdStartsAt(path, 0);
  }

  /** The bare `/shorts/` path is on the feed but names no item. */
  lemma BareShortsPath()
    ensures IsOnShorts(ShortsPrefix) && GetVideoId(ShortsPrefix).None?
  {
    forall k | 0 <= k < |ShortsPrefix| ensures !IdStartsAt(ShortsPrefix, k) {
    }
  }

  /**
   * The pattern is not anchored: an id after a `/shorts/` deeper in the path
   * is found even when the path is not on the feed.
   */
  lemma UnanchoredId()
    ensures !IsOnShorts("/feed/shorts/abc")
    ensures GetVideoId("/feed/shorts/abc") == Some("abc")
  {
    FeedPathMatchesAtFive();
    FeedPathId();
  }

  /** In `/feed/shorts/abc` the pattern first matches at index 5. */
  lemma FeedPathMatchesAtFive()
    ensures FirstIdStart("/feed/shorts/abc", 0) == 5
  {
    var path := "/feed/shorts/abc";
    forall k | 0 <= k < 5 ensures !IdStartsAt(path, k) {
      assert path[k + 1] != ShortsPrefix[1];
    }
    assert IdStartsAt(path, 5);
    assert FirstIdStart(path, 5) == 5;
    assert FirstIdStart(path, 4) == 5;
    assert FirstIdStart(path, 3) == 5;
    assert FirstIdStart(path, 2) == 5;
    assert FirstIdStart(path, 1) == 5;
  }

  lemma FeedPathId()
    ensures IdStartsAt("/feed/shorts/abc", 5) && IdAt("/feed/shorts/abc", 5) == "abc"
  {
    var path := "/feed/shorts/abc";
    assert path[13..] == "abc";
    assert "abc" + [] == "abc";
    LeadingRunOf("abc", [], IdChar);
    assert LeadingRun(path[13..], IdChar) == 3;
    assert path[13..16] == "abc";
  }
}
