/**
 * The page as the skip engine queries it. A query root (a renderer element or
 * the document) is reduced to what its `querySelectorAll` calls return: for
 * each like-count selector the `textContent` of every match in document order,
 * and the `aria-label` values of the two accessibility fallbacks.
 */
module Dom {
  import opened Wrappers

  /** The like-count selectors of `extractLikeFromElement`, in the order they are tried. */
  const LikeSelectors: seq<string> := [
    "#like-button yt-formatted-string",
    "#like-button .yt-core-attributed-string",
    "#like-button > yt-button-shape > label > .yt-spec-button-shape-next__button-text-content",
    "#like-button span[role=\"text\"]",
    "like-button-view-model .yt-core-attributed-string",
    "#like-button yt-attributed-string span",
    "[id=\"like-button\"] yt-formatted-string",
    "ytd-reel-player-overlay-renderer #like-button yt-formatted-string",
    "#shorts-action-bar #like-button yt-formatted-string",
    "shorts-action-bar-renderer #like-button span"
  ]

  /** The containers `tryActivate` looks for, in the order it tries them. */
  const ContainerSelectors: seq<string> := [
    "ytd-shorts",
    "ytd-reel-video-renderer",
    "#shorts-container",
    "ytd-shorts-video-player-renderer"
  ]

  /**
   * A query root: `bySelector[i]` lists the text of every element the like-count
   * selector `LikeSelectors[i]` selects (a missing entry selects nothing);
   * `likeAriaButtons` are the labels of `button[aria-label*="like" i]` and
   * `likeButtonAria` those of `#like-button [aria-label]`, in document order.
   */
  datatype Scope = Scope(bySelector: seq<seq<string>>, likeAriaButtons: seq<string>, likeButtonAria: seq<string>)

  /** `root.querySelectorAll(LikeSelectors[i])`, as the texts of the elements it selects. */
  function Query(root: Scope, i: nat): (texts: seq<string>)
    ensures i >= |root.bySelector| ==> texts == []
  {
    if i < |root.bySelector| then root.bySelector[i] else []
  }

  /**
   * One `ytd-reel-video-renderer`: whether it carries `is-active`, whether its
   * bounding box passes the viewport test of `getActiveRenderer`, and what
   * queries scoped to it return.
   */
  datatype Renderer = Renderer(isActive: bool, visible: bool, scope: Scope)

  /**
   * The page: the selectors of `ContainerSelectors` that select something, the
   * renderers in document order, and the document as a query root.
   */
  datatype Page = Page(containers: set<string>, renderers: seq<Renderer>, document: Scope)

  /** The first index of `s` whose element satisfies `p`; `|s|` when there is none. */
  function FirstWhere<T>(s: seq<T>, p: T -> bool): (i: nat)
    ensures i <= |s|
    ensures i < |s| ==> p(s[i])
    ensures forall k :: 0 <= k < i ==> !p(s[k])
  {
    if s == [] then 0 else if p(s[0]) then 0 else 1 + FirstWhere(s[1..], p)
  }

  /** Searching a concatenation: the first hit in `a`, otherwise the first hit in `b` shifted past `a`. */
  lemma {:induction false} FirstWhereAppend<T>(a: seq<T>, b: seq<T>, p: T -> bool)
    ensures FirstWhere(a + b, p) == if FirstWhere(a, p) < |a| then FirstWhere(a, p) else |a| + FirstWhere(b, p)
  {
    if a == [] {
      assert a + b == b;
    } else {
      assert (a + b)[0] == a[0] && (a + b)[1..] == a[1..] + b;
      FirstWhereAppend(a[1..], b, p);
    }
  }

  /** The first of the container selectors from index `i` on that selects something; `|ContainerSelectors|` when none does. */
  function FirstContainerFrom(page: Page, i: nat): (k: nat)
    requires i <= |ContainerSelectors|
    ensures i <= k <= |ContainerSelectors|
    ensures k < |ContainerSelectors| ==> ContainerSelectors[k] in page.containers
    ensures forall m :: i <= m < k ==> ContainerSelectors[m] !in page.containers
    decreases |ContainerSelectors| - i
  {
    if i == |ContainerSelectors| || ContainerSelectors[i] in page.containers then i
    else FirstContainerFrom(page, i + 1)
  }

  /**
   * The container the loop of `tryActivate` settles on: the first of
   * `ContainerSelectors` that selects something, or None when none does.
   */
  function FirstContainer(page: Page): (sel: Option<string>)
    ensures sel.None? <==> forall k :: 0 <= k < |ContainerSelectors| ==> ContainerSelectors[k] !in page.containers
    ensures sel.Some? ==> sel.value in page.containers
    ensures sel.Some? ==> exists k :: 0 <= k < |ContainerSelectors| && sel.value == ContainerSelectors[k]
                                      && (forall m :: 0 <= m < k ==> ContainerSelectors[m] !in page.containers)
  {
    var k := FirstContainerFrom(page, 0);
    if k == |ContainerSelectors| then None else Some(ContainerSelectors[k])
  }

  /** The container search of `tryActivate`: `document.querySelector` on each selector in turn, stopping at the first hit. */
  method FindContainer(page: Page) returns (target: Option<string>)
    ensures target == FirstContainer(page)
  {
    var i := 0;
    while i < |ContainerSelectors|
      invariant 0 <= i <= |ContainerSelectors|
      invariant forall m :: 0 <= m < i ==> ContainerSelectors[m] !in page.containers
    {
      if ContainerSelectors[i] in page.containers {
        return Some(ContainerSelectors[i]);
      }
      i := i + 1;
    }
    return None;
  }
}
