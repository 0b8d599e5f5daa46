/**
 * Like-count extraction: the ordered fallback chain of `extractLikeFromElement`
 * over one query root, the choice of the active renderer, and `getLikeCount`,
 * which tries the active renderer before the whole document.
 */
module Extraction {
  import opened Wrappers
  import opened JsStrings
  import opened JsNumbers
  import opened Abbreviated
  import opened Dom

  /** `/^like$/i`: the whole text is the word "like" in any ASCII case. */
  predicate IsLikeWord(t: string)
  {
    |t| == 4 && AsciiLower(t[0]) == 'l' && AsciiLower(t[1]) == 'i' && AsciiLower(t[2]) == 'k' && AsciiLower(t[3]) == 'e'
  }

  /** `/^like$/i` spelled out: the four letters of "like", each in either case. */
  lemma LikeWordSpellings(t: string)
    ensures IsLikeWord(t) <==> |t| == 4 && t[0] in "lL" && t[1] in "iI" && t[2] in "kK" && t[3] in "eE"
  {
    if |t| == 4 {
      LowerIs(t[0], 'l', 'L');
      LowerIs(t[1], 'i', 'I');
      LowerIs(t[2], 'k', 'K');
      LowerIs(t[3], 'e', 'E');
    }
  }

  lemma LowerIs(c: char, lower: char, upper: char)
    requires 'a' <= lower <= 'z' && upper as int == lower as int - 32
    ensures AsciiLower(c) == lower <==> c in [lower, upper]
  {
  }

  /**
   * What one matched element yields: 0 when its trimmed text is empty or the
   * bare word "like", its parsed value when that is a count, and None when the
   * chain must pass over it.
   */
  function ElementCount(text: string): (r: Option<JsNumber>)
    ensures r.Some? ==> IsCount(r.value)
    ensures Trim(text) == [] || IsLikeWord(Trim(text)) ==> r == Some(Zero)
    ensures r.None? <==> Trim(text) != [] && !IsLikeWord(Trim(text)) && !IsCount(ParseAbbreviated(Trim(text)))
    ensures r.Some? && Trim(text) != [] && !IsLikeWord(Trim(text)) ==> r.value == ParseAbbreviated(Trim(text))
  {
    var t := Trim(text);
    if |t| == 0 || IsLikeWord(t) then Some(Zero) else AcceptCount(ParseAbbreviated(t))
  }

  /** The value `f` gives the first element of `s` it gives one for; None when it gives none. */
  function FirstHit(s: seq<string>, f: string -> Option<JsNumber>): Option<JsNumber>
  {
    if s == [] then None
    else if f(s[0]).Some? then f(s[0])
    else FirstHit(s[1..], f)
  }

  /** Where `FirstHit` finds its value: the first index `f` gives a value for, or `|s|`. */
  function FirstHitIndex(s: seq<string>, f: string -> Option<JsNumber>): (i: nat)
    ensures i <= |s|
  {
    if s == [] then 0
    else if f(s[0]).Some? then 0
    else 1 + FirstHitIndex(s[1..], f)
  }

  /** `FirstHit` finds nothing exactly when `f` gives no element a value, and otherwise the first one. */
  lemma {:induction false} FirstHitIsFirst(s: seq<string>, f: string -> Option<JsNumber>)
    ensures FirstHit(s, f).None? <==> forall k :: 0 <= k < |s| ==> f(s[k]).None?
    ensures FirstHit(s, f) == if FirstHitIndex(s, f) < |s| then f(s[FirstHitIndex(s, f)]) else None
    ensures FirstHitIndex(s, f) < |s| ==> f(s[FirstHitIndex(s, f)]).Some?
    ensures forall k :: 0 <= k < FirstHitIndex(s, f) ==> f(s[k]).None?
  {
    if s != [] && f(s[0]).None? {
      FirstHitIsFirst(s[1..], f);
      assert forall k :: 1 <= k < |s| ==> s[k] == s[1..][k - 1];
    }
  }

  /** The first hit in a concatenation is the first hit in its left part, failing that in its right part. */
  lemma {:induction false} FirstHitAppend(a: seq<string>, b: seq<string>, f: string -> Option<JsNumber>)
    ensures FirstHit(a + b, f) == if FirstHit(a, f).Some? then FirstHit(a, f) else FirstHit(b, f)
  {
    if a == [] {
      assert a + b == b;
    } else {
      assert (a + b)[0] == a[0] && (a + b)[1..] == a[1..] + b;
      FirstHitAppend(a[1..], b, f);
    }
  }

  /** One step of the search for the first hit, once nothing before element `j` hit: element `j` decides it or the search goes on. */
  lemma FirstHitStep(s: seq<string>, j: nat, f: string -> Option<JsNumber>)
    requires j < |s| && FirstHit(s[..j], f).None?
    ensures f(s[j]).Some? ==> FirstHit(s, f) == f(s[j])
    ensures f(s[j]).None? ==> FirstHit(s[..j + 1], f).None?
  {
    FirstHitAppend(s[..j], s[j..], f);
    assert s == s[..j] + s[j..];
    assert s[j..][0] == s[j];
    FirstHitAppend(s[..j], [s[j]], f);
    assert s[..j + 1] == s[..j] + [s[j]];
    assert [s[j]][1..] == [];
  }

  /** The texts the like-count selectors `lo` to `hi - 1` select under `root`, selector by selector, each in document order. */
  function Gather(root: Scope, lo: nat, hi: nat): seq<string>
    requires lo <= hi
    decreases hi - lo
  {
    if lo == hi then [] else Gather(root, lo, hi - 1) + Query(root, hi - 1)
  }

  lemma {:induction false} GatherSplit(root: Scope, lo: nat, mid: nat, hi: nat)
    requires lo <= mid <= hi
    ensures Gather(root, lo, hi) == Gather(root, lo, mid) + Gather(root, mid, hi)
    decreases hi - mid
  {
    if hi == mid {
      assert Gather(root, lo, mid) + [] == Gather(root, lo, mid);
    } else {
      GatherSplit(root, lo, mid, hi - 1);
      assert (Gather(root, lo, mid) + Gather(root, mid, hi - 1)) + Query(root, hi - 1)
          == Gather(root, lo, mid) + (Gather(root, mid, hi - 1) + Query(root, hi - 1));
    }
  }

  /** Every element the like-count selectors select under `root`, in the order the chain visits them. */
  function StructuralTexts(root: Scope): seq<string>
  {
    Gather(root, 0, |LikeSelectors|)
  }

  /**
   * `extractLikeFromElement(root)` as a value: the first matched element that
   * yields a count wins; when elements matched but none yielded one, 0; only
   * when nothing matched, the first aria-label of a like button with a
   * numeric token that parses, then the same over the labels inside
   * `#like-button`; None (`null`) when every step fails.
   */
  function ExtractSpec(root: Scope): (r: Option<JsNumber>)
    ensures r.Some? ==> IsCount(r.value)
    ensures StructuralTexts(root) != [] ==> r.Some?
    ensures StructuralTexts(root) != [] && FirstHit(StructuralTexts(root), ElementCount).None? ==> r == Some(Zero)
  {
    var texts := StructuralTexts(root);
    FirstHitIsFirst(texts, ElementCount);
    FirstHitIsFirst(root.likeAriaButtons, LabelCount);
    FirstHitIsFirst(root.likeButtonAria, LabelCount);
    match FirstHit(texts, ElementCount)
    case Some(n) => Some(n)
    case None =>
      if texts != [] then Some(Zero)
      else
        match FirstHit(root.likeAriaButtons, LabelCount)
        case Some(n) => Some(n)
        case None => FirstHit(root.likeButtonAria, LabelCount)
  }

  /** Searching the texts of several selectors: a hit at element `j` of selector `i` with nothing before it is the first hit. */
  lemma GatherFirstHit(root: Scope, n: nat, i: nat, j: nat, f: string -> Option<JsNumber>)
    requires i < n && j < |Query(root, i)|
    requires FirstHit(Gather(root, 0, i), f).None?
    requires FirstHit(Query(root, i)[..j], f).None?
    requires f(Query(root, i)[j]).Some?
    ensures FirstHit(Gather(root, 0, n), f) == f(Query(root, i)[j])
  {
    var els := Query(root, i);
    GatherSplit(root, 0, i + 1, n);
    assert Gather(root, 0, i + 1) == Gather(root, 0, i) + els;
    FirstHitStep(els, j, f);
    FirstHitAppend(Gather(root, 0, i), els, f);
    FirstHitAppend(Gather(root, 0, i + 1), Gather(root, i + 1, n), f);
  }

  /**
   * Selector order, then document order: when nothing before element `j` of
   * selector `i` yields a count and that element does, the chain returns its
   * value, whatever follows.
   */
  lemma FirstMatchWins(root: Scope, i: nat, j: nat)
    requires i < |LikeSelectors| && j < |Query(root, i)|
    requires FirstHit(Gather(root, 0, i), ElementCount).None?
    requires FirstHit(Query(root, i)[..j], ElementCount).None?
    requires ElementCount(Query(root, i)[j]).Some?
    ensures ExtractSpec(root) == ElementCount(Query(root, i)[j])
  {
    GatherFirstHit(root, |LikeSelectors|, i, j, ElementCount);
  }

  /** The chain gives `null` exactly when no selector matched and no aria-label of either fallback parses. */
  lemma NullOnlyWhenAllFail(root: Scope)
    ensures ExtractSpec(root).None? <==>
              StructuralTexts(root) == []
              && (forall k :: 0 <= k < |root.likeAriaButtons| ==> LabelCount(root.likeAriaButtons[k]).None?)
              && (forall k :: 0 <= k < |root.likeButtonAria| ==> LabelCount(root.likeButtonAria[k]).None?)
  {
    FirstHitIsFirst(root.likeAriaButtons, LabelCount);
    FirstHitIsFirst(root.likeButtonAria, LabelCount);
  }

  /** Once a like-count selector matched, the aria-label fallbacks are never consulted. */
  /**
   * The first aria fallback: when no like-count selector matched, the first
   * like button whose aria-label yields a count gives it, whatever follows.
   */
  lemma FirstAriaButtonWins(root: Scope, k: nat)
    requires StructuralTexts(root) == [] && k < |root.likeAriaButtons|
    requires forall j :: 0 <= j < k ==> LabelCount(root.likeAriaButtons[j]).None?
    requires LabelCount(root.likeAriaButtons[k]).Some?
    ensures ExtractSpec(root) == LabelCount(root.likeAriaButtons[k])
  {
    FirstHitAt(root.likeAriaButtons, LabelCount, k);
  }

  /**
   * The second aria fallback: when no selector matched and no like button's
   * aria-label yields a count, the first aria-label inside `#like-button`
   * that yields one gives it.
   */
  lemma FirstButtonAriaWins(root: Scope, k: nat)
    requires StructuralTexts(root) == [] && k < |root.likeButtonAria|
    requires forall j :: 0 <= j < |root.likeAriaButtons| ==> LabelCount(root.likeAriaButtons[j]).None?
    requires forall j :: 0 <= j < k ==> LabelCount(root.likeButtonAria[j]).None?
    requires LabelCount(root.likeButtonAria[k]).Some?
    ensures ExtractSpec(root) == LabelCount(root.likeButtonAria[k])
  {
    FirstHitIsFirst(root.likeAriaButtons, LabelCount);
    FirstHitAt(root.likeButtonAria, LabelCount, k);
  }

  /** When nothing before element `k` gives a value and element `k` does, the first hit is element `k`'s value. */
  lemma FirstHitAt(s: seq<string>, f: string -> Option<JsNumber>, k: nat)
    requires k < |s|
    requires forall j :: 0 <= j < k ==> f(s[j]).None?
    requires f(s[k]).Some?
    ensures FirstHit(s, f) == f(s[k])
  {
    FirstHitIsFirst(s, f);
    var i := FirstHitIndex(s, f);
    assert !(k < i) by {
      assert f(s[k]).Some?;
    }
    assert !(i < k) by {
      assert i < |s| && f(s[i]).Some?;
    }
  }

  lemma AriaIgnoredOnceMatched(root: Scope, ariaButtons: seq<string>, buttonAria: seq<string>)
    requires StructuralTexts(root) != []
    ensures ExtractSpec(root) == ExtractSpec(root.(likeAriaButtons := ariaButtons, likeButtonAria := buttonAria))
  {
    var other := root.(likeAriaButtons := ariaButtons, likeButtonAria := buttonAria);
    GatherSameSelectors(root, other, |LikeSelectors|);
  }

  lemma {:induction false} GatherSameSelectors(a: Scope, b: Scope, n: nat)
    requires a.bySelector == b.bySelector
    ensures Gather(a, 0, n) == Gather(b, 0, n)
  {
    if n > 0 {
      GatherSameSelectors(a, b, n - 1);
    }
  }

  /**
   * `extractLikeFromElement(root)`: the selectors in order, the elements of
   * each in order, with the `likeButtonFound` flag, then the two aria-label
   * loops.
   */
  method ExtractLikeFromElement(root: Scope) returns (r: Option<JsNumber>)
    ensures r == ExtractSpec(root)
  {
    var likeButtonFound := false;
    var i := 0;
    while i < |LikeSelectors|
      invariant 0 <= i <= |LikeSelectors|
      invariant likeButtonFound <==> Gather(root, 0, i) != []
      invariant FirstHit(Gather(root, 0, i), ElementCount).None?
    {
      var els := Query(root, i);
      var j := 0;
      while j < |els|
        invariant 0 <= j <= |els|
        invariant likeButtonFound <==> Gather(root, 0, i) != [] || j > 0
        invariant FirstHit(els[..j], ElementCount).None?
      {
        likeButtonFound := true;
        var text := Trim(els[j]);
        if |text| == 0 || IsLikeWord(text) {
          assert ElementCount(els[j]) == Some(Zero);
          FirstMatchWins(root, i, j);
          return Some(Zero);
        }
        var parsed := ParseAbbreviated(text);
        if IsCount(parsed) {
          assert ElementCount(els[j]) == Some(parsed);
          FirstMatchWins(root, i, j);
          return Some(parsed);
        }
        FirstHitStep(els, j, ElementCount);
        j := j + 1;
      }
      assert Gather(root, 0, i + 1) == Gather(root, 0, i) + els;
      assert els[..j] == els;
      FirstHitAppend(Gather(root, 0, i), els, ElementCount);
      i := i + 1;
    }
    if likeButtonFound {
      return Some(Zero);
    }
    r := FirstLabelCount(root.likeAriaButtons);
    if r.Some? {
      return;
    }
    r := FirstLabelCount(root.likeButtonAria);
  }

  /**
   * One aria-label loop: the first label whose numeric token
   * `/([\d,]+\.?\d*)\s*([KMBkmb])?/` parses to a count gives it.
   */
  method FirstLabelCount(labels: seq<string>) returns (r: Option<JsNumber>)
    ensures r == FirstHit(labels, LabelCount)
  {
    var j := 0;
    while j < |labels|
      invariant 0 <= j <= |labels|
      invariant FirstHit(labels[..j], LabelCount).None?
    {
      var count := LabelCount(labels[j]);
      FirstHitStep(labels, j, LabelCount);
      if count.Some? {
        return count;
      }
      j := j + 1;
    }
    assert labels[..j] == labels;
    return None;
  }

  predicate MarkedActive(r: Renderer)
  {
    r.isActive
  }

  predicate InViewport(r: Renderer)
  {
    r.visible
  }

  /**
   * Which renderer `getActiveRenderer()` picks, as an index: the first with
   * `is-active`, else the first in the viewport, else the first; `|rs|` when
   * there is no renderer at all.
   */
  function ActiveIndex(rs: seq<Renderer>): (i: nat)
    ensures i <= |rs| && (i == |rs| <==> rs == [])
    ensures (exists k :: 0 <= k < |rs| && rs[k].isActive) ==>
              rs[i].isActive && forall k :: 0 <= k < i ==> !rs[k].isActive
    ensures (forall k :: 0 <= k < |rs| ==> !rs[k].isActive) && (exists k :: 0 <= k < |rs| && rs[k].visible) ==>
              rs[i].visible && forall k :: 0 <= k < i ==> !rs[k].visible
    ensures (forall k :: 0 <= k < |rs| ==> !rs[k].isActive && !rs[k].visible) && rs != [] ==> i == 0
  {
    var a := FirstWhere(rs, MarkedActive);
    if a < |rs| then a
    else
      var v := FirstWhere(rs, InViewport);
      if v < |rs| then v else 0
  }

  /** `getActiveRenderer()`: the renderer at `ActiveIndex`, or None (`null`) when the page has none. */
  function ActiveRenderer(rs: seq<Renderer>): (r: Option<Renderer>)
    ensures r.None? <==> rs == []
    ensures r.Some? ==> r.value in rs && r.value == rs[ActiveIndex(rs)]
  {
    var i := ActiveIndex(rs);
    if i < |rs| then Some(rs[i]) else None
  }

  /**
   * `getActiveRenderer()`: the `[is-active]` query, then the loop over the
   * renderers in document order with the viewport test, then the first one.
   */
  method GetActiveRenderer(rs: seq<Renderer>) returns (r: Option<Renderer>)
    ensures r == ActiveRenderer(rs)
  {
    var a := FirstWhere(rs, MarkedActive);
    if a < |rs| {
      return Some(rs[a]);
    }
    var i := 0;
    while i < |rs|
      invariant 0 <= i <= |rs|
      invariant forall k :: 0 <= k < i ==> !rs[k].visible
    {
      if rs[i].visible {
        assert FirstWhere(rs, InViewport) == i;
        return Some(rs[i]);
      }
      i := i + 1;
    }
    assert FirstWhere(rs, InViewport) == |rs|;
    if |rs| > 0 {
      return Some(rs[0]);
    }
    return None;
  }

  /**
   * `getLikeCount()` as a value: the chain scoped to the active renderer
   * when there is one and it finds a count, otherwise the chain over the
   * whole document. Once a like-count selector matches inside the active
   * renderer the document is never consulted, and the count is `null` only
   * when both scopes give `null`.
   */
  function LikeCount(page: Page): (r: Option<JsNumber>)
    ensures r.Some? ==> IsCount(r.value)
    ensures ActiveRenderer(page.renderers).Some? && StructuralTexts(ActiveRenderer(page.renderers).value.scope) != [] ==>
              r == ExtractSpec(ActiveRenderer(page.renderers).value.scope)
    ensures ActiveRenderer(page.renderers).Some? && ExtractSpec(ActiveRenderer(page.renderers).value.scope).Some? ==>
              r == ExtractSpec(ActiveRenderer(page.renderers).value.scope)
    ensures ActiveRenderer(page.renderers).None? || ExtractSpec(ActiveRenderer(page.renderers).value.scope).None? ==>
              r == ExtractSpec(page.document)
    ensures r.None? <==>
              ExtractSpec(page.document).None?
              && (ActiveRenderer(page.renderers).None? || ExtractSpec(ActiveRenderer(page.renderers).value.scope).None?)
  {
    match ActiveRenderer(page.renderers)
    case Some(renderer) =>
      (match ExtractSpec(renderer.scope)
       case Some(n) => Some(n)
       case None => ExtractSpec(page.document))
    case None => ExtractSpec(page.document)
  }

  /** `getLikeCount()`: the active renderer's scope first, the document only when that gives `null`. */
  method GetLikeCount(page: Page) returns (r: Option<JsNumber>)
    ensures r == LikeCount(page)
  {
    var renderer := GetActiveRenderer(page.renderers);
    if renderer.Some? {
      var count := ExtractLikeFromElement(renderer.value.scope);
      if count.Some? {
        return count;
      }
    }
    r := ExtractLikeFromElement(page.document);
  }
}
