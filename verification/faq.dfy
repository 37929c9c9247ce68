/** The FAQ accordion: one entry per `.faq__item` that has both its question button and
    its answer panel (an item missing either gets no handler and is never touched, so it
    is not part of the model). Each entry is shown three ways: the button's
    `aria-expanded`, the answer's `hidden` attribute and, when the item has one, the
    icon's text. */
module Faq {
  import opened Wrappers
  import opened Dom

  /** The icon text for an open item (an en dash) and for a closed one. */
  function Glyph(open: bool): (g: string)
    ensures g == "+" <==> !open
  {
    if open then "\U{2013}" else "+"
  }

  /** No two items open at once. */
  predicate AtMostOneOpen(open: seq<bool>) {
    forall j, k :: 0 <= j < |open| && 0 <= k < |open| && open[j] && open[k] ==> j == k
  }

  /** The open flags after a click on item `i`: every other item closed, item `i` flipped. */
  function AfterClick(open: seq<bool>, i: nat): (r: seq<bool>)
    requires i < |open|
    ensures |r| == |open|
    ensures AtMostOneOpen(r)
  {
    seq(|open|, j requires 0 <= j < |open| => j == i && !open[i])
  }

  /** Clicking an open item closes it, and with it the whole accordion. */
  lemma ClickOpenItemClosesAll(open: seq<bool>, i: nat)
    requires i < |open| && open[i]
    ensures forall j :: 0 <= j < |open| ==> !AfterClick(open, i)[j]
  {
  }

  /** Clicking a closed item opens exactly that item, whatever was open before. */
  lemma ClickClosedItemOpensIt(open: seq<bool>, i: nat)
    requires i < |open| && !open[i]
    ensures forall j :: 0 <= j < |open| ==> (AfterClick(open, i)[j] <==> j == i)
  {
  }

  /** Two clicks on the same item bring that item back to where it was and leave every
      other item closed. */
  lemma ClickTwice(open: seq<bool>, i: nat)
    requires i < |open|
    ensures forall j :: 0 <= j < |open| ==> (AfterClick(AfterClick(open, i), i)[j] <==> j == i && open[i])
  {
  }

  class Accordion {
    // `aria-expanded == "true"` on each question button.
    const expanded: array<bool>
    // The `hidden` attribute on each answer panel.
    const answerHidden: array<bool>
    // Each item's icon text, None when the item has no `.faq__icon`.
    const icon: array<Option<string>>

    /** The three arrays describe the same items. */
    ghost predicate Shaped()
      reads this
    {
      && expanded.Length == answerHidden.Length == icon.Length
      && expanded != answerHidden
    }

    /** The three views of item `k` agree: the answer is hidden exactly when the button
        says collapsed, and the icon, if any, shows the matching glyph. */
    ghost predicate Agrees(k: int)
      requires Shaped() && 0 <= k < expanded.Length
      reads this, expanded, answerHidden, icon
    {
      && answerHidden[k] == !expanded[k]
      && (icon[k].Some? ==> icon[k].value == Glyph(expanded[k]))
    }

    ghost predicate Valid()
      reads this, expanded, answerHidden, icon
    {
      Shaped() && forall k :: 0 <= k < expanded.Length ==> Agrees(k)
    }

    /** The page-load pass: every item is closed in turn. `icons` gives, per item, its
        icon (with whatever text the markup holds) or None. */
    constructor (icons: seq<Option<string>>)
      ensures Valid()
      ensures expanded.Length == |icons|
      ensures forall k :: 0 <= k < |icons| ==> !expanded[k]
      ensures forall k :: 0 <= k < |icons| ==> (icon[k].Some? <==> icons[k].Some?)
      ensures fresh(expanded) && fresh(answerHidden) && fresh(icon)
    {
      expanded := new bool[|icons|];
      answerHidden := new bool[|icons|];
      icon := new Option<string>[|icons|](k requires 0 <= k < |icons| => icons[k]);
      new;
      var k := 0;
      while k < |icons|
        invariant 0 <= k <= |icons|
        invariant Shaped()
        invariant forall j :: 0 <= j < k ==> !expanded[j] && Agrees(j)
        invariant forall j :: 0 <= j < |icons| ==> (icon[j].Some? <==> icons[j].Some?)
      {
        Close(k);
        k := k + 1;
      }
    }

    /** `close()`: item `k` reads collapsed in all three views; nothing else changes. */
    method Close(k: nat)
      requires Shaped() && k < expanded.Length
      modifies expanded, answerHidden, icon
      ensures expanded[..] == old(expanded[..])[k := false]
      ensures answerHidden[..] == old(answerHidden[..])[k := true]
      ensures icon[..] == old(icon[..])[k := SetText(old(icon[k]), "+")]
      ensures Agrees(k)
    {
      expanded[k] := false;
      answerHidden[k] := true;
      icon[k] := SetText(icon[k], "+");
    }

    /** `open()`: item `k` reads expanded in all three views; nothing else changes. */
    method Open(k: nat)
      requires Shaped() && k < expanded.Length
      modifies expanded, answerHidden, icon
      ensures expanded[..] == old(expanded[..])[k := true]
      ensures answerHidden[..] == old(answerHidden[..])[k := false]
      ensures icon[..] == old(icon[..])[k := SetText(old(icon[k]), "\U{2013}")]
      ensures Agrees(k)
    {
      expanded[k] := true;
      answerHidden[k] := false;
      icon[k] := SetText(icon[k], "\U{2013}");
    }

    /** The click handler of item `i`: it reads the button's state, closes every other
        item, then closes item `i` if it was open and opens it otherwise. */
    method Click(i: nat)
      requires Valid() && i < expanded.Length
      modifies expanded, answerHidden, icon
      ensures Valid()
      ensures expanded[..] == AfterClick(old(expanded[..]), i)
      ensures forall k :: 0 <= k < icon.Length ==> (icon[k].Some? <==> old(icon[k]).Some?)
    {
      var wasExpanded := expanded[i];
      var j := 0;
      while j < expanded.Length
        invariant 0 <= j <= expanded.Length
        invariant forall k :: 0 <= k < j && k != i ==> !expanded[k] && Agrees(k)
        invariant forall k :: j <= k < expanded.Length ==> expanded[k] == old(expanded[k]) && Agrees(k)
        invariant expanded[i] == old(expanded[i]) && Agrees(i)
        invariant forall k :: 0 <= k < icon.Length ==> (icon[k].Some? <==> old(icon[k]).Some?)
      {
        if j != i {
          expanded[j] := false;
          answerHidden[j] := true;
          icon[j] := SetText(icon[j], "+");
        }
        j := j + 1;
      }
      if wasExpanded {
        Close(i);
      } else {
        Open(i);
      }
    }
  }
}
