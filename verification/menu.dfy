/** The mobile menu: the `#menuBtn` button's `aria-expanded` attribute and the
    `#mobileMenu` panel's `hidden` attribute, driven by `toggleMenu`. */
module Menu {
  import opened Wrappers

  /** `String(b)` for a boolean. */
  function BoolText(b: bool): (t: string)
    ensures t == "true" || t == "false"
    ensures t == "true" <==> b
  {
    if b then "true" else "false"
  }

  /** The two attributes `toggleMenu` writes. */
  datatype MenuState = MenuState(hidden: bool, ariaExpanded: string)

  /** The button announces what the panel shows: expanded exactly when not hidden. */
  predicate Consistent(s: MenuState) {
    s.ariaExpanded == BoolText(!s.hidden)
  }

  /** What `toggleMenu(open)` makes of the attributes when both elements exist: the panel
      opens when the argument says so, or, with no argument, when it was hidden. */
  function Step(s: MenuState, open: Option<bool>): (r: MenuState)
    ensures Consistent(r)
    ensures open.Some? ==> r.hidden != open.value
    ensures open.None? ==> r.hidden != s.hidden
  {
    var willOpen := open.GetOr(s.hidden);
    MenuState(!willOpen, BoolText(willOpen))
  }

  /** Two argument-less toggles bring the panel back to where it was, and a consistent
      state back exactly. */
  lemma ToggleTwice(s: MenuState)
    ensures Step(Step(s, None), None).hidden == s.hidden
    ensures Consistent(s) ==> Step(Step(s, None), None) == s
  {
  }

  /** Asking for the same state twice is the same as asking once. */
  lemma ExplicitIdempotent(s: MenuState, open: bool)
    ensures Step(Step(s, Some(open)), Some(open)) == Step(s, Some(open))
  {
  }

  class MobileMenu {
    // Whether `#menuBtn` and `#mobileMenu` exist.
    const hasButton: bool
    const hasMenu: bool
    // The panel's `hidden` attribute and the button's `aria-expanded` text.
    var hidden: bool
    var ariaExpanded: string

    function State(): MenuState
      reads this
    {
      MenuState(hidden, ariaExpanded)
    }

    constructor (hasButton: bool, hasMenu: bool, hidden: bool, ariaExpanded: string)
      ensures this.hasButton == hasButton && this.hasMenu == hasMenu
      ensures State() == MenuState(hidden, ariaExpanded)
    {
      this.hasButton, this.hasMenu := hasButton, hasMenu;
      this.hidden, this.ariaExpanded := hidden, ariaExpanded;
    }

    /** `toggleMenu(open)`, with `open` None when called without a boolean: nothing
        happens unless both elements exist; otherwise the state takes its `Step`. */
    method Toggle(open: Option<bool>)
      modifies this
      ensures State() == if hasButton && hasMenu then Step(old(State()), open) else old(State())
    {
      if !hasButton || !hasMenu {
        return;
      }
      var willOpen := if open.Some? then open.value else hidden;
      ariaExpanded := BoolText(willOpen);
      if willOpen {
        hidden := false;
      } else {
        hidden := true;
      }
    }

    /** The button's click handler (registered only when both elements exist): toggle
        without an argument, so a hidden panel opens and a shown one closes. */
    method ButtonClick()
      requires hasButton && hasMenu
      modifies this
      ensures Consistent(State())
      ensures hidden == !old(hidden)
    {
      Toggle(None);
    }

    /** A menu link's click handler: the panel closes whatever its state. */
    method LinkClick()
      requires hasButton && hasMenu
      modifies this
      ensures State() == MenuState(true, "false")
    {
      Toggle(Some(false));
    }

    /** The menu part of an anchor link's click handler, once it has scrolled to its
        target: a panel that is shown is closed with `toggleMenu(false)`; a hidden or
        missing panel is left alone. */
    method AnchorClick()
      modifies this
      ensures hasButton && hasMenu && !old(hidden) ==> State() == MenuState(true, "false")
      ensures !(hasButton && hasMenu && !old(hidden)) ==> State() == old(State())
    {
      if hasMenu && !hidden {
        Toggle(Some(false));
      }
    }
  }
}
