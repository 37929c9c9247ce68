# Cozinha do Chef — the landing page's behaviour, in Dafny

The page's script (`script.js`) wires a one-page sales site. This project models its
stateful core and proves what it promises:

- **The lead form.** Three field checks decide whether a lead is accepted:
  - `hasTwoWords`: a full name of two words, each of two or more characters;
  - `isEmailValid`: a plausible e-mail address;
  - `isWhatsValidIfProvided`: an optional Brazilian WhatsApp number of 10 to 13 digits.

  The `submit` handler then:
  - clears the status (`resetStatus`);
  - runs all four checks (the three above and the consent box), writing each failing
    check's message into its error slot (`setError`);
  - focuses the name input when the name fails, and otherwise the email input when the
    email fails and the name input does not already hold the focus;
  - on success, shows the success box and resets the form.
- **The FAQ accordion.** Each item has three views: a question button (`aria-expanded`),
  an answer panel (`hidden`) and an optional icon (`+` or an en dash). Every item starts
  closed. A click closes every other item, then toggles the clicked one.
- **The mobile menu.** `toggleMenu(open)` keeps the button's `aria-expanded` and the
  panel's `hidden` attribute in step. The menu button toggles the panel. A menu link
  closes it.

Files:

- `wrappers.dfy`: `Option`, which stands for page elements that may be missing.
- `dom.dfy` (module `Dom`): setting the text of an element that may be missing.
- `text.dfy` (module `Text`): the JavaScript string built-ins the checks use, over
  `seq<char>`:
  - white space as `\s` and `trim` see it;
  - `trim`, `replace(/\s+/g, " ")`, `split(" ")`, `filter(Boolean)` and `replace(/\D/g, "")`.

  Each comes with the lemmas that relate it to a plain reading: the words of a string,
  its digits.
- `lead_rules.dfy` (module `LeadRules`): the three field checks. Each is written the way
  the script computes it. Each is proved equivalent to an independent reading of the
  rule, and checked on worked examples, among them the samples its error messages show
  (`voce@exemplo.com`, `11999999999`).
- `lead_form.dfy` (module `LeadForm`): the form as a class whose fields are the inputs,
  the error slots, the success box and the focused element. The submit handler is a
  method over them.
- `faq.dfy` (module `Faq`): the accordion as a class over three arrays (one entry per
  item), and the pure transition `AfterClick` it is proved against.
- `menu.dfy` (module `Menu`): the menu's two attributes as a class, and the pure `Step`
  its toggle is proved against.

## Model

| member | source | states |
|---|---|---|
| Dom.SetText | script.js:189-191 | `setError` (and the FAQ icon update): a present element now reads the text; a missing one stays missing |
| Text.Trim | script.js:195 | `trim` leaves a string no longer than its input that neither starts nor ends with white space |
| Text.TrimSplits | script.js:195 | `trim` keeps a contiguous piece of the value and drops only white space before and after it |
| Text.TrimEmpty | script.js:210-211 | `trim` yields `""` exactly when the value is all white space (the WhatsApp field's "not provided" case) |
| Text.TrimUnchanged | script.js:195-196 | trimming a value with no white space at either end leaves it as it is |
| Text.Collapse | script.js:202 | collapsing white-space runs keeps emptiness, the first character and whether it is white space |
| Text.CollapseShape | script.js:202 | after `replace(/\s+/g, " ")` the only white space left is `' '` and no two spaces are adjacent |
| Text.SplitJoin | script.js:203 | `split` on one character is undone by `join` on it: no character is lost or invented |
| Text.SplitSpaceIsFields | script.js:203 | once `' '` is the only white space, `split(" ")` is the split at every white-space character |
| Text.CollapseFields | script.js:202-203 | collapsing runs keeps the first field and the non-empty fields after it |
| Text.TokensAreWords | script.js:200-203 | the name pipeline (trim, collapse, split on `" "`, drop empty parts) yields exactly the words of the value, in order |
| Text.KeepDigits | script.js:213 | `replace(/\D/g, "")` keeps only digits and never lengthens the value |
| Text.KeepDigitsAppend | script.js:213 | the digits of a concatenation are the digits of each part, in order |
| Text.KeepDigitsEmpty | script.js:213 | a value keeps no digit exactly when it holds none |
| Text.KeepDigitsTrim | script.js:210-213 | trimming before removing non-digits loses no digit |
| Text.Count | script.js:196 | the measure used to state the regular expression's one-`@` consequence: the number of occurrences of a character, zero exactly when the character is absent |
| LeadRules.HasTwoWordsMeaning | script.js:199-207 | `hasTwoWords` holds iff the value has at least two words and its first two words have two or more characters |
| LeadRules.HasTwoWordsIgnoresRest | script.js:205-206 | only the first two words count: anything after white space keeps an accepted name accepted |
| LeadRules.HasTwoWordsShortFirst | script.js:204-206 | a one-character first word ("A B") is refused whatever follows |
| LeadRules.NameOfTwoWords | script.js:199-207 | any two space-separated runs of two or more non-space characters form an accepted name |
| LeadRules.AcceptedNames | script.js:199-207 | "Ana Silva", "Jo Ana" and "Ana Maria" are accepted |
| LeadRules.AcceptedSpacedName | script.js:200-203 | extra white space around and between the words ("  Ana   Maria  ") is accepted |
| LeadRules.RefusedNames | script.js:199-207 | "", "Ana" and "A B" are refused |
| LeadRules.IsEmailValidMeaning | script.js:193-197 | the left-to-right scan accepts exactly the trimmed values of the form `local@domain.tld` the regular expression describes |
| LeadRules.EmailScanIsPattern | script.js:196 | the scan and the regular expression `^[^\s@]+@[^\s@]+\.[^\s@]{2,}$` agree on every string, both ways |
| LeadRules.EmailOfTrimmed | script.js:195-196 | on a value with no white space at either end, `isEmailValid` is the regular expression itself |
| LeadRules.EmailHasOneAt | script.js:193-197 | an accepted address, trimmed, holds exactly one `@` and no white space |
| LeadRules.EmailOfParts | script.js:196 | any `local@domain.tld` of non-empty plain pieces with a top-level part of two or more characters is accepted |
| LeadRules.AcceptedEmails | script.js:193-197 | "a@b.co", "a@b.c.d", "a@b..c" and "ana@exemplo.com" are accepted |
| LeadRules.MessageSampleEmail | script.js:251 | the sample address the error message offers, "voce@exemplo.com", is accepted |
| LeadRules.RefusedEmails | script.js:193-197 | "", "a@b", "a@b.", "a@b.c", "a@.bc", "@b.com", "bad-email" and "a b@c.de" are refused |
| LeadRules.NoAtAfterStart | script.js:196 | a string with no `@` after its first character never matches |
| LeadRules.WhatsMeaning | script.js:209-221 | the number passes iff it is all white space or carries 10 to 13 digits, wherever they stand |
| LeadRules.WhatsWithoutDigits | script.js:211-220 | a non-blank value without any digit is refused |
| LeadRules.NationalNumberDigits | script.js:213 | "(11) 99999-9999" carries 11 digits |
| LeadRules.InternationalNumberDigits | script.js:213 | "+55 11 99999-9999" carries 13 digits |
| LeadRules.AcceptedWhats | script.js:209-221 | "", "(11) 99999-9999", "+55 11 99999-9999" and the error message's sample "11999999999" (script.js:260) pass |
| LeadRules.RefusedWhats | script.js:209-221 | "123" and "telefone" are refused |
| LeadForm.Blank | script.js:275 | `form.reset()` empties a present text input and leaves a missing one missing |
| LeadForm.Unchecked | script.js:275 | `form.reset()` unchecks a present checkbox and leaves a missing one missing |
| LeadForm.Form.ChecksOnRead | script.js:238-241 | the form's checks equal the rules applied to the values the handler reads, a missing input read as `""` |
| LeadForm.Form.ResetStatus | script.js:223-229 | every present error slot is emptied, the success box (if any) hidden, nothing else changed |
| LeadForm.Form.Report | script.js:243-267 | each failing check writes its own message; the name takes the focus on failure, the email only when the name input is not focused; `ok` iff all four pass |
| LeadForm.Form.ShowSuccess | script.js:272-276 | the success box shows and every present input returns to its empty or unchecked default |
| LeadForm.Form.Submit | script.js:232-277 | the whole handler: verdict iff all four checks pass on the values read; each slot shows its own check's message or `""`; focus as above; success box and reset exactly on success with a box |
| LeadForm.FourErrorsAtOnce | script.js:243-269 | "Ana", "bad-email", "123" and an unchecked box produce all four messages at once, focus the name and show no success |
| LeadForm.AcceptedLead | script.js:232-277 | "Ana Maria", "ana@exemplo.com", an empty WhatsApp number and a checked box pass every check, leave every slot empty, show the success box and reset every input |
| Faq.Glyph | script.js:131-141 | the icon reads `+` exactly for a closed item |
| Faq.AfterClick | script.js:145-162 | after a click at most one item is open and the number of items is unchanged |
| Faq.ClickOpenItemClosesAll | script.js:160-161 | clicking the open item leaves every item closed |
| Faq.ClickClosedItemOpensIt | script.js:149-161 | clicking a closed item opens exactly that item |
| Faq.ClickTwice | script.js:145-162 | two clicks on one item restore that item and leave every other one closed |
| Faq.Accordion.constructor | script.js:123-143 | after page load every item is closed and its three views agree |
| Faq.Accordion.Close | script.js:131-135 | the item reads collapsed in all three views; no other item changes |
| Faq.Accordion.Open | script.js:137-141 | the item reads expanded in all three views; no other item changes |
| Faq.Accordion.Click | script.js:145-162 | the open flags become `AfterClick` of the old ones, the three views of every item still agree, and icons are neither added nor removed |
| Menu.BoolText | script.js:36 | `String(b)` is `"true"` exactly for `true`, otherwise `"false"` |
| Menu.Step | script.js:34-38 | the panel opens as the argument says, or flips without one, and `aria-expanded` then says whether it is open |
| Menu.ToggleTwice | script.js:42 | two argument-less toggles restore the panel, and a consistent state exactly |
| Menu.ExplicitIdempotent | script.js:45 | asking twice for the same state is asking once |
| Menu.MobileMenu.Toggle | script.js:32-39 | nothing happens unless both elements exist; otherwise the attributes take their `Step` |
| Menu.MobileMenu.ButtonClick | script.js:42 | the menu button flips the panel and leaves the attributes consistent |
| Menu.MobileMenu.LinkClick | script.js:44-46 | a menu link closes the panel and sets `aria-expanded` to `"false"` |
| Menu.MobileMenu.AnchorClick | script.js:76-77 | after an in-page anchor link scrolls, a shown panel is closed with `toggleMenu(false)`; a hidden or missing panel is left as it is |

## Left out

- The footer year, the scrolled state of the top bar, smooth scrolling and its header offset, the call-to-action micro-interaction, the reveal-on-scroll observer and the simulated purchase alert (script.js:16-120 outside the menu, 166-174). These are clock, scroll-position, layout, pointer-event, observer-callback and dialog effects with no state the rest of the script reads. Of the anchor-link handler (script.js:66-79) only its last step, closing a shown menu, is modelled (`Menu.MobileMenu.AnchorClick`); the `href` and target checks that can end it earlier and the scroll itself are not.
- Element lookup and event registration (`querySelector`, `addEventListener`, and `forEach` where it only registers handlers; the FAQ's two `forEach` passes at script.js:124 and 149 are the loops of `Faq.Accordion.constructor` and `Faq.Accordion.Click`). Missing elements are `Option` values or flags. Each handler is a method the caller invokes.
- The `submit` handler exists only when `#leadForm` does. The model assumes it does.
- `e.preventDefault()`: the browser's default submission is not modelled.
- A FAQ item without its question or its answer gets no handler and is never touched, so the accordion holds only complete items.
- Text is a sequence of Unicode scalar values. JavaScript counts UTF-16 code units, so a character outside the Basic Multilingual Plane counts once here and twice in the page (the two-character minimum of a name word, the two-character top-level part of an address).
- The regular expressions are modelled one by one, as functions and predicates. No general regular-expression engine is modelled.
- `form.reset()` returns each control to its own default (its `value` or `checked` attribute in the markup). It is modelled on the assumption that the markup gives the text inputs no default value and the consent box no `checked` attribute; the markup is not part of this model.
- `document.activeElement` is a three-way value: the name input, the email input or anything else. `focus()` always succeeds on a present input.
- `String(value || "")` only matters for non-string values. The form's values are always strings, so the checks take strings.
