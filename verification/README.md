# Fortress Fencing site script — a verified model of its behaviour

`script.js` wires up a marketing site: the mobile navigation menu and its dropdowns,
the quote form with required-field checks, the sticky header, the notification
banner, the gallery lightbox, the statistics counters and the business-hours label
on the fixed call button. This project models the logic inside that wiring in
Dafny. The DOM is replaced by explicit state: flags, sequences of overlays and form
fields, and the ids of injected style elements. Events and timer firings become
method calls. The clock, the viewport width and click targets become parameters.

Modules, one per component of `script.js`:

- `BusinessHours` (`business_hours.dfy`): the pure business-hours rule, checked against a posted weekly schedule, and the one-time relabelling of the call button. The day and hour come from the visitor's local clock, so the rule applies in the visitor's time zone, not the business's.
- `Navigation` (`navigation.dfy`): class `NavMenu`. It holds the panel, button, icon and dropdown flags and has the toggle, close, outside-click, Escape, dropdown-click, hover and anchor-click steps.
- `StickyHeader` (`sticky_header.dfy`): the `(lastScroll, hidden)` state machine as a pure step function, plus class `Header`, which applies it in place.
- `Overlays` (`overlays.dfy`): class `Document`. It models the body's overlays, the head's style ids, the scroll lock and the registered Escape listeners. It covers `showNotification` and its timers, the lightbox and its two ways of closing, and the guarded style injections.
- `QuoteForm` (`quote_form.dfy`): JavaScript `trim`, the per-field validation pass, and class `Form` with its submit, completion-timer and input steps. It shows notifications through an `Overlays.Document`.
- `CounterAnimation` (`counter.dfy`): `parseInt` on the stat text, the digit-stripped suffix and the clamped stepping in exact arithmetic. Class `StatNumber` carries the `data-animated` guard, and class `Observed` is the reveal-on-intersection entry point.

Three behaviours of the code are easy to misread, and one is a defect:

- The hover listeners of the dropdowns are attached only if the viewport is wider than 768 px at start-up (`script.js:225`). The width is not checked on each event. Only the mobile click on a dropdown link checks the width when it happens.
- After a successful submission, `form.reset()` puts every control back to its *default* value. A control that has one does not end up empty.
- `showNotification` removes only the *first* existing notification. "At most one notification" is an invariant that each call preserves (`Overlays.ShowLeavesOnlyNew`). With two notifications already present, two remain (`Overlays.ShowReplacesFirst`).
- A lightbox closed by a click keeps its Escape listener. See Findings.

## Model

| member | source | states |
|---|---|---|
| `BusinessHours.IsBusinessHours` | script.js:423-425 | business hours are Mon–Fri 7–19 and Sat 8–16; a result of true implies a day from 1 to 6 and an hour from 7 to 18; Sunday (day 0) is never open |
| `BusinessHours.MatchesSchedule` | script.js:422-425 | for each day 0..6 the rule is true exactly when the posted opening for that day exists and the hour lies in [opens, closes); so hour 19 on a weekday is closed |
| `BusinessHours.OpenHoursPerDay` | script.js:422-425 | counting the hours 0..h-1 of a day that satisfy the rule gives the overlap of [0, h) with that day's posted opening; over a whole day this is the length of the opening |
| `BusinessHours.UpdateBusinessHours` | script.js:416-436 | outside business hours a present call button shows "Leave Message" and redirects to the quote form; inside business hours the button is left untouched |
| `Navigation.NavMenu.constructor` | script.js:221-235 | the panel starts closed with the fa-bars icon and every dropdown closed; hover listeners exist iff the start-up width is greater than 768 |
| `Navigation.NavMenu.ToggleMenu` | script.js:35-49 | flips the panel's active flag; button flag and icon stay consistent (fa-times iff open); dropdowns are unchanged |
| `Navigation.NavMenu.CloseMobileMenu` | script.js:81-91 | the panel is closed, the icon is fa-bars and not fa-times, every dropdown is closed and the number of dropdowns is unchanged |
| `Navigation.NavMenu.DocumentClick` | script.js:66-72 | an open panel closes, with all dropdowns, iff the click is outside both the panel and the menu button; otherwise nothing changes |
| `Navigation.NavMenu.KeyDown` | script.js:75-79 | Escape closes the panel and all dropdowns only when the panel is open; any other key, or Escape on a closed panel, changes nothing |
| `Navigation.NavMenu.DropdownLinkClick` | script.js:53-63 | at a click-time width ≤ 768 it toggles exactly that dropdown and cancels the navigation; at a wider viewport nothing changes |
| `Navigation.NavMenu.MouseEnter` | script.js:226-228 | opens exactly that dropdown when hover listeners were attached at start-up, otherwise changes nothing |
| `Navigation.NavMenu.MouseLeave` | script.js:230-232 | closes exactly that dropdown when hover listeners were attached at start-up, otherwise changes nothing |
| `Navigation.NavMenu.AnchorClick` | script.js:181-204 | "#", "#!" and missing targets change nothing; any other anchor leaves the panel closed (icon fa-bars) and every dropdown closed before scrolling |
| `Navigation.ToggleOpenThenEscape` | script.js:35-91 | opening the panel, opening a dropdown, then pressing Escape ends with the panel closed and no dropdown open |
| `StickyHeader.Scrolled` | script.js:612-629 | at offset ≤ 100 the header is shown and lastScroll is kept; above 100 lastScroll becomes the offset, a larger offset than lastScroll hides, a smaller one shows, an equal one changes nothing |
| `StickyHeader.ScrolledAll` | script.js:612-629 | after a run of scroll events whose last offset is ≤ 100 the header is shown |
| `StickyHeader.ScrolledKeepsReachable` | script.js:607-629 | one event preserves the reachable-state invariant: lastScroll is 0 or above 100, and a hidden header has lastScroll above 100 |
| `StickyHeader.RunsStayReachable` | script.js:607-629 | every state reached from the initial (0, shown) by any run of scroll events satisfies that invariant |
| `StickyHeader.EqualOffsetChangesNothing` | script.js:615-628 | in every reachable state an event at the recorded lastScroll changes nothing, including inside the top zone |
| `StickyHeader.Header.constructor` | script.js:607 | the header starts shown with lastScroll 0 |
| `StickyHeader.Header.OnScroll` | script.js:612-629 | the in-place handler's new (lastScroll, hidden) is the step function applied to the old state, and it keeps the reachable-state invariant |
| `Overlays.WithoutFirstNotification` | script.js:442-445 | removes the first notification in document order and keeps every lightbox; the remaining notifications are the old ones minus the first |
| `Overlays.ShowLeavesOnlyNew` | script.js:442-459 | with at most one notification before, the body after eviction and append holds exactly one notification, the new one with its message and type |
| `Overlays.ShowReplacesFirst` | script.js:442-459 | in general the number of notifications after a show is max(1, the number before): only one is evicted |
| `Overlays.Detach` | script.js:531-533 | `remove()` drops exactly the elements with that identity, never adds a notification, and is the identity on a body that no longer holds the element |
| `Overlays.BeginLeaving` | script.js:529-539 | starting the exit transition of notification id (`slideOutRight`) rewrites the body in place and keeps its length; what it marks is `Overlays.BeginLeavingMarksOnly` |
| `Overlays.DetachIdempotent` | script.js:537-545 | removing a notification a second time (the timer that finds it gone) gives the same body as removing it once |
| `Overlays.BeginLeavingMarksOnly` | script.js:537-539 | starting the exit transition keeps every lightbox, only marks that notification as leaving, and does nothing to a detached notification |
| `Overlays.BeginLeavingKeepsCount` | script.js:537-539 | starting the exit transition keeps the number of notifications |
| `Overlays.EnsureStyle` | script.js:462-526 | the guarded injection leaves the id present, adds nothing else, keeps ids distinct, and changes nothing when the id is already there |
| `Overlays.EnsureStylesUnique` | script.js:323-377 | after any sequence of guarded injections (lightbox-styles, notification-styles, notification-animations) every id occurs at most once, and exactly the injected ids were added |
| `Overlays.Unregister` | script.js:392 | removeEventListener drops exactly that listener and keeps the others |
| `Overlays.EscapeDispatch` | script.js:388-394 | as written: every listener that stays registered after an Escape is one that threw, and the number of errors equals the number kept; only removals happen; exactly which listeners stay and which lightboxes leave is `Overlays.MixedDispatch` |
| `Overlays.EscapeListener` | script.js:388-394 | one closeOnEsc run: afterwards lightbox id is not attached and every other lightbox is as before; if it was attached, scrolling is restored and nothing is kept or thrown; if not, it throws once, stays registered, and body and lock are unchanged |
| `Overlays.StaleListenerThrows` | script.js:388-394 | a listener whose lightbox is already gone throws once and stays registered, and the body and scroll lock are unchanged; beside other listeners, `Overlays.MixedDispatch` |
| `Overlays.MixedDispatch` | script.js:388-394 | for any distinct listeners, stale and live mixed: the listeners kept after Escape are exactly the stale ones (lightbox already removed), each once; exactly the live ones' lightboxes leave and every other lightbox stays; scrolling stays locked iff it was locked and no listener was live |
| `Overlays.LiveListenersNeverThrow` | script.js:388-394 | if every registered listener's lightbox is attached, Escape throws nothing and removes all of those lightboxes, and no listener stays; other lightboxes stay and scrolling is restored |
| `Overlays.Document.ShowNotification` | script.js:440-566 | evicts the first notification and appends the new one, leaving exactly that notification; injects notification-styles and notification-animations once each; keeps the at-most-one invariant |
| `Overlays.Document.BeginExit` | script.js:529-530 | the close click (or the 5 s timer finding the notification attached) starts its exit transition; the invariants are preserved |
| `Overlays.NotificationsDetach` | script.js:531-544 | listing the notifications commutes with removing an element |
| `Overlays.RemovingNotificationKeepsLightboxes` | script.js:531-544 | a notification's removal timer, which only ever removes its own notification, keeps every lightbox |
| `Overlays.RemovingShownNotification` | script.js:531-544 | removing the notification that is shown leaves no notification |
| `Overlays.Document.RemoveNotification` | script.js:540-544 | the 300 ms removal of its own notification detaches it, leaving no notification when it was the one shown; on one already detached it changes nothing; live Escape listeners stay live |
| `Overlays.Document.OpenLightbox` | script.js:306-395 | appends a fresh lightbox, locks scrolling, injects lightbox-styles once, and registers one more Escape listener |
| `Overlays.Document.CloseLightboxByClick` | script.js:380-385 | as written: the lightbox leaves and scrolling is restored, but the Escape listener list is unchanged |
| `Overlays.Document.CloseLightboxByClickUnregistering` | script.js:380-385 | corrected close: also drops that lightbox's Escape listener, keeping every registered listener live |
| `Overlays.DetachHasLightbox` | script.js:382-390 | after `removeChild` of lightbox id, exactly the other lightboxes remain attached |
| `Overlays.DispatchEscape` | script.js:388-394 | the dispatch loop over the listeners registered when the key went down, in registration order, computes exactly the dispatch outcome |
| `Overlays.Document.PressEscape` | script.js:388-394 | the loop over the registered listeners produces exactly the dispatch outcome; the listeners stay registered once each (part of `Valid`); with live listeners it reports no error and leaves none registered |
| `Overlays.ClickCloseThenEscape` | script.js:380-394 | open, click-close, Escape: one NotFoundError and one listener still registered |
| `Overlays.StaleThenLive` | script.js:388-394 | a stale listener registered before a live one: the first throws and stays registered, the second removes its lightbox, one error in all |
| `Overlays.ReopenThenEscape` | script.js:380-394 | open, click-close, open a second lightbox, Escape: the second lightbox leaves, one NotFoundError, and the first listener is the only one still registered |
| `Overlays.ClickCloseThenEscapeCorrected` | script.js:380-394 | the same steps with the corrected close: no error and no listener left |
| `QuoteForm.TrimStartSuffix` | script.js:111 | leading trim yields the suffix of the value starting at its first non-whitespace character, and everything dropped is whitespace |
| `QuoteForm.TrimEndPrefix` | script.js:111 | trailing trim yields the prefix ending at the last non-whitespace character, and everything dropped is whitespace |
| `QuoteForm.Trim` | script.js:110 | `trim()` gives a slice of the value, surrounded only by whitespace and line terminators, that neither starts nor ends with one |
| `QuoteForm.Filled` | script.js:110 | a value the field rule rejects is made only of whitespace and line terminators; `QuoteForm.FilledIffVisibleChar` gives the converse |
| `QuoteForm.FilledIffVisibleChar` | script.js:111 | `value.trim()` is non-empty iff the value holds a character that is not JavaScript whitespace or a line terminator |
| `QuoteForm.Checked` | script.js:110-129 | for a required field: flagged iff empty after trim; with at most one marker before, a marker exists after iff the field is empty; non-required fields are untouched; values never change |
| `QuoteForm.RecheckChangesNothing` | script.js:116-129 | submitting again over unchanged values changes nothing: no second marker, no removed marker |
| `QuoteForm.AfterInput` | script.js:169-173 | an input event stores the typed value, clears the border, and removes the field's marker |
| `QuoteForm.Reset` | script.js:152 | form.reset() gives every control its default value and leaves borders and markers as they were |
| `QuoteForm.Form.ValidateFields` | script.js:107-130 | the validation loop returns true iff every required field is filled, and rewrites each field exactly as Checked does |
| `QuoteForm.Form.Submit` | script.js:99-165 | goes past validation iff every required field is filled; otherwise the document is exactly as after showNotification of the error message (only that notification shown, style ids injected once, lightboxes, scroll lock and Escape listeners kept), and the button state and pending submissions are untouched; on success the document is unchanged, the button is disabled and busy, and one completion is pending |
| `QuoteForm.Form.CompleteSubmission` | script.js:144-164 | the 1.5 s step leaves the document exactly as after showNotification of the success message, resets the values, re-enables the button and restores the content captured at submit |
| `QuoteForm.Form.Input` | script.js:168-173 | an input on field k clears that field's border and marker and leaves every other field and the button unchanged |
| `CounterAnimation.LeadingDigits` | script.js:272 | the longest all-digit prefix of the text: a prefix, made of digits, followed by a non-digit or by the end |
| `CounterAnimation.StripDigits` | script.js:273 | the suffix holds exactly the text's non-digit characters, no digit, and is no longer than the text |
| `CounterAnimation.ParseLeadingInt` | script.js:272 | `parseInt` without a radix: after a 0x/0X prefix the value of the whole run of hexadecimal digits that follows it, otherwise the value of the whole run of decimal digits the text starts with; `CounterAnimation.NumeralThenSuffixParses` gives the round trip |
| `CounterAnimation.DecimalValue` | script.js:286 | the numeral shown for an integer reads back as that integer |
| `CounterAnimation.Decimal` | script.js:286 | `Math.floor(current) + ''` is a non-empty run of digits with no leading zero (it starts with 0 only for 0) |
| `CounterAnimation.Shown` | script.js:286 | a frame's text is a numeral followed by the suffix, and the numeral reads back as the integer part of the current value |
| `CounterAnimation.LeadingHexDigits` | script.js:272 | after a "0x"/"0X" prefix parseInt reads the longest prefix of hexadecimal digits: a prefix, made of hex digits, followed by a non-hex character or by the end |
| `CounterAnimation.NumeralHexPrefix` | script.js:272-286 | a shown frame starts with a "0x" prefix iff the value is 0 and the suffix starts with x or X |
| `CounterAnimation.NumeralThenSuffixParses` | script.js:272-286 | a numeral followed by a digit-free suffix parses back to the number and strips back to the suffix, unless it forms a "0x" prefix |
| `CounterAnimation.FinalTextReparses` | script.js:272-286 | the last frame (target then suffix) has the same parseInt value and the same stripped suffix as the original text, except for a zero target with a suffix starting with x |
| `CounterAnimation.FinalTextOfZeroThenX` | script.js:272-286 | that exception happens: "00x5" ends on "0x", which parseInt does not read as a number |
| `CounterAnimation.Example250Plus` | script.js:272-273 | "250+" has target 250 and suffix "+" |
| `CounterAnimation.ExampleHex` | script.js:272-273 | "0x1F" is read as hexadecimal: target 31 and suffix "xF" |
| `CounterAnimation.Frame` | script.js:280-285 | the value after k ticks lies between 0 and the target |
| `CounterAnimation.FrameMonotone` | script.js:280-286 | the counted value never decreases from one tick to a later one |
| `CounterAnimation.ReachedAtLastTick` | script.js:274-285 | a positive target is reached at exactly tick 125 (2000 ms / 16 ms) and never before |
| `CounterAnimation.FrameNext` | script.js:280-285 | before the clamp, the value is k steps of target/125, and one tick adds one step and clamps at the target |
| `CounterAnimation.StatNumber.Animate` | script.js:269-278 | the first call sets data-animated and starts the timer with the parsed target and the stripped suffix; any later call changes nothing |
| `CounterAnimation.StatNumber.Tick` | script.js:280-287 | each tick raises the value by one step, clamped at the target, shows floor(value) then the suffix, and stops at the target; the last frame shows exactly the target then the suffix |
| `CounterAnimation.Observed.OnIntersection` | script.js:246-256 | revealing is one-way; on the first intersection a stat's counter is running at tick 0 from 0 towards the parsed target with the digit-stripped suffix and unchanged text; a later intersection never restarts it |

## Left out

- DOM markup, `innerHTML` templates and CSS text (the lightbox, notification and sticky-header styles, the loading spinner) are not modelled. A style element is its id and nothing more. The id-less sticky-header style element and other head content are not part of the head model.
- Real timers, with their delays of 16, 300, 500, 1500 and 5000 ms, are not modelled. Each timer firing is a method call (`Tick`, `BeginExit`, `RemoveNotification`, `CompleteSubmission`), which the environment may issue in any order.
- `IntersectionObserver` and its 10 % threshold are not modelled. `Observed.OnIntersection` takes the entry's `isIntersecting` flag as a parameter.
- The loading screen (`initLoadingScreen`), `preloadImages`, the footer year, `enhanceServiceForm`, and the call button's confirm dialog and `tel:` link are not modelled. They are browser or host plumbing with no state worth stating.
- UpdateBusinessHours: the replacement `onclick` is a flag (`redirectsToQuote`). The smooth scroll it performs is not modelled, and neither is the start-up click listener that still runs beside it.
- AnchorClick: the pixel arithmetic (`offsetTop`, header height, the 20 px margin) and `scrollTo` itself are not modelled. The result only says whether the handler scrolls. For "#" the handler does nothing, but the browser's own default action still jumps to the top of the page.
- Form.CompleteSubmission: the scroll to the top of the page is not modelled. The form data gathered with `FormData` is never used by the source and is not modelled either.
- Gallery: reading the image URL from `backgroundImage` and the caption from the DOM is not modelled. `OpenLightbox` takes both as parameters.
- Document.CloseLightboxByClick: it requires the lightbox to be attached, because the browser delivers a click only to an element on the page.
- Checked: the model assumes each form control is the last element of its own group before any markers, and that no two controls share a parent. Under that layout, `nextElementSibling` is a marker exactly when the group has one. With another layout, repeated submits could add more markers.
- StatNumber.Animate: it assumes the stat text starts with an ASCII digit, and with a hexadecimal digit after a "0x" or "0X" prefix, which is read as hexadecimal. `parseInt`'s handling of leading whitespace, signs and non-numeric text (NaN, which would keep the interval running) is not modelled.
- Form.Submit: it models the script's submit handler only. Unless the form has `novalidate`, the browser's own check of `required` controls cancels a submission with an exactly empty value before the handler runs. The handler's trim check therefore only ever rejects whitespace-only values.
- Frame: the step `target / 125` uses exact real arithmetic. IEEE double rounding is not modelled, so a float run that ends one tick later or earlier is not captured.
- ParseLeadingInt: targets are unbounded integers. `parseInt` returns a double, so a digit run above 2^53 is rounded ("9007199254740993+" gives 9007199254740992), and this rounding is not captured.
- Decimal: numerals are printed digit by digit for every integer. JavaScript prints numbers of 10^21 and above in exponent notation, which is not captured.
- Header: offsets are integers, while `window.pageYOffset` is a double and can be fractional on a zoomed page; the handler only compares offsets with each other and with 100, so nothing it does depends on that. The source's early return when no `.header` exists is not modelled, and neither is the fact that `initStickyHeader` runs at script load, before `DOMContentLoaded`. The model assumes the header is present.
- NavMenu: the source's null checks on the menu button and panel are not modelled. The model assumes both exist.

## Findings

| source | as written | input that shows it | evidently intended | confidence | as-written member | corrected member |
|---|---|---|---|---|---|---|
| script.js:380-394 | the click-close path removes the lightbox but never removes its `closeOnEsc` keydown listener; a later Escape makes that listener call `document.body.removeChild` on a detached node, which throws NotFoundError before `removeEventListener` runs, so the listener stays registered for good and one more accumulates per open/click-close cycle | open a gallery image, click the dark background, press Escape | every dismissal path unregisters the Escape listener, so Escape never throws and no listeners accumulate | high (not executed; follows from the DOM's removeChild contract) | `Overlays.ClickCloseThenEscape` | `Overlays.Document.CloseLightboxByClickUnregistering` |

The as-written behaviour is also stated for any body by `Overlays.StaleListenerThrows`, and
for any mix of stale and live listeners by `Overlays.MixedDispatch`: the stale ones stay
registered, each once, so every open/click-close cycle adds one (`Overlays.ReopenThenEscape`).
The corrected close keeps the `ListenersLive` invariant of `Overlays.Document`: every
registered listener still has its lightbox. `Overlays.LiveListenersNeverThrow` proves
that under this invariant Escape throws nothing and leaves no listener registered.
`Overlays.ClickCloseThenEscapeCorrected` runs the same steps as the failing input and
ends with no error and no listener.
