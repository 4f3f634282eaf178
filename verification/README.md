# Page scripts of the tiles website, as a Dafny model

The website's two scripts are browser glue: `script.js` (main page) and
`products/product-script.js` (product pages). The parts with logic that can
be stated exactly are lifted out of the DOM here and modelled as pure
functions over small immutable state:

- **Stats counter tween** (`StatsCounter`). Each `.stat-value` counts from 0
  to its target. The fixed step is `ceil(target / (1200 / 16))` = `ceil(target / 75)`.
  Every frame adds the step, clamps the value to the target, and requests
  another frame while the value is still below it. A frame is one loop
  iteration or recursive call.
- **Stats one-shot trigger** (`StatsTrigger`). `onScroll` runs once at load
  and then on each scroll event while it stays registered. The first time
  the section's top is above `innerHeight - 100` it starts the counters,
  sets `statsAnimated` and unregisters itself.
- **Reveal one-shot** (`Reveal`). At load every `animate-fade-*` element is
  paused and observed. Its first intersecting observer entry sets it running
  and unobserves it.
- **Header threshold** (`HeaderScroll`). The header has `scrolled` exactly
  when `scrollY` exceeds 30 on the main page or 50 on product pages. The main
  page also runs its handler once at load.
- **Mobile menu** (`MobileMenu`). On the main page a button click toggles
  `active` on the links. On product pages the button toggles `active` on
  itself and on the links, and swaps its icon text between `menu` and
  `close`. A link click clears `active` on both.
- **Quote form validation** (`QuoteForm`, `EmailPattern`, `JsText`).
  - A required field is marked `error` exactly when its trimmed value is empty.
  - The first email input, when it is not blank, is checked against
    `^[^\s@]+@[^\s@]+\.[^\s@]+$` on its untrimmed value.
  - The verdict decides between success plus reset and the error message.
  - The regular expression is modelled twice and the two are proved to
    accept the same strings. `RegexMatches` reads it literally, as a split
    of the string. `EmailPatternTest` is a string test: no whitespace,
    exactly one `@` with a non-empty part before it, and a dot strictly
    inside the domain.

`Dom` holds the shared pieces: an `Option` for elements a query may not
find, and class lists as sets of names with `add`, `remove` and `toggle`.

`Step` and the counter chain are modelled for every integer below 2^53 in
magnitude that `parseInt` can return; a negative target is written on the
first frame, which ends the chain.

Inputs from the host become parameters:
- scroll position (`real`, since `scrollY` can be fractional);
- the section's rectangle top (`real`) and the viewport height (`int`);
- the intersection flag and the target of each observer entry.

## Model

| member | source | states |
|---|---|---|
| Dom.Add | script.js:16 | `classList.add`: the class is present afterwards and no other class changes |
| Dom.Remove | script.js:18 | `classList.remove`: the class is absent afterwards and no other class changes |
| Dom.Toggle | script.js:9 | `classList.toggle`: the class's presence flips and no other class changes |
| Dom.ToggleTwice | script.js:9 | toggling the same class twice restores the class list |
| StatsCounter.Step | script.js:28-31 | the step is the ceiling of target/75 for every integer target: 75·(step−1) < target ≤ 75·step; it is ≥ 0 for targets ≥ 0, ≥ 1 for positive targets, and between the target and 0 for targets ≤ 0 |
| StatsCounter.TickClamps | script.js:33-34 | one `update` step writes the value plus the step, clamped onto the target when the sum passes it; the result never exceeds the target |
| StatsCounter.Shown | script.js:32-40 | a tick chain writes at least one value; the last is exactly the target; every value is ≤ the target; values strictly increase; every value but the last is below the target |
| StatsCounter.ShownClosedForm | script.js:31-37 | the k-th written value is min(start + (k+1)·step, target): the step is fixed, not recomputed from the remaining distance |
| StatsCounter.ShownLength | script.js:32-38 | with a positive step the chain runs the least n ticks with start + n·step ≥ target, i.e. ceil(distance/step) |
| StatsCounter.CounterFrameCount | script.js:28-40 | a positive target takes ceil(target/step) frames; a target ≤ 0 takes exactly one frame, which writes the target |
| StatsCounter.CounterValuesFromStep | script.js:28-40 | for a positive target, a length n with step·(n−1) < target ≤ step·n is the number of frames, and the k-th frame shows min((k+1)·step, target) |
| StatsCounter.ThousandScenario | script.js:28-40 | target 1000: step 14, 72 frames, frame 71 shows 994 and frame 72 clamps 1008 to 1000 |
| StatsCounter.SevenScenario | script.js:28-40 | target 7: the values 1, 2, …, 7 |
| StatsCounter.ZeroScenario | script.js:31-38 | target 0: step 0 and one frame writing 0 |
| StatsCounter.AnimateCounter | script.js:28-40 | the frame loop produces the counter's value sequence; it ends exactly on the target, never exceeds it and strictly increases |
| StatsCounter.AnimateStats | script.js:25-42 | every `.stat-value` element of the page (collected once at load) gets its own run, which ends on its own target |
| StatsTrigger.OnScroll | script.js:46-56 | one handler call starts the counters exactly when the flag is clear, the section exists and its top is above innerHeight−100; it then sets the flag and unregisters; otherwise the state is unchanged |
| StatsTrigger.Dispatch | script.js:53-57 | a scroll event starts the counters exactly when the handler is still registered, the flag is clear and the section is in view; an event that starts nothing changes nothing; the flag and the registration stay consistent |
| StatsTrigger.PageLifetime | script.js:57-58 | over a page lifetime (the call at load, then scroll events) the counters start at most once and the state stays consistent; a section in view at load starts them at load and leaves the handler unregistered |
| StatsTrigger.AnimatedIsFinal | script.js:48-53 | once the flag is set, no scroll event starts anything or changes the state |
| StatsTrigger.ScrollsFireOnce | script.js:45-57 | from an unfired state a run of scroll events starts the counters at most once, and exactly when some event sees the section in view; the flag ends set exactly then |
| StatsTrigger.FiresAtMostOnce | script.js:45-58 | over a page lifetime (the call at load, then scroll events) the counters start at most once, exactly when the load-time check or some scroll event sees the section in view |
| HeaderScroll.HandleScroll | script.js:14-20 | `scrolled` is present afterwards exactly when scrollY exceeds the threshold; no other class changes |
| HeaderScroll.MainPageScroll | script.js:14-20 | main page: `scrolled` exactly when scrollY > 30 |
| HeaderScroll.ProductPageScroll | products/product-script.js:75-82 | product pages: `scrolled` exactly when scrollY > 50 |
| HeaderScroll.HandleScrollIdempotent | script.js:14-20 | running the handler again at the same position changes nothing |
| HeaderScroll.LatestScrollWins | script.js:14-21 | after any run of scroll events `scrolled` reflects only the latest position; no other class changes; no events leave the header as it was |
| HeaderScroll.MainPageReflectsLatest | script.js:14-22 | on the main page `scrolled` reflects the latest position seen, the load-time one when there was no scroll since |
| HeaderScroll.ProductPageReflectsLatest | products/product-script.js:75-82 | on a product page `scrolled` reflects the latest scroll event over 50; before any scroll the header keeps its markup classes |
| MobileMenu.MainMenuClick | script.js:8-10 | main page: a button click flips `active` on the links and changes nothing else |
| MobileMenu.MainMenuClickTwice | script.js:8-10 | two main-page clicks restore the links |
| MobileMenu.NextIcon | products/product-script.js:265-272 | the icon becomes `close` exactly when it was `menu`, and `menu` for any other text |
| MobileMenu.ToggleMobileMenu | products/product-script.js:260-278 | a button click flips `active` on the button and on the links when present and swaps the icon when present; without a button there is no listener and nothing changes |
| MobileMenu.ToggleMobileMenuTwice | products/product-script.js:260-273 | two button clicks restore the whole navigation exactly when the icon is absent or reads `menu` or `close` |
| MobileMenu.ToggleKeepsSynced | products/product-script.js:260-273 | a button click keeps the button, links and icon agreeing on whether the menu is open |
| MobileMenu.LinkClick | products/product-script.js:280-289 | a link click clears `active` on the links and on the button when present, and leaves everything else, the icon included, unchanged |
| MobileMenu.LinkClickIdempotent | products/product-script.js:284-287 | clicking a link a second time changes nothing |
| MobileMenu.LinkClickLeavesCloseIcon | products/product-script.js:284-287 | from an open, consistent menu a link click leaves a closed menu whose icon still reads `close` |
| MobileMenu.LinkClickResettingIcon | products/product-script.js:284-287 | the corrected link click: it clears `active` as written and also sets the icon, when present, back to `menu` |
| MobileMenu.LinkClickResettingIconKeepsSynced | products/product-script.js:260-287 | the corrected link click keeps button, links and icon consistent, and the next button click opens the menu showing `close` |
| Reveal.Setup | products/product-script.js:6-22 | every element with an `animate-fade-up/right/left` class is paused and observed; every other element is unchanged |
| Reveal.OnEntry | products/product-script.js:10-13 | an intersecting entry sets its target running and unobserves it; a non-intersecting entry changes nothing |
| Reveal.Callback | products/product-script.js:8-14 | a batch keeps every element of the page and its classes, and leaves an element no entry names unchanged |
| Reveal.CallbackEffect | products/product-script.js:8-14 | after a batch of entries, an element some entry reports as intersecting is running and unobserved, and every other element is unchanged |
| Reveal.SetupPausesTargets | products/product-script.js:19-22 | right after setup every reveal target is paused and the page is in a reachable state |
| Reveal.CallbackPreservesReachable | products/product-script.js:8-22 | a delivered batch keeps every target either paused and observed or running and unobserved; a running element never changes; an element ends running exactly when it was running or was reported intersecting |
| Reveal.Observed | products/product-script.js:8-12 | the observer reports entries only for elements still observed, and reports every queued entry of such an element |
| Reveal.RevealIsOneShot | products/product-script.js:8-22 | over any run of batches the page stays reachable, a running element stays unchanged, and an element never reported intersecting keeps its state (a target never scrolled into view stays paused) |
| JsText.LeadingWhitespace | products/product-script.js:44 | the leading run that `trim` removes: all whitespace, followed by a non-whitespace character or the end |
| JsText.TrailingWhitespace | products/product-script.js:44 | the trailing run that `trim` removes: all whitespace, preceded by a non-whitespace character or the start |
| JsText.Trim | products/product-script.js:44 | `trim` returns a factor of the value that neither starts nor ends with whitespace, with only whitespace cut on both sides; it is empty exactly when the value is all whitespace |
| JsText.TrimNoWhitespace | products/product-script.js:54 | a value without whitespace is its own trim |
| JsText.TrimIdempotent | products/product-script.js:54 | trimming twice is trimming once |
| EmailPattern.RegexMatches | products/product-script.js:55 | a string the regular expression matches has at least five characters, an `@` and a `.` |
| EmailPattern.IndexOf | products/product-script.js:55 | the position of the first occurrence of a character, or the length when it is absent |
| EmailPattern.EmailPatternTestIsRegex | products/product-script.js:55-56 | the string test (no whitespace, one `@` after a non-empty local part, a dot strictly inside the domain) accepts exactly the strings the regular expression matches |
| EmailPattern.TestImpliesRegex | products/product-script.js:55-56 | every string the string test accepts splits as the regular expression requires |
| EmailPattern.RegexImpliesTest | products/product-script.js:55-56 | every string the regular expression matches passes the string test |
| EmailPattern.AcceptedIsTrimmed | products/product-script.js:54-56 | an accepted value equals its trim, so a value with surrounding whitespace is rejected |
| EmailPattern.PaddedValueRejected | products/product-script.js:54-56 | "a@b.co" led by a no-break space, which an email input keeps, is rejected although "a@b.co" is accepted |
| EmailPattern.ShortAddressAccepted | products/product-script.js:55-56 | the pattern accepts "a@b.co" |
| QuoteForm.Blank | products/product-script.js:44 | `!value.trim()` holds exactly when the value is all whitespace, the empty value included |
| QuoteForm.EmailIndex | products/product-script.js:53 | the first email input of the form, or none |
| QuoteForm.MarkRequired | products/product-script.js:41-50 | each required field is marked `error` exactly when its trimmed value is empty; other fields and all values are untouched |
| QuoteForm.Reset | products/product-script.js:65 | the reset puts every value back to its default and keeps classes |
| QuoteForm.MarkErrors | products/product-script.js:41-60 | the email input is marked when its non-blank untrimmed value fails the pattern, and otherwise keeps what the required pass gave it; other fields get the required pass only |
| QuoteForm.Submit | products/product-script.js:36-70 | success exactly when every required field is non-blank and the email input is absent, blank or matching; success resets the values and an error keeps them; the error classes are as the two passes set them |
| QuoteForm.EmailCheckOnlyRejects | products/product-script.js:53-69 | the email check can only make a form fail: a blank required field always fails, and without an email input the verdict is the required check's |
| QuoteForm.PaddedEmailFails | products/product-script.js:54-59 | a required email "a@b.co" led by a no-break space passes the trimmed required check but fails the untrimmed pattern, so the form fails and the field is marked; on a form with `novalidate` only, since the browser's own email check blocks this value otherwise |
| QuoteForm.DotlessEmailFails | products/product-script.js:53-59 | a required email "a@b", which is a valid HTML e-mail address and so reaches the handler on any form, fails the pattern: the form fails and the field is marked |
| QuoteForm.OptionalEmailKeepsStaleError | products/product-script.js:43-60 | an email input without `required` keeps an `error` class from an earlier submit even when its new value passes |

## Findings

| source | as written | input that shows it | evidently intended | confidence | as-written member | corrected member |
|---|---|---|---|---|---|---|
| products/product-script.js:284-287 | a link click removes `active` from the button and the links but leaves the icon text alone | open the menu (button and links `active`, icon `close`), then click a link in the page: the menu closes but the icon still reads `close`, and the next button click opens the menu while the icon switches to `menu` | the link click also resets the icon to `menu`, as the button click does when it closes the menu | medium, not executed | MobileMenu.LinkClickLeavesCloseIcon | MobileMenu.LinkClickResettingIconKeepsSynced |

## Left out

- Lightbox and contact popup (`openLightbox`, `createContactPopup`, the gallery and "Get Quote" click handlers): they only build and remove DOM nodes on timers.
- The injected stylesheet at the end of the product script: static styling.
- Timing: `requestAnimationFrame` cadence, `setTimeout` delays and the 1200 ms wall-clock duration. A frame is a loop iteration, and only the derived step of 75 frames is modelled.
- IntersectionObserver geometry and its 0.1 threshold, and `getBoundingClientRect`. Intersection and the rectangle top are inputs.
- `toLocaleString`: it depends on the locale. The displayed value is the integer.
- `parseInt` on a missing or non-numeric `data-value`: it yields NaN, which is floating-point behaviour. Targets are integers. Below 2^53 in magnitude the `Math.ceil` of the rounded quotient equals the integer ceiling and the floating-point sums equal the integer sums; larger targets are not modelled.
- Message texts, the success/error message elements and their `display` changes: abstracted to the `Outcome` of a submit.
- The browser's value sanitization for `input[type=email]`, which strips leading and trailing ASCII whitespace and line breaks: field values are taken as given. The padded examples use a no-break space, which sanitization keeps; such a value reaches the handler only on a form with `novalidate` (see the next line).
- Native constraint validation (`required`, `type=email`): `Submit` models the handler for every field state; on a form without `novalidate` the browser blocks empty required fields and invalid addresses before the handler runs.
- Absent elements whose absence makes the original throw are assumed present: the main page's menu button, nav links and header, and the product pages' header.
- The `if (quoteForm)` guard: without the form there is no submit handler, and nothing is modelled.
- Regex `\s` and `trim` whitespace: a fixed character set, the ECMAScript WhiteSpace and LineTerminator characters.
