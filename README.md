# Landing-page interactivity, modelled in Dafny

A model of the logic in `script.js`, the one script of a marketing landing page. It covers:

- the mobile menu's two `active` flags;
- the header's look and the in-page scroll destination;
- the one-way scroll-reveal flag;
- the simulated contact-form submission;
- the single-slot notification toast;
- the animated statistic counters;
- inline form-field validation.

Each section of the script is one module. The pure decisions are functions: which validation rule fires, how a counter's text splits, which colour a toast gets, and whether the header is translucent. What the script changes in place is a class whose fields the methods update. The menu's classes, the toast list, a counter's running value and text, the submit button, and a field's error marker and message are modelled this way. Each method's `ensures` ties the new state to a pure step function. Lemmas about those step functions, and about runs of page events, state the properties.

Files:

- `wrappers.dfy`: `Option`.
- `jstext.dfy`: the JavaScript white-space class that `\s` and `trim` share; `\d`; `String(n)`; and the value `parseInt` reads from a digit string.
- `validation.dfy`: `validateField` and its listeners.
- `counter.dfy`: `animateCounters`.
- `navmenu.dfy`: the menu toggle, link and Escape handlers.
- `notifications.dfy`: `showNotification`.
- `contactform.dfy`: the submit handler and its timer.
- `headerscroll.dfy`: the header scroll effect and smooth scroll.
- `reveal.dfy`: the reveal observer.

The regular expressions are stated as predicates over `seq<char>`. The e-mail pattern `^[^\s@]+@[^\s@]+\.[^\s@]+$` has two definitions. One is a ghost "splits as A@B.C" definition, which is the regular language itself. The other is a one-pass check. `Validation.EmailShapeIsPattern` proves that the two agree. Timers are explicit methods or events: the 100 ms slide-in, the 5000 ms removal, the 2000 ms submit completion and the 20 ms counter interval. Browser lookups become parameters: the `href` → `offsetTop` map, the header height, `scrollY`, and `isIntersecting`.

In four places the code is narrower or different from what a reader of the page might assume, and the model follows the code:

- A toast's type is any string, and every type other than `success` and `error` is blue.
- Completing a submission calls `form.reset()`, which puts the fields back to their default values. It does not necessarily empty them.
- A counter's step is a hundredth of its target, so in exact arithmetic it finishes on the 100th tick (the first tick when the target is 0); the model counts this way. The page adds the step in floating point, where a hundred additions can fall just short of the target (a hundred additions of 0.1 for a target of 10 sum to 9.99999999999998), so for a positive target the page finishes on tick 100 or 101. For a target of 0 it adds 0, meets `0 >= 0` and finishes on tick 1, as the model does.
- The digit filters keep every digit in text order, so a number written with a thousands dot, such as "1.500+", counts up to 1500 and ends showing "1500.+", with the dot moved into the suffix.

## Model

| member | source | states |
|---|---|---|
| JsText.SkipSpaceFrom | script.js:202 | the index returned skips only white space and stops at a non-space character or the end |
| JsText.SkipSpaceBack | script.js:202 | the index returned backs over only white space and stops just after a non-space character or at 0 |
| JsText.Trim | script.js:202 | `trim()` returns "" exactly when the value is all white space; otherwise it starts and ends with non-space characters and is the value less leading and trailing white space |
| JsText.TrimUnpadded | script.js:202 | a value that neither starts nor ends with white space is its own trim |
| JsText.TrimIdempotent | script.js:202 | trimming twice is trimming once |
| JsText.DecimalValue | script.js:157 | the number `parseInt` reads from a digit string; it is 0 exactly when every digit is '0' |
| JsText.DigitChar | script.js:168 | the digit character written for 0..9 reads back as that digit |
| JsText.NatToString | script.js:165 | `String(n)` is a non-empty digit string with no leading zero unless it is "0" |
| JsText.DecimalValueOfNatToString | script.js:157 | `parseInt(String(n)) == n` |
| JsText.NatToStringOfDecimalValue | script.js:165 | writing out the value of a canonical digit string gives the string back |
| Validation.IsEmailShaped | script.js:207 | the `.test` the rule runs: an accepted value has no white space, at least five characters and no `@` at either end, and a value without `@` is rejected (its language is the regex's, by `EmailShapeIsPattern`) |
| Validation.EmailShapeIsPattern | script.js:207 | the one-pass e-mail check accepts exactly the language of `^[^\s@]+@[^\s@]+\.[^\s@]+$` (both directions) |
| Validation.ShapedMatchesPattern | script.js:207 | whatever the one-pass check accepts splits as A@B.C with A, B, C non-empty and free of white space and `@` |
| Validation.PatternIsShaped | script.js:207 | every A@B.C split is accepted by the one-pass check |
| Validation.IsPhoneShaped | script.js:209 | `^[\d\s\-\(\)\+]+$` accepts exactly the non-empty strings whose every character is a digit, white space or one of `-()+` |
| Validation.ErrorMessage | script.js:201-211 | the required message exactly when the field is required and its value is all white space; the e-mail message exactly when an e-mail field's value is not blank and its trim is not A@B.C; the phone message exactly when a `tel` field's value is not blank and its trim has a character outside digits/white space/`-()+` or fewer than 10 characters; otherwise "" |
| Validation.BlankFieldExamples | script.js:205 | a blank required field gets the required message; a blank optional e-mail field gets none |
| Validation.MalformedEmailExample | script.js:207 | "not-an-email" in an e-mail field gets the e-mail message |
| Validation.PaddedEmailExample | script.js:207 | " ana@agro.com " is accepted once trimmed |
| Validation.ShortPhoneExample | script.js:209 | "12345" gets the phone message |
| Validation.FullPhoneExample | script.js:209 | "(11) 91234-5678" passes |
| Validation.Field.constructor | script.js:231 | a field starts with its `required` flag, type and value, no error marker and no message |
| Validation.Field.Validate | script.js:213-228 | afterwards the error marker is set iff the computed message is non-empty and the field carries exactly that one message or none; the value is untouched |
| Validation.Field.OnBlur | script.js:232 | losing focus validates the field |
| Validation.Field.OnInput | script.js:233-235 | an edit re-validates only a field already marked erroneous; an error-free field stays error-free while typing |
| Validation.ValidateTwice | script.js:201-229 | validating the same value twice gives the same state as once |
| Counter.Digits | script.js:157 | `replace(/\D/g, '')` keeps only digits and never lengthens the text; with `FiltersAppend`, it keeps them in text order |
| Counter.NonDigits | script.js:158 | `replace(/\d/g, '')` keeps no digits and never lengthens the text; with `FiltersAppend`, it keeps the other characters in text order |
| Counter.FiltersAppend | script.js:157-158 | each filter works piece by piece: its result on a concatenation is its result on the first part followed by its result on the second, so digits and suffix keep text order |
| Counter.FiltersPartition | script.js:157-158 | the digits and the suffix together have the text's length and its characters, each exactly once |
| Counter.FiltersOfNumberThenSuffix | script.js:157-158 | a text that is digits followed by a digit-free suffix splits back into exactly those two parts |
| Counter.ParseTarget | script.js:157 | the target is absent (NaN) exactly when the text has no digit; otherwise it is the value of the text's digits in order |
| Counter.ReachesTarget | script.js:163-164 | with a positive target, the running value reaches it exactly from the 100th tick on |
| Counter.ShownValue | script.js:163-169 | the number shown never exceeds the target, and is below it exactly on the ticks before the finishing one |
| Counter.ShownValueMonotone | script.js:162-170 | the number shown never decreases from tick to tick |
| Counter.NextTick | script.js:162-170 | one tick adds a hundredth of the target; the stop test holds exactly on the finishing tick; the number shown is the target there and the floor of the running value before |
| Counter.Display | script.js:165-168 | the text shown is the number shown followed by the suffix, and with a digit-free suffix it reads back as that number and that suffix |
| Counter.FinalDisplayIsOriginalText | script.js:157-165 | a counter reading "150+" (a canonical number and a digit-free suffix) finishes showing exactly "150+" |
| Counter.GroupedNumber | script.js:157-158 | for "1.500+" (digits, a dot, digits, a digit-free suffix) the digits are "1500" and the suffix is ".+" |
| Counter.GroupedNumberFinalDisplay | script.js:157-165 | a counter reading "1.500+" has target 1500 and finishes showing "1500.+" |
| Counter.StatCounter.constructor | script.js:156-159 | target = `parseInt` of the digits, suffix = the non-digits, running value 0, text unchanged |
| Counter.StatCounter.Tick | script.js:162-170 | each firing adds the step and shows the floor+suffix below the target, or target+suffix and stops; a stopped counter never changes again |
| NavMenu.Step | script.js:9-19 | a link click or Escape leaves the flags unchanged or closed; an event leaves the flags as they were exactly when it is another key, or a link click or Escape on a closed menu |
| NavMenu.Toggled | script.js:9-12 | a toggle flips both flags |
| NavMenu.ToggleTwice | script.js:9-12 | two toggles restore the original flags |
| NavMenu.RunToggles | script.js:9-12 | an even number of toggles restores the flags and an odd number flips them |
| NavMenu.CloseIdempotent | script.js:14-19 | a link click or Escape closes from any state, and doing it again changes nothing |
| NavMenu.ClosedAfterLinkOrEscape | script.js:261-266 | whatever happened before, a link click or Escape as the last event leaves both flags off |
| NavMenu.FlagsStayInStep | script.js:9-19 | starting with equal flags, no sequence of toggles, link clicks and key presses sets them apart |
| NavMenu.Menu.constructor | script.js:5-7 | neither element is active when the page loads |
| NavMenu.Menu.OnToggleClick | script.js:9-12 | both flags are flipped |
| NavMenu.Menu.OnLinkClick | script.js:14-19 | both flags are cleared |
| NavMenu.Menu.OnKeyDown | script.js:261-266 | Escape clears both flags; any other key changes nothing |
| Notifications.Background | script.js:135 | green exactly for "success", red exactly for "error", blue for every other type |
| Notifications.Without | script.js:148-149 | removing an element leaves only elements of other identities from the list, and changes nothing when no element has that identity |
| Notifications.SlidIn | script.js:147 | only the element with that identity is moved into view |
| Notifications.Step | script.js:120-149 | a show yields exactly one element, with the next identity and the message; any other event hands out no identity and adds no element |
| Notifications.ShowLeavesOne | script.js:120-145 | after `show(msg, type)` exactly one notification exists, carrying `msg` in the colour of `type`, not yet slid in |
| Notifications.StepKeepsValid | script.js:120-149 | every event keeps the page to at most one notification |
| Notifications.AtMostOneNotification | script.js:120-149 | no sequence of shows, slide-ins, closes and removals ever puts two notifications on the page |
| Notifications.StaleRemovalHarmless | script.js:147-149 | a timer or close button of an element no longer on the page changes nothing, so an old removal timer never removes a newer toast |
| Notifications.LastShowWins | script.js:121-145 | whatever came before, the page ends showing only the last message shown |
| Notifications.ErrorThenSuccess | script.js:120-149 | an error toast followed at once by a success toast leaves only the success toast, in green |
| Notifications.NotificationArea.constructor | script.js:120-121 | the page starts with no notification |
| Notifications.NotificationArea.Show | script.js:120-145 | the list is emptied and exactly one new element is appended, with the message, the type (default "info") and its colour |
| Notifications.NotificationArea.SlideIn | script.js:147 | the 100 ms timer moves that element into view if it is still on the page |
| Notifications.NotificationArea.Remove | script.js:148-149 | the close button and the 5000 ms timer remove that element and nothing else |
| ContactForm.Submitted | script.js:102-106 | submitting records the current text for restoring, shows "Enviando..." and disables the button |
| ContactForm.Completed | script.js:108-113 | the timer restores the text its submission recorded and enables the button |
| ContactForm.Step | script.js:99-113 | a click on a disabled button changes nothing; at most one pending timer, with the button disabled exactly while one is pending, is kept by every event |
| ContactForm.SubmitThenComplete | script.js:99-113 | one submission followed by its timer brings the button back to its own text, enabled |
| ContactForm.TextAlwaysRestored | script.js:99-113 | since a disabled button dispatches nothing, every sequence of clicks and timers keeps the form either idle with its own text or disabled with one pending timer that will restore that text |
| ContactForm.DoubleSubmitKeepsSendingText | script.js:103-111 | if the handler runs twice before its timer, the second run records "Enviando..." as the text to restore, and the re-enabled button keeps reading "Enviando..." |
| ContactForm.Form.constructor | script.js:97-98 | the button carries its own text, enabled, with nothing pending and the fields at their defaults |
| ContactForm.Form.OnSubmit | script.js:99-106 | the button is disabled at once and reads "Enviando..."; field values are untouched |
| ContactForm.Form.OnTimer | script.js:108-113 | exactly one success toast (green, success message) is on the page; fields are back to their defaults; the recorded text is restored and the button is enabled |
| HeaderScroll.LookAt | script.js:41-46 | translucent and blurred exactly when `scrollY > 100`, solid otherwise |
| HeaderScroll.Header.OnScroll | script.js:41-46 | the header's two styles are those for the current offset |
| HeaderScroll.Destination | script.js:27-31 | no destination exactly when the target is missing; otherwise the target lands exactly `headerHeight` below the top of the viewport |
| HeaderScroll.Viewport.OnAnchorClick | script.js:25-34 | a missing target leaves the scroll position alone; otherwise the scroll position is the target's offset less the header height |
| Reveal.Report | script.js:79-86 | a report never removes `animate-visible`; an element still observed afterwards was not changed; a report that changes the element makes it visible and not hidden, and only when it was observed and intersecting |
| Reveal.RevealIsOneWay | script.js:79-92 | an element goes from hidden to visible at most once and never back, and a pending element is revealed exactly when some report says it intersects |
| Reveal.Element.constructor | script.js:89-91 | every element starts hidden and observed |
| Reveal.Element.OnIntersection | script.js:79-86 | an intersecting report shows the element and stops observing it; any other report changes nothing |

## Left out

- The decorative wave renderer (script.js:51-72) is not modelled. It is floating-point `Math.sin` output fed by an endless `requestAnimationFrame` loop.
- Viewport geometry is not modelled: the reveal observer's `rootMargin` and `threshold`, and the statistics observer that starts the counters once (script.js:174-183). Intersection reports are parameters.
- Time itself is not modelled. Every `setTimeout` and `setInterval` callback is an explicit method or event that the caller fires.
- Counter.StatCounter.constructor: its precondition excludes a text without digits. The page would compute a NaN target there, keep showing "NaN" plus the suffix, and never clear the interval.
- Counter.StatCounter.Tick: arithmetic is exact; the running value is a natural number of hundredths of a unit (`n * target` after `n` ticks). The page adds `target / 100` in floating point, and rounding can move the final tick of a positive target from 100 to 101. Rounding also lowers the floor shown on ticks before the final one: the number shown there can be one below the model's (for a target of 10, tick 10 sums to 0.9999999999999999 and shows 0 where the model shows 1; for a target of 5, tick 60 sums to 2.9999999999999973 and shows 2 where the model shows 3). Digit strings longer than `Number` represents exactly are not modelled.
- HeaderScroll.Viewport.OnAnchorClick: the browser's clamping of `window.scrollTo` to the scrollable range is not modelled. Neither are the smooth animation and selector parsing: an `href` of just `#` makes `querySelector` throw, which also ends without scrolling. The lookup is the `offsets` parameter.
- Validation.Field.Validate: the error-message elements live under the field's parent element. The model gives each field its own parent, so two fields sharing one parent are not modelled. Error-message elements already present in the markup are not modelled either.
- Cosmetic code is not modelled: card hover transforms (script.js:189-196), the injected error style sheet (script.js:238-247), the page fade-in (script.js:252-256), notification markup and inline style objects other than the background colour, and `console.log`.
- String lengths in the page count UTF-16 code units, while the model counts characters. The phone rule's length test is only reached when every character is a digit, white space or `-()+`, so this never changes a verdict.
