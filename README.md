# Landing-page script, modelled in Dafny

`script.js` drives a marketing landing page: a mobile menu, smooth anchor
scrolling, scroll-dependent navbar and scroll-to-top button, statistics
counters that count up once when they come into view, lazily loaded images,
a booking form with client-side validation, a simulated submission, a single
transient message and live phone-number formatting, and a short trail of
recent cursor positions. This project models the parts of it that carry
logic, one Dafny module per feature:

| file | module | feature |
|---|---|---|
| text.dfy | `Text` | JavaScript white space (`\s`, `trim()`), ASCII digits and capitals |
| phone.dfy | `Phone` | the phone field's formatter |
| form_validation.dfy | `FormValidation` | `validateForm`, the field-name humaniser, the e-mail pattern |
| booking_form.dfy | `BookingForm` | the form controller: submit, completion, the message slot, phone input |
| counter.dfy | `Counter` | `animateNumber` as a tick loop, and the one-shot `animated` guard |
| cursor_trail.dfy | `CursorTrail` | the bounded, time-pruned trail |
| navigation.dfy | `Navigation` | the menu toggle and close, anchor clicks |
| scroll_effects.dfy | `ScrollEffects` | the navbar and scroll-to-top thresholds |
| lazy_images.dfy | `LazyImages` | promotion of `data-src` to `src` |
| wrappers.dfy | `Wrappers` | `Option` and `Min` |

Pure logic in the source (the phone expression, validation, the thresholds,
the anchor handler) is written as functions, with lemmas for all but the
anchor handler. State the source changes in place is a class: the form (`values`, the message slot, the busy
button), each counter element (`animated`, the values shown), each lazy
image, the menu's two `active` flags, the scroll state and the trail array.
The counter's `setInterval` loop is a `while` loop over exact reals, proved
against `Counter.CounterFrames`.

The browser is a parameter: the event's arguments (`isIntersecting`, the
scroll offset, `innerWidth`, the pointer position, `Date.now()` as `now`, the
target element's `offsetTop`) are passed in. Timers are events that the
caller delivers: `CompleteSubmission` is the 1500 ms delay elapsing, and
`DismissMessage(id)` is the removal timer of message `id` firing.

Three details of the code that the model keeps:
- After a submission the form is `reset()`. That restores each control's
  default value, which need not be empty (`Form.defaults`).
- An image whose `data-src` is present but empty is not promoted. It also
  stays observed, because `if (img.dataset.src)` is false for `""`.
- The e-mail pattern is tested on the raw value. Only the required-field
  check trims, so `" a@b.co"` passes the blank check and fails the e-mail
  check.

## Model

| member | source | states |
|---|---|---|
| `Text.ToAsciiLower` | script.js:209 | the result is never a capital; a capital's lower-case letter is turned back into it by `ToAsciiUpper`, so distinct capitals stay distinct; every other character is unchanged |
| `Text.TrimStart` | script.js:208 | the result is the suffix left after a maximal white-space prefix, and it does not start with white space |
| `Text.TrimEnd` | script.js:208 | the result is the prefix left before a maximal white-space suffix, and it does not end with white space |
| `Text.Trim` | script.js:208 | `trim()`: the white space stripped at both ends; its contract is carried by `TrimStart`, `TrimEnd` and `TrimEmptyIffAllSpace` |
| `Text.TrimEmptyIffAllSpace` | script.js:208 | `trim()` yields `""` exactly when every character is JavaScript white space |
| `Phone.Digits` | script.js:268 | the result is at most as long as the input and holds only ASCII digits; `DigitsConcat`, `DigitsOfDigits` and `DigitsOfPunctuation` pin it down: digits are kept in order and everything else is dropped |
| `Phone.FormatPhone` | script.js:267-278 | the handler's expression, case by case; what it means is proved by `FormatPhoneDigits`, `FormatPhoneShape` and `FormatPhoneFixedIff`, which together fix the output uniquely |
| `Phone.FormatPhoneDigits` | script.js:268-276 | the formatted value's digits are exactly the first min(10, n) digits of the input, in order |
| `Phone.FormatPhoneShape` | script.js:269-276 | every output is `""` or a prefix of `(ddd) ddd-dddd` with digits in the digit slots, ending on a digit |
| `Phone.PhoneShapeFixed` | script.js:269-276 | a value already in such a shape is returned unchanged |
| `Phone.FormatPhoneFixedIff` | script.js:267-278 | the values the formatter leaves alone are exactly the progressive shapes (both directions) |
| `Phone.FormatPhoneIdempotent` | script.js:267-278 | formatting the formatted value again changes nothing, so re-firing `input` is harmless |
| `Phone.FormatPhoneExamples` | script.js:269-273 | "5" gives "(5", "555" gives "(555", "5551" gives "(555) 1" |
| `Phone.FormatPhoneTenDigits` | script.js:275 | "5551234567" gives "(555) 123-4567" |
| `FormValidation.IsBlank` | script.js:208 | the required-field test; `IsBlankIffTrimEmpty` ties it to `trim() === ''` |
| `FormValidation.IsBlankIffTrimEmpty` | script.js:208 | a field is blank iff it is absent, empty, or trims to the empty string |
| `FormValidation.Humanize` | script.js:209 | the readable name contains no capital letters |
| `FormValidation.CamelizeHumanize` | script.js:209 | a field name without spaces is recovered from its readable name (the humaniser is invertible) |
| `FormValidation.HumanizeCurrentRevenue` | script.js:209 | `currentRevenue` reads "current revenue" |
| `FormValidation.HumanizePreferredDate` | script.js:209 | `preferredDate` reads "preferred date" |
| `FormValidation.HumanizePreferredTime` | script.js:209 | `preferredTime` reads "preferred time" |
| `FormValidation.MissingFieldMessage` | script.js:209 | the message template "Please fill in the " + humanised name + " field."; `MissingFieldMessageIdentifiesField` states what it distinguishes |
| `FormValidation.MissingFieldMessageIdentifiesField` | script.js:209 | different space-free field names give different missing-field messages, and none equals the e-mail message |
| `FormValidation.MatchesEmailPattern` | script.js:215-216 | the regular expression itself: an '@' and a later '.' split the value into three non-empty runs without white space or '@'; `EmailCheckIffPattern` and `ValidateAcceptedIff` are stated in terms of it |
| `FormValidation.IsValidEmail` | script.js:215-216 | the e-mail test written out by hand; `EmailCheckIffPattern` proves it equal to the regular expression |
| `FormValidation.EmailCheckIffPattern` | script.js:215-216 | the written-out check accepts exactly what `^[^\s@]+@[^\s@]+\.[^\s@]+$` matches: no white space, one '@' with text before it, a '.' after it with text on both sides |
| `FormValidation.FirstBlank` | script.js:207-212 | the result is the first blank field, with all before it filled in; no result means none is blank |
| `FormValidation.ValidateForm` | script.js:204-222 | `validateForm`; its verdicts are stated by `ValidateReportsFirstBlank`, `ValidateChecksEmailLast`, `ValidateAcceptedIff` and `ValidateIgnoresOptionalFields` |
| `FormValidation.ValidateReportsFirstBlank` | script.js:205-212 | if field k is the first blank one in the order name, email, currentRevenue, preferredDate, preferredTime, the verdict is "Please fill in the " + humanised k + " field." |
| `FormValidation.ValidateChecksEmailLast` | script.js:214-221 | when every required field is filled, the e-mail pattern alone decides, and a mismatch gives "Please enter a valid email address." |
| `FormValidation.ValidateAcceptedIff` | script.js:204-222 | the form is accepted exactly when no required field is blank and the e-mail matches the pattern |
| `FormValidation.ValidateIgnoresOptionalFields` | script.js:205 | changing a field outside the required list, such as the phone, never changes the verdict |
| `BookingForm.Form.ShowFormMessage` | script.js:227-252 | afterwards exactly one message is attached, holding the kind and text of this call under a fresh id; the field values and the button are unchanged |
| `BookingForm.Form.DismissMessage` | script.js:254-259 | the removal timer detaches only the message its own call created; a later message survives it |
| `BookingForm.Form.OnPhoneInput` | script.js:267-279 | the phone field takes the formatted value of the raw input; no other field changes |
| `BookingForm.Form.Submit` | script.js:171-190 | accepted iff validation accepts; a rejection shows an error message with the validation text; an acceptance disables the button and leaves the message alone |
| `BookingForm.Form.CompleteSubmission` | script.js:191-197 | the success message is the only message attached, the controls hold their defaults again and the button is re-enabled |
| `BookingForm.TwoMessagesLeaveOne` | script.js:227-259 | after two messages and the first one's removal timer, exactly the second is attached |
| `BookingForm.SubmitValidForm` | script.js:171-197 | a valid submission ends with the form reset, the button enabled and one success message |
| `Counter.AnimateNumber` | script.js:74-88 | the interval loop shows exactly `CounterFrames(target)`: it stops within 125 ticks and its last value is the target |
| `Counter.CounterFrames` | script.js:79-87 | the values the interval shows, tick by tick; `CounterFramesEnd`, `CounterFramesBelowTarget` and `CounterFramesMonotone` state what they are, and `AnimateNumber` is proved to produce them |
| `Counter.CounterFramesEnd` | script.js:79-83 | a zero target stops on the first tick; any other stops on tick 125; the last shown value is exactly the target |
| `Counter.CounterFramesBelowTarget` | script.js:84-86 | every earlier shown value is floor(k * target / 125) and strictly below the target |
| `Counter.CounterFramesMonotone` | script.js:79-87 | the shown values never decrease |
| `Counter.RealFloorIsDiv` | script.js:85 | `Math.floor` of the exact running value k * target / 125 is integer division |
| `Counter.StatCounter.OnIntersection` | script.js:96-106 | the count-up starts iff the element intersects and is not yet `animated`; afterwards it is `animated`, and what it shows is the full count-up ending at the target |
| `CursorTrail.KeepRecent` | script.js:448 | the filter keeps only samples with now − time < 500 and is never longer than its input |
| `CursorTrail.KeepRecentMembers` | script.js:448 | a sample survives the filter iff it was there and is recent |
| `CursorTrail.KeepRecentIsSubsequence` | script.js:448 | the filter keeps the survivors in their original order |
| `CursorTrail.DropOldest` | script.js:443-445 | the `shift()`: keeps a suffix of the trail, drops at most one sample, leaves a trail of at most 10 untouched, and brings 11 samples down to 10 |
| `CursorTrail.AfterMove` | script.js:439-450 | push, shift and filter on one move; `AfterMoveBounded` and `AfterMoveWide` state what the result holds |
| `CursorTrail.AfterMoveBounded` | script.js:441-446 | a trail of at most 10 samples still has at most 10 after any move |
| `CursorTrail.AfterMoveWide` | script.js:440-449 | on a wide viewport the new sample is last, all samples are recent, order is kept, and no recent retained sample is lost |
| `CursorTrail.Trail.OnMouseMove` | script.js:439-450 | the trail becomes `AfterMove` of the old trail: unchanged when innerWidth ≤ 768, else bounded, recent, newest last |
| `Navigation.Menu.Toggle` | script.js:15-18 | both `active` flags flip; they stay equal, so the menu is either open or closed |
| `Navigation.Menu.CloseFromLink` | script.js:24-27 | both flags are cleared, whatever they were |
| `Navigation.ToggleTwiceThenCloseTwice` | script.js:14-28 | two toggles restore the menu; closing twice is the same as closing once |
| `ScrollEffects.ScrollThresholdsNest` | script.js:57-66 | the navbar threshold (100, line 60) and the button threshold (300, line 350) nest: a shown button implies a solid navbar; scrolling further down never reverts either |
| `ScrollEffects.ScrollState.OnScroll` | script.js:57-69 | both scroll listeners (this one and the button's at lines 349-355): the navbar is solid iff the offset exceeds 100, the button is shown iff it exceeds 300, and `lastScroll` is the offset; nothing depends on the previous state |
| `ScrollEffects.NavbarFlipsAtThreshold` | script.js:60-66 | scrolling from 99 to 101 makes the navbar solid; scrolling back to 99 reverts it |
| `LazyImages.LazyImage.constructor` | script.js:414-431 | an image is observed iff the browser offers IntersectionObserver and the image has `data-src` |
| `LazyImages.LazyImage.OnIntersection` | script.js:415-426 | an observed, intersecting image with a non-empty `data-src` is promoted: `src` takes that value, `data-src` goes and the image is no longer observed; otherwise nothing changes |
| `LazyImages.PromotedOnce` | script.js:417-423 | an image is promoted on its first intersection and never again |

## Left out

- DOM querying, listener registration, `classList` and `style` assignments, and the CSS text. This is presentation, so the model keeps only flags and slots.
- Parallax translation, card tilt, testimonial animation delays, focus and blur scaling, and the disabled random gradient change (script.js:143-153, 285-317, 377-409). These are decorative formulas, and the gradient change is random.
- The fade-in observer with its 100 ms stagger, and the IntersectionObserver thresholds and margins (script.js:91-138). These are browser layout and timing; `isIntersecting` is an input.
- The smooth scrolling itself and the scroll-to-top click. They are browser effects; the model gives only their targets (`AnchorClick`, `ScrollTopTarget`).
- The date field's minimum, "tomorrow" (script.js:161-169). It depends on the clock and the time zone.
- The submit button's label and opacity. The model keeps only the disabled state (`busy`). It also does not model a second submission while one is pending.
- The message's 5000 ms fade to transparent. The model keeps only its removal 300 ms later (`DismissMessage`).
- Hooks missing from the page: the model assumes every element is present. For example, a nav-link click without a toggle button throws in the browser.
- A browser without IntersectionObserver. script.js:96 constructs the counter observer without a guard, so there the script stops at that line and nothing after it is set up. The `observerAvailable` parameter of `LazyImages.LazyImage.constructor` follows the guard at script.js:414 on its own terms; its `false` case is not reached by the page as written.
- Navigation.AnchorClick: defined by its three cases only (`#` is left to the browser; otherwise the click is cancelled and, if the target exists, it scrolls to its top minus 80). Its contract restates those cases, and no further property is claimed. It is defined only for hrefs that start with `#`, the anchors script.js:33 selects.
- ScrollEffects.NavbarStyleAt and ScrollEffects.ScrollTopButtonShownAt: these are single comparisons with no contract beyond them. What the model claims about the thresholds is in `ScrollState.OnScroll` and `ScrollThresholdsNest`.
- Counter.AnimateNumber: models the running value as an exact real, not an IEEE double, and takes a natural target. A non-numeric `data-target` gives NaN, which this model does not represent.
- Counter.StatCounter.OnIntersection: the interval timer is compressed into the call, so every frame is recorded at once. Other events between ticks are not interleaved.
- FormValidation.Humanize: lower-cases ASCII letters only. `toLowerCase` also folds non-ASCII letters, but the names it is applied to are ASCII.
- CursorTrail.Trail.OnMouseMove: takes one `now` for the new sample and for the filter. The source reads `Date.now()` again for each comparison, and those readings may differ by a few milliseconds.
- FormValidation.ValidateForm: form values are strings. A file input, which would give a `File`, is not modelled.
