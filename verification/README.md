# TryFirst homepage script, modelled in Dafny

This project models the behaviour of the TryFirst homepage script,
`static/js/script.js`. It covers the pieces that have precise sequential behaviour
under the jQuery wiring:

- **Email validator and form guards** (module `Email`, module `Forms`):
  - `isValidEmail` is restated as a predicate over `seq<char>`. It is proved equal to a
    direct reading of the regular expression `^[^\s@]+@[^\s@]+\.[^\s@]+$`, with `\s`
    as ECMAScript defines it.
  - The trial-signup form checks "required fields first, then format".
  - The newsletter form checks the format only.
- **Theme preference** (module `Theme`):
  - the stored value `localStorage.theme`, which may be absent;
  - the `dark` class on `<html>`;
  - the sun and moon icon visibility;
  - load-time defaulting, and `toggleTheme`.
- **Mobile menu** (module `Menu`): the open/closed disclosure, coupled to the bars/times icon.
- **FAQ accordion** (module `Faq`): one `(open, minus-icon)` pair per question.
- **Testimonial rotator** (module `Rotator`): the 5000 ms interval, the index modulo the
  slide count, and `showTestimonial` including jQuery's negative `.eq` index.
- **Notification slot** (module `Notifications`, on the timer queue of module `Timers`):
  - `showNotification` and its three timer callbacks, on an integer-millisecond clock:
    slide-in at +100, slide-out at +5000, detach 300 ms later;
  - the close button;
  - the type-to-class and type-to-icon tables.
- **`debounce`** (module `Debounce`): a discrete-event machine of calls and elapsed time,
  with the pending timer and the `immediate` flag.
- **Scroll reactor** (module `ScrollReactor`):
  - the scroll-to-top button handler;
  - the 10 ms debounced navigation handler.
- **Pricing toggle** (module `Pricing`): the `$X/year` and `$X/month` labels.
- **The page's shared state** (module `Homepage`): the theme, the mobile menu, the FAQ
  accordion and the notification slot together. It is driven by theme toggles, form
  submissions, close buttons, menu clicks, FAQ clicks and elapsed time. The theme toggle
  and the two forms raise notifications; the menu and the FAQ never touch the slot. The
  rotator, the scroll reactor and the pricing toggle are modelled on their own and are
  not part of this state.

DOM state is reduced to booleans, integers and strings. The toast callbacks and the
scroll-to-top button callbacks are values in a queue ordered by due time (module
`Timers`); callbacks due at the same time keep their registration order, as browsers
run them. The rotator's interval is modelled as a count of ticks, and the debounced
timer as the single pending call the closure holds. Each handler is a pure function
from state to state.

## Model

| member | source | states |
|---|---|---|
| Email.IsValidEmailMatchesPattern | static/js/script.js:223-226 | The executable validator accepts a string exactly when the regular expression matches it: a non-empty run without whitespace or `@`, one `@`, then a domain with a `.` that has a non-empty run on each side. |
| Email.ValidEmailShape | static/js/script.js:223-226 | An accepted address has no whitespace and exactly one `@`, that `@` is not the first character, and the domain after it contains a `.` with at least one character on each side. |
| Email.IsValidEmail | static/js/script.js:223-226 | `isValidEmail` as a scan. An accepted address is at least five characters long, contains an `@`, and neither starts nor ends with `@`; IsValidEmailMatchesPattern gives the exact set it accepts. |
| Email.IndexOf | static/js/script.js:223-226 | Finds the first occurrence of a character, and reports its absence exactly when the character does not occur. |
| Email.AcceptsPlainAddress | static/js/script.js:223-226 | `a@b.co` is accepted. |
| Email.RejectsMissingParts | static/js/script.js:223-226 | `foo@bar` (no dot in the domain), `ab.c` (no `@`), `@b.c` (empty local part) and the empty string are rejected. |
| Email.RejectsLeadingDomainDot | static/js/script.js:223-226 | `a@.c` is rejected, because the dot needs a character before it within the domain. |
| Email.RejectsSpaceAndSecondAt | static/js/script.js:223-226 | `a b@c.d` (whitespace) and `a@@b.c` (a second `@`) are rejected. |
| Forms.TrialSignup | static/js/script.js:193-205 | The signup proceeds exactly when both fields are non-empty and the email is valid. Every rejection is an `error` notice, and an empty field always yields the missing-fields message, whatever the email. |
| Forms.FormatCheckedOnlyAfterRequiredFields | static/js/script.js:197-205 | The invalid-address notice appears exactly when both fields are filled and the email fails the regular expression, so the format is judged only after the required-field check passes. |
| Forms.Newsletter | static/js/script.js:325-332 | The newsletter form proceeds exactly when the email is valid, and otherwise shows the invalid-address error notice. |
| Forms.FormsAgreeOnAddresses | static/js/script.js:197-205 | With the name filled in, the signup form and the newsletter form accept exactly the same email values. An empty email is refused by both. |
| Theme.SavedTheme | static/js/script.js:17 | The saved preference is `dark` exactly when the stored value is exactly `"dark"`. A missing value falls back to `light`. |
| Theme.Initialize | static/js/script.js:15-26 | After load the page is dark exactly when the stored value is `"dark"`, the stored value is untouched, and the sun icons are hidden exactly when dark while the moon icons are hidden exactly when light. |
| Theme.OtherValuesLoadLight | static/js/script.js:17-26 | Absence, or any stored value other than `"dark"`, loads the light theme with the sun shown and the moon hidden. |
| Theme.UpdateThemeIcons | static/js/script.js:51-62 | Updating the icons for the applied theme makes them agree with it, and touches neither the theme nor the stored value. |
| Theme.Toggle | static/js/script.js:34-49 | A toggle flips the applied theme, stores the new theme's name, leaves the icons matching it, and raises one `success` notice naming the theme now active. |
| Theme.ToggleTwiceRestores | static/js/script.js:34-49 | Two toggles restore the applied theme and both icon sets, and the stored value then names the original theme. |
| Theme.ReloadAfterToggle | static/js/script.js:15-49 | Loading the page from what a toggle stored reproduces the toggled state exactly, icons included. |
| Theme.StoredThemeRoundTrip | static/js/script.js:15-49 | A stored theme name loads that theme, and toggling from the opposite theme stores it again. |
| Menu.Toggle | static/js/script.js:66-79 | The toggle flips the menu between open and closed, and afterwards the icon is `fa-times` exactly when the menu is open. |
| Menu.LinkClick | static/js/script.js:82-90 | A click on a menu link leaves the menu closed with the `fa-bars` icon, from either state. |
| Menu.ToggleTwiceRestores | static/js/script.js:66-90 | Two toggles of a consistent menu restore it. A link click after opening closes it again. |
| Faq.Initial | static/js/script.js:305-322 | The markup's accordion, with every answer closed, satisfies the accordion invariant. |
| Faq.Click | static/js/script.js:306-322 | Clicking an open question closes it and changes no other entry. Its icon turns to a plus. Clicking a closed question leaves exactly that answer open and exactly that icon a minus. |
| Faq.ClickPreservesValid | static/js/script.js:306-322 | Every click preserves both rules: at most one answer is open, and each icon is a minus exactly when its answer is open. |
| Faq.ClickOpenClosesAll | static/js/script.js:310-312 | Clicking the open question of a valid accordion leaves no answer open and no minus icon. |
| Faq.ClicksPreserveValid | static/js/script.js:306-322 | Any sequence of clicks on existing questions keeps the accordion valid. |
| Rotator.ShowTestimonial | static/js/script.js:187-190 | Showing index `i` of `n` slides leaves exactly slide `i` active. A negative index `-n <= i < 0` activates slide `i + n`, and any index out of range leaves no slide active. |
| Rotator.Start | static/js/script.js:173-176 | At load the index is 0 and the slides keep the classes the markup gave them: no slide is activated before the first tick. |
| Rotator.Tick | static/js/script.js:180-183 | With slides present, a tick moves the index to the next one modulo the slide count, which lies in `[0, n)`, and leaves exactly that slide active. Without slides nothing changes. |
| Rotator.TicksCycle | static/js/script.js:174-183 | With `n > 0` slides, the index after `k` ticks is `k mod n`, and after at least one tick exactly that slide is active. Before the first tick the markup's classes are kept. |
| Rotator.NoSlidesNoTicks | static/js/script.js:178 | With no slides no interval is armed, so any number of ticks leaves the rotator unchanged. |
| Rotator.ActiveSlideAt | static/js/script.js:173-185 | After `e >= 5000` ms the active slide is `(e / 5000) mod n`, and the index lies in `[0, n)`. |
| Notifications.NotificationClass | static/js/script.js:232-237 | The class map is total: each listed type gets its own class, every other type gets `bg-blue-500`, and the result is always one of the table's classes. |
| Notifications.NotificationIcon | static/js/script.js:267-275 | The icon map is total: each listed type gets its own icon, every other type gets `info-circle`, and the result is always one of the table's icons. |
| Notifications.ClassAndIconAgree | static/js/script.js:232-275 | Class and icon agree. A toast is blue exactly when it shows the info icon, it shows `check-circle` exactly for `success`, and it is red exactly when it shows the error icon. |
| Notifications.LiteralLookupOr | static/js/script.js:232-237 | The as-written `table[key] \|\| fallback` of the class table, the same shape as the icon lookup at lines 267-275: an own non-empty entry is returned, an unknown key gets the fallback, and an inherited name such as `"toString"` yields the inherited member, which escapes the fallback. |
| Notifications.Show | static/js/script.js:228-251 | Showing a notice leaves exactly one toast on the page, built from the latest message, and registers the slide-in timer at +100 and the auto-dismiss timer at +5000 for that toast. |
| Notifications.SecondNoticeReplacesFirst | static/js/script.js:228-251 | Two notices in a row leave only the second notice's toast. |
| Notifications.Detached | static/js/script.js:244 | Removing element `id` keeps every other element and removes every element with that identity. |
| Notifications.Dismiss | static/js/script.js:244 | The close button removes exactly its own toast at once, leaving the pending timers in place. |
| Notifications.SetOffscreen | static/js/script.js:254-260 | Adding or removing `translate-x-full` changes only the element it is bound to, and leaves every other element and the element order as they were. |
| Notifications.Fire | static/js/script.js:253-264 | A timer callback acts only on its own toast, so it leaves the page unchanged when that toast is gone. Only the slide-out callback registers a further timer: the detach, 300 ms later. |
| Notifications.Step | static/js/script.js:253-264 | Running the earliest due callback strictly decreases the queue's weight, so time can always run to any instant. |
| Notifications.AdvanceTo | static/js/script.js:253-264 | Running time to `t` leaves the clock at `t` with no callback due at or before `t`. |
| Notifications.ShowWf | static/js/script.js:228-265 | Showing a notice preserves the slot invariant: at most one toast, every identity already issued, no overdue timer, and every toast's exit timer pending. |
| Notifications.DismissWf | static/js/script.js:244 | Dismissal preserves the slot invariant. |
| Notifications.AdvanceWf | static/js/script.js:253-264 | Letting time run preserves the slot invariant, through every callback that fires. |
| Notifications.GoneWithinDisplayAndExit | static/js/script.js:253-264 | A toast created at `T` is gone by `T + 5300`: after time runs to `t`, every toast still present was created less than 5300 ms before `t`. |
| Notifications.EarlierTasksSpareNewest | static/js/script.js:244-264 | After a new notice, neither a pending callback nor a close button of any earlier toast changes the page's toasts. |
| Notifications.OtherKeepsPhase | static/js/script.js:253-264 | A callback bound to another element, such as an earlier toast's slide-out or removal, leaves a toast at the same stage of its life. |
| Notifications.AdvanceTracks | static/js/script.js:253-264 | While time runs, a toast moves through its stages only by its own callbacks, in order: slide-in, slide-out, detach. Earlier toasts' pending timers never remove it or move it. |
| Notifications.ToastTimeline | static/js/script.js:228-264 | On any well-formed page, even with earlier toasts' timers still pending, a toast shown at `T` and observed at `t` is off-screen before `T+100`, on screen until `T+5000`, off-screen again until `T+5300`, and gone from then on. |
| Timers.Earliest | static/js/script.js:254-263 | Picks a callback with the least due time. Among those, it picks the one registered first. |
| Timers.Without | static/js/script.js:254-263 | Removing the fired callback leaves every other pending callback, as a multiset. |
| Debounce.Invoke | static/js/script.js:377-388 | Every call cancels the pending timer and re-arms it `wait` ms from now with this call's arguments. `func` runs at the call, with this call's arguments, exactly when `immediate` is set and no timer was pending; otherwise nothing runs at the call. |
| Debounce.Advance | static/js/script.js:380-383 | When the pending timer is due it is cleared, and `func` runs with the registering call's arguments unless `immediate`. Otherwise nothing runs and the timer stays. |
| Debounce.BurstStaysQuiet | static/js/script.js:375-389 | During a burst of calls whose gaps, however uneven, are each less than `wait`, nothing runs, and the pending timer carries the last call's arguments and is due `wait` ms after that call. |
| Debounce.TrailingBurst | static/js/script.js:375-389 | In trailing mode a burst with any gaps shorter than `wait`, followed by `wait` ms of quiet, runs `func` exactly once, with the last call's arguments. |
| Debounce.LeadingBurst | static/js/script.js:375-389 | In immediate mode a burst starting idle, with any gaps shorter than `wait`, runs `func` exactly once, at the first call with its arguments, and the timer firing afterwards runs nothing. |
| ScrollReactor.OnScroll | static/js/script.js:347-401 | A scroll event records the offset, leaves the bar's class as it was, and re-arms the debounced navigation handler for 10 ms from now with the new offset. |
| ScrollReactor.OnScrollRunsButtonHandler | static/js/script.js:347-366 | The button and its pending callbacks after a scroll event are exactly what the button handler leaves at the new offset. |
| ScrollReactor.NavWaitsAfterScroll | static/js/script.js:375-401 | The bar's class is debounced: for less than 10 ms after a scroll it is unchanged, and from 10 ms on it follows the offset that scroll recorded. |
| ScrollReactor.ButtonOnScroll | static/js/script.js:347-366 | Above 300 px a missing button is created transparent with a reveal registered 100 ms later. An existing one is left as it is by the handler as written, and made opaque by the guarded one. A button is created only above 300 px. At or below 300 px an existing button stays on the page but turns transparent, no button appears where there was none, and a removal is registered 300 ms later. |
| ScrollReactor.RunJob | static/js/script.js:356-364 | As written, the removal callback removes whatever button exists and the reveal callback makes an existing button opaque, whatever the offset now is. The guarded callbacks act only when the offset still calls for it. A reveal with no button does nothing. |
| ScrollReactor.Elapse | static/js/script.js:391-401 | When the debounced navigation handler fires (trailing mode), the bar gets its opaque background exactly when the offset exceeds 50. When it does not fire, the bar keeps its class. |
| ScrollReactor.NavTracksOffset | static/js/script.js:391-401 | Once the debounced handler has run, the navigation bar has its opaque background exactly when the offset exceeds 50. |
| ScrollReactor.SettlesAfterFadeTime | static/js/script.js:356-364 | 300 ms after any event, no button callback and no debounced call is pending. |
| ScrollReactor.AsWrittenLosesButton | static/js/script.js:360-365 | As written, scrolling to 200, then to 400 within 300 ms, leaves the page at rest above 300 px with no scroll-to-top button. |
| ScrollReactor.GuardedButtonTracksOffset | static/js/script.js:347-366 | With callbacks that re-check the offset, once no callback is pending a visible button exists exactly when the offset exceeds 300, and no button exists at or below 300. |
| ScrollReactor.GuardedKeepsButton | static/js/script.js:347-366 | The guarded handler keeps a visible button through the same scroll sequence. |
| Pricing.TogglePricing | static/js/script.js:290-303 | Every card's price reads `$<annual>/year` when annual is chosen and `$<monthly>/month` otherwise. Both data values are kept. |
| Pricing.LabelRoundTrip | static/js/script.js:297-301 | A price label can be read back to the period and the amount it was made from. |
| Pricing.ToggleIdempotent | static/js/script.js:290-303 | The labels depend only on the last choice, whatever was shown before. |
| Homepage.Load | static/js/script.js:15-26 | The loaded page satisfies every component invariant, is dark exactly when `"dark"` was stored, and shows no toast. |
| Homepage.StepValid | static/js/script.js:34-322 | Any single user event or elapsed interval preserves every component's invariant. |
| Homepage.RunValid | static/js/script.js:228-265 | Along any sequence of clicks, submissions, dismissals and elapsed time, every invariant holds and at most one toast is on the page. |
| Homepage.ToggleShowsOneSuccess | static/js/script.js:42-47 | A theme toggle flips the theme and leaves exactly one green `check-circle` toast, naming the theme now active. |
| Homepage.SignupTouchesOnlyTheSlot | static/js/script.js:193-205 | Submitting the signup form changes nothing but the toast slot. A rejection shows one red error toast, and an accepted form leaves the page as it was. |

## Left out

- DOM rendering: the toast's HTML template, the CSS classes beyond the modelled flags, and the unescaped message interpolation (a rendering concern).
- `slideUp`/`slideDown` animations in the menu and the accordion: only the settled states are modelled. `:visible` is read as "open".
- The simulated API delays after an accepted form (static/js/script.js:207-219, 334-343): an accepted form leaves the page unchanged in the model. The loading button, the form reset and the later success notice are not modelled.
- The fade-in `IntersectionObserver`, lazy loading, the `visibilitychange` listener and `trackEvent` logging: browser APIs whose effects the page's state does not observe.
- Parallax, smooth scrolling with its 80 px header offset, the `easeInOutCubic` easing and the scroll-to-top click animation: floating-point layout and animation.
- The YouTube embed and the product-try notification and pulse: DOM construction with no sequential logic beyond a call to `showNotification`.
- The reflective `data-action` dispatch through `window[action]`: a lookup of arbitrary global functions.
- `localStorage` failures and `.val()` returning `undefined`: the stored value is an `Option<string>` and field values are strings.
- Strings are sequences of Dafny `char`, not UTF-16 code units. The validator's whitespace set lists the code points ECMAScript's `\s` covers.
- Pricing.TogglePricing: `.data()` coercion is not modelled, so the data values are kept as opaque strings and interpolated as given.
- Notifications.NotificationIcon: models the evidently intended total map. `getNotificationIcon` as written also answers for inherited property names such as `"toString"`, returning the inherited member rather than `info-circle`; that is modelled separately (see Findings).
- Notifications.NotificationClass: models the evidently intended total map. The source's object-literal lookup also answers for inherited property names; that is modelled separately (see Findings).
- Rotator.TicksCycle: the code does not activate slide 0 at start, so before the first tick the active slide is whatever the markup marks, and the property holds only from the first tick on.
- An exit transition for the close button: the button at static/js/script.js:244 calls `remove()` on its toast directly, so there is none, and Notifications.Dismiss detaches the toast at once.

## Findings

| source | as written | input that shows it | evidently intended | confidence | as-written member | corrected member |
|---|---|---|---|---|---|---|
| static/js/script.js:360-365 | The removal callback registered at or below 300 px removes whatever `#scroll-to-top` exists when it fires, including a button created after a later scroll past 300 px. | Scroll to 200 at t=0, scroll to 400 at t=100, then wait 1000 ms. | While the page rests above 300 px, a visible scroll-to-top button is present. | medium, not executed | ScrollReactor.AsWrittenLosesButton | ScrollReactor.GuardedButtonTracksOffset |
| static/js/script.js:232-237, 267-275 | `{...}[type] \|\| default` on an object literal returns an inherited member, which is truthy, for a type such as `"toString"`, so neither default applies. | `showNotification(msg, "toString")` | Every type outside the table falls back to `bg-blue-500` and `info-circle`. | low, not executed (the page's own callers pass only listed types) | Notifications.InheritedKindEscapesDefault | Notifications.NotificationClass |
