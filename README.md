# Landing-page logic: countdown, lead form, icon names, FAQ accordion

The repository is a single-page storefront for a dog breeder, written as one
React component file, `src/App.jsx`. Almost all of it is markup and styling.
This project models the four pieces of it that compute something:

- **Countdown** (`countdown.dfy`, module `Countdown`). Every second the banner
  timer takes the milliseconds left until a target instant and splits them
  into days, hours, minutes and seconds. When the target has passed, the timer
  keeps the last value it showed. `Breakdown` is the split. Class
  `CountdownTimer` holds the displayed value, and `Tick(now)` is one run of the
  interval callback.
- **Lead form** (`form_handler.dfy`, module `FormHandler`). The `useFormHandler`
  hook has four state cells: `isSubmitting`, `isSuccess`, `isError` and
  `errorMessage`. The class `FormHandler` has those fields. The asynchronous
  submit handler is split at its `await` into two methods:
  - `BeginSubmit` marks the submission in flight and returns the outgoing
    payload.
  - `Complete(outcome)` applies the relay's answer and ends the submission.

  The network exchange becomes the input datatype
  `Outcome = Ok | Rejected(message) | TransportError`. The form element that
  the handler empties on success is the class `FormElement`. `Status()` maps
  the four cells to the lifecycle `Idle | Submitting | Succeeded | Failed(message)`.
  `BeginSubmit` requires that no success is shown and that no submission is in
  flight. This is the caller's render gate: the form is replaced by the
  thank-you panel while `isSuccess` holds (src/App.jsx:257), and its submit
  button is disabled while `isSubmitting` holds (src/App.jsx:318).
- **Icon names** (`safe_icon.dfy`, module `SafeIcon`). A kebab-case icon name
  becomes the PascalCase key of the icon library. The chain is split on `-`,
  upper-case the first character of each segment, and join. A missing key
  falls back to `HelpCircle`. The chain is modelled literally: `Split`,
  `CapitalizeAll` and `Concat`. It is proved equal to `PascalScan`, an
  independent left-to-right definition. From that the project derives the
  character-by-character rule and the length.
- **FAQ accordion** (`faq.dfy`, module `Faq`). A single open index is shared
  by all items and starts at `0`; `-1` means none is open. Clicking item `i`
  sets it to `openFAQ == i ? -1 : i`.

`wrappers.dfy` holds the `Option` datatype used by the icon lookup and by the
relay's optional message.

Two defects keep `src/App.jsx` from parsing as written. The name transform ends its
statement with `.split('-');` before `.map` (line 17), and several components
return with `return (;` (lines 108, 129, 178, 218, 258, 281, 443). The model
follows the evident intent: one `split`/`map`/`join` chain and plain returns.

Two details of the submission cells follow the code closely:
- A rejection message falls back to the default when the relay's message is
  missing or empty, because the handler combines them with JavaScript `||`
  (src/App.jsx:54).
- A successful submission leaves `errorMessage` as it was (src/App.jsx:49-51).
  Only `resetForm` clears it (src/App.jsx:64-68). While `isError` is false the
  message is not shown.

## Model

| member | source | states |
|---|---|---|
| Countdown.Breakdown | src/App.jsx:84-90 | for a positive difference of `d` ms the four fields are non-negative, hours < 24, minutes < 60, seconds < 60, and days·86400 + hours·3600 + minutes·60 + seconds equals the whole seconds in `d` |
| Countdown.BreakdownUnique | src/App.jsx:85-90 | any normalized value with the same whole number of seconds is the breakdown: the display is the unique clock reading of the difference |
| Countdown.BreakdownMonotone | src/App.jsx:85-90 | a smaller difference never reads as more time (lexicographic order of days, hours, minutes, seconds) |
| Countdown.CountdownTimer.constructor | src/App.jsx:75-79 | the timer starts at all zeros with the target fixed for its lifetime |
| Countdown.CountdownTimer.Tick | src/App.jsx:81-92 | a tick with a positive difference stores its breakdown; a tick at or after the target leaves the value unchanged; the stored value stays normalized, so no field is ever negative |
| FormHandler.RejectionMessage | src/App.jsx:52-55 | the shown error is the relay's message when it is present and non-empty, otherwise exactly 'Что-то пошло не так'; it is never empty |
| FormHandler.Settle | src/App.jsx:49-61 | a completed submission ends in Succeeded or Failed, never Idle or Submitting; Succeeded exactly for the Ok outcome; a transport failure always yields the fixed network message |
| FormHandler.Cleared | src/App.jsx:51 | resetting the form keeps every field and empties its value |
| FormHandler.FormElement.Reset | src/App.jsx:51 | the form's fields become their cleared values |
| FormHandler.FormHandler.constructor | src/App.jsx:32-35 | the four cells start false, false, false and empty, which is the Idle phase |
| FormHandler.FormHandler.BeginSubmit | src/App.jsx:36-41 | with no success shown and no submission in flight, sets submitting, clears the error flag, keeps success and message, and returns the form's fields followed by the `access_key` field |
| FormHandler.FormHandler.Complete | src/App.jsx:42-61 | every outcome ends the submission; Ok sets success and clears the form; a rejection sets the error with the rejection message; a transport error sets the error with 'Ошибка сети. Попробуйте еще раз.'; the phase reached is Settle(outcome); success and error are never both set |
| FormHandler.FormHandler.ResetForm | src/App.jsx:64-68 | clears success, error and message without touching the submitting flag; the invariant is kept |
| SafeIcon.UpperAscii | src/App.jsx:18 | 'a'..'z' become the letter at the same place in 'A'..'Z'; every other character is kept; in particular the separator is preserved and nothing else becomes one |
| SafeIcon.Split | src/App.jsx:16-17 | splitting on `-` gives one more segment than there are separators, none containing a separator |
| SafeIcon.JoinSplit | src/App.jsx:16-17 | joining the segments with `-` restores the name |
| SafeIcon.SplitJoin | src/App.jsx:16-17 | splitting a `-`-join of separator-free segments returns those segments |
| SafeIcon.SplitSegment | src/App.jsx:16-17 | a separator-free prefix is glued onto the first segment of what follows it |
| SafeIcon.Capitalize | src/App.jsx:18 | a segment keeps its length, its first character is upper-cased and every other character is kept |
| SafeIcon.CapitalizeAll | src/App.jsx:18 | the mapped list has one capitalised segment per segment, in the same order |
| SafeIcon.ConcatLength | src/App.jsx:19 | joining the segments with nothing is one character shorter per gap than joining them with `-` |
| SafeIcon.ConcatAppend | src/App.jsx:19 | joining two lists of segments one after the other equals joining their concatenation |
| SafeIcon.ChainIsScan | src/App.jsx:16-19 | the split/capitalise/join chain equals the character-by-character scan |
| SafeIcon.ScanShape | src/App.jsx:16-19 | the scan removes exactly the separators and emits none |
| SafeIcon.ToPascalCase | src/App.jsx:16-19 | the key has the length of the name minus its separators, contains no separator, and equals the scan |
| SafeIcon.ScanAt | src/App.jsx:16-19 | each non-separator character appears shifted left by the separators before it, upper-cased exactly when it opens a segment |
| SafeIcon.PascalCaseAt | src/App.jsx:16-19 | in the key, the first character of each segment is upper-cased and every other character is unchanged |
| SafeIcon.KnownNames | src/App.jsx:873 | "map-pin" becomes "MapPin" and "x" becomes "X" |
| SafeIcon.ResolveIcon | src/App.jsx:20 | a key in the table gives its icon; a missing key gives the `HelpCircle` icon; nothing is found only when both are missing |
| SafeIcon.ResolveIconTotal | src/App.jsx:20 | with `HelpCircle` in the table every name resolves to an icon of the table |
| Faq.Toggle | src/App.jsx:833 | clicking item `i` opens it exactly when it was closed and leaves every other item closed |
| Faq.AtMostOneOpen | src/App.jsx:832 | in any state at most one item of the list is open |
| Faq.ClicksPreserveRange | src/App.jsx:833 | clicks on items of the list keep the state at -1 or at an index of the list |
| Faq.ClicksStayInRange | src/App.jsx:341 | from the initial state, any clicks on the list's items leave the state at -1 or an index of the list |
| Faq.ToggleTwice | src/App.jsx:833 | clicking the same item twice leaves it open exactly when it was open before |

## Left out

- Rendering, Tailwind classes and the `cn` helper (src/App.jsx:7-9) are presentation only.
- Animations, the `useInView` scroll hook, modal and testimonial state are UI glue with no invariants.
- The static content arrays (puppies, features, FAQs, testimonials) are data, not logic.
- The `fetch` POST and `response.json()` are network I/O. They are replaced by the `Outcome` input, and any exception is one `TransportError`.
- `setInterval`/`clearInterval` scheduling is not modelled, so neither is the cleanup on unmount. Each callback run is one `Tick`.
- The asynchronous interleaving of the submit handler is not modelled, nor the batching of React state updates. `BeginSubmit` and `Complete` run as two atomic steps.
- The end-of-month target built with the JavaScript `Date` library in local time is not modelled. The target and "now" are integer millisecond inputs.
- The dynamic `import('lucide-react')` is a foreign module load. Only the name transform and the table lookup are modelled, with the table as a `map` parameter.
- The struck-through price `Math.round(price * 1.2)` and its locale formatting use floating point.
- SafeIcon.UpperAscii: upper-cases ASCII letters only, because JavaScript `toUpperCase` can change the length of some non-ASCII strings.
- SafeIcon.ResolveIcon: does not model `||` falling through on a falsy table entry. Every table value is an icon.
- FormHandler.RejectionMessage: the relay's `message` is modelled as a string or absent. A truthy non-string `message` (a number, an array, an object), which the component would store and show as converted text, is not modelled and falls to the default text.
