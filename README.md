# Registration form readiness — a Dafny model

This project models the sign-up form of a flashcard-learning web front end
(`src/register/Register.tsx`). The form has three text fields (e-mail,
password, confirmation) and a flag that shows or masks both password fields.
After every change, two effects recompute the store's request `status`,
which is `'loading'` or `'succeeded'`. The Register button is disabled while
the status is `'loading'`. Clicking it sends the current e-mail and password
to the registration request.

Files and modules:

- `js_string.dfy`, module `JsString`: the JavaScript meaning of `\s` in a
  regular expression (the WhiteSpace and LineTerminator code points of
  ECMA-262, ECMAScript 2023, sections 12.2 and 12.3). Also `String.length`,
  which counts UTF-16 code units.
- `email_check.dfy`, module `EmailCheck`: `checkValid`, the anchored
  expression `^[^\s@]+@[^\s@]+\.[^\s@]+$`. It is stated as the regex's own
  semantics: some `@` and some `.` split the string into three non-empty
  runs of characters that are neither white space nor `@`. It is proved
  equal to a plain description: no white space, exactly one `@` (not the
  first character), and a `.` after it that is neither the first nor the
  last character of the domain.
- `readiness.dfy`, module `Readiness`: the two effects as functions, the
  button rule, and the invariant every reachable state keeps. It also
  holds the lemmas about them.
- `register_form.dfy`, module `Register`: the component as a class. It has
  fields `email`, `password`, `confirm`, `inputType` and `status`. Its
  change handlers update one field and then run the effects with sequential
  `if`s, each assignment overwriting the last. Each handler is proved equal
  to `Readiness.Rerender` and keeps `Valid()`.

React semantics as modelled:

- Mounting runs both effects on the empty fields.
- A handler that stores the value already present causes no effect to run:
  React bails out, and no dependency changed.
- Otherwise the first effect runs only when `email` changed. The second
  effect runs after any field change, since it depends on all three.
- The effects run in declaration order.

The status type lives in a reducer that is not part of this model. So
`RequestStatus` has `Loading`, `Succeeded`, and `Other` for every
other value the store may hold before mounting. The constructor takes that
value as a parameter. Mounting always ends in `Loading`.

Three points where the code differs from a summary of the form one might
write; the model follows the code:

- One might say the button is disabled whenever the status is not
  `succeeded`. The code disables it only when the status is `'loading'`
  (`Readiness.Disabled`). In every reachable state the two agree
  (`EnabledMeansConfirmed`).
- The e-mail rule is more than "a `.` after the `@`". The regex also
  requires the `.` to be neither the first nor the last character of the
  domain (`CheckValidIff`).
- "An empty e-mail always means loading" holds only when the e-mail effect
  runs, or in a reachable state (`EmptyEmailMeansLoading`). The second
  effect alone keeps whatever status it finds when both passwords are equal
  and non-empty (`EmptyEmailKeepsUnreachableStatus`).

The recomputation is deliberately not exhaustive. When both passwords are
equal and non-empty, but the e-mail fails the check or the password is
shorter than 7, the status is left as it was. So a `Succeeded` form whose
e-mail is edited to `a@b.` stays `Succeeded`, with the button enabled
(`InvalidEmailKeepsSucceeded`, `InvalidEmailSession`). The model keeps this
behaviour.

## Model

| member | source | states |
|---|---|---|
| `JsString.IsWs` | src/register/Register.tsx:35 | the `\s` class of the regex: ECMAScript's white space and line terminators; none of them is `@` or `.`, and all lie below U+10000 |
| `EmailCheck.CheckValid` | src/register/Register.tsx:34-36 | `checkValid`: some `@` and some `.` after it split the string into three non-empty runs free of white space and `@`; an accepted string is at least 5 long, contains `@` and does not start with it |
| `JsString.Utf16Length` | src/register/Register.tsx:51 | `password.length` counts UTF-16 code units: at least the number of code points and at most twice it, zero exactly for the empty string, and equal to the number of code points when none is above U+FFFF |
| `EmailCheck.CheckValidIff` | src/register/Register.tsx:34-36 | the regex accepts `s` exactly when `s` has no white space, exactly one `@` at an index above 0, and a `.` after the `@` that is neither the first nor the last domain character (both directions) |
| `Readiness.Ready` | src/register/Register.tsx:51 | the condition that dispatches `'succeeded'`; it excludes every condition that dispatches `'loading'` in the second effect, and implies an e-mail of at least 5 characters |
| `Readiness.NotReady` | src/register/Register.tsx:47-56 | the conditions whose `'loading'` dispatch comes last; they hold exactly when the password is empty or differs from the confirmation (the empty-confirmation test is subsumed) |
| `Readiness.EmailEffect` | src/register/Register.tsx:40-44 | the first effect: the result is `Loading` exactly when the e-mail is empty or the status already was `Loading`, and is otherwise the status found |
| `Readiness.FieldsEffect` | src/register/Register.tsx:46-57 | the three sequential dispatches give `Loading` when a password field is empty or the two differ, `Succeeded` when the e-mail is valid and the equal passwords have at least 7 code units, and otherwise keep the status found; `Succeeded` results exactly from readiness or from a kept `Succeeded` |
| `Readiness.Effects` | src/register/Register.tsx:40-57 | with the e-mail effect run first, an empty e-mail ends in `Loading`; otherwise the decision table of the second effect applies |
| `Readiness.Mount` | src/register/Register.tsx:10-13 | mounting with all fields empty ends in `Loading`, whatever status the store held |
| `Readiness.Rerender` | src/register/Register.tsx:40-57 | a render with unchanged fields keeps the status; clearing the e-mail gives `Loading`; after any change not-ready fields give `Loading` and ready fields `Succeeded`; the undecided case keeps the previous status |
| `Readiness.MountIsReachable` | src/register/Register.tsx:10-13 | the freshly mounted form is in a reachable state |
| `Readiness.RerenderPreservesReachable` | src/register/Register.tsx:46-57 | a single-field edit keeps a reachable state reachable: status is `Loading` or `Succeeded`, an empty e-mail means `Loading`, and `Succeeded` means a non-empty e-mail and equal passwords of length at least 7 |
| `Readiness.EmptyEmailMeansLoading` | src/register/Register.tsx:40-44 | in a reachable state, any edit that leaves the e-mail empty ends in `Loading` |
| `Readiness.EmptyEmailKeepsUnreachableStatus` | src/register/Register.tsx:46-57 | for every status found, the second effect alone keeps it (a `Succeeded` included) when the e-mail is and stays empty and a password edit leaves two equal non-empty passwords |
| `Readiness.Disabled` | src/register/Register.tsx:148 | the Register button is enabled exactly when the status is `Succeeded` or some other reducer value, i.e. not `'loading'` |
| `Readiness.EnabledMeansConfirmed` | src/register/Register.tsx:148 | in a reachable state the button is enabled exactly when the status is `Succeeded`, and then the e-mail is non-empty and the password is confirmed and at least 7 long |
| `Readiness.FieldsEffectIdempotent` | src/register/Register.tsx:46-57 | the dispatches never conflict: recomputing on unchanged fields gives the same status |
| `Readiness.InvalidEmailKeepsSucceeded` | src/register/Register.tsx:51-53 | `a@b.` fails the check, yet editing a `Succeeded` form's e-mail to it keeps `Succeeded` |
| `Readiness.ScenarioValidForm` | src/register/Register.tsx:51-53 | `a@b.co` with two equal 7-character passwords gives `Succeeded` |
| `Readiness.ScenarioShortPassword` | src/register/Register.tsx:46-57 | `a@b.co` with two equal 6-character passwords keeps the previous status |
| `Readiness.ScenarioShortPasswordNeverSucceeds` | src/register/Register.tsx:46-57 | in a reachable state, `a@b.co` with two equal 6-character passwords is `Loading`, never `Succeeded`, and recomputing keeps it `Loading` |
| `Readiness.ScenarioMismatch` | src/register/Register.tsx:54-56 | differing non-empty passwords give `Loading` |
| `Readiness.ScenarioEmptyEmail` | src/register/Register.tsx:40-44 | clearing the e-mail gives `Loading` even with matching passwords |
| `Register.RegisterForm.constructor` | src/register/Register.tsx:10-13 | fields start empty, passwords masked, status is `Mount` of the store's prior value (so `Loading`, button disabled), and the state is valid |
| `Register.RegisterForm.RunEffects` | src/register/Register.tsx:40-57 | the sequential assignments leave exactly the status `Effects` gives |
| `Register.RegisterForm.SetEmail` | src/register/Register.tsx:17-19 | only the e-mail field changes; the new status is `Rerender` of the old one; the state stays valid |
| `Register.RegisterForm.SetPassword` | src/register/Register.tsx:20-22 | only the password field changes; the new status is `Rerender` of the old one; the state stays valid |
| `Register.RegisterForm.SetConfirm` | src/register/Register.tsx:23-25 | only the confirmation field changes; the new status is `Rerender` of the old one; the state stays valid |
| `Register.RegisterForm.PasswordFieldKind` | src/register/Register.tsx:110 | the `type` shared by both password fields (lines 110 and 135): shown as text exactly when the reveal flag is set, masked otherwise |
| `Register.RegisterForm.ToggleInputType` | src/register/Register.tsx:27-29 | the reveal flag flips, so both password fields switch between masked and shown; nothing else changes, so a valid state stays valid |
| `Register.ToggleTwice` | src/register/Register.tsx:27-29 | toggling twice restores the flag and the masking of both fields, and keeps a valid state valid |
| `Register.RegisterForm.Submit` | src/register/Register.tsx:60-63 | emits the current e-mail and password without changing any local state; with the button enabled in a valid state, the password is confirmed and at least 7 long |
| `Register.InvalidEmailSession` | src/register/Register.tsx:40-57 | from mounting: typing a valid sign-up and then editing the e-mail to `a@b.` leaves the form `Succeeded`, with the button enabled |

## Left out

- The registration request itself (`registerTC`, line 61) is a network call.
  Its effect on the status happens in a reducer that is not part of this
  model. `Submit` only returns the request pair.
- The reducer `register-reducer` is not part of this model. Its other
  status values and its initial status are unknown, so the initial status
  is a constructor parameter.
- React scheduling is not modelled: batching, asynchronous effect timing,
  and re-renders caused by store updates (these run no effect, since
  `status` is in no dependency list).
- The MUI layout and styling markup (lines 66-153) is not modelled. The
  Cancel button has no handler and is left out too.
- `JsString.IsWs` covers the white space of current Unicode. Older engines
  with a different Zs set are not modelled.
- The regex runs over UTF-16 code units, while the model runs over Unicode
  scalar values. This changes no verdict, because a surrogate half is never
  white space or `@`.
- `src/App.tsx` (routing) and `src/components/mui/table-list-card/TableListCard.tsx`
  (card table rendering) hold no state rules and are not part of this model.
