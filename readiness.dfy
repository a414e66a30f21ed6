/** The request-readiness rules of the registration form: the two effects
    that recompute the store's `status` after the fields change, the rule
    that disables the Register button, and what these rules guarantee about
    every state the form can reach. */
module Readiness {
  import opened JsString
  import opened EmailCheck

  /** The store's `registerReducer.status`. The form itself only ever
      dispatches `Loading` and `Succeeded`; `Other` stands for every further
      value the reducer may hold before the form is mounted (none of which
      is `'loading'` or `'succeeded'`). */
  datatype RequestStatus = Loading | Succeeded | Other

  /** The three text fields of the form. */
  datatype FormFields = FormFields(email: string, password: string, confirm: string)

  /** The fields as the form is mounted. */
  const EmptyFields := FormFields("", "", "")

  /** The condition under which the second effect dispatches `Succeeded`. */
  predicate Ready(f: FormFields)
    ensures Ready(f) ==> !NotReady(f) && 5 <= |f.email|
  {
    CheckValid(f.email) && Utf16Length(f.password) >= 7 && f.password == f.confirm
  }

  /** The conditions under which the second effect's final dispatch is
      `Loading`: a password field is empty, or the two differ. */
  predicate NotReady(f: FormFields)
    ensures NotReady(f) <==> f.password == "" || f.password != f.confirm
  {
    f.password == "" || f.confirm == "" || f.password != f.confirm
  }

  /** Neither condition holds: both passwords are equal and non-empty, but
      the e-mail fails the check or the password is shorter than 7. */
  predicate Undecided(f: FormFields) {
    !Ready(f) && !NotReady(f)
  }

  /** The first effect: run when `email` changed. */
  function EmailEffect(email: string, prev: RequestStatus): (r: RequestStatus)
    ensures r == Loading <==> email == "" || prev == Loading
    ensures r != Loading ==> r == prev
  {
    if email == "" then Loading else prev
  }

  /** The second effect: three independent `if`s, a later dispatch
      overwriting an earlier one. Its result is the decision table below:
      `Loading` when not ready, `Succeeded` when ready, and otherwise the
      status it found. */
  function FieldsEffect(f: FormFields, prev: RequestStatus): (r: RequestStatus)
    ensures f.password == "" || f.confirm == "" ==> r == Loading
    ensures f.password != "" && f.password != f.confirm ==> r == Loading
    ensures Ready(f) ==> r == Succeeded
    ensures Undecided(f) ==> r == prev
    ensures r == Succeeded <==> Ready(f) || (Undecided(f) && prev == Succeeded)
  {
    var s1 := if f.password == "" || f.confirm == "" then Loading else prev;
    var s2 := if Ready(f) then Succeeded else s1;
    if f.password != "" && f.password != f.confirm then Loading else s2
  }

  /** Both effects, in declaration order, after a render in which the
      fields are `f`; the first one only when `emailChanged`. */
  function Effects(f: FormFields, prev: RequestStatus, emailChanged: bool): (r: RequestStatus)
    ensures emailChanged && f.email == "" ==> r == Loading
    ensures NotReady(f) ==> r == Loading
    ensures Ready(f) ==> r == Succeeded
    ensures Undecided(f) && !(emailChanged && f.email == "") ==> r == prev
  {
    FieldsEffect(f, if emailChanged then EmailEffect(f.email, prev) else prev)
  }

  /** The status after mounting: both effects run once on the empty
      fields, so the store ends `Loading` whatever it held before. */
  function Mount(prev: RequestStatus): (r: RequestStatus)
    ensures r == Loading
  {
    Effects(EmptyFields, prev, true)
  }

  /** The status after a render that moved the fields from `before` to
      `after`. An effect runs only when one of its dependencies changed:
      the first depends on `email`, the second on all three fields. */
  function Rerender(before: FormFields, after: FormFields, prev: RequestStatus): (r: RequestStatus)
    ensures before == after ==> r == prev
    ensures before.email != after.email && after.email == "" ==> r == Loading
    ensures before != after && NotReady(after) ==> r == Loading
    ensures before != after && Ready(after) ==> r == Succeeded
    ensures Undecided(after) && !(before.email != after.email && after.email == "") ==> r == prev
  {
    if before == after then prev else Effects(after, prev, before.email != after.email)
  }

  /** The Register button is disabled exactly while the status is
      `Loading`; any other status, not only `Succeeded`, enables it. */
  predicate Disabled(s: RequestStatus)
    ensures !Disabled(s) <==> s == Succeeded || s == Other
  {
    s == Loading
  }

  /** One keystroke changes at most one of the three fields. */
  predicate SingleFieldEdit(before: FormFields, after: FormFields) {
    (before.password == after.password && before.confirm == after.confirm) ||
    (before.email == after.email && before.confirm == after.confirm) ||
    (before.email == after.email && before.password == after.password)
  }

  /** What holds of the fields and the status in every state the mounted
      form can reach by keystrokes: only the two dispatched values occur,
      an empty e-mail means `Loading`, and `Succeeded` means a non-empty
      e-mail and two equal passwords of at least 7 code units. */
  predicate Reachable(f: FormFields, s: RequestStatus) {
    (s == Loading || s == Succeeded) &&
    (f.email == "" ==> s == Loading) &&
    (s == Succeeded ==> f.email != "" && f.password == f.confirm && Utf16Length(f.password) >= 7)
  }

  lemma MountIsReachable(prev: RequestStatus)
    ensures Reachable(EmptyFields, Mount(prev))
  {
  }

  /** Every keystroke keeps the form in a reachable state. */
  lemma RerenderPreservesReachable(before: FormFields, after: FormFields, s: RequestStatus)
    requires Reachable(before, s) && SingleFieldEdit(before, after)
    ensures Reachable(after, Rerender(before, after, s))
  {
    // A render that keeps an earlier `Succeeded` is undecided: the two
    // passwords are equal, so the edit touched neither of them.
  }

  /** An empty e-mail always leaves the form `Loading`, in a reachable
      state, whichever field was edited. */
  lemma EmptyEmailMeansLoading(before: FormFields, after: FormFields, s: RequestStatus)
    requires Reachable(before, s) && SingleFieldEdit(before, after) && after.email == ""
    ensures Rerender(before, after, s) == Loading
  {
    RerenderPreservesReachable(before, after, s);
  }

  /** Outside the reachable states the second effect alone does not force
      `Loading` on an empty e-mail: when a password field changes, the
      e-mail stays empty and the two passwords end equal and non-empty, it
      keeps whatever status it found, `Succeeded` included. */
  lemma EmptyEmailKeepsUnreachableStatus(before: FormFields, after: FormFields, prev: RequestStatus)
    requires before.email == "" && after.email == "" && before != after
    requires after.password == after.confirm && after.password != ""
    ensures Rerender(before, after, prev) == prev
  {
    assert !CheckValid(after.email);
  }

  /** When the button is enabled in a reachable state, the status is
      `Succeeded` and the request it sends carries a non-empty e-mail and a
      password of at least 7 code units that matches its confirmation. */
  lemma EnabledMeansConfirmed(f: FormFields, s: RequestStatus)
    requires Reachable(f, s)
    ensures !Disabled(s) <==> s == Succeeded
    ensures !Disabled(s) ==> f.email != "" && f.password == f.confirm && Utf16Length(f.password) >= 7
  {
  }

  /** The three `if`s never conflict, so running the second effect again on
      unchanged fields changes nothing. */
  lemma FieldsEffectIdempotent(f: FormFields, prev: RequestStatus)
    ensures FieldsEffect(f, FieldsEffect(f, prev)) == FieldsEffect(f, prev)
  {
  }

  /** A form that is `Succeeded` stays `Succeeded` when its e-mail is edited
      into one the check rejects: the recomputation is not exhaustive. */
  lemma InvalidEmailKeepsSucceeded()
    ensures Reachable(FormFields("a@b.co", "1234567", "1234567"), Succeeded)
    ensures !CheckValid("a@b.")
    ensures Rerender(FormFields("a@b.co", "1234567", "1234567"),
                     FormFields("a@b.", "1234567", "1234567"), Succeeded) == Succeeded
  {
    CheckValidIff("a@b.");
  }

  /** A valid e-mail with two equal passwords of 7 characters succeeds. */
  lemma ScenarioValidForm(prev: RequestStatus)
    ensures FieldsEffect(FormFields("a@b.co", "1234567", "1234567"), prev) == Succeeded
  {
    assert SplitsAt("a@b.co", 1, 3);
  }

  /** A 6-character password leaves the status as it was. */
  lemma ScenarioShortPassword(prev: RequestStatus)
    ensures FieldsEffect(FormFields("a@b.co", "123456", "123456"), prev) == prev
  {
  }

  /** In a reachable state a 6-character password is never `Succeeded`:
      the status kept by the short-password case is `Loading`. */
  lemma ScenarioShortPasswordNeverSucceeds(s: RequestStatus)
    requires Reachable(FormFields("a@b.co", "123456", "123456"), s)
    ensures s == Loading
    ensures FieldsEffect(FormFields("a@b.co", "123456", "123456"), s) == Loading
  {
    assert Utf16Length("123456") == 6;
  }

  /** Differing passwords give `Loading`. */
  lemma ScenarioMismatch(prev: RequestStatus)
    ensures FieldsEffect(FormFields("a@b.co", "abcdefg", "abcdefgh"), prev) == Loading
  {
  }

  /** Clearing the e-mail gives `Loading`, even with matching passwords. */
  lemma ScenarioEmptyEmail(prev: RequestStatus)
    ensures Effects(FormFields("", "x", "x"), prev, true) == Loading
  {
  }
}
