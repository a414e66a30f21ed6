/** The registration form component: its local state (three text fields
    and the password-reveal flag), the store's `status` it drives, its
    change handlers, the reveal toggle and the Register action. */
module Register {
  import opened JsString
  import opened EmailCheck
  import opened Readiness

  /** The pair handed to the registration request when Register is clicked. */
  datatype RegistrationRequest = RegistrationRequest(email: string, password: string)

  /** The `type` of a password text field: masked or shown. */
  datatype InputKind = PasswordInput | TextInput

  class RegisterForm {
    var email: string
    var password: string
    var confirm: string
    /** `true` while the passwords are shown in clear. */
    var inputType: bool
    /** The store's `registerReducer.status`, as this form dispatches it. */
    var status: RequestStatus

    function Fields(): FormFields
      reads this
    {
      FormFields(email, password, confirm)
    }

    ghost predicate Valid()
      reads this
    {
      Reachable(Fields(), status)
    }

    /** The `type` shared by the password and the confirmation fields. */
    function PasswordFieldKind(): (k: InputKind)
      reads this
      ensures k == TextInput <==> inputType
    {
      if !inputType then PasswordInput else TextInput
    }

    /** Mounting: empty fields, passwords masked, and both effects run once
        on whatever status the store held. */
    constructor (initialStatus: RequestStatus)
      ensures Valid()
      ensures Fields() == EmptyFields && !inputType
      ensures status == Mount(initialStatus) && Disabled(status)
    {
      email, password, confirm := "", "", "";
      inputType := false;
      status := initialStatus;
      new;
      RunEffects(true);
      MountIsReachable(initialStatus);
    }

    /** The effects of one render: the e-mail effect when `email` changed,
        then the three dispatches of the second effect, each overwriting
        the status left by the one before. */
    method RunEffects(emailChanged: bool)
      modifies this`status
      ensures status == Effects(Fields(), old(status), emailChanged)
    {
      if emailChanged {
        if email == "" {
          status := Loading;
        }
      }
      if password == "" || confirm == "" {
        status := Loading;
      }
      if Ready(Fields()) {
        status := Succeeded;
      }
      if password != "" && password != confirm {
        status := Loading;
      }
    }

    /** The e-mail field's change handler; typing the value already there
        re-renders nothing, so no effect runs. */
    method SetEmail(value: string)
      requires Valid()
      modifies this`email, this`status
      ensures Valid()
      ensures Fields() == FormFields(value, old(password), old(confirm))
      ensures status == Rerender(old(Fields()), Fields(), old(status))
    {
      ghost var before := Fields();
      if value != email {
        email := value;
        RunEffects(true);
      }
      RerenderPreservesReachable(before, Fields(), old(status));
    }

    /** The password field's change handler. */
    method SetPassword(value: string)
      requires Valid()
      modifies this`password, this`status
      ensures Valid()
      ensures Fields() == FormFields(old(email), value, old(confirm))
      ensures status == Rerender(old(Fields()), Fields(), old(status))
    {
      ghost var before := Fields();
      if value != password {
        password := value;
        RunEffects(false);
      }
      RerenderPreservesReachable(before, Fields(), old(status));
    }

    /** The confirmation field's change handler. */
    method SetConfirm(value: string)
      requires Valid()
      modifies this`confirm, this`status
      ensures Valid()
      ensures Fields() == FormFields(old(email), old(password), value)
      ensures status == Rerender(old(Fields()), Fields(), old(status))
    {
      ghost var before := Fields();
      if value != confirm {
        confirm := value;
        RunEffects(false);
      }
      RerenderPreservesReachable(before, Fields(), old(status));
    }

    /** The eye button beside either password field: flips masking of both
        fields at once; no effect depends on it, so the status stays. */
    method ToggleInputType()
      modifies this`inputType
      ensures old(Valid()) ==> Valid()
      ensures inputType == !old(inputType)
      ensures PasswordFieldKind() != old(PasswordFieldKind())
    {
      inputType := !inputType;
    }

    /** The Register button's click handler: hands the current e-mail and
        password to the registration request and changes no local state.
        It does not look at the status itself; in a reachable state with
        the button enabled, the password is confirmed and long enough. */
    method Submit() returns (req: RegistrationRequest)
      ensures req.email == email && req.password == password
      ensures Valid() && !Disabled(status) ==>
                req.email != "" && req.password == confirm && Utf16Length(req.password) >= 7
    {
      req := RegistrationRequest(email, password);
    }
  }

  /** Toggling twice restores the masking and leaves every other part of
      the form as it was. */
  method ToggleTwice(form: RegisterForm)
    modifies form`inputType
    ensures old(form.Valid()) ==> form.Valid()
    ensures form.inputType == old(form.inputType)
    ensures form.PasswordFieldKind() == old(form.PasswordFieldKind())
  {
    form.ToggleInputType();
    form.ToggleInputType();
  }

  /** A session on a mounted form: a valid sign-up becomes `Succeeded`,
      then editing the e-mail into one the check rejects keeps it so, and
      the Register button stays enabled. */
  method InvalidEmailSession() returns (form: RegisterForm)
    ensures form.Fields() == FormFields("a@b.", "1234567", "1234567")
    ensures !CheckValid(form.email)
    ensures form.status == Succeeded && !Disabled(form.status)
  {
    form := new RegisterForm(Loading);
    form.SetEmail("a@b.co");
    form.SetPassword("1234567");
    form.SetConfirm("1234567");
    ScenarioValidForm(Loading);
    form.SetEmail("a@b.");
    InvalidEmailKeepsSucceeded();
  }
}
