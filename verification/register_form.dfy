/**
 * The registration form's client-side checks
 * (client/src/components/Auth/Register.js): the four field validators, the
 * errors object `validateForm` builds, and the error clearing on input.
 */
module RegisterForm {
  import opened Wrappers
  import opened Text
  import UserRoutes

  /** The inputs `name`, `email`, `password` and `confirmPassword`. */
  datatype Field = NameField | EmailField | PasswordField | ConfirmField

  datatype Form = Form(name: string, email: string, password: string, confirmPassword: string)

  function Value(form: Form, f: Field): string {
    match f
    case NameField => form.name
    case EmailField => form.email
    case PasswordField => form.password
    case ConfirmField => form.confirmPassword
  }

  /** The messages the form shows. */
  datatype Message =
    | NameRequired | NameTooShort
    | EmailRequired | EmailInvalid
    | PasswordRequired | PasswordTooShort
    | ConfirmRequired | PasswordsDiffer

  function MessageText(m: Message): string {
    match m
    case NameRequired => "Name is required"
    case NameTooShort => "Name must be at least 2 characters"
    case EmailRequired => "Email is required"
    case EmailInvalid => "Please enter a valid email address"
    case PasswordRequired => "Password is required"
    case PasswordTooShort => "Password must be at least 6 characters"
    case ConfirmRequired => "Please confirm your password"
    case PasswordsDiffer => "Passwords do not match"
  }

  /**
   * `/^[^\s@]+@[^\s@]+\.[^\s@]+$/`: no white space, exactly one `@` with
   * something before it, and after it a `.` with something on both sides.
   */
  predicate EmailPattern(s: string) {
    exists i, j | 0 < i < j < |s| :: SplitsAt(s, i, j)
  }

  /** `s` is a match of the pattern whose `@` is at `i` and whose separating `.` is at `j`. */
  predicate SplitsAt(s: string, i: int, j: int) {
    && 0 < i && i + 1 < j < |s| - 1 && s[i] == '@' && s[j] == '.'
    && (forall k :: 0 <= k < |s| && k != i ==> s[k] != '@' && !IsSpace(s[k]))
  }

  function NameError(name: string): (r: Option<Message>)
    ensures r.None? <==> |Trim(name)| >= 2
  {
    if Trim(name) == "" then Some(NameRequired)
    else if |Trim(name)| < 2 then Some(NameTooShort)
    else None
  }

  function EmailError(email: string): (r: Option<Message>)
    ensures r.None? <==> email != "" && EmailPattern(email)
  {
    if email == "" then Some(EmailRequired)
    else if !EmailPattern(email) then Some(EmailInvalid)
    else None
  }

  function PasswordError(password: string): (r: Option<Message>)
    ensures r.None? <==> |password| >= 6
  {
    if password == "" then Some(PasswordRequired)
    else if |password| < 6 then Some(PasswordTooShort)
    else None
  }

  function ConfirmError(password: string, confirm: string): (r: Option<Message>)
    ensures r.None? <==> confirm != "" && confirm == password
  {
    if confirm == "" then Some(ConfirmRequired)
    else if password != confirm then Some(PasswordsDiffer)
    else None
  }

  /** The message `validateForm` gives a field, if any. */
  function FieldError(form: Form, f: Field): Option<Message> {
    Pick(f, NameError(form.name), EmailError(form.email), PasswordError(form.password),
         ConfirmError(form.password, form.confirmPassword))
  }

  /** The one of four per-field values that belongs to `f`. */
  function Pick<T>(f: Field, name: T, email: T, password: T, confirm: T): T {
    match f
    case NameField => name
    case EmailField => email
    case PasswordField => password
    case ConfirmField => confirm
  }

  /**
   * The messages are the ones the source shows, and which one a field gets
   * depends on its own value (and, for the confirmation, the password).
   */
  lemma FieldMessages(form: Form)
    ensures NameError(form.name) == Some(NameRequired) <==> AllSpace(form.name)
    ensures NameError(form.name) == Some(NameTooShort) <==> |Trim(form.name)| == 1
    ensures EmailError(form.email) == Some(EmailRequired) <==> form.email == ""
    ensures EmailError(form.email) == Some(EmailInvalid) <==> form.email != "" && !EmailPattern(form.email)
    ensures PasswordError(form.password) == Some(PasswordTooShort) <==> 0 < |form.password| < 6
    ensures ConfirmError(form.password, form.confirmPassword) == Some(PasswordsDiffer)
        <==> form.confirmPassword != "" && form.confirmPassword != form.password
  {
  }

  /** `errors.field = message` when the field has a message. */
  function Record(errors: map<Field, Message>, f: Field, message: Option<Message>): map<Field, Message> {
    if message.Some? then errors[f := message.value] else errors
  }

  /** The errors object built from the four fields' messages, in the form's order. */
  function Collect(name: Option<Message>, email: Option<Message>, password: Option<Message>,
                   confirm: Option<Message>): map<Field, Message>
  {
    var e := Record(map[], NameField, name);
    var e := Record(e, EmailField, email);
    var e := Record(e, PasswordField, password);
    Record(e, ConfirmField, confirm)
  }

  /** The collected object has an entry for exactly the fields with a message, holding that message. */
  lemma CollectHasOneEntryPerMessage(name: Option<Message>, email: Option<Message>, password: Option<Message>,
                                     confirm: Option<Message>)
    ensures var e := Collect(name, email, password, confirm);
      && (forall f :: f in e <==> Pick(f, name, email, password, confirm).Some?)
      && (forall f :: f in e ==> e[f] == Pick(f, name, email, password, confirm).value)
      && (e == map[] <==> name.None? && email.None? && password.None? && confirm.None?)
  {
    var e := Collect(name, email, password, confirm);
    assert NameField in e <==> name.Some?;
    assert EmailField in e <==> email.Some?;
    assert PasswordField in e <==> password.Some?;
    assert ConfirmField in e <==> confirm.Some?;
    if e != map[] {
      var k :| k in e;
    }
  }

  /** The errors object `validateForm` builds: one entry per field that fails. */
  function Errors(form: Form): map<Field, Message> {
    Collect(NameError(form.name), EmailError(form.email), PasswordError(form.password),
            ConfirmError(form.password, form.confirmPassword))
  }

  /** Each field has an entry exactly when it fails, holding its message. */
  lemma ErrorsListFailingFields(form: Form)
    ensures forall f :: f in Errors(form) <==> FieldError(form, f).Some?
    ensures forall f :: f in Errors(form) ==> Errors(form)[f] == FieldError(form, f).value
    ensures Errors(form) == map[] <==> forall f :: FieldError(form, f).None?
  {
    var name, email := NameError(form.name), EmailError(form.email);
    var password, confirm := PasswordError(form.password), ConfirmError(form.password, form.confirmPassword);
    CollectHasOneEntryPerMessage(name, email, password, confirm);
    assert FieldError(form, NameField) == name;
    assert FieldError(form, EmailField) == email;
    assert FieldError(form, PasswordField) == password;
    assert FieldError(form, ConfirmField) == confirm;
  }

  /**
   * `validateForm()`: the errors object, built field by field, and whether
   * it is empty. It is keyed by field rather than by the field's name.
   */
  method ValidateForm(form: Form) returns (errors: map<Field, Message>, valid: bool)
    ensures errors == Errors(form)
    ensures valid <==> errors == map[]
  {
    errors := map[];
    errors := Record(errors, NameField, NameError(form.name));
    errors := Record(errors, EmailField, EmailError(form.email));
    errors := Record(errors, PasswordField, PasswordError(form.password));
    errors := Record(errors, ConfirmField, ConfirmError(form.password, form.confirmPassword));
    valid := |errors| == 0;
    assert valid <==> errors == map[] by {
      if !valid {
        var k :| k in errors;
      }
    }
  }

  /** The form passes exactly when every field passes its own check. */
  lemma ValidIffEveryFieldPasses(form: Form)
    ensures (forall f :: FieldError(form, f).None?) <==>
      && |Trim(form.name)| >= 2
      && EmailPattern(form.email)
      && |form.password| >= 6
      && form.confirmPassword == form.password
  {
    assert FieldError(form, NameField) == NameError(form.name);
    assert FieldError(form, EmailField) == EmailError(form.email);
    assert FieldError(form, PasswordField) == PasswordError(form.password);
    assert FieldError(form, ConfirmField) == ConfirmError(form.password, form.confirmPassword);
  }

  /**
   * A form the client accepts passes the server's own field checks on
   * registration: none is missing and the password is long enough, so the
   * server can only answer with success or a taken email or a failed save,
   * and a free email under a fresh id is registered.
   */
  lemma AcceptedFormPassesServerChecks(form: Form, accounts: UserRoutes.Accounts, newId: string, now: int)
    requires forall f :: FieldError(form, f).None?
    ensures var r := UserRoutes.Register(accounts, newId, Some(form.name), Some(form.email), Some(form.password), now).result;
      && (r.Ok? || r == Err(UserRoutes.EmailTaken) || r == Err(UserRoutes.RegisterFailed))
      && (UserRoutes.FindByEmail(accounts, Lower(form.email)).None? && UserRoutes.FindById(accounts, newId).None? ==> r.Ok?)
  {
    ValidIffEveryFieldPasses(form);
    assert form.name != "" by {
      assert |Trim(form.name)| <= |form.name|;
    }
    assert form.email != "" by {
      var i, j :| 0 < i < j < |form.email| && SplitsAt(form.email, i, j);
    }
    UserRoutes.RegisterChecksFields(accounts, newId, form.name, form.email, form.password, now);
  }

  /**
   * `handleInputChange`: the field takes the new value, and its shown error
   * (the message text `validateForm` stored), when it has one, is set to the
   * empty string.
   */
  function InputChange(form: Form, errors: map<Field, string>, f: Field, value: string)
    : (r: (Form, map<Field, string>))
    ensures Value(r.0, f) == value
    ensures forall g :: g != f ==> Value(r.0, g) == Value(form, g)
  {
    var form' := match f
      case NameField => form.(name := value)
      case EmailField => form.(email := value)
      case PasswordField => form.(password := value)
      case ConfirmField => form.(confirmPassword := value);
    if f in errors && errors[f] != "" then (form', errors[f := ""]) else (form', errors)
  }

  /**
   * After an edit the edited field shows no error (an absent or empty entry),
   * and every other field's entry is as it was.
   */
  lemma EditClearsOnlyThatField(form: Form, errors: map<Field, string>, f: Field, value: string)
    ensures var e := InputChange(form, errors, f, value).1;
      && (f !in e || e[f] == "")
      && (f in e <==> f in errors)
      && (forall g :: g != f ==> (g in e <==> g in errors) && (g in errors ==> e[g] == errors[g]))
  {
  }
}
