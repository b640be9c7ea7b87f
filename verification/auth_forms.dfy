/** Client-side validation of the sign-up and sign-in forms
    (frontend/src/pages/Register.js and Login.js). Each page keeps the
    typed fields and the shown errors as state; `validateForm` builds the
    error object field by field, and `handleSubmit` calls the auth context
    only when no error was recorded. */
module AuthForms {
  import opened Strings
  import opened FileModel

  datatype Field = Name | Email | Password | ConfirmPassword

  const NameRequired: string := "Name is required"
  const EmailRequired: string := "Email is required"
  const EmailInvalid: string := "Email is invalid"
  const PasswordRequired: string := "Password is required"
  const PasswordTooShort: string := "Password must be at least 6 characters"
  const PasswordsDiffer: string := "Passwords do not match"
  const MinPasswordLength: nat := 6

  /** An unanchored match of the pattern `\S+@\S+\.\S+` with the '@' at
      `at` and the '.' at `dot`: the shortest non-space runs suffice on the
      outside, and the run between them must be one or more non-space
      characters. */
  predicate EmailAt(s: string, at: int, dot: int) {
    0 < at && at + 1 < dot && dot + 1 < |s|
    && s[at] == '@' && s[dot] == '.'
    && !IsSpace(s[at - 1]) && !IsSpace(s[dot + 1])
    && forall k | at < k < dot :: !IsSpace(s[k])
  }

  /** `/\S+@\S+\.\S+/.test(s)` */
  predicate EmailLike(s: string) {
    exists at, dot | 0 <= at < |s| && 0 <= dot < |s| :: EmailAt(s, at, dot)
  }

  /** The pattern is not anchored: text around a match does not matter. */
  lemma EmailLikeUnanchored(before: string, s: string, after: string)
    requires EmailLike(s)
    ensures EmailLike(before + s + after)
  {
    var at, dot :| 0 <= at < |s| && 0 <= dot < |s| && EmailAt(s, at, dot);
    var t := before + s + after;
    var n := |before|;
    assert t[at + n] == s[at] && t[at + n - 1] == s[at - 1];
    assert t[dot + n] == s[dot] && t[dot + n + 1] == s[dot + 1];
    forall k | at + n < k < dot + n
      ensures !IsSpace(t[k])
    {
      assert t[k] == s[k - n];
    }
    assert EmailAt(t, at + n, dot + n);
  }

  /** The pattern needs a non-space character before the '@' and a dot with
      something after it: "@b.c" and "a@b" are rejected, while a string
      with spaces around an address is accepted. */
  lemma EmailExamples()
    ensures EmailLike("a@b.c")
    ensures !EmailLike("@b.c")
    ensures !EmailLike("a@b")
    ensures EmailLike("not an email: a@b.c!")
  {
    assert EmailAt("a@b.c", 1, 3);
    EmailLikeUnanchored("not an email: ", "a@b.c", "!");
    assert "not an email: " + "a@b.c" + "!" == "not an email: a@b.c!";
  }

  datatype RegisterForm = RegisterForm(name: string, email: string, password: string, confirmPassword: string)
  {
    /** `{...formData, [field]: value}` */
    function With(field: Field, value: string): RegisterForm {
      match field
      case Name => this.(name := value)
      case Email => this.(email := value)
      case Password => this.(password := value)
      case ConfirmPassword => this.(confirmPassword := value)
    }
  }

  datatype Registration = Registration(name: string, email: string, password: string)

  /** The email rule both pages share: required first, then the pattern. */
  function EmailError(email: string): (e: Option<string>)
    ensures e.None? <==> EmailLike(email)
    ensures e == Some(EmailRequired) <==> email == ""
    ensures e == Some(EmailInvalid) <==> email != "" && !EmailLike(email)
  {
    if email == "" then Some(EmailRequired)
    else if !EmailLike(email) then Some(EmailInvalid)
    else None
  }

  /** The errors `validateForm` of the sign-up page records: each rule
      records its own field's error. The password's length is its `.length`,
      in UTF-16 code units. */
  function RegisterErrors(form: RegisterForm): (errors: map<Field, string>)
    ensures Name in errors <==> form.name == ""
    ensures Name in errors ==> errors[Name] == NameRequired
    ensures Email in errors <==> !EmailLike(form.email)
    ensures Email in errors ==> errors[Email] == (if form.email == "" then EmailRequired else EmailInvalid)
    ensures Password in errors <==> Utf16Length(form.password) < MinPasswordLength
    ensures Password in errors ==> errors[Password] == (if form.password == "" then PasswordRequired else PasswordTooShort)
    ensures ConfirmPassword in errors <==> form.password != form.confirmPassword
    ensures ConfirmPassword in errors ==> errors[ConfirmPassword] == PasswordsDiffer
    ensures errors == map[] <==>
      (form.name != "" && EmailLike(form.email)
       && Utf16Length(form.password) >= MinPasswordLength && form.password == form.confirmPassword)
  {
    var named := if form.name == "" then map[Name := NameRequired] else map[];
    var emailed := if !EmailLike(form.email) then named[Email := EmailError(form.email).value] else named;
    var checked :=
      if form.password == "" then emailed[Password := PasswordRequired]
      else if Utf16Length(form.password) < MinPasswordLength then emailed[Password := PasswordTooShort]
      else emailed;
    if form.password != form.confirmPassword then checked[ConfirmPassword := PasswordsDiffer] else checked
  }

  /** `.length` counts UTF-16 code units: a password of three emoji is six
      units long and meets the length rule, although it has three
      characters. */
  lemma AstralPasswordLongEnough(form: RegisterForm)
    requires |form.password| == 3 && forall i | 0 <= i < 3 :: Astral(form.password[i])
    ensures Password !in RegisterErrors(form)
  {
    Utf16LengthOfAstral(form.password);
  }

  /** `validateForm` of the sign-up page: it builds the errors rule by rule,
      and the form is valid exactly when none was recorded. */
  method ValidateRegister(form: RegisterForm) returns (errors: map<Field, string>, valid: bool)
    ensures errors == RegisterErrors(form)
    ensures valid <==> errors == map[]
  {
    errors := map[];
    if form.name == "" {
      errors := errors[Name := NameRequired];
    }
    var emailError := EmailError(form.email);
    if emailError.Some? {
      errors := errors[Email := emailError.value];
    }
    if form.password == "" {
      errors := errors[Password := PasswordRequired];
    } else if Utf16Length(form.password) < MinPasswordLength {
      errors := errors[Password := PasswordTooShort];
    }
    if form.password != form.confirmPassword {
      errors := errors[ConfirmPassword := PasswordsDiffer];
    }
    valid := |errors| == 0;
  }

  datatype LoginForm = LoginForm(email: string, password: string)
  {
    function With(field: Field, value: string): LoginForm {
      match field
      case Email => this.(email := value)
      case Password => this.(password := value)
      case _ => this
    }
  }

  /** The errors `validateForm` of the sign-in page records: the same email
      rule, and a password that is only required, with no length rule. */
  function LoginErrors(form: LoginForm): (errors: map<Field, string>)
    ensures errors.Keys <= {Email, Password}
    ensures Email in errors <==> !EmailLike(form.email)
    ensures Email in errors ==> errors[Email] == (if form.email == "" then EmailRequired else EmailInvalid)
    ensures Password in errors <==> form.password == ""
    ensures Password in errors ==> errors[Password] == PasswordRequired
    ensures errors == map[] <==> EmailLike(form.email) && form.password != ""
  {
    var emailed := if !EmailLike(form.email) then map[Email := EmailError(form.email).value] else map[];
    if form.password == "" then emailed[Password := PasswordRequired] else emailed
  }

  /** `validateForm` of the sign-in page. */
  method ValidateLogin(form: LoginForm) returns (errors: map<Field, string>, valid: bool)
    ensures errors == LoginErrors(form)
    ensures valid <==> errors == map[]
  {
    errors := map[];
    var emailError := EmailError(form.email);
    if emailError.Some? {
      errors := errors[Email := emailError.value];
    }
    if form.password == "" {
      errors := errors[Password := PasswordRequired];
    }
    valid := |errors| == 0;
  }

  /** `handleChange`: a shown error of the edited field becomes '', and the
      other fields' errors stay as they were. */
  function ClearedError(errors: map<Field, string>, field: Field): (r: map<Field, string>)
    ensures r.Keys == errors.Keys
    ensures forall g | g in r :: r[g] == if g == field then "" else errors[g]
  {
    if field in errors && errors[field] != "" then errors[field := ""] else errors
  }

  class RegisterPage {
    var formData: RegisterForm
    var formErrors: map<Field, string>

    constructor ()
      ensures formData == RegisterForm("", "", "", "") && formErrors == map[]
    {
      formData := RegisterForm("", "", "", "");
      formErrors := map[];
    }

    method HandleChange(field: Field, value: string)
      modifies this
      ensures formData == old(formData).With(field, value)
      ensures formErrors == ClearedError(old(formErrors), field)
    {
      formData := formData.With(field, value);
      formErrors := ClearedError(formErrors, field);
    }

    /** `register` is called, with the form's name, email and password,
        exactly when the form validates; the errors are shown either way. */
    method HandleSubmit() returns (request: Option<Registration>)
      modifies this
      ensures formData == old(formData)
      ensures formErrors == RegisterErrors(old(formData))
      ensures request.Some? <==> formErrors == map[]
      ensures request.Some? ==> request.value == Registration(formData.name, formData.email, formData.password)
      ensures request.Some? <==>
        (formData.name != "" && EmailLike(formData.email)
         && Utf16Length(formData.password) >= MinPasswordLength && formData.password == formData.confirmPassword)
    {
      var errors, valid := ValidateRegister(formData);
      formErrors := errors;
      if !valid {
        return None;
      }
      request := Some(Registration(formData.name, formData.email, formData.password));
    }
  }

  datatype Credentials = Credentials(email: string, password: string)

  class LoginPage {
    var formData: LoginForm
    var formErrors: map<Field, string>

    constructor ()
      ensures formData == LoginForm("", "") && formErrors == map[]
    {
      formData := LoginForm("", "");
      formErrors := map[];
    }

    method HandleChange(field: Field, value: string)
      modifies this
      ensures formData == old(formData).With(field, value)
      ensures formErrors == ClearedError(old(formErrors), field)
    {
      formData := formData.With(field, value);
      formErrors := ClearedError(formErrors, field);
    }

    /** `login` is called exactly when the form validates. */
    method HandleSubmit() returns (request: Option<Credentials>)
      modifies this
      ensures formData == old(formData)
      ensures formErrors == LoginErrors(old(formData))
      ensures request.Some? <==> formErrors == map[]
      ensures request.Some? <==> EmailLike(formData.email) && formData.password != ""
      ensures request.Some? ==> request.value == Credentials(formData.email, formData.password)
    {
      var errors, valid := ValidateLogin(formData);
      formErrors := errors;
      if !valid {
        return None;
      }
      request := Some(Credentials(formData.email, formData.password));
    }
  }
}
