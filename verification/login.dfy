/** The sign-in form: validation and field edits. */
module Login {
  import opened Text
  import opened FormErrors

  datatype LoginForm = LoginForm(email: string, password: string, rememberMe: bool)

  const EmptyForm := LoginForm("", "", false)

  /** The minimum password length the form asks for. */
  const MinPasswordLength: nat := 8

  /** `validateForm`: the errors of the email and password fields. */
  function Validate(f: LoginForm): (e: Errors)
    ensures "email" in e <==> !LooksLikeEmail(f.email)
    ensures "password" in e <==> |f.password| < MinPasswordLength
    ensures e.Keys <= {"email", "password"}
    ensures "email" in e ==> e["email"] == EmailError(f.email)
    ensures f.email == "" ==> e["email"] == "Email is required"
    ensures f.password == "" ==> e["password"] == "Password is required"
    ensures 0 < |f.password| < MinPasswordLength ==> e["password"] == "Password must be at least 8 characters"
  {
    var e0: Errors := map[];
    var e1 := WithError(e0, "email", EmailError(f.email));
    WithError(e1, "password",
      if f.password == "" then "Password is required"
      else if |f.password| < MinPasswordLength then "Password must be at least 8 characters"
      else "")
  }

  predicate IsValid(f: LoginForm) {
    |Validate(f)| == 0
  }

  /** Sign-in is attempted exactly when the email passes the test and
      the password has at least eight characters. */
  lemma ValidIff(f: LoginForm)
    ensures IsValid(f) <==> LooksLikeEmail(f.email) && |f.password| >= MinPasswordLength
  {
    var e := Validate(f);
    if |e| != 0 {
      var k :| k in e;
    }
  }

  datatype Change = SetEmail(email: string) | SetPassword(password: string) | SetRememberMe(remember: bool)

  function FieldName(c: Change): string {
    match c
    case SetEmail(_) => "email"
    case SetPassword(_) => "password"
    case SetRememberMe(_) => "rememberMe"
  }

  /** `handleChange`: the named field takes the value and only its error
      is blanked. */
  function HandleChange(f: LoginForm, errors: Errors, c: Change): (r: (LoginForm, Errors))
    ensures c.SetEmail? ==> r.0 == f.(email := c.email)
    ensures c.SetPassword? ==> r.0 == f.(password := c.password)
    ensures c.SetRememberMe? ==> r.0 == f.(rememberMe := c.remember)
    ensures r.1.Keys == errors.Keys
    ensures FieldName(c) in errors ==> r.1[FieldName(c)] == ""
    ensures forall k | k in errors && k != FieldName(c) :: r.1[k] == errors[k]
  {
    var g := match c
      case SetEmail(v) => f.(email := v)
      case SetPassword(v) => f.(password := v)
      case SetRememberMe(v) => f.(rememberMe := v);
    (g, ClearFieldError(errors, FieldName(c)))
  }
}
