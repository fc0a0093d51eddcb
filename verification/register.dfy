/** The sign-up form: the password requirements and the strength meter
    built from them, the form validation and field edits. */
module Register {
  import opened Seqs
  import opened Text
  import opened FormErrors

  datatype RegisterForm = RegisterForm(
    email: string,
    password: string,
    confirmPassword: string,
    agreedToTerms: bool,
    emailNotifications: bool)

  const EmptyForm := RegisterForm("", "", "", false, true)

  // ----- password requirements -----

  predicate IsUpper(c: char) { 'A' <= c <= 'Z' }
  predicate IsAlnum(c: char) { 'A' <= c <= 'Z' || 'a' <= c <= 'z' || '0' <= c <= '9' }

  /** `/[A-Z]/`, `/[0-9]/` and `/[^A-Za-z0-9]/` matched against the password. */
  predicate HasUpper(p: string) { exists i | 0 <= i < |p| :: IsUpper(p[i]) }
  predicate HasDigit(p: string) { exists i | 0 <= i < |p| :: IsDigit(p[i]) }
  predicate HasSpecial(p: string) { exists i | 0 <= i < |p| :: !IsAlnum(p[i]) }

  datatype Requirement = Requirement(text: string, met: bool)

  /** `getPasswordRequirements`: the four criteria, in display order. */
  function Requirements(p: string): (rs: seq<Requirement>)
    ensures |rs| == 4
    ensures rs[0].met == (|p| >= 8) && rs[1].met == HasUpper(p)
    ensures rs[2].met == HasDigit(p) && rs[3].met == HasSpecial(p)
  {
    [ Requirement("At least 8 characters", |p| >= 8),
      Requirement("One uppercase letter", HasUpper(p)),
      Requirement("One number", HasDigit(p)),
      Requirement("One special character", HasSpecial(p)) ]
  }

  function Points(b: bool): nat { if b then 25 else 0 }

  /** `getPasswordStrength`: 25 points per criterion met. */
  function Strength(p: string): (s: nat)
    ensures s % 25 == 0 && s <= 100
    ensures s == 100 <==> |p| >= 8 && HasUpper(p) && HasDigit(p) && HasSpecial(p)
    ensures s == 0 <==> |p| < 8 && !HasUpper(p) && !HasDigit(p) && !HasSpecial(p)
  {
    Points(|p| >= 8) + Points(HasUpper(p)) + Points(HasDigit(p)) + Points(HasSpecial(p))
  }

  predicate Met(r: Requirement) { r.met }

  /** The meter and the checklist agree: the strength is 25 times the
      number of requirements shown as met. */
  lemma StrengthCountsRequirements(p: string)
    ensures Strength(p) == 25 * Count(Requirements(p), Met)
  {
    var rs := Requirements(p);
    assert rs == [rs[0]] + [rs[1]] + [rs[2]] + [rs[3]];
    CountConcat([rs[0]] + [rs[1]] + [rs[2]], [rs[3]], Met);
    CountConcat([rs[0]] + [rs[1]], [rs[2]], Met);
    CountConcat([rs[0]], [rs[1]], Met);
  }

  /** Every letter is alphanumeric and so is every digit, so a password
      of letters and digits only is never rated strong. */
  lemma AlnumPasswordNotStrong(p: string)
    requires forall i | 0 <= i < |p| :: IsAlnum(p[i])
    ensures Strength(p) < 100
  {
  }

  datatype StrengthLabel = Weak | Fair | Good | Strong

  /** The word beside the meter. */
  function LabelOf(strength: nat): (l: StrengthLabel)
    ensures l == Strong <==> strength == 100
    ensures l == Good <==> strength != 100 && strength >= 75
    ensures l == Fair <==> 50 <= strength < 75
    ensures l == Weak <==> strength < 50
  {
    if strength == 100 then Strong else if strength >= 75 then Good else if strength >= 50 then Fair else Weak
  }

  /** On the values the meter can take, each label is one number of met
      requirements: Strong four, Good three, Fair two, Weak one or none. */
  lemma LabelByRequirementsMet(p: string)
    ensures var n := Count(Requirements(p), Met);
      && (LabelOf(Strength(p)) == Strong <==> n == 4)
      && (LabelOf(Strength(p)) == Good <==> n == 3)
      && (LabelOf(Strength(p)) == Fair <==> n == 2)
      && (LabelOf(Strength(p)) == Weak <==> n <= 1)
  {
    StrengthCountsRequirements(p);
  }

  // ----- validation -----

  /** `validateForm`: the errors of the four checked fields. */
  function Validate(f: RegisterForm): (e: Errors)
    ensures Shows(e, "email", EmailError(f.email)) && Shows(e, "password", PasswordError(f.password))
    ensures Shows(e, "confirmPassword", ConfirmError(f.password, f.confirmPassword))
    ensures Shows(e, "agreedToTerms", TermsError(f.agreedToTerms))
    ensures "email" in e <==> !LooksLikeEmail(f.email)
    ensures "password" in e <==> Strength(f.password) < 100
    ensures "confirmPassword" in e <==> f.confirmPassword == "" || f.password != f.confirmPassword
    ensures "agreedToTerms" in e <==> !f.agreedToTerms
    ensures e.Keys <= {"email", "password", "confirmPassword", "agreedToTerms"}
    ensures f.password == "" ==> "password" in e && e["password"] == "Password is required"
    ensures f.confirmPassword == "" ==> "confirmPassword" in e && e["confirmPassword"] == "Please confirm your password"
    ensures "email" in e ==> e["email"] == EmailError(f.email)
    ensures f.email == "" ==> e["email"] == "Email is required"
    ensures f.password != "" && Strength(f.password) < 100 ==>
      e["password"] == "Password must meet all requirements"
    ensures f.confirmPassword != "" && f.password != f.confirmPassword ==>
      e["confirmPassword"] == "Passwords do not match"
    ensures !f.agreedToTerms ==> e["agreedToTerms"] == "You must agree to the Terms of Service"
  {
    var em, pm := EmailError(f.email), PasswordError(f.password);
    var cm, tm := ConfirmError(f.password, f.confirmPassword), TermsError(f.agreedToTerms);
    FourFieldsShow("email", em, "password", pm, "confirmPassword", cm, "agreedToTerms", tm);
    WithError(WithError(WithError(WithError(map[], "email", em), "password", pm),
      "confirmPassword", cm), "agreedToTerms", tm)
  }

  /** The password field's message; empty when all four requirements are met. */
  function PasswordError(password: string): (m: string)
    ensures m == "" <==> Strength(password) == 100
    ensures password == "" ==> m == "Password is required"
    ensures password != "" && Strength(password) < 100 ==> m == "Password must meet all requirements"
  {
    if password == "" then "Password is required"
    else if Strength(password) < 100 then "Password must meet all requirements"
    else ""
  }

  /** The confirmation field's message; empty when it repeats the password. */
  function ConfirmError(password: string, confirm: string): (m: string)
    ensures m == "" <==> confirm != "" && password == confirm
    ensures confirm == "" ==> m == "Please confirm your password"
    ensures confirm != "" && password != confirm ==> m == "Passwords do not match"
  {
    if confirm == "" then "Please confirm your password"
    else if password != confirm then "Passwords do not match"
    else ""
  }

  /** The terms checkbox's message; empty when it is ticked. */
  function TermsError(agreed: bool): (m: string)
    ensures m == "" <==> agreed
    ensures !agreed ==> m == "You must agree to the Terms of Service"
  {
    if !agreed then "You must agree to the Terms of Service" else ""
  }

  /** `validateForm`'s answer: no field has an error. */
  predicate IsValid(f: RegisterForm) {
    |Validate(f)| == 0
  }

  /** The form is accepted exactly when the email passes the test, the
      password meets all four requirements, the confirmation repeats it
      and the terms are accepted. */
  lemma ValidIff(f: RegisterForm)
    ensures IsValid(f) <==>
      LooksLikeEmail(f.email) && Strength(f.password) == 100
      && f.confirmPassword == f.password && f.agreedToTerms
  {
    var e := Validate(f);
    if |e| == 0 {
      assert "email" !in e && "password" !in e && "confirmPassword" !in e && "agreedToTerms" !in e;
      assert f.password != "";
    } else {
      var k :| k in e;
    }
  }

  // ----- editing -----

  /** An edit names one field and carries its new value. */
  datatype Change =
    | SetEmail(email: string)
    | SetPassword(password: string)
    | SetConfirmPassword(confirmPassword: string)
    | SetAgreedToTerms(agreed: bool)
    | SetEmailNotifications(notify: bool)

  function FieldName(c: Change): string {
    match c
    case SetEmail(_) => "email"
    case SetPassword(_) => "password"
    case SetConfirmPassword(_) => "confirmPassword"
    case SetAgreedToTerms(_) => "agreedToTerms"
    case SetEmailNotifications(_) => "emailNotifications"
  }

  function Apply(f: RegisterForm, c: Change): RegisterForm {
    match c
    case SetEmail(v) => f.(email := v)
    case SetPassword(v) => f.(password := v)
    case SetConfirmPassword(v) => f.(confirmPassword := v)
    case SetAgreedToTerms(v) => f.(agreedToTerms := v)
    case SetEmailNotifications(v) => f.(emailNotifications := v)
  }

  /** `handleChange`: the named field takes the value, the other fields
      keep theirs, and only that field's error is blanked. */
  function HandleChange(f: RegisterForm, errors: Errors, c: Change): (r: (RegisterForm, Errors))
    ensures c.SetEmail? ==> r.0 == f.(email := c.email)
    ensures c.SetPassword? ==> r.0 == f.(password := c.password)
    ensures c.SetConfirmPassword? ==> r.0 == f.(confirmPassword := c.confirmPassword)
    ensures c.SetAgreedToTerms? ==> r.0 == f.(agreedToTerms := c.agreed)
    ensures c.SetEmailNotifications? ==> r.0 == f.(emailNotifications := c.notify)
    ensures r.1.Keys == errors.Keys
    ensures FieldName(c) in errors ==> r.1[FieldName(c)] == ""
    ensures forall k | k in errors && k != FieldName(c) :: r.1[k] == errors[k]
  {
    (Apply(f, c), ClearFieldError(errors, FieldName(c)))
  }

  /** Edits to different fields commute. */
  lemma ChangesCommute(f: RegisterForm, errors: Errors, a: Change, b: Change)
    requires FieldName(a) != FieldName(b)
    ensures var (f1, e1) := HandleChange(f, errors, a);
      var (f2, e2) := HandleChange(f, errors, b);
      HandleChange(f1, e1, b) == HandleChange(f2, e2, a)
  {
    ClearFieldErrorCommutes(errors, FieldName(a), FieldName(b));
    ApplyCommutes(f, a, b);
  }

  lemma ApplyCommutes(f: RegisterForm, a: Change, b: Change)
    requires FieldName(a) != FieldName(b)
    ensures Apply(Apply(f, a), b) == Apply(Apply(f, b), a)
  {
  }
}
