/** What the sign-up and sign-in forms share: the per-field error map
    and its email check, and how typing into a field clears that
    field's error. */
module FormErrors {
  import opened Text

  /** Field name to error text; an empty text shows no error. */
  type Errors = map<string, string>

  /** The email field's error: required when empty, invalid unless the
      `\S+@\S+\.\S+` test passes. */
  function EmailError(email: string): (e: string)
    ensures email == "" ==> e == "Email is required"
    ensures email != "" && !LooksLikeEmail(email) ==> e == "Please enter a valid email address"
    ensures e == "" <==> LooksLikeEmail(email)
  {
    if email == "" then "Email is required"
    else if !LooksLikeEmail(email) then "Please enter a valid email address"
    else ""
  }

  /** `field` carries an error exactly when `message` is not empty, and
      then the error is `message`. */
  predicate Shows(errors: Errors, field: string, message: string) {
    && (field in errors <==> message != "")
    && (field in errors ==> errors[field] == message)
  }

  /** Records `message` under `field` when it is not empty. */
  function WithError(errors: Errors, field: string, message: string): (r: Errors)
    ensures message == "" ==> r == errors
    ensures message != "" ==> r == errors[field := message]
    ensures field !in errors || message != "" ==> Shows(r, field, message)
    ensures forall k | k in r :: k in errors || k == field
  {
    if message == "" then errors else errors[field := message]
  }

  /** Recording four different fields, starting from no errors, leaves
      each field showing its own message and no other field in the map. */
  lemma FourFieldsShow(k1: string, m1: string, k2: string, m2: string,
                       k3: string, m3: string, k4: string, m4: string)
    requires k1 != k2 && k1 != k3 && k1 != k4 && k2 != k3 && k2 != k4 && k3 != k4
    ensures var e := WithError(WithError(WithError(WithError(map[], k1, m1), k2, m2), k3, m3), k4, m4);
      && Shows(e, k1, m1) && Shows(e, k2, m2) && Shows(e, k3, m3) && Shows(e, k4, m4)
      && e.Keys <= {k1, k2, k3, k4}
  {
    var e1 := WithError(map[], k1, m1);
    var e2 := WithError(e1, k2, m2);
    var e3 := WithError(e2, k3, m3);
    WithErrorKeeps(e1, k2, m2, k1, m1);
    WithErrorKeeps(e2, k3, m3, k1, m1);
    WithErrorKeeps(e2, k3, m3, k2, m2);
    WithErrorKeeps(e3, k4, m4, k1, m1);
    WithErrorKeeps(e3, k4, m4, k2, m2);
    WithErrorKeeps(e3, k4, m4, k3, m3);
  }

  /** Recording one field leaves what another field shows as it was. */
  lemma WithErrorKeeps(errors: Errors, field: string, message: string, other: string, shown: string)
    requires other != field && Shows(errors, other, shown)
    ensures Shows(WithError(errors, field, message), other, shown)
  {
  }

  /** The error clearing of `handleChange`: a shown error on the edited
      field is blanked (the key stays); nothing else changes. */
  function ClearFieldError(errors: Errors, field: string): (r: Errors)
    ensures r.Keys == errors.Keys
    ensures field in errors ==> r[field] == ""
    ensures forall k | k in errors && k != field :: r[k] == errors[k]
  {
    if field in errors && errors[field] != "" then errors[field := ""] else errors
  }

  /** Clearing two different fields in either order gives the same map. */
  lemma ClearFieldErrorCommutes(errors: Errors, a: string, b: string)
    ensures ClearFieldError(ClearFieldError(errors, a), b) == ClearFieldError(ClearFieldError(errors, b), a)
  {
    var x := ClearFieldError(ClearFieldError(errors, a), b);
    var y := ClearFieldError(ClearFieldError(errors, b), a);
    assert x.Keys == y.Keys;
    assert forall k | k in x :: x[k] == y[k];
  }

  /** Clearing twice is clearing once. */
  lemma ClearFieldErrorIdempotent(errors: Errors, field: string)
    ensures ClearFieldError(ClearFieldError(errors, field), field) == ClearFieldError(errors, field)
  {
  }
}
