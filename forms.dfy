/**
 * The WTForms forms of forms.py as predicates over the submitted strings.
 *
 * The `Email()` and `URL()` format checks and CSRF-token checking are library
 * code; their verdicts are inputs (`emailFormatOk`, `urlFormatOk`, `csrfOk`).
 */
module Forms {
  import Models

  const SignupUsernameMaxLength := 30
  const ImageUrlMaxLength := 255
  const PasswordMinLength := 6
  const PasswordMaxLength := 50

  /** The fields of the signup form, as submitted (an absent field is the empty string). */
  datatype SignupFields = SignupFields(username: string, email: string, imageUrl: string, password: string)

  /** `InputRequired()`: some non-empty raw input was submitted. */
  predicate InputRequired(raw: string)
  {
    |raw| > 0
  }

  /** `Length(min, max)`: the character count lies in the bounds; -1 means unbounded. */
  predicate Length(data: string, min: int, max: int)
  {
    min <= |data| && (max == -1 || |data| <= max)
  }

  /** Python's `str.isspace` for one character. */
  predicate IsSpace(c: char)
  {
    || '\t' <= c <= '\r' || '\U{1c}' <= c <= ' ' || c == '\U{85}' || c == '\U{a0}'
    || c == '\U{1680}' || '\U{2000}' <= c <= '\U{200a}' || c == '\U{2028}' || c == '\U{2029}'
    || c == '\U{202f}' || c == '\U{205f}' || c == '\U{3000}'
  }

  /** `Optional()` skips the remaining validators when the input is empty or only whitespace. */
  predicate Blank(raw: string)
  {
    forall k :: 0 <= k < |raw| ==> IsSpace(raw[k])
  }

  /** Every field of `SignupForm` passes its validator chain. */
  predicate SignupFormValid(f: SignupFields, emailFormatOk: bool, urlFormatOk: bool)
    ensures SignupFormValid(f, emailFormatOk, urlFormatOk) ==> |f.username| <= Models.UsernameMaxLength
  {
    && InputRequired(f.username) && Length(f.username, -1, SignupUsernameMaxLength)
    && InputRequired(f.email) && emailFormatOk
    && (Blank(f.imageUrl) || (Length(f.imageUrl, -1, ImageUrlMaxLength) && urlFormatOk))
    && InputRequired(f.password) && Length(f.password, PasswordMinLength, PasswordMaxLength)
  }

  /** Every field of `LoginForm` passes its validator chain. */
  predicate LoginFormValid(username: string, password: string)
    ensures LoginFormValid(username, password) ==> username != "" && password != ""
  {
    InputRequired(username) && InputRequired(password)
  }

  /** `validate_on_submit()`: a POST whose CSRF token and fields all validate. */
  predicate ValidateOnSubmit(isPost: bool, csrfOk: bool, fieldsValid: bool)
  {
    isPost && csrfOk && fieldsValid
  }

  /** `CSRFProtectForm().validate_on_submit()`: the form has no fields, so only the method and the token decide. */
  predicate CsrfFormValid(isPost: bool, csrfOk: bool)
    ensures CsrfFormValid(isPost, csrfOk) <==> isPost && csrfOk
  {
    ValidateOnSubmit(isPost, csrfOk, true)
  }

  /** The signup username is accepted exactly when it has 1 to 30 characters. */
  lemma SignupUsernameBounds(f: SignupFields, emailFormatOk: bool, urlFormatOk: bool)
    requires InputRequired(f.email) && emailFormatOk
    requires Blank(f.imageUrl) || (|f.imageUrl| <= ImageUrlMaxLength && urlFormatOk)
    requires PasswordMinLength <= |f.password| <= PasswordMaxLength
    ensures SignupFormValid(f, emailFormatOk, urlFormatOk) <==> 0 < |f.username| <= SignupUsernameMaxLength
  {
  }

  /** A signup email must be present and pass the `Email()` format check; nothing else bounds it. */
  lemma SignupEmailRule(f: SignupFields, emailFormatOk: bool, urlFormatOk: bool)
    requires 0 < |f.username| <= SignupUsernameMaxLength && PasswordMinLength <= |f.password| <= PasswordMaxLength
    requires Blank(f.imageUrl) || (|f.imageUrl| <= ImageUrlMaxLength && urlFormatOk)
    ensures SignupFormValid(f, emailFormatOk, urlFormatOk) <==> f.email != "" && emailFormatOk
  {
  }

  /** The signup password is accepted exactly when it has 6 to 50 characters. */
  lemma SignupPasswordBounds(f: SignupFields, emailFormatOk: bool, urlFormatOk: bool)
    requires 0 < |f.username| <= SignupUsernameMaxLength && InputRequired(f.email) && emailFormatOk
    requires Blank(f.imageUrl) || (|f.imageUrl| <= ImageUrlMaxLength && urlFormatOk)
    ensures SignupFormValid(f, emailFormatOk, urlFormatOk) <==> PasswordMinLength <= |f.password| <= PasswordMaxLength
  {
  }

  /** A blank image URL is accepted whatever the URL check says; a present one needs at most 255 characters. */
  lemma SignupImageUrlRule(f: SignupFields, emailFormatOk: bool, urlFormatOk: bool)
    requires 0 < |f.username| <= SignupUsernameMaxLength && InputRequired(f.email) && emailFormatOk
    requires PasswordMinLength <= |f.password| <= PasswordMaxLength
    ensures Blank(f.imageUrl) ==> SignupFormValid(f, emailFormatOk, urlFormatOk)
    ensures !Blank(f.imageUrl) ==>
      (SignupFormValid(f, emailFormatOk, urlFormatOk) <==> |f.imageUrl| <= ImageUrlMaxLength && urlFormatOk)
  {
  }

  /** The login form accepts any non-empty username and password, even a username too long for signup. */
  lemma LoginHasNoLengthBound(username: string, password: string)
    ensures LoginFormValid(username, password) <==> username != "" && password != ""
    ensures |username| > SignupUsernameMaxLength ==>
      forall e, i, p :: !SignupFormValid(SignupFields(username, e, i, p), true, true)
  {
  }
}
