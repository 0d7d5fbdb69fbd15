/**
 * The request validators mounted before the register and login routes. Each runs
 * its checks in a fixed order and answers 400 on the first that fails, with the
 * same text as `error` and `message`; otherwise it hands the request on.
 */
module Validators {
  import opened Wrappers
  import opened Decimal
  import opened Js

  /** The body fields the validators read. */
  datatype Body = Body(email: JsValue, password: JsValue, name: JsValue)

  /** Hand the request on (`next()`), or answer it with a status and an `{error, message}` body. */
  datatype Verdict = Pass | Reject(status: nat, error: string, message: string)

  const InvalidEmail: string := "Email invalide"
  const ShortPassword: string := "Mot de passe \U{2265} 8 caract\U{e8}res"
  const NameRequired: string := "Nom requis"
  const CredentialsRequired: string := "Email et mot de passe requis"
  const MinPasswordLength: nat := 8

  function BadRequest(message: string): Verdict
  {
    Reject(400, message, message)
  }

  /** `req.body || {}`: a missing body reads as an object with no fields. */
  function FieldsOf(body: Option<Body>): Body
  {
    body.GetOr(Body(Undefined, Undefined, Undefined))
  }

  // ---------------------------------------------------------------------------
  // The email pattern ^\S+@\S+\.\S+$

  predicate NoWhitespace(s: string)
  {
    forall i :: 0 <= i < |s| ==> !IsWhitespace(s[i])
  }

  /**
   * The strings the pattern describes: no whitespace at all, and an '@' and a
   * later '.' such that some character precedes the '@', some lies between the
   * two, and some follows the '.'.
   */
  ghost predicate EmailShape(s: string)
  {
    && NoWhitespace(s)
    && exists i, j :: 1 <= i && i + 2 <= j && j + 2 <= |s| && s[i] == '@' && s[j] == '.'
  }

  /** First index at or after `from` where `s` holds `c`. */
  function FirstFrom(s: string, c: char, from: nat): (r: Option<nat>)
    ensures r.Some? ==> from <= r.value < |s| && s[r.value] == c
    ensures r.Some? ==> forall k :: from <= k < r.value ==> s[k] != c
    ensures r.None? ==> forall k :: from <= k < |s| ==> s[k] != c
    decreases |s| - from
  {
    if from >= |s| then None
    else if s[from] == c then Some(from)
    else FirstFrom(s, c, from + 1)
  }

  /** Last index before `bound` where `s` holds `c`. */
  function LastBefore(s: string, c: char, bound: nat): (r: Option<nat>)
    requires bound <= |s|
    ensures r.Some? ==> r.value < bound && s[r.value] == c
    ensures r.Some? ==> forall k :: r.value < k < bound ==> s[k] != c
    ensures r.None? ==> forall k :: 0 <= k < bound ==> s[k] != c
    decreases bound
  {
    if bound == 0 then None
    else if s[bound - 1] == c then Some(bound - 1)
    else LastBefore(s, c, bound - 1)
  }

  /**
   * `/^\S+@\S+\.\S+$/.test(s)`: the earliest usable '@' and the latest usable '.'
   * leave room for a character between them.
   */
  predicate EmailMatches(s: string)
  {
    && NoWhitespace(s)
    && |s| >= 1
    && match (FirstFrom(s, '@', 1), LastBefore(s, '.', |s| - 1))
       case (Some(i), Some(j)) => i + 2 <= j
       case _ => false
  }

  /** The matcher accepts exactly the strings of the pattern's shape. */
  lemma EmailMatchesShape(s: string)
    ensures EmailMatches(s) <==> EmailShape(s)
  {
    if EmailMatches(s) {
      var i := FirstFrom(s, '@', 1).value;
      var j := LastBefore(s, '.', |s| - 1).value;
      assert 1 <= i && i + 2 <= j && j + 2 <= |s| && s[i] == '@' && s[j] == '.';
    }
    if EmailShape(s) {
      var i, j :| 1 <= i && i + 2 <= j && j + 2 <= |s| && s[i] == '@' && s[j] == '.';
      assert FirstFrom(s, '@', 1).Some? && FirstFrom(s, '@', 1).value <= i;
      assert LastBefore(s, '.', |s| - 1).Some? && LastBefore(s, '.', |s| - 1).value >= j;
    }
  }

  /** Only a string can match: `String(v)` of a number or a boolean holds no '@'. */
  lemma OnlyStringsMatch(v: JsValue)
    requires EmailMatches(ToJsString(v))
    ensures v.Str?
  {
    var s := ToJsString(v);
    var i := FirstFrom(s, '@', 1).value;
    assert s[i] == '@';
  }

  // ---------------------------------------------------------------------------
  // The checks, each stated on the field as JavaScript sees it.

  /** The email check passes: a truthy value whose `String(v)` matches the pattern. */
  predicate EmailOk(v: JsValue)
  {
    Truthy(v) && EmailMatches(ToJsString(v))
  }

  /** `password.length` in JavaScript: a string's UTF-16 length, `undefined` for anything else. */
  function JsLength(v: JsValue): Option<nat>
  {
    if v.Str? then Some(Utf16Length(v.s)) else None
  }

  /**
   * The password check as the source writes it, `!password || password.length < 8`:
   * a truthy number or boolean has no length, `undefined < 8` is false, so it passes.
   */
  predicate PasswordOkAsWritten(v: JsValue)
  {
    Truthy(v) && !(JsLength(v).Some? && JsLength(v).value < MinPasswordLength)
  }

  /** The password check as evidently meant: a string of at least 8 characters. */
  predicate PasswordOk(v: JsValue)
  {
    v.Str? && Utf16Length(v.s) >= MinPasswordLength
  }

  /** `!(!name || typeof name !== 'string' || !name.trim())`: a string that is not blank. */
  predicate NameOk(v: JsValue)
  {
    Truthy(v) && v.Str? && Trim(v.s) != ""
  }

  /** `validateRegister` exactly as written (see Findings in the README). */
  function ValidateRegisterAsWritten(body: Option<Body>): (r: Verdict)
    ensures r.Reject? ==> r.status == 400 && r.error == r.message
    ensures r == BadRequest(InvalidEmail) <==> !EmailOk(FieldsOf(body).email)
    ensures r == BadRequest(ShortPassword) <==> (EmailOk(FieldsOf(body).email)
                                                 && !PasswordOkAsWritten(FieldsOf(body).password))
    ensures r == BadRequest(NameRequired) <==> (EmailOk(FieldsOf(body).email)
                                                && PasswordOkAsWritten(FieldsOf(body).password)
                                                && !NameOk(FieldsOf(body).name))
    ensures r.Pass? <==> (EmailOk(FieldsOf(body).email) && PasswordOkAsWritten(FieldsOf(body).password)
                          && NameOk(FieldsOf(body).name))
  {
    var b := FieldsOf(body);
    if !Truthy(b.email) || !EmailMatches(ToJsString(b.email)) then BadRequest(InvalidEmail)
    else if !Truthy(b.password) || (JsLength(b.password).Some? && JsLength(b.password).value < MinPasswordLength) then
      BadRequest(ShortPassword)
    else if !Truthy(b.name) || !b.name.Str? || Trim(b.name.s) == "" then BadRequest(NameRequired)
    else Pass
  }

  /**
   * `validateRegister` with the password check corrected: email first, then
   * password, then name, and only the first failure is reported.
   */
  function ValidateRegister(body: Option<Body>): (r: Verdict)
    ensures r.Reject? ==> r.status == 400 && r.error == r.message
    ensures r == BadRequest(InvalidEmail) <==> (!Truthy(FieldsOf(body).email)
                                                || !EmailShape(ToJsString(FieldsOf(body).email)))
    ensures r == BadRequest(ShortPassword) <==> EmailOk(FieldsOf(body).email) && !PasswordOk(FieldsOf(body).password)
    ensures r == BadRequest(NameRequired) <==> (EmailOk(FieldsOf(body).email) && PasswordOk(FieldsOf(body).password)
                                                && !NameOk(FieldsOf(body).name))
    ensures r.Pass? <==> (EmailOk(FieldsOf(body).email) && PasswordOk(FieldsOf(body).password)
                          && NameOk(FieldsOf(body).name))
    ensures r.Pass? ==> FieldsOf(body).email.Str? && FieldsOf(body).password.Str? && FieldsOf(body).name.Str?
    ensures r.Pass? ==> EmailShape(FieldsOf(body).email.s) && Utf16Length(FieldsOf(body).password.s) >= 8
                        && Trim(FieldsOf(body).name.s) != ""
  {
    var b := FieldsOf(body);
    EmailMatchesShape(ToJsString(b.email));
    if !Truthy(b.email) || !EmailMatches(ToJsString(b.email)) then BadRequest(InvalidEmail)
    else
      OnlyStringsMatch(b.email);
      if !PasswordOk(b.password) then BadRequest(ShortPassword)
      else if !NameOk(b.name) then BadRequest(NameRequired)
      else Pass
  }

  /** `validateLogin`: both fields present and non-empty, with no format or length check. */
  function ValidateLogin(body: Option<Body>): (r: Verdict)
    ensures r.Pass? <==> Truthy(FieldsOf(body).email) && Truthy(FieldsOf(body).password)
    ensures r.Reject? ==> r == BadRequest(CredentialsRequired)
  {
    var b := FieldsOf(body);
    if !Truthy(b.email) || !Truthy(b.password) then BadRequest(CredentialsRequired) else Pass
  }

  // ---------------------------------------------------------------------------

  /** A request with no body is refused by both validators, the register one on its first check. */
  lemma MissingBodyRejected()
    ensures ValidateRegister(None) == BadRequest(InvalidEmail)
    ensures ValidateRegisterAsWritten(None) == BadRequest(InvalidEmail)
    ensures ValidateLogin(None) == BadRequest(CredentialsRequired)
  {
  }

  /** Every body the register validator lets through also passes the login validator. */
  lemma RegisterStricterThanLogin(body: Option<Body>)
    ensures ValidateRegister(body).Pass? ==> ValidateLogin(body).Pass?
    ensures ValidateRegisterAsWritten(body).Pass? ==> ValidateLogin(body).Pass?
  {
  }

  /** The corrected validator passes strictly fewer bodies than the written one. */
  lemma CorrectionOnlyNarrows(body: Option<Body>)
    ensures ValidateRegister(body).Pass? ==> ValidateRegisterAsWritten(body).Pass?
  {
    var b := FieldsOf(body);
    EmailMatchesShape(ToJsString(b.email));
  }

  /** "a@b.c" has the email shape: '@' at 1 and '.' at 3. */
  lemma SampleEmailMatches()
    ensures EmailMatches("a@b.c")
  {
    var s := "a@b.c";
    assert 1 <= 1 && 1 + 2 <= 3 && 3 + 2 <= |s| && s[1] == '@' && s[3] == '.';
    assert NoWhitespace(s);
    EmailMatchesShape(s);
  }

  /** "Ben" is a valid name: trimming leaves it as it is. */
  lemma SampleNameOk()
    ensures NameOk(Str("Ben"))
  {
    assert !IsWhitespace("Ben"[0]);
  }

  /**
   * The written check lets any non-zero number through as a password:
   * `(1).length` is undefined and `undefined < 8` is false. The corrected one
   * refuses it.
   */
  lemma NumericPasswordPassesAsWritten(b: Body)
    requires EmailOk(b.email) && NameOk(b.name)
    requires b.password.Num? && b.password.n != 0
    ensures ValidateRegisterAsWritten(Some(b)) == Pass
    ensures ValidateRegister(Some(b)) == BadRequest(ShortPassword)
  {
    assert FieldsOf(Some(b)) == b;
  }
}
