/**
 * The login page of Login.jsx: a fixed-credential check that opens an OTP
 * stage, a six-digit OTP drawn at random, and a verify step that raises the
 * session's auth flag. `Math.random()` is an input `draw` in [0, 900000), the
 * one-second delay is collapsed, and `sessionStorage`/`navigate` become the
 * `isAuth` flag.
 */
module Login {
  import opened Wrappers

  const ValidEmail := "abishek.sathiyan.2002@gmail.com"
  const DefaultPassword := "defaultPassword123"
  const OtpBase := 100000
  const OtpSpan := 900000

  const InvalidEmail := "Invalid email address"
  const InvalidPassword := "Invalid password"
  const IncorrectOtp := "Incorrect OTP"

  /** `process.env.REACT_APP_VALID_PASSWORD || "defaultPassword123"`. */
  function ConfiguredPassword(env: Option<string>): (p: string)
    ensures env.Some? && env.value != "" ==> p == env.value
    ensures env.None? || env.value == "" ==> p == DefaultPassword
    ensures p != ""
  {
    if env.Some? && env.value != "" then env.value else DefaultPassword
  }

  // ------------------------------------------------------ decimal numerals

  predicate IsDigit(c: char)
  {
    '0' <= c <= '9'
  }

  predicate AllDigits(s: string)
  {
    forall i :: 0 <= i < |s| ==> IsDigit(s[i])
  }

  function DigitChar(d: nat): (c: char)
    requires d < 10
    ensures IsDigit(c) && c as int - '0' as int == d
  {
    ('0' as int + d) as char
  }

  /** `Number.prototype.toString()` for a non-negative integer. */
  function Decimal(n: nat): (s: string)
    ensures |s| >= 1 && AllDigits(s)
    ensures n > 0 ==> s[0] != '0'
  {
    if n < 10 then [DigitChar(n)] else Decimal(n / 10) + [DigitChar(n % 10)]
  }

  /** The value of a numeral, most significant digit first. */
  function ParseDecimal(s: string): nat
    requires AllDigits(s)
  {
    if |s| == 0 then 0
    else ParseDecimal(s[..|s| - 1]) * 10 + (s[|s| - 1] as int - '0' as int)
  }

  function Pow10(k: nat): nat
  {
    if k == 0 then 1 else 10 * Pow10(k - 1)
  }

  /** Printing then parsing a number gives it back. */
  lemma {:induction false} DecimalRoundTrip(n: nat)
    ensures ParseDecimal(Decimal(n)) == n
    decreases n
  {
    if n >= 10 {
      DecimalRoundTrip(n / 10);
      var s := Decimal(n);
      assert s[..|s| - 1] == Decimal(n / 10);
    }
  }

  /** A number in [10^k, 10^(k+1)) prints with k + 1 digits. */
  lemma {:induction false} DecimalLength(n: nat, k: nat)
    requires Pow10(k) <= n < Pow10(k + 1)
    ensures |Decimal(n)| == k + 1
    decreases k
  {
    if k > 0 {
      DecimalLength(n / 10, k - 1);
    }
  }

  /** A string the OTP generator can produce: six digits, no leading zero. */
  predicate IsOtp(s: string)
  {
    |s| == 6 && AllDigits(s) && s[0] != '0'
  }

  /** `Math.floor(100000 + Math.random() * 900000).toString()` for the draw `draw`. */
  function GenerateOtp(draw: int): (otp: string)
    requires 0 <= draw < OtpSpan
    ensures IsOtp(otp)
    ensures ParseDecimal(otp) == OtpBase + draw
    ensures OtpBase <= ParseDecimal(otp) <= 999999
  {
    DecimalLength(OtpBase + draw, 5);
    DecimalRoundTrip(OtpBase + draw);
    Decimal(OtpBase + draw)
  }

  /** Distinct draws give distinct OTPs. */
  lemma GenerateOtpInjective(d1: int, d2: int)
    requires 0 <= d1 < OtpSpan && 0 <= d2 < OtpSpan
    requires GenerateOtp(d1) == GenerateOtp(d2)
    ensures d1 == d2
  {
    assert ParseDecimal(GenerateOtp(d1)) == OtpBase + d1;
    assert ParseDecimal(GenerateOtp(d2)) == OtpBase + d2;
  }

  // ------------------------------------------------------- state machine

  /** The page state that the login logic reads and writes; `isAuth` is the session flag. */
  datatype LoginState = LoginState(
    showOtp: bool,
    generatedOtp: string,
    otp: string,
    errorMessage: string,
    showError: bool,
    isAuth: bool)

  const InitialLogin := LoginState(false, "", "", "", false, false)

  /** The error chosen when the credential check fails. */
  function CredentialError(email: string): (msg: string)
    ensures msg == InvalidEmail <==> email != ValidEmail
    ensures msg == InvalidPassword <==> email == ValidEmail
  {
    if email != ValidEmail then InvalidEmail else InvalidPassword
  }

  /**
   * Whether the sign-in form fires its submit event. The email input is
   * `type="email" required` and the password input `required`, so the browser
   * blocks an empty field or an email it judges malformed (`emailSyntaxOk` is
   * that verdict); the submit button is rendered only before the OTP stage.
   */
  predicate FormSubmits(st: LoginState, email: string, password: string, emailSyntaxOk: bool)
  {
    !st.showOtp && email != "" && password != "" && emailSyntaxOk
  }

  /**
   * A press of "Sign in": when the form submits, `handleSubmit` runs once its
   * timer fires; otherwise nothing happens.
   */
  function Submit(st: LoginState, email: string, password: string, emailSyntaxOk: bool, env: Option<string>, draw: int): (r: LoginState)
    requires 0 <= draw < OtpSpan
    ensures !FormSubmits(st, email, password, emailSyntaxOk) ==> r == st
    ensures r.showOtp <==>
      (st.showOtp || (FormSubmits(st, email, password, emailSyntaxOk) && email == ValidEmail && password == ConfiguredPassword(env)))
    ensures FormSubmits(st, email, password, emailSyntaxOk) && email == ValidEmail && password == ConfiguredPassword(env) ==>
      r == st.(showOtp := true, generatedOtp := GenerateOtp(draw))
    ensures FormSubmits(st, email, password, emailSyntaxOk) && !(email == ValidEmail && password == ConfiguredPassword(env)) ==>
      r == st.(errorMessage := CredentialError(email), showError := true)
    ensures r.isAuth == st.isAuth
  {
    if !FormSubmits(st, email, password, emailSyntaxOk) then st
    else
      var okEmail := email == ValidEmail;
      var okPass := password == ConfiguredPassword(env);
      if okEmail && okPass then st.(generatedOtp := GenerateOtp(draw), showOtp := true)
      else st.(errorMessage := if !okEmail then InvalidEmail else InvalidPassword, showError := true)
  }

  /**
   * A press of "Verify OTP", which runs `handleOtpVerify`. The button is
   * rendered only in the OTP stage, so outside it nothing happens.
   */
  function Verify(st: LoginState): (r: LoginState)
    ensures !st.showOtp ==> r == st
    ensures r.isAuth <==> st.isAuth || (st.showOtp && st.otp == st.generatedOtp)
    ensures st.showOtp && st.otp != st.generatedOtp ==>
      r.errorMessage == IncorrectOtp && r.showError && r.isAuth == st.isAuth
    ensures st.showOtp && st.otp != st.generatedOtp ==> r.(errorMessage := st.errorMessage, showError := st.showError) == st
    ensures st.showOtp && st.otp == st.generatedOtp ==> r.(isAuth := st.isAuth) == st
  {
    if !st.showOtp then st
    else if st.otp == st.generatedOtp then st.(isAuth := true)
    else st.(errorMessage := IncorrectOtp, showError := true)
  }

  /** The OTP boxes report a new value (`onChange={setOtp}`). */
  function EnterOtp(st: LoginState, value: string): LoginState
  {
    st.(otp := value)
  }

  /** The stage invariant: an OTP exists exactly when the OTP stage is shown. */
  predicate WellFormed(st: LoginState)
  {
    (st.showOtp ==> IsOtp(st.generatedOtp)) && (!st.showOtp ==> st.generatedOtp == "")
  }

  /** Every transition keeps the stage invariant. */
  lemma TransitionsKeepWellFormed(st: LoginState, email: string, password: string, emailSyntaxOk: bool, env: Option<string>, draw: int, value: string)
    requires WellFormed(st) && 0 <= draw < OtpSpan
    ensures WellFormed(InitialLogin)
    ensures WellFormed(Submit(st, email, password, emailSyntaxOk, env, draw))
    ensures WellFormed(Verify(st))
    ensures WellFormed(EnterOtp(st, value))
  {
  }

  /**
   * From a fresh page, a submit the browser lets through reaches the OTP stage
   * exactly on the fixed address and the configured password; otherwise the
   * email error wins over the password error. A blocked submit shows nothing.
   */
  lemma FirstSubmit(email: string, password: string, emailSyntaxOk: bool, env: Option<string>, draw: int)
    requires 0 <= draw < OtpSpan
    ensures Submit(InitialLogin, email, password, emailSyntaxOk, env, draw).showOtp <==>
      emailSyntaxOk && email == ValidEmail && password == ConfiguredPassword(env)
    ensures FormSubmits(InitialLogin, email, password, emailSyntaxOk) && email != ValidEmail ==>
      Submit(InitialLogin, email, password, emailSyntaxOk, env, draw).errorMessage == InvalidEmail
    ensures FormSubmits(InitialLogin, email, password, emailSyntaxOk) && email == ValidEmail && password != ConfiguredPassword(env) ==>
      Submit(InitialLogin, email, password, emailSyntaxOk, env, draw).errorMessage == InvalidPassword
    ensures !FormSubmits(InitialLogin, email, password, emailSyntaxOk) ==>
      !Submit(InitialLogin, email, password, emailSyntaxOk, env, draw).showError
  {
  }

  /**
   * The auth flag is raised only from the OTP stage, which only a successful
   * credential check opens: on a fresh page, whatever OTP string is entered,
   * verifying leaves the flag down, and a failed submit does not change that.
   */
  lemma AuthOnlyAfterCredentials(st: LoginState, email: string, password: string, emailSyntaxOk: bool, env: Option<string>, draw: int, value: string)
    requires 0 <= draw < OtpSpan
    ensures !st.isAuth && Verify(st).isAuth ==> st.showOtp
    ensures !Verify(EnterOtp(InitialLogin, value)).isAuth
    ensures Verify(EnterOtp(Submit(InitialLogin, email, password, emailSyntaxOk, env, draw), value)).isAuth ==>
      email == ValidEmail && password == ConfiguredPassword(env)
  {
  }

  /**
   * In the OTP stage the auth flag is raised only by the exact generated
   * string: the entry that succeeds is a six-digit numeral with the drawn value.
   */
  lemma OnlyGeneratedOtpAuthenticates(st: LoginState)
    requires WellFormed(st) && st.showOtp && !st.isAuth
    ensures Verify(st).isAuth ==> st.otp == st.generatedOtp && IsOtp(st.otp)
    ensures !IsOtp(st.otp) ==> !Verify(st).isAuth && Verify(st).errorMessage == IncorrectOtp
  {
  }
}
