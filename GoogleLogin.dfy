/**
 * The Google sign-in button: the guard that needs the Google library before drawing the
 * button, and the classification of the backend's answer to a Google credential.
 * Storage, navigation and the parent's callbacks are returned as an `Action`.
 */
module GoogleLogin {
  import opened Wrappers
  import opened Json
  import Register

  const RegistrationMessage: string := "Please complete your registration to use Google login"

  /** What initialisation does: draw the button, or report to `onError` and draw nothing. */
  datatype Init = ButtonRendered | InitError

  /**
   * `initializeGoogleSignIn`. `googleLoaded` means the Google library is loaded and usable:
   * the guard on `window.google` passes and neither `initialize` nor `renderButton` throws.
   * A missing library and a throw from either call both end in the catch that reports to
   * `onError`.
   */
  function Initialise(googleLoaded: bool): (r: Init)
    ensures r == ButtonRendered <==> googleLoaded
  {
    if googleLoaded then ButtonRendered else InitError
  }

  /** The body posted to the backend for a credential from Google. */
  function Request(credential: string): (r: Record)
    ensures r.Keys == {"tokenId"} && r["tokenId"] == Str(credential)
  {
    map["tokenId" := Str(credential)]
  }

  /** The `response` of a failed request: its HTTP status and decoded body. */
  datatype ErrorResponse = ErrorResponse(status: int, data: Value)

  /** How the POST ended: a reply body, or a thrown error with or without a response. */
  datatype Outcome = Replied(data: Value) | Threw(response: Option<ErrorResponse>)

  /** What the callback does. */
  datatype Action =
    | SignedIn(token: Value, user: Value)     // store the token, `onSuccess(data)`, go to "/"
    | Idle                                    // nothing
    | CompleteRegistration(state: Record)     // go to "/register" with this navigation state
    | Report(response: Option<ErrorResponse>) // `onError(error)`

  /**
   * The callback given to Google. Reading `.token` of a `null` reply throws inside the
   * `try`, so that reply is reported like an error without a response.
   */
  function Callback(outcome: Outcome): (a: Action)
    ensures a.SignedIn? ==> outcome.Replied? && Truthy(a.token) && a.user == outcome.data
  {
    match outcome
    case Replied(data) =>
      if data == Null then Report(None)
      else if data.Obj? && Has(data.fields, "token") then SignedIn(data.fields["token"], data)
      else Idle
    case Threw(response) =>
      if response.Some? && response.value.status == 401 && PropTruthy(response.value.data, "email") then
        var d := response.value.data.fields;
        var state := map["email" := d["email"], "message" := Str(RegistrationMessage)];
        CompleteRegistration(if "name" in d then state["name" := d["name"]] else state)
      else Report(response)
  }

  /** Signing in happens exactly when the reply carries a truthy token, which is stored as is. */
  lemma SignInIff(outcome: Outcome)
    ensures Callback(outcome).SignedIn? <==> outcome.Replied? && PropTruthy(outcome.data, "token")
    ensures Callback(outcome).SignedIn? ==> Callback(outcome).token == outcome.data.fields["token"]
  {
  }

  /** A reply without a token stores nothing, calls nothing and goes nowhere. */
  lemma NoTokenIdle(data: Value)
    requires data != Null && !PropTruthy(data, "token")
    ensures Callback(Replied(data)) == Idle
  {
  }

  /**
   * A 401 naming an email, and only that, leads to the registration page with the
   * email, the name and the fixed message, without calling `onError`.
   */
  lemma RegistrationIff(outcome: Outcome)
    ensures Callback(outcome).CompleteRegistration? <==>
      outcome.Threw? && outcome.response.Some? && outcome.response.value.status == 401
      && PropTruthy(outcome.response.value.data, "email")
    ensures Callback(outcome).CompleteRegistration? ==>
      var st := Callback(outcome).state;
      var d := outcome.response.value.data.fields;
      && st["email"] == d["email"]
      && st["message"] == Str(RegistrationMessage)
      && Get(st, "name") == Get(d, "name")
  {
  }

  /** Every other failure goes to `onError` with the error, and nowhere else. */
  lemma OtherFailuresReported(response: Option<ErrorResponse>)
    requires response.None? || response.value.status != 401 || !PropTruthy(response.value.data, "email")
    ensures Callback(Threw(response)) == Report(response)
  {
  }

  /**
   * The hand-off: the registration page the callback leads to shows the Google email and
   * name (or an empty name) and the message asking to complete the registration.
   */
  lemma HandOffPrefillsRegister(d: Record)
    requires Has(d, "email")
    ensures Callback(Threw(Some(ErrorResponse(401, Obj(d))))).CompleteRegistration?
    ensures var st := Callback(Threw(Some(ErrorResponse(401, Obj(d))))).state;
      var p := Register.Prefill(Register.InitialPage(), Some(Obj(st)));
      && p.form["email"] == d["email"]
      && p.form["name"] == (if Has(d, "name") then d["name"] else Str(""))
      && p.error == Str(RegistrationMessage)
  {
    var st := Callback(Threw(Some(ErrorResponse(401, Obj(d))))).state;
    assert Has(st, "email");
    assert Has(st, "message");
    Register.PrefillNameAndError(Register.InitialPage(), st);
  }
}
