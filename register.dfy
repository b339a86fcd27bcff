/**
 * The registration screen (app/register.tsx): `handleRegister` runs the same
 * two input checks as the login screen, then calls `registerUser`. Its only
 * effects are alerts, the request, and, from the OK button of the success
 * alert, a move to `/login`. It never touches storage, so the model has no
 * store here.
 */
module Register {
  import opened Js
  import opened Api
  import opened Ui
  import opened Credentials

  const RegisteredTitle := "Registro Exitoso"
  const RegisteredMessage := "Ya puedes iniciar sesión."
  const NotRegisteredMessage := "No se pudo registrar el usuario."
  const RegisterErrorMessage := "Ocurrió un error durante el registro."

  /** The only button of the success alert: back to the login screen on the next frame. */
  const GoToLoginButton := Button("OK", Default, ReplaceNextFrame(LoginPath))

  const RegisteredAlert := Alert(RegisteredTitle, RegisteredMessage, [GoToLoginButton])

  function RegisterFlow(email: string, password: string, reply: Reply<Value>): (effects: seq<Effect>)
    // Input checks first, e-mail before password, and no request when either fails.
    ensures !ValidateEmail(email) ==> effects == [PlainAlert("Error", InvalidEmailMessage)]
    ensures ValidateEmail(email) && |password| < MinPasswordLength ==>
              effects == [PlainAlert("Error", ShortPasswordMessage)]
    ensures NoFetch(effects) <==> CheckCredentials(email, password).Some?
    ensures CheckCredentials(email, password).None? ==>
              |effects| == 2 && effects[0] == Fetch(RegisterUser(email, password, reply).sent.value)
    // The screen itself never navigates; only the success alert's button does.
    ensures NoNavigation(effects)
    ensures |effects| >= 1
    ensures effects[|effects| - 1] == RegisteredAlert <==>
              CheckCredentials(email, password).None? &&
              RegisterUser(email, password, reply).outcome.Returned? &&
              RegisterUser(email, password, reply).outcome.value.success
    ensures CheckCredentials(email, password).None? &&
            RegisterUser(email, password, reply).outcome.Returned? &&
            !RegisterUser(email, password, reply).outcome.value.success ==>
              effects[1] == PlainAlert("Error", NotRegisteredMessage)
    ensures CheckCredentials(email, password).None? && RegisterUser(email, password, reply).outcome.Threw? ==>
              effects[1] == PlainAlert("Error", RegisterErrorMessage)
  {
    match CheckCredentials(email, password)
    case Some(message) => [PlainAlert("Error", message)]
    case None =>
      var call := RegisterUser(email, password, reply);
      var sent := [Fetch(call.sent.value)];
      var effects :=
        match call.outcome
        case Threw(_) => sent + [PlainAlert("Error", RegisterErrorMessage)]
        case Returned(response) =>
          if response.success then sent + [RegisteredAlert]
          else sent + [PlainAlert("Error", NotRegisteredMessage)];
      assert effects[0].Fetch?;
      effects
  }

  /** Pressing OK on the success alert replaces the screen with `/login`, and nothing else does. */
  lemma OnlyOkNavigates(email: string, password: string, reply: Reply<Value>, k: nat, b: nat, deleteFails: bool)
    requires k < |RegisterFlow(email, password, reply)|
    requires RegisterFlow(email, password, reply)[k].Alert?
    requires b < |RegisterFlow(email, password, reply)[k].buttons|
    ensures RegisterFlow(email, password, reply)[k] == RegisteredAlert && b == 0
    ensures Press(RegisterFlow(email, password, reply)[k].buttons[b], deleteFails) == [Replace(LoginPath)]
  {
    var effects := RegisterFlow(email, password, reply);
    assert effects[k] == RegisteredAlert;
  }
}
