/**
 * The login screen (app/login.tsx): `handleLogin` checks the e-mail, then
 * the password, then calls `loginUser`; a truthy token in the reply is
 * stored under `token` and the router replaces the screen with `/`.
 *
 * `LoginFlow` states the whole chain as a function of the inputs, the
 * server's reply, whether the storage write rejects, and the stored entries
 * before the call; `HandleLogin` runs it step by step against a store.
 */
module Login {
  import opened Js
  import opened Storage
  import opened Api
  import opened Ui
  import opened Credentials

  const HomePath := "/"
  const BadCredentialsMessage := "Credenciales incorrectas."
  const LoginErrorMessage := "Ocurrió un error en el inicio de sesión."

  /** What one press of the login button leaves behind. */
  datatype LoginRun = LoginRun(effects: seq<Effect>, entries: map<string, string>)

  /**
   * The chain gets as far as a successful token write: the input checks pass,
   * the reply is ok and parses, its token is truthy, and the write does not reject.
   */
  predicate StoresToken(email: string, password: string, reply: Reply<LoginBody>, writeFails: bool) {
    && CheckCredentials(email, password).None?
    && reply.Response? && reply.ok && reply.body.Some?
    && TruthyString(reply.body.value.token)
    && !writeFails
  }

  function LoginFlow(email: string, password: string, reply: Reply<LoginBody>, writeFails: bool,
                     entries: map<string, string>): (r: LoginRun)
    // The e-mail is checked first, then the password; either failure ends the
    // chain with its alert, before any request and without touching storage.
    ensures !ValidateEmail(email) ==> r == LoginRun([PlainAlert("Error", InvalidEmailMessage)], entries)
    ensures ValidateEmail(email) && |password| < MinPasswordLength ==>
              r == LoginRun([PlainAlert("Error", ShortPasswordMessage)], entries)
    // A request goes out exactly when both checks pass, and it is the first effect.
    ensures NoFetch(r.effects) <==> CheckCredentials(email, password).Some?
    ensures CheckCredentials(email, password).None? ==>
              |r.effects| == 2 && r.effects[0] == Fetch(LoginUser(email, password, reply).sent.value)
    // The token is written, with the reply's value, and `/` is shown, only on the full success path.
    ensures r.entries == if StoresToken(email, password, reply, writeFails)
                         then entries[TokenKey := reply.body.value.token.value] else entries
    ensures (exists k :: 0 <= k < |r.effects| && r.effects[k] == Replace(HomePath)) <==>
              StoresToken(email, password, reply, writeFails)
    ensures StoresToken(email, password, reply, writeFails) ==> r.effects[|r.effects| - 1] == Replace(HomePath)
    ensures !StoresToken(email, password, reply, writeFails) ==> NoNavigation(r.effects)
    // An ok reply without a truthy token is reported as bad credentials.
    ensures CheckCredentials(email, password).None? && reply.Response? && reply.ok && reply.body.Some? &&
            !TruthyString(reply.body.value.token) ==>
              r.effects[1] == PlainAlert("Error", BadCredentialsMessage)
    // A call that throws, or a write that rejects, gives the generic error alert.
    ensures CheckCredentials(email, password).None? && LoginUser(email, password, reply).outcome.Threw? ==>
              r.effects[1] == PlainAlert("Error", LoginErrorMessage)
    ensures CheckCredentials(email, password).None? && reply.Response? && reply.ok && reply.body.Some? &&
            TruthyString(reply.body.value.token) && writeFails ==>
              r.effects[1] == PlainAlert("Error", LoginErrorMessage)
  {
    match CheckCredentials(email, password)
    case Some(message) => LoginRun([PlainAlert("Error", message)], entries)
    case None =>
      var call := LoginUser(email, password, reply);
      var sent := [Fetch(call.sent.value)];
      var r :=
        match call.outcome
        case Threw(_) => LoginRun(sent + [PlainAlert("Error", LoginErrorMessage)], entries)
        case Returned(response) =>
          if !TruthyString(response.token) then
            LoginRun(sent + [PlainAlert("Error", BadCredentialsMessage)], entries)
          else if writeFails then
            LoginRun(sent + [PlainAlert("Error", LoginErrorMessage)], entries)
          else
            LoginRun(sent + [Replace(HomePath)], entries[TokenKey := response.token.value]);
      assert r.effects[0].Fetch?;
      assert r.effects[1] == Replace(HomePath) <==> StoresToken(email, password, reply, writeFails);
      r
  }

  /** `handleLogin`, run against the store. */
  method HandleLogin(store: KeyValueStore, email: string, password: string, reply: Reply<LoginBody>,
                     writeFails: bool) returns (effects: seq<Effect>)
    modifies store
    ensures effects == LoginFlow(email, password, reply, writeFails, old(store.entries)).effects
    ensures store.entries == LoginFlow(email, password, reply, writeFails, old(store.entries)).entries
  {
    if !ValidateEmail(email) {
      effects := [PlainAlert("Error", InvalidEmailMessage)];
      return;
    }
    if |password| < MinPasswordLength {
      effects := [PlainAlert("Error", ShortPasswordMessage)];
      return;
    }
    var call := LoginUser(email, password, reply);
    effects := [Fetch(call.sent.value)];
    if call.outcome.Threw? {
      effects := effects + [PlainAlert("Error", LoginErrorMessage)];
      return;
    }
    var response := call.outcome.value;
    if TruthyString(response.token) {
      var ok := store.SetItem(TokenKey, response.token.value, writeFails);
      if ok {
        effects := effects + [Replace(HomePath)];
      } else {
        effects := effects + [PlainAlert("Error", LoginErrorMessage)];
      }
    } else {
      effects := effects + [PlainAlert("Error", BadCredentialsMessage)];
    }
  }
}
