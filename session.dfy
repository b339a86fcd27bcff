/**
 * How the screens share the session: the login screen writes the token, the
 * API client and the root layout read it back, and logout removes it. The
 * lemmas here follow the stored entries from one screen to the next.
 */
module Session {
  import opened Js
  import opened Storage
  import opened Api
  import opened Ui
  import Login
  import NotesList
  import Layout

  /**
   * After a login that stored its token, every later authorized request
   * carries that token as a bearer credential, and the next launch of the
   * app is authenticated and does not redirect.
   */
  lemma LoginAuthorizesLaterRequests(email: string, password: string, reply: Reply<LoginBody>,
                                     entries: map<string, string>)
    requires Login.StoresToken(email, password, reply, false)
    ensures var after := Login.LoginFlow(email, password, reply, false, entries).entries;
            && AuthHeaders(Got(Storage.Get(after, TokenKey))) ==
               Returned(map["Content-Type" := JsonContentType,
                            "Authorization" := "Bearer " + reply.body.value.token.value])
            && Layout.AuthenticatedAfter(Got(Storage.Get(after, TokenKey)))
            && Layout.Redirect(true, Some(Layout.AuthenticatedAfter(Got(Storage.Get(after, TokenKey))))) == []
  {
  }

  /**
   * After a logout whose removal succeeded, authorized requests carry an
   * empty Authorization header, and the next launch redirects to `/login`.
   */
  lemma LogoutRevokesSession(entries: map<string, string>)
    ensures var after := NotesList.LogoutFlow(false, entries).entries;
            && AuthHeaders(Got(Storage.Get(after, TokenKey))) ==
               Returned(map["Content-Type" := JsonContentType, "Authorization" := ""])
            && !Layout.AuthenticatedAfter(Got(Storage.Get(after, TokenKey)))
            && Layout.Redirect(true, Some(Layout.AuthenticatedAfter(Got(Storage.Get(after, TokenKey))))) ==
               [Replace(LoginPath)]
  {
  }

  /**
   * One session against a single store: log in, relaunch, log out, relaunch.
   * The first relaunch shows the routed screen without a redirect; the
   * second is sent to `/login`; and the store ends as it began, minus any
   * token it held beforehand.
   */
  method SignInAndOut(store: KeyValueStore, email: string, password: string, reply: Reply<LoginBody>)
      returns (signedInRedirects: seq<Effect>, signedOutRedirects: seq<Effect>)
    requires Login.StoresToken(email, password, reply, false)
    modifies store
    ensures signedInRedirects == []
    ensures signedOutRedirects == [Replace(LoginPath)]
    ensures store.entries == old(store.entries) - {TokenKey}
  {
    var _ := Login.HandleLogin(store, email, password, reply, false);
    var _, _, _, afterLogin := Layout.Launch(store.Read(TokenKey, false));
    signedInRedirects := afterLogin;
    var _ := NotesList.HandleLogout(store, false);
    var _, _, _, afterLogout := Layout.Launch(store.Read(TokenKey, false));
    signedOutRedirects := afterLogout;
  }
}
