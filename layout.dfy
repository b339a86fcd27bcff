/**
 * The root layout (app/_layout.tsx), the session gate. Its state is whether
 * the fonts have loaded and `isAuthenticated`, which is `null` until the
 * stored token has been read and then records whether a token was found.
 * It renders a loading indicator until both are known, then the routed
 * screen (`<Slot />`); when there is no token it also sends the router to
 * `/login`.
 *
 * React re-renders are not modelled: `Render` and `Redirect` are what a
 * render and the redirect effect produce from the current state.
 */
module Layout {
  import opened Js
  import opened Storage
  import opened Ui

  /** What `RootLayout` returns. */
  datatype Screen = LoadingIndicator | Slot

  /**
   * `setIsAuthenticated(!!token)` once `getItem('token')` resolves, and
   * `setIsAuthenticated(false)` when it rejects.
   */
  function AuthenticatedAfter(read: ReadResult): (authenticated: bool)
    ensures authenticated <==> read.Got? && read.item.Some? && read.item.value != ""
  {
    match read
    case ReadFailed => false
    case Got(token) => TruthyString(token)
  }

  /** The render choice: the routed screen only once fonts and the token read are both settled. */
  function Render(loaded: bool, isAuthenticated: Option<bool>): (s: Screen)
    ensures s == Slot <==> loaded && isAuthenticated.Some?
    ensures s == LoadingIndicator <==> !loaded || isAuthenticated.None?
  {
    if !loaded || isAuthenticated.None? then LoadingIndicator else Slot
  }

  /** The redirect effect: to `/login` exactly when the fonts are loaded and the user is known to be signed out. */
  function Redirect(loaded: bool, isAuthenticated: Option<bool>): (effects: seq<Effect>)
    ensures effects == [] || effects == [Replace(LoginPath)]
    ensures effects != [] <==> loaded && isAuthenticated == Some(false)
    ensures effects != [] ==> Render(loaded, isAuthenticated) == Slot
  {
    if loaded && isAuthenticated == Some(false) then [Replace(LoginPath)] else []
  }

  class RootLayout {
    var loaded: bool
    var isAuthenticated: Option<bool>

    /** The token is read only after the fonts load, so the user is never known before that. */
    ghost predicate Valid()
      reads this
    {
      isAuthenticated.Some? ==> loaded
    }

    /** The first render: fonts still loading, `useState<boolean | null>(null)`. */
    constructor ()
      ensures Valid()
      ensures !loaded && isAuthenticated == None
    {
      loaded := false;
      isAuthenticated := None;
    }

    /** `useFonts` reports the fonts as loaded. */
    method FontsLoaded()
      requires Valid()
      modifies this
      ensures Valid()
      ensures loaded && isAuthenticated == old(isAuthenticated)
    {
      loaded := true;
    }

    /**
     * The `[loaded]` effect: when the fonts are loaded it reads the token and
     * records the outcome of the read; before that it does nothing.
     */
    method TokenEffect(read: ReadResult)
      requires Valid()
      modifies this
      ensures Valid()
      ensures loaded == old(loaded)
      ensures old(loaded) ==> isAuthenticated == Some(AuthenticatedAfter(read))
      ensures !old(loaded) ==> isAuthenticated == old(isAuthenticated)
    {
      if loaded {
        isAuthenticated := Some(AuthenticatedAfter(read));
      }
    }
  }

  /**
   * An app launch: the layout mounts while the fonts load (the token effect
   * does nothing yet), then the fonts load and the token read settles with
   * `read`. Before that the loading indicator shows and nothing redirects;
   * afterwards the routed screen shows, and the router is sent to `/login`
   * exactly when no non-empty token was read.
   */
  method Launch(read: ReadResult) returns (before: Screen, beforeRedirects: seq<Effect>,
                                           after: Screen, afterRedirects: seq<Effect>)
    ensures before == LoadingIndicator && beforeRedirects == []
    ensures after == Slot
    ensures afterRedirects == (if read.Got? && TruthyString(read.item) then [] else [Replace(LoginPath)])
  {
    var layout := new RootLayout();
    layout.TokenEffect(read);
    before := Render(layout.loaded, layout.isAuthenticated);
    beforeRedirects := Redirect(layout.loaded, layout.isAuthenticated);
    layout.FontsLoaded();
    layout.TokenEffect(read);
    after := Render(layout.loaded, layout.isAuthenticated);
    afterRedirects := Redirect(layout.loaded, layout.isAuthenticated);
  }
}
