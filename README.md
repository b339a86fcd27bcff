# Notes app client — session, credentials, API client and notes list

This project models the decision logic of a React Native notes client written in TypeScript. The client talks to a REST back end under `<base>/api`. The model covers:

- **Credentials** (`app/login.tsx`, `app/register.tsx`): the e-mail regular
  expression `/^[\w-\.]+@([\w-]+\.)+[\w-]{2,4}$/` and the eight-character
  password rule. The e-mail is checked first, then the password.
  - The regular expression is written twice: once as a transcription of its
    grammar (`MatchesEmailRegex`) and once as an executable check
    (`ValidateEmail`: find the first `@`, then split the rest at `.`).
  - The two are proved to accept the same strings.
  - The two screens carry identical copies of the check. It is defined once
    here, so they agree on every input by construction.
- **The login and registration submit chains**:
  - the ordered input checks;
  - the request;
  - the token write (login only);
  - the alerts;
  - the navigation.
- **The API client** (`services/api.ts`):
  - the `Authorization`/`Content-Type` headers built from the stored token;
  - the throw rules (a network failure, a non-ok response or an unparsable
    body throws);
  - the registration success flag derived from `data.id`;
  - the URL and HTTP method of every call.
- **The session gate** (`app/_layout.tsx`): a class `RootLayout` with the
  `loaded` and `isAuthenticated` (`null` / `false` / `true`) state. It covers
  the token-read transition, the redirect rule and the render choice.
- **The notes list** (`app/index.tsx`):
  - the preview (tags stripped, then `substring(0, 200)`);
  - the render priority;
  - logout;
  - the delete confirmation;
  - the edit route.

External services are inputs:

- `fetch` is a `Reply`: a network failure, or a response with `ok` and a body that may fail to parse.
- AsyncStorage is a `KeyValueStore` class over a `map<string, string>`. Each call takes a flag saying whether it rejects.
- Alerts, navigation and requests are values of the `Effect` datatype, which a screen's handler returns in the order they happen.

Files, one module each:

- `js.dfy`: JavaScript values, truthiness, `Number`-to-string, `substring`.
- `storage.dfy`
- `api.dfy`
- `ui.dfy`: effects, alert buttons, what a button press does.
- `credentials.dfy`
- `login.dfy`
- `register.dfy`
- `layout.dfy`
- `notes_list.dfy`
- `session.dfy`: lemmas that follow the stored token across screens.

## Model

| member | source | states |
|---|---|---|
| Js.NumberToString | services/api.ts:81 | `${id}` for an integer: non-empty, all digits exactly when the id is non-negative, a leading `-` exactly when it is negative, and no leading zero (nor `-0`) |
| Js.ParseInteger | services/api.ts:81 | reads only the exact form `${id}` writes: whatever it accepts is the rendering of the value it yields |
| Js.ParseIntegerRefusesOtherForms | services/api.ts:81 | `007`, `-07`, `-0`, `-` and the empty text are refused; `0` and `-7` are read as 0 and -7 |
| Js.CanonicalIsRendering | services/api.ts:81 | digits without a leading zero are the rendering of their own value |
| Js.NumberToStringRoundTrip | services/api.ts:81 | the decimal text of an id parses back to that id |
| Js.NumberToStringInjective | services/api.ts:81 | two ids have the same decimal text if and only if they are equal |
| Js.DecimalRoundTrip | services/api.ts:81 | the digits of a natural number read back as that number |
| Js.Substring | app/index.tsx:96 | `substring` never lengthens the string, returns the slice for in-range indices (swapped when reversed), and from index 0 returns the prefix of length min(end, length) |
| Storage.KeyValueStore.Read | app/_layout.tsx:25 | an awaited `getItem` rejects exactly when the call fails, and otherwise yields the stored value or `null` |
| Storage.KeyValueStore.SetItem | app/login.tsx:43 | a successful `setItem` sets exactly that key to that value; a rejected one leaves the entries unchanged |
| Storage.KeyValueStore.RemoveItem | app/index.tsx:16 | a successful `removeItem` removes exactly that key; a rejected one leaves the entries unchanged |
| Api.AuthHeaders | services/api.ts:13-19 | the headers are exactly `Content-Type` (always `application/json`) and `Authorization` (`Bearer <t>` for a stored non-empty token `t`, empty for a missing or empty token); a rejected storage read rejects the call |
| Api.BearerDeterminesToken | services/api.ts:17 | a non-empty Authorization header comes from exactly one token read |
| Api.Settle | services/api.ts:33-35 | an ok response whose body parses returns that body unchanged; a network failure, a non-ok response (with the call's message) or an unparsable body throws |
| Api.Authorized | services/api.ts:68-71 | an authenticated call reads the headers fresh and sends the request with them; a failed read sends nothing and throws |
| Api.TareaUrl | services/api.ts:81 | `${API_BASE_URL}/tareas/${id}`: the collection URL, a `/`, then text that parses back to the id, which is therefore exactly `${id}` |
| Api.TareaUrlsDistinct | services/api.ts:81 | `/tareas/${id}` differs for different ids, never equals the collection URL, and the id can be read back from it |
| Api.LoginUser | services/api.ts:21-40 | POST to `/auth/login` with only `Content-Type` and the credentials; returns the parsed body exactly on an ok, parsable response; a non-ok response throws "Error en login" |
| Api.ReadId | services/api.ts:58 | `data.id` throws a TypeError exactly on `null` or `undefined`, is the `id` field of an object, and is `undefined` on other values |
| Api.RegisterUser | services/api.ts:42-63 | POST to `/auth/register` without Authorization; `user` is the whole parsed body and `success` is the truthiness of its `id`; a non-ok response throws "Error en registro" |
| Api.RegistrationFollowsId | services/api.ts:58 | on an ok reply, success holds exactly when `id` is present and truthy: an id of 0 or a missing id fails, and the body always comes back as `user` |
| Api.GetTareas | services/api.ts:66-76 | GET `/tareas` with fresh auth headers; returns the parsed body unchanged on an ok response; throws "Error fetching tareas" on a non-ok one |
| Api.GetTarea | services/api.ts:78-88 | GET `/tareas/${id}` with fresh auth headers; returns the parsed body on an ok response; throws "Error fetching tarea <id>" on a non-ok one |
| Api.CreateTarea | services/api.ts:90-104 | POST the new note to `/tareas` with fresh auth headers; returns the server's body on an ok response; throws "Error creating tarea" on a non-ok one |
| Api.UpdateTarea | services/api.ts:106-120 | PUT the patch to `/tareas/${id}` with fresh auth headers; returns the server's body on an ok response; throws "Error updating tarea <id>" on a non-ok one |
| Api.DeleteTarea | services/api.ts:122-134 | DELETE `/tareas/${id}` with fresh auth headers; resolves with nothing on any ok response, without parsing its body; throws "Error deleting tarea <id>" on a non-ok one |
| Api.NonOkAlwaysThrows | services/api.ts:33-129 | a non-ok response makes all seven calls throw, whatever the body |
| Ui.Press | app/index.tsx:38-48 | a button without `onPress` does nothing; a deferred replace navigates to its path; only a delete action calls `deleteNote`, and its effects are exactly that call followed, when it rejects, by the single "No se pudo eliminar la nota" alert |
| Js.Truthy | services/api.ts:58 | `!!v`: the only falsy values are `undefined`, `null`, `false`, `0` and the empty string |
| Credentials.MatchesEmailRegex | app/login.tsx:26 | the regular expression transcribed: a `[\w-\.]+` local part, `@`, one or more `[\w-]+\.` groups and a `[\w-]{2,4}` top label, anchored at both ends; a match contains an `@` |
| Credentials.ValidateEmail | app/login.tsx:25-28 | `validateEmail` (identical at app/register.tsx:24-27): an accepted text has an `@` and starts with a local-part character, not with `@`; its full meaning is `ValidateEmailIsRegex` |
| Credentials.ValidateEmailIsRegex | app/login.tsx:25-28 | the executable check accepts exactly the strings the regular expression matches |
| Credentials.CheckedDomainMatches | app/login.tsx:26 | a domain made of at least two labels of `[\w-]`, the last of 2 to 4 characters, matches `([\w-]+\.)+[\w-]{2,4}$` |
| Credentials.MatchedDomainChecks | app/login.tsx:26 | a domain that matches `([\w-]+\.)+[\w-]{2,4}$` splits at its dots into such labels |
| Credentials.MatchedEmailShape | app/login.tsx:26 | a matching e-mail contains exactly one `@`, does not start with `@` and does not end with `.` |
| Credentials.AcceptedEmailShape | app/login.tsx:26 | the same shape for every e-mail the check accepts |
| Credentials.ValidateEmailOn | app/login.tsx:25-28 | on a text whose first `@` and dot-separated labels are known, the check is the local-part test plus the domain test |
| Credentials.AcceptedExample | app/login.tsx:26 | `ana.p-r@mail.es` is accepted (dots and hyphens in the local part, two-letter top label) |
| Credentials.RejectedShortTop | app/login.tsx:26 | a one-character top label is rejected |
| Credentials.RejectedLongTop | app/login.tsx:26 | a five-character top label is rejected |
| Credentials.RejectedUndotted | app/login.tsx:26 | a domain without a dot is rejected |
| Credentials.RejectedEmptyLocal | app/login.tsx:26 | an empty local part is rejected |
| Credentials.RejectedEmptyLabel | app/login.tsx:26 | an empty label between two dots is rejected |
| Credentials.RejectedSecondAt | app/login.tsx:26 | a second `@` is rejected |
| Credentials.CheckCredentials | app/login.tsx:31-38 | the inputs pass exactly when the e-mail is valid and the password has at least 8 characters (so exactly 8 passes); an invalid e-mail gives its message whatever the password |
| Login.LoginFlow | app/login.tsx:30-52 | see the list below this table |
| Login.HandleLogin | app/login.tsx:30-52 | run against a store, the handler emits exactly the effects and leaves exactly the entries that `LoginFlow` gives |
| Register.RegisterFlow | app/register.tsx:29-59 | see the list below this table |
| Register.OnlyOkNavigates | app/register.tsx:41-51 | the only alert of the registration screen that has a button is the success alert, its only button is OK, and pressing it replaces the screen with `/login` |
| Layout.AuthenticatedAfter | app/_layout.tsx:25-32 | the gate becomes authenticated exactly when the read succeeds with a non-empty token; a missing or empty token, or a failed read, gives false, never true |
| Layout.Render | app/_layout.tsx:44-52 | the routed screen is shown exactly when the fonts are loaded and `isAuthenticated` is not `null` (including `false`); otherwise the loading indicator |
| Layout.Redirect | app/_layout.tsx:36-42 | a single replace to `/login` is issued exactly when the fonts are loaded and `isAuthenticated` is `false`, never for `true` or `null`, and only while the routed screen is shown |
| Layout.RootLayout.constructor | app/_layout.tsx:15-19 | the layout starts with fonts not loaded and `isAuthenticated` `null` |
| Layout.RootLayout.FontsLoaded | app/_layout.tsx:15-17 | loading the fonts leaves the authentication state unchanged |
| Layout.RootLayout.TokenEffect | app/_layout.tsx:21-34 | the token read has an effect only once the fonts are loaded, and then sets `isAuthenticated` from the read; the auth state is never known while fonts are loading |
| Layout.Launch | app/_layout.tsx:12-53 | a launch shows the loading indicator with no redirect until the fonts load and the token is read, then the routed screen, with a redirect to `/login` exactly when no non-empty token was read |
| NotesList.StripTags | app/index.tsx:96 | removing `<…>` matches never lengthens the text and keeps only characters of the original |
| NotesList.StripTagsWithoutOpening | app/index.tsx:96 | stripping is the identity on a description without `<` |
| NotesList.StripTagsLeavesTagFree | app/index.tsx:96 | after stripping, no `<` is followed anywhere later by `>` |
| NotesList.StripTagsKeepsTagFree | app/index.tsx:96 | stripping changes nothing in a text where no `<` has a later `>` |
| NotesList.StripTagsIdempotent | app/index.tsx:96 | stripping twice is the same as stripping once |
| NotesList.StrippedPrefixesTagFree | app/index.tsx:96 | every prefix of a stripped text is tag-free, so the 200-character cut leaves nothing the pattern could match |
| NotesList.Preview | app/index.tsx:96 | the preview has at most 200 characters, is the first min(length, 200) characters of the stripped description, is tag-free, and is the plain prefix when the description has no `<` |
| NotesList.EditNote | app/index.tsx:29-31 | editing pushes exactly one route, `/create-note?id=` followed by text that parses back to the note's id, and so is exactly `${noteId}` |
| NotesList.EditRoutesDistinct | app/index.tsx:29-31 | two notes get the same edit route if and only if they have the same id |
| NotesList.DeleteNotePrompt | app/index.tsx:33-52 | deleting only shows the confirmation: title, question, a Cancel button and a destructive "Eliminar"; pressing a button calls `deleteNote(noteId)` exactly when it is "Eliminar" |
| NotesList.LogoutFlow | app/index.tsx:14-21 | a successful logout removes exactly the token and then replaces the screen with `/login`; a failed removal leaves storage unchanged and shows an alert without navigating |
| NotesList.HandleLogout | app/index.tsx:14-21 | run against a store, logout emits exactly the effects and leaves exactly the entries that `LogoutFlow` gives |
| NotesList.CardOf | app/index.tsx:84-113 | a note's card is keyed by its id and titled with its title, shows at most 200 characters of the stripped description, its pencil is `EditNote(note.id)` (the route of this note) and its trash icon is `DeleteNotePrompt(note.id)` (the confirmation whose "Eliminar" deletes this note), with no navigation and no request before confirming |
| NotesList.Render | app/index.tsx:54-83 | loading shows the spinner whatever the error and notes; otherwise a non-empty error shows the error view; otherwise no notes shows the empty message; otherwise one card per note, in order; the "Cargando notas..." text is never shown |
| Session.LoginAuthorizesLaterRequests | app/login.tsx:42-44 | after a login stores its token, authorized requests carry `Bearer <that token>`, and on the next launch the gate authenticates and does not redirect (the gate reads the token only once per launch) |
| Session.LogoutRevokesSession | app/index.tsx:14-21 | after a successful logout, authorized requests carry an empty Authorization header, and on the next launch the gate redirects to `/login` (in the current launch the move to `/login` is the logout handler's own) |
| Session.SignInAndOut | app/_layout.tsx:21-42 | log in, relaunch, log out, relaunch: the first relaunch does not redirect, the second does, and the store ends with its token removed and is otherwise unchanged |

`Login.LoginFlow` (app/login.tsx:30-52) states:

- an invalid e-mail, then a short password, each end the chain with its own alert, with no request and no storage change;
- a request is sent exactly when both checks pass;
- the token is written, with the reply's own value, and `/` is shown, exactly when the reply is ok with a truthy token and the write succeeds;
- an ok reply without a token shows "Credenciales incorrectas.";
- a throwing call or a rejected write shows the generic error and leaves storage unchanged.

`Register.RegisterFlow` (app/register.tsx:29-59) states:

- the same ordered checks, with no request when either fails;
- the screen itself never navigates and never touches storage, since the function has no store;
- the success alert is shown exactly when `registerUser` returns `success`;
- `success == false` shows "No se pudo registrar el usuario.";
- an exception shows "Ocurrió un error durante el registro.".

## Left out

- React rendering, styles, layout components, fonts, the splash screen and the color scheme. Only presentation is lost.
- The `router`, `Alert` and `requestAnimationFrame` runtimes: become `Effect` values (replace, push, alert with buttons); the one-frame delay before the registration screen's redirect is recorded only in the `ReplaceNextFrame` action, and the layout's deferred `router.replace("/login")` (app/_layout.tsx:38-40) becomes a plain `Replace` in `Layout.Redirect`.
- JSON numbers in `Js.Value` are integers only (`Num(n: int)`): fractional numbers are not modelled; this does not change `!!data.id`, whose falsy number is 0 either way.
- `fetch`, HTTP and JSON parsing: a reply is `NetworkFailure` or `Response(ok, body)` whose body may fail to parse.
  - The request body is a datatype, not the JSON text of `JSON.stringify`.
  - The base URL is a constant.
- AsyncStorage internals: a store is a map, and whether each call rejects is an input; a rejected write or removal is taken to leave the entries unchanged.
- `console.log` and `console.error`: no observable content.
- Api.LoginUser: the body is typed as the declared `{ token?: string }`, so a `null` body or a token that is not a string (which would make `response.token` throw or write a non-string) is not modelled.
- The `useNotes` hook (`hooks/useNotes`) is not part of this model: `notes`, `isLoading` and `error` are inputs, `error` is taken to be a string or `null`, `deleteNote` is an effect whose rejection is an input, and the list update after a delete is not modelled.
- The `useFocusEffect` reload of the notes list: a call into the hook.
- The floating button's `router.push('/create-note')` (app/index.tsx:120), the login screen's `router.push("/register")` link (app/login.tsx:110) and the registration screen's link back to the login screen (app/register.tsx:119): constant navigations with nothing to prove.
- Js.NumberToString: ids are integers, so the non-integer, `NaN` and exponent forms of JavaScript number formatting (ids of 1e21 or more) are not modelled.
- Strings are sequences of characters: the UTF-16 code-unit semantics of `.length` and `substring` are not modelled.
- Async interleavings (a second tap while a request is in flight, a reply after the screen unmounts): the source does not guard against them, and the model runs each handler to completion.
- Re-renders of the root layout: `Render` and `Redirect` are evaluated at the two moments of a launch, not on every state change.
