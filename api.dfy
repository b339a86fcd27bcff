/**
 * The API client (services/api.ts): authentication calls and note (`Tarea`)
 * CRUD against one fixed base URL.
 *
 * `fetch` is abstract: every operation is given the reply the server sent
 * (or the transport failure) and the result of its own AsyncStorage read of
 * the token, and returns the request it sent, if any, together with how it
 * ended. Each `api.*` call takes its own read, as the source calls
 * `getAuthHeaders()` afresh on every call.
 */
module Api {
  import opened Js
  import opened Storage

  const BaseUrl := "https://requirement-supplements-subsidiary-salt.trycloudflare.com/api"
  const JsonContentType := "application/json"

  datatype Method = Get | Post | Put | Delete

  type Headers = map<string, string>

  /** A note as the server stores it. */
  datatype Tarea = Tarea(id: int, titulo: string, descripcion: string, completada: bool)

  /** `Omit<Tarea, 'id'>`, the body of a create call. */
  datatype NewTarea = NewTarea(titulo: string, descripcion: string, completada: bool)

  /** `Partial<Tarea>`, the body of an update call. */
  datatype TareaPatch = TareaPatch(
    id: Option<int>, titulo: Option<string>, descripcion: Option<string>, completada: Option<bool>)

  /** What `JSON.stringify` is applied to in the request body. */
  datatype Payload =
    | NoBody
    | Credentials(username: string, password: string)
    | Create(tarea: NewTarea)
    | Update(patch: TareaPatch)

  datatype Request = Request(verb: Method, url: string, headers: Headers, body: Payload)

  /**
   * What `fetch` gives back: a rejection, or a response with its `ok` flag and
   * the result of `response.json()` (`None` when parsing rejects).
   */
  datatype Reply<+B> = NetworkFailure | Response(ok: bool, body: Option<B>)

  /** A call as observed from outside: the request it sent, and how it ended. */
  datatype Exchange<+T> = Exchange(sent: Option<Request>, outcome: Outcome<T>)

  /** The parsed body of a login reply, with the type the source declares: `{ token?: string }`. */
  datatype LoginBody = LoginBody(token: Option<string>)

  /** What `registerUser` resolves with. */
  datatype Registration = Registration(success: bool, user: Value)

  // ---------------------------------------------------------------------------
  // Headers

  /** The headers of the two unauthenticated calls: only `Content-Type`. */
  const JsonHeaders: Headers := map["Content-Type" := JsonContentType]

  /**
   * `getAuthHeaders()`: `Content-Type` always, and `Authorization` that is
   * `Bearer <token>` for a stored non-empty token and empty otherwise; a
   * rejected storage read rejects the call.
   */
  function AuthHeaders(read: ReadResult): (r: Outcome<Headers>)
    ensures r.Returned? <==> read.Got?
    ensures r.Threw? ==> r.error == StorageError
    ensures r.Returned? ==> r.value.Keys == {"Content-Type", "Authorization"}
    ensures r.Returned? ==> r.value["Content-Type"] == JsonContentType
    ensures r.Returned? && TruthyString(read.item) ==>
              r.value["Authorization"] == "Bearer " + read.item.value
    ensures r.Returned? && !TruthyString(read.item) ==> r.value["Authorization"] == ""
  {
    match read
    case ReadFailed => Threw(StorageError)
    case Got(token) =>
      Returned(map["Content-Type" := JsonContentType,
                   "Authorization" := if TruthyString(token) then "Bearer " + token.value else ""])
  }

  /** A non-empty Authorization header determines the token it carries. */
  lemma BearerDeterminesToken(a: ReadResult, b: ReadResult)
    requires AuthHeaders(a).Returned? && AuthHeaders(b).Returned?
    requires AuthHeaders(a).value["Authorization"] != ""
    ensures AuthHeaders(a) == AuthHeaders(b) <==> a == b
  {
    if AuthHeaders(a) == AuthHeaders(b) {
      var ha := AuthHeaders(a).value["Authorization"];
      assert ha == "Bearer " + a.item.value;
      assert TruthyString(b.item);
      assert ha == "Bearer " + b.item.value;
      assert a.item.value == ha[7..] == b.item.value;
    }
  }

  // ---------------------------------------------------------------------------
  // Settling a reply

  /**
   * The common tail of every call that returns a body: a transport failure
   * or a non-ok response throws, and only an ok response whose body parses
   * gives that body back, unchanged.
   */
  function Settle<B>(reply: Reply<B>, failure: string): (r: Outcome<B>)
    ensures r.Returned? <==> reply.Response? && reply.ok && reply.body.Some?
    ensures r.Returned? ==> r.value == reply.body.value
    ensures reply.NetworkFailure? ==> r == Threw(NetworkError)
    ensures reply.Response? && !reply.ok ==> r == Threw(HttpError(failure))
    ensures reply.Response? && reply.ok && reply.body.None? ==> r == Threw(JsonError)
  {
    match reply
    case NetworkFailure => Threw(NetworkError)
    case Response(ok, body) =>
      if !ok then Threw(HttpError(failure))
      else if body.None? then Threw(JsonError)
      else Returned(body.value)
  }

  /**
   * An authenticated call: read the headers, then send the request and
   * settle its reply. A rejected storage read means nothing is sent.
   */
  function Authorized<B>(read: ReadResult, verb: Method, url: string, body: Payload,
                         reply: Reply<B>, failure: string): (e: Exchange<B>)
    ensures e.sent.Some? <==> read.Got?
    ensures e.sent.Some? ==> e.sent.value == Request(verb, url, AuthHeaders(read).value, body)
    ensures read.ReadFailed? ==> e.outcome == Threw(StorageError)
    ensures read.Got? ==> e.outcome == Settle(reply, failure)
  {
    match AuthHeaders(read)
    case Threw(err) => Exchange(None, Threw(err))
    case Returned(headers) => Exchange(Some(Request(verb, url, headers, body)), Settle(reply, failure))
  }

  // ---------------------------------------------------------------------------
  // URLs

  const LoginUrl := BaseUrl + "/auth/login"
  const RegisterUrl := BaseUrl + "/auth/register"
  const TareasUrl := BaseUrl + "/tareas"

  /** `${API_BASE_URL}/tareas/${id}`. */
  function TareaUrl(id: int): (url: string)
    ensures |url| > |TareasUrl| + 1 && url[..|TareasUrl| + 1] == TareasUrl + "/"
    ensures ParseInteger(url[|TareasUrl| + 1..]) == Some(id)
  {
    assert (TareasUrl + "/" + NumberToString(id))[|TareasUrl| + 1..] == NumberToString(id);
    NumberToStringRoundTrip(id);
    TareasUrl + "/" + NumberToString(id)
  }

  /**
   * Each note has its own URL: different ids give different URLs, none of
   * them the collection URL, and the id can be read back from the URL.
   */
  lemma TareaUrlsDistinct(a: int, b: int)
    ensures TareaUrl(a) == TareaUrl(b) <==> a == b
    ensures TareaUrl(a) != TareasUrl
    ensures |TareaUrl(a)| > |TareasUrl| + 1 && TareaUrl(a)[..|TareasUrl| + 1] == TareasUrl + "/"
    ensures ParseInteger(TareaUrl(a)[|TareasUrl| + 1..]) == Some(a)
  {
    var p := TareasUrl + "/";
    assert TareaUrl(a) == p + NumberToString(a);
    assert TareaUrl(b) == p + NumberToString(b);
    assert TareaUrl(a)[|p|..] == NumberToString(a);
    assert TareaUrl(b)[|p|..] == NumberToString(b);
    NumberToStringInjective(a, b);
    NumberToStringRoundTrip(a);
  }

  // ---------------------------------------------------------------------------
  // Authentication calls

  /** `loginUser`: POST to `/auth/login` without an Authorization header. */
  function LoginUser(username: string, password: string, reply: Reply<LoginBody>): (e: Exchange<LoginBody>)
    ensures e.sent == Some(Request(Post, LoginUrl, JsonHeaders, Credentials(username, password)))
    ensures "Authorization" !in e.sent.value.headers
    ensures e.outcome.Returned? <==> reply.Response? && reply.ok && reply.body.Some?
    ensures e.outcome.Returned? ==> e.outcome.value == reply.body.value
    ensures reply.Response? && !reply.ok ==> e.outcome == Threw(HttpError("Error en login"))
  {
    Exchange(Some(Request(Post, LoginUrl, JsonHeaders, Credentials(username, password))),
             Settle(reply, "Error en login"))
  }

  /** `data.id`; reading a property of `null` or `undefined` throws. */
  function ReadId(data: Value): (r: Outcome<Value>)
    ensures r.Threw? <==> data.Null? || data.Undefined?
    ensures r.Threw? ==> r.error == TypeError
    ensures data.Obj? ==> r == Returned(if "id" in data.fields then data.fields["id"] else Undefined)
    ensures !data.Obj? && r.Returned? ==> r.value == Undefined
  {
    match data
    case Null => Threw(TypeError)
    case Undefined => Threw(TypeError)
    case Obj(fields) => Returned(if "id" in fields then fields["id"] else Undefined)
    case _ => Returned(Undefined)
  }

  /**
   * `registerUser`: POST to `/auth/register` without an Authorization
   * header; success is the truthiness of the body's `id`, and `user` is the
   * whole parsed body.
   */
  function RegisterUser(username: string, password: string, reply: Reply<Value>): (e: Exchange<Registration>)
    ensures e.sent == Some(Request(Post, RegisterUrl, JsonHeaders, Credentials(username, password)))
    ensures "Authorization" !in e.sent.value.headers
    ensures e.outcome.Returned? <==>
              reply.Response? && reply.ok && reply.body.Some? && !reply.body.value.Null? && !reply.body.value.Undefined?
    ensures e.outcome.Returned? ==> e.outcome.value.user == reply.body.value
    ensures e.outcome.Returned? ==>
              (e.outcome.value.success <==>
                 reply.body.value.Obj? && "id" in reply.body.value.fields && Truthy(reply.body.value.fields["id"]))
    ensures reply.Response? && !reply.ok ==> e.outcome == Threw(HttpError("Error en registro"))
  {
    var sent := Some(Request(Post, RegisterUrl, JsonHeaders, Credentials(username, password)));
    match Settle(reply, "Error en registro")
    case Threw(err) => Exchange(sent, Threw(err))
    case Returned(data) =>
      match ReadId(data)
      case Threw(err) => Exchange(sent, Threw(err))
      case Returned(id) => Exchange(sent, Returned(Registration(Truthy(id), data)))
  }

  /**
   * On an ok reply, registration succeeds exactly for a body whose `id` is
   * truthy: an id of 0, an empty string id, or no id at all is a failure,
   * and the body is handed back as `user` either way.
   */
  lemma RegistrationFollowsId(username: string, password: string, fields: map<string, Value>)
    ensures var e := RegisterUser(username, password, Response(true, Some(Obj(fields))));
            && e.outcome.Returned?
            && e.outcome.value.user == Obj(fields)
            && (e.outcome.value.success <==> "id" in fields && Truthy(fields["id"]))
    ensures "id" !in fields ==>
              !RegisterUser(username, password, Response(true, Some(Obj(fields)))).outcome.value.success
    ensures RegisterUser(username, password, Response(true, Some(Obj(map["id" := Num(0)])))).outcome
            == Returned(Registration(false, Obj(map["id" := Num(0)])))
    ensures RegisterUser(username, password, Response(true, Some(Obj(map["id" := Num(7)])))).outcome
            == Returned(Registration(true, Obj(map["id" := Num(7)])))
  {
  }

  // ---------------------------------------------------------------------------
  // Note CRUD

  /** `api.getTareas`: GET the collection. */
  function GetTareas(read: ReadResult, reply: Reply<seq<Tarea>>): (e: Exchange<seq<Tarea>>)
    ensures e.sent.Some? <==> read.Got?
    ensures e.sent.Some? ==> e.sent.value == Request(Get, TareasUrl, AuthHeaders(read).value, NoBody)
    ensures e.outcome.Returned? <==> read.Got? && reply.Response? && reply.ok && reply.body.Some?
    ensures e.outcome.Returned? ==> e.outcome.value == reply.body.value
    ensures read.Got? && reply.Response? && !reply.ok ==> e.outcome == Threw(HttpError("Error fetching tareas"))
  {
    Authorized(read, Get, TareasUrl, NoBody, reply, "Error fetching tareas")
  }

  /** `api.getTarea(id)`: GET one note. */
  function GetTarea(id: int, read: ReadResult, reply: Reply<Tarea>): (e: Exchange<Tarea>)
    ensures e.sent.Some? <==> read.Got?
    ensures e.sent.Some? ==> e.sent.value == Request(Get, TareaUrl(id), AuthHeaders(read).value, NoBody)
    ensures e.outcome.Returned? <==> read.Got? && reply.Response? && reply.ok && reply.body.Some?
    ensures e.outcome.Returned? ==> e.outcome.value == reply.body.value
    ensures read.Got? && reply.Response? && !reply.ok ==>
              e.outcome == Threw(HttpError("Error fetching tarea " + NumberToString(id)))
  {
    Authorized(read, Get, TareaUrl(id), NoBody, reply, "Error fetching tarea " + NumberToString(id))
  }

  /** `api.createTarea(tarea)`: POST the new note to the collection. */
  function CreateTarea(tarea: NewTarea, read: ReadResult, reply: Reply<Tarea>): (e: Exchange<Tarea>)
    ensures e.sent.Some? <==> read.Got?
    ensures e.sent.Some? ==> e.sent.value == Request(Post, TareasUrl, AuthHeaders(read).value, Create(tarea))
    ensures e.outcome.Returned? <==> read.Got? && reply.Response? && reply.ok && reply.body.Some?
    ensures e.outcome.Returned? ==> e.outcome.value == reply.body.value
    ensures read.Got? && reply.Response? && !reply.ok ==> e.outcome == Threw(HttpError("Error creating tarea"))
  {
    Authorized(read, Post, TareasUrl, Create(tarea), reply, "Error creating tarea")
  }

  /** `api.updateTarea(id, tarea)`: PUT the changed fields to the note's URL. */
  function UpdateTarea(id: int, patch: TareaPatch, read: ReadResult, reply: Reply<Tarea>): (e: Exchange<Tarea>)
    ensures e.sent.Some? <==> read.Got?
    ensures e.sent.Some? ==> e.sent.value == Request(Put, TareaUrl(id), AuthHeaders(read).value, Update(patch))
    ensures e.outcome.Returned? <==> read.Got? && reply.Response? && reply.ok && reply.body.Some?
    ensures e.outcome.Returned? ==> e.outcome.value == reply.body.value
    ensures read.Got? && reply.Response? && !reply.ok ==>
              e.outcome == Threw(HttpError("Error updating tarea " + NumberToString(id)))
  {
    Authorized(read, Put, TareaUrl(id), Update(patch), reply, "Error updating tarea " + NumberToString(id))
  }

  /**
   * `api.deleteTarea(id)`: DELETE the note's URL. The body of the reply is
   * never parsed, so any ok response resolves, with nothing.
   */
  function DeleteTarea<B>(id: int, read: ReadResult, reply: Reply<B>): (e: Exchange<()>)
    ensures e.sent.Some? <==> read.Got?
    ensures e.sent.Some? ==> e.sent.value == Request(Delete, TareaUrl(id), AuthHeaders(read).value, NoBody)
    ensures e.outcome.Returned? <==> read.Got? && reply.Response? && reply.ok
    ensures read.ReadFailed? ==> e.outcome == Threw(StorageError)
    ensures reply.NetworkFailure? && read.Got? ==> e.outcome == Threw(NetworkError)
    ensures read.Got? && reply.Response? && !reply.ok ==>
              e.outcome == Threw(HttpError("Error deleting tarea " + NumberToString(id)))
  {
    match AuthHeaders(read)
    case Threw(err) => Exchange(None, Threw(err))
    case Returned(headers) =>
      var sent := Some(Request(Delete, TareaUrl(id), headers, NoBody));
      match reply
      case NetworkFailure => Exchange(sent, Threw(NetworkError))
      case Response(ok, _) =>
        if ok then Exchange(sent, Returned(()))
        else Exchange(sent, Threw(HttpError("Error deleting tarea " + NumberToString(id))))
  }

  /**
   * A non-ok response makes every call throw, whatever its body, so no
   * caller ever receives a body from a failed request.
   */
  lemma NonOkAlwaysThrows(id: int, username: string, password: string, tarea: NewTarea, patch: TareaPatch,
                          token: Option<string>, loginBody: Option<LoginBody>, registerBody: Option<Value>,
                          list: Option<seq<Tarea>>, one: Option<Tarea>)
    ensures LoginUser(username, password, Response(false, loginBody)).outcome.Threw?
    ensures RegisterUser(username, password, Response(false, registerBody)).outcome.Threw?
    ensures GetTareas(Got(token), Response(false, list)).outcome.Threw?
    ensures GetTarea(id, Got(token), Response(false, one)).outcome.Threw?
    ensures CreateTarea(tarea, Got(token), Response(false, one)).outcome.Threw?
    ensures UpdateTarea(id, patch, Got(token), Response(false, one)).outcome.Threw?
    ensures DeleteTarea(id, Got(token), Response(false, one)).outcome.Threw?
  {
  }
}
