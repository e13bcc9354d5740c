/**
 * The client's HTTP wrapper and session storage. `apiCall` is split into the request it builds
 * (headers, body) and the classification of what came back; `fetch` is replaced by a
 * `Transport` outcome, `JSON.stringify` and `JSON.parse` by function parameters. The device's
 * key-value storage is the `items` map of a `SessionStore`.
 */
module Api {
  import opened Wrappers
  import opened Text
  import opened Json

  /** `STUDENT_API_URL`: `API_BASE_URL` followed by `/student`. */
  const API_URL: string := "http://172.20.10.4:8000/api/student"

  const TOKEN_KEY: string := "userToken"
  const STUDENT_KEY: string := "studentData"

  const INVALID_DATA_MESSAGE: string := "Le serveur n'a pas retourné de données valides. Vérifiez que l'adresse API est correcte."
  const DEFAULT_ERROR_MESSAGE: string := "Une erreur s'est produite lors de la connexion au serveur"
  const NETWORK_FAILURE: string := "Network request failed"
  const UNREACHABLE_MESSAGE: string := "Impossible de se connecter au serveur. Vérifiez votre connexion Internet et l'adresse du serveur."

  // ------------------------------------------------------------------- the request side

  datatype Request = Request(url: string, verb: string, headers: map<string, string>, body: Option<string>)

  /** The headers of every call: JSON content type and accept, plus the bearer token when the
      call requires authentication and a non-empty token is stored. */
  function Headers(requiresAuth: bool, storedToken: Option<string>): (h: map<string, string>)
    ensures "Content-Type" in h && h["Content-Type"] == "application/json"
    ensures "Accept" in h && h["Accept"] == "application/json"
    ensures "Authorization" in h <==> requiresAuth && storedToken.Some? && storedToken.value != ""
    ensures "Authorization" in h ==> h["Authorization"] == "Bearer " + storedToken.value
    ensures h.Keys <= {"Content-Type", "Accept", "Authorization"}
  {
    var base := map["Content-Type" := "application/json", "Accept" := "application/json"];
    if requiresAuth && storedToken.Some? && storedToken.value != "" then
      base["Authorization" := "Bearer " + storedToken.value]
    else
      base
  }

  /** The `config` passed to `fetch`: the body is set, serialised, exactly when it is truthy. */
  function BuildRequest(endpoint: string, verb: string, body: Json, requiresAuth: bool,
                        storedToken: Option<string>, stringify: Json -> string): (r: Request)
    ensures r.url == API_URL + endpoint && r.verb == verb
    ensures r.headers == Headers(requiresAuth, storedToken)
    ensures r.body.Some? <==> Truthy(body)
    ensures r.body.Some? ==> r.body.value == stringify(body)
  {
    Request(API_URL + endpoint, verb, Headers(requiresAuth, storedToken),
            if Truthy(body) then Some(stringify(body)) else None)
  }

  // ------------------------------------------------------------------ the response side

  /** What `fetch` and `response.text()` gave: either a rejection with its message, or a
      response with its `ok` flag and the result of `JSON.parse` on its text (`None` when it
      did not parse). */
  datatype Transport = FetchFailed(message: string) | Received(ok: bool, parsed: Option<Json>)

  /** The body of the `try` after the text has been read. */
  function Classify(ok: bool, parsed: Option<Json>): (r: Result<Json, Error>)
    ensures parsed.None? ==> r == Failure(Error(INVALID_DATA_MESSAGE))
    ensures parsed == Some(JNull) ==> r.Failure? && r.error.NullAccess?
    ensures parsed.Some? && parsed.value != JNull && !ok ==>
      var m := Get(parsed.value, "message");
      r == Failure(Error(if Truthy(m) then ToText(m) else DEFAULT_ERROR_MESSAGE))
    ensures parsed.Some? && parsed.value != JNull && ok ==>
      var d := Get(parsed.value, "data");
      r == Success(if Truthy(d) then d else parsed.value)
    ensures r.Success? ==> r.value != JNull
  {
    match parsed
    case None => Failure(Error(INVALID_DATA_MESSAGE))
    case Some(data) =>
      if !ok then
        match Member(data, "message")
        case Failure(e) => Failure(e)
        case Success(m) => Failure(Error(ToText(Or(m, JStr(DEFAULT_ERROR_MESSAGE)))))
      else
        match Member(data, "data")
        case Failure(e) => Failure(e)
        case Success(d) => Success(Or(d, data))
  }

  /** The `catch` of `apiCall`: an error mentioning "Network request failed" is replaced by the
      connection-failure message, every other error is re-thrown as it is. */
  function RewriteError(e: Error): (r: Error)
    ensures e.Error? && Contains(e.message, NETWORK_FAILURE) ==> r == Error(UNREACHABLE_MESSAGE)
    ensures !(e.Error? && Contains(e.message, NETWORK_FAILURE)) ==> r == e
  {
    if e.Error? && Contains(e.message, NETWORK_FAILURE) then Error(UNREACHABLE_MESSAGE) else e
  }

  /** The outcome of `apiCall` for a given transport outcome. */
  function CallOutcome(t: Transport): (r: Result<Json, Error>)
    ensures r.Success? <==> t.Received? && t.ok && t.parsed.Some? && t.parsed.value != JNull
    ensures r.Success? ==> r == Classify(t.ok, t.parsed)
    ensures t.FetchFailed? ==> r == Failure(RewriteError(Error(t.message)))
    ensures t.Received? && Classify(t.ok, t.parsed).Failure? ==>
      r == Failure(RewriteError(Classify(t.ok, t.parsed).error))
  {
    match t
    case FetchFailed(m) => Failure(RewriteError(Error(m)))
    case Received(ok, parsed) =>
      match Classify(ok, parsed)
      case Success(v) => Success(v)
      case Failure(e) => Failure(RewriteError(e))
  }

  /** A connection failure always surfaces as the connection-failure message. */
  lemma NetworkFailureIsReported(rest: string)
    ensures CallOutcome(FetchFailed(NETWORK_FAILURE + rest)) == Failure(Error(UNREACHABLE_MESSAGE))
  {
    assert NETWORK_FAILURE <= NETWORK_FAILURE + rest;
  }

  // ------------------------------------------------------------------- session storage

  /** `getToken()`: the stored token, `null` when there is none. */
  function StoredToken(items: map<string, string>): (t: Option<string>)
    ensures t.Some? <==> TOKEN_KEY in items
    ensures t.Some? ==> t.value == items[TOKEN_KEY]
  {
    if TOKEN_KEY in items then Some(items[TOKEN_KEY]) else None
  }

  /** `getStoredStudentData()`: `null` when nothing (or the empty string) is stored, otherwise
      the parsed snapshot; a snapshot that does not parse throws. */
  function StoredStudent(items: map<string, string>, parse: string -> Option<Json>): (r: Result<Json, Error>)
    ensures STUDENT_KEY !in items || items[STUDENT_KEY] == "" ==> r == Success(JNull)
    ensures STUDENT_KEY in items && items[STUDENT_KEY] != "" ==>
      r == (if parse(items[STUDENT_KEY]).Some? then Success(parse(items[STUDENT_KEY]).value) else Failure(SyntaxError))
  {
    if STUDENT_KEY !in items || items[STUDENT_KEY] == "" then Success(JNull)
    else match parse(items[STUDENT_KEY])
      case None => Failure(SyntaxError)
      case Some(v) => Success(v)
  }

  /** `response.data || response`: `login` unwraps the payload once more. */
  function LoginPayload(response: Json): (data: Json)
    requires response != JNull
    ensures data != JNull
    ensures Truthy(Get(response, "data")) ==> data == Get(response, "data")
    ensures !Truthy(Get(response, "data")) ==> data == response
  {
    Or(Get(response, "data"), response)
  }

  /** The storage after a successful `login`: the token is written only when the payload has a
      truthy one, the student snapshot only when it has a truthy student; no other key changes. */
  function AfterLogin(items: map<string, string>, data: Json, stringify: Json -> string): (m: map<string, string>)
    requires data != JNull
    ensures forall k :: k != TOKEN_KEY && k != STUDENT_KEY ==> (k in m <==> k in items)
    ensures forall k :: k != TOKEN_KEY && k != STUDENT_KEY && k in items ==> m[k] == items[k]
    ensures Truthy(Get(data, "token")) ==> TOKEN_KEY in m && m[TOKEN_KEY] == ToText(Get(data, "token"))
    ensures !Truthy(Get(data, "token")) ==> StoredToken(m) == StoredToken(items)
    ensures Truthy(Get(data, "student")) ==> STUDENT_KEY in m && m[STUDENT_KEY] == stringify(Get(data, "student"))
    ensures !Truthy(Get(data, "student")) ==>
      (STUDENT_KEY in m <==> STUDENT_KEY in items) && (STUDENT_KEY in items ==> m[STUDENT_KEY] == items[STUDENT_KEY])
  {
    var token := Get(data, "token");
    var student := Get(data, "student");
    var withToken := if Truthy(token) then items[TOKEN_KEY := ToText(token)] else items;
    if Truthy(student) then withToken[STUDENT_KEY := stringify(student)] else withToken
  }

  /** What `login` stores, `getStoredStudentData` gives back, provided the JSON encoding of the
      student round-trips. */
  lemma StoredStudentAfterLogin(items: map<string, string>, data: Json,
                                stringify: Json -> string, parse: string -> Option<Json>)
    requires data != JNull && Truthy(Get(data, "student"))
    requires stringify(Get(data, "student")) != ""
    requires parse(stringify(Get(data, "student"))) == Some(Get(data, "student"))
    ensures StoredStudent(AfterLogin(items, data, stringify), parse) == Success(Get(data, "student"))
  {
  }

  /** The device storage and every operation of the API module that touches it. */
  class SessionStore {
    var items: map<string, string>

    constructor ()
      ensures items == map[]
    {
      items := map[];
    }

    /** `apiCall(endpoint, verb, body, requiresAuth)`: the request it sends, and what it
        returns or throws given the transport outcome `t`. The token is read only when the
        call requires authentication. */
    method ApiCall(endpoint: string, verb: string, body: Json, requiresAuth: bool,
                   stringify: Json -> string, t: Transport)
      returns (request: Request, outcome: Result<Json, Error>)
      ensures request == BuildRequest(endpoint, verb, body, requiresAuth,
                                      if requiresAuth then StoredToken(items) else None, stringify)
      ensures outcome == CallOutcome(t)
    {
      var token: Option<string> := None;
      if requiresAuth {
        token := if TOKEN_KEY in items then Some(items[TOKEN_KEY]) else None;
      }
      request := BuildRequest(endpoint, verb, body, requiresAuth, token, stringify);
      outcome := CallOutcome(t);
    }

    /** `login(nni, password)`: an unauthenticated POST of the credentials; on success the
        payload's token and student are stored, on failure the error is re-thrown and the
        storage is untouched. */
    method Login(nni: string, password: string, stringify: Json -> string, t: Transport)
      returns (request: Request, result: Result<Json, Error>)
      modifies this
      ensures request.url == API_URL + "/login" && request.verb == "POST"
      ensures "Authorization" !in request.headers
      ensures request.body == Some(stringify(JObj(map["nni" := JStr(nni), "password" := JStr(password)])))
      ensures CallOutcome(t).Failure? ==> result == CallOutcome(t) && items == old(items)
      ensures CallOutcome(t).Success? ==>
        && result == Success(LoginPayload(CallOutcome(t).value))
        && items == AfterLogin(old(items), result.value, stringify)
    {
      var credentials := JObj(map["nni" := JStr(nni), "password" := JStr(password)]);
      var response;
      request, response := ApiCall("/login", "POST", credentials, false, stringify, t);
      match response
      case Failure(e) =>
        result := Failure(e);
      case Success(v) =>
        var data := LoginPayload(v);
        var token := Get(data, "token");
        if Truthy(token) {
          items := items[TOKEN_KEY := ToText(token)];
        }
        var student := Get(data, "student");
        if Truthy(student) {
          items := items[STUDENT_KEY := stringify(student)];
        }
        result := Success(data);
    }

    /** `logout()`: an authenticated POST whose failure is swallowed; both keys are removed
        whatever the server answered. */
    method Logout(stringify: Json -> string, t: Transport) returns (request: Request)
      modifies this
      ensures request.url == API_URL + "/logout" && request.verb == "POST" && request.body.None?
      ensures request.headers == Headers(true, StoredToken(old(items)))
      ensures items == old(items) - {TOKEN_KEY, STUDENT_KEY}
    {
      var outcome;
      request, outcome := ApiCall("/logout", "POST", JNull, true, stringify, t);
      items := items - {TOKEN_KEY};
      items := items - {STUDENT_KEY};
    }

    /** `getProfile()`: an authenticated GET of `/profile`. */
    method GetProfile(stringify: Json -> string, t: Transport)
      returns (request: Request, outcome: Result<Json, Error>)
      ensures request == BuildRequest("/profile", "GET", JNull, true, StoredToken(items), stringify)
      ensures outcome == CallOutcome(t)
    {
      request, outcome := ApiCall("/profile", "GET", JNull, true, stringify, t);
    }

    /** `getSchedule()`: an authenticated GET of `/schedule`. */
    method GetSchedule(stringify: Json -> string, t: Transport)
      returns (request: Request, outcome: Result<Json, Error>)
      ensures request == BuildRequest("/schedule", "GET", JNull, true, StoredToken(items), stringify)
      ensures outcome == CallOutcome(t)
    {
      request, outcome := ApiCall("/schedule", "GET", JNull, true, stringify, t);
    }

    method GetStoredStudentData(parse: string -> Option<Json>) returns (r: Result<Json, Error>)
      ensures r == StoredStudent(items, parse)
    {
      if STUDENT_KEY in items && items[STUDENT_KEY] != "" {
        var parsed := parse(items[STUDENT_KEY]);
        r := if parsed.Some? then Success(parsed.value) else Failure(SyntaxError);
      } else {
        r := Success(JNull);
      }
    }

    /** `isLoggedIn()`: a non-empty token is stored. */
    method IsLoggedIn() returns (b: bool)
      ensures b <==> TOKEN_KEY in items && items[TOKEN_KEY] != ""
    {
      b := TOKEN_KEY in items && items[TOKEN_KEY] != "";
    }
  }
}
