/**
 * The authentication provider of the client: the three pieces of React state `isLoading`,
 * `isAuthenticated` and `student` (and the push token), changed by `checkLoginStatus`,
 * `login`, `logout`, `updateStudent` and the push-notification setup. Each setter call is an
 * assignment to a field; the remote outcomes are parameters.
 */
module AuthContext {
  import opened Wrappers
  import opened Json
  import opened Api

  /** The student `checkLoginStatus` restores from storage: present exactly when a non-empty
      token is stored and the stored snapshot parses to a truthy value. */
  function RestoredStudent(items: map<string, string>, parse: string -> Option<Json>): (r: Option<Json>)
    ensures r.Some? <==>
      && TOKEN_KEY in items && items[TOKEN_KEY] != ""
      && STUDENT_KEY in items && items[STUDENT_KEY] != ""
      && parse(items[STUDENT_KEY]).Some? && Truthy(parse(items[STUDENT_KEY]).value)
    ensures r.Some? ==> r == parse(items[STUDENT_KEY])
  {
    if TOKEN_KEY in items && items[TOKEN_KEY] != "" then
      match StoredStudent(items, parse)
      case Success(v) => if Truthy(v) then Some(v) else None
      case Failure(_) => None
    else
      None
  }

  /** After a successful `login` that received a token and a student, a restart restores that
      student, provided the JSON encoding of the student round-trips. */
  lemma RestoreAfterLogin(items: map<string, string>, data: Json,
                          stringify: Json -> string, parse: string -> Option<Json>)
    requires data != JNull
    requires Truthy(Get(data, "token")) && ToText(Get(data, "token")) != ""
    requires Truthy(Get(data, "student")) && stringify(Get(data, "student")) != ""
    requires parse(stringify(Get(data, "student"))) == Some(Get(data, "student"))
    ensures RestoredStudent(AfterLogin(items, data, stringify), parse) == Some(Get(data, "student"))
  {
    var m := AfterLogin(items, data, stringify);
    assert TOKEN_KEY in m && m[TOKEN_KEY] != "";
    assert STUDENT_KEY in m && parse(m[STUDENT_KEY]) == Some(Get(data, "student"));
  }

  /** After `logout` nothing can be restored, whatever was stored before. */
  lemma NothingRestoredAfterLogout(items: map<string, string>, parse: string -> Option<Json>)
    ensures RestoredStudent(items - {TOKEN_KEY, STUDENT_KEY}, parse) == None
  {
    assert TOKEN_KEY !in items - {TOKEN_KEY, STUDENT_KEY};
  }

  class AuthProvider {
    var isLoading: bool
    var isAuthenticated: bool
    var student: Json
    var expoPushToken: Option<string>
    /** Whether `notificationListenerCleanup.current` holds a cleanup function. */
    var listenersInstalled: bool
    const store: SessionStore

    constructor (store: SessionStore)
      ensures this.store == store
      ensures isLoading && !isAuthenticated && student == JNull
      ensures expoPushToken == None && !listenersInstalled
    {
      this.store := store;
      isLoading := true;
      isAuthenticated := false;
      student := JNull;
      expoPushToken := None;
      listenersInstalled := false;
    }

    /** `checkLoginStatus()`: loading ends in every case; the state becomes authenticated only
        with a stored token and a truthy stored student, and is untouched otherwise (a snapshot
        that does not parse is caught). */
    method CheckLoginStatus(parse: string -> Option<Json>)
      modifies this
      ensures !isLoading
      ensures RestoredStudent(store.items, parse).Some? ==>
        isAuthenticated && student == RestoredStudent(store.items, parse).value
      ensures RestoredStudent(store.items, parse).None? ==>
        isAuthenticated == old(isAuthenticated) && student == old(student)
      ensures expoPushToken == old(expoPushToken) && listenersInstalled == old(listenersInstalled)
    {
      var loggedIn := store.IsLoggedIn();
      if loggedIn {
        var studentData := store.GetStoredStudentData(parse);
        if studentData.Success? && Truthy(studentData.value) {
          student := studentData.value;
          isAuthenticated := true;
        }
      }
      isLoading := false;
    }

    /** `login(nni, password)`: on success the returned student is kept and the state is
        authenticated; on failure the error is passed on and nothing local changes. */
    method Login(nni: string, password: string, stringify: Json -> string, t: Transport)
      returns (request: Request, result: Result<Json, Error>)
      modifies this, store
      ensures request.url == API_URL + "/login" && request.verb == "POST"
      ensures CallOutcome(t).Failure? ==>
        && result == CallOutcome(t)
        && isAuthenticated == old(isAuthenticated) && student == old(student)
        && store.items == old(store.items)
      ensures CallOutcome(t).Success? ==>
        && result == Success(LoginPayload(CallOutcome(t).value))
        && isAuthenticated && student == Get(result.value, "student")
        && store.items == AfterLogin(old(store.items), result.value, stringify)
      ensures isLoading == old(isLoading) && expoPushToken == old(expoPushToken)
      ensures listenersInstalled == old(listenersInstalled)
    {
      request, result := store.Login(nni, password, stringify, t);
      if result.Success? {
        student := Get(result.value, "student");
        isAuthenticated := true;
      }
    }

    /** `logout()`: whatever the server answers, the storage is cleared and the local state
        is reset. */
    method Logout(stringify: Json -> string, t: Transport) returns (request: Request)
      modifies this, store
      ensures request.url == API_URL + "/logout"
      ensures !isAuthenticated && student == JNull
      ensures store.items == old(store.items) - {TOKEN_KEY, STUDENT_KEY}
      ensures isLoading == old(isLoading) && expoPushToken == old(expoPushToken)
      ensures listenersInstalled == old(listenersInstalled)
    {
      request := store.Logout(stringify, t);
      student := JNull;
      isAuthenticated := false;
    }

    /** `updateStudent(studentData)`: replaces the student and nothing else. */
    method UpdateStudent(studentData: Json)
      modifies this
      ensures student == studentData
      ensures isAuthenticated == old(isAuthenticated) && isLoading == old(isLoading)
      ensures expoPushToken == old(expoPushToken) && listenersInstalled == old(listenersInstalled)
    {
      student := studentData;
    }

    /** `setupPushNotifications()`, given what the registration gave back (a token, no token,
        or a thrown error) and whether installing the listeners succeeded. A truthy token is
        kept; `api.savePushToken` is not exported by the API module, so saving it always throws
        and is caught. No failure reaches the authentication state. */
    method SetupPushNotifications(registration: Result<Option<string>, Error>, listenersOk: bool)
      modifies this
      ensures isAuthenticated == old(isAuthenticated) && student == old(student)
      ensures isLoading == old(isLoading)
      ensures expoPushToken ==
        (if registration.Success? && registration.value.Some? && registration.value.value != ""
         then registration.value else old(expoPushToken))
      ensures listenersInstalled == ((registration.Success? && listenersOk) || old(listenersInstalled))
    {
      match registration
      case Failure(_) =>
      case Success(token) =>
        if token.Some? && token.value != "" {
          expoPushToken := token;
        }
        if listenersOk {
          listenersInstalled := true;
        }
    }
  }
}
