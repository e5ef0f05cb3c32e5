/** The login form (backoffice/src/pages/Login.tsx). `handleSubmit` is an async
    handler; the model splits it at its `await`: `BeginSubmit` is the part that runs
    on the click (clear the login error, validate, raise the loading flag) and
    `FinishSubmit` is the continuation that runs when `fetch` settles. What `fetch`
    and `response.json()` produce is an input (`Reply`). `localStorage["token"]` is
    the field `token`; toasts are recorded by title; `onSubmit` calls are recorded in
    `submitted`; the delayed `navigate("/home")` is the flag `redirectScheduled`. */
module LoginPage {
  import opened Wrappers
  import opened JsText
  import opened Credentials

  // Messages thrown for non-2xx statuses.
  const UNAUTHORIZED_MESSAGE := "Credenciales inválidas"
  const NOT_FOUND_MESSAGE := NOT_FOUND_MARKER + NOT_FOUND_ADVICE
  const SERVER_ERROR_MESSAGE := "Error interno del servidor"

  // Substrings the `catch` block looks for, in order.
  const CREDENTIALS_MARKER := "Credenciales inválidas"
  const NOT_FOUND_MARKER := "Endpoint no encontrado"
  const FETCH_FAILED_MARKER := "Failed to fetch"
  /** What the 404 message adds after its marker. */
  const NOT_FOUND_ADVICE := " - Verifica que el servidor esté activo"

  // Texts the `catch` block puts in `loginError`.
  const INVALID_CREDENTIALS_TEXT := "Las credenciales ingresadas no son válidas"
  const SERVER_UNAVAILABLE_TEXT := "El servidor no está disponible o el endpoint no existe"
  const CONNECTION_TEXT := "Error de conexión. Verifica tu conexión a internet."

  // Toast titles.
  const SUCCESS_TITLE := "Login exitoso"
  const SERVER_UNAVAILABLE_TITLE := "Servidor no disponible"
  const CONNECTION_TITLE := "Error de conexión"
  const ERROR_TITLE := "Error"

  const BEARER_PREFIX := "Bearer "

  /** `data.data` or `data.user`: an object that may carry a `token`. */
  datatype Holder = Holder(token: Option<string>)

  /** The fields of the parsed JSON body that the token search reads; `None` is a
      missing or `null` field. */
  datatype Body = Body(
    token: Option<string>,
    accessToken: Option<string>,
    access_token: Option<string>,
    authToken: Option<string>,
    jwt: Option<string>,
    data: Option<Holder>,
    user: Option<Holder>)

  /** What `response.json()` gives: a body, or the message of the error it throws. */
  datatype Payload = Json(body: Body) | Malformed(message: string)

  /** A response: status, status text, the two header lookups as written
      (`get("Authorization")`, `get("authorization")`) and the payload. */
  datatype Response = Response(
    status: nat,
    statusText: string,
    authorization: Option<string>,
    authorizationLower: Option<string>,
    payload: Payload)

  /** How `fetch` settles: with a response, or by rejecting with an error message
      (for a network failure, "Failed to fetch" in Chromium browsers). */
  datatype Reply = Received(response: Response) | Rejected(message: string)

  /** What the `catch` block does with a message: the login error text, whether the
      error modal opens, and the title of the toast it shows, if any. */
  datatype ErrorView = ErrorView(loginError: string, openModal: bool, toast: Option<string>)

  /** How the `try` block ends: it reaches the end with the token it found (if any),
      or it throws with a message. */
  datatype Settlement = Success(found: Option<string>) | Failure(message: string)

  /** `response.ok`. */
  predicate IsOk(status: nat)
    ensures IsOk(status) ==> status != 401 && status != 404 && status != 500
  {
    200 <= status <= 299
  }

  /** The message thrown for a status that is not ok. */
  function StatusMessage(status: nat, statusText: string): (m: string)
    ensures m == UNAUTHORIZED_MESSAGE <==> status == 401
    ensures m == NOT_FOUND_MESSAGE <==> status == 404
    ensures m == SERVER_ERROR_MESSAGE <==> status == 500
  {
    if status == 401 then UNAUTHORIZED_MESSAGE
    else if status == 404 then NOT_FOUND_MESSAGE
    else if status == 500 then SERVER_ERROR_MESSAGE
    else
      var d := DecimalString(status);
      var g := "Error " + d + ": " + statusText;
      assert g[0] == 'E' && g[1] == 'r' && g[6] == d[0];
      g
  }

  /** The `catch` block: the first marker the message includes decides the outcome;
      a message with none of them is shown as it is. */
  function Route(message: string): (v: ErrorView)
    ensures v.openModal <==> Includes(message, CREDENTIALS_MARKER)
    ensures v.toast.None? <==> v.openModal
  {
    if Includes(message, CREDENTIALS_MARKER) then
      ErrorView(INVALID_CREDENTIALS_TEXT, true, None)
    else if Includes(message, NOT_FOUND_MARKER) then
      ErrorView(SERVER_UNAVAILABLE_TEXT, false, Some(SERVER_UNAVAILABLE_TITLE))
    else if Includes(message, FETCH_FAILED_MARKER) then
      ErrorView(CONNECTION_TEXT, false, Some(CONNECTION_TITLE))
    else
      ErrorView(message, false, Some(ERROR_TITLE))
  }

  /** JavaScript truthiness of an optional string: present and not empty. */
  predicate Truthy(s: Option<string>)
  {
    s.Some? && s.value != ""
  }

  function HolderToken(h: Option<Holder>): Option<string>
  {
    if h.Some? then h.value.token else None
  }

  /** The token candidates in the order the search tries them: the two header
      lookups, then `token`, `accessToken`, `access_token`, `authToken`, `jwt`,
      `data.token` and `user.token` of the body. */
  function Candidates(r: Response, b: Body): (c: seq<Option<string>>)
    ensures |c| == 9
  {
    HeaderCandidates(r) + BodyCandidates(b)
  }

  function HeaderCandidates(r: Response): (c: seq<Option<string>>)
    ensures |c| == 2
  {
    [r.authorization, r.authorizationLower]
  }

  function BodyCandidates(b: Body): (c: seq<Option<string>>)
    ensures |c| == 7
  {
    [b.token, b.accessToken, b.access_token, b.authToken, b.jwt,
     HolderToken(b.data), HolderToken(b.user)]
  }

  /** Index `i` holds the first truthy candidate. */
  predicate FirstTruthyAt(c: seq<Option<string>>, i: int)
  {
    0 <= i < |c| && Truthy(c[i]) && forall j :: 0 <= j < i ==> !Truthy(c[j])
  }

  /** The priority rule: the first truthy candidate, or none when no candidate is. */
  function FirstTruthy(c: seq<Option<string>>): (r: Option<string>)
    ensures r.None? <==> forall i :: 0 <= i < |c| ==> !Truthy(c[i])
    ensures forall i :: FirstTruthyAt(c, i) ==> r == c[i]
    ensures r.Some? ==> r.value != ""
  {
    if c == [] then None
    else if Truthy(c[0]) then c[0]
    else
      var r := FirstTruthy(c[1..]);
      assert forall i :: FirstTruthyAt(c, i) ==> FirstTruthyAt(c[1..], i - 1);
      r
  }

  /** Searching a concatenation searches the first part, then the second. */
  lemma {:induction false} FirstTruthyAppend(a: seq<Option<string>>, b: seq<Option<string>>)
    ensures FirstTruthy(a + b) == if FirstTruthy(a).Some? then FirstTruthy(a) else FirstTruthy(b)
  {
    if a != [] {
      assert (a + b)[0] == a[0];
      assert (a + b)[1..] == a[1..] + b;
      FirstTruthyAppend(a[1..], b);
    } else {
      assert a + b == b;
    }
  }

  /** Once a candidate is found, the candidates after it do not matter. */
  lemma {:induction false} FirstTruthyIgnoresLater(c: seq<Option<string>>, d: seq<Option<string>>, k: nat)
    requires k < |c| && k < |d| && c[..k + 1] == d[..k + 1]
    requires Truthy(c[k])
    ensures FirstTruthy(c) == FirstTruthy(d)
  {
    assert c[0] == c[..k + 1][0] == d[..k + 1][0] == d[0];
    if !Truthy(c[0]) {
      assert c[1..][..k] == c[..k + 1][1..] == d[..k + 1][1..] == d[1..][..k];
      assert c[1..][k - 1] == c[k];
      FirstTruthyIgnoresLater(c[1..], d[1..], k - 1);
    }
  }

  /** `token.startsWith('Bearer ') ? token : \`Bearer ${token}\``. */
  function BearerToken(t: string): (r: string)
    ensures StartsWith(r, BEARER_PREFIX)
    ensures StartsWith(t, BEARER_PREFIX) ==> r == t
    ensures !StartsWith(t, BEARER_PREFIX) ==> r == BEARER_PREFIX + t
  {
    if StartsWith(t, BEARER_PREFIX) then t else BEARER_PREFIX + t
  }

  /** Normalising twice is normalising once. */
  lemma BearerIdempotent(t: string)
    ensures BearerToken(BearerToken(t)) == BearerToken(t)
  {
  }

  /** The stored value ends with the credential found: nothing of it is lost, and at
      most the prefix is added. */
  lemma BearerKeepsCredential(t: string)
    ensures var r := BearerToken(t);
      |t| <= |r| <= |t| + |BEARER_PREFIX| && r[|r| - |t|..] == t
  {
    if !StartsWith(t, BEARER_PREFIX) {
      var r := BEARER_PREFIX + t;
      assert r[|r| - |t|..] == t;
    }
  }

  /** The `try` block of `handleSubmit` after `fetch` settles. */
  function Settle(reply: Reply): (s: Settlement)
    ensures s.Success? ==>
      reply.Received? && IsOk(reply.response.status) && reply.response.payload.Json?
    ensures reply.Rejected? ==> s == Failure(reply.message)
    ensures reply.Received? && !IsOk(reply.response.status) ==>
      s == Failure(StatusMessage(reply.response.status, reply.response.statusText))
    ensures reply.Received? && IsOk(reply.response.status) ==>
      var r := reply.response;
      match r.payload
      case Malformed(m) => s == Failure(m)
      case Json(b) => s == Success(FirstTruthy(Candidates(r, b)))
  {
    match reply
    case Rejected(m) => Failure(m)
    case Received(r) =>
      if !IsOk(r.status) then Failure(StatusMessage(r.status, r.statusText))
      else match r.payload
        case Malformed(m) => Failure(m)
        case Json(b) => Success(FirstTruthy(Candidates(r, b)))
  }

  /** `localStorage["token"]` after the continuation, given its value before. */
  function StoredToken(previous: Option<string>, reply: Reply): (t: Option<string>)
    ensures Settle(reply).Failure? ==> t == previous
    ensures t != previous ==> t.Some? && StartsWith(t.value, BEARER_PREFIX)
  {
    match Settle(reply)
    case Success(Some(t)) => Some(BearerToken(t))
    case _ => previous
  }

  /** The store is written only on a 2xx response with a JSON body in which some
      candidate is truthy, and then with the Bearer form of the first such candidate;
      otherwise it keeps its previous value. */
  lemma StoreWriteRule(previous: Option<string>, reply: Reply)
    ensures StoredToken(previous, reply) != previous ==>
      reply.Received? && IsOk(reply.response.status) && reply.response.payload.Json?
    ensures (reply.Received? && IsOk(reply.response.status) && reply.response.payload.Json?) ==>
      var r := reply.response;
      var c := Candidates(r, r.payload.body);
      (forall i :: FirstTruthyAt(c, i) ==> StoredToken(previous, reply) == Some(BearerToken(c[i].value)))
      && ((forall i :: 0 <= i < 9 ==> !Truthy(c[i])) ==> StoredToken(previous, reply) == previous)
    ensures StoredToken(previous, reply) != previous ==>
      StartsWith(StoredToken(previous, reply).value, BEARER_PREFIX)
  {
  }

  /** A 401 opens the invalid-credentials modal and shows no toast. */
  lemma UnauthorizedRoute(statusText: string)
    ensures Route(StatusMessage(401, statusText)) == ErrorView(INVALID_CREDENTIALS_TEXT, true, None)
  {
    StartsWithIncludes(UNAUTHORIZED_MESSAGE, CREDENTIALS_MARKER);
  }

  /** A 404 reports the server as unavailable. */
  lemma NotFoundRoute(statusText: string)
    ensures Route(StatusMessage(404, statusText))
         == ErrorView(SERVER_UNAVAILABLE_TEXT, false, Some(SERVER_UNAVAILABLE_TITLE))
  {
    NotFoundMessageMarkers();
  }

  lemma NotFoundMessageMarkers()
    ensures !Includes(NOT_FOUND_MESSAGE, CREDENTIALS_MARKER)
    ensures Includes(NOT_FOUND_MESSAGE, NOT_FOUND_MARKER)
  {
    assert Lacks(NOT_FOUND_MARKER, 'C');
    NotFoundAdviceLacksC();
    LacksAppend(NOT_FOUND_MARKER, NOT_FOUND_ADVICE, 'C');
    NotIncludesByFirstChar(NOT_FOUND_MESSAGE, CREDENTIALS_MARKER);
    assert NOT_FOUND_MESSAGE[..|NOT_FOUND_MARKER|] == NOT_FOUND_MARKER;
    StartsWithIncludes(NOT_FOUND_MESSAGE, NOT_FOUND_MARKER);
  }

  lemma NotFoundAdviceLacksC()
    ensures Lacks(NOT_FOUND_ADVICE, 'C')
  {
  }

  /** A 500 matches no marker, so its message is shown as it is, with an error toast. */
  lemma ServerErrorRoute(statusText: string)
    ensures Route(StatusMessage(500, statusText))
         == ErrorView(SERVER_ERROR_MESSAGE, false, Some(ERROR_TITLE))
  {
    ServerErrorMessageMarkers();
  }

  lemma ServerErrorMessageMarkers()
    ensures !Includes(SERVER_ERROR_MESSAGE, CREDENTIALS_MARKER)
    ensures !Includes(SERVER_ERROR_MESSAGE, NOT_FOUND_MARKER)
    ensures !Includes(SERVER_ERROR_MESSAGE, FETCH_FAILED_MARKER)
  {
    assert Lacks(SERVER_ERROR_MESSAGE, 'C') && Lacks(SERVER_ERROR_MESSAGE, 'F');
    NotIncludesByFirstChar(SERVER_ERROR_MESSAGE, CREDENTIALS_MARKER);
    NotIncludesByFirstChar(SERVER_ERROR_MESSAGE, FETCH_FAILED_MARKER);
    assert forall i :: 0 <= i < |SERVER_ERROR_MESSAGE| - 1 ==>
      SERVER_ERROR_MESSAGE[i] != 'E' || SERVER_ERROR_MESSAGE[i + 1] != 'n';
    NotIncludesByFirstTwo(SERVER_ERROR_MESSAGE, NOT_FOUND_MARKER);
  }

  /** The message of any other failing status is "Error ", the status in decimal,
      ": " and the status text; the status can be read back from it. */
  lemma OtherStatusMessage(status: nat, statusText: string) returns (digits: string)
    requires !IsOk(status) && status != 401 && status != 404 && status != 500
    ensures StatusMessage(status, statusText) == "Error " + digits + ": " + statusText
    ensures |digits| >= 1 && forall i :: 0 <= i < |digits| ==> IsDigit(digits[i])
    ensures |digits| == 1 || digits[0] != '0'
    ensures DecimalValue(digits) == status
  {
    digits := DecimalString(status);
    DecimalRoundTrip(status);
  }

  /** For any other failing status the outcome is decided by the status text alone: the
      message includes a marker exactly when the status text does. In particular a
      server whose status text includes "Credenciales inválidas" opens the modal
      whatever the status. */
  lemma OtherStatusRouteFollowsText(status: nat, statusText: string)
    requires !IsOk(status) && status != 401 && status != 404 && status != 500
    ensures Includes(StatusMessage(status, statusText), CREDENTIALS_MARKER)
        <==> Includes(statusText, CREDENTIALS_MARKER)
    ensures Includes(StatusMessage(status, statusText), NOT_FOUND_MARKER)
        <==> Includes(statusText, NOT_FOUND_MARKER)
    ensures Includes(StatusMessage(status, statusText), FETCH_FAILED_MARKER)
        <==> Includes(statusText, FETCH_FAILED_MARKER)
    ensures Route(StatusMessage(status, statusText)).openModal
        <==> Includes(statusText, CREDENTIALS_MARKER)
    ensures var m := StatusMessage(status, statusText);
      Route(m) ==
        if Includes(statusText, CREDENTIALS_MARKER) then
          ErrorView(INVALID_CREDENTIALS_TEXT, true, None)
        else if Includes(statusText, NOT_FOUND_MARKER) then
          ErrorView(SERVER_UNAVAILABLE_TEXT, false, Some(SERVER_UNAVAILABLE_TITLE))
        else if Includes(statusText, FETCH_FAILED_MARKER) then
          ErrorView(CONNECTION_TEXT, false, Some(CONNECTION_TITLE))
        else
          ErrorView(m, false, Some(ERROR_TITLE))
  {
    var p := "Error " + DecimalString(status) + ": ";
    assert StatusMessage(status, statusText) == p + statusText;
    ErrorPrefixShape(status);
    NoOccurrenceInPrefix(p, statusText, CREDENTIALS_MARKER);
    IncludesPastPrefix(p, statusText, CREDENTIALS_MARKER);
    NoOccurrenceInPrefix(p, statusText, NOT_FOUND_MARKER);
    IncludesPastPrefix(p, statusText, NOT_FOUND_MARKER);
    NoOccurrenceInPrefix(p, statusText, FETCH_FAILED_MARKER);
    IncludesPastPrefix(p, statusText, FETCH_FAILED_MARKER);
  }

  /** "Error <digits>: " starts with "Er" and has no other "E", and no "C" or "F". */
  lemma ErrorPrefixShape(status: nat)
    ensures var p := "Error " + DecimalString(status) + ": ";
      p[0] == 'E' && p[1] == 'r'
      && (forall i :: 1 <= i < |p| ==> p[i] != 'E')
      && Lacks(p, 'C') && Lacks(p, 'F')
  {
    var d := DecimalString(status);
    var p := "Error " + d + ": ";
    forall i | 0 <= i < |p| ensures (i > 0 ==> p[i] != 'E') && p[i] != 'C' && p[i] != 'F' {
      if 6 <= i < 6 + |d| {
        assert p[i] == d[i - 6];
      }
    }
  }

  /** An occurrence cannot start inside a prefix whose characters rule it out. */
  lemma NoOccurrenceInPrefix(p: string, t: string, sub: string)
    requires |sub| >= 2
    requires forall i :: 0 <= i < |p| ==> p[i] != sub[0] || (i + 1 < |p| && p[i + 1] != sub[1])
    ensures forall i :: 0 <= i < |p| ==> !OccursAt(p + t, sub, i)
  {
    var s := p + t;
    forall i | 0 <= i < |p| ensures !OccursAt(s, sub, i) {
      if i <= |s| - |sub| {
        var w := s[i..i + |sub|];
        assert w[0] == s[i] == p[i];
        if p[i] == sub[0] {
          assert i + 1 < |p| && p[i + 1] != sub[1];
          assert w[1] == s[i + 1] == p[i + 1] != sub[1];
        }
      }
    }
  }

  /** When no occurrence starts inside `p`, `p + t` includes `sub` exactly when `t` does. */
  lemma IncludesPastPrefix(p: string, t: string, sub: string)
    requires forall i :: 0 <= i < |p| ==> !OccursAt(p + t, sub, i)
    ensures Includes(p + t, sub) <==> Includes(t, sub)
  {
    if Includes(p + t, sub) {
      var i :| 0 <= i <= |p + t| - |sub| && OccursAt(p + t, sub, i);
      OccurrenceLeavesPrefix(p, t, sub, i);
    }
    if Includes(t, sub) {
      var j :| 0 <= j <= |t| - |sub| && OccursAt(t, sub, j);
      OccurrenceEntersPrefix(p, t, sub, j);
    }
  }

  /** An occurrence in `p + t` that starts past `p` is an occurrence in `t`. */
  lemma OccurrenceLeavesPrefix(p: string, t: string, sub: string, i: int)
    requires forall k :: 0 <= k < |p| ==> !OccursAt(p + t, sub, k)
    requires OccursAt(p + t, sub, i)
    ensures Includes(t, sub)
  {
    assert i >= |p|;
    SliceAfterPrefix(p, t, i, i + |sub|);
    assert OccursAt(t, sub, i - |p|);
  }

  /** An occurrence in `t` is an occurrence in `p + t`, shifted by `|p|`. */
  lemma OccurrenceEntersPrefix(p: string, t: string, sub: string, j: int)
    requires OccursAt(t, sub, j)
    ensures Includes(p + t, sub)
  {
    SliceAfterPrefix(p, t, j + |p|, j + |p| + |sub|);
    assert OccursAt(p + t, sub, j + |p|);
  }

  lemma SliceAfterPrefix(p: string, t: string, a: int, b: int)
    requires |p| <= a <= b <= |p| + |t|
    ensures (p + t)[a..b] == t[a - |p|..b - |p|]
  {
    var s := p + t;
    assert |s[a..b]| == |t[a - |p|..b - |p|]|;
    forall k | 0 <= k < b - a ensures s[a..b][k] == t[a - |p|..b - |p|][k] {
      assert s[a..b][k] == s[a + k] == t[a + k - |p|];
    }
  }

  /** A network failure reported as "Failed to fetch" shows the connection text. */
  lemma FetchFailedRoute()
    ensures Route(FETCH_FAILED_MARKER) == ErrorView(CONNECTION_TEXT, false, Some(CONNECTION_TITLE))
    ensures Settle(Rejected(FETCH_FAILED_MARKER)) == Failure(FETCH_FAILED_MARKER)
  {
    assert OccursAt(FETCH_FAILED_MARKER, FETCH_FAILED_MARKER, 0);
  }

  /** A response whose `Authorization` header already holds "Bearer abc123" stores that
      value unchanged. */
  lemma BearerHeaderScenario(b: Body)
    ensures StoredToken(None, Received(Response(200, "OK", Some("Bearer abc123"), None, Json(b))))
         == Some("Bearer abc123")
  {
    var r := Response(200, "OK", Some("Bearer abc123"), None, Json(b));
    assert FirstTruthyAt(Candidates(r, b), 0);
  }

  /** An empty header is skipped: a bare body `jwt` is found and stored with the prefix. */
  lemma EmptyHeaderSkippedScenario()
    ensures var b := Body(None, None, None, None, Some("xyz"), None, None);
      StoredToken(None, Received(Response(200, "OK", Some(""), None, Json(b))))
        == Some("Bearer xyz")
  {
    var b := Body(None, None, None, None, Some("xyz"), None, None);
    var r := Response(200, "OK", Some(""), None, Json(b));
    assert FirstTruthyAt(Candidates(r, b), 6);
    assert !StartsWith("xyz", BEARER_PREFIX);
    assert BEARER_PREFIX + "xyz" == "Bearer xyz";
  }

  /** A 401 to the test credentials opens the modal and leaves an empty store empty. */
  lemma RejectedCredentialsScenario(statusText: string, payload: Payload)
    ensures var reply := Received(Response(401, statusText, None, None, payload));
      StoredToken(None, reply) == None
      && Route(Settle(reply).message) == ErrorView(INVALID_CREDENTIALS_TEXT, true, None)
  {
    UnauthorizedRoute(statusText);
  }

  lemma NotIncludesByFirstTwo(s: string, sub: string)
    requires |sub| >= 2
    requires forall i :: 0 <= i < |s| - 1 ==> s[i] != sub[0] || s[i + 1] != sub[1]
    ensures !Includes(s, sub)
  {
    forall i ensures !OccursAt(s, sub, i) {
      if 0 <= i <= |s| - |sub| {
        assert s[i..i + |sub|][0] == s[i] && s[i..i + |sub|][1] == s[i + 1];
      }
    }
  }

  class LoginForm {
    var email: string
    var password: string
    var emailError: string
    var passwordError: string
    var loginError: string
    var isLoading: bool
    /** Whether the invalid-credentials modal is open (`useDisclosure`). */
    var modalOpen: bool
    /** `localStorage["token"]`. */
    var token: Option<string>
    /** Titles of the toasts shown, oldest first. */
    var toasts: seq<string>
    /** Every `{email, password}` passed to the optional `onSubmit` prop, oldest first. */
    var submitted: seq<Submission>
    /** Whether the delayed navigation to "/home" has been scheduled. */
    var redirectScheduled: bool
    /** Whether the page was given an `onSubmit` prop. */
    const hasCallback: bool

    /** The state `useState` starts from, over the token already in storage. */
    constructor (stored: Option<string>, hasCallback: bool)
      ensures email == "" && password == "" && emailError == "" && passwordError == ""
      ensures loginError == "" && !isLoading && !modalOpen
      ensures token == stored && toasts == [] && submitted == [] && !redirectScheduled
      ensures this.hasCallback == hasCallback
    {
      email, password := "", "";
      emailError, passwordError, loginError := "", "", "";
      isLoading, modalOpen := false, false;
      token := stored;
      toasts, submitted := [], [];
      redirectScheduled := false;
      this.hasCallback := hasCallback;
    }

    /** The email input's `onChange`: store the text, clear the email error and the
        login error; the password error stays. */
    method ChangeEmail(value: string)
      modifies this`email, this`emailError, this`loginError
      ensures email == value && emailError == "" && loginError == ""
      ensures passwordError == old(passwordError)
    {
      email := value;
      if emailError != "" {
        emailError := "";
      }
      if loginError != "" {
        loginError := "";
      }
    }

    /** The password input's `onChange`: store the text, clear the password error and
        the login error; the email error stays. */
    method ChangePassword(value: string)
      modifies this`password, this`passwordError, this`loginError
      ensures password == value && passwordError == "" && loginError == ""
      ensures emailError == old(emailError)
    {
      password := value;
      if passwordError != "" {
        passwordError := "";
      }
      if loginError != "" {
        loginError := "";
      }
    }

    /** `validate`: both checks always run and each sets its own error text. */
    method Validate() returns (valid: bool)
      modifies this`emailError, this`passwordError
      ensures valid == CredentialsValid(email, password)
      ensures emailError == EmailErrorFor(email)
      ensures passwordError == PasswordErrorFor(password)
    {
      valid := true;
      if !EmailValid(email) {
        emailError := EMAIL_INVALID;
        valid := false;
      } else {
        emailError := "";
      }
      if Utf16Length(password) < MIN_PASSWORD_LENGTH {
        passwordError := PASSWORD_TOO_SHORT;
        valid := false;
      } else {
        passwordError := "";
      }
    }

    /** The modal's close button (`onClose`). */
    method CloseModal()
      modifies this`modalOpen
      ensures !modalOpen
    {
      modalOpen := false;
    }

    /** `handleSubmit` up to its `await`: clear the login error, validate, and when the
        fields are valid raise the loading flag and return the body to post. When
        they are not, nothing is posted and the loading flag is left alone. */
    method BeginSubmit() returns (request: Option<Submission>)
      modifies this`loginError, this`emailError, this`passwordError, this`isLoading
      ensures request == SubmitGate(email, password)
      ensures loginError == ""
      ensures emailError == EmailErrorFor(email) && passwordError == PasswordErrorFor(password)
      ensures isLoading == (request.Some? || old(isLoading))
    {
      loginError := "";
      var valid := Validate();
      if !valid {
        return None;
      }
      isLoading := true;
      request := Some(Submission(email, password));
    }

    /** The token search: the two header lookups, then the body's fields, the first
        truthy one winning. */
    static method FindToken(r: Response, b: Body) returns (found: Option<string>)
      ensures found == FirstTruthy(Candidates(r, b))
    {
      FirstTruthyAppend(HeaderCandidates(r), BodyCandidates(b));
      found := None;
      var fromHeader := r.authorization;
      if Truthy(fromHeader) {
        found := fromHeader;
      } else {
        var fromAuth := r.authorizationLower;
        if Truthy(fromAuth) {
          found := fromAuth;
        } else {
          found := FindBodyToken(b);
        }
      }
    }

    /** The body part of the search: an if/else chain over the seven body locations. */
    static method FindBodyToken(b: Body) returns (found: Option<string>)
      ensures found == FirstTruthy(BodyCandidates(b))
    {
      ghost var c := BodyCandidates(b);
      found := None;
      if Truthy(b.token) {
        found := b.token;
        assert FirstTruthyAt(c, 0);
      } else if Truthy(b.accessToken) {
        found := b.accessToken;
        assert FirstTruthyAt(c, 1);
      } else if Truthy(b.access_token) {
        found := b.access_token;
        assert FirstTruthyAt(c, 2);
      } else if Truthy(b.authToken) {
        found := b.authToken;
        assert FirstTruthyAt(c, 3);
      } else if Truthy(b.jwt) {
        found := b.jwt;
        assert FirstTruthyAt(c, 4);
      } else if b.data.Some? && Truthy(b.data.value.token) {
        found := b.data.value.token;
        assert FirstTruthyAt(c, 5);
      } else if b.user.Some? && Truthy(b.user.value.token) {
        found := b.user.value.token;
        assert FirstTruthyAt(c, 6);
      } else {
        assert forall i :: 0 <= i < |c| ==> !Truthy(c[i]);
      }
    }

    /** The continuation of `handleSubmit` once `fetch` settles with `reply`, for the
        body `sent` that was posted. On success: store the Bearer form of the token
        found (if any), toast, call `onSubmit` when given, schedule the redirect. On
        failure: route the message. Either way the loading flag ends false. */
    method FinishSubmit(sent: Submission, reply: Reply)
      modifies this`loginError, this`modalOpen, this`token, this`toasts, this`submitted
      modifies this`redirectScheduled, this`isLoading
      ensures token == StoredToken(old(token), reply)
      ensures !isLoading
      ensures Settle(reply).Success? ==>
        loginError == old(loginError) && modalOpen == old(modalOpen)
        && toasts == old(toasts) + [SUCCESS_TITLE]
        && submitted == old(submitted) + (if hasCallback then [sent] else [])
        && redirectScheduled
      ensures Settle(reply).Failure? ==>
        var v := Route(Settle(reply).message);
        loginError == v.loginError && modalOpen == (old(modalOpen) || v.openModal)
        && toasts == old(toasts) + (if v.toast.Some? then [v.toast.value] else [])
        && submitted == old(submitted) && redirectScheduled == old(redirectScheduled)
    {
      var failure: Option<string> := None;
      match reply {
        case Rejected(m) =>
          failure := Some(m);
        case Received(r) =>
          if !IsOk(r.status) {
            failure := Some(StatusMessage(r.status, r.statusText));
          } else {
            match r.payload {
              case Malformed(m) =>
                failure := Some(m);
              case Json(b) =>
                var found := FindToken(r, b);
                if found.Some? {
                  token := Some(BearerToken(found.value));
                }
                toasts := toasts + [SUCCESS_TITLE];
                if hasCallback {
                  submitted := submitted + [sent];
                }
                redirectScheduled := true;
            }
          }
      }
      if failure.Some? {
        var view := Route(failure.value);
        loginError := view.loginError;
        if view.openModal {
          modalOpen := true;
        }
        if view.toast.Some? {
          toasts := toasts + [view.toast.value];
        }
      }
      isLoading := false;
    }

    /** The whole of `handleSubmit` when nothing else happens during the request:
        invalid fields post nothing and change nothing but the error texts; valid
        fields post the current fields, and the continuation's outcome follows. */
    method HandleSubmit(reply: Reply)
      modifies this
      ensures !CredentialsValid(old(email), old(password)) ==>
        token == old(token) && loginError == "" && isLoading == old(isLoading)
        && submitted == old(submitted) && toasts == old(toasts) && modalOpen == old(modalOpen)
        && redirectScheduled == old(redirectScheduled)
      ensures CredentialsValid(old(email), old(password)) ==>
        token == StoredToken(old(token), reply) && !isLoading
      ensures CredentialsValid(old(email), old(password)) && Settle(reply).Success? ==>
        loginError == "" && modalOpen == old(modalOpen)
        && toasts == old(toasts) + [SUCCESS_TITLE]
        && submitted == old(submitted)
             + (if hasCallback then [Submission(old(email), old(password))] else [])
        && redirectScheduled
      ensures CredentialsValid(old(email), old(password)) && Settle(reply).Failure? ==>
        var v := Route(Settle(reply).message);
        loginError == v.loginError && modalOpen == (old(modalOpen) || v.openModal)
        && toasts == old(toasts) + (if v.toast.Some? then [v.toast.value] else [])
        && submitted == old(submitted) && redirectScheduled == old(redirectScheduled)
      ensures email == old(email) && password == old(password)
      ensures emailError == EmailErrorFor(email) && passwordError == PasswordErrorFor(password)
    {
      var request := BeginSubmit();
      if request.Some? {
        FinishSubmit(request.value, reply);
      }
    }
  }
}
