/**
 * The client's `AuthService`: the three-key session kept in `localStorage`,
 * the user it publishes through `currentUser$`, the claims it reads from the
 * access token, and the text it extracts from an HTTP error.
 */
module AuthClient {
  import opened Wrappers
  import opened JsValues
  import Guids
  import DotNetText
  import Domain
  import Exceptions
  import Store
  import RefreshToken
  import AuthController

  const TokenKey := "access_token"
  const RefreshTokenKey := "refresh_token"
  const UserKey := "current_user"
  const SessionKeys: set<string> := {TokenKey, RefreshTokenKey, UserKey}

  const DefaultError := "Une erreur est survenue"

  const NameIdentifierClaim := "http://schemas.xmlsoap.org/ws/2005/05/identity/claims/nameidentifier"
  const EmailAddressClaim := "http://schemas.xmlsoap.org/ws/2005/05/identity/claims/emailaddress"
  const NameClaim := "http://schemas.xmlsoap.org/ws/2005/05/identity/claims/name"
  const RoleClaim := "http://schemas.microsoft.com/ws/2008/06/identity/claims/role"

  /** The `UserDto` that `handleAuthResponse` stores; `createdAt` is the client's clock. */
  datatype StoredUser = StoredUser(id: JsValue, userName: JsValue, email: JsValue, createdAt: int)

  /** A `localStorage` entry: a token, or the JSON of the stored user. */
  datatype Item = Text(text: string) | UserJson(user: StoredUser)

  /** `AuthResponseDto` as received: the user fields may be missing. */
  datatype AuthResponse = AuthResponse(accessToken: string, refreshToken: string,
                                       userId: JsValue, userName: JsValue, email: JsValue)

  /** `JSON.parse(atob(token.split('.')[1]))`; `None` when any step throws. */
  type Decoder = string -> Option<JsValue>

  // ---- Session storage ----

  /** `localStorage.getItem(TOKEN_KEY)`. */
  function TokenIn(storage: map<string, Item>): Option<string> {
    if TokenKey in storage && storage[TokenKey].Text? then Some(storage[TokenKey].text) else None
  }

  function RefreshTokenIn(storage: map<string, Item>): Option<string> {
    if RefreshTokenKey in storage && storage[RefreshTokenKey].Text? then Some(storage[RefreshTokenKey].text) else None
  }

  /** `getCurrentUser`. */
  function UserIn(storage: map<string, Item>): Option<StoredUser> {
    if UserKey in storage && storage[UserKey].UserJson? then Some(storage[UserKey].user) else None
  }

  /** `isAuthenticated`: `!!getToken()`. */
  predicate Authenticated(storage: map<string, Item>)
    ensures Authenticated(storage) <==>
              TokenKey in storage && storage[TokenKey].Text? && storage[TokenKey].text != ""
  {
    TokenIn(storage).Some? && TokenIn(storage).value != ""
  }

  /** The storage after `handleAuthResponse`: both tokens and the resolved user
      are written, and every other key is left as it was. */
  function AfterAuth(storage: map<string, Item>, response: AuthResponse, decode: Decoder, now: int): (r: map<string, Item>)
    ensures r.Keys == storage.Keys + SessionKeys
    ensures forall k :: k in storage && k !in SessionKeys ==> r[k] == storage[k]
    ensures TokenIn(r) == Some(response.accessToken) && RefreshTokenIn(r) == Some(response.refreshToken)
    ensures UserIn(r) == Some(ResolveUser(response, UserInfoFromToken(Some(response.accessToken), decode, now), now))
    ensures Authenticated(r) <==> response.accessToken != ""
  {
    var withTokens := storage[TokenKey := Text(response.accessToken)][RefreshTokenKey := Text(response.refreshToken)];
    withTokens[UserKey := UserJson(ResolveUser(response, UserInfoFromToken(TokenIn(withTokens), decode, now), now))]
  }

  /** The storage after `clearAuthData`: the three session keys are gone. */
  function AfterClear(storage: map<string, Item>): (r: map<string, Item>)
    ensures r.Keys == storage.Keys - SessionKeys
    ensures forall k :: k in r ==> r[k] == storage[k]
    ensures !Authenticated(r) && RefreshTokenIn(r).None? && UserIn(r).None?
  {
    storage - SessionKeys
  }

  /** Logging out after logging in leaves what logging out alone leaves. */
  lemma ClearUndoesAuth(storage: map<string, Item>, response: AuthResponse, decode: Decoder, now: int)
    ensures AfterClear(AfterAuth(storage, response, decode, now)) == AfterClear(storage)
  {
    var a := AfterClear(AfterAuth(storage, response, decode, now));
    var b := AfterClear(storage);
    assert a.Keys == b.Keys;
  }

  lemma ClearIdempotent(storage: map<string, Item>)
    ensures AfterClear(AfterClear(storage)) == AfterClear(storage)
  {
    assert AfterClear(AfterClear(storage)).Keys == AfterClear(storage).Keys;
  }

  // ---- Claims of the access token ----

  /** The decoded payload, or `None` when there is no token, decoding throws, or
      the payload is `null` (reading a claim from it throws). */
  function Payload(token: Option<string>, decode: Decoder): (p: Option<JsValue>)
    ensures p.Some? ==> token.Some? && token.value != "" && !IsNullish(p.value)
  {
    if token.None? || token.value == "" then None
    else match decode(token.value)
      case None => None
      case Some(v) => if IsNullish(v) then None else Some(v)
  }

  /** The claims `getUserIdFromToken` tries, in order. */
  function IdClaims(payload: JsValue): seq<JsValue> {
    [Get(payload, "sub"), Get(payload, "nameid"), Get(payload, NameIdentifierClaim),
     Get(payload, "userId"), Get(payload, "id")]
  }

  /** `getUserIdFromToken`: the first truthy claim among `sub`, `nameid`, the
      long name-identifier claim, `userId` and `id`, or `null`. */
  function UserIdFromToken(token: Option<string>, decode: Decoder): (r: JsValue)
    ensures r == Null || Truthy(r)
    ensures Payload(token, decode).None? ==> r == Null
    ensures Payload(token, decode).Some? ==>
              var claims := IdClaims(Payload(token, decode).value);
              match FirstTruthy(claims)
              case Some(i) => r == claims[i]
              case None => r == Null
  {
    match Payload(token, decode)
    case None => Null
    case Some(payload) => Or(OrChain(IdClaims(payload)), Null)
  }

  /** `Partial<UserDto>` read from the token. */
  datatype TokenInfo = TokenInfo(id: JsValue, email: JsValue, userName: JsValue, role: Option<int>, createdAt: int)

  /** The role string of the token as the number of the `UserRole` enum. */
  function RoleNumber(roleString: JsValue): (r: Option<int>)
    ensures r.None? <==> !Truthy(roleString)
    ensures r == Some(0) <==> roleString == Str("Admin")
    ensures r.Some? ==> r.value == 0 || r.value == 1
  {
    if Truthy(roleString) then Some(if roleString == Str("Admin") then 0 else 1) else None
  }

  /** The claims `getUserInfoFromToken` reads the e-mail from, in order. */
  function EmailClaims(payload: JsValue): seq<JsValue> {
    [Get(payload, "email"), Get(payload, EmailAddressClaim)]
  }

  /** `getUserInfoFromToken`: each field is the first truthy claim of its chain,
      or the chain's last claim when none is truthy. */
  function UserInfoFromToken(token: Option<string>, decode: Decoder, now: int): (r: Option<TokenInfo>)
    ensures r.None? <==> Payload(token, decode).None?
    ensures r.Some? ==>
              var p := Payload(token, decode).value;
              && (FirstTruthy(IdClaims(p)[..3]).Some? ==> r.value.id == IdClaims(p)[FirstTruthy(IdClaims(p)[..3]).value])
              && (FirstTruthy(IdClaims(p)[..3]).None? ==> r.value.id == Get(p, NameIdentifierClaim))
              && (FirstTruthy(EmailClaims(p)).Some? ==> r.value.email == EmailClaims(p)[FirstTruthy(EmailClaims(p)).value])
              && (FirstTruthy(EmailClaims(p)).None? ==> r.value.email == Get(p, EmailAddressClaim))
              && (FirstTruthy(UserNameClaims(p)[..3]).Some? ==>
                    r.value.userName == UserNameClaims(p)[FirstTruthy(UserNameClaims(p)[..3]).value])
              && (FirstTruthy(UserNameClaims(p)[..3]).None? ==> r.value.userName == Get(p, "username"))
              && r.value.role == RoleNumber(Or(Get(p, "role"), Get(p, RoleClaim)))
              && r.value.createdAt == now
  {
    match Payload(token, decode)
    case None => None
    case Some(p) =>
      assert IdClaims(p)[..3] == [Get(p, "sub"), Get(p, "nameid"), Get(p, NameIdentifierClaim)];
      assert UserNameClaims(p)[..3] == [Get(p, "unique_name"), Get(p, NameClaim), Get(p, "username")];
      assert EmailClaims(p)[1..] == [Get(p, EmailAddressClaim)];
      Some(TokenInfo(
        OrChain([Get(p, "sub"), Get(p, "nameid"), Get(p, NameIdentifierClaim)]),
        Or(Get(p, "email"), Get(p, EmailAddressClaim)),
        OrChain([Get(p, "unique_name"), Get(p, NameClaim), Get(p, "username")]),
        RoleNumber(Or(Get(p, "role"), Get(p, RoleClaim))),
        now))
  }

  /** The two claim readers agree on the id whenever one of the first three id
      claims is set. */
  lemma {:induction false} IdReadersAgree(token: Option<string>, decode: Decoder, now: int)
    requires Payload(token, decode).Some?
    requires FirstTruthy(IdClaims(Payload(token, decode).value)[..3]).Some?
    ensures UserInfoFromToken(token, decode, now).value.id == UserIdFromToken(token, decode)
  {
    var claims := IdClaims(Payload(token, decode).value);
    var i := FirstTruthy(claims[..3]).value;
    assert forall j :: 0 <= j < i ==> claims[..3][j] == claims[j];
    assert FirstTruthy(claims) == Some(i) by {
      FirstTruthyPrefix(claims, 3);
    }
  }

  lemma {:induction false} FirstTruthyPrefix(vs: seq<JsValue>, n: nat)
    requires n <= |vs| && FirstTruthy(vs[..n]).Some?
    ensures FirstTruthy(vs) == FirstTruthy(vs[..n])
  {
    if |vs| > 0 && n > 0 && !Truthy(vs[0]) {
      assert vs[..n][1..] == vs[1..][..n - 1];
      FirstTruthyPrefix(vs[1..], n - 1);
    }
  }

  /** With only a `userId` claim, `getUserIdFromToken` finds the id and
      `getUserInfoFromToken` does not. */
  lemma IdReadersDiffer(token: string, decode: Decoder, now: int)
    requires token != "" && decode(token) == Some(Obj([Field("userId", Str("42"))]))
    ensures UserIdFromToken(Some(token), decode) == Str("42")
    ensures UserInfoFromToken(Some(token), decode, now).value.id == Undefined
  {
    var p := Obj([Field("userId", Str("42"))]);
    assert Get(p, "sub") == Undefined && Get(p, "nameid") == Undefined && Get(p, "id") == Undefined;
    assert Get(p, NameIdentifierClaim) == Undefined && Get(p, "userId") == Str("42");
    var c := IdClaims(p);
    assert !Truthy(c[0]) && !Truthy(c[1]) && !Truthy(c[2]) && Truthy(c[3]);
    assert c[..3] == [c[0], c[1], c[2]];
  }

  // ---- The user stored on an auth response ----

  /** The user `handleAuthResponse` stores: the response's fields when all three
      are set; otherwise, when the token can be read, each missing field falls
      back to its claim and then to `""`. */
  function ResolveUser(response: AuthResponse, info: Option<TokenInfo>, now: int): (u: StoredUser)
    ensures u.createdAt == now
    ensures Truthy(response.userId) ==> u.id == response.userId
    ensures Truthy(response.userName) ==> u.userName == response.userName
    ensures Truthy(response.email) ==> u.email == response.email
    ensures info.None? ==> u.id == response.userId && u.userName == response.userName && u.email == response.email
    ensures info.Some? && !Truthy(response.userId) ==>
              u.id == (if Truthy(info.value.id) then info.value.id else Str(""))
    ensures info.Some? && !Truthy(response.userName) ==>
              u.userName == (if Truthy(info.value.userName) then info.value.userName else Str(""))
    ensures info.Some? && !Truthy(response.email) ==>
              u.email == (if Truthy(info.value.email) then info.value.email else Str(""))
  {
    var complete := Truthy(response.userId) && Truthy(response.userName) && Truthy(response.email);
    if complete || info.None? then StoredUser(response.userId, response.userName, response.email, now)
    else
      StoredUser(Or(Or(response.userId, info.value.id), Str("")),
                 Or(Or(response.userName, info.value.userName), Str("")),
                 Or(Or(response.email, info.value.email), Str("")),
                 now)
  }

  /** With a readable token, no stored field is left `undefined` or `null`. */
  lemma StoredFieldsDefined(response: AuthResponse, info: TokenInfo, now: int)
    ensures var u := ResolveUser(response, Some(info), now);
            && (Truthy(u.id) || u.id == Str(""))
            && (Truthy(u.userName) || u.userName == Str(""))
            && (Truthy(u.email) || u.email == Str(""))
  {
  }

  /**
   * `AuthService`: `storage` is `localStorage`, `currentUser` the value of
   * `currentUserSubject` and `emitted` every value it has published.
   */
  class AuthService {
    var storage: map<string, Item>
    var currentUser: Option<StoredUser>
    var emitted: seq<Option<StoredUser>>
    const decode: Decoder

    /** The published user is the one in storage, and it was the last value emitted. */
    ghost predicate Valid()
      reads this
    {
      currentUser == UserIn(storage) && |emitted| > 0 && emitted[|emitted| - 1] == currentUser
    }

    /** The subject starts with `getCurrentUser()`. */
    constructor(initial: map<string, Item>, decode: Decoder)
      ensures storage == initial && currentUser == UserIn(initial) && emitted == [currentUser]
      ensures this.decode == decode
      ensures Valid()
    {
      storage := initial;
      currentUser := UserIn(initial);
      emitted := [UserIn(initial)];
      this.decode := decode;
    }

    function IsAuthenticated(): bool
      reads this
    {
      Authenticated(storage)
    }

    function GetRefreshToken(): Option<string>
      reads this
    {
      RefreshTokenIn(storage)
    }

    /** `handleAuthResponse`. */
    method HandleAuthResponse(response: AuthResponse, now: int)
      modifies this
      ensures storage == AfterAuth(old(storage), response, decode, now)
      ensures currentUser == UserIn(storage) && emitted == old(emitted) + [currentUser]
      ensures Valid()
    {
      storage := storage[TokenKey := Text(response.accessToken)];
      storage := storage[RefreshTokenKey := Text(response.refreshToken)];
      var userId := response.userId;
      var userName := response.userName;
      var email := response.email;
      if !Truthy(userId) || !Truthy(userName) || !Truthy(email) {
        var tokenInfo := UserInfoFromToken(TokenIn(storage), decode, now);
        if tokenInfo.Some? {
          userId := Or(Or(userId, tokenInfo.value.id), Str(""));
          userName := Or(Or(userName, tokenInfo.value.userName), Str(""));
          email := Or(Or(email, tokenInfo.value.email), Str(""));
        }
      }
      var user := StoredUser(userId, userName, email, now);
      storage := storage[UserKey := UserJson(user)];
      currentUser := Some(user);
      emitted := emitted + [currentUser];
    }

    /** `clearAuthData`. */
    method ClearAuthData()
      modifies this
      ensures storage == AfterClear(old(storage))
      ensures currentUser == None && emitted == old(emitted) + [None]
      ensures Valid()
    {
      storage := storage - {TokenKey};
      storage := storage - {RefreshTokenKey};
      storage := storage - {UserKey};
      currentUser := None;
      emitted := emitted + [None];
    }

    /** `logoutLocal`: clear the session (the navigation to `/login` is not modelled). */
    method LogoutLocal()
      modifies this
      ensures storage == AfterClear(old(storage))
      ensures currentUser == None && emitted == old(emitted) + [None]
      ensures Valid()
    {
      ClearAuthData();
    }
  }

  // ---- Error messages ----

  /** What `HttpErrorResponse.error` holds: a client-side `ErrorEvent` or the parsed body. */
  datatype ErrorPayload = ClientEvent(eventMessage: JsValue) | Body(body: JsValue)

  datatype HttpError = HttpError(status: int, error: ErrorPayload, message: JsValue)

  /** The field errors the loop of `extractValidationErrors` pushes: the
      elements of every array-valued field, field by field. */
  function Collected(values: seq<JsValue>): seq<JsValue> {
    if |values| == 0 then []
    else Collected(values[..|values| - 1]) + (if values[|values| - 1].Arr? then values[|values| - 1].items else [])
  }

  /** Collecting over two groups of fields concatenates their messages in order. */
  lemma {:induction false} CollectedAppend(a: seq<JsValue>, b: seq<JsValue>)
    ensures Collected(a + b) == Collected(a) + Collected(b)
  {
    if |b| > 0 {
      var init := b[..|b| - 1];
      assert (a + b)[..|a + b| - 1] == a + init;
      CollectedAppend(a, init);
    } else {
      assert a + b == a;
    }
  }

  /** Fields whose value is not an array contribute nothing. */
  lemma {:induction false} CollectedSkipsNonArrays(values: seq<JsValue>)
    requires forall i :: 0 <= i < |values| ==> !values[i].Arr?
    ensures Collected(values) == []
  {
    if |values| > 0 {
      CollectedSkipsNonArrays(values[..|values| - 1]);
    }
  }

  /** `extractValidationErrors`: the collected field errors joined with `' '`;
      without any, `title || null`; `null` when `errors` is not an object. */
  function ValidationErrors(body: JsValue): (r: JsValue)
    ensures r.Str? && r != Get(body, "title") ==> |Collected(ForInValues(Get(body, "errors")))| > 0
    ensures !Truthy(Get(body, "errors")) || !IsObjectType(Get(body, "errors")) ==> r == Null
    ensures Truthy(Get(body, "errors")) && IsObjectType(Get(body, "errors")) ==>
              var messages := Collected(ForInValues(Get(body, "errors")));
              && (|messages| > 0 ==> r == Str(JoinValues(messages, " ")))
              && (|messages| == 0 && Truthy(Get(body, "title")) ==> r == Get(body, "title"))
              && (|messages| == 0 && !Truthy(Get(body, "title")) ==> r == Null)
  {
    var errors := Get(body, "errors");
    if !Truthy(errors) || !IsObjectType(errors) then Null
    else
      var messages := Collected(ForInValues(errors));
      if |messages| > 0 then Str(JoinValues(messages, " ")) else Or(Get(body, "title"), Null)
  }

  /** The loop of `extractValidationErrors`. */
  method ExtractValidationErrors(body: JsValue) returns (r: JsValue)
    ensures r == ValidationErrors(body)
  {
    var errors := Get(body, "errors");
    if !Truthy(errors) || !IsObjectType(errors) {
      return Null;
    }
    var values := ForInValues(errors);
    var validationErrors: seq<JsValue> := [];
    var i := 0;
    while i < |values|
      invariant 0 <= i <= |values|
      invariant validationErrors == Collected(values[..i])
    {
      var fieldErrors := values[i];
      assert values[..i + 1][..i] == values[..i];
      if fieldErrors.Arr? {
        validationErrors := validationErrors + fieldErrors.items;
      }
      i := i + 1;
    }
    assert values[..|values|] == values;
    if |validationErrors| > 0 {
      return Str(JoinValues(validationErrors, " "));
    }
    return Or(Get(body, "title"), Null);
  }

  /** `parseErrorBody`: validation errors, then `Message`, `message`, `title`, a
      string body, then the default text. */
  function ParseErrorBody(body: JsValue): (r: JsValue)
    ensures Truthy(ValidationErrors(body)) ==> r == ValidationErrors(body)
    ensures !Truthy(ValidationErrors(body)) && IsNonEmptyString(Get(body, "Message")) ==>
              r == Get(body, "Message")
    ensures !Truthy(ValidationErrors(body)) && !IsNonEmptyString(Get(body, "Message")) &&
            IsNonEmptyString(Get(body, "message")) ==>
              r == Get(body, "message")
    ensures !Truthy(ValidationErrors(body)) && !IsNonEmptyString(Get(body, "Message")) &&
            !IsNonEmptyString(Get(body, "message")) && IsNonEmptyString(Get(body, "title")) ==>
              r == Get(body, "title")
    ensures !Truthy(ValidationErrors(body)) && !IsNonEmptyString(Get(body, "Message")) &&
            !IsNonEmptyString(Get(body, "message")) && !IsNonEmptyString(Get(body, "title")) ==>
              r == (if body.Str? then body else Str(DefaultError))
    ensures !Truthy(r) ==> body == Str("")
  {
    var validation := ValidationErrors(body);
    if Truthy(validation) then validation
    else if IsNonEmptyString(Get(body, "Message")) then Get(body, "Message")
    else if IsNonEmptyString(Get(body, "message")) then Get(body, "message")
    else if IsNonEmptyString(Get(body, "title")) then Get(body, "title")
    else if body.Str? then body
    else Str(DefaultError)
  }

  /** `extractErrorMessage`: the text the service rethrows for an HTTP error;
      it is never empty unless a client-side event carried an empty message. */
  function ExtractErrorMessage(e: HttpError): (r: JsValue)
    ensures e.error.Body? ==> Truthy(r)
    ensures e.error.ClientEvent? ==> r == e.error.eventMessage
    ensures e.error.Body? && Truthy(e.error.body) ==> r == ParseErrorBody(e.error.body)
    ensures e.error.Body? && !Truthy(e.error.body) ==>
              r == (if Truthy(e.message) then e.message else Str(DefaultError))
  {
    match e.error
    case ClientEvent(m) => m
    case Body(b) => if Truthy(b) then ParseErrorBody(b) else Or(e.message, Str(DefaultError))
  }

  /** An `ApiError` as ASP.NET Core serialises it (camel-case names). */
  function ApiErrorJson(message: string, errorCode: string): JsValue {
    Obj([Field("message", Str(message)), Field("errorCode", Str(errorCode)), Field("details", Null)])
  }

  /** Every error response the controller maps an exception to reaches the user
      as the controller's own message (or the default text for an empty one). */
  lemma ServerErrorShown(x: Exceptions.Exn, message: JsValue)
    ensures var r := AuthController.MapExceptionToResponse<()>(x);
            && r.body.ErrorBody?
            && ExtractErrorMessage(HttpError(r.status, Body(ApiErrorJson(r.body.message, r.body.errorCode)), message)) ==
                 Str(if r.body.message != "" then r.body.message else DefaultError)
  {
  }

  /** Field errors win over the `ApiError` message. */
  lemma ValidationBeatsMessage(m: string, a: string, b: string)
    requires a != ""
    ensures ParseErrorBody(Obj([Field("message", Str(m)),
                                Field("errors", Obj([Field("Email", Arr([Str(a)])), Field("Password", Arr([Str(b)]))]))])) ==
              Str(a + " " + b)
  {
    var errors := Obj([Field("Email", Arr([Str(a)])), Field("Password", Arr([Str(b)]))]);
    var values := ForInValues(errors);
    assert values == [Arr([Str(a)]), Arr([Str(b)])];
    assert values[..1] == [Arr([Str(a)])] && values[..1][..0] == [];
    assert Collected(values[..1]) == [Str(a)];
    assert Collected(values) == [Str(a), Str(b)];
    assert seq(2, i requires 0 <= i < 2 => JoinText([Str(a), Str(b)][i])) == [a, b];
    assert Join([a, b], " ") == a + " " + Join([b], " ");
    var body := Obj([Field("message", Str(m)), Field("errors", errors)]);
    assert body.fields[1..] == [Field("errors", errors)];
    assert Lookup([Field("errors", errors)], "errors") == errors;
    assert body.fields[0].key != "errors" by { assert |body.fields[0].key| != |"errors"|; }
    assert Get(body, "errors") == errors;
    assert ValidationErrors(body) == Str(a + " " + b);
  }

  // ---- The refresh request ----

  /** `refreshToken(token)` posts `{ refreshToken }`; bound to
      `RefreshTokenRequestDto`, its `Id` keeps the default empty `Guid`. */
  function ClientRefreshRequest(refreshToken: string): (r: AuthController.RefreshRequest)
    ensures r.id == Guids.Empty && r.refreshToken == Some(refreshToken)
  {
    AuthController.RefreshRequest(Guids.Empty, Some(refreshToken))
  }

  /** As written: the server looks the session up under the empty id, so every
      refresh the client sends is refused with 401, whatever the token. */
  lemma ClientRefreshRefused(rows: seq<Domain.User>, token: string, at: string, rt: string, now: Domain.Time,
                             fault: Store.StoreFault)
    requires Store.FindById(rows, Guids.Empty).None? && fault != Store.ReadFails
    requires !DotNetText.IsBlank(token)
    ensures AuthController.Refresh(rows, Some(ClientRefreshRequest(token)), at, rt, now, fault).response ==
              AuthController.ApiResponse(401, AuthController.ErrorBody(AuthController.UnauthorizedMessage, "AUTH_UNAUTHORIZED"))
  {
  }

  /** Corrected: a request carrying the stored user's id. */
  function RefreshRequestFor(userId: Guids.Guid, refreshToken: string): (r: AuthController.RefreshRequest)
    ensures r.id == userId && r.refreshToken == Some(refreshToken)
  {
    AuthController.RefreshRequest(userId, Some(refreshToken))
  }

  /** With the user's id, a refresh within the session's lifetime is answered 200. */
  lemma {:induction false} RefreshWithIdSucceeds(rows: seq<Domain.User>, u: Domain.User, token: string,
                                                 at: string, rt: string, now: Domain.Time)
    requires Store.Stored(rows) && u in rows && RefreshToken.Unexpired(u, now)
    requires !DotNetText.IsBlank(token)
    ensures AuthController.Refresh(rows, Some(RefreshRequestFor(u.id, token)), at, rt, now, Store.Healthy).response.status == 200
  {
    Store.FindByIdIn(rows, u);
  }

  // ---- The user-name claim ----

  /** The payload of an access token as the server signs it: `sub`, `email`,
      `userName` and `role`, then the validity window. */
  function ServerClaims(id: string, email: string, userName: string, role: string, nbf: int, exp: int): JsValue {
    Obj([Field("sub", Str(id)), Field("email", Str(email)), Field("userName", Str(userName)),
         Field("role", Str(role)), Field("nbf", Num(nbf)), Field("exp", Num(exp))])
  }

  /** Reading the server's claims back by name. */
  lemma ServerClaimsRead(id: string, email: string, userName: string, role: string, nbf: int, exp: int)
    ensures var p := ServerClaims(id, email, userName, role, nbf, exp);
            Get(p, "sub") == Str(id) && Get(p, "email") == Str(email) && Get(p, "userName") == Str(userName)
  {
    var fs := ServerClaims(id, email, userName, role, nbf, exp).fields;
    LookupFirst(fs, "email", 1);
    LookupFirst(fs, "userName", 2);
  }

  /** None of the user-name claims the client tries is among the server's claims. */
  lemma ServerClaimsLackNames(id: string, email: string, userName: string, role: string, nbf: int, exp: int)
    ensures var p := ServerClaims(id, email, userName, role, nbf, exp);
            Get(p, "unique_name") == Undefined && Get(p, NameClaim) == Undefined && Get(p, "username") == Undefined
  {
    var fs := ServerClaims(id, email, userName, role, nbf, exp).fields;
    assert fs[2].key == "userName" && "userName"[4] != "username"[4];
    assert forall i :: 0 <= i < |fs| ==> fs[i].key != "username";
    assert forall i :: 0 <= i < |fs| ==> |fs[i].key| < 9;
  }

  /** The response to a login: `LoginResponseDto` carries the two tokens only. */
  function LoginReply(accessToken: string, refreshToken: string): (r: AuthResponse)
    ensures !Truthy(r.userId) && !Truthy(r.userName) && !Truthy(r.email)
  {
    AuthResponse(accessToken, refreshToken, Undefined, Undefined, Undefined)
  }

  /** What `getUserInfoFromToken` reads from the server's token: the id and the
      e-mail, and no user name, since none of the names it tries is `userName`. */
  lemma ServerTokenInfo(token: string, decode: Decoder, now: int, id: string, email: string,
                        userName: string, role: string, nbf: int, exp: int)
    requires token != "" && decode(token) == Some(ServerClaims(id, email, userName, role, nbf, exp))
    requires id != "" && email != ""
    ensures var info := UserInfoFromToken(Some(token), decode, now);
            info.Some? && info.value.id == Str(id) && info.value.email == Str(email) && !Truthy(info.value.userName)
  {
    var p := ServerClaims(id, email, userName, role, nbf, exp);
    assert Payload(Some(token), decode) == Some(p);
    ServerClaimsRead(id, email, userName, role, nbf, exp);
    var ids := [Get(p, "sub"), Get(p, "nameid"), Get(p, NameIdentifierClaim)];
    assert Truthy(ids[0]);
    assert FirstTruthy(ids) == Some(0);
    var names := [Get(p, "unique_name"), Get(p, NameClaim), Get(p, "username")];
    ServerClaimsLackNames(id, email, userName, role, nbf, exp);
    assert FirstTruthy(names).None?;
    var info := TokenInfo(OrChain(ids), Or(Get(p, "email"), Get(p, EmailAddressClaim)), OrChain(names),
                          RoleNumber(Or(Get(p, "role"), Get(p, RoleClaim))), now);
    assert UserInfoFromToken(Some(token), decode, now) == Some(info);
  }

  /** As written: after a login the stored user takes its id and e-mail from the
      token, but its user name is `""` whatever the server's `userName` claim says. */
  lemma LoginStoresEmptyUserName(storage: map<string, Item>, token: string, refreshToken: string,
                                 decode: Decoder, now: int, id: string, email: string,
                                 userName: string, role: string, nbf: int, exp: int)
    requires token != "" && decode(token) == Some(ServerClaims(id, email, userName, role, nbf, exp))
    requires id != "" && email != "" && userName != ""
    ensures var u := UserIn(AfterAuth(storage, LoginReply(token, refreshToken), decode, now)).value;
            u.id == Str(id) && u.email == Str(email) && u.userName == Str("")
  {
    ServerTokenInfo(token, decode, now, id, email, userName, role, nbf, exp);
  }

  /** Corrected: the user-name claims, with the server's `userName` claim last. */
  function UserNameClaims(payload: JsValue): seq<JsValue> {
    [Get(payload, "unique_name"), Get(payload, NameClaim), Get(payload, "username"), Get(payload, "userName")]
  }

  /** Corrected `getUserInfoFromToken`: as before, with the user name read from `UserNameClaims`. */
  function CorrectedUserInfo(token: Option<string>, decode: Decoder, now: int): (r: Option<TokenInfo>)
    ensures r.None? <==> UserInfoFromToken(token, decode, now).None?
    ensures r.Some? ==> var p := Payload(token, decode).value;
                        && r.value.(userName := Undefined) == UserInfoFromToken(token, decode, now).value.(userName := Undefined)
                        && (FirstTruthy(UserNameClaims(p)).Some? ==> r.value.userName == UserNameClaims(p)[FirstTruthy(UserNameClaims(p)).value])
                        && (FirstTruthy(UserNameClaims(p)).None? ==> !Truthy(r.value.userName))
  {
    match UserInfoFromToken(token, decode, now)
    case None => None
    case Some(info) => Some(info.(userName := OrChain(UserNameClaims(Payload(token, decode).value))))
  }

  /** With the corrected reader, a login stores the user name the server signed. */
  lemma LoginStoresServerUserName(token: string, refreshToken: string, decode: Decoder, now: int,
                                  id: string, email: string, userName: string, role: string, nbf: int, exp: int)
    requires token != "" && decode(token) == Some(ServerClaims(id, email, userName, role, nbf, exp))
    requires id != "" && email != "" && userName != ""
    ensures var u := ResolveUser(LoginReply(token, refreshToken), CorrectedUserInfo(Some(token), decode, now), now);
            u.id == Str(id) && u.email == Str(email) && u.userName == Str(userName)
  {
    CorrectedServerInfo(token, decode, now, id, email, userName, role, nbf, exp);
  }

  /** The corrected reader finds all three of the server's claims. */
  lemma CorrectedServerInfo(token: string, decode: Decoder, now: int,
                            id: string, email: string, userName: string, role: string, nbf: int, exp: int)
    requires token != "" && decode(token) == Some(ServerClaims(id, email, userName, role, nbf, exp))
    requires id != "" && email != "" && userName != ""
    ensures var info := CorrectedUserInfo(Some(token), decode, now);
            info.Some? && info.value.id == Str(id) && info.value.email == Str(email) && info.value.userName == Str(userName)
  {
    var p := ServerClaims(id, email, userName, role, nbf, exp);
    ServerTokenInfo(token, decode, now, id, email, userName, role, nbf, exp);
    ServerClaimsRead(id, email, userName, role, nbf, exp);
    ServerClaimsLackNames(id, email, userName, role, nbf, exp);
    assert Payload(Some(token), decode) == Some(p);
    var names := UserNameClaims(p);
    assert !Truthy(names[0]) && !Truthy(names[1]) && !Truthy(names[2]) && Truthy(names[3]);
    assert FirstTruthy(names) == Some(3);
  }
}
