/**
 * The OAuth redirect handler of `src/functions/oauth/callback.ts`: it exchanges the code for a
 * token, reads the response, validates it through a chain of nested checks that each push one
 * diagnostic when they fail, and answers 200 with the code, the state, the messages and the
 * user id and access token it found. The HTTP exchange is a parameter: what `fetch` and
 * `res.json()` gave.
 */
module OAuthCallback {
  import opened Wrappers
  import opened JsText

  /** A JavaScript value as the chain looks at it: falsy, or truthy with the text `${value}` gives. */
  datatype Field = Falsy | Truthy(text: string)

  datatype AuthedUser = AuthedUser(id: Field, scope: Field, accessToken: Field)

  /** The response data: the truthiness of `ok`, and `authed_user` when it is truthy. */
  datatype TokenResponse = TokenResponse(ok: bool, authedUser: Option<AuthedUser>)

  /** What `res.json()` did: threw, or gave the data (with its `JSON.stringify` text). */
  datatype Body = Unreadable(error: string) | Parsed(data: TokenResponse, json: string)

  /** What `fetch` did: threw, or resolved to a response whose body is `body`. */
  datatype Fetch = FetchFailed(error: string) | Fetched(body: Body)

  datatype CallbackResponse = CallbackResponse(
    statusCode: int, code: string, state: string,
    messages: seq<string>, userId: Option<string>, userAccessToken: Option<string>)

  const RequiredScope: string := "users:write"

  /** The error Node raises for `data.ok` when `data` is null. */
  const NullDataError: string := "TypeError: Cannot read properties of null (reading 'ok')"

  // ---------------------------------------------------------------------------------------
  // The chain, as a numbered list of checks

  predicate HasId(u: Option<AuthedUser>) { u.Some? && u.value.id.Truthy? }
  predicate HasIdValue(u: Option<AuthedUser>) { HasId(u) && |Trim(u.value.id.text)| > 0 }
  predicate HasScope(u: Option<AuthedUser>) { u.Some? && u.value.scope.Truthy? }
  /** `${scope}`.trim().split(",") holds "users:write" as one of its items, untrimmed. */
  predicate GrantsScope(u: Option<AuthedUser>)
  {
    HasScope(u) && RequiredScope in Split(Trim(u.value.scope.text), ',')
  }
  predicate HasToken(u: Option<AuthedUser>) { u.Some? && u.value.accessToken.Truthy? }
  predicate HasTokenValue(u: Option<AuthedUser>) { HasToken(u) && |Trim(u.value.accessToken.text)| > 0 }

  /** The chain makes eight checks, numbered 0..7 in the order the nested ifs make them. */
  const CheckCount: nat := 8

  /** Whether check `i` passes. Each condition holds its guards, so it is meaningful on its own. */
  predicate Passes(data: TokenResponse, i: nat)
  {
    var u := data.authedUser;
    if i == 0 then data.ok
    else if i == 1 then u.Some?
    else if i == 2 then HasId(u)
    else if i == 3 then HasIdValue(u)
    else if i == 4 then HasScope(u)
    else if i == 5 then GrantsScope(u)
    else if i == 6 then HasToken(u)
    else HasTokenValue(u)
  }

  /** The diagnostic check `i` pushes when it fails. */
  function FailureMessage(i: nat): string
  {
    if i == 0 then "Response data not ok"
    else if i == 1 then "Response data missing authed_user"
    else if i == 2 then "Response data missing authed_user id"
    else if i == 3 then "Response data missing authed_user id value"
    else if i == 4 then "Response data missing authed_user scope"
    else if i == 5 then "Response data missing authed_user \"users:write\" scope"
    else if i == 6 then "Response data missing authed_user access_token"
    else "Response data missing authed_user access_token value"
  }

  /** The first check from `i` on that fails, if any. */
  function FirstFailureFrom(data: TokenResponse, i: nat): (r: Option<nat>)
    requires i <= CheckCount
    ensures r.Some? ==> i <= r.value < CheckCount && !Passes(data, r.value)
    decreases CheckCount - i
  {
    if i == CheckCount then None
    else if !Passes(data, i) then Some(i)
    else FirstFailureFrom(data, i + 1)
  }

  /** Every check before the one the search finds passes; all of them pass when it finds none. */
  lemma {:induction false} FirstFailureFromFacts(data: TokenResponse, i: nat)
    requires i <= CheckCount
    ensures var r := FirstFailureFrom(data, i);
      (r.Some? ==> forall j :: i <= j < r.value ==> Passes(data, j)) &&
      (r.None? ==> forall j :: i <= j < CheckCount ==> Passes(data, j))
    decreases CheckCount - i
  {
    if i < CheckCount && Passes(data, i) {
      FirstFailureFromFacts(data, i + 1);
    }
  }

  function FirstFailure(data: TokenResponse): Option<nat>
  {
    FirstFailureFrom(data, 0)
  }

  /** The first `n` checks all pass. */
  predicate PassesFirst(data: TokenResponse, n: nat)
  {
    var f := FirstFailure(data);
    f.None? || f.value >= n
  }

  function IdValue(data: TokenResponse): string
  {
    var u := data.authedUser;
    if u.Some? && u.value.id.Truthy? then Trim(u.value.id.text) else ""
  }

  function TokenValue(data: TokenResponse): string
  {
    var u := data.authedUser;
    if u.Some? && u.value.accessToken.Truthy? then Trim(u.value.accessToken.text) else ""
  }

  /** The user id is taken once the four id checks pass. */
  function UserIdOf(data: TokenResponse): Option<string>
  {
    if PassesFirst(data, 4) then Some(IdValue(data)) else None
  }

  /** The access token is taken once all eight checks pass. */
  function TokenOf(data: TokenResponse): Option<string>
  {
    if PassesFirst(data, CheckCount) then Some(TokenValue(data)) else None
  }

  /** The diagnostic of the first failing check, and nothing when all pass. */
  function Diagnostics(data: TokenResponse): seq<string>
  {
    var f := FirstFailure(data);
    if f.Some? then [FailureMessage(f.value)] else []
  }

  // ---------------------------------------------------------------------------------------
  // What the chain promises

  /** The user id is set, to the trimmed id, exactly when ok, authed_user and a non-blank id are present. */
  lemma UserIdIff(data: TokenResponse)
    ensures UserIdOf(data).Some? <==> data.ok && HasIdValue(data.authedUser)
    ensures UserIdOf(data).Some? ==> UserIdOf(data).value == Trim(data.authedUser.value.id.text)
  {
    FirstFailureFromFacts(data, 0);
    var f := FirstFailure(data);
    if f.Some? && f.value < 4 {
      assert !Passes(data, f.value);
    }
    if PassesFirst(data, 4) {
      assert Passes(data, 0) && Passes(data, 3);
    }
  }

  /**
   * The token is set exactly when the user id is, the trimmed scope split at commas (with no
   * trimming of the items) holds "users:write" exactly, and the trimmed access token is not
   * empty; it is then that trimmed token.
   */
  lemma TokenIff(data: TokenResponse)
    ensures TokenOf(data).Some? <==>
      UserIdOf(data).Some? && GrantsScope(data.authedUser) && HasTokenValue(data.authedUser)
    ensures TokenOf(data).Some? ==> TokenOf(data).value == Trim(data.authedUser.value.accessToken.text)
  {
    UserIdIff(data);
    FirstFailureFromFacts(data, 0);
    var f := FirstFailure(data);
    if f.Some? {
      assert !Passes(data, f.value);
    } else {
      assert Passes(data, 5) && Passes(data, 7);
    }
  }

  /** A token is never found without a user id. */
  lemma TokenNeedsUserId(data: TokenResponse)
    ensures TokenOf(data).Some? ==> UserIdOf(data).Some?
  {
  }

  /** The chain pushes exactly one diagnostic when it finds no token, and none when it does. */
  lemma OneDiagnostic(data: TokenResponse)
    ensures |Diagnostics(data)| == if TokenOf(data).Some? then 0 else 1
  {
  }

  /**
   * A scope list with a space after the comma does not grant the scope, since the items are not
   * trimmed: the user id is kept, the token is not, and the scope diagnostic is pushed.
   */
  lemma UntrimmedScopeRejected(id: string, token: string)
    requires |Trim(id)| > 0
    ensures var data := TokenResponse(true, Some(AuthedUser(Truthy(id), Truthy("chat:write, users:write"), Truthy(token))));
      UserIdOf(data) == Some(Trim(id)) && TokenOf(data) == None
      && Diagnostics(data) == ["Response data missing authed_user \"users:write\" scope"]
  {
    var data := TokenResponse(true, Some(AuthedUser(Truthy(id), Truthy("chat:write, users:write"), Truthy(token))));
    TrimOfScopes();
    SplitExample();
    assert !GrantsScope(data.authedUser);
    PassesAt(data, 0);
    PassesAt(data, 1);
    PassesAt(data, 2);
    PassesAt(data, 3);
    PassesAt(data, 4);
    FailsAt(data, 5);
    FailedOutcome(data, 5);
  }

  lemma TrimOfScopes()
    ensures Trim("chat:write, users:write") == "chat:write, users:write"
  {
    var s := "chat:write, users:write";
    assert !IsSpace(s[0]) && !IsSpace(s[|s| - 1]);
    assert TrimStart(s) == s;
    assert TrimEnd(s) == s;
  }

  lemma SplitExample()
    ensures Split("chat:write, users:write", ',') == ["chat:write", " users:write"]
  {
    assert Join(["chat:write", " users:write"], ',') == "chat:write, users:write";
    SplitJoin(["chat:write", " users:write"], ',');
  }

  // ---------------------------------------------------------------------------------------
  // The handler

  /**
   * The nested ifs of the validation chain: `userId` is set once the id checks pass, the token
   * at the end, and the failing branch pushes its diagnostic.
   */
  method ValidateTokenResponse(data: TokenResponse)
    returns (userId: Option<string>, userAccessToken: Option<string>, diagnostics: seq<string>)
    ensures userId == UserIdOf(data) && userAccessToken == TokenOf(data)
    ensures diagnostics == Diagnostics(data)
  {
    userId, userAccessToken, diagnostics := None, None, [];
    if data.ok {
      PassesAt(data, 0);
      if data.authedUser.Some? {
        PassesAt(data, 1);
        var user := data.authedUser.value;
        if user.id.Truthy? {
          PassesAt(data, 2);
          var idValue := Trim(user.id.text);
          if |idValue| > 0 {
            PassesAt(data, 3);
            userId := Some(idValue);
            assert FirstFailure(data) == FirstFailureFrom(data, 4);
            userAccessToken, diagnostics := ValidateGrant(data, user);
          } else {
            diagnostics := diagnostics + ["Response data missing authed_user id value"];
            FailsAt(data, 3);
            FailedOutcome(data, 3);
          }
        } else {
          diagnostics := diagnostics + ["Response data missing authed_user id"];
          FailsAt(data, 2);
          FailedOutcome(data, 2);
        }
      } else {
        diagnostics := diagnostics + ["Response data missing authed_user"];
        FailsAt(data, 1);
        FailedOutcome(data, 1);
      }
    } else {
      diagnostics := diagnostics + ["Response data not ok"];
      FailsAt(data, 0);
      FailedOutcome(data, 0);
    }
  }

  /**
   * The inner ifs of the chain, reached once the id checks have passed: the scope, the
   * "users:write" item and the access token. The user id is already set here.
   */
  method ValidateGrant(data: TokenResponse, user: AuthedUser)
    returns (userAccessToken: Option<string>, diagnostics: seq<string>)
    requires data.authedUser == Some(user)
    requires FirstFailure(data) == FirstFailureFrom(data, 4)
    ensures userAccessToken == TokenOf(data) && diagnostics == Diagnostics(data)
  {
    userAccessToken, diagnostics := None, [];
    if user.scope.Truthy? {
      PassesAt(data, 4);
      var scopes := Split(Trim(user.scope.text), ',');
      if RequiredScope in scopes {
        PassesAt(data, 5);
        assert FirstFailure(data) == FirstFailureFrom(data, 6);
        userAccessToken, diagnostics := ValidateAccessToken(data, user);
      } else {
        diagnostics := diagnostics + ["Response data missing authed_user \"users:write\" scope"];
        FailsAt(data, 5);
        FailedOutcome(data, 5);
      }
    } else {
      diagnostics := diagnostics + ["Response data missing authed_user scope"];
      FailsAt(data, 4);
      FailedOutcome(data, 4);
    }
  }

  /** The innermost ifs of the chain, reached once the scope checks have passed. */
  method ValidateAccessToken(data: TokenResponse, user: AuthedUser)
    returns (userAccessToken: Option<string>, diagnostics: seq<string>)
    requires data.authedUser == Some(user)
    requires FirstFailure(data) == FirstFailureFrom(data, 6)
    ensures userAccessToken == TokenOf(data) && diagnostics == Diagnostics(data)
  {
    userAccessToken, diagnostics := None, [];
    if user.accessToken.Truthy? {
      PassesAt(data, 6);
      var accessTokenValue := Trim(user.accessToken.text);
      if |accessTokenValue| > 0 {
        PassesAt(data, 7);
        userAccessToken := Some(accessTokenValue);
        PassedOutcome(data);
      } else {
        diagnostics := diagnostics + ["Response data missing authed_user access_token value"];
        FailsAt(data, 7);
        FailedOutcome(data, 7);
      }
    } else {
      diagnostics := diagnostics + ["Response data missing authed_user access_token"];
      FailsAt(data, 6);
      FailedOutcome(data, 6);
    }
  }

  /** What the chain gives when check `i` is the first to fail. */
  lemma FailedOutcome(data: TokenResponse, i: nat)
    requires FirstFailure(data) == Some(i)
    ensures UserIdOf(data) == if i >= 4 then Some(IdValue(data)) else None
    ensures TokenOf(data) == None && Diagnostics(data) == [FailureMessage(i)]
  {
  }

  /** What the chain gives when every check passes. */
  lemma PassedOutcome(data: TokenResponse)
    requires FirstFailure(data) == None
    ensures UserIdOf(data) == Some(IdValue(data)) && TokenOf(data) == Some(TokenValue(data))
    ensures Diagnostics(data) == []
  {
  }

  /** A passing check hands the search on to the next one. */
  lemma PassesAt(data: TokenResponse, i: nat)
    requires i < CheckCount && Passes(data, i)
    ensures FirstFailureFrom(data, i) == FirstFailureFrom(data, i + 1)
  {
  }

  /** A failing check ends the search there. */
  lemma FailsAt(data: TokenResponse, i: nat)
    requires i < CheckCount && !Passes(data, i)
    ensures FirstFailureFrom(data, i) == Some(i)
  {
  }

  const Fetching: string := "Fetching user token ..."
  const DoneFetching: string := "Done fetching user token"
  const Reading: string := "Reading response data ..."
  const DoneReading: string := "Done reading response data"

  /**
   * `handler(event)` as written. A failed `fetch` skips validation and answers 200 with both
   * values null; a body that `res.json()` cannot read leaves `data` null, so the `data.ok` that
   * follows throws and the handler answers nothing (`Failure`).
   */
  method Callback(code: string, state: string, fetch: Fetch) returns (r: Result<CallbackResponse, string>)
    ensures fetch.FetchFailed? ==>
      r == Success(CallbackResponse(200, code, state,
        [Fetching, "Error fetching user token: " + fetch.error], None, None))
    ensures fetch.Fetched? && fetch.body.Unreadable? ==> r == Failure(NullDataError)
    ensures fetch.Fetched? && fetch.body.Parsed? ==>
      var data := fetch.body.data;
      r == Success(CallbackResponse(200, code, state,
        [Fetching, DoneFetching, Reading, DoneReading, "Response data: " + fetch.body.json] + Diagnostics(data),
        UserIdOf(data), TokenOf(data)))
  {
    var userId: Option<string> := None;
    var userAccessToken: Option<string> := None;
    var messages: seq<string> := [];
    messages := messages + [Fetching];
    if fetch.FetchFailed? {
      messages := messages + ["Error fetching user token: " + fetch.error];
      assert messages == [Fetching, "Error fetching user token: " + fetch.error];
    } else {
      messages := messages + [DoneFetching];
      messages := messages + [Reading];
      if fetch.body.Unreadable? {
        messages := messages + ["Error reading response data: " + fetch.body.error];
        messages := messages + ["Response data: null"];
        return Failure(NullDataError);
      }
      messages := messages + [DoneReading];
      messages := messages + ["Response data: " + fetch.body.json];
      assert messages == [Fetching, DoneFetching, Reading, DoneReading, "Response data: " + fetch.body.json];
      var diagnostics;
      userId, userAccessToken, diagnostics := ValidateTokenResponse(fetch.body.data);
      messages := messages + diagnostics;
    }
    r := Success(CallbackResponse(200, code, state, messages, userId, userAccessToken));
  }

  /**
   * The handler as its authors evidently meant it: a body that cannot be read skips the
   * validation, as a failed fetch does, and the answer is always 200 with the code and state.
   */
  method CallbackChecked(code: string, state: string, fetch: Fetch) returns (r: CallbackResponse)
    ensures r.statusCode == 200 && r.code == code && r.state == state
    ensures r.userAccessToken.Some? ==> r.userId.Some?
    ensures fetch.Fetched? && fetch.body.Unreadable? ==>
      r == CallbackResponse(200, code, state,
        [Fetching, DoneFetching, Reading, "Error reading response data: " + fetch.body.error, "Response data: null"],
        None, None)
    ensures fetch.FetchFailed? ==>
      r == CallbackResponse(200, code, state, [Fetching, "Error fetching user token: " + fetch.error], None, None)
    ensures fetch.Fetched? && fetch.body.Parsed? ==>
      var data := fetch.body.data;
      r == CallbackResponse(200, code, state,
        [Fetching, DoneFetching, Reading, DoneReading, "Response data: " + fetch.body.json] + Diagnostics(data),
        UserIdOf(data), TokenOf(data))
  {
    var userId: Option<string> := None;
    var userAccessToken: Option<string> := None;
    var messages: seq<string> := [];
    messages := messages + [Fetching];
    if fetch.FetchFailed? {
      messages := messages + ["Error fetching user token: " + fetch.error];
      assert messages == [Fetching, "Error fetching user token: " + fetch.error];
    } else {
      messages := messages + [DoneFetching];
      messages := messages + [Reading];
      if fetch.body.Unreadable? {
        messages := messages + ["Error reading response data: " + fetch.body.error];
        messages := messages + ["Response data: null"];
        assert messages == [Fetching, DoneFetching, Reading, "Error reading response data: " + fetch.body.error, "Response data: null"];
      } else {
        messages := messages + [DoneReading];
        messages := messages + ["Response data: " + fetch.body.json];
        assert messages == [Fetching, DoneFetching, Reading, DoneReading, "Response data: " + fetch.body.json];
        var diagnostics;
        userId, userAccessToken, diagnostics := ValidateTokenResponse(fetch.body.data);
        TokenNeedsUserId(fetch.body.data);
        messages := messages + diagnostics;
      }
    }
    r := CallbackResponse(200, code, state, messages, userId, userAccessToken);
  }
}
