/**
 * The main browser-side API helper: the token kept in the browser's two
 * storages under any of three keys, the request interceptor that sends it
 * as a bearer token, the normalisation of failed requests (which signs the
 * user out on 401 and 403), and the path helper every request goes
 * through.
 */
module AxiosClient {
  import opened Wrappers
  import opened Text
  import opened JsValue
  import opened Client

  /* --------------------------------------------------------------- token */

  /** The keys a token may be stored under, in the order they are tried. */
  const TokenKeys: seq<string> := ["token", "authToken", "access_token"]

  const TokenKeySet: set<string> := set k | k in TokenKeys

  /** The first `n` token keys. */
  function KeysBefore(n: nat): set<string>
    requires n <= |TokenKeys|
  {
    set i | 0 <= i < n :: TokenKeys[i]
  }

  /** The value a lookup of `key` yields: the local storage's when it is non-empty, else the session storage's. */
  function Lookup(local: map<string, string>, session: map<string, string>, key: string): string {
    if Stored(local, key) != "" then Stored(local, key) else Stored(session, key)
  }

  /**
   * The token found under the first of `keys` whose lookup yields a
   * non-empty value; none when every lookup yields nothing.
   */
  function TokenAmong(local: map<string, string>, session: map<string, string>, keys: seq<string>): (r: Option<string>)
    ensures r.None? <==> forall i :: 0 <= i < |keys| ==> Lookup(local, session, keys[i]) == ""
    ensures r.Some? ==>
              r.value != "" &&
              exists i :: 0 <= i < |keys| && r.value == Lookup(local, session, keys[i])
                          && forall j :: 0 <= j < i ==> Lookup(local, session, keys[j]) == ""
  {
    if keys == [] then None
    else if Lookup(local, session, keys[0]) != "" then Some(Lookup(local, session, keys[0]))
    else
      var r := TokenAmong(local, session, keys[1..]);
      assert forall i :: 1 <= i < |keys| ==> keys[i] == keys[1..][i - 1];
      r
  }

  /** The token the client sends. */
  function Token(local: map<string, string>, session: map<string, string>): Option<string> {
    TokenAmong(local, session, TokenKeys)
  }

  /** The browser's local and session storages, as far as the token helpers use them. */
  class TokenStore {
    var local: map<string, string>
    var session: map<string, string>

    constructor(local: map<string, string>, session: map<string, string>)
      ensures this.local == local && this.session == session
    {
      this.local := local;
      this.session := session;
    }

    /** Tries the keys in order, local storage before session storage for each. */
    method GetToken() returns (r: Option<string>)
      ensures r == Token(local, session)
    {
      for i := 0 to |TokenKeys|
        invariant TokenAmong(local, session, TokenKeys[i..]) == Token(local, session)
      {
        var v := Lookup(local, session, TokenKeys[i]);
        if v != "" {
          return Some(v);
        }
        assert TokenKeys[i..][1..] == TokenKeys[i + 1..];
      }
      r := None;
    }

    /** Removes every token key from both storages; other keys are untouched. */
    method ClearAuth()
      modifies this
      ensures local == old(local) - TokenKeySet && session == old(session) - TokenKeySet
    {
      for i := 0 to |TokenKeys|
        invariant local == old(local) - KeysBefore(i)
        invariant session == old(session) - KeysBefore(i)
      {
        assert KeysBefore(i + 1) == KeysBefore(i) + {TokenKeys[i]};
        local := local - {TokenKeys[i]};
        session := session - {TokenKeys[i]};
      }
      assert KeysBefore(|TokenKeys|) == TokenKeySet;
    }

    /**
     * Clears every token key in both storages, with the same removal loop
     * as ClearAuth, then stores `t` under the first key, in the session
     * storage when `persist` is "session" and in the local storage
     * otherwise.
     */
    method SetAuthToken(t: string, persist: string)
      modifies this
      ensures persist == "session" ==>
                local == old(local) - TokenKeySet && session == (old(session) - TokenKeySet)[TokenKeys[0] := t]
      ensures persist != "session" ==>
                local == (old(local) - TokenKeySet)[TokenKeys[0] := t] && session == old(session) - TokenKeySet
    {
      ClearAuth();
      if persist == "session" {
        session := session[TokenKeys[0] := t];
      } else {
        local := local[TokenKeys[0] := t];
      }
    }
  }

  /** With every token key removed from both storages, no token is found. */
  lemma TokenAfterClear(local: map<string, string>, session: map<string, string>)
    ensures Token(local - TokenKeySet, session - TokenKeySet).None?
  {
    var l, s := local - TokenKeySet, session - TokenKeySet;
    forall i | 0 <= i < |TokenKeys|
      ensures Lookup(l, s, TokenKeys[i]) == ""
    {
      assert TokenKeys[i] in TokenKeySet;
    }
  }

  /** After a token is set, it is the token found (none when it is empty), whichever storage holds it. */
  lemma TokenAfterSet(local: map<string, string>, session: map<string, string>, t: string, persist: string)
    ensures var l := if persist == "session" then local - TokenKeySet else (local - TokenKeySet)[TokenKeys[0] := t];
            var s := if persist == "session" then (session - TokenKeySet)[TokenKeys[0] := t] else session - TokenKeySet;
            Token(l, s) == if t != "" then Some(t) else None
  {
    var l := if persist == "session" then local - TokenKeySet else (local - TokenKeySet)[TokenKeys[0] := t];
    var s := if persist == "session" then (session - TokenKeySet)[TokenKeys[0] := t] else session - TokenKeySet;
    assert TokenKeys[1] in TokenKeySet && TokenKeys[2] in TokenKeySet && TokenKeys[0] in TokenKeySet;
    assert Lookup(l, s, TokenKeys[0]) == t;
    assert Lookup(l, s, TokenKeys[1]) == "" && Lookup(l, s, TokenKeys[2]) == "";
    if t != "" {
      assert Token(l, s) == Some(t);
    }
  }

  /* ----------------------------------------------------------- requests */

  /**
   * The request interceptor's header update: with a token, a missing
   * header object becomes an empty one and `Authorization` is set to
   * `Bearer <token>` unless it already holds a value; every other header
   * is left as it was. Without a token nothing changes.
   */
  function WithBearer(h: Option<map<string, string>>, token: Option<string>): (r: Option<map<string, string>>)
    ensures token.None? ==> r == h
    ensures token.Some? ==> r.Some? && HasHeader(r, "Authorization")
    ensures HasHeader(h, "Authorization") ==> HeadersOf(r) == HeadersOf(h)
    ensures token.Some? && !HasHeader(h, "Authorization") ==> HeadersOf(r)["Authorization"] == "Bearer " + token.value
    ensures forall k :: k != "Authorization" ==>
              (k in HeadersOf(r) <==> k in HeadersOf(h)) && (k in HeadersOf(h) ==> HeadersOf(r)[k] == HeadersOf(h)[k])
  {
    if token.None? then h
    else if HasHeader(h, "Authorization") then Some(HeadersOf(h))
    else Some(HeadersOf(h)["Authorization" := "Bearer " + token.value])
  }

  /** Running the interceptor twice is the same as running it once. */
  lemma WithBearerIdempotent(h: Option<map<string, string>>, token: Option<string>)
    ensures WithBearer(WithBearer(h, token), token) == WithBearer(h, token)
  {
  }

  /** The request interceptor: reads the token and fills the request's headers in place. */
  method Authorize(config: RequestConfig, store: TokenStore)
    modifies config
    ensures config.headers == WithBearer(old(config.headers), Token(store.local, store.session))
  {
    var t := store.GetToken();
    if t.Some? {
      var headers := if config.headers.Some? then config.headers.value else map[];
      if !("Authorization" in headers && headers["Authorization"] != "") {
        headers := headers["Authorization" := "Bearer " + t.value];
      }
      config.headers := Some(headers);
    }
  }

  /**
   * The path a request helper sends: the path as given when its text
   * starts with '/', and otherwise the path's text behind a '/' (so a
   * missing path becomes "/undefined").
   */
  function Lead(p: Field): (r: string)
    ensures r != [] && r[0] == '/'
    ensures StartsWith(ToText(p), "/") ==> r == ToText(p)
    ensures !StartsWith(ToText(p), "/") ==> r == "/" + ToText(p)
  {
    if StartsWith(TextOrEmpty(p), "/") then ToText(p) else "/" + ToText(p)
  }

  /** A led path is led again to itself. */
  lemma LeadIdempotent(p: Field)
    ensures Lead(Str(Lead(p))) == Lead(p)
  {
  }

  /**
   * The headers a JSON request helper sends: a JSON content type, unless
   * the caller's own options carry a header object, which then replaces it
   * whole.
   */
  function JsonHeaders(caller: Option<map<string, string>>): (r: map<string, string>)
    ensures caller.None? ==> r == map["Content-Type" := "application/json"]
    ensures caller.Some? ==> r == caller.value
  {
    if caller.Some? then caller.value else map["Content-Type" := "application/json"]
  }

  /**
   * The headers a JSON helper's request carries once the request
   * interceptor has run: the JSON content type when the caller gave no
   * header object, otherwise the caller's own Content-Type if it has one
   * and none if not; the caller's other headers as given; and a bearer
   * token whenever one is stored.
   */
  lemma JsonHeadersSent(caller: Option<map<string, string>>, token: Option<string>)
    ensures var sent := HeadersOf(WithBearer(Some(JsonHeaders(caller)), token));
      && (caller.None? ==> "Content-Type" in sent && sent["Content-Type"] == "application/json")
      && (caller.Some? ==> ("Content-Type" in sent <==> "Content-Type" in caller.value))
      && (caller.Some? && "Content-Type" in caller.value ==> sent["Content-Type"] == caller.value["Content-Type"])
      && (caller.Some? ==> forall k :: k in caller.value && k != "Authorization" ==> k in sent && sent[k] == caller.value[k])
      && (token.Some? ==> HasHeader(Some(sent), "Authorization"))
  {
    var h := Some(JsonHeaders(caller));
    assert HeadersOf(h) == JsonHeaders(caller);
  }

  /* ------------------------------------------------------------- errors */

  /** The body of an error response: an object whose `error` and `message` fields are read, or any other value. */
  datatype ErrorData = Fields(error: Field, message: Field) | Opaque

  /** A failed request: it got an answer, it was sent but got none, or it was never sent. */
  datatype Failure =
    | Answered(status: int, data: ErrorData)
    | Unanswered
    | Unsent(message: Field)

  /** The error every failed request is turned into. */
  datatype Normalized = Normalized(status: int, message: string, data: Option<ErrorData>)

  /** The message of an answered failure when the body names none. */
  function StatusMessage(status: int): string {
    "\U{0130}stek " + IntToDecimal(status) + " ile ba\U{015F}ar\U{0131}s\U{0131}z"
  }

  const UnreachableMessage := "Sunucuya ula\U{015F}\U{0131}lamad\U{0131}"
  const UnknownMessage := "Bilinmeyen hata"

  /**
   * Normalisation of a failed request: an answered one keeps its status
   * and body, and its message is the body's `error`, else its `message`,
   * else one naming the status; an unanswered or unsent one has status 0,
   * no body and a fixed message (an unsent one's own message when it has
   * one). The message is never empty.
   */
  function Normalize(err: Failure): (n: Normalized)
    ensures n.message != ""
    ensures err.Answered? ==> n.status == err.status && n.data == Some(err.data)
    ensures err.Answered? && err.data.Fields? && Truthy(err.data.error) ==> n.message == err.data.error.text
    ensures err.Answered? && err.data.Fields? && !Truthy(err.data.error) && Truthy(err.data.message) ==>
              n.message == err.data.message.text
    ensures err.Answered? && (err.data.Opaque? || (!Truthy(err.data.error) && !Truthy(err.data.message))) ==>
              n.message == StatusMessage(err.status)
    ensures !err.Answered? ==> n.status == 0 && n.data == None
    ensures err.Unanswered? ==> n.message == UnreachableMessage
    ensures err.Unsent? ==> n.message == if Truthy(err.message) then err.message.text else UnknownMessage
  {
    match err
    case Answered(status, data) =>
      var message :=
        if data.Fields? && Truthy(data.error) then data.error.text
        else if data.Fields? && Truthy(data.message) then data.message.text
        else StatusMessage(status);
      Normalized(status, message, Some(data))
    case Unanswered => Normalized(0, UnreachableMessage, None)
    case Unsent(m) => Normalized(0, if Truthy(m) then m.text else UnknownMessage, None)
  }

  /** Status 0 marks exactly the failures without an answer, since an answer carries an HTTP status. */
  lemma StatusZeroWithoutAnswer(err: Failure)
    requires err.Answered? ==> 100 <= err.status <= 599
    ensures Normalize(err).status == 0 <==> !err.Answered?
  {
  }

  /** The answers that sign the user out. */
  predicate SignsOut(err: Failure) {
    err.Answered? && (err.status == 401 || err.status == 403)
  }

  /**
   * The response interceptor's error path: the failure is normalised; a
   * 401 or 403 also clears every stored token and, unless the page is
   * already a login page, sends the browser to "/login" (the returned
   * location).
   */
  method OnError(store: TokenStore, err: Failure, pathname: string) returns (n: Normalized, redirect: Option<string>)
    modifies store
    ensures n == Normalize(err)
    ensures SignsOut(err) ==> Token(store.local, store.session).None?
    ensures SignsOut(err) ==> store.local == old(store.local) - TokenKeySet && store.session == old(store.session) - TokenKeySet
    ensures !SignsOut(err) ==> store.local == old(store.local) && store.session == old(store.session)
    ensures redirect == if SignsOut(err) && !Contains(pathname, "/login") then Some("/login") else None
  {
    n := Normalize(err);
    redirect := None;
    if n.status == 401 || n.status == 403 {
      store.ClearAuth();
      TokenAfterClear(old(store.local), old(store.session));
      if !Contains(pathname, "/login") {
        redirect := Some("/login");
      }
    }
  }

  /** How many characters of a text body the rejection of a non-JSON answer quotes. */
  const SnippetLength: nat := 200
}
