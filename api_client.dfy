/**
 * The second browser-side API helper: it reads the signed-in user from
 * the payload segment of the stored token, picks the same base URL as the
 * main helper, sends the token in two headers, and rejects answers that
 * are not JSON.
 */
module ApiClient {
  import opened Wrappers
  import opened Text
  import opened JsValue
  import opened Client
  import AxiosClient

  /* ------------------------------------------------------------ payload */

  /**
   * The second dot-separated segment of a token, `""` when the token has
   * no dot. It never contains a dot.
   */
  function PayloadSegment(token: string): (r: string)
    ensures '.' !in r
    ensures '.' !in token ==> r == ""
  {
    var parts := Split(token, '.');
    if '.' !in token then
      SplitFree(token);
      ""
    else if |parts| > 1 then parts[1]
    else ""
  }

  /** A string without dots splits into itself alone. */
  lemma SplitFree(s: string)
    requires '.' !in s
    ensures Split(s, '.') == [s]
  {
    SplitJoin([s], '.');
  }

  /** The payload segment of a three-part token is its middle part. */
  lemma PayloadOfThreeParts(header: string, payload: string, signature: string)
    requires '.' !in header && '.' !in payload && '.' !in signature
    ensures PayloadSegment(header + "." + payload + "." + signature) == payload
  {
    var parts := [header, payload, signature];
    SplitJoin(parts, '.');
    assert Join(parts, ".") == header + "." + payload + "." + signature by {
      assert Join(parts[2..], ".") == signature;
      assert Join(parts[1..], ".") == payload + "." + signature;
    }
  }

  /**
   * Base64 padding: `"==="` sliced from index `(|part| + 3) % 4` is
   * appended. The result keeps `part` in front, adds at most three '='
   * and has a length that is a multiple of 4.
   */
  function Pad(part: string): (r: string)
    ensures |r| % 4 == 0
    ensures |part| <= |r| <= |part| + 3 && r[..|part|] == part
    ensures forall i :: |part| <= i < |r| ==> r[i] == '='
  {
    part + "==="[(|part| + 3) % 4..]
  }

  /** An aligned segment is left as it is. */
  lemma PadAligned(part: string)
    requires |part| % 4 == 0
    ensures Pad(part) == part
  {
    assert (|part| + 3) % 4 == 3;
    assert "==="[3..] == "";
    assert part + "" == part;
  }

  /** Padding adds the fewest '=' that reach a multiple of 4, and padding twice adds no more. */
  lemma PadMinimal(part: string, n: nat)
    requires |part| <= n && n % 4 == 0
    ensures |Pad(part)| <= n
    ensures Pad(Pad(part)) == Pad(part)
  {
    var p := |Pad(part)|;
    assert p == 4 * (p / 4) && n == 4 * (n / 4);
    PadAligned(Pad(part));
  }

  /** A decoded payload: a falsy JSON value, or a truthy one whose three id fields are read. */
  datatype Payload = Falsy | Claims(userId: Field, id: Field, sub: Field)

  /**
   * The signed-in user: none when no token is stored under "token", and
   * otherwise the token's payload segment padded and handed to `decode`
   * (base64 then JSON, none when either throws), kept only when it is a
   * truthy value.
   */
  function AuthUser(local: map<string, string>, decode: string -> Option<Payload>): (r: Option<Payload>)
    ensures Stored(local, "token") == "" ==> r.None?
    ensures r.Some? <==> Stored(local, "token") != "" && decode(Pad(PayloadSegment(Stored(local, "token")))).Some?
                         && decode(Pad(PayloadSegment(Stored(local, "token")))).value.Claims?
    ensures r.Some? ==> r == decode(Pad(PayloadSegment(Stored(local, "token"))))
  {
    var t := Stored(local, "token");
    if t == "" then None
    else
      match decode(Pad(PayloadSegment(t)))
      case None => None
      case Some(Falsy) => None
      case Some(p) => Some(p)
  }

  /**
   * The signed-in user's id as text: `""` without a user, else the first
   * of `userId`, `id` and `sub` that is neither missing nor null, else
   * `""`.
   */
  function AuthUserId(local: map<string, string>, decode: string -> Option<Payload>): (r: string)
    ensures AuthUser(local, decode).None? ==> r == ""
    ensures AuthUser(local, decode).Some? ==>
              var p := AuthUser(local, decode).value;
              if p.userId.Str? then r == p.userId.text
              else if p.id.Str? then r == p.id.text
              else if p.sub.Str? then r == p.sub.text
              else r == ""
  {
    match AuthUser(local, decode)
    case None => ""
    case Some(p) => ToText(Coalesce(p.userId, Coalesce(p.id, Coalesce(p.sub, Str("")))))
  }

  /** With no token stored, or a token whose payload does not decode, there is no user and the id is `""`. */
  lemma NoUserNoId(local: map<string, string>, decode: string -> Option<Payload>)
    requires Stored(local, "token") == "" || decode(Pad(PayloadSegment(Stored(local, "token")))).None?
    ensures AuthUser(local, decode).None? && AuthUserId(local, decode) == ""
  {
  }

  /* ----------------------------------------------------------- requests */

  /**
   * The request interceptor's header update: with a non-empty token, a
   * missing header object becomes an empty one, `Authorization` is set to
   * `Bearer <token>` and `x-access-token` to the token, each only when it
   * holds no value yet; other headers are left as they were.
   */
  function WithTokens(h: Option<map<string, string>>, token: string): (r: Option<map<string, string>>)
    ensures token == "" ==> r == h
    ensures token != "" ==> r.Some? && HasHeader(r, "Authorization") && HasHeader(r, "x-access-token")
    ensures HasHeader(h, "Authorization") ==> HeadersOf(r)["Authorization"] == HeadersOf(h)["Authorization"]
    ensures HasHeader(h, "x-access-token") ==> HeadersOf(r)["x-access-token"] == HeadersOf(h)["x-access-token"]
    ensures token != "" && !HasHeader(h, "Authorization") ==> HeadersOf(r)["Authorization"] == "Bearer " + token
    ensures token != "" && !HasHeader(h, "x-access-token") ==> HeadersOf(r)["x-access-token"] == token
    ensures forall k :: k != "Authorization" && k != "x-access-token" ==>
              (k in HeadersOf(r) <==> k in HeadersOf(h)) && (k in HeadersOf(h) ==> HeadersOf(r)[k] == HeadersOf(h)[k])
  {
    if token == "" then h
    else
      var m := HeadersOf(h);
      var m1 := if HasHeader(h, "Authorization") then m else m["Authorization" := "Bearer " + token];
      var m2 := if "x-access-token" in m1 && m1["x-access-token"] != "" then m1 else m1["x-access-token" := token];
      Some(m2)
  }

  /** On a request that already carries `x-access-token`, this interceptor does what the main helper's does. */
  lemma AgreesWithBearer(h: Option<map<string, string>>, token: string)
    requires token != "" && HasHeader(h, "x-access-token")
    ensures WithTokens(h, token) == AxiosClient.WithBearer(h, Some(token))
  {
  }

  /** The request interceptor: reads the token under "token" and fills the request's headers in place. */
  method Authorize(config: RequestConfig, local: map<string, string>)
    modifies config
    ensures config.headers == WithTokens(old(config.headers), Stored(local, "token"))
  {
    var token := Stored(local, "token");
    if token != "" {
      var headers := if config.headers.Some? then config.headers.value else map[];
      if !("Authorization" in headers && headers["Authorization"] != "") {
        headers := headers["Authorization" := "Bearer " + token];
      }
      if !("x-access-token" in headers && headers["x-access-token"] != "") {
        headers := headers["x-access-token" := token];
      }
      config.headers := Some(headers);
    }
  }

  /* ---------------------------------------------------------- responses */

  /** How many characters of a text body this helper's rejection of a non-JSON answer quotes. */
  const SnippetLength: nat := 180

  /**
   * Both helpers accept and reject the same answers; when they reject
   * one, this helper's message is a prefix of the main helper's, which
   * quotes up to twenty more characters of a text body.
   */
  lemma SameVerdict(res: Response)
    ensures CheckJson(res, SnippetLength).Passed? <==> CheckJson(res, AxiosClient.SnippetLength).Passed?
    ensures CheckJson(res, SnippetLength).Rejected? ==>
              var short := CheckJson(res, SnippetLength).error.message;
              var long := CheckJson(res, AxiosClient.SnippetLength).error.message;
              |short| <= |long| && long[..|short|] == short
  {
    if res.data.Text? {
      var s := Snippet(res.data, SnippetLength);
      var l := Snippet(res.data, AxiosClient.SnippetLength);
      assert l[..|s|] == s;
    }
  }
}
