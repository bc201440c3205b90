/**
 * What the two browser-side API helpers share: the choice of the base
 * URL from the build environment, the request configuration whose
 * headers the request interceptors fill in, and the check the response
 * interceptors make that an answer really is JSON.
 */
module Client {
  import opened Wrappers
  import opened Text
  import opened JsValue

  /* ------------------------------------------------------------ base URL */

  /**
   * Removes every trailing '/': what is left is a prefix of `s` that does
   * not end in '/', and everything removed was '/'.
   */
  function Clean(s: string): (r: string)
    ensures |r| <= |s| && r == s[..|r|]
    ensures r == [] || r[|r| - 1] != '/'
    ensures forall i :: |r| <= i < |s| ==> s[i] == '/'
  {
    if s != [] && s[|s| - 1] == '/' then Clean(s[..|s| - 1]) else s
  }

  /** A cleaned string is its own cleaning. */
  lemma CleanIdempotent(s: string)
    ensures Clean(Clean(s)) == Clean(s)
  {
  }

  /** Cleaning never touches a string that does not end in '/'. */
  lemma CleanOfUnslashed(s: string)
    requires s == [] || s[|s| - 1] != '/'
    ensures Clean(s) == s
  {
  }

  /** The cleaning of an environment variable, which is `""` when the variable is unset or empty. */
  function CleanVar(v: Field): string {
    Clean(TextOrEmpty(v))
  }

  /** The build environment the base URL is chosen from. */
  datatype Env = Env(apiUrl: Field, apiBase: Field, prod: bool, origin: string)

  const DefaultProdApi := "https://api.urtimakademi.com/api"

  /**
   * The base URL every request is resolved against: the cleaned API URL
   * when it is set, else the cleaned API base followed by "/api", else the
   * production default in a production build, else the page's own origin
   * followed by "/api". It is never empty and never ends in '/'.
   */
  function BaseUrl(env: Env): (r: string)
    ensures r != [] && r[|r| - 1] != '/'
    ensures CleanVar(env.apiUrl) != "" ==> r == CleanVar(env.apiUrl)
    ensures CleanVar(env.apiUrl) == "" && CleanVar(env.apiBase) != "" ==> r == CleanVar(env.apiBase) + "/api"
    ensures CleanVar(env.apiUrl) == "" && CleanVar(env.apiBase) == "" ==>
              r == if env.prod then DefaultProdApi else Clean(env.origin) + "/api"
  {
    var url := CleanVar(env.apiUrl);
    var base := CleanVar(env.apiBase);
    if url != "" then url
    else if base != "" then base + "/api"
    else if env.prod then DefaultProdApi
    else Clean(env.origin) + "/api"
  }

  /** `n` slashes. */
  function Slashes(n: nat): (r: string)
    ensures |r| == n && forall i :: 0 <= i < n ==> r[i] == '/'
  {
    if n == 0 then "" else Slashes(n - 1) + "/"
  }

  /** Slashes added to the end of a string are all cleaned away. */
  lemma {:induction false} CleanSlashes(s: string, n: nat)
    ensures Clean(s + Slashes(n)) == Clean(s)
  {
    if n > 0 {
      var t := s + Slashes(n - 1);
      assert s + Slashes(n) == t + "/";
      assert (t + "/")[..|t|] == t;
      CleanSlashes(s, n - 1);
    } else {
      assert s + Slashes(n) == s;
    }
  }

  /** Trailing slashes added to any of the environment's URLs make no difference to the base URL. */
  lemma BaseUrlIgnoresTrailingSlashes(env: Env, n: nat)
    requires env.apiUrl.Str? && env.apiBase.Str?
    ensures BaseUrl(env.(apiUrl := Str(env.apiUrl.text + Slashes(n)), apiBase := Str(env.apiBase.text + Slashes(n)),
                         origin := env.origin + Slashes(n))) == BaseUrl(env)
  {
    CleanVarSlashes(env.apiUrl.text, n);
    CleanVarSlashes(env.apiBase.text, n);
    CleanSlashes(env.origin, n);
  }

  lemma CleanVarSlashes(s: string, n: nat)
    ensures CleanVar(Str(s + Slashes(n))) == CleanVar(Str(s))
  {
    CleanSlashes(s, n);
    if s == [] {
      assert s + Slashes(n) == Slashes(n);
      CleanSlashes([], n);
    }
  }

  /* ------------------------------------------------------------- storage */

  /**
   * What a browser storage holds under `key`, with a missing key read as
   * `""`: the helpers only test what they read for truthiness, and `null`
   * and the empty string are both falsy.
   */
  function Stored(store: map<string, string>, key: string): string {
    if key in store then store[key] else ""
  }

  /* ------------------------------------------------------------- headers */

  /**
   * The options of one outgoing request, as the request interceptors see
   * them: the header object may be missing, and the interceptors fill it
   * in place.
   */
  class RequestConfig {
    var headers: Option<map<string, string>>

    constructor(headers: Option<map<string, string>>)
      ensures this.headers == headers
    {
      this.headers := headers;
    }
  }

  /** The header object, an empty one standing in for a missing one. */
  function HeadersOf(h: Option<map<string, string>>): map<string, string> {
    if h.Some? then h.value else map[]
  }

  /** The header is set to a non-empty value, so the interceptors leave it alone. */
  predicate HasHeader(h: Option<map<string, string>>, name: string) {
    name in HeadersOf(h) && HeadersOf(h)[name] != ""
  }

  /* ------------------------------------------------------- JSON responses */

  /** A response body: text, or any other decoded value. */
  datatype Body = Text(text: string) | Other

  /** A response: its status, its content-type header (possibly missing) and its body. */
  datatype Response = Response(status: int, contentType: Field, data: Body)

  /** The error a non-JSON answer is turned into. */
  datatype NotJson = NotJson(status: int, data: Body, message: string)

  datatype Checked = Passed(response: Response) | Rejected(error: NotJson)

  const NotJsonPrefix := "JSON bekleniyordu ama geldi: "

  /** At most the first `n` characters of a text body, and nothing for any other body. */
  function Snippet(data: Body, n: nat): (r: string)
    ensures data.Other? ==> r == ""
    ensures data.Text? ==> |r| == (if |data.text| < n then |data.text| else n) && r == data.text[..|r|]
  {
    match data
    case Text(s) => if |s| <= n then s else s[..n]
    case Other => ""
  }

  /**
   * The success path of a response interceptor: an answer whose
   * lower-cased content type mentions "application/json" goes through
   * unchanged; any other becomes an error carrying its status and body and
   * a message naming the content type ("bilinmiyor" when it is missing)
   * and the first `clip` characters of a text body.
   */
  function CheckJson(res: Response, clip: nat): (r: Checked)
    ensures r.Passed? <==> Contains(Lower(TextOrEmpty(res.contentType)), "application/json")
    ensures r.Passed? ==> r.response == res
    ensures r.Rejected? ==> r.error.status == res.status && r.error.data == res.data
    ensures r.Rejected? ==>
              var ct := Lower(TextOrEmpty(res.contentType));
              r.error.message == NotJsonPrefix + (if ct == "" then "bilinmiyor" else ct)
                                 + " | \U{00F6}rnek: " + Snippet(res.data, clip)
  {
    var ct := Lower(TextOrEmpty(res.contentType));
    if Contains(ct, "application/json") then Passed(res)
    else Rejected(NotJson(res.status, res.data,
                          NotJsonPrefix + (if ct == "" then "bilinmiyor" else ct) + " | \U{00F6}rnek: " + Snippet(res.data, clip)))
  }

  /** An answer without a content type is rejected, and its message says the type is unknown. */
  lemma UntypedRejected(res: Response, clip: nat)
    requires !Truthy(res.contentType)
    ensures CheckJson(res, clip).Rejected?
    ensures CheckJson(res, clip).error.message == NotJsonPrefix + "bilinmiyor | \U{00F6}rnek: " + Snippet(res.data, clip)
  {
  }
}
