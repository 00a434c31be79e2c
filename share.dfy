/**
 * The share target (src/app/share/route.ts): a shared URL or text is handed
 * to the home page as its `input` query parameter by a 302 redirect.  The
 * redirect target is kept structured (protocol, host, path, `input`); the
 * URL serialisation and percent-encoding of `new URL` are not modelled, and
 * the request body parsers are inputs.
 */
module Share {
  import opened Common
  import JsString

  /** Request headers, keys in lower case. */
  type Headers = map<string, string>

  /** `text` and `url` as the query string or a parsed body gives them. */
  datatype Shared = Shared(text: Option<string>, url: Option<string>)

  /** `${protocol}://${host}/` with `input` set or not. */
  datatype Target = Target(protocol: string, host: string, path: string, input: Option<string>)

  datatype Redirect = Redirect(status: nat, target: Target)

  const DefaultHost: string := "tubecome.onrender.com"

  /** `headers.get(name)` as `||` sees it. */
  function Header(h: Headers, name: string): Option<string> {
    if name in h && h[name] != "" then Some(h[name]) else None
  }

  /** `url || text || ''`: the shared URL when there is one, else the text. */
  function Input(s: Shared): (input: string)
    ensures Truthy(s.url) ==> input == s.url.value
    ensures !Truthy(s.url) ==> input == OrElse(s.text, "")
    ensures input == OrElse(FirstTruthy(s.url, s.text), "")
  {
    OrElseChain(s.url, s.text, "");
    OrElse(s.url, OrElse(s.text, ""))
  }

  /** The redirect both handlers build from the input and the headers. */
  function RedirectFor(input: string, h: Headers): (r: Redirect)
    ensures r.status == 302 && r.target.path == "/"
    ensures r.target.input.Some? <==> input != ""
    ensures r.target.input.Some? ==> r.target.input.value == input
    ensures r.target.host == OrElse(Header(h, "x-forwarded-host"), OrElse(Header(h, "host"), DefaultHost))
    ensures r.target.protocol == OrElse(Header(h, "x-forwarded-proto"), "https")
  {
    var host := OrElse(Header(h, "x-forwarded-host"), OrElse(Header(h, "host"), DefaultHost));
    var protocol := OrElse(Header(h, "x-forwarded-proto"), "https");
    Redirect(302, Target(protocol, host, "/", if input != "" then Some(input) else None))
  }

  /** `GET`: the shared fields come from the query string. */
  function Get(query: Shared, h: Headers): Redirect {
    RedirectFor(Input(query), h)
  }

  /** The body formats `POST` recognises, looked for in this order in the content type. */
  datatype BodyKind = Multipart | UrlEncoded | JsonBody | OtherBody

  function KindOf(contentType: Option<string>): BodyKind {
    var ct := OrElse(contentType, "");
    if JsString.Includes(ct, "multipart/form-data") then Multipart
    else if JsString.Includes(ct, "application/x-www-form-urlencoded") then UrlEncoded
    else if JsString.Includes(ct, "application/json") then JsonBody
    else OtherBody
  }

  /**
   * `POST`: `parsed(kind)` is what reading the body as that format gives; a
   * content type of no recognised format leaves both fields empty.
   */
  function Post(contentType: Option<string>, parsed: BodyKind -> Shared, h: Headers): (r: Redirect)
    ensures KindOf(contentType) == OtherBody ==> r.target.input.None?
    ensures KindOf(contentType) != OtherBody ==> r == Get(parsed(KindOf(contentType)), h)
  {
    var kind := KindOf(contentType);
    var fields := if kind == OtherBody then Shared(None, None) else parsed(kind);
    RedirectFor(Input(fields), h)
  }

  /**
   * Whatever was shared, the answer is a 302 to the root, carrying `input`
   * exactly when a non-empty URL or text was shared, the URL taking precedence.
   */
  lemma {:induction false} ShareSelectsInput(query: Shared, h: Headers)
    ensures Get(query, h).status == 302 && Get(query, h).target.path == "/"
    ensures Get(query, h).target.input.Some? <==> Truthy(query.url) || Truthy(query.text)
    ensures Truthy(query.url) ==> Get(query, h).target.input == query.url
    ensures !Truthy(query.url) && Truthy(query.text) ==> Get(query, h).target.input == query.text
  {
  }

  /** Without forwarding headers the target is `https://` on the `host` header, else the default host. */
  lemma {:induction false} HostFallback(h: Headers)
    requires Header(h, "x-forwarded-host").None? && Header(h, "x-forwarded-proto").None?
    ensures RedirectFor("", h).target.protocol == "https"
    ensures RedirectFor("", h).target.host == (if Header(h, "host").Some? then h["host"] else DefaultHost)
  {
  }
}
