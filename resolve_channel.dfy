/**
 * The channel resolver endpoint (src/app/api/resolve-channel/route.ts): a
 * user's input is either a channel id already, or a URL whose page is fetched
 * and scanned for the channel id.  The page fetch is an input (`Page`), and
 * the title lookup of `fetchChannelTitleFromRss` is an oracle from channel id
 * to an optional title.
 */
module ResolveChannel {
  import opened Common
  import opened ChannelId
  import JsString

  /** Scraped ids are `UC` plus exactly 22 id characters. */
  const ScrapedIdLength: nat := 24

  /** `"browseId":"` before the id and `"` after it. */
  const BrowsePrefix: string := "\"browseId\":\""
  const BrowseSuffix: string := "\""
  /** The `og:url` meta tag around the id. */
  const OgPrefix: string := "<meta property=\"og:url\" content=\"https://www.youtube.com/channel/"
  const OgSuffix: string := "\">"

  /** An occurrence of `pre`, `UC`, 22 id characters and `post` starting at index `k`. */
  predicate IdAt(text: string, k: nat, pre: string, post: string) {
    var i := k + |pre|;
    i + ScrapedIdLength + |post| <= |text| &&
    text[k..i] == pre &&
    text[i] == 'U' && text[i + 1] == 'C' &&
    AllIdChars(text[i + 2..i + ScrapedIdLength]) &&
    text[i + ScrapedIdLength..i + ScrapedIdLength + |post|] == post
  }

  /** The leftmost occurrence at or after `k`, as a regular-expression search finds it. */
  function FirstIdAt(text: string, pre: string, post: string, k: nat): (r: Option<nat>)
    ensures r.Some? ==> k <= r.value && IdAt(text, r.value, pre, post)
    decreases |text| - k
  {
    if k + |pre| + ScrapedIdLength + |post| > |text| then None
    else if IdAt(text, k, pre, post) then Some(k)
    else FirstIdAt(text, pre, post, k + 1)
  }

  /** No occurrence is skipped: the search stops at the first, and finds none only when there is none. */
  lemma {:induction false} FirstIdAtLeftmost(text: string, pre: string, post: string, k: nat)
    ensures var r := FirstIdAt(text, pre, post, k);
      (r.Some? ==> forall j: nat :: k <= j < r.value ==> !IdAt(text, j, pre, post)) &&
      (r.None? ==> forall j: nat :: k <= j ==> !IdAt(text, j, pre, post))
    decreases |text| - k
  {
    if k + |pre| + ScrapedIdLength + |post| <= |text| && !IdAt(text, k, pre, post) {
      FirstIdAtLeftmost(text, pre, post, k + 1);
    }
  }

  /** The captured id of the leftmost occurrence: `UC` and 22 id characters, so a channel id. */
  function Extract(text: string, pre: string, post: string): (r: Option<string>)
    ensures r.Some? ==> |r.value| == ScrapedIdLength && IsChannelId(r.value)
  {
    match FirstIdAt(text, pre, post, 0)
    case None => None
    case Some(j) =>
      var id := text[j + |pre|..j + |pre| + ScrapedIdLength];
      assert id[2..] == text[j + |pre| + 2..j + |pre| + ScrapedIdLength];
      Some(id)
  }

  /** The scan finds nothing exactly when the pattern occurs nowhere. */
  lemma {:induction false} ExtractNone(text: string, pre: string, post: string)
    ensures Extract(text, pre, post).None? <==> forall j: nat :: !IdAt(text, j, pre, post)
  {
    FirstIdAtLeftmost(text, pre, post, 0);
  }

  /** A text that starts with the pattern around a scraped-length id yields that id. */
  lemma {:induction false} ExtractFinds(id: string, pre: string, post: string, rest: string)
    requires |id| == ScrapedIdLength && IsChannelId(id)
    ensures Extract(pre + id + post + rest, pre, post) == Some(id)
  {
    var text := pre + id + post + rest;
    var i := |pre|;
    assert text[..i] == pre;
    assert text[i..i + ScrapedIdLength] == id;
    assert text[i + 2..i + ScrapedIdLength] == id[2..];
    assert text[i + ScrapedIdLength..i + ScrapedIdLength + |post|] == post;
    assert IdAt(text, 0, pre, post);
  }

  /** The `browseId` match, else the `og:url` match. */
  function ScrapeChannelId(text: string): (r: Option<string>)
    ensures r.Some? ==> IsChannelId(r.value)
  {
    var b := Extract(text, BrowsePrefix, BrowseSuffix);
    if b.Some? then b else Extract(text, OgPrefix, OgSuffix)
  }

  /** The `og:url` tag is consulted only when the page holds no `browseId`. */
  lemma {:induction false} ScrapePrefersBrowseId(text: string)
    ensures (exists j: nat :: IdAt(text, j, BrowsePrefix, BrowseSuffix)) ==>
      ScrapeChannelId(text) == Extract(text, BrowsePrefix, BrowseSuffix) && ScrapeChannelId(text).Some?
    ensures (forall j: nat :: !IdAt(text, j, BrowsePrefix, BrowseSuffix)) ==>
      ScrapeChannelId(text) == Extract(text, OgPrefix, OgSuffix)
  {
    ExtractNone(text, BrowsePrefix, BrowseSuffix);
  }

  /** `/^https?:\/\//`. */
  predicate HasScheme(s: string) {
    JsString.StartsWith(s, "http://") || JsString.StartsWith(s, "https://")
  }

  /** The URL fetched for an input that is not a channel id. */
  function TargetUrl(input: string): string {
    if !HasScheme(input) && (JsString.StartsWith(input, "www.") || JsString.Includes(input, "youtube.com"))
    then "https://" + input
    else input
  }

  /**
   * The URL is the input, or the input behind `https://` exactly when it had no
   * scheme and looks like a YouTube address; the result of a rewrite has a
   * scheme, so normalising twice is normalising once.
   */
  lemma {:induction false} TargetUrlNormalises(input: string)
    ensures TargetUrl(input) == input || TargetUrl(input) == "https://" + input
    ensures TargetUrl(input) != input <==>
      !HasScheme(input) && (JsString.StartsWith(input, "www.") || JsString.Includes(input, "youtube.com"))
    ensures HasScheme(input) ==> TargetUrl(input) == input
    ensures TargetUrl(input) != input ==> HasScheme(TargetUrl(input))
    ensures TargetUrl(TargetUrl(input)) == TargetUrl(input)
  {
    var u := TargetUrl(input);
    if u != input {
      assert "https://" <= u;
      assert HasScheme(u);
    }
  }

  /** What the page fetch did: threw, answered with a non-ok status, or returned a text. */
  datatype Page = Threw(message: string) | NotOk(status: int) | Loaded(text: string)

  datatype Body =
    | IdBody(channelId: string)
    | IdTitleBody(channelId: string, channelTitle: string)
    | ErrorBody(error: string)
    | FetchFailedBody(fetchStatus: int)
    | FetchErrorBody(message: string)

  datatype Response = Response(status: nat, body: Body)

  /** The response, and the URL that was fetched if any. */
  datatype Handled = Handled(response: Response, fetched: Option<string>)

  /** A found id, with its title when the title lookup gives a non-empty one. */
  function Found(id: string, title: Option<string>): (r: Response)
    ensures r.status == 200
    ensures Truthy(title) ==> r.body == IdTitleBody(id, title.value)
    ensures !Truthy(title) ==> r.body == IdBody(id)
  {
    if Truthy(title) then Response(200, IdTitleBody(id, title.value)) else Response(200, IdBody(id))
  }

  /** The trimmed input, `(body.input || '').trim()`. */
  function Trimmed(input: Option<string>): string {
    JsString.Trim(OrElse(input, ""))
  }

  /** `POST`: `input` is the request body's `input` field, trimmed before anything else;
      `page` is what fetching the target URL gives. */
  function Post(input: Option<string>, page: Page, titleOf: string -> Option<string>): Handled {
    Handle(Trimmed(input), page, titleOf)
  }

  /**
   * The handler after trimming `t`.  Only an input that is neither empty nor a
   * channel id is fetched, and then at its normalised URL; every 200 answer
   * names a channel id; the error statuses say which step failed.
   */
  function Handle(t: string, page: Page, titleOf: string -> Option<string>): (h: Handled)
    ensures h.fetched.Some? <==> t != "" && !IsChannelId(t)
    ensures h.fetched.Some? ==> h.fetched.value == TargetUrl(t)
    ensures h.response.status == 400 <==> t == ""
    ensures h.response.status == 400 ==> h.response.body == ErrorBody("missing_input")
    ensures h.response.status == 502 <==> h.fetched.Some? && !page.Loaded?
    ensures h.response.status == 404 <==> h.fetched.Some? && page.Loaded? && ScrapeChannelId(page.text).None?
    ensures h.response.status == 404 ==> h.response.body == ErrorBody("not_found")
    ensures h.response.status == 200 <==> h.response.body.IdBody? || h.response.body.IdTitleBody?
    ensures h.response.status == 200 ==> IsChannelId(h.response.body.channelId)
    ensures h.response.status in {200, 400, 404, 502}
  {
    if t == "" then Handled(Response(400, ErrorBody("missing_input")), None)
    else if IsChannelId(t) then Handled(Found(t, titleOf(t)), None)
    else
      var url := TargetUrl(t);
      match page
      case Threw(m) => Handled(Response(502, FetchErrorBody(m)), Some(url))
      case NotOk(s) => Handled(Response(502, FetchFailedBody(s)), Some(url))
      case Loaded(text) =>
        var id := ScrapeChannelId(text);
        if id.None? then Handled(Response(404, ErrorBody("not_found")), Some(url))
        else Handled(Found(id.value, titleOf(id.value)), Some(url))
  }

  /** A scraped id is answered with the title the lookup gives for it, when that title is non-empty. */
  lemma {:induction false} ScrapedAnswer(t: string, text: string, titleOf: string -> Option<string>)
    requires t != "" && !IsChannelId(t)
    requires ScrapeChannelId(text).Some?
    ensures var id := ScrapeChannelId(text).value;
      Handle(t, Loaded(text), titleOf) == Handled(Found(id, titleOf(id)), Some(TargetUrl(t)))
  {
  }

  /** An input that is a channel id resolves to that id without a fetch. */
  lemma {:induction false} DirectIdNeedsNoFetch(id: string, page: Page, titleOf: string -> Option<string>)
    requires IsChannelId(id)
    ensures Post(Some(id), page, titleOf).fetched.None?
    ensures Post(Some(id), page, titleOf).response == Found(id, titleOf(id))
  {
    assert OrElse(Some(id), "") == id;
    assert !JsString.IsWhite(id[0]) && !JsString.IsWhite(id[|id| - 1]);
    JsString.TrimIdentity(id);
    assert Trimmed(Some(id)) == id && id != "";
    var h := Post(Some(id), page, titleOf);
    assert h == Handled(Found(id, titleOf(id)), None);
  }
}
