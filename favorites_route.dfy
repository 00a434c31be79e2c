/**
 * The server-side favourites API (src/app/api/favorites/route.ts): the client
 * id carried in the `tubecome_client_id` cookie, the response that sets it, and
 * the validation in GET, POST and DELETE.  The database calls are inputs: each
 * handler reports which call it would issue and is given that call's outcome.
 */
module FavoritesRoute {
  import opened Common

  const CookieName := "tubecome_client_id"
  /** One year in seconds, the cookie's `maxAge`. */
  const CookieMaxAge := 60 * 60 * 24 * 365

  /** `name=` at `n` in the Cookie header `s`. */
  predicate NameAt(s: string, name: string, n: nat) {
    n + |name| < |s| && s[n..n + |name|] == name && s[n + |name|] == '='
  }

  /** `(?:^|; )` just before `n`: the start of the header or right after `"; "`. */
  predicate BoundaryAt(s: string, n: nat) {
    n == 0 || (2 <= n <= |s| && s[n - 2] == ';' && s[n - 1] == ' ')
  }

  /** The index just past `name=` when the cookie regex matches with its name at `n`. */
  predicate PairAt(s: string, name: string, n: nat) {
    BoundaryAt(s, n) && NameAt(s, name, n) && n + |name| + 1 < |s| && s[n + |name| + 1] != ';'
  }

  /** `[^;]+`, greedy: the length of the run of non-`;` characters from `i`. */
  function ValueRun(s: string, i: nat): (n: nat)
    requires i <= |s|
    ensures i + n <= |s|
    ensures forall k :: i <= k < i + n ==> s[k] != ';'
    ensures i + n < |s| ==> s[i + n] == ';'
    decreases |s| - i
  {
    if i < |s| && s[i] != ';' then 1 + ValueRun(s, i + 1) else 0
  }

  /** The leftmost position, from `n` on, where the cookie regex matches. */
  function FindPair(s: string, name: string, n: nat): (r: Option<nat>)
    ensures r.Some? ==> n <= r.value && PairAt(s, name, r.value)
    ensures forall m :: n <= m && (r.None? || m < r.value) ==> !PairAt(s, name, m)
    decreases |s| - n
  {
    if n >= |s| then None
    else if PairAt(s, name, n) then Some(n)
    else FindPair(s, name, n + 1)
  }

  /** `cookie.match(/(?:^|; )NAME=([^;]+)/)?.[1]` on a header value. */
  function CookieValue(s: string, name: string): (v: Option<string>)
    ensures v.Some? <==> exists n :: PairAt(s, name, n)
    ensures v.Some? ==> v.value != "" && ';' !in v.value
  {
    match FindPair(s, name, 0)
    case None => None
    case Some(n) =>
      var i := n + |name| + 1;
      Some(s[i..i + ValueRun(s, i)])
  }

  /** `getClientIdFromReq`: the `tubecome_client_id` cookie, absent header read as `''`. */
  function GetClientId(cookie: Option<string>): (id: Option<string>)
    ensures !Truthy(cookie) ==> id.None?
    ensures id.Some? ==> id.value != "" && ';' !in id.value
  {
    CookieValue(OrElse(cookie, ""), CookieName)
  }

  /** The value read is the whole `[^;]+` run after the first match's `=`. */
  lemma {:induction false} CookieValueIsFirstRun(s: string, name: string)
    requires CookieValue(s, name).Some?
    ensures exists n: nat ::
      PairAt(s, name, n) && (forall m: nat :: m < n ==> !PairAt(s, name, m)) &&
      var i := n + |name| + 1;
      var v := CookieValue(s, name).value;
      i + |v| <= |s| && v == s[i..i + |v|] && (i + |v| == |s| || s[i + |v|] == ';')
  {
    var n := FindPair(s, name, 0).value;
    var i := n + |name| + 1;
    var v := CookieValue(s, name).value;
    assert v == s[i..i + ValueRun(s, i)];
    assert |v| == ValueRun(s, i);
    assert PairAt(s, name, n);
    assert forall m: nat :: m < n ==> !PairAt(s, name, m);
    assert i + |v| <= |s| && v == s[i..i + |v|] && (i + |v| == |s| || s[i + |v|] == ';');
  }

  /** A header that is one `name=value` pair reads back that value. */
  lemma {:induction false} CookieRoundTrip(name: string, value: string)
    requires value != "" && ';' !in value
    ensures CookieValue(name + "=" + value, name) == Some(value)
  {
    var s := name + "=" + value;
    var i := |name| + 1;
    SinglePairAtStart(name, value);
    assert FindPair(s, name, 0) == Some(0);
    SingleRun(name, value);
    assert s[i..i + |value|] == value;
  }

  /** Helper: `name=value` matches the cookie regex at its start. */
  lemma {:induction false} SinglePairAtStart(name: string, value: string)
    requires value != ""
    ensures PairAt(name + "=" + value, name, 0) == (value[0] != ';')
  {
    var s := name + "=" + value;
    assert s[..|name|] == name;
    assert s[|name|] == '=';
    assert s[|name| + 1] == value[0];
  }

  /** Helper: the value run after `name=` is the whole value. */
  lemma {:induction false} SingleRun(name: string, value: string)
    requires ';' !in value
    ensures ValueRun(name + "=" + value, |name| + 1) == |value|
  {
    var s := name + "=" + value;
    var i := |name| + 1;
    forall k | i <= k < |s| ensures s[k] != ';' {
      assert s[k] == value[k - i];
    }
    RunToEnd(s, i);
  }

  lemma {:induction false} RunToEnd(s: string, i: nat)
    requires i <= |s| && forall k :: i <= k < |s| ==> s[k] != ';'
    ensures ValueRun(s, i) == |s| - i
    decreases |s| - i
  {
    if i < |s| {
      RunToEnd(s, i + 1);
    }
  }

  /** The Set-Cookie instruction `makeCookieResponse` attaches. */
  datatype SetCookie = SetCookie(name: string, value: string, httpOnly: bool, path: string, maxAge: nat)

  datatype FavoriteRow = FavoriteRow(channelId: string, channelTitle: Option<string>, createdAt: string)
  datatype Payload = Payload(clientId: string, channelId: string, channelTitle: Option<string>)

  datatype Body =
    | FavoritesBody(favorites: seq<FavoriteRow>)
    | ErrorBody(error: string, details: Option<string>)
    | OkBody
    | OkFavoriteBody(favorite: Payload)

  datatype Response = Response(status: nat, body: Body, cookie: Option<SetCookie>)

  /** The database call a handler issues. */
  datatype DbCall = SelectFor(clientId: string) | Upsert(payload: Payload) | DeleteFor(clientId: string, channelId: string)

  datatype Handled = Handled(response: Response, call: Option<DbCall>)

  /** `makeCookieResponse`: status 200, with the id cookie only when an id is given. */
  function MakeCookieResponse(body: Body, clientId: Option<string>): (r: Response)
    ensures r.status == 200 && r.body == body
    ensures r.cookie.Some? <==> Truthy(clientId)
    ensures r.cookie.Some? ==>
      r.cookie.value == SetCookie(CookieName, clientId.value, true, "/", 31536000)
  {
    if Truthy(clientId) then Response(200, body, Some(SetCookie(CookieName, clientId.value, true, "/", CookieMaxAge)))
    else Response(200, body, None)
  }

  /** `ensureClientId`: the cookie's id, else the newly generated one. */
  function EnsureClientId(cookie: Option<string>, newId: string): (id: string)
    ensures GetClientId(cookie).Some? ==> id == GetClientId(cookie).value
    ensures GetClientId(cookie).None? ==> id == newId
  {
    match GetClientId(cookie)
    case Some(v) => v
    case None => newId
  }

  /** The id cookie a response sets, sent back as the Cookie header, reads back as the same id. */
  lemma {:induction false} IssuedCookieReadsBack(body: Body, clientId: Option<string>)
    requires Truthy(clientId) && ';' !in clientId.value
    ensures var c := MakeCookieResponse(body, clientId).cookie.value;
      GetClientId(Some(c.name + "=" + c.value)) == clientId
  {
    CookieRoundTrip(CookieName, clientId.value);
  }

  /** A database outcome: an error message or the rows read. */
  datatype DbResult<T> = DbError(message: string) | DbOk(data: T)

  /** `GET`: list the caller's favourites, or hand out a new id when there is no cookie. */
  function Get(cookie: Option<string>, newId: string, select: DbResult<seq<FavoriteRow>>): (h: Handled)
    ensures GetClientId(cookie).None? ==>
      h.call.None? && h.response == MakeCookieResponse(FavoritesBody([]), Some(newId))
    ensures GetClientId(cookie).Some? ==>
      h.call == Some(SelectFor(GetClientId(cookie).value)) && h.response.cookie.None?
    ensures GetClientId(cookie).Some? && select.DbError? ==>
      h.response.status == 500 && h.response.body == ErrorBody("db_error", Some(select.message))
    ensures GetClientId(cookie).Some? && select.DbOk? ==>
      h.response.status == 200 && h.response.body == FavoritesBody(select.data)
  {
    match GetClientId(cookie)
    case None =>
      Handled(MakeCookieResponse(FavoritesBody([]), Some(EnsureClientId(cookie, newId))), None)
    case Some(id) =>
      var call := Some(SelectFor(id));
      match select
      case DbError(m) => Handled(Response(500, ErrorBody("db_error", Some(m)), None), call)
      case DbOk(rows) => Handled(Response(200, FavoritesBody(rows), None), call)
  }

  /** The fields POST reads from its JSON body; a body that fails to parse reads as `{}`. */
  datatype PostBody = PostBody(channelId: Option<string>, channelTitle: Option<string>)

  /** `POST`: add a favourite for the caller, creating an id when there is none. */
  function Post(body: Option<PostBody>, cookie: Option<string>, newId: string, upsertError: Option<string>): (h: Handled)
    ensures var b := body.GetOr(PostBody(None, None));
      !Truthy(b.channelId) ==>
        h.call.None? && h.response == Response(400, ErrorBody("missing_channelId", None), None)
    ensures var b := body.GetOr(PostBody(None, None));
      Truthy(b.channelId) ==>
        var id := EnsureClientId(cookie, newId);
        var p := Payload(id, b.channelId.value, b.channelTitle);
        h.call == Some(Upsert(p)) && h.response.status == 200 &&
        h.response.cookie == MakeCookieResponse(OkBody, Some(id)).cookie &&
        h.response.body == (if upsertError.Some? then ErrorBody("db_error", upsertError) else OkFavoriteBody(p))
  {
    var b := body.GetOr(PostBody(None, None));
    if !Truthy(b.channelId) then
      Handled(Response(400, ErrorBody("missing_channelId", None), None), None)
    else
      var id := EnsureClientId(cookie, newId);
      var p := Payload(id, b.channelId.value, b.channelTitle);
      if upsertError.Some? then
        Handled(MakeCookieResponse(ErrorBody("db_error", upsertError), Some(id)), Some(Upsert(p)))
      else
        Handled(MakeCookieResponse(OkFavoriteBody(p), Some(id)), Some(Upsert(p)))
  }

  /** `DELETE`: remove one favourite of the caller; without a cookie there is nothing to remove. */
  function Delete(channelId: Option<string>, cookie: Option<string>, deleteError: Option<string>): (h: Handled)
    ensures !Truthy(channelId) ==>
      h.call.None? && h.response == Response(400, ErrorBody("missing_channelId", None), None)
    ensures Truthy(channelId) && GetClientId(cookie).None? ==>
      h.call.None? && h.response == Response(200, OkBody, None)
    ensures Truthy(channelId) && GetClientId(cookie).Some? ==>
      h.call == Some(DeleteFor(GetClientId(cookie).value, channelId.value)) &&
      h.response == (if deleteError.Some? then Response(500, ErrorBody("db_error", deleteError), None)
                     else Response(200, OkBody, None))
  {
    if !Truthy(channelId) then
      Handled(Response(400, ErrorBody("missing_channelId", None), None), None)
    else
      match GetClientId(cookie)
      case None => Handled(Response(200, OkBody, None), None)
      case Some(id) =>
        var call := Some(DeleteFor(id, channelId.value));
        if deleteError.Some? then Handled(Response(500, ErrorBody("db_error", deleteError), None), call)
        else Handled(Response(200, OkBody, None), call)
  }

  /** Only a request without a usable cookie gets a new id, and only GET and POST hand one out. */
  lemma {:induction false} CookieSetOnlyWithId(cookie: Option<string>, newId: string, select: DbResult<seq<FavoriteRow>>,
                            channelId: Option<string>, deleteError: Option<string>)
    ensures Get(cookie, newId, select).response.cookie.Some? ==>
      GetClientId(cookie).None? && Get(cookie, newId, select).response.cookie.value.value == newId
    ensures Delete(channelId, cookie, deleteError).response.cookie.None?
  {
  }
}
