/**
 * The RSS seed script (scripts/fetch-rss-channels.js): the channel list comes
 * from the `CHANNELS` variable, or from a one-element seed list; each
 * channel's feed is fetched and its entries with a video id kept; channels
 * whose fetch fails are skipped.  The fetch and XML parse of one channel are
 * an oracle (`feedOf`), None when they failed.
 */
module RssSeed {
  import opened Common
  import JsString

  const SeedChannel: string := "UC_x5XG1OV2P6uZZ5FSM9Ttw"

  /** The characters of `/[,\n\r]+/`. */
  predicate IsListSep(c: char) {
    c == ',' || c == '\n' || c == '\r'
  }

  /** `x` is a non-empty trim of one of the pieces `/[,\n\r]+/` cuts `v` into. */
  ghost predicate IsPieceOf(v: string, x: string) {
    x != "" && exists p :: p in JsString.SplitRuns(v, IsListSep) && JsString.Trim(p) == x
  }

  /** A value that holds a newline or a comma and some non-blank piece. */
  ghost predicate ListsIds(v: string) {
    ('\n' in v || ',' in v) && exists x :: IsPieceOf(v, x)
  }

  /**
   * `channelIds` after the script's top level: split only when the value holds
   * a newline or a comma (`includes` of one character is membership), trimmed,
   * empties dropped, and the seed list when nothing is left.
   */
  function ChannelIds(env: Option<string>): (ids: seq<string>)
    ensures |ids| >= 1
    ensures forall k :: 0 <= k < |ids| ==> ids[k] != "" && JsString.IsTrimmed(ids[k])
    ensures forall k, j :: 0 <= k < |ids| && 0 <= j < |ids[k]| ==> !IsListSep(ids[k][j])
    ensures ListsIds(OrElse(env, "")) ==> forall x :: x in ids <==> IsPieceOf(OrElse(env, ""), x)
    ensures !ListsIds(OrElse(env, "")) ==> ids == [SeedChannel]
  {
    var v := OrElse(env, "");
    var parsed := Listed(v);
    assert ListsIds(v) ==> |parsed| > 0 by {
      if ListsIds(v) {
        var x :| IsPieceOf(v, x);
        assert x in parsed;
      }
    }
    assert |parsed| > 0 ==> ListsIds(v) by {
      if |parsed| > 0 {
        assert parsed[0] in parsed && IsPieceOf(v, parsed[0]);
      }
    }
    if |parsed| == 0 then [SeedChannel] else parsed
  }

  /** The ids the value itself lists: none unless it holds a newline or a comma, and
      then exactly the non-empty trims of its pieces. */
  function Listed(v: string): (ids: seq<string>)
    ensures ('\n' !in v && ',' !in v) ==> ids == []
    ensures ('\n' in v || ',' in v) ==> forall x :: x in ids <==> IsPieceOf(v, x)
    ensures forall k :: 0 <= k < |ids| ==> ids[k] != "" && JsString.IsTrimmed(ids[k])
    ensures forall k, j :: 0 <= k < |ids| && 0 <= j < |ids[k]| ==> !IsListSep(ids[k][j])
  {
    if '\n' in v || ',' in v then
      var parts := JsString.SplitRuns(v, IsListSep);
      JsString.TrimmedNonEmptyAvoids(parts, IsListSep);
      JsString.TrimmedNonEmptyMembersAll(parts);
      JsString.TrimmedNonEmpty(parts)
    else []
  }

  /** A value with no comma or newline is ignored, even a single valid id: the seed list is used. */
  lemma {:induction false} SingleIdIgnored(env: string)
    requires '\n' !in env && ',' !in env
    ensures ChannelIds(Some(env)) == [SeedChannel]
  {
  }

  /** A comma-separated list of clean ids (at least two) is read back exactly. */
  lemma {:induction false} ListReadBack(ids: seq<string>)
    requires |ids| >= 2
    requires forall k :: 0 <= k < |ids| ==> ids[k] != "" && JsString.IsTrimmed(ids[k])
    requires forall k, j :: 0 <= k < |ids| && 0 <= j < |ids[k]| ==> !IsListSep(ids[k][j])
    ensures ChannelIds(Some(JsString.Join(ids, ','))) == ids
  {
    var v := JsString.Join(ids, ',');
    assert v == ids[0] + [','] + JsString.Join(ids[1..], ',');
    assert v[|ids[0]|] == ',';
    assert OrElse(Some(v), "") == v by {
      assert ids[0] != "" && |v| > 0;
    }
    JsString.SplitRunsJoin(ids, ',', IsListSep);
    JsString.TrimmedNonEmptyKeeps(ids);
  }

  /** One mapped `entry` of the parsed feed. */
  datatype Video = Video(id: Option<string>, title: Option<string>, published: Option<string>, link: Option<string>)

  /** What the parsed feed gives; `channelId` is filled in by `fetchFeed`. */
  datatype Parsed = Parsed(title: Option<string>, description: Option<string>, entries: seq<Video>)

  datatype Feed = Feed(channelId: string, title: Option<string>, description: Option<string>, videos: seq<Video>)

  /** `.filter(v => v.id)`. */
  function WithId(vs: seq<Video>): (r: seq<Video>)
    ensures |r| <= |vs|
    ensures forall k :: 0 <= k < |r| ==> Truthy(r[k].id)
  {
    if |vs| == 0 then []
    else (if Truthy(vs[0].id) then [vs[0]] else []) + WithId(vs[1..])
  }

  /** The filter keeps exactly the videos with an id. */
  lemma {:induction false} WithIdKeeps(vs: seq<Video>)
    ensures forall v :: v in WithId(vs) <==> v in vs && Truthy(v.id)
    ensures |WithId(vs)| == |vs| <==> forall k :: 0 <= k < |vs| ==> Truthy(vs[k].id)
  {
    if |vs| > 0 {
      WithIdKeeps(vs[1..]);
      assert vs == [vs[0]] + vs[1..];
      assert forall k :: 1 <= k < |vs| ==> vs[k] == vs[1..][k - 1];
    }
  }

  /** The filter works video by video, so the kept videos stay in their order. */
  lemma {:induction false} WithIdAppend(a: seq<Video>, b: seq<Video>)
    ensures WithId(a + b) == WithId(a) + WithId(b)
    decreases |a|
  {
    if |a| == 0 {
      assert a + b == b;
    } else {
      WithIdAppend(a[1..], b);
      assert (a + b)[0] == a[0] && (a + b)[1..] == a[1..] + b;
      AppendAssoc(if Truthy(a[0].id) then [a[0]] else [], WithId(a[1..]), WithId(b));
    }
  }

  /** `fetchFeed` for one channel: None when it threw. */
  function FetchFeed(channelId: string, parsed: Option<Parsed>): (f: Option<Feed>)
    ensures f.Some? <==> parsed.Some?
    ensures f.Some? ==> f.value.channelId == channelId && f.value.videos == WithId(parsed.value.entries)
  {
    match parsed
    case None => None
    case Some(p) => Some(Feed(channelId, p.title, p.description, WithId(p.entries)))
  }

  /** The feeds `main` collects for the channels up to the end of `ids`. */
  function Collected(ids: seq<string>, feedOf: string -> Option<Parsed>): (out: seq<Feed>)
    ensures |out| <= |ids|
  {
    if |ids| == 0 then []
    else
      var f := FetchFeed(ids[|ids| - 1], feedOf(ids[|ids| - 1]));
      Collected(ids[..|ids| - 1], feedOf) + (if f.Some? then [f.value] else [])
  }

  /** Every channel that can be fetched is in the output and no other is; failures are just skipped. */
  lemma {:induction false} CollectedSkipsFailures(ids: seq<string>, feedOf: string -> Option<Parsed>)
    ensures forall f :: f in Collected(ids, feedOf) ==> f.channelId in ids && feedOf(f.channelId).Some?
    ensures forall id :: id in ids && feedOf(id).Some? ==> FetchFeed(id, feedOf(id)).value in Collected(ids, feedOf)
  {
    if |ids| > 0 {
      var init := ids[..|ids| - 1];
      CollectedSkipsFailures(init, feedOf);
      assert ids == init + [ids[|ids| - 1]];
    }
  }

  /** `main`'s loop: try each channel in turn and push the successes. */
  method CollectFeeds(ids: seq<string>, feedOf: string -> Option<Parsed>) returns (out: seq<Feed>)
    ensures out == Collected(ids, feedOf)
  {
    out := [];
    for i := 0 to |ids|
      invariant out == Collected(ids[..i], feedOf)
    {
      assert ids[..i + 1][..i] == ids[..i];
      var data := FetchFeed(ids[i], feedOf(ids[i]));
      if data.Some? {
        out := out + [data.value];
      }
    }
    assert ids[..|ids|] == ids;
  }
}
