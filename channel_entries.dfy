/**
 * The channel video list (src/app/api/channel-entries/route.ts): the entries
 * of the channel's RSS feed, one record per `<entry>` block that has a video
 * id, with the YouTube Data API as fallback when the feed yields nothing.
 * The regular-expression extraction of each field from a block is given as
 * input (`Block`); the three fetches are inputs too.
 */
module ChannelEntries {
  import opened Common
  import JsString

  /** The fields the source's regular expressions find in one `<entry>` block (None: no match). */
  datatype Block = Block(
    vid: Option<string>, title: Option<string>, published: Option<string>, link: Option<string>,
    thumbnail: Option<string>, description: Option<string>, durationSeconds: Option<string>,
    author: Option<string>)

  /** One record of the `entries` array. */
  datatype Entry = Entry(
    id: string, title: string, published: string, link: string,
    thumbnail: Option<string>, description: Option<string>, durationSeconds: Option<string>,
    author: Option<string>)

  const WatchPrefix: string := "https://www.youtube.com/watch?v="

  // ---------------------------------------------------------------- tag stripping

  /** `/<[^>]+>/` matches at `i`: a `<`, at least one character other than `>`, then a `>`. */
  predicate TagAt(s: string, i: nat) {
    i + 1 < |s| && s[i] == '<' && s[i + 1] != '>' && '>' in s[i + 1..]
  }

  /** `s.replace(/<[^>]+>/g, '')`: scanning left to right, each tag up to its first `>` goes. */
  function StripTags(s: string): (r: string)
    ensures |r| <= |s|
    ensures '>' !in s ==> '>' !in r
    ensures '<' !in s ==> r == s
    decreases |s|
  {
    if |s| == 0 then ""
    else if TagAt(s, 0) then
      var close := 1 + JsString.FirstIndex(s[1..], c => c == '>');
      assert s[0] == '<';
      StripTags(s[close + 1..])
    else
      assert s == [s[0]] + s[1..];
      [s[0]] + StripTags(s[1..])
  }

  /** No tag survives stripping: removing one never brings a new one together. */
  lemma {:induction false} StripTagsLeavesNoTag(s: string)
    ensures forall i: nat :: !TagAt(StripTags(s), i)
    decreases |s|
  {
    if |s| > 0 {
      if TagAt(s, 0) {
        var close := 1 + JsString.FirstIndex(s[1..], c => c == '>');
        StripTagsLeavesNoTag(s[close + 1..]);
      } else {
        var rest := StripTags(s[1..]);
        StripTagsLeavesNoTag(s[1..]);
        var r := [s[0]] + rest;
        assert StripTags(s) == r;
        forall i: nat ensures !TagAt(r, i) {
          if i == 0 && s[0] == '<' && |s| > 1 {
            // `s` has no tag at 0: its `<` is followed by `>` or by no `>` at all.
            if s[1] == '>' {
              assert StripTags(s[1..]) == [s[1]] + StripTags(s[2..]);
              assert r[1] == '>';
            } else {
              assert '>' !in s[1..];
              assert r[1..] == rest;
            }
          } else if i > 0 && i + 1 < |r| {
            assert r[i] == rest[i - 1] && r[i + 1] == rest[i];
            assert r[i + 1..] == rest[i..];
            assert !TagAt(rest, i - 1);
          }
        }
      }
    }
  }

  /** Stripping a stripped text changes nothing more. */
  lemma {:induction false} StripTagsIdempotent(s: string)
    ensures StripTags(StripTags(s)) == StripTags(s)
  {
    StripTagsLeavesNoTag(s);
    NoTagUnchanged(StripTags(s));
  }

  /** Text before the first `<` is kept as it is. */
  lemma {:induction false} StripTagsKeepsText(x: string, s: string)
    requires '<' !in x
    ensures StripTags(x + s) == x + StripTags(s)
    decreases |x|
  {
    if |x| > 0 {
      var u := x + s;
      assert u[0] == x[0] && u[1..] == x[1..] + s;
      assert !TagAt(u, 0);
      StripTagsKeepsText(x[1..], s);
      assert x == [x[0]] + x[1..];
      AppendAssoc([x[0]], x[1..], StripTags(s));
    } else {
      assert x + s == s;
    }
  }

  /** A tag `<t>` whose body has no `>` goes entirely, whatever follows it. */
  lemma StripTagsDropsTag(t: string, s: string)
    requires t != "" && '>' !in t
    ensures StripTags("<" + t + ">" + s) == StripTags(s)
  {
    var u := "<" + t + ">" + s;
    assert u[1..] == t + ">" + s;
    assert u[1..][|t|] == '>';
    assert u[1] == t[0];
    assert TagAt(u, 0);
    var i := JsString.FirstIndex(u[1..], c => c == '>');
    assert forall k :: 0 <= k < |t| ==> u[1..][k] == t[k];
    assert i == |t|;
    assert u[|t| + 2..] == s;
  }

  /** A text with no tag anywhere is left as it is. */
  lemma {:induction false} NoTagUnchanged(s: string)
    requires forall i: nat :: !TagAt(s, i)
    ensures StripTags(s) == s
    decreases |s|
  {
    if |s| > 0 {
      forall i: nat ensures !TagAt(s[1..], i) {
        assert !TagAt(s, i + 1);
        if i + 1 < |s[1..]| {
          assert s[1..][i + 1..] == s[i + 2..];
        }
      }
      NoTagUnchanged(s[1..]);
    }
  }

  // ---------------------------------------------------------------- entries from the feed

  /**
   * `description.replace(/<[^>]+>/g, '').trim()` when the match is non-empty;
   * an empty match stays empty and a missing one stays missing.
   */
  function CleanDescription(d: Option<string>): (r: Option<string>)
    ensures r.None? <==> d.None?
    ensures Truthy(d) ==> r == Some(JsString.Trim(StripTags(d.value)))
    ensures d == Some("") ==> r == d
  {
    if Truthy(d) then Some(JsString.Trim(StripTags(d.value))) else d
  }

  /** The record pushed for a block with a video id: `??` defaults for title, published and link. */
  function MakeEntry(b: Block): (e: Entry)
    requires Truthy(b.vid)
    ensures e.id == b.vid.value
  {
    Entry(b.vid.value, b.title.GetOr(b.vid.value), b.published.GetOr(""),
      b.link.GetOr(WatchPrefix + b.vid.value),
      b.thumbnail, CleanDescription(b.description), b.durationSeconds, b.author)
  }

  /** The `??` defaults of a record: a missing title is the id, a missing date is empty, a
      missing link is the watch page; the description is cleaned and the rest is copied. */
  lemma {:induction false} EntryDefaults(b: Block)
    requires Truthy(b.vid)
    ensures MakeEntry(b).title == (if b.title.Some? then b.title.value else b.vid.value)
    ensures MakeEntry(b).published == (if b.published.Some? then b.published.value else "")
    ensures MakeEntry(b).link == (if b.link.Some? then b.link.value else WatchPrefix + b.vid.value)
    ensures MakeEntry(b).description == CleanDescription(b.description)
    ensures MakeEntry(b).thumbnail == b.thumbnail && MakeEntry(b).author == b.author
  {
  }

  /** The entries of the blocks up to the end of `blocks`, in document order. */
  function Entries(blocks: seq<Block>): (es: seq<Entry>)
    ensures |es| <= |blocks|
  {
    if |blocks| == 0 then []
    else
      Entries(blocks[..|blocks| - 1]) + EntryOf(blocks[|blocks| - 1])
  }

  /** What one block adds to the list: its record when it has a video id, nothing otherwise. */
  function EntryOf(b: Block): (es: seq<Entry>)
    ensures |es| == (if Truthy(b.vid) then 1 else 0)
  {
    if Truthy(b.vid) then [MakeEntry(b)] else []
  }

  /** A block gives an entry iff it has a video id; every entry comes from such a block. */
  lemma {:induction false} EntriesFromBlocks(blocks: seq<Block>)
    ensures forall k :: 0 <= k < |blocks| && Truthy(blocks[k].vid) ==> MakeEntry(blocks[k]) in Entries(blocks)
    ensures forall e :: e in Entries(blocks) ==> exists k :: 0 <= k < |blocks| && Truthy(blocks[k].vid) && e == MakeEntry(blocks[k])
  {
    if |blocks| > 0 {
      var init := blocks[..|blocks| - 1];
      var last := blocks[|blocks| - 1];
      EntriesFromBlocks(init);
      assert forall k :: 0 <= k < |init| ==> init[k] == blocks[k];
      assert Entries(blocks) == Entries(init) + EntryOf(last);
      forall k | 0 <= k < |blocks| && Truthy(blocks[k].vid) ensures MakeEntry(blocks[k]) in Entries(blocks) {
        if k < |init| {
          assert MakeEntry(init[k]) in Entries(init);
        } else {
          assert Entries(blocks)[|Entries(init)|] == EntryOf(last)[0];
        }
      }
      forall e | e in Entries(blocks)
        ensures exists k :: 0 <= k < |blocks| && Truthy(blocks[k].vid) && e == MakeEntry(blocks[k])
      {
        if e in Entries(init) {
          var k :| 0 <= k < |init| && Truthy(init[k].vid) && e == MakeEntry(init[k]);
          assert blocks[k] == init[k];
        } else {
          assert e in EntryOf(last);
          assert blocks[|blocks| - 1] == last;
        }
      }
    }
  }

  /** No entry is lost only when every block has a video id. */
  lemma {:induction false} EntriesAll(blocks: seq<Block>)
    ensures |Entries(blocks)| == |blocks| <==> forall k :: 0 <= k < |blocks| ==> Truthy(blocks[k].vid)
  {
    if forall k :: 0 <= k < |blocks| ==> Truthy(blocks[k].vid) {
      EntriesKeepAll(blocks);
    } else {
      var k :| 0 <= k < |blocks| && !Truthy(blocks[k].vid);
      EntriesLoseOne(blocks, k);
    }
  }

  /** Every block has a video id: one entry per block. */
  lemma {:induction false} EntriesKeepAll(blocks: seq<Block>)
    requires forall k :: 0 <= k < |blocks| ==> Truthy(blocks[k].vid)
    ensures |Entries(blocks)| == |blocks|
  {
    if |blocks| > 0 {
      var init := blocks[..|blocks| - 1];
      forall k | 0 <= k < |init| ensures Truthy(init[k].vid) {
        assert init[k] == blocks[k];
      }
      EntriesKeepAll(init);
      assert Entries(blocks) == Entries(init) + EntryOf(blocks[|blocks| - 1]);
    }
  }

  /** A block without a video id makes the list shorter than the blocks. */
  lemma {:induction false} EntriesLoseOne(blocks: seq<Block>, k: nat)
    requires k < |blocks| && !Truthy(blocks[k].vid)
    ensures |Entries(blocks)| < |blocks|
  {
    var init := blocks[..|blocks| - 1];
    var last := blocks[|blocks| - 1];
    assert Entries(blocks) == Entries(init) + EntryOf(last);
    if k < |init| {
      assert init[k] == blocks[k];
      EntriesLoseOne(init, k);
      assert |EntryOf(last)| <= 1;
    } else {
      assert last == blocks[k];
      assert |EntryOf(last)| == 0;
      assert |Entries(init)| <= |init|;
    }
  }

  /** The feed yields no entry only when no block has a video id. */
  lemma {:induction false} EntriesNone(blocks: seq<Block>)
    ensures |Entries(blocks)| == 0 <==> forall k :: 0 <= k < |blocks| ==> !Truthy(blocks[k].vid)
  {
    if |blocks| > 0 {
      var init := blocks[..|blocks| - 1];
      var last := blocks[|blocks| - 1];
      EntriesNone(init);
      assert Entries(blocks) == Entries(init) + EntryOf(last);
      assert |Entries(blocks)| == |Entries(init)| + (if Truthy(last.vid) then 1 else 0);
      if forall k :: 0 <= k < |blocks| ==> !Truthy(blocks[k].vid) {
        forall k | 0 <= k < |init| ensures !Truthy(init[k].vid) {
          assert init[k] == blocks[k];
        }
      } else {
        var k :| 0 <= k < |blocks| && Truthy(blocks[k].vid);
        if k < |init| {
          assert init[k] == blocks[k];
        }
      }
    }
  }

  /** The entries of a prefix one block longer. */
  lemma {:induction false} EntriesStep(blocks: seq<Block>, i: nat)
    requires i < |blocks|
    ensures Entries(blocks[..i + 1]) == Entries(blocks[..i]) + EntryOf(blocks[i])
  {
    assert blocks[..i + 1][..i] == blocks[..i];
  }

  /** The `while` loop over the feed's `<entry>` blocks. */
  method CollectEntries(blocks: seq<Block>) returns (entries: seq<Entry>)
    ensures entries == Entries(blocks)
  {
    entries := [];
    var i := 0;
    while i < |blocks|
      invariant i <= |blocks|
      invariant entries == Entries(blocks[..i])
    {
      var b := blocks[i];
      EntriesStep(blocks, i);
      ghost var before := entries;
      if Truthy(b.vid) {
        entries := entries + [MakeEntry(b)];
      }
      assert entries == before + EntryOf(b);
      i := i + 1;
    }
    assert blocks[..i] == blocks;
  }

  // ---------------------------------------------------------------- the Data API fallback

  /** One item of the API's search result. */
  datatype ApiItem = ApiItem(
    videoId: string, title: string, publishedAt: string, thumbMedium: Option<string>,
    thumbDefault: Option<string>, description: string, channelTitle: string)

  /** The record the fallback maps each search item to. */
  function ApiEntry(item: ApiItem): (e: Entry)
    ensures e.id == item.videoId && e.link == WatchPrefix + item.videoId
    ensures e.thumbnail == FirstTruthy(item.thumbMedium, item.thumbDefault)
    ensures e.durationSeconds.None?
  {
    Entry(item.videoId, item.title, item.publishedAt, WatchPrefix + item.videoId,
      FirstTruthy(item.thumbMedium, item.thumbDefault), Some(item.description), None, Some(item.channelTitle))
  }

  function ApiEntries(items: seq<ApiItem>): (es: seq<Entry>)
    ensures |es| == |items|
    ensures forall k :: 0 <= k < |items| ==> es[k] == ApiEntry(items[k])
  {
    seq(|items|, k requires 0 <= k < |items| => ApiEntry(items[k]))
  }

  /** What fetching the feed gave. */
  datatype Rss = RssThrew | RssNotOk | RssOk(feedTitle: Option<string>, blocks: seq<Block>)

  /** A Data API request: thrown, non-ok, or answered (channel: the first item's title, if any;
      search: the `items` array, if present). */
  datatype ChannelCall = ChannelThrew | ChannelNotOk | ChannelOk(firstTitle: Option<string>)
  datatype SearchCall = SearchThrew | SearchNotOk | SearchOk(items: Option<seq<ApiItem>>)

  datatype Response =
    | Failure(status: nat, error: string)
    | Listing(feedTitle: Option<string>, entries: seq<Entry>)

  /**
   * `GET`.  `apiCalls` counts the Data API requests made.  The feed's entries are
   * returned when there is at least one; otherwise the API is asked, which
   * needs a key; a non-ok API answer is 502 `fetch_failed` and a throw 502
   * `fetch_error`.  A feed title read from the feed survives when the channel
   * request finds no channel.
   */
  method Get(channelId: Option<string>, rss: Rss, apiKey: Option<string>, channel: ChannelCall, search: SearchCall)
    returns (r: Response, apiCalls: nat)
    ensures !Truthy(channelId) ==> r == Failure(400, "channelId required") && apiCalls == 0
    ensures Truthy(channelId) && rss.RssOk? && |Entries(rss.blocks)| > 0 ==>
      r == Listing(rss.feedTitle, Entries(rss.blocks)) && apiCalls == 0
    ensures Truthy(channelId) && !(rss.RssOk? && |Entries(rss.blocks)| > 0) ==>
      if !Truthy(apiKey) then r == Failure(502, "fetch_failed") && apiCalls == 0
      else match channel
        case ChannelThrew => r == Failure(502, "fetch_error") && apiCalls == 1
        case ChannelNotOk => r == Failure(502, "fetch_failed") && apiCalls == 1
        case ChannelOk(t) =>
          apiCalls == 2 &&
          var title := if t.Some? then t else if rss.RssOk? then rss.feedTitle else None;
          match search
          case SearchThrew => r == Failure(502, "fetch_error")
          case SearchNotOk => r == Failure(502, "fetch_failed")
          case SearchOk(items) =>
            r == Listing(title, if items.Some? then ApiEntries(items.value) else [])
    ensures r.Listing? ==> Truthy(channelId)
  {
    apiCalls := 0;
    if !Truthy(channelId) {
      return Failure(400, "channelId required"), 0;
    }
    var feedTitle: Option<string> := None;
    var entries: seq<Entry> := [];
    if rss.RssOk? {
      feedTitle := rss.feedTitle;
      entries := CollectEntries(rss.blocks);
      if |entries| > 0 {
        return Listing(feedTitle, entries), 0;
      }
    }
    if !Truthy(apiKey) {
      return Failure(502, "fetch_failed"), 0;
    }
    apiCalls := 1;
    match channel {
      case ChannelThrew => return Failure(502, "fetch_error"), 1;
      case ChannelNotOk => return Failure(502, "fetch_failed"), 1;
      case ChannelOk(t) =>
        if t.Some? {
          feedTitle := t;
        }
    }
    apiCalls := 2;
    match search {
      case SearchThrew => r := Failure(502, "fetch_error");
      case SearchNotOk => r := Failure(502, "fetch_failed");
      case SearchOk(items) =>
        if items.Some? {
          entries := ApiEntries(items.value);
        }
        r := Listing(feedTitle, entries);
    }
  }
}
