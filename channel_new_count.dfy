/**
 * The new-video counter (src/app/api/channel-new-count/route.ts): the
 * channel's RSS feed is fetched and the `<entry>` blocks whose `<published>`
 * instant is strictly later than the caller's `lastVisited` are counted.
 * The fetch is an input; each block is given by its published instant in
 * milliseconds, `None` when the block has no `<published>` or the date does
 * not parse (NaN compares false).
 */
module ChannelNewCount {
  import opened Common
  import JsNumber

  /** One `<entry>` block of the feed. */
  datatype Block = Block(published: Option<int>)

  /** What fetching the feed gave: a throw, a non-ok status, or the feed's entry blocks. */
  datatype Feed = FeedThrew | FeedNotOk | FeedOk(blocks: seq<Block>)

  datatype Response = Missing(status: nat, error: string) | Count(count: nat)

  /** `lastVisited ? parseInt(lastVisited, 10) : 0`; None is NaN. */
  function LastVisitedTimestamp(lastVisited: Option<string>): (t: Option<int>)
    ensures !Truthy(lastVisited) ==> t == Some(0)
  {
    if Truthy(lastVisited) then JsNumber.ParseInt(lastVisited.value, 10) else Some(0)
  }

  /** `lastVisitedTimestamp > 0 && publishedAt > lastVisitedTimestamp`. */
  predicate IsNew(b: Block, since: Option<int>) {
    since.Some? && since.value > 0 && b.published.Some? && b.published.value > since.value
  }

  /** The number of blocks, up to the end of `blocks`, that are new. */
  function NewCount(blocks: seq<Block>, since: Option<int>): (n: nat)
    ensures n <= |blocks|
  {
    if |blocks| == 0 then 0
    else NewCount(blocks[..|blocks| - 1], since) + (if IsNew(blocks[|blocks| - 1], since) then 1 else 0)
  }

  /** Without a positive `lastVisited` nothing is new. */
  lemma {:induction false} NoLastVisitNoneNew(blocks: seq<Block>, since: Option<int>)
    requires since.None? || since.value <= 0
    ensures NewCount(blocks, since) == 0
  {
    if |blocks| > 0 {
      NoLastVisitNoneNew(blocks[..|blocks| - 1], since);
    }
  }

  /** Every block counts exactly when all of them are newer than `lastVisited`. */
  lemma {:induction false} AllNewIffAllCounted(blocks: seq<Block>, since: Option<int>)
    ensures NewCount(blocks, since) == |blocks| <==> forall k :: 0 <= k < |blocks| ==> IsNew(blocks[k], since)
  {
    if |blocks| > 0 {
      var init := blocks[..|blocks| - 1];
      AllNewIffAllCounted(init, since);
      assert forall k :: 0 <= k < |init| ==> init[k] == blocks[k];
    }
  }

  /** A later visit never sees more new videos. */
  lemma {:induction false} LaterVisitFewerNew(blocks: seq<Block>, a: int, b: int)
    requires 0 < a <= b
    ensures NewCount(blocks, Some(b)) <= NewCount(blocks, Some(a))
  {
    if |blocks| > 0 {
      LaterVisitFewerNew(blocks[..|blocks| - 1], a, b);
    }
  }

  /** The `while` loop over the blocks. */
  method CountNew(blocks: seq<Block>, since: Option<int>) returns (count: nat)
    ensures count == NewCount(blocks, since)
  {
    count := 0;
    var i := 0;
    while i < |blocks|
      invariant i <= |blocks|
      invariant count == NewCount(blocks[..i], since)
    {
      assert blocks[..i + 1][..i] == blocks[..i];
      if IsNew(blocks[i], since) {
        count := count + 1;
      }
      i := i + 1;
    }
    assert blocks[..i] == blocks;
  }

  /** `GET`: 400 without a channel id, count 0 when the feed cannot be had. */
  method Get(channelId: Option<string>, lastVisited: Option<string>, feed: Feed) returns (r: Response)
    ensures !Truthy(channelId) <==> r.Missing?
    ensures r.Missing? ==> r == Missing(400, "channelId required")
    ensures Truthy(channelId) && !feed.FeedOk? ==> r == Count(0)
    ensures Truthy(channelId) && feed.FeedOk? ==>
      r == Count(NewCount(feed.blocks, LastVisitedTimestamp(lastVisited)))
    ensures r.Count? && feed.FeedOk? ==> r.count <= |feed.blocks|
    ensures !Truthy(lastVisited) ==> r.Missing? || r == Count(0)
  {
    if !Truthy(channelId) {
      return Missing(400, "channelId required");
    }
    if !feed.FeedOk? {
      return Count(0);
    }
    var since := LastVisitedTimestamp(lastVisited);
    if !Truthy(lastVisited) {
      NoLastVisitNoneNew(feed.blocks, since);
    }
    var count := CountNew(feed.blocks, since);
    r := Count(count);
  }
}
