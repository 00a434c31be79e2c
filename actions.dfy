/**
 * The comment import action (src/app/actions.ts, `fetchAndSaveComments`): for a
 * channel id, its latest uploads are listed and each video's comment threads
 * are flattened into rows (top-level comment, then its replies) and upserted.
 * The YouTube lookups and the database answers are inputs: `Lookup` for the
 * two calls whose throw ends the action, `threadsOf` and `upsertOk` per video
 * id for the per-video steps.
 */
module Actions {
  import opened Common

  /** The parts of a comment snippet that are copied into a row. */
  datatype Snippet = Snippet(
    textDisplay: string, textOriginal: string, authorDisplayName: string,
    authorProfileImageUrl: string, likeCount: Option<int>, publishedAt: string, updatedAt: string)

  datatype Reply = Reply(snippet: Option<Snippet>, id: Option<string>)

  /** One comment thread: the top-level comment's snippet and id, and the replies array if present. */
  datatype Thread = Thread(snippet: Option<Snippet>, id: Option<string>, replies: Option<seq<Reply>>)

  /** One row of the `comments` upsert. */
  datatype Row = Row(
    id: string, videoId: string, textDisplay: string, textOriginal: string,
    authorDisplayName: string, authorProfileImageUrl: string, likeCount: int,
    publishedAt: string, updatedAt: string)

  datatype Video = Video(id: string)

  /** A call that may throw (ending the action) or answer. */
  datatype Lookup<T> = Threw(message: string) | Got(value: T)

  /** What `getCommentThreads` gave: a throw, or the `items` array if present. */
  datatype Threads = ThreadsThrew | ThreadsGot(items: Option<seq<Thread>>)

  /** The `message` of the result, by case. */
  datatype Message =
    | EnterChannelId
    | ChannelNotFound
    | NoVideos
    | SavedSummary(videos: nat, comments: nat)
    | ErrorOccurred(detail: string)

  datatype FetchResult = FetchResult(success: bool, message: Message, count: Option<nat>, channelId: Option<string>)

  // ---------------------------------------------------------------- flattening

  /** The row for a comment with a snippet and an id; `likeCount || 0`. */
  function MakeRow(videoId: string, id: string, s: Snippet): (r: Row)
    ensures r.id == id && r.videoId == videoId
    ensures r.likeCount == (if s.likeCount.Some? then s.likeCount.value else 0)
    ensures r.textDisplay == s.textDisplay && r.textOriginal == s.textOriginal
    ensures r.authorDisplayName == s.authorDisplayName && r.authorProfileImageUrl == s.authorProfileImageUrl
    ensures r.publishedAt == s.publishedAt && r.updatedAt == s.updatedAt
  {
    Row(id, videoId, s.textDisplay, s.textOriginal, s.authorDisplayName, s.authorProfileImageUrl,
      s.likeCount.GetOr(0), s.publishedAt, s.updatedAt)
  }

  /** The top-level row of a thread, when both its snippet and a non-empty id are there. */
  function TopRows(videoId: string, t: Thread): seq<Row> {
    if t.snippet.Some? && Truthy(t.id) then [MakeRow(videoId, t.id.value, t.snippet.value)] else []
  }

  /** The rows of the replies up to the end of `replies`, skipping those without snippet or id. */
  function ReplyRows(videoId: string, replies: seq<Reply>): (rows: seq<Row>)
    ensures |rows| <= |replies|
  {
    if |replies| == 0 then []
    else
      var r := replies[|replies| - 1];
      ReplyRows(videoId, replies[..|replies| - 1]) +
        (if r.snippet.Some? && Truthy(r.id) then [MakeRow(videoId, r.id.value, r.snippet.value)] else [])
  }

  /** A thread's rows: its top-level comment, then its replies in order. */
  function ThreadRows(videoId: string, t: Thread): seq<Row> {
    TopRows(videoId, t) + (if t.replies.Some? then ReplyRows(videoId, t.replies.value) else [])
  }

  /** The rows of the threads up to the end of `items`. */
  function Rows(videoId: string, items: seq<Thread>): seq<Row> {
    if |items| == 0 then []
    else Rows(videoId, items[..|items| - 1]) + ThreadRows(videoId, items[|items| - 1])
  }

  /** Every row belongs to the video and carries a non-empty comment id from the threads. */
  lemma {:induction false} RowsWellFormed(videoId: string, items: seq<Thread>)
    ensures forall r :: r in Rows(videoId, items) ==> r.videoId == videoId && r.id != ""
  {
    if |items| > 0 {
      var t := items[|items| - 1];
      RowsWellFormed(videoId, items[..|items| - 1]);
      if t.replies.Some? {
        ReplyRowsWellFormed(videoId, t.replies.value);
      }
    }
  }

  lemma {:induction false} ReplyRowsWellFormed(videoId: string, replies: seq<Reply>)
    ensures forall r :: r in ReplyRows(videoId, replies) ==> r.videoId == videoId && r.id != ""
  {
    if |replies| > 0 {
      ReplyRowsWellFormed(videoId, replies[..|replies| - 1]);
    }
  }

  /** A thread gives at most one row for itself and one per reply. */
  function Capacity(items: seq<Thread>): nat {
    if |items| == 0 then 0
    else
      var t := items[|items| - 1];
      Capacity(items[..|items| - 1]) + 1 + (if t.replies.Some? then |t.replies.value| else 0)
  }

  lemma {:induction false} RowsWithinCapacity(videoId: string, items: seq<Thread>)
    ensures |Rows(videoId, items)| <= Capacity(items)
  {
    if |items| > 0 {
      RowsWithinCapacity(videoId, items[..|items| - 1]);
    }
  }

  lemma {:induction false} RowsStep(videoId: string, items: seq<Thread>, i: nat)
    requires i < |items|
    ensures Rows(videoId, items[..i + 1]) == Rows(videoId, items[..i]) + ThreadRows(videoId, items[i])
  {
    assert items[..i + 1][..i] == items[..i];
  }

  lemma {:induction false} ReplyRowsStep(videoId: string, replies: seq<Reply>, j: nat)
    requires j < |replies|
    ensures var r := replies[j];
      ReplyRows(videoId, replies[..j + 1]) == ReplyRows(videoId, replies[..j]) +
        (if r.snippet.Some? && Truthy(r.id) then [MakeRow(videoId, r.id.value, r.snippet.value)] else [])
  {
    assert replies[..j + 1][..j] == replies[..j];
  }

  /** The two nested loops over the threads and their replies. */
  method FlattenThreads(videoId: string, items: seq<Thread>) returns (rows: seq<Row>)
    ensures rows == Rows(videoId, items)
  {
    rows := [];
    for i := 0 to |items|
      invariant rows == Rows(videoId, items[..i])
    {
      var item := items[i];
      RowsStep(videoId, items, i);
      ghost var done := rows;
      if item.snippet.Some? && Truthy(item.id) {
        rows := rows + [MakeRow(videoId, item.id.value, item.snippet.value)];
      }
      assert rows == done + TopRows(videoId, item);
      if item.replies.Some? {
        var replies := item.replies.value;
        ghost var head := rows;
        for j := 0 to |replies|
          invariant rows == head + ReplyRows(videoId, replies[..j])
        {
          var reply := replies[j];
          ReplyRowsStep(videoId, replies, j);
          if reply.snippet.Some? && Truthy(reply.id) {
            var row := MakeRow(videoId, reply.id.value, reply.snippet.value);
            AppendAssoc(head, ReplyRows(videoId, replies[..j]), [row]);
            rows := rows + [row];
          }
        }
        assert replies[..|replies|] == replies;
        AppendAssoc(done, TopRows(videoId, item), ReplyRows(videoId, replies));
      }
      assert rows == done + ThreadRows(videoId, item);
    }
    assert items[..|items|] == items;
  }

  // ---------------------------------------------------------------- saving and counting

  /** The comments counted for one video: its rows, when there are some and the upsert succeeded. */
  function SavedFor(v: Video, threadsOf: string -> Threads, upsertOk: string -> bool): (n: nat)
    ensures n > 0 ==> upsertOk(v.id) && threadsOf(v.id).ThreadsGot? && threadsOf(v.id).items.Some?
    ensures n > 0 ==> n == |Rows(v.id, threadsOf(v.id).items.value)|
    ensures upsertOk(v.id) && threadsOf(v.id).ThreadsGot? && threadsOf(v.id).items.Some? ==>
      n == |Rows(v.id, threadsOf(v.id).items.value)|
  {
    match threadsOf(v.id)
    case ThreadsThrew => 0
    case ThreadsGot(items) =>
      if items.None? || |items.value| == 0 then 0
      else
        var rows := Rows(v.id, items.value);
        if |rows| > 0 && upsertOk(v.id) then |rows| else 0
  }

  /** The running `totalComments` after the videos up to the end of `videos`. */
  function TotalSaved(videos: seq<Video>, threadsOf: string -> Threads, upsertOk: string -> bool): nat {
    if |videos| == 0 then 0
    else TotalSaved(videos[..|videos| - 1], threadsOf, upsertOk) + SavedFor(videos[|videos| - 1], threadsOf, upsertOk)
  }

  /** Each video adds its own count whatever happened to the others: a failure does not stop the rest. */
  lemma {:induction false} TotalSavedSplits(vs: seq<Video>, ws: seq<Video>, threadsOf: string -> Threads, upsertOk: string -> bool)
    ensures TotalSaved(vs + ws, threadsOf, upsertOk) == TotalSaved(vs, threadsOf, upsertOk) + TotalSaved(ws, threadsOf, upsertOk)
    decreases |ws|
  {
    if |ws| > 0 {
      var init := ws[..|ws| - 1];
      assert (vs + ws)[..|vs + ws| - 1] == vs + init;
      TotalSavedSplits(vs, init, threadsOf, upsertOk);
    } else {
      assert vs + ws == vs;
    }
  }

  /** One iteration of the loop over videos: fetch, flatten, upsert. */
  method SaveVideo(v: Video, threadsOf: string -> Threads, upsertOk: string -> bool) returns (n: nat)
    ensures n == SavedFor(v, threadsOf, upsertOk)
  {
    var data := threadsOf(v.id);
    if data.ThreadsThrew? {
      return 0;
    }
    if data.items.None? || |data.items.value| == 0 {
      return 0;
    }
    var rows := FlattenThreads(v.id, data.items.value);
    n := 0;
    if |rows| > 0 && upsertOk(v.id) {
      n := |rows|;
    }
  }

  /**
   * `fetchAndSaveComments`.  `looked` tells whether the uploads playlist was
   * asked for.  An empty id fails at once; a missing playlist fails; no
   * videos succeeds with count 0; otherwise the count is the sum over the
   * videos of what each one saved.
   */
  method FetchAndSaveComments(inputId: Option<string>, playlist: Lookup<Option<string>>, videos: Lookup<seq<Video>>,
                              threadsOf: string -> Threads, upsertOk: string -> bool)
    returns (res: FetchResult, looked: bool)
    ensures !Truthy(inputId) ==> res == FetchResult(false, EnterChannelId, None, None) && !looked
    ensures Truthy(inputId) ==> looked
    ensures Truthy(inputId) && playlist.Threw? ==> res == FetchResult(false, ErrorOccurred(playlist.message), None, None)
    ensures Truthy(inputId) && playlist.Got? && !Truthy(playlist.value) ==>
      res == FetchResult(false, ChannelNotFound, None, None)
    ensures Truthy(inputId) && playlist.Got? && Truthy(playlist.value) ==>
      match videos
      case Threw(m) => res == FetchResult(false, ErrorOccurred(m), None, None)
      case Got(vs) =>
        if |vs| == 0 then res == FetchResult(true, NoVideos, Some(0), None)
        else
          var total := TotalSaved(vs, threadsOf, upsertOk);
          res == FetchResult(true, SavedSummary(|vs|, total), Some(total), inputId)
    ensures res.success ==> Truthy(inputId)
  {
    if !Truthy(inputId) {
      return FetchResult(false, EnterChannelId, None, None), false;
    }
    looked := true;
    match playlist {
      case Threw(m) => return FetchResult(false, ErrorOccurred(m), None, None), true;
      case Got(p) =>
        if !Truthy(p) {
          return FetchResult(false, ChannelNotFound, None, None), true;
        }
    }
    match videos {
      case Threw(m) => return FetchResult(false, ErrorOccurred(m), None, None), true;
      case Got(vs) =>
        if |vs| == 0 {
          return FetchResult(true, NoVideos, Some(0), None), true;
        }
        var total: nat := 0;
        for k := 0 to |vs|
          invariant total == TotalSaved(vs[..k], threadsOf, upsertOk)
        {
          assert vs[..k + 1][..k] == vs[..k];
          var n := SaveVideo(vs[k], threadsOf, upsertOk);
          total := total + n;
        }
        assert vs[..|vs|] == vs;
        res := FetchResult(true, SavedSummary(|vs|, total), Some(total), inputId);
    }
  }
}
