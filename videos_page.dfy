/**
 * The per-video sentiment analysis of the videos page
 * (src/app/videos/page.tsx): comments grouped by video, a count per
 * sentiment level, and the three most extreme comments of each level.
 * The database reads are inputs.
 */
module VideosPage {
  import opened Common
  import opened Sentiment
  import JsString

  datatype Comment = Comment(id: string, videoId: string, score: Option<real>, text: string, author: string)

  /** The score as the sort comparator's subtraction sees it: `null` counts as 0. */
  function ScoreOf(c: Comment): real {
    c.score.GetOr(0.0)
  }

  /** The comments of one video, in arrival order. */
  function ForVideo(cs: seq<Comment>, v: string): (r: seq<Comment>)
    ensures |r| <= |cs|
  {
    if |cs| == 0 then []
    else ForVideo(cs[..|cs| - 1], v) + (if cs[|cs| - 1].videoId == v then [cs[|cs| - 1]] else [])
  }

  /** `commentsByVideo[v] || []`. */
  function Lookup(groups: map<string, seq<Comment>>, v: string): seq<Comment> {
    if v in groups then groups[v] else []
  }

  /**
   * The `reduce` that builds `commentsByVideo`: one loop pushing each comment
   * onto its video's list, creating the list on first use.
   */
  method GroupByVideo(cs: seq<Comment>) returns (groups: map<string, seq<Comment>>)
    ensures forall v :: Lookup(groups, v) == ForVideo(cs, v)
    ensures groups.Keys == set c | c in cs :: c.videoId
  {
    groups := map[];
    var i := 0;
    while i < |cs|
      invariant i <= |cs|
      invariant forall v :: Lookup(groups, v) == ForVideo(cs[..i], v)
      invariant groups.Keys == set c | c in cs[..i] :: c.videoId
    {
      var c := cs[i];
      assert cs[..i + 1][..i] == cs[..i];
      if c.videoId !in groups {
        groups := groups[c.videoId := []];
      }
      groups := groups[c.videoId := groups[c.videoId] + [c]];
      i := i + 1;
    }
    assert cs[..i] == cs;
  }

  /** A video's list holds exactly the comments of that video. */
  lemma {:induction false} ForVideoMembers(cs: seq<Comment>, v: string)
    ensures forall c :: c in ForVideo(cs, v) <==> c in cs && c.videoId == v
    decreases |cs|
  {
    if |cs| > 0 {
      ForVideoMembers(cs[..|cs| - 1], v);
      assert cs == cs[..|cs| - 1] + [cs[|cs| - 1]];
    }
  }

  /**
   * Grouping files each comment under its own video as often as it occurs in
   * the input, and under no other video.
   */
  lemma {:induction false} ForVideoCount(cs: seq<Comment>, c: Comment)
    ensures multiset(ForVideo(cs, c.videoId))[c] == multiset(cs)[c]
    ensures forall v :: v != c.videoId ==> c !in ForVideo(cs, v)
    decreases |cs|
  {
    if |cs| > 0 {
      var init := cs[..|cs| - 1];
      ForVideoCount(init, c);
      assert cs == init + [cs[|cs| - 1]];
    }
  }

  /** How many comments get level `l`. */
  function CountLevel(cs: seq<Comment>, l: Level): (n: nat)
    ensures n <= |cs|
  {
    if |cs| == 0 then 0
    else CountLevel(cs[..|cs| - 1], l) + (if GetSentimentLevel(cs[|cs| - 1].score) == l then 1 else 0)
  }

  /** The comments of level `l`, in arrival order. */
  function OfLevel(cs: seq<Comment>, l: Level): (r: seq<Comment>)
    ensures |r| == CountLevel(cs, l)
  {
    if |cs| == 0 then []
    else OfLevel(cs[..|cs| - 1], l) + (if GetSentimentLevel(cs[|cs| - 1].score) == l then [cs[|cs| - 1]] else [])
  }

  /** A level's list holds exactly the comments of that level. */
  lemma {:induction false} OfLevelMembers(cs: seq<Comment>, l: Level)
    ensures forall c :: c in OfLevel(cs, l) <==> c in cs && GetSentimentLevel(c.score) == l
    decreases |cs|
  {
    if |cs| > 0 {
      OfLevelMembers(cs[..|cs| - 1], l);
      assert cs == cs[..|cs| - 1] + [cs[|cs| - 1]];
    }
  }

  /** A record with one field per sentiment level, as the page's six-key objects. */
  datatype PerLevel<T> = PerLevel(sp: T, wp: T, ne: T, wn: T, sn: T, un: T) {
    function Get(l: Level): T {
      match l
      case StrongPositive => sp
      case WeakPositive => wp
      case Neutral => ne
      case WeakNegative => wn
      case StrongNegative => sn
      case Unknown => un
    }

    function Set(l: Level, v: T): (r: PerLevel<T>)
      ensures r.Get(l) == v
      ensures forall m :: m != l ==> r.Get(m) == Get(m)
    {
      match l
      case StrongPositive => this.(sp := v)
      case WeakPositive => this.(wp := v)
      case Neutral => this.(ne := v)
      case WeakNegative => this.(wn := v)
      case StrongNegative => this.(sn := v)
      case Unknown => this.(un := v)
    }
  }

  /** The six-bucket `summary` record. */
  function SummaryOf(cs: seq<Comment>): PerLevel<nat> {
    PerLevel(CountLevel(cs, StrongPositive), CountLevel(cs, WeakPositive), CountLevel(cs, Neutral),
             CountLevel(cs, WeakNegative), CountLevel(cs, StrongNegative), CountLevel(cs, Unknown))
  }

  /** The `commentsByLevel` record before sorting. */
  function ByLevelOf(cs: seq<Comment>): PerLevel<seq<Comment>> {
    PerLevel(OfLevel(cs, StrongPositive), OfLevel(cs, WeakPositive), OfLevel(cs, Neutral),
             OfLevel(cs, WeakNegative), OfLevel(cs, StrongNegative), OfLevel(cs, Unknown))
  }

  /** Sum of the six buckets. */
  function Total(summary: PerLevel<nat>): int {
    summary.sp + summary.wp + summary.ne + summary.wn + summary.sn + summary.un
  }

  /** Every comment lands in exactly one bucket, so the buckets add up to the comment count. */
  lemma {:induction false} SummaryTotal(cs: seq<Comment>)
    ensures Total(SummaryOf(cs)) == |cs|
    decreases |cs|
  {
    if |cs| > 0 {
      SummaryTotal(cs[..|cs| - 1]);
    }
  }

  /** A video without comments has every bucket at 0. */
  lemma {:induction false} NoCommentsAllZero(l: Level)
    ensures SummaryOf([]).Get(l) == 0 && ByLevelOf([]).Get(l) == []
  {
  }

  lemma {:induction false} SummaryStep(cs: seq<Comment>, i: nat)
    requires i < |cs|
    ensures var level := GetSentimentLevel(cs[i].score);
      var s := SummaryOf(cs[..i]);
      SummaryOf(cs[..i + 1]) == s.Set(level, s.Get(level) + 1)
  {
    assert cs[..i + 1][..i] == cs[..i];
  }

  lemma {:induction false} ByLevelStep(cs: seq<Comment>, i: nat)
    requires i < |cs|
    ensures var level := GetSentimentLevel(cs[i].score);
      var b := ByLevelOf(cs[..i]);
      ByLevelOf(cs[..i + 1]) == b.Set(level, b.Get(level) + [cs[i]])
  {
    var level := GetSentimentLevel(cs[i].score);
    var b := ByLevelOf(cs[..i]);
    var b' := b.Set(level, b.Get(level) + [cs[i]]);
    forall l ensures ByLevelOf(cs[..i + 1]).Get(l) == b'.Get(l) {
      OfLevelStep(cs, i, l);
      ByLevelGet(cs[..i + 1], l);
      ByLevelGet(cs[..i], l);
    }
    PerLevelExt(ByLevelOf(cs[..i + 1]), b');
  }

  lemma {:induction false} OfLevelStep(cs: seq<Comment>, i: nat, l: Level)
    requires i < |cs|
    ensures OfLevel(cs[..i + 1], l) == OfLevel(cs[..i], l) + (if GetSentimentLevel(cs[i].score) == l then [cs[i]] else [])
  {
    assert cs[..i + 1][..i] == cs[..i];
  }

  lemma {:induction false} ByLevelGet(cs: seq<Comment>, l: Level)
    ensures ByLevelOf(cs).Get(l) == OfLevel(cs, l)
  {
  }

  /** Two records that agree on every level are equal. */
  lemma {:induction false} PerLevelExt<T>(a: PerLevel<T>, b: PerLevel<T>)
    requires forall l :: a.Get(l) == b.Get(l)
    ensures a == b
  {
    assert a.Get(StrongPositive) == b.Get(StrongPositive) && a.Get(WeakPositive) == b.Get(WeakPositive);
    assert a.Get(Neutral) == b.Get(Neutral) && a.Get(WeakNegative) == b.Get(WeakNegative);
    assert a.Get(StrongNegative) == b.Get(StrongNegative) && a.Get(Unknown) == b.Get(Unknown);
  }

  /**
   * The `forEach` over a video's comments: bump the level's bucket and push
   * the comment onto the level's list.
   */
  method Tally(cs: seq<Comment>) returns (summary: PerLevel<nat>, byLevel: PerLevel<seq<Comment>>)
    ensures summary == SummaryOf(cs)
    ensures byLevel == ByLevelOf(cs)
  {
    summary := PerLevel(0, 0, 0, 0, 0, 0);
    byLevel := PerLevel([], [], [], [], [], []);
    assert cs[..0] == [];
    var i := 0;
    while i < |cs|
      invariant i <= |cs|
      invariant summary == SummaryOf(cs[..i])
      invariant byLevel == ByLevelOf(cs[..i])
    {
      var level := GetSentimentLevel(cs[i].score);
      SummaryStep(cs, i);
      ByLevelStep(cs, i);
      summary := summary.Set(level, summary.Get(level) + 1);
      byLevel := byLevel.Set(level, byLevel.Get(level) + [cs[i]]);
      i := i + 1;
    }
    assert cs[..i] == cs;
  }

  datatype Direction = Descending | Ascending | Arrival

  /** `level.includes('positive')` sorts by descending score, `'negative'` ascending, the rest not at all. */
  function DirectionOfKey(key: string): Direction {
    if JsString.Includes(key, "positive") then Descending
    else if JsString.Includes(key, "negative") then Ascending
    else Arrival
  }

  /** The direction each level is sorted in. */
  function SortDirection(l: Level): Direction {
    match l
    case StrongPositive => Descending
    case WeakPositive => Descending
    case StrongNegative => Ascending
    case WeakNegative => Ascending
    case Neutral => Arrival
    case Unknown => Arrival
  }

  /** The per-level directions are what the key test selects. */
  lemma {:induction false} DirectionOfLevels(l: Level)
    ensures SortDirection(l) == DirectionOfKey(Key(l))
  {
    match l
    case StrongPositive => KeyDirection("strong_positive", 7, Descending);
    case WeakPositive => KeyDirection("weak_positive", 5, Descending);
    case StrongNegative => KeyDirection("strong_negative", 7, Ascending);
    case WeakNegative => KeyDirection("weak_negative", 5, Ascending);
    case Neutral => ShortKeyDirection("neutral");
    case Unknown => ShortKeyDirection("unknown");
  }

  /** A key holding `positive` (or, without a `p`, `negative`) at `k`. */
  lemma {:induction false} KeyDirection(key: string, k: nat, d: Direction)
    requires d != Arrival && k + 8 == |key|
    requires d == Descending ==> key[k..] == "positive"
    requires d == Ascending ==> key[k..] == "negative" && 'p' !in key
    ensures DirectionOfKey(key) == d
  {
    if d == Descending {
      JsString.IncludesAt(key, "positive", k);
    } else {
      JsString.IncludesNeedsHead(key, "positive");
      JsString.IncludesAt(key, "negative", k);
    }
  }

  /** A key shorter than both words. */
  lemma {:induction false} ShortKeyDirection(key: string)
    requires |key| < 8
    ensures DirectionOfKey(key) == Arrival
  {
    JsString.IncludesNeedsLength(key, "positive");
    JsString.IncludesNeedsLength(key, "negative");
  }

  /** `a` may come before `b` in a list sorted in direction `d`. */
  predicate Precedes(a: Comment, b: Comment, d: Direction) {
    match d
    case Descending => ScoreOf(a) >= ScoreOf(b)
    case Ascending => ScoreOf(a) <= ScoreOf(b)
    case Arrival => true
  }

  predicate Ordered(s: seq<Comment>, d: Direction) {
    forall i, j :: 0 <= i < j < |s| ==> Precedes(s[i], s[j], d)
  }

  /** `a` must come before a later-arriving `x` in a stable sort. */
  predicate Ahead(a: Comment, x: Comment, d: Direction) {
    match d
    case Descending => ScoreOf(a) > ScoreOf(x)
    case Ascending => ScoreOf(a) < ScoreOf(x)
    case Arrival => false
  }

  /** Put `x` in front of the first entry of the sorted `s` that is not strictly ahead of it. */
  function Insert(x: Comment, s: seq<Comment>, d: Direction): (r: seq<Comment>)
    requires Ordered(s, d)
    ensures Ordered(r, d)
    ensures multiset(r) == multiset(s) + multiset{x}
    ensures |r| == |s| + 1 && (r[0] == x || (|s| > 0 && r[0] == s[0]))
  {
    if |s| == 0 then [x]
    else if Ahead(s[0], x, d) then
      OrderedTail(s, d);
      var rest := Insert(x, s[1..], d);
      BehindHead(x, s, d, rest);
      assert s == [s[0]] + s[1..];
      [s[0]] + rest
    else
      InFront(x, s, d);
      [x] + s
  }

  lemma {:induction false} OrderedTail(s: seq<Comment>, d: Direction)
    requires |s| > 0 && Ordered(s, d)
    ensures Ordered(s[1..], d)
  {
    forall i, j | 0 <= i < j < |s| - 1 ensures Precedes(s[1..][i], s[1..][j], d) {
      assert s[1..][i] == s[i + 1] && s[1..][j] == s[j + 1];
    }
  }

  /** The head of `s`, strictly ahead of `x`, stays in front of `x` inserted into the tail. */
  lemma {:induction false} BehindHead(x: Comment, s: seq<Comment>, d: Direction, rest: seq<Comment>)
    requires |s| > 0 && Ordered(s, d) && Ahead(s[0], x, d)
    requires Ordered(rest, d) && multiset(rest) == multiset(s[1..]) + multiset{x}
    ensures Ordered([s[0]] + rest, d)
  {
    var r := [s[0]] + rest;
    forall j | 0 <= j < |rest| ensures Precedes(s[0], rest[j], d) {
      assert rest[j] in multiset(rest);
      if rest[j] != x {
        assert rest[j] in multiset(s[1..]);
        var k :| 0 <= k < |s[1..]| && s[1..][k] == rest[j];
        assert s[k + 1] == rest[j];
      }
    }
    forall i, j | 0 <= i < j < |r| ensures Precedes(r[i], r[j], d) {
      if i == 0 {
        assert r[j] == rest[j - 1];
      } else {
        assert r[i] == rest[i - 1] && r[j] == rest[j - 1];
      }
    }
  }

  /** `x`, not trailing the head of `s`, goes in front of all of `s`. */
  lemma {:induction false} InFront(x: Comment, s: seq<Comment>, d: Direction)
    requires |s| > 0 && Ordered(s, d) && !Ahead(s[0], x, d)
    ensures Ordered([x] + s, d)
  {
    var r := [x] + s;
    forall i, j | 0 <= i < j < |r| ensures Precedes(r[i], r[j], d) {
      if i == 0 {
        assert r[j] == s[j - 1];
        assert Precedes(x, s[0], d);
        if j > 1 {
          assert Precedes(s[0], s[j - 1], d);
        }
      } else {
        assert r[i] == s[i - 1] && r[j] == s[j - 1];
      }
    }
  }

  /**
   * The stable comparator sort `Array.prototype.sort` performs (ECMA-262
   * requires stability): each entry goes in front of the later arrivals it
   * does not trail.
   */
  function SortBy(cs: seq<Comment>, d: Direction): (r: seq<Comment>)
    ensures Ordered(r, d)
    ensures multiset(r) == multiset(cs)
  {
    if |cs| == 0 then []
    else
      assert cs == [cs[0]] + cs[1..];
      Insert(cs[0], SortBy(cs[1..], d), d)
  }

  /** With no comparator (neutral, unknown) the list keeps its arrival order. */
  lemma {:induction false} ArrivalKeepsOrder(cs: seq<Comment>)
    ensures SortBy(cs, Arrival) == cs
  {
    if |cs| > 0 {
      ArrivalKeepsOrder(cs[1..]);
      assert cs == [cs[0]] + cs[1..];
    }
  }

  /** The comments of `cs` whose score is `v`, in their order in `cs`. */
  function WithScore(cs: seq<Comment>, v: real): seq<Comment> {
    if |cs| == 0 then []
    else (if ScoreOf(cs[0]) == v then [cs[0]] else []) + WithScore(cs[1..], v)
  }

  /** Helper: Insert unfolded once. */
  lemma {:induction false} InsertUnfold(x: Comment, s: seq<Comment>, d: Direction)
    requires Ordered(s, d) && |s| > 0
    ensures Ahead(s[0], x, d) ==> Ordered(s[1..], d) && Insert(x, s, d) == [s[0]] + Insert(x, s[1..], d)
    ensures !Ahead(s[0], x, d) ==> Insert(x, s, d) == [x] + s
  {
    OrderedTail(s, d);
  }

  /** One step of WithScore on a list written as head and tail. */
  lemma {:induction false} WithScoreCons(c: Comment, rest: seq<Comment>, v: real)
    ensures WithScore([c] + rest, v) == (if ScoreOf(c) == v then [c] else []) + WithScore(rest, v)
  {
    assert ([c] + rest)[0] == c && ([c] + rest)[1..] == rest;
  }

  /** Inserting puts `x` ahead of every entry with its own score, and changes nothing
      among the entries of any other score. */
  lemma {:induction false} InsertStable(x: Comment, s: seq<Comment>, d: Direction, v: real)
    requires Ordered(s, d)
    ensures WithScore(Insert(x, s, d), v) == (if ScoreOf(x) == v then [x] else []) + WithScore(s, v)
    decreases |s|
  {
    if |s| == 0 {
      WithScoreCons(x, [], v);
      assert [x] + [] == [x];
    } else if Ahead(s[0], x, d) {
      var rest := Insert(x, s[1..], d);
      var g := if ScoreOf(s[0]) == v then [s[0]] else [];
      var h := if ScoreOf(x) == v then [x] else [];
      var w := WithScore(s[1..], v);
      assert WithScore(Insert(x, s, d), v) == g + WithScore(rest, v) by {
        InsertUnfold(x, s, d);
        WithScoreCons(s[0], rest, v);
      }
      assert WithScore(rest, v) == h + w by {
        OrderedTail(s, d);
        InsertStable(x, s[1..], d, v);
      }
      assert WithScore(s, v) == g + w by {
        assert s == [s[0]] + s[1..];
        WithScoreCons(s[0], s[1..], v);
      }
      assert g == [] || h == [] by {
        assert ScoreOf(s[0]) != ScoreOf(x);
      }
      if g == [] {
        assert g + (h + w) == h + w && g + w == w;
      } else {
        assert h + w == w && h + (g + w) == g + w;
      }
    } else {
      InsertUnfold(x, s, d);
      WithScoreCons(x, s, v);
    }
  }

  /**
   * The sort is stable: for every score, the comments with that score come out in their
   * arrival order, so ties reach the top three in the order they arrived.
   */
  lemma {:induction false} SortByStable(cs: seq<Comment>, d: Direction, v: real)
    ensures WithScore(SortBy(cs, d), v) == WithScore(cs, v)
  {
    if |cs| > 0 {
      SortByStable(cs[1..], d, v);
      InsertStable(cs[0], SortBy(cs[1..], d), d, v);
    }
  }

  /** The fields kept for each shown comment. */
  datatype TopEntry = TopEntry(id: string, text: string, author: string, score: Option<real>)

  function Project(c: Comment): TopEntry {
    TopEntry(c.id, c.text, c.author, c.score)
  }

  /** `levelComments.slice(0, 3).map(...)`. */
  function Top3(s: seq<Comment>): (r: seq<TopEntry>)
    ensures |r| <= 3 && |r| <= |s|
    ensures |r| == if |s| < 3 then |s| else 3
    ensures forall k :: 0 <= k < |r| ==> r[k] == Project(s[k])
  {
    var n := if |s| < 3 then |s| else 3;
    seq(n, k requires 0 <= k < n => Project(s[k]))
  }

  /** The level's comments arranged for display. */
  function Arranged(cs: seq<Comment>, l: Level): (r: seq<Comment>)
    ensures Ordered(r, SortDirection(l))
    ensures multiset(r) == multiset(OfLevel(cs, l))
  {
    SortBy(OfLevel(cs, l), SortDirection(l))
  }

  /** The `topComments` record built from the per-level lists. */
  function TopFrom(byLevel: PerLevel<seq<Comment>>): PerLevel<seq<TopEntry>> {
    PerLevel(TopList(byLevel.sp, StrongPositive), TopList(byLevel.wp, WeakPositive), TopList(byLevel.ne, Neutral),
             TopList(byLevel.wn, WeakNegative), TopList(byLevel.sn, StrongNegative), TopList(byLevel.un, Unknown))
  }

  /** One level's list sorted in its direction and cut to three. */
  function TopList(list: seq<Comment>, l: Level): seq<TopEntry> {
    Top3(SortBy(list, SortDirection(l)))
  }

  /** The `topComments` record of one video. */
  function TopOf(cs: seq<Comment>): PerLevel<seq<TopEntry>> {
    TopFrom(ByLevelOf(cs))
  }

  lemma {:induction false} TopOfAt(cs: seq<Comment>, l: Level)
    ensures TopOf(cs).Get(l) == Top3(Arranged(cs, l))
  {
  }

  /**
   * Each level shows at most three of its own comments, the first ones of the
   * sorted list: for a positive level the highest scores, for a negative level
   * the lowest, and for neutral and unknown the earliest.
   */
  lemma {:induction false} TopComments(cs: seq<Comment>, l: Level)
    ensures var top := TopOf(cs).Get(l);
      var arranged := Arranged(cs, l);
      |top| <= 3 && |top| == (if |arranged| < 3 then |arranged| else 3) &&
      (forall k :: 0 <= k < |top| ==> top[k] == Project(arranged[k])) &&
      (forall k :: 0 <= k < |top| ==> arranged[k] in cs && GetSentimentLevel(arranged[k].score) == l) &&
      (forall k, c :: 0 <= k < |top| && c in arranged[|top|..] ==> Precedes(arranged[k], c, SortDirection(l)))
  {
    var arranged := Arranged(cs, l);
    var top := TopOf(cs).Get(l);
    assert top == Top3(arranged) by { TopOfAt(cs, l); }
    FromLevel(cs, l, arranged);
    OrderedSplit(arranged, |top|, SortDirection(l));
  }

  lemma {:induction false} FromLevel(cs: seq<Comment>, l: Level, arranged: seq<Comment>)
    requires multiset(arranged) == multiset(OfLevel(cs, l))
    ensures forall c :: c in arranged ==> c in cs && GetSentimentLevel(c.score) == l
  {
    OfLevelMembers(cs, l);
    forall c | c in arranged ensures c in cs && GetSentimentLevel(c.score) == l {
      assert c in multiset(arranged);
      assert c in OfLevel(cs, l);
    }
  }

  lemma {:induction false} OrderedSplit(s: seq<Comment>, n: nat, d: Direction)
    requires Ordered(s, d) && n <= |s|
    ensures forall k, c :: 0 <= k < n && c in s[n..] ==> Precedes(s[k], c, d)
  {
    forall k, c | 0 <= k < n && c in s[n..] ensures Precedes(s[k], c, d) {
      var j :| 0 <= j < |s[n..]| && s[n..][j] == c;
      assert s[n + j] == c;
    }
  }

  lemma {:induction false} NeutralTopIsEarliest(cs: seq<Comment>)
    ensures var o := OfLevel(cs, Neutral);
      TopOf(cs).Get(Neutral) == Top3(o) && TopOf(cs).Get(Unknown) == Top3(OfLevel(cs, Unknown))
  {
    ArrivalKeepsOrder(OfLevel(cs, Neutral));
    ArrivalKeepsOrder(OfLevel(cs, Unknown));
  }

  datatype Video = Video(id: string, title: string, publishedAt: string)
  datatype VideoAnalysis = VideoAnalysis(video: Video, summary: PerLevel<nat>, topComments: PerLevel<seq<TopEntry>>)

  /** What the page computes for one video from its comments. */
  function Analyzed(v: Video, cs: seq<Comment>): VideoAnalysis {
    VideoAnalysis(v, SummaryOf(cs), TopOf(cs))
  }

  /** One video's entry of `videosWithAnalysis`: tally, then sort and cut each level. */
  method AnalyzeVideo(v: Video, comments: seq<Comment>) returns (a: VideoAnalysis)
    ensures a == Analyzed(v, comments)
  {
    var summary, byLevel := Tally(comments);
    var top := TopFrom(byLevel);
    a := VideoAnalysis(v, summary, top);
  }

  /** `f` applied to each element, in order. */
  function Each<A, B>(xs: seq<A>, f: A -> B): (r: seq<B>)
    ensures |r| == |xs|
  {
    if |xs| == 0 then [] else Each(xs[..|xs| - 1], f) + [f(xs[|xs| - 1])]
  }

  lemma {:induction false} EachAt<A, B>(xs: seq<A>, f: A -> B)
    ensures forall k :: 0 <= k < |xs| ==> Each(xs, f)[k] == f(xs[k])
    decreases |xs|
  {
    if |xs| > 0 {
      var init := xs[..|xs| - 1];
      EachAt(init, f);
      assert forall k :: 0 <= k < |init| ==> xs[k] == init[k];
    }
  }

  lemma {:induction false} EachStep<A, B>(xs: seq<A>, f: A -> B, i: nat)
    requires i < |xs|
    ensures Each(xs[..i + 1], f) == Each(xs[..i], f) + [f(xs[i])]
  {
    assert xs[..i + 1][..i] == xs[..i];
  }

  /** The analysis of one video over its own comments. */
  function AnalysisFor(allComments: seq<Comment>): Video -> VideoAnalysis {
    (v: Video) => Analyzed(v, ForVideo(allComments, v.id))
  }

  /** `videosWithAnalysis`. */
  function AnalyzedAll(videos: seq<Video>, allComments: seq<Comment>): seq<VideoAnalysis> {
    Each(videos, AnalysisFor(allComments))
  }

  /** One entry per video, in order, each the video's own analysis over its own comments. */
  lemma {:induction false} AnalyzedAllAt(videos: seq<Video>, allComments: seq<Comment>)
    ensures |AnalyzedAll(videos, allComments)| == |videos|
    ensures forall k :: 0 <= k < |videos| ==>
      AnalyzedAll(videos, allComments)[k] == Analyzed(videos[k], ForVideo(allComments, videos[k].id))
  {
    EachAt(videos, AnalysisFor(allComments));
  }

  /** `videosWithAnalysis`: group the comments once, then analyse each video in order. */
  method AnalyzeVideos(videos: seq<Video>, allComments: seq<Comment>) returns (out: seq<VideoAnalysis>)
    ensures out == AnalyzedAll(videos, allComments)
  {
    var groups := GroupByVideo(allComments);
    ghost var f := AnalysisFor(allComments);
    out := [];
    for i := 0 to |videos|
      invariant out == Each(videos[..i], f)
    {
      EachStep(videos, f, i);
      var group := Lookup(groups, videos[i].id);
      assert group == ForVideo(allComments, videos[i].id);
      var a := AnalyzeVideo(videos[i], group);
      assert a == f(videos[i]);
      out := out + [a];
    }
    assert videos[..|videos|] == videos;
  }
}
