# TubeCome core, modelled in Dafny

TubeCome is a Next.js front end for YouTube: channel feeds, comment lists with
sentiment summaries, favourites, and a per-IP ledger of YouTube Data API quota.
This project models the sequential logic of its core. Every network, database and
storage call is a parameter: either the outcome the call would have, or an oracle
function.

One module per source file:

| module | file | source |
|---|---|---|
| `Common`, `JsString`, `JsNumber` | common.dfy, strings.dfy, js_number.dfy | the JavaScript built-ins the code relies on: the or-operator on strings, `trim`, `split`, `includes`, `replace(/…/g)`, `parseInt`, `String(n)`, `padStart(2, '0')` |
| `JstDay` | jst_day.dfy | `getAggregationDateInJST`, with the ECMA-262 date arithmetic behind `getUTC*` |
| `QuotaLedger` | quota_ledger.dfy | `logYouTubeQuota` and the two daily-total readers (src/utils/supabase/serverClient.ts) |
| `Html` | html.dfy | `decodeHtml` (src/utils/html.ts) |
| `Linkify` | linkify.dfy | `linkify` (src/utils/linkify.ts) |
| `Favorites` | favorites.dfy | the localStorage favourites list (src/utils/favorites.ts) |
| `Sentiment` | sentiment.dfy | `getSentimentLevel` and `SENTIMENT_CONFIG` (src/utils/sentiment.ts) |
| `VideosPage` | videos_page.dfy | grouping, summary and top comments of src/app/videos/page.tsx |
| `ChannelId`, `ChannelsHome` | channel_id.dfy, channels_home.dfy | `UC…` ids; reorder, new counts, favourite toggle and title selection of ChannelsHome.tsx |
| `SaveVideoStats` | save_video_stats.dfy | the `maxViewed` / save-timer state of SaveVideoStats.tsx |
| `FavoritesRoute` | favorites_route.dfy | the cookie id and the GET/POST/DELETE handlers of src/app/api/favorites/route.ts |
| `ResolveChannel` | resolve_channel.dfy | src/app/api/resolve-channel/route.ts |
| `QuotaUsage` | quota_usage.dfy | src/app/api/quota-usage/route.ts |
| `ChannelNewCount` | channel_new_count.dfy | src/app/api/channel-new-count/route.ts |
| `ChannelEntries` | channel_entries.dfy | src/app/api/channel-entries/route.ts |
| `VideoStats` | video_stats.dfy | src/app/api/video-stats/route.ts |
| `Trending` | trending.dfy | the cache and instance failover of src/app/api/invidious/trending/route.ts |
| `PrevNext` | prev_next.dfy | src/components/PrevNextClient.tsx |
| `DateFormat` | date_format.dfy | src/utils/date.ts |
| `Share` | share.dfy | src/app/share/route.ts |
| `Actions` | actions.dfy | `fetchAndSaveComments` (src/app/actions.ts) |
| `RssSeed` | rss_seed.dfy | scripts/fetch-rss-channels.js |

Where the code works by changing state, the model does too:
- the quota log is a class whose method appends rows;
- the favourites slot, the ChannelsHome state, the SaveVideoStats refs and the trending cache are classes;
- the loops of `linkify`, `decodeHtml`, the channel routes, the videos page and `fetchAndSaveComments` are methods with loop invariants.

Each loop method is proved equal to a specification function, and the properties are proved about that function.
The class methods state their new state in two-state `ensures` clauses (`old(...)`), and the invariant each class keeps is preserved by every method.

The aggregation-day label follows the code, not its doc comment. The comment at
src/utils/supabase/serverClient.ts:36 says that 16:30 on 2026-01-02 in UTC+9 is
labelled "2026-01-02". The rule at line 59 gives "2026-01-01", in agreement with the
comment's own example at line 38. `JstDay.AfternoonBeforeCutoff` proves the label
the code gives.

## Model

| member | source | states |
|---|---|---|
| Common.OrElse | src/app/api/favorites/route.ts:7 | `s or fallback` in JavaScript's sense: the value when it is a non-empty string, the fallback otherwise; the result is non-empty iff the value is truthy or the fallback is non-empty |
| Common.FirstTruthy | src/utils/supabase/serverClient.ts:99-102 | `a or b` in JavaScript's sense, on optional strings: `a` when truthy, else `b` as it is; truthy iff `a` or `b` is |
| Common.OrElseChain | src/app/share/route.ts:4-6 | `(a or b) or c` equals `a or (b or c)` for the or-operator on strings with a string fallback |
| Common.FirstTruthyAssoc | src/utils/supabase/serverClient.ts:99-102 | the or-operator on optional strings is associative |
| JsString.TrimStart | src/utils/supabase/serverClient.ts:99 | leading white space removed: a suffix of the input, everything cut is white, the result does not start with white |
| JsString.TrimEnd | src/utils/supabase/serverClient.ts:99 | trailing white space removed: a prefix of the input, everything cut is white, the result does not end with white |
| JsString.Trim | src/utils/supabase/serverClient.ts:99 | `trim()`: the result is a run of the input with only white space cut before and after it, never longer, and neither end of a non-empty result is white |
| JsString.TrimAvoids | src/app/api/video-stats/route.ts:10 | trimming keeps a run of the input, so a character class absent from the input is absent from the result |
| JsString.TrimIdentity | src/app/api/video-stats/route.ts:10 | every trim is trimmed, and a trimmed string is its own trim |
| JsString.Split | src/app/api/video-stats/route.ts:10 | `split(sep)`: at least one piece, no piece holds the separator, and joining the pieces with it gives the input back |
| JsString.SplitJoin | src/app/api/video-stats/route.ts:10 | splitting a join of separator-free pieces gives those pieces back |
| JsString.SplitHead | src/utils/supabase/serverClient.ts:99 | `split(sep)[0]` is the text before the first separator |
| JsString.BeforeFirst | src/app/api/quota-usage/route.ts:7 | the text before the first separator is a separator-free prefix, followed by the separator when shorter than the input |
| JsString.SplitRuns | scripts/fetch-rss-channels.js:18 | `split(/[,\n\r]+/)`: at least one piece, and no piece holds a separator character |
| JsString.SeparatorRuns | scripts/fetch-rss-channels.js:18 | the maximal separator runs `/[,\n\r]+/` matches, in order: each non-empty and made only of separator characters |
| JsString.SplitRunsRestores | scripts/fetch-rss-channels.js:18 | there is one piece more than separator runs, and interleaving the pieces with the runs gives the input back |
| JsString.SplitRunsInner | scripts/fetch-rss-channels.js:18 | the first piece is empty exactly when the input is empty or starts with a separator, and every piece between two runs is non-empty |
| JsString.SplitRunsJoin | scripts/fetch-rss-channels.js:18 | non-empty separator-free pieces joined by one separator each split back into themselves |
| JsString.TrimmedNonEmpty | src/app/api/video-stats/route.ts:10 | `map(s => s.trim()).filter(Boolean)`: never more pieces, each non-empty and trimmed |
| JsString.TrimmedNonEmptyMembers | src/app/api/video-stats/route.ts:10 | a string is kept iff it is non-empty and the trim of some piece |
| JsString.TrimmedNonEmptyAppend | src/app/api/video-stats/route.ts:10 | cleaning a concatenation is the concatenation of the cleanings, so the kept pieces stay in input order |
| JsString.TrimmedNonEmptyKeeps | src/app/api/video-stats/route.ts:10 | pieces that are already trimmed and non-empty all survive, in order |
| JsString.TrimmedNonEmptyAvoids | scripts/fetch-rss-channels.js:18 | cleaning pieces free of a character class brings no such character in |
| JsString.IncludesAt | src/app/api/resolve-channel/route.ts:61 | an occurrence at some index makes `includes` true |
| JsString.ReplaceAll | src/utils/html.ts:9 | `replace(/pat/g, rep)` with a shorter replacement: unchanged or strictly shorter, and unchanged when the pattern's first character is absent |
| JsString.ReplaceAllSkips | src/utils/html.ts:9 | text holding no copy of the pattern's first character is copied unchanged and the scan goes on after it |
| JsString.ReplaceAllAt | src/utils/html.ts:9 | an occurrence of the pattern at the scan position is replaced and the scan resumes after it |
| JsString.ReplaceAllPasses | src/utils/html.ts:9 | a text that is not an occurrence, and whose tail holds no copy of the pattern's first character, is copied before the scan goes on |
| JsNumber.Digits | src/utils/supabase/serverClient.ts:62-65 | `String(n)` of a natural number: decimal digits, no leading zero |
| JsNumber.DigitsValue | src/utils/supabase/serverClient.ts:62-65 | reading back the digits written for `n` gives `n` |
| JsNumber.ParseIntOfString | src/utils/supabase/serverClient.ts:136-137 | `parseInt(String(n), 10) == n` for every integer |
| JsNumber.ParseIntOfDigits | src/utils/html.ts:14-16 | a non-empty run of radix digits parses to the number it denotes |
| JsNumber.SignedOfNegative | src/utils/supabase/serverClient.ts:136-137 | a minus sign and decimal digits parse to the negated value |
| JsNumber.Pad2 | src/utils/supabase/serverClient.ts:63-64 | `padStart(2, '0')` of 0..99: two decimal digits whose value is the number |
| JstDay.MonthLength | src/utils/supabase/serverClient.ts:63-64 | every month has 28 to 31 days |
| JstDay.DayFromYearStep | src/utils/supabase/serverClient.ts:62 | ECMA-262's closed-form DayFromYear moves by the year's length from one year to the next |
| JstDay.YearAndDay | src/utils/supabase/serverClient.ts:62 | the year walk ends with a day index inside that year |
| JstDay.YearAndDaySound | src/utils/supabase/serverClient.ts:62 | the year walk lands on the year and day whose closed-form day number is the input |
| JstDay.YearAndDayClosed | src/utils/supabase/serverClient.ts:62 | the walk computes ECMA-262's YearFromTime: year `y`, day `k` is found again from its day number |
| JstDay.YearDayUnique | src/utils/supabase/serverClient.ts:62 | a day number has exactly one (year, day within year) pair |
| JstDay.CivilFromDaysValid | src/utils/supabase/serverClient.ts:62-64 | `getUTCFullYear/Month/Date` always give a real calendar date |
| JstDay.CivilFromDaysNext | src/utils/supabase/serverClient.ts:62-64 | the next day number is the next calendar date |
| JstDay.YearAndDayNext | src/utils/supabase/serverClient.ts:62 | the day after (y, k) is (y, k + 1), or (y + 1, 0) after the year's last day |
| JstDay.CivilFromDaysIncreasing | src/utils/supabase/serverClient.ts:62-64 | later day numbers give strictly later dates |
| JstDay.AggregationWindow | src/utils/supabase/serverClient.ts:49-59 | the rule "hour in UTC+9 at least 17: that day, else the day before" labels an instant with the date of the 24-hour window, starting 08:00 UTC, that holds it |
| JstDay.SameWindowSameLabel | src/utils/supabase/serverClient.ts:59 | two instants in the same window share a label |
| JstDay.LabelOneDayLater | src/utils/supabase/serverClient.ts:59 | an instant exactly 24 hours later is labelled with the next calendar date |
| JstDay.WindowBounds | src/utils/supabase/serverClient.ts:52-59 | every instant from 08:00:00.000 UTC of day `k` to 07:59:59.999 UTC of day `k + 1` is labelled with day `k` |
| JstDay.DifferentWindowsDifferentLabels | src/utils/supabase/serverClient.ts:52-65 | instants in different windows get different labels |
| JstDay.WindowOfYearDay | src/utils/supabase/serverClient.ts:52-65 | an instant in the window starting on day `k` of year `y` is labelled with that calendar date |
| JstDay.LabelRoundTrip | src/utils/supabase/serverClient.ts:62-65 | the label is `<year>-MM-DD` with two-digit month and day, and reading it back gives the date |
| JstDay.LabelLength | src/utils/supabase/serverClient.ts:62-65 | for years 1000 to 9999 the label has exactly ten characters |
| JstDay.EarlyJanuary2026Labels | src/utils/supabase/serverClient.ts:36-38 | the first two days of 2026 are written "2026-01-01" and "2026-01-02" |
| JstDay.LastSecondBeforeCutoff | src/utils/supabase/serverClient.ts:57-59 | 16:59:59 on 2026-01-02 in UTC+9 is labelled "2026-01-01" |
| JstDay.FirstInstantAfterCutoff | src/utils/supabase/serverClient.ts:58-59 | 17:00:00 on 2026-01-02 in UTC+9 is labelled "2026-01-02" |
| JstDay.AfternoonBeforeCutoff | src/utils/supabase/serverClient.ts:36-38 | 16:30 on 2026-01-02 in UTC+9 is labelled "2026-01-01", as line 59 computes (the comment at line 36 says "2026-01-02") |
| QuotaLedger.SelectByIp | src/utils/supabase/serverClient.ts:119-123 | `.eq('date', day).eq('client_ip', ip)` keeps exactly the rows of that day and IP |
| QuotaLedger.SelectByDay | src/utils/supabase/serverClient.ts:220-223 | `.eq('date', day)` keeps exactly the rows of that day |
| QuotaLedger.SumForIpAppend | src/utils/supabase/serverClient.ts:131 | appending a row adds its units (missing counted as 0) to the per-IP total exactly when it is that IP's row of that day |
| QuotaLedger.SumForDayAppend | src/utils/supabase/serverClient.ts:230 | the same for the day's global total |
| QuotaLedger.OtherDaysIgnored | src/utils/supabase/serverClient.ts:131 | rows of other days never count toward a day's totals |
| QuotaLedger.SumForIpAtMostDay | src/utils/supabase/serverClient.ts:197 | with non-negative units, one IP's total is between 0 and the day's global total |
| QuotaLedger.HeaderIp | src/utils/supabase/serverClient.ts:99-102 | the trimmed first comma token of `x-forwarded-for` when non-empty, else `x-real-ip`, else `cf-connecting-ip`, taken as they are; none exactly when all three are unusable |
| QuotaLedger.ResolveIp | src/utils/supabase/serverClient.ts:91-107 | a passed IP wins; otherwise the header fallback; a throwing `headers()` leaves no IP |
| QuotaLedger.ThresholdOfDefault | src/utils/supabase/serverClient.ts:136-137 | an unset or empty variable falls back to the written-out default, which parses back to itself |
| QuotaLedger.ThresholdDefaults | src/utils/supabase/serverClient.ts:136-137 | without the variables the thresholds are 1000 and 5000 |
| QuotaLedger.Classify | src/utils/supabase/serverClient.ts:140-163 | `error` iff total ≥ error threshold; `warn` iff not that and total ≥ warn threshold; each with its threshold; a NaN threshold never fires |
| QuotaLedger.ClassifyMonotone | src/utils/supabase/serverClient.ts:140-163 | a larger total never gets a milder verdict |
| QuotaLedger.DefaultBands | src/utils/supabase/serverClient.ts:140-163 | with 1000 and 5000: 999 is ok, 1000 and 4999 warn, 5000 is an error (boundaries classify upward) |
| QuotaLedger.StatusOf | src/utils/supabase/serverClient.ts:148-163 | the status carries the total, matches the verdict one to one, and carries the threshold on warn and error |
| QuotaLedger.MarkerRow | src/utils/supabase/serverClient.ts:143-155 | the marker row has zero units, is that IP's row of the day, and is `quota.error` or `quota.warn` by verdict |
| QuotaLedger.QuotaStore.LogYouTubeQuota | src/utils/supabase/serverClient.ts:84-171 | unconfigured: `noop`, nothing stored; insert throws: `error` with the reason; otherwise the row is appended (when the insert is not rejected); no IP or a failed read: `logged`; a throwing read: `error`; else the status of the day's per-IP sum, and a marker row appended exactly on `warn` and `error` |
| QuotaLedger.QuotaStore.DailyTotalByIp | src/utils/supabase/serverClient.ts:181-202 | 0 when unconfigured or on any failure; otherwise the IP's sum for the day, never negative with non-negative units |
| QuotaLedger.QuotaStore.DailyTotalGlobal | src/utils/supabase/serverClient.ts:215-235 | 0 when unconfigured or on any failure; otherwise the day's sum, at least any single IP's total |
| QuotaLedger.LoggedCallCounts | src/utils/supabase/serverClient.ts:114-157 | a stored call adds exactly its units to its IP's day total, and the marker row that follows adds nothing |
| Html.HexRun | src/utils/html.ts:11 | the run of `[0-9A-Fa-f]` characters from an index: all in the class, and stopping at the first character outside it |
| Html.MatchAt | src/utils/html.ts:11 | a match of `&#(x?[0-9A-Fa-f]+);` at an index: `&#`, a non-empty captured code, `;`, with the end index it reaches |
| Html.FromCodePoint | src/utils/html.ts:19-23 | `String.fromCodePoint`, with '' when it throws: empty exactly outside 0..0x10FFFF |
| Html.NumericText | src/utils/html.ts:11-24 | the callback's answer for one code is at most one character |
| Html.DecodeNumericFrom | src/utils/html.ts:11-24 | the numeric replacement from an index: unchanged or strictly shorter, unchanged without `&` |
| Html.DecodeNumeric | src/utils/html.ts:11-24 | the numeric replacement: unchanged or strictly shorter, unchanged without `&` |
| Html.NamedPass | src/utils/html.ts:9 | the six named replacements in order: unchanged or strictly shorter, unchanged without `&` |
| Html.NamedPassAt | src/utils/html.ts:9 | for each of `&lt;`, `&gt;`, `&quot;`, `&#39;`, `&nbsp;`: after text with no `&`, the entity becomes its character and the pass continues on the rest |
| Html.LaterNamedAt | src/utils/html.ts:9 | the same for the five replacements that follow `&amp;` |
| Html.SingleDecode | src/utils/html.ts:7-25 | `singleDecode`: a pass leaves the string as it is or makes it strictly shorter, and changes nothing without `&` |
| Html.RepeatPass | src/utils/html.ts:28-34 | the loop returns what repeating the pass gives: at most the bound of passes, stopping at the first that changes nothing |
| Html.DecodeHtml | src/utils/html.ts:4-35 | undefined and '' give ''; otherwise at most five passes of `singleDecode`, stopping at a fixed point |
| Html.RepeatedFixedOrShorter | src/utils/html.ts:28-34 | repeating a shrinking pass ends at a fixed point or has shortened the input by one character per round |
| Html.DecodedFixedOrShorter | src/utils/html.ts:28-34 | after the passes the result is a fixed point of `singleDecode` or at least that many characters shorter |
| Html.ShortInputIsStable | src/utils/html.ts:28-34 | an input of fewer than five characters always decodes to a fixed point |
| Html.NoAmpersandUnchanged | src/utils/html.ts:9-11 | a string with no `&` is returned unchanged |
| Html.NoHashNoNumeric | src/utils/html.ts:11 | without `#` no numeric reference is replaced |
| Html.AmpLtInOnePass | src/utils/html.ts:9 | `&amp;` goes first, so `&amp;lt;` is `<` after a single pass |
| Html.LaterNamedKeepAmp | src/utils/html.ts:9 | the five replacements after `&amp;` leave `&amp;` alone |
| Html.DoubleEncodedAmp | src/utils/html.ts:2-3 | `&amp;amp;` decodes to `&` |
| Html.AmpStable | src/utils/html.ts:9-24 | a lone `&` is a fixed point of a pass |
| Html.WholeMatch | src/utils/html.ts:11 | `&#` + code + `;` is one whole match when the code is a run of hex-class characters |
| Html.WholeReference | src/utils/html.ts:11-24 | a whole match is replaced by what the callback gives for its code |
| Html.DecimalReference | src/utils/html.ts:16-20 | `&#N;` with decimal digits becomes the character with that number ('' beyond U+10FFFF) |
| Html.HexReference | src/utils/html.ts:13-20 | `&#xH;` with hex digits becomes the character with that hexadecimal number |
| Html.NaNReferenceDropped | src/utils/html.ts:16-18 | a decimal code that does not start with a digit is NaN and the reference becomes '' |
| Html.NaNCode | src/utils/html.ts:16 | a code starting with a letter other than `x` is NaN in radix 10 |
| Linkify.UrlRun | src/utils/linkify.ts:6 | the run of URL-class characters from an index stays inside the text |
| Linkify.UrlRunShape | src/utils/linkify.ts:6 | that run is all URL characters and stops at the first other one |
| Linkify.SchemeAtPrefix | src/utils/linkify.ts:6 | the scheme found is the first of `https://`, `http://`, `www.` the text begins with there |
| Linkify.MatchLen | src/utils/linkify.ts:6 | the length of the regex match at an index stays inside the text |
| Linkify.MatchLenShape | src/utils/linkify.ts:6 | a match is a scheme followed by URL characters, as long as the greedy class run allows |
| Linkify.MatchIsLinkText | src/utils/linkify.ts:6 | a match is a scheme followed by one or more URL-class characters |
| Linkify.NextMatch | src/utils/linkify.ts:12-13 | `exec` from `lastIndex`: a non-empty match at or after it, whose length is the match length there |
| Linkify.NextMatchLeftmost | src/utils/linkify.ts:12-13 | the match `exec` finds is the leftmost one, and when it finds none there is none |
| Linkify.PushedStep | src/utils/linkify.ts:12-21 | one turn of the loop pushes the gap before the match and its link, and moves `lastIndex` past it |
| Linkify.Scan | src/utils/linkify.ts:12-25 | the loop and the tail push exactly the first-stage nodes `Tokenize` defines |
| Linkify.PushedRender | src/utils/linkify.ts:12-25 | the pushed text pieces and link texts, in order, are the rest of the text |
| Linkify.TokenizeRender | src/utils/linkify.ts:12-25 | concatenating the text pieces and link texts in order gives the input exactly |
| Linkify.PushedOk | src/utils/linkify.ts:14-19 | every pushed node is non-empty text or a link whose text is a match and whose href is the match, or `https://` + the match when it does not start with `http` |
| Linkify.TokenizeOk | src/utils/linkify.ts:14-19 | every first-stage node is well formed in that sense |
| Linkify.Linkify | src/utils/linkify.ts:3-42 | undefined or '' gives null; otherwise the newline stage applied to the first stage |
| Linkify.BreakLines | src/utils/linkify.ts:28-39 | the `forEach` builds exactly the list `Expanded` defines |
| Linkify.PiecesRender | src/utils/linkify.ts:31-35 | the lines and breaks of one text show that text, breaks standing for `\n` |
| Linkify.ExpandedRender | src/utils/linkify.ts:28-39 | the newline stage shows the same characters as its input |
| Linkify.PiecesOk | src/utils/linkify.ts:31-35 | the pieces of a text are breaks and non-empty newline-free lines |
| Linkify.ExpandedOk | src/utils/linkify.ts:28-39 | every final node is a non-empty newline-free line, a break, or a well-formed link |
| Linkify.PiecesHaveNoLinks | src/utils/linkify.ts:31-35 | splitting a text node makes no link |
| Linkify.ExpandedKeepsLinks | src/utils/linkify.ts:36-38 | link nodes pass through the newline stage unchanged and in order |
| Linkify.ShownNewlines | src/utils/linkify.ts:31-35 | a final node shows a newline exactly when it is a break |
| Linkify.BreaksAreNewlines | src/utils/linkify.ts:29-35 | in the final list the number of breaks is the number of `\n` shown |
| Linkify.LinkifySound | src/utils/linkify.ts:3-42 | the result shows the input exactly, has one break per `\n` of the input, has only non-empty lines, breaks and well-formed links, and keeps the first stage's links in order |
| Favorites.GetFavorites | src/utils/favorites.ts:3-11 | a missing or unparsable stored value reads as the empty list, a stored list as itself (the write side is `FavoritesStore.Save`) |
| Favorites.Added | src/utils/favorites.ts:21-27 | an absent channel goes to index 0 with the rest shifted behind it; a present one changes nothing |
| Favorites.Removed | src/utils/favorites.ts:30 | the channel is gone and every other entry keeps its number of occurrences |
| Favorites.AddedKeepsDistinct | src/utils/favorites.ts:21-27 | adding keeps a duplicate-free list duplicate-free |
| Favorites.RemoveUndoesAdd | src/utils/favorites.ts:21-32 | adding an absent channel and removing it again gives back the list |
| Favorites.RemovedAbsent | src/utils/favorites.ts:29-32 | removing an absent channel leaves the list as it was |
| Favorites.RemovedKeepsOrder | src/utils/favorites.ts:30 | the remaining entries keep their relative order |
| Favorites.RemovedKeepsDistinct | src/utils/favorites.ts:30 | removing keeps a duplicate-free list duplicate-free |
| Favorites.AtMostOnce | src/utils/favorites.ts:21-27 | in a duplicate-free list every channel occurs at most once |
| Favorites.FavoritesStore.Save | src/utils/favorites.ts:13-19 | a successful write stores the list and sends one `favorites-changed` event, and reading the slot back gives that list; a failed write changes nothing |
| Favorites.FavoritesStore.AddFavorite | src/utils/favorites.ts:21-27 | a present channel: nothing saved, no event; an absent one: the list with it in front is saved, so a successful write reads back as the added list and a failed one as the old list |
| Favorites.FavoritesStore.RemoveFavorite | src/utils/favorites.ts:29-32 | the filtered list is always saved, so a successful write reads back as the old list without the channel |
| Sentiment.GetSentimentLevel | src/utils/sentiment.ts:20-28 | `unknown` exactly for a missing score |
| Sentiment.LevelIsBand | src/utils/sentiment.ts:23-27 | a score gets a level iff it lies in that level's band: ≥ 0.7, [0.3, 0.7), [-0.3, 0.3), [-0.7, -0.3), < -0.7 |
| Sentiment.BandsPartition | src/utils/sentiment.ts:23-27 | every score lies in exactly one band |
| Sentiment.Monotone | src/utils/sentiment.ts:23-27 | a larger score never gets a more negative level |
| Sentiment.ConfigComplete | src/utils/sentiment.ts:11-18 | the configuration table has an entry for every level, so every computed level has one |
| VideosPage.GroupByVideo | src/app/videos/page.tsx:55-59 | the `reduce` gives each video id present its comments, in arrival order, and no other key |
| VideosPage.ForVideo | src/app/videos/page.tsx:55-59 | a video never gets more comments than were loaded |
| VideosPage.ForVideoMembers | src/app/videos/page.tsx:55-59 | a video's list holds exactly the comments with that video id |
| VideosPage.ForVideoCount | src/app/videos/page.tsx:55-59 | each comment sits under its own video id as often as it occurs in the input, and under no other |
| VideosPage.CountLevel | src/app/videos/page.tsx:83-91 | a level never counts more comments than the video has |
| VideosPage.OfLevel | src/app/videos/page.tsx:83-91 | a level's list is exactly as long as its count |
| VideosPage.OfLevelMembers | src/app/videos/page.tsx:83-91 | a level's list holds exactly the comments that get that level |
| VideosPage.Tally | src/app/videos/page.tsx:83-91 | the `forEach` builds exactly the six counts and the six arrival-order lists |
| VideosPage.SummaryTotal | src/app/videos/page.tsx:83-91 | every comment increments exactly one bucket, so the buckets add up to the comment count |
| VideosPage.NoCommentsAllZero | src/app/videos/page.tsx:62-81 | a video without comments has all six counts 0 and all six lists empty |
| VideosPage.DirectionOfLevels | src/app/videos/page.tsx:95-101 | the direction each level is sorted in is what the `includes('positive')` / `includes('negative')` test on its key selects |
| VideosPage.KeyDirection | src/app/videos/page.tsx:95-101 | a key ending in `positive` sorts descending, and one ending in `negative` without a `p` sorts ascending |
| VideosPage.Insert | src/app/videos/page.tsx:98-100 | inserting into a sorted list keeps it sorted and adds exactly the one comment |
| VideosPage.SortBy | src/app/videos/page.tsx:97-101 | the sort result is ordered (descending score for positive levels, ascending for negative) and a permutation of its input |
| VideosPage.InsertStable | src/app/videos/page.tsx:97-101 | inserting a comment puts it before every comment of equal score already placed, and keeps their order |
| VideosPage.SortByStable | src/app/videos/page.tsx:97-101 | the sort is stable: for every score, the comments with that score keep their input order |
| VideosPage.ArrivalKeepsOrder | src/app/videos/page.tsx:95-101 | neutral and unknown keep arrival order |
| VideosPage.Top3 | src/app/videos/page.tsx:103-108 | `slice(0, 3).map(...)`: exactly min(3, n) entries, the projections of the first ones in order |
| VideosPage.Arranged | src/app/videos/page.tsx:95-101 | a level's displayed list is ordered in its direction and a permutation of that level's comments |
| VideosPage.TopComments | src/app/videos/page.tsx:93-109 | each level shows min(3, n) of its own comments, the first ones of the sorted list, each ahead of every comment left out |
| VideosPage.NeutralTopIsEarliest | src/app/videos/page.tsx:95-108 | neutral and unknown show their three earliest comments |
| VideosPage.AnalyzeVideo | src/app/videos/page.tsx:61-117 | one video's entry is its summary and top comments over the given comments |
| VideosPage.AnalyzedAllAt | src/app/videos/page.tsx:55-118 | one entry per video, in order, each computed over that video's own comments |
| VideosPage.AnalyzeVideos | src/app/videos/page.tsx:55-118 | grouping once and analysing each video in order gives exactly that list |
| ChannelId.ChannelIdChars | src/components/channel/ChannelsHome.tsx:30 | a string passing `^UC[0-9A-Za-z_-]{20,}$` is made of id characters only |
| ChannelsHome.FindIndex | src/components/channel/ChannelsHome.tsx:91-93 | `findIndex` gives the first position holding the id, or -1 when none does |
| ChannelsHome.Ids | src/components/channel/ChannelsHome.tsx:100 | the persisted order lists the channel ids position by position |
| ChannelsHome.MovedIsReorder | src/components/channel/ChannelsHome.tsx:95-96 | the two `splice` calls put the dragged channel at the target index and keep every other channel in its relative order: a permutation |
| ChannelsHome.MovedInPlace | src/components/channel/ChannelsHome.tsx:95-96 | moving a channel to its own index changes nothing |
| ChannelsHome.NewCounts | src/components/channel/ChannelsHome.tsx:60-67 | only positive counts are recorded |
| ChannelsHome.NewCountsKeys | src/components/channel/ChannelsHome.tsx:60-67 | a channel id has an entry exactly when some listed channel with that id had a positive count |
| ChannelsHome.NewCountsValue | src/components/channel/ChannelsHome.tsx:60-67 | the count recorded for an id is the counter's answer for the last listed channel with that id whose count is positive |
| ChannelsHome.ToResolve | src/components/channel/ChannelsHome.tsx:30 | the filter keeps exactly the channels with a missing title, or the id as title, and a well-formed channel id |
| ChannelsHome.ToggleFlips | src/components/channel/ChannelsHome.tsx:119-123 | toggling flips the membership of that one id, leaves every other id as it was and keeps the list free of duplicates |
| ChannelsHome.Home.constructor | src/components/channel/ChannelsHome.tsx:13-17 | the component starts with empty channels, favourites and counts and no drag in progress |
| ChannelsHome.Home.OnDrop | src/components/channel/ChannelsHome.tsx:80-104 | each early return leaves the state as the source leaves it; otherwise the channel is moved, and when `setChannelsOrder` succeeds the new id order is persisted and the drag state is cleared, while a rejected write saves nothing and leaves the drag state set |
| ChannelsHome.Home.FetchNewCounts | src/components/channel/ChannelsHome.tsx:60-67 | the loop sets the counts to exactly the positive counts and changes nothing else |
| ChannelsHome.Home.ToggleFav | src/components/channel/ChannelsHome.tsx:119-123 | the component's list is reloaded from storage; when the component's list agreed with storage before and the write succeeds, it is the toggled list; a listed id is removed from the stored list, an id absent from both is added in front, a failed write leaves the slot and the events alone |
| SaveVideoStats.CommentNumberIsParse | src/components/SaveVideoStats.tsx:15 | a comment's number is `parseInt` of its attribute, with a missing or empty attribute read as `'0'` |
| SaveVideoStats.MaxAfter | src/components/SaveVideoStats.tsx:13-17 | the running maximum never decreases, ends at least at every visible comment's number and, when it moves, equals one of them |
| SaveVideoStats.Tracker.constructor | src/components/SaveVideoStats.tsx:6-7 | the tracker starts at 0 with no timer and no save |
| SaveVideoStats.Tracker.Observe | src/components/SaveVideoStats.tsx:14-29 | a visible comment above the maximum raises it, cancels the pending save and schedules exactly one new one; any other report changes nothing |
| SaveVideoStats.Tracker.ObserveBatch | src/components/SaveVideoStats.tsx:11-34 | after a batch the maximum is the running maximum over it, and exactly one save is pending iff the batch raised it; that timer is one the batch itself started |
| SaveVideoStats.Tracker.Fire | src/components/SaveVideoStats.tsx:24-28 | a pending timer that fires saves the current maximum; a cleared one saves nothing |
| SaveVideoStats.Tracker.Teardown | src/components/SaveVideoStats.tsx:40-48 | teardown clears the pending timer and saves the maximum iff a save was ever scheduled and the maximum is positive |
| FavoritesRoute.ValueRun | src/app/api/favorites/route.ts:8 | `([^;]+)` takes the longest run of non-`;` characters, ending at the end or just before a `;` |
| FavoritesRoute.FindPair | src/app/api/favorites/route.ts:8 | the search finds the leftmost position where `tubecome_client_id=` follows the start or `; ` and a value follows |
| FavoritesRoute.CookieValue | src/app/api/favorites/route.ts:8-9 | a value is found iff some pair matches; a found value is non-empty and holds no `;` |
| FavoritesRoute.GetClientId | src/app/api/favorites/route.ts:6-10 | a missing or empty Cookie header gives no id; a found id is non-empty and holds no `;` |
| FavoritesRoute.CookieValueIsFirstRun | src/app/api/favorites/route.ts:8-9 | the value read is the whole run after the first matching pair |
| FavoritesRoute.CookieRoundTrip | src/app/api/favorites/route.ts:8-9 | a header consisting of one `name=value` pair reads back that value |
| FavoritesRoute.MakeCookieResponse | src/app/api/favorites/route.ts:12-18 | status 200 with the body given, and the year-long httpOnly id cookie at path `/` iff an id is given |
| FavoritesRoute.EnsureClientId | src/app/api/favorites/route.ts:21-28 | the cookie's id when there is one, else the freshly generated id |
| FavoritesRoute.IssuedCookieReadsBack | src/app/api/favorites/route.ts:6-18 | the cookie a response sets, sent back as the Cookie header, yields the same id |
| FavoritesRoute.Get | src/app/api/favorites/route.ts:30-49 | no cookie: an empty list and a new id cookie, with no query; otherwise the caller's select, with 500 on a database error and the rows on success |
| FavoritesRoute.Post | src/app/api/favorites/route.ts:51-64 | no channel id: 400 and no write; otherwise one upsert for the caller's id (new if needed), the id cookie, and status 200 even when the upsert fails |
| FavoritesRoute.Delete | src/app/api/favorites/route.ts:66-78 | no channel id: 400; no cookie: ok with no call; otherwise one delete of that pair, with 500 on a database error |
| FavoritesRoute.CookieSetOnlyWithId | src/app/api/favorites/route.ts:30-78 | GET sets a cookie only for a caller without one, and then the new id; DELETE never sets one |
| ResolveChannel.FirstIdAt | src/app/api/resolve-channel/route.ts:69-70 | a position found holds the prefix, `UC`, 22 id characters and the suffix |
| ResolveChannel.FirstIdAtLeftmost | src/app/api/resolve-channel/route.ts:69-77 | the search skips no occurrence: nothing matches before the one found, and nothing at all when none is found |
| ResolveChannel.Extract | src/app/api/resolve-channel/route.ts:69-77 | a captured id is 24 characters long and is a channel id |
| ResolveChannel.ExtractNone | src/app/api/resolve-channel/route.ts:70-71 | the capture is missing exactly when the pattern occurs nowhere in the page |
| ResolveChannel.ExtractFinds | src/app/api/resolve-channel/route.ts:69-71 | a page that starts with the pattern around an id yields that id |
| ResolveChannel.ScrapeChannelId | src/app/api/resolve-channel/route.ts:68-78 | whatever the scrape yields is a channel id |
| ResolveChannel.ScrapePrefersBrowseId | src/app/api/resolve-channel/route.ts:69-78 | the `browseId` match wins whenever there is one; the `og:url` tag is read only when there is none |
| ResolveChannel.TargetUrlNormalises | src/app/api/resolve-channel/route.ts:57-62 | `https://` is prepended exactly when the input has no scheme and starts with `www.` or mentions `youtube.com`; the result then has a scheme, so normalising is idempotent |
| ResolveChannel.Found | src/app/api/resolve-channel/route.ts:81-86 | status 200 with the id, and the title alongside it exactly when the lookup gives a non-empty one |
| ResolveChannel.Handle | src/app/api/resolve-channel/route.ts:41-93 | only a non-empty input that is not a channel id is fetched, at its normalised URL; 400 iff the input is empty, 502 iff the fetch failed or threw, 404 iff the page yields no id, and every 200 names a channel id |
| ResolveChannel.ScrapedAnswer | src/app/api/resolve-channel/route.ts:64-86 | a scraped id is answered with the title the lookup gives for it |
| ResolveChannel.DirectIdNeedsNoFetch | src/app/api/resolve-channel/route.ts:40-50 | an input that is already a channel id is answered with that id and the title lookup's answer, without fetching any page |
| QuotaUsage.ChosenHeader | src/app/api/quota-usage/route.ts:6 | the first non-empty one of the three proxy headers, in order; none only when all three are missing or empty |
| QuotaUsage.ClientIp | src/app/api/quota-usage/route.ts:6-7 | the IP is the chosen header's text before its first comma, trimmed, and is non-empty, comma-free and trimmed; there is none iff no header was chosen or that token is blank |
| QuotaUsage.AgreesWithLogger | src/app/api/quota-usage/route.ts:6-7 | when `x-forwarded-for` gives a usable first token this route and the quota logger pick the same IP; when its first token is blank the route has no IP while the logger falls back to the other headers |
| QuotaUsage.OtherHeadersDiffer | src/app/api/quota-usage/route.ts:6-7 | a comma-separated `x-real-ip` is cut at the comma here but taken whole by the logger |
| QuotaUsage.Get | src/app/api/quota-usage/route.ts:4-19 | 400 `no-ip` iff there is no IP; otherwise 200 with that IP's total, the thresholds read from the environment, and the IP only in development |
| QuotaUsage.DefaultThresholds | src/app/api/quota-usage/route.ts:14-15 | without the environment variables the thresholds are 1000 and 5000 |
| ChannelNewCount.LastVisitedTimestamp | src/app/api/channel-new-count/route.ts:23 | a missing or empty `lastVisited` is timestamp 0 |
| ChannelNewCount.NewCount | src/app/api/channel-new-count/route.ts:25-34 | the count never exceeds the number of entry blocks |
| ChannelNewCount.NoLastVisitNoneNew | src/app/api/channel-new-count/route.ts:30 | with no positive last-visit timestamp nothing counts as new |
| ChannelNewCount.AllNewIffAllCounted | src/app/api/channel-new-count/route.ts:25-34 | every block is counted iff every block is newer than the last visit |
| ChannelNewCount.LaterVisitFewerNew | src/app/api/channel-new-count/route.ts:30 | a later last visit never yields more new videos |
| ChannelNewCount.CountNew | src/app/api/channel-new-count/route.ts:19-34 | the `exec` loop counts exactly the blocks published after a positive last visit |
| ChannelNewCount.Get | src/app/api/channel-new-count/route.ts:3-41 | 400 iff the channel id is missing; count 0 when the feed fetch fails or throws; otherwise the count of new blocks, 0 when there was no last visit |
| ChannelEntries.StripTags | src/app/api/channel-entries/route.ts:31 | `replace(/<[^>]+>/g, '')` never lengthens the text, adds no `>` and leaves text without `<` alone |
| ChannelEntries.StripTagsLeavesNoTag | src/app/api/channel-entries/route.ts:31 | no tag is left in the stripped text |
| ChannelEntries.StripTagsIdempotent | src/app/api/channel-entries/route.ts:31 | stripping twice is stripping once |
| ChannelEntries.StripTagsKeepsText | src/app/api/channel-entries/route.ts:31 | text before the first `<` is kept as it is |
| ChannelEntries.StripTagsDropsTag | src/app/api/channel-entries/route.ts:31 | a tag `<t>` with a non-empty body free of `>` is removed whole, whatever follows |
| ChannelEntries.NoTagUnchanged | src/app/api/channel-entries/route.ts:31 | a text without any tag is unchanged |
| ChannelEntries.CleanDescription | src/app/api/channel-entries/route.ts:30-31 | a missing description stays missing, an empty one stays empty, any other is stripped of tags and trimmed |
| ChannelEntries.MakeEntry | src/app/api/channel-entries/route.ts:34 | the record's id is the block's video id |
| ChannelEntries.EntryDefaults | src/app/api/channel-entries/route.ts:34 | a missing title defaults to the video id, a missing date to `''`, a missing link to the watch URL of the id; the description is cleaned and the other fields are copied |
| ChannelEntries.Entries | src/app/api/channel-entries/route.ts:23-35 | there are never more entries than blocks |
| ChannelEntries.EntryOf | src/app/api/channel-entries/route.ts:34 | a block gives one entry iff its video id is non-empty |
| ChannelEntries.EntriesFromBlocks | src/app/api/channel-entries/route.ts:23-35 | every block with a video id gives an entry, and every entry comes from such a block |
| ChannelEntries.EntriesAll | src/app/api/channel-entries/route.ts:23-35 | there are as many entries as blocks iff every block has a video id |
| ChannelEntries.EntriesKeepAll | src/app/api/channel-entries/route.ts:23-35 | when every block has a video id no block is dropped |
| ChannelEntries.EntriesLoseOne | src/app/api/channel-entries/route.ts:34 | a block without a video id makes the list shorter than the feed |
| ChannelEntries.EntriesNone | src/app/api/channel-entries/route.ts:23-37 | the feed gives an empty list iff no block has a video id (when the API is then asked is stated by `ChannelEntries.Get`) |
| ChannelEntries.EntriesStep | src/app/api/channel-entries/route.ts:23-35 | one more block adds exactly that block's entry, at the end |
| ChannelEntries.CollectEntries | src/app/api/channel-entries/route.ts:20-35 | the `exec` loop pushes exactly the entries of the blocks with a video id, in feed order |
| ChannelEntries.ApiEntry | src/app/api/channel-entries/route.ts:73-81 | an API item's record has its video id, the watch link for it, the medium thumbnail or else the default one, and no duration |
| ChannelEntries.ApiEntries | src/app/api/channel-entries/route.ts:72-82 | the API list maps each item, in order |
| ChannelEntries.Get | src/app/api/channel-entries/route.ts:3-89 | 400 without a channel id; the feed's entries when there is at least one, with no API request; otherwise 502 without a key, else the channel and search requests with 502 `fetch_failed` on a non-ok answer, 502 `fetch_error` on a throw, and the mapped items under the API title or else the feed's |
| VideoStats.Ids | src/app/api/video-stats/route.ts:10 | every id kept is non-empty, trimmed and free of commas, and a string is kept iff it is the non-empty trim of some comma-separated piece |
| VideoStats.IdsStep | src/app/api/video-stats/route.ts:10 | the first comma piece contributes its trim (when non-empty) in front of the ids of the rest, so the order is kept |
| VideoStats.TrimmedHaveNoComma | src/app/api/video-stats/route.ts:10 | trimming and dropping empty pieces brings in no comma |
| VideoStats.IdsOfJoined | src/app/api/video-stats/route.ts:10 | a non-empty list of clean ids, joined with commas, is read back unchanged |
| VideoStats.Get | src/app/api/video-stats/route.ts:4-15 | the statistics are looked up, for exactly the parsed ids, iff there are between 1 and 50 of them; more than 50 is `max 50 ids`; every other refusal is `ids required` |
| Trending.Instances | src/app/api/invidious/trending/route.ts:3 | the instance list always has at least one entry |
| Trending.DefaultInstanceList | src/app/api/invidious/trending/route.ts:3 | without the variable the two default instances are tried, `yewtu.cafe` first |
| Trending.FirstAnswer | src/app/api/invidious/trending/route.ts:20-28 | the instance chosen is the first that answers: every earlier one failed, and none answers when none is chosen |
| Trending.TrendingRoute.constructor | src/app/api/invidious/trending/route.ts:3-5 | the route starts with an empty cache and the configured instances and time-to-live |
| Trending.TrendingRoute.Get | src/app/api/invidious/trending/route.ts:13-32 | a fresh cache entry answers with no request; otherwise the instances are tried in order up to the first that answers, whose body is cached and returned; when all fail, 503 with no items and the cache unchanged |
| Trending.CachedAnswerIsFresh | src/app/api/invidious/trending/route.ts:16-23 | an entry cached at one moment is still fresh at any later moment within the time-to-live |
| PrevNext.FindIndex | src/components/PrevNextClient.tsx:18 | `findIndex` gives the first position holding the current id, or -1 when none does |
| PrevNext.Effect | src/components/PrevNextClient.tsx:12-26 | nothing stored, or the id absent from the list, leaves the state as it was; otherwise `prev` is the element before the first occurrence iff there is one, and `next` the element after it iff there is one |
| PrevNext.RendersIffNeighbour | src/components/PrevNextClient.tsx:12-28 | from the initial state links are shown exactly when the current video is in a stored list of at least two videos |
| PrevNext.FirstOccurrenceWins | src/components/PrevNextClient.tsx:18-21 | the neighbours are those of the first occurrence, even when the id occurs again later |
| DateFormat.JsRem | src/utils/date.ts:4 | JavaScript's `%` by a positive divisor: the ordinary remainder for a non-negative dividend, and minus the remainder of its magnitude for a negative one |
| DateFormat.FormatJaShortDate | src/utils/date.ts:1-8 | a missing or empty ISO string gives the empty label |
| DateFormat.FormatJaShortDateTime | src/utils/date.ts:10-20 | a missing or empty ISO string gives the empty label |
| DateFormat.ShortDateLayout | src/utils/date.ts:1-8 | for a year not before 0 the label is `YY/MM/DD`: eight characters, two decimal digits each for the year modulo 100, the one-based month and the day |
| DateFormat.ShortDateTimeLayout | src/utils/date.ts:10-20 | the date-time label is the short date, a space and `hh:mm:ss`, seventeen characters, each field in two digits |
| Share.Input | src/app/share/route.ts:4-6 | the shared URL when it is non-empty, else the shared text, else empty; the same as the chain `(url or text) or ''` |
| Share.RedirectFor | src/app/share/route.ts:9-14 | a 302 to the root of the forwarded host (else the `host` header, else the default host) over the forwarded protocol (else `https`), with `input` set exactly when it is non-empty |
| Share.Post | src/app/share/route.ts:17-46 | a recognised body format redirects exactly as GET would with the fields read from the body; any other content type redirects without `input` |
| Share.ShareSelectsInput | src/app/share/route.ts:3-15 | the answer is always a 302 to the root, carrying `input` exactly when a non-empty URL or text was shared, the URL taking precedence |
| Share.HostFallback | src/app/share/route.ts:9-10 | without forwarding headers the target is `https` on the `host` header, or the default host |
| Actions.MakeRow | src/app/actions.ts:67-77 | a row carries the comment's id and the video's id, copies the text, author, avatar and the two timestamps from the snippet, and stores a missing like count as 0 |
| Actions.ReplyRows | src/app/actions.ts:80-97 | the replies give at most one row each |
| Actions.RowsWellFormed | src/app/actions.ts:62-98 | every row of a video's threads belongs to that video and has a non-empty id |
| Actions.ReplyRowsWellFormed | src/app/actions.ts:80-97 | every reply row belongs to the video and has a non-empty id |
| Actions.RowsWithinCapacity | src/app/actions.ts:62-98 | there are never more rows than top-level comments plus replies |
| Actions.RowsStep | src/app/actions.ts:62-98 | one more thread appends exactly that thread's rows |
| Actions.ReplyRowsStep | src/app/actions.ts:81-96 | one more reply appends its row iff it has a snippet and a non-empty id |
| Actions.FlattenThreads | src/app/actions.ts:60-98 | the nested loops push, thread by thread, the top-level row and then the reply rows, exactly as the flattening function lists them |
| Actions.SavedFor | src/app/actions.ts:55-116 | a video adds to the total only when its threads were read and the upsert succeeded; then it adds exactly its row count |
| Actions.TotalSavedSplits | src/app/actions.ts:54-117 | each video adds its own count whatever happened to the others: the total over two runs of videos is the sum of their totals |
| Actions.SaveVideo | src/app/actions.ts:55-116 | one loop iteration adds exactly what that video saved |
| Actions.FetchAndSaveComments | src/app/actions.ts:14-130 | an empty id fails before any lookup; a throwing lookup fails with its message; a missing playlist fails; no videos succeeds with count 0; otherwise success with the sum over the videos of what each saved |
| RssSeed.ChannelIds | scripts/fetch-rss-channels.js:15-25 | the channel list is never empty, and each id in it is non-empty, trimmed and free of commas and line breaks; when the variable lists ids they are exactly the non-empty trimmed pieces, otherwise the list is the built-in channel |
| RssSeed.Listed | scripts/fetch-rss-channels.js:17-19 | a value without a newline or comma lists nothing; otherwise a string is listed iff it is the non-empty trim of a piece between separator runs |
| RssSeed.SingleIdIgnored | scripts/fetch-rss-channels.js:15-25 | a value with no comma or newline, even one valid id, is ignored and the seed channel is used |
| RssSeed.ListReadBack | scripts/fetch-rss-channels.js:15-19 | two or more clean ids joined with commas are read back unchanged |
| RssSeed.WithId | scripts/fetch-rss-channels.js:36-41 | the filter keeps only entries with a non-empty video id |
| RssSeed.WithIdKeeps | scripts/fetch-rss-channels.js:36-41 | it keeps exactly those entries, and drops none iff every entry has an id |
| RssSeed.WithIdAppend | scripts/fetch-rss-channels.js:36-41 | filtering a concatenation concatenates the filtered parts, so kept entries stay in order |
| RssSeed.FetchFeed | scripts/fetch-rss-channels.js:27-43 | a feed is produced iff the fetch and parse succeeded, tagged with the channel asked for and holding the entries with a video id |
| RssSeed.Collected | scripts/fetch-rss-channels.js:45-57 | there are never more feeds than channels |
| RssSeed.CollectedSkipsFailures | scripts/fetch-rss-channels.js:47-55 | every channel that can be fetched is in the output and no other is: a failure skips that channel only |
| RssSeed.CollectFeeds | scripts/fetch-rss-channels.js:46-55 | `main`'s loop pushes exactly the feeds of the channels whose fetch succeeded, in list order |

## Left out
- Network, database and storage calls: `fetch` to YouTube, the Data API and Invidious; Supabase queries; IndexedDB, localStorage and sessionStorage. Each is a parameter holding its outcome, or an oracle function.
- Concurrency: every handler and every `await` chain runs alone. Two interleaved `logYouTubeQuota` calls, whose select could see each other's rows, are not modelled.
- Regular expressions over fetched documents are not modelled: the `<entry>` fields of the channel routes, the `<title>` of the RSS title lookup, and the XML parse of the seed script. What they extract is given as input. The regular expressions over the source's own strings are modelled as scans: the URL pattern of `linkify`, the cookie pattern, tag stripping, the numeric references and the channel-id patterns.
- JavaScript strings are UTF-16, but the model's strings are sequences of code points. Indices and lengths therefore count code points. `String.fromCodePoint` of a lone surrogate yields one UTF-16 unit in the source and U+FFFD in the model.
- `Date` parsing and the local-time getters of src/utils/date.ts are not modelled: the calendar fields are parameters. An invalid date, whose fields are NaN, is not covered, and neither are negative years (the layout lemmas assume a year of 0 or more).
- `new Date(published).getTime()` in the new-count route is an input, with None for a date that does not parse.
- Request headers are maps with lower-case keys. The case-insensitive lookup of `Headers.get` is not modelled.
- Numbers are exact integers, while JavaScript numbers are IEEE-754 doubles. Above 2^53 the results differ: `JsNumber.ParseInt` of a long digit string is exact where `parseInt` rounds, and the sums of `QuotaLedger` (the day total), `Actions.TotalSaved` and the millisecond timestamps of `ChannelNewCount` and `Trending` never lose units where `+` on doubles would. Real inputs stay far below 2^53.
- NaN sentiment scores are not modelled: a score is a real or missing.
- `JSON.parse` in `getFavorites` yielding something other than a list of strings (a number, an object) is not modelled. The stored slot is missing, unparsable, or a list.
- Request bodies hold strings only. A `channelId` (favourites POST) or `input` (resolve-channel) of another JSON type is not modelled. Nor is the unhandled error that `.trim()` raises on such an `input`. A body that is JSON `null` is not modelled either: reading `body.input` from it throws in resolve-channel.
- ResolveChannel.Handle: the title lookup `fetchChannelTitleFromRss` (the RSS `<title>`, `decodeHtml`, the Data API fallback) is an oracle from channel id to an optional title.
- Share: the serialisation and percent-encoding of `new URL(...).toString()` are not modelled. The target is kept as protocol, host, path and `input`. A host header that makes `new URL` throw, and a body that fails to parse, are not modelled. A multipart field holding a file is not modelled either.
- Trending.TrendingRoute.Get: one clock reading per request is used both for the freshness test and for the cache timestamp; the source reads `Date.now()` twice. The time-to-live is a constructor parameter (None for NaN): the `Number(...)` conversion of the environment value is not modelled.
- QuotaUsage.Get: the 500 `internal` answer is not modelled, because the day-total reader it calls is itself fail-open and is an oracle here.
- Actions.FetchAndSaveComments: the upsert of the `videos` table is not modelled, because its error is only logged. The messages are a datatype whose cases stand for the source's Japanese texts.
- Actions.FetchAndSaveComments: the comment-thread fetch and the comments upsert are oracles from video id to outcome, so two videos with the same id in one list get the same outcome; the source calls the network once per list element.
- ChannelsHome.Home.OnDrop: `setChannelsOrder` is not part of this model; its outcome is the `persistOk` input. The rejection that a failed write raises out of `onDrop` is modelled only by the state it leaves.
- ChannelsHome: the component's loading and reload effects, the title-resolution loop (only its selection filter is modelled), `removeChannel`, the test reset and the drag-start, drag-over and drag-end handlers are not modelled.
- PrevNext.Effect: `null` elements of the stored list are not modelled. One that `findIndex` reaches before the first match makes `x.id` throw, so the effect keeps its state. One right beside the match becomes a `null` neighbour, and later ones are never read. A `list` field that is truthy but not an array is not modelled either; `findIndex` then throws.
- VideosPage.SortBy: the in-place `Array.prototype.sort` is modelled by its result on a sequence, a stable insertion sort. The engine's own algorithm and the aliasing of `commentsByLevel` are not modelled.
- JsString.SplitRuns: its own contract states only the piece count and that pieces hold no separator. How the pieces sit in the input is stated by the lemmas `JsString.SplitRunsRestores` and `JsString.SplitRunsInner`.
- JsString.TrimmedNonEmpty: its own contract states the length bound and the shape of the kept pieces. Which pieces are kept, and in what order, is stated by the lemmas `JsString.TrimmedNonEmptyMembers` and `JsString.TrimmedNonEmptyAppend`.
- JsString.ReplaceAll: its own contract states only the length and the absent-character case. The replacement itself is stated by the lemmas `JsString.ReplaceAllSkips`, `JsString.ReplaceAllAt` and `JsString.ReplaceAllPasses`.
- Html.NamedPass: its own contract states only the length and the no-`&` case. The replacement of each of the five entities after `&amp;` is stated by `Html.NamedPassAt`. No lemma covers `&amp;` in general, beyond `Html.AmpLtInOnePass` and `Html.DoubleEncodedAmp`.
- ChannelEntries.MakeEntry: its contract states only the id; the field defaults are stated by the lemma `ChannelEntries.EntryDefaults`.
- React rendering is not modelled; only the state and the values that the components compute are. Timers and the `IntersectionObserver` are explicit events of `SaveVideoStats.Tracker`.
