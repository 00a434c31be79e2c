// The YouTube quota ledger of src/utils/supabase/serverClient.ts: every API call appends a row
// to `youtube_quota_logs`, the rows of one aggregation day and one client IP are summed, and
// the sum is compared with a warn and an error threshold.  The Supabase table is a `seq` of
// rows; what the database answers to each insert and select is given as an outcome parameter.

module QuotaLedger {
  import opened Common
  import JsString
  import JsNumber
  import JstDay

  /** The `details` column: what the caller passed, or the marker's `{ ip, total, threshold }`. */
  datatype Details = NoDetails | CallerDetails(json: string) | MarkerDetails(ip: string, total: int, threshold: int)

  /** One row of `youtube_quota_logs`; `units` and `client_ip` may be null. */
  datatype Row = Row(date: string, kind: string, units: Option<int>, details: Details, clientIp: Option<string>)

  /** The header list of the request, keys in lower case; `headers()` may throw instead. */
  type Headers = map<string, string>

  /** What an `insert` turned out to be: stored, answered with an error object, or thrown. */
  datatype InsertOutcome = Stored | Rejected | Threw(reason: string)

  /** What a `select` turned out to be: the matching rows, an error object, or a throw. */
  datatype ReadOutcome = ReadOk | ReadRejected | ReadThrew(reason: string)

  /** The object `logYouTubeQuota` resolves to. */
  datatype QuotaStatus =
    | Noop
    | Logged
    | Ok(total: int)
    | Warn(total: int, threshold: int)
    | Error(total: int, threshold: int)
    | Failed(reason: string)

  /** The outcome of comparing a total with the two thresholds. */
  datatype Verdict = Fine | OverWarn(threshold: int) | OverError(threshold: int)

  /** The per-IP defaults, 1000 and 5000 units, and the strings `||` falls back to. */
  const WarnLimit: nat := 1000
  const ErrorLimit: nat := 5000
  const WarnDefault: string := JsNumber.NumberToString(WarnLimit)
  const ErrorDefault: string := JsNumber.NumberToString(ErrorLimit)
  const ErrorMarker: string := "quota.error"
  const WarnMarker: string := "quota.warn"

  // ---------------------------------------------------------------- selecting and summing

  /** `r?.units || 0`. */
  function UnitsOf(r: Row): int {
    match r.units
    case Some(u) => u
    case None => 0
  }

  predicate OnDayForIp(r: Row, day: string, ip: string) {
    r.date == day && r.clientIp == Some(ip)
  }

  /** The rows that `.eq('date', day).eq('client_ip', ip)` selects, in table order. */
  function SelectByIp(rows: seq<Row>, day: string, ip: string): (sel: seq<Row>)
    ensures |sel| <= |rows|
    ensures forall r :: r in sel <==> r in rows && OnDayForIp(r, day, ip)
  {
    if rows == [] then []
    else
      var init := SelectByIp(rows[..|rows| - 1], day, ip);
      var last := rows[|rows| - 1];
      assert rows == rows[..|rows| - 1] + [last];
      if OnDayForIp(last, day, ip) then init + [last] else init
  }

  /** The rows that `.eq('date', day)` selects, in table order. */
  function SelectByDay(rows: seq<Row>, day: string): (sel: seq<Row>)
    ensures |sel| <= |rows|
    ensures forall r :: r in sel <==> r in rows && r.date == day
  {
    if rows == [] then []
    else
      var init := SelectByDay(rows[..|rows| - 1], day);
      var last := rows[|rows| - 1];
      assert rows == rows[..|rows| - 1] + [last];
      if last.date == day then init + [last] else init
  }

  /** The `reduce((s, r) => s + (r?.units || 0), 0)` over selected rows. */
  function Total(rows: seq<Row>): int {
    if rows == [] then 0 else Total(rows[..|rows| - 1]) + UnitsOf(rows[|rows| - 1])
  }

  function SumForIp(rows: seq<Row>, day: string, ip: string): int {
    Total(SelectByIp(rows, day, ip))
  }

  function SumForDay(rows: seq<Row>, day: string): int {
    Total(SelectByDay(rows, day))
  }

  predicate NonNegativeUnits(rows: seq<Row>) {
    forall k :: 0 <= k < |rows| ==> UnitsOf(rows[k]) >= 0
  }

  /** Appending a row adds its units to the per-IP total exactly when it is that IP's row of
      that day; so a zero-unit marker row never changes any total. */
  lemma {:induction false} SumForIpAppend(rows: seq<Row>, r: Row, day: string, ip: string)
    ensures SumForIp(rows + [r], day, ip) == SumForIp(rows, day, ip) + (if OnDayForIp(r, day, ip) then UnitsOf(r) else 0)
  {
    var all := rows + [r];
    assert all[..|all| - 1] == rows;
    var sel := SelectByIp(rows, day, ip);
    if OnDayForIp(r, day, ip) {
      assert (sel + [r])[..|sel|] == sel;
    }
  }

  /** The same for the global total of the day. */
  lemma {:induction false} SumForDayAppend(rows: seq<Row>, r: Row, day: string)
    ensures SumForDay(rows + [r], day) == SumForDay(rows, day) + (if r.date == day then UnitsOf(r) else 0)
  {
    var all := rows + [r];
    assert all[..|all| - 1] == rows;
    var sel := SelectByDay(rows, day);
    if r.date == day {
      assert (sel + [r])[..|sel|] == sel;
    }
  }

  /** Rows of other days never count toward a day's totals. */
  lemma {:induction false} OtherDaysIgnored(rows: seq<Row>, day: string, ip: string)
    requires forall k :: 0 <= k < |rows| ==> rows[k].date != day
    ensures SumForIp(rows, day, ip) == 0 && SumForDay(rows, day) == 0
  {
    if rows != [] {
      OtherDaysIgnored(rows[..|rows| - 1], day, ip);
    }
  }

  /** With non-negative units, one IP's total never exceeds the day's global total. */
  lemma {:induction false} SumForIpAtMostDay(rows: seq<Row>, day: string, ip: string)
    requires NonNegativeUnits(rows)
    ensures 0 <= SumForIp(rows, day, ip) <= SumForDay(rows, day)
  {
    if rows != [] {
      var init := rows[..|rows| - 1];
      var r := rows[|rows| - 1];
      assert rows == init + [r];
      SumForIpAtMostDay(init, day, ip);
      SumForIpAppend(init, r, day, ip);
      SumForDayAppend(init, r, day);
    }
  }

  // ---------------------------------------------------------------- the client IP

  /** `headersList.get(name)` where an empty value is as good as none for `||`. */
  function Header(h: Headers, name: string): Option<string> {
    if name in h && h[name] != "" then Some(h[name]) else None
  }

  /** `x-forwarded-for?.split(',')[0]?.trim()`. */
  function ForwardedFirst(h: Headers): Option<string> {
    if "x-forwarded-for" in h then Some(JsString.Trim(JsString.Split(h["x-forwarded-for"], ',')[0])) else None
  }

  /** The header fallback of logYouTubeQuota: only `x-forwarded-for` is split and trimmed;
      `x-real-ip` and `cf-connecting-ip` are taken as they are. */
  function HeaderIp(h: Headers): (ip: Option<string>)
    ensures ip.Some? ==> ip.value != ""
    ensures Truthy(ForwardedFirst(h)) ==>
      ip == Some(JsString.Trim(JsString.BeforeFirst(h["x-forwarded-for"], ',')))
      && JsString.IsTrimmed(ip.value) && ',' !in ip.value
    ensures !Truthy(ForwardedFirst(h)) ==> ip == FirstTruthy(Header(h, "x-real-ip"), Header(h, "cf-connecting-ip"))
    ensures ip.None? <==> !Truthy(ForwardedFirst(h)) && !("x-real-ip" in h && h["x-real-ip"] != "") && !("cf-connecting-ip" in h && h["cf-connecting-ip"] != "")
  {
    var xff := ForwardedFirst(h);
    if Truthy(xff) then
      var v := h["x-forwarded-for"];
      var first := JsString.Split(v, ',')[0];
      JsString.SplitHead(v, ',');
      JsString.TrimIdentity(first);
      xff
    else FirstTruthy(Header(h, "x-real-ip"), Header(h, "cf-connecting-ip"))
  }

  /** `let ip = clientIp; if (!ip) { try { ip = <header fallback> } catch {} }`:
      `hdrs` is None when `headers()` threw, and then `ip` keeps the caller's value. */
  function ResolveIp(clientIp: Option<string>, hdrs: Option<Headers>): (ip: Option<string>)
    ensures Truthy(clientIp) ==> ip == clientIp
    ensures !Truthy(clientIp) && hdrs.Some? ==> ip == HeaderIp(hdrs.value)
    ensures hdrs.None? ==> ip == clientIp
  {
    if Truthy(clientIp) then clientIp
    else match hdrs
      case None => clientIp
      case Some(h) => HeaderIp(h)
  }

  // ---------------------------------------------------------------- thresholds

  /** `parseInt(process.env.X || default, 10)`; None is NaN. */
  function Threshold(env: Option<string>, default: string): Option<int> {
    JsNumber.ParseInt(OrElse(env, default), 10)
  }

  /** An unset or empty variable falls back to the written-out number, which parses back. */
  lemma {:induction false} ThresholdOfDefault(env: Option<string>, n: nat)
    requires !Truthy(env)
    ensures Threshold(env, JsNumber.NumberToString(n)) == Some(n)
  {
    JsNumber.ParseIntOfString(n);
  }

  lemma {:induction false} DefaultStrings()
    ensures WarnDefault == "1000" && ErrorDefault == "5000"
  {
  }

  /** So without the variables the thresholds are 1000 and 5000. */
  lemma {:induction false} ThresholdDefaults(env: Option<string>)
    requires !Truthy(env)
    ensures Threshold(env, WarnDefault) == Some(WarnLimit)
    ensures Threshold(env, ErrorDefault) == Some(ErrorLimit)
  {
    ThresholdOfDefault(env, WarnLimit);
    ThresholdOfDefault(env, ErrorLimit);
  }

  /** The error threshold is checked first; a NaN threshold never fires (`total >= NaN` is
      false); the boundary itself is over. */
  function Classify(total: int, warn: Option<int>, err: Option<int>): (v: Verdict)
    ensures v.OverError? <==> err.Some? && total >= err.value
    ensures v.OverError? ==> v.threshold == err.value
    ensures v.OverWarn? <==> !(err.Some? && total >= err.value) && warn.Some? && total >= warn.value
    ensures v.OverWarn? ==> v.threshold == warn.value
  {
    if err.Some? && total >= err.value then OverError(err.value)
    else if warn.Some? && total >= warn.value then OverWarn(warn.value)
    else Fine
  }

  function Severity(v: Verdict): nat {
    match v
    case Fine => 0
    case OverWarn(_) => 1
    case OverError(_) => 2
  }

  /** A larger total never gets a milder verdict, whatever the two thresholds are. */
  lemma {:induction false} ClassifyMonotone(t1: int, t2: int, warn: Option<int>, err: Option<int>)
    requires t1 <= t2
    ensures Severity(Classify(t1, warn, err)) <= Severity(Classify(t2, warn, err))
  {
  }

  /** With the default thresholds: 999 is fine, 1000 warns, 4999 warns, 5000 is an error. */
  lemma {:induction false} DefaultBands()
    ensures Classify(999, Some(1000), Some(5000)) == Fine
    ensures Classify(1000, Some(1000), Some(5000)) == OverWarn(1000)
    ensures Classify(4999, Some(1000), Some(5000)) == OverWarn(1000)
    ensures Classify(5000, Some(1000), Some(5000)) == OverError(5000)
  {
  }

  /** The status returned for a total and its verdict. */
  function StatusOf(total: int, v: Verdict): (s: QuotaStatus)
    ensures s.Ok? || s.Warn? || s.Error?
    ensures s.total == total
    ensures v.Fine? <==> s.Ok?
    ensures v.OverWarn? <==> s.Warn?
    ensures v.OverError? <==> s.Error?
    ensures !v.Fine? ==> !s.Ok? && s.threshold == v.threshold
  {
    match v
    case Fine => Ok(total)
    case OverWarn(th) => Warn(total, th)
    case OverError(th) => Error(total, th)
  }

  /** The zero-unit marker row inserted on `warn` and `error`. */
  function MarkerRow(day: string, ip: string, total: int, v: Verdict): (r: Row)
    requires !v.Fine?
    ensures UnitsOf(r) == 0 && OnDayForIp(r, day, ip)
    ensures r.kind == (if v.OverError? then ErrorMarker else WarnMarker)
  {
    Row(day, if v.OverError? then ErrorMarker else WarnMarker, Some(0), MarkerDetails(ip, total, v.threshold), Some(ip))
  }

  function AppendIf(rows: seq<Row>, r: Row, outcome: InsertOutcome): seq<Row> {
    if outcome.Stored? then rows + [r] else rows
  }

  // ---------------------------------------------------------------- the ledger

  class QuotaStore {
    /** Whether SUPABASE_URL and SUPABASE_SERVICE_ROLE_KEY were both set at load time. */
    const configured: bool
    var rows: seq<Row>

    constructor (configured: bool, rows: seq<Row>)
      ensures this.configured == configured && this.rows == rows
    {
      this.configured := configured;
      this.rows := rows;
    }

    /** logYouTubeQuota(type, units, details, clientIp) at instant `now`, with the database's
        answers to the insert, the select and the marker insert given as outcomes. */
    method LogYouTubeQuota(kind: string, units: Option<int>, details: Details, clientIp: Option<string>,
                           hdrs: Option<Headers>, now: int, warnEnv: Option<string>, errorEnv: Option<string>,
                           insert: InsertOutcome, read: ReadOutcome, markerInsert: InsertOutcome)
      returns (status: QuotaStatus)
      requires JstDay.IsTimeValue(now)
      modifies this
      ensures !configured ==> status == Noop && rows == old(rows)
      ensures configured && insert.Threw? ==> status == Failed(insert.reason) && rows == old(rows)
      ensures configured && !insert.Threw? ==>
        var today := JstDay.AggregationDate(now);
        var ip := ResolveIp(clientIp, hdrs);
        var logged := AppendIf(old(rows), Row(today, kind, Some(units.GetOr(1)), details, ip), insert);
        if !Truthy(ip) then status == Logged && rows == logged
        else match read
          case ReadRejected => status == Logged && rows == logged
          case ReadThrew(e) => status == Failed(e) && rows == logged
          case ReadOk =>
            var total := SumForIp(logged, today, ip.value);
            var v := Classify(total, Threshold(warnEnv, WarnDefault), Threshold(errorEnv, ErrorDefault));
            status == StatusOf(total, v)
            && rows == (if v.Fine? then logged else AppendIf(logged, MarkerRow(today, ip.value, total, v), markerInsert))
    {
      if !configured {
        return Noop;
      }
      var ip := ResolveIp(clientIp, hdrs);
      var today := JstDay.AggregationDate(now);
      if insert.Threw? {
        return Failed(insert.reason);
      }
      rows := AppendIf(rows, Row(today, kind, Some(units.GetOr(1)), details, ip), insert);
      if !Truthy(ip) {
        return Logged;
      }
      match read {
        case ReadRejected => return Logged;
        case ReadThrew(e) => return Failed(e);
        case ReadOk =>
      }
      var total := SumForIp(rows, today, ip.value);
      var verdict := Classify(total, Threshold(warnEnv, WarnDefault), Threshold(errorEnv, ErrorDefault));
      if !verdict.Fine? {
        // the marker insert's own failure is caught and only logged
        rows := AppendIf(rows, MarkerRow(today, ip.value, total, verdict), markerInsert);
      }
      return StatusOf(total, verdict);
    }

    /** getDailyQuotaTotalByIp(clientIp) at instant `now`: 0 when unconfigured or on failure. */
    function DailyTotalByIp(clientIp: string, now: int, read: ReadOutcome): (total: int)
      requires JstDay.IsTimeValue(now)
      reads this
      ensures !configured || !read.ReadOk? ==> total == 0
      ensures NonNegativeUnits(rows) ==> total >= 0
    {
      if !configured || !read.ReadOk? then 0
      else
        var today := JstDay.AggregationDate(now);
        var total := SumForIp(rows, today, clientIp);
        assert NonNegativeUnits(rows) ==> total >= 0 by {
          if NonNegativeUnits(rows) {
            SumForIpAtMostDay(rows, today, clientIp);
          }
        }
        total
    }

    /** getDailyQuotaTotalGlobal() at instant `now`: 0 when unconfigured or on failure. */
    function DailyTotalGlobal(now: int, read: ReadOutcome): (total: int)
      requires JstDay.IsTimeValue(now)
      reads this
      ensures !configured || !read.ReadOk? ==> total == 0
      ensures configured && read.ReadOk? && NonNegativeUnits(rows) ==> forall ip :: DailyTotalByIp(ip, now, read) <= total
    {
      if !configured || !read.ReadOk? then 0
      else
        var today := JstDay.AggregationDate(now);
        assert NonNegativeUnits(rows) ==> forall ip :: SumForIp(rows, today, ip) <= SumForDay(rows, today) by {
          if NonNegativeUnits(rows) {
            forall ip {
              SumForIpAtMostDay(rows, today, ip);
            }
          }
        }
        SumForDay(rows, today)
    }
  }

  // ---------------------------------------------------------------- facts about one call

  /** A stored call with an IP adds exactly its units to that IP's total of the day, and
      the marker row that may follow adds nothing. */
  lemma {:induction false} LoggedCallCounts(rows: seq<Row>, today: string, kind: string, units: int, details: Details, ip: string, v: Verdict)
    requires !v.Fine?
    ensures var logged := rows + [Row(today, kind, Some(units), details, Some(ip))];
      SumForIp(logged, today, ip) == SumForIp(rows, today, ip) + units
      && SumForIp(logged + [MarkerRow(today, ip, SumForIp(logged, today, ip), v)], today, ip) == SumForIp(logged, today, ip)
  {
    var logged := rows + [Row(today, kind, Some(units), details, Some(ip))];
    SumForIpAppend(rows, Row(today, kind, Some(units), details, Some(ip)), today, ip);
    SumForIpAppend(logged, MarkerRow(today, ip, SumForIp(logged, today, ip), v), today, ip);
  }
}
