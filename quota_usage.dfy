/**
 * The quota usage endpoint (src/app/api/quota-usage/route.ts): the caller's
 * IP from the proxy headers, that IP's total for the current aggregation day,
 * and the two thresholds.  The day total is an oracle from IP to units (the
 * fail-open reader of the quota ledger); `NODE_ENV` is a flag.
 */
module QuotaUsage {
  import opened Common
  import JsString
  import QuotaLedger

  /** `x-forwarded-for || x-real-ip || cf-connecting-ip || undefined`: the first non-empty header. */
  function ChosenHeader(h: QuotaLedger.Headers): (v: Option<string>)
    ensures v.Some? ==> v.value != ""
    ensures v.None? <==> (QuotaLedger.Header(h, "x-forwarded-for").None? &&
      QuotaLedger.Header(h, "x-real-ip").None? && QuotaLedger.Header(h, "cf-connecting-ip").None?)
  {
    FirstTruthy(QuotaLedger.Header(h, "x-forwarded-for"),
      FirstTruthy(QuotaLedger.Header(h, "x-real-ip"), QuotaLedger.Header(h, "cf-connecting-ip")))
  }

  /**
   * `ipHeader.split(',')[0].trim()`, applied to whichever header was chosen;
   * an empty token is as good as no IP.  A found IP is the chosen header's
   * text before its first comma, trimmed: non-empty, with no comma and no
   * surrounding white space.
   */
  function ClientIp(h: QuotaLedger.Headers): (ip: Option<string>)
    ensures ip.Some? ==> (ChosenHeader(h).Some? &&
      ip.value == JsString.Trim(JsString.BeforeFirst(ChosenHeader(h).value, ',')))
    ensures ip.Some? ==> ip.value != "" && ',' !in ip.value && JsString.IsTrimmed(ip.value)
    ensures ip.None? <==> (ChosenHeader(h).None? ||
      JsString.Trim(JsString.BeforeFirst(ChosenHeader(h).value, ',')) == "")
  {
    match ChosenHeader(h)
    case None => None
    case Some(v) =>
      var token := JsString.Trim(JsString.Split(v, ',')[0]);
      JsString.SplitHead(v, ',');
      JsString.TrimIdentity(JsString.BeforeFirst(v, ','));
      if token == "" then None else Some(token)
  }

  /**
   * Where `x-forwarded-for` gives a usable first token, this route and the
   * quota logger agree on the IP.  When it is present but its first token
   * trims to nothing, this route has no IP while the logger falls through to
   * the other two headers.
   */
  lemma {:induction false} AgreesWithLogger(h: QuotaLedger.Headers)
    ensures Truthy(QuotaLedger.ForwardedFirst(h)) ==> ClientIp(h) == QuotaLedger.HeaderIp(h)
    ensures QuotaLedger.Header(h, "x-forwarded-for").Some? && !Truthy(QuotaLedger.ForwardedFirst(h)) ==>
      ClientIp(h).None? &&
      QuotaLedger.HeaderIp(h) == FirstTruthy(QuotaLedger.Header(h, "x-real-ip"), QuotaLedger.Header(h, "cf-connecting-ip"))
  {
    if QuotaLedger.Header(h, "x-forwarded-for").Some? {
      JsString.SplitHead(h["x-forwarded-for"], ',');
    }
  }

  /** `x-real-ip: "a, b"` alone: this route answers for `a`, the logger records `a, b`. */
  lemma {:induction false} OtherHeadersDiffer()
    ensures ClientIp(map["x-real-ip" := "a, b"]) == Some("a")
    ensures QuotaLedger.HeaderIp(map["x-real-ip" := "a, b"]) == Some("a, b")
  {
    var h := map["x-real-ip" := "a, b"];
    assert "x-forwarded-for" !in h && "cf-connecting-ip" !in h;
    assert QuotaLedger.ForwardedFirst(h).None?;
    assert QuotaLedger.Header(h, "x-real-ip") == Some("a, b");
    assert ChosenHeader(h) == Some("a, b");
    FirstTokenOfPair();
  }

  /** The first token of `"a, b"`, trimmed, is `"a"`. */
  lemma {:induction false} FirstTokenOfPair()
    ensures JsString.Trim(JsString.BeforeFirst("a, b", ',')) == "a"
  {
    assert JsString.BeforeFirst("a, b", ',') == "a" by {
      assert "a, b"[1..] == ", b";
      assert JsString.BeforeFirst(", b", ',') == "";
    }
    JsString.TrimIdentity("a");
  }

  datatype Body =
    | ErrorBody(error: string)
    | UsageBody(total: int, warnThreshold: Option<int>, errorThreshold: Option<int>, clientIp: Option<string>)

  datatype Response = Response(status: nat, body: Body)

  /**
   * `GET`: 400 `no-ip` without an IP; otherwise the IP's total, the thresholds
   * from `YT_QUOTA_WARN_PER_IP` and `YT_QUOTA_ERROR_PER_IP` (NaN is None), and
   * the IP itself only in development.
   */
  function Get(h: QuotaLedger.Headers, totalOf: string -> int, warnEnv: Option<string>, errorEnv: Option<string>,
               isDevelopment: bool): (r: Response)
    ensures r.status == 400 <==> ClientIp(h).None?
    ensures r.status == 400 ==> r.body == ErrorBody("no-ip")
    ensures r.status != 400 ==> r.status == 200 && r.body.UsageBody?
    ensures r.body.UsageBody? ==> r.body.total == totalOf(ClientIp(h).value)
    ensures r.body.UsageBody? ==>
      r.body.warnThreshold == QuotaLedger.Threshold(warnEnv, QuotaLedger.WarnDefault) &&
      r.body.errorThreshold == QuotaLedger.Threshold(errorEnv, QuotaLedger.ErrorDefault)
    ensures r.body.UsageBody? ==> (r.body.clientIp.Some? <==> isDevelopment)
    ensures r.body.UsageBody? && isDevelopment ==> r.body.clientIp == ClientIp(h)
  {
    match ClientIp(h)
    case None => Response(400, ErrorBody("no-ip"))
    case Some(ip) =>
      var warn := QuotaLedger.Threshold(warnEnv, QuotaLedger.WarnDefault);
      var err := QuotaLedger.Threshold(errorEnv, QuotaLedger.ErrorDefault);
      Response(200, UsageBody(totalOf(ip), warn, err, if isDevelopment then Some(ip) else None))
  }

  /** Without the two variables the thresholds reported are 1000 and 5000. */
  lemma {:induction false} DefaultThresholds(h: QuotaLedger.Headers, totalOf: string -> int, isDevelopment: bool)
    requires ClientIp(h).Some?
    ensures Get(h, totalOf, None, None, isDevelopment).body.warnThreshold == Some(1000)
    ensures Get(h, totalOf, None, None, isDevelopment).body.errorThreshold == Some(5000)
  {
    QuotaLedger.ThresholdDefaults(None);
  }
}
