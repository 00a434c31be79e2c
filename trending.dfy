/**
 * The Invidious trending proxy (src/app/api/invidious/trending/route.ts): a
 * module-level cache keyed by `trending:primary`, a time-to-live in seconds,
 * and an ordered list of instances tried one after the other.  The clock and
 * each instance's answer are inputs: `fetchOf(inst)` is the parsed body, or
 * None when the request failed or threw.
 */
module Trending {
  import opened Common
  import JsString

  /** The JSON body an instance answered with, kept as text. */
  type Body = string

  datatype Cached = Cached(ts: int, body: Body)

  datatype Response = Json(body: Body) | Unavailable(status: nat, error: string, items: seq<Body>)

  const CacheKey: string := "trending:primary"
  const DefaultInstances: string := "https://yewtu.cafe,https://yewtu.eu"
  /** `60 * 5` seconds. */
  const DefaultTtl: real := 300.0

  /** `(process.env.INVIDIOUS_INSTANCES || default).split(',')`. */
  function Instances(env: Option<string>): (list: seq<string>)
    ensures |list| >= 1
  {
    JsString.Split(OrElse(env, DefaultInstances), ',')
  }

  /** Without the variable the two default instances are tried, in that order. */
  lemma {:induction false} DefaultInstanceList(env: Option<string>)
    requires !Truthy(env)
    ensures Instances(env) == ["https://yewtu.cafe", "https://yewtu.eu"]
  {
    var parts := ["https://yewtu.cafe", "https://yewtu.eu"];
    assert JsString.Join(parts, ',') == DefaultInstances;
    JsString.SplitJoin(parts, ',');
  }

  /** `(now - ts) / 1000 < ttl`; a NaN time-to-live (None) never holds. */
  predicate Fresh(c: Cached, now: int, ttl: Option<real>) {
    ttl.Some? && (now - c.ts) as real / 1000.0 < ttl.value
  }

  /** The index of the first instance, from `k` on, that answers. */
  function FirstAnswer(instances: seq<string>, fetchOf: string -> Option<Body>, k: nat): (r: Option<nat>)
    requires k <= |instances|
    ensures r.Some? ==> k <= r.value < |instances| && fetchOf(instances[r.value]).Some?
    ensures r.Some? ==> forall j :: k <= j < r.value ==> fetchOf(instances[j]).None?
    ensures r.None? ==> forall j :: k <= j < |instances| ==> fetchOf(instances[j]).None?
    decreases |instances| - k
  {
    if k == |instances| then None
    else if fetchOf(instances[k]).Some? then Some(k)
    else FirstAnswer(instances, fetchOf, k + 1)
  }

  /** The route module's state: the cache map and the configuration read at load time. */
  class TrendingRoute {
    var cache: map<string, Cached>
    const instances: seq<string>
    const ttl: Option<real>

    constructor (instancesEnv: Option<string>, ttl: Option<real>)
      ensures cache == map[] && instances == Instances(instancesEnv) && this.ttl == ttl
    {
      cache := map[];
      instances := Instances(instancesEnv);
      this.ttl := ttl;
    }

    /**
     * `GET` at time `now`.  `tried` is the number of instances contacted.  A
     * fresh cache entry answers without contacting any; otherwise the first
     * instance to answer is cached at `now` and returned; when all fail the
     * answer is 503 with no items and the cache is as it was.
     */
    method Get(now: int, fetchOf: string -> Option<Body>) returns (r: Response, tried: nat)
      modifies this
      ensures CacheKey in old(cache) && Fresh(old(cache)[CacheKey], now, ttl) ==>
        r == Json(old(cache)[CacheKey].body) && tried == 0 && cache == old(cache)
      ensures !(CacheKey in old(cache) && Fresh(old(cache)[CacheKey], now, ttl)) ==>
        match FirstAnswer(instances, fetchOf, 0)
        case Some(i) =>
          var body := fetchOf(instances[i]).value;
          r == Json(body) && tried == i + 1 && cache == old(cache)[CacheKey := Cached(now, body)]
        case None =>
          r == Unavailable(503, "unavailable", []) && tried == |instances| && cache == old(cache)
    {
      if CacheKey in cache && Fresh(cache[CacheKey], now, ttl) {
        return Json(cache[CacheKey].body), 0;
      }
      tried := 0;
      for i := 0 to |instances|
        invariant tried == i && cache == old(cache)
        invariant FirstAnswer(instances, fetchOf, 0) == FirstAnswer(instances, fetchOf, i)
      {
        tried := tried + 1;
        var answer := fetchOf(instances[i]);
        if answer.Some? {
          cache := cache[CacheKey := Cached(now, answer.value)];
          return Json(answer.value), tried;
        }
      }
      r := Unavailable(503, "unavailable", []);
    }
  }

  /** Right after a success, asking again within the time-to-live answers from the cache. */
  lemma {:induction false} CachedAnswerIsFresh(now: int, later: int, ttl: Option<real>, body: Body)
    requires ttl.Some? && now <= later && (later - now) as real < ttl.value * 1000.0
    ensures Fresh(Cached(now, body), later, ttl)
  {
  }
}
