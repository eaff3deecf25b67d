/** The request ledger: a per-hour request counter and per-topic cooldown
    markers, both kept in the shared store under their own key prefixes. */
module RateLimiter {
  import opened Common
  import opened KeyStore
  import opened Forum

  const RATE_LIMIT_KEY: string := "ai_replier:rate_limit"
  const COOLDOWN_KEY_PREFIX: string := "ai_replier:cooldown:topic:"

  /** The hour the clock reading falls in (the source formats it as
      `%Y%m%d%H`; any rendering that is one-to-one in the hour will do). */
  function HourBucket(now: nat): nat { now / HOUR }

  function RateKeyOf(bucket: nat): string {
    RATE_LIMIT_KEY + ":" + Digits(bucket)
  }

  /** Key of the counter for the hour containing `now`. */
  function RateLimitKey(now: nat): string {
    RateKeyOf(HourBucket(now))
  }

  /** Key of a topic's cooldown marker. */
  function CooldownKey(topicId: int): string {
    COOLDOWN_KEY_PREFIX + IntToString(topicId)
  }

  /** Different hours count in different keys. */
  lemma RateKeysDistinct(a: nat, b: nat)
    requires HourBucket(a) != HourBucket(b)
    ensures RateLimitKey(a) != RateLimitKey(b)
  {
    var p := RATE_LIMIT_KEY + ":";
    if RateLimitKey(a) == RateLimitKey(b) {
      assert Digits(HourBucket(a)) == RateLimitKey(a)[|p|..] == RateLimitKey(b)[|p|..] == Digits(HourBucket(b));
      DigitsInjective(HourBucket(a), HourBucket(b));
    }
  }

  /** Different topics have different markers. */
  lemma CooldownKeysDistinct(a: int, b: int)
    requires a != b
    ensures CooldownKey(a) != CooldownKey(b)
  {
    var n := |COOLDOWN_KEY_PREFIX|;
    if CooldownKey(a) == CooldownKey(b) {
      assert IntToString(a) == CooldownKey(a)[n..] == CooldownKey(b)[n..] == IntToString(b);
      IntToStringInjective(a, b);
    }
  }

  /** No counter key carries the cooldown prefix: the two families of keys
      share only the "ai_replier:" namespace. */
  lemma RateKeyOutsideCooldowns(now: nat)
    ensures !(COOLDOWN_KEY_PREFIX <= RateLimitKey(now))
  {
    assert RateLimitKey(now)[11] == 'r';
  }

  // ---------------------------------------------------------------------
  // The hourly request counter

  /** `current_count`: the counter of the current hour, 0 when missing. */
  function CurrentCount(d: Data, now: nat): int {
    ToI(Get(d, RateLimitKey(now), now))
  }

  /** `can_make_request?`. */
  predicate CanMakeRequest(d: Data, cfg: Settings, now: nat) {
    CurrentCount(d, now) < cfg.rateLimitPerHour
  }

  /** The store after the `INCR` and one-hour `EXPIRE` of
      `increment_request_count!`. */
  function AfterIncrement(d: Data, now: nat): Data {
    var k := RateLimitKey(now);
    ExpireData(IncrData(d, k, now), k, HOUR, now)
  }

  /** `increment_request_count!`: raises `RateLimitExceeded` (and changes
      nothing) unless a request is admitted; otherwise counts it. */
  method IncrementRequestCount(redis: Redis, cfg: Settings, now: nat) returns (exceeded: bool)
    modifies redis
    ensures exceeded <==> !CanMakeRequest(old(redis.data), cfg, now)
    ensures redis.data == if exceeded then old(redis.data) else AfterIncrement(old(redis.data), now)
  {
    exceeded := !CanMakeRequest(redis.data, cfg, now);
    if exceeded {
      return;
    }
    var key := RateLimitKey(now);
    redis.Incr(key, now);
    redis.Expire(key, HOUR, now);
  }

  /** An increment raises the current hour's count by exactly one, keeps it
      for the rest of the hour, and touches neither other hours nor any
      cooldown marker. */
  lemma IncrementAddsOne(d: Data, now: nat)
    ensures CurrentCount(AfterIncrement(d, now), now) == CurrentCount(d, now) + 1
    ensures forall t: nat :: now <= t && HourBucket(t) == HourBucket(now) ==>
      CurrentCount(AfterIncrement(d, now), t) == CurrentCount(d, now) + 1
    ensures forall t: nat :: HourBucket(t) != HourBucket(now) ==>
      CurrentCount(AfterIncrement(d, now), t) == CurrentCount(d, t)
    ensures forall id, t :: InCooldown(AfterIncrement(d, now), id, t) == InCooldown(d, id, t)
  {
    var k := RateLimitKey(now);
    var d' := AfterIncrement(d, now);
    assert d'[k] == Entry(Int(CurrentCount(d, now) + 1), Some(now + HOUR));
    forall t: nat | HourBucket(t) != HourBucket(now)
      ensures CurrentCount(d', t) == CurrentCount(d, t)
    {
      RateKeysDistinct(t, now);
    }
    forall id, t ensures InCooldown(d', id, t) == InCooldown(d, id, t) {
      RateKeyOutsideCooldowns(now);
      assert CooldownKey(id) != k by {
        assert COOLDOWN_KEY_PREFIX <= CooldownKey(id);
      }
    }
  }

  /** The store after one admitted request at each instant of `ts`, in
      order. */
  function Spread(d: Data, ts: seq<nat>): Data {
    if ts == [] then d else AfterIncrement(Spread(d, ts[..|ts| - 1]), ts[|ts| - 1])
  }

  /** The instants of `ts` run forward and all fall in one hour. */
  predicate WithinOneHour(ts: seq<nat>) {
    (forall i, j :: 0 <= i <= j < |ts| ==> ts[i] <= ts[j])
    && (forall i :: 0 <= i < |ts| ==> HourBucket(ts[i]) == HourBucket(ts[0]))
  }

  /** Requests at successive instants of one hour each add one to the
      count, and the total holds at every later instant of that hour. */
  lemma {:induction false} SpreadCount(d: Data, ts: seq<nat>, t: nat)
    requires |ts| > 0 && WithinOneHour(ts)
    requires ts[|ts| - 1] <= t && HourBucket(t) == HourBucket(ts[0])
    ensures CurrentCount(Spread(d, ts), t) == CurrentCount(d, ts[0]) + |ts|
  {
    var n := |ts|;
    var prefix := ts[..n - 1];
    IncrementAddsOne(Spread(d, prefix), ts[n - 1]);
    if n > 1 {
      assert WithinOneHour(prefix);
      SpreadCount(d, prefix, ts[n - 1]);
    }
  }

  /** From an hour whose count is 0, each of `rate_limit_per_hour` requests
      made at successive instants is admitted at its own instant, and after
      them every request for the rest of that hour is refused. */
  lemma ExhaustedAfterMaxIncrements(d: Data, cfg: Settings, ts: seq<nat>)
    requires |ts| == cfg.rateLimitPerHour && WithinOneHour(ts)
    requires |ts| > 0 ==> CurrentCount(d, ts[0]) == 0
    ensures forall i :: 0 <= i < |ts| ==> CanMakeRequest(Spread(d, ts[..i]), cfg, ts[i])
    ensures |ts| > 0 ==> forall t: nat :: ts[|ts| - 1] <= t && HourBucket(t) == HourBucket(ts[0]) ==>
      !CanMakeRequest(Spread(d, ts), cfg, t)
  {
    forall i | 0 <= i < |ts|
      ensures CanMakeRequest(Spread(d, ts[..i]), cfg, ts[i])
    {
      if i > 0 {
        assert WithinOneHour(ts[..i]);
        SpreadCount(d, ts[..i], ts[i]);
      }
    }
    if |ts| > 0 {
      forall t: nat | ts[|ts| - 1] <= t && HourBucket(t) == HourBucket(ts[0])
        ensures !CanMakeRequest(Spread(d, ts), cfg, t)
      {
        SpreadCount(d, ts, t);
      }
    }
  }

  /** The store after `reset_rate_limit`. */
  function AfterReset(d: Data, now: nat): Data {
    d - {RateLimitKey(now)}
  }

  /** `reset_rate_limit`. */
  method ResetRateLimit(redis: Redis, now: nat)
    modifies redis
    ensures redis.data == AfterReset(old(redis.data), now)
  {
    redis.Del({RateLimitKey(now)});
  }

  /** A missing counter reads as 0, so after a reset the count is 0; the
      cooldown markers are untouched. */
  lemma ResetClearsCount(d: Data, now: nat)
    ensures CurrentCount(AfterReset(d, now), now) == 0
    ensures forall id, t :: InCooldown(AfterReset(d, now), id, t) == InCooldown(d, id, t)
  {
    forall id, t ensures InCooldown(AfterReset(d, now), id, t) == InCooldown(d, id, t) {
      RateKeyOutsideCooldowns(now);
      assert COOLDOWN_KEY_PREFIX <= CooldownKey(id);
    }
  }

  // ---------------------------------------------------------------------
  // Per-topic cooldown markers

  /** `topic_in_cooldown?`. */
  predicate InCooldown(d: Data, topicId: int, now: int) {
    Live(d, CooldownKey(topicId), now)
  }

  /** The marker's lifetime: `ai_replier_cooldown_hours` hours. */
  function CooldownSeconds(cfg: Settings): int {
    cfg.cooldownHours * HOUR
  }

  /** The store after `SETEX` of a topic's marker (holding the clock
      reading) for `secs` seconds. */
  function AfterSetCooldown(d: Data, topicId: int, secs: int, now: nat): Data
    requires secs > 0
  {
    SetExData(d, CooldownKey(topicId), secs, Int(now), now)
  }

  /** `set_topic_cooldown`: fails, changing nothing, when the configured
      lifetime is not positive (the store refuses such an expiry). */
  method SetTopicCooldown(redis: Redis, cfg: Settings, topicId: int, now: nat) returns (ok: bool)
    modifies redis
    ensures ok <==> CooldownSeconds(cfg) > 0
    ensures redis.data == if ok then AfterSetCooldown(old(redis.data), topicId, CooldownSeconds(cfg), now)
                          else old(redis.data)
  {
    ok := redis.SetEx(CooldownKey(topicId), CooldownSeconds(cfg), Int(now), now);
  }

  /** A marker set at `now` holds for exactly `secs` seconds, reports that
      many seconds remaining, and leaves other topics' markers and the
      request counter alone. */
  lemma SetCooldownEffect(d: Data, topicId: int, secs: int, now: nat)
    requires secs > 0
    ensures forall t :: now <= t < now + secs ==> InCooldown(AfterSetCooldown(d, topicId, secs, now), topicId, t)
    ensures forall t :: t >= now + secs ==> !InCooldown(AfterSetCooldown(d, topicId, secs, now), topicId, t)
    ensures CooldownRemaining(AfterSetCooldown(d, topicId, secs, now), topicId, now) == secs
    ensures forall other, t :: other != topicId ==>
      InCooldown(AfterSetCooldown(d, topicId, secs, now), other, t) == InCooldown(d, other, t)
    ensures forall t: nat :: CurrentCount(AfterSetCooldown(d, topicId, secs, now), t) == CurrentCount(d, t)
  {
    var d' := AfterSetCooldown(d, topicId, secs, now);
    forall other, t | other != topicId
      ensures InCooldown(d', other, t) == InCooldown(d, other, t)
    {
      CooldownKeysDistinct(other, topicId);
    }
    forall t: nat ensures CurrentCount(d', t) == CurrentCount(d, t) {
      RateKeyOutsideCooldowns(t);
    }
  }

  /** The store after `clear_topic_cooldown`. */
  function AfterClearCooldown(d: Data, topicId: int): Data {
    d - {CooldownKey(topicId)}
  }

  /** `clear_topic_cooldown`. */
  method ClearTopicCooldown(redis: Redis, topicId: int)
    modifies redis
    ensures redis.data == AfterClearCooldown(old(redis.data), topicId)
  {
    redis.Del({CooldownKey(topicId)});
  }

  /** After clearing, the topic is out of cooldown; other topics' markers
      and the request counter are unchanged. */
  lemma ClearCooldownEffect(d: Data, topicId: int)
    ensures forall t :: !InCooldown(AfterClearCooldown(d, topicId), topicId, t)
    ensures forall other, t :: other != topicId ==>
      InCooldown(AfterClearCooldown(d, topicId), other, t) == InCooldown(d, other, t)
    ensures forall t: nat :: CurrentCount(AfterClearCooldown(d, topicId), t) == CurrentCount(d, t)
  {
    forall other, t | other != topicId
      ensures InCooldown(AfterClearCooldown(d, topicId), other, t) == InCooldown(d, other, t)
    {
      CooldownKeysDistinct(other, topicId);
    }
    forall t: nat ensures CurrentCount(AfterClearCooldown(d, topicId), t) == CurrentCount(d, t) {
      RateKeyOutsideCooldowns(t);
    }
  }

  /** The live keys a `KEYS ai_replier:cooldown:topic:*` scan returns. */
  function CooldownKeys(d: Data, now: int): set<string> {
    set k | k in d && COOLDOWN_KEY_PREFIX <= k && Live(d, k, now)
  }

  /** The store after `clear_all_cooldowns`. */
  function AfterClearAll(d: Data, now: int): Data {
    d - CooldownKeys(d, now)
  }

  /** `clear_all_cooldowns`: delete every key the scan returns. */
  method ClearAllCooldowns(redis: Redis, now: nat)
    modifies redis
    ensures redis.data == AfterClearAll(old(redis.data), now)
  {
    var keys := CooldownKeys(redis.data, now);
    if keys != {} {
      redis.Del(keys);
    }
  }

  /** Clearing all markers leaves no topic in cooldown from then on, and
      keeps every key outside the cooldown prefix, the request counters
      included. */
  lemma ClearAllEffect(d: Data, now: nat)
    ensures forall id, t :: t >= now ==> !InCooldown(AfterClearAll(d, now), id, t)
    ensures forall k :: !(COOLDOWN_KEY_PREFIX <= k) ==>
      (k in AfterClearAll(d, now) <==> k in d) &&
      (k in d ==> AfterClearAll(d, now)[k] == d[k])
    ensures forall t: nat :: CurrentCount(AfterClearAll(d, now), t) == CurrentCount(d, t)
  {
    var d' := AfterClearAll(d, now);
    forall id, t | t >= now ensures !InCooldown(d', id, t) {
      assert COOLDOWN_KEY_PREFIX <= CooldownKey(id);
    }
    forall t: nat ensures CurrentCount(d', t) == CurrentCount(d, t) {
      RateKeyOutsideCooldowns(t);
    }
  }

  /** `cooldown_remaining`: the marker's TTL when positive, else 0. */
  function CooldownRemaining(d: Data, topicId: int, now: int): (r: int)
    ensures r >= 0
    ensures r > 0 ==> InCooldown(d, topicId, now)
    ensures !InCooldown(d, topicId, now) ==> r == 0
  {
    var ttl := Ttl(d, CooldownKey(topicId), now);
    if ttl > 0 then ttl else 0
  }

  // ---------------------------------------------------------------------
  // Statistics

  datatype RateStats = RateStats(
    currentHourCount: int,
    maxPerHour: int,
    remainingRequests: int,
    cooldownTopics: nat)

  /** `stats`. */
  function Stats(d: Data, cfg: Settings, now: nat): (s: RateStats)
    ensures s.remainingRequests >= 0
    ensures s.remainingRequests >= cfg.rateLimitPerHour - CurrentCount(d, now)
    ensures s.remainingRequests == 0 || s.remainingRequests == cfg.rateLimitPerHour - CurrentCount(d, now)
    ensures s.remainingRequests > 0 <==> CanMakeRequest(d, cfg, now)
    ensures s.cooldownTopics == |CooldownKeys(d, now)|
  {
    var count := CurrentCount(d, now);
    var max := cfg.rateLimitPerHour;
    RateStats(count, max, if max - count > 0 then max - count else 0, |CooldownKeys(d, now)|)
  }

  /** No ledger operation stores a negative integer. */
  lemma LedgerKeepsIntsNonNegative(d: Data, topicId: int, secs: int, now: nat)
    requires IntsNonNegative(d)
    ensures IntsNonNegative(AfterIncrement(d, now))
    ensures secs > 0 ==> IntsNonNegative(AfterSetCooldown(d, topicId, secs, now))
    ensures IntsNonNegative(AfterReset(d, now))
    ensures IntsNonNegative(AfterClearCooldown(d, topicId))
    ensures IntsNonNegative(AfterClearAll(d, now))
  {
    IncrKeepsIntsNonNegative(d, RateLimitKey(now), now);
    ExpireKeepsIntsNonNegative(IncrData(d, RateLimitKey(now), now), RateLimitKey(now), HOUR, now);
  }
}
