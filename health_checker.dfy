/** The health monitor: readiness, per-category per-day success and failure
    counters, a short-lived record of error messages, the reply success rate
    and the list of configuration problems. */
module HealthChecker {
  import opened Common
  import opened KeyStore
  import opened Forum
  import RateLimiter

  /** The categories outcomes are counted under (the source's symbols). */
  datatype Operation =
    | Reply | ApiRequest | ApiAuth | ApiRateLimit | ApiServer | ApiNetwork
    | JobReply | JobSelector

  function OperationName(op: Operation): (s: string)
    ensures ':' !in s
  {
    match op
    case Reply => "reply"
    case ApiRequest => "api_request"
    case ApiAuth => "api_auth"
    case ApiRateLimit => "api_rate_limit"
    case ApiServer => "api_server"
    case ApiNetwork => "api_network"
    case JobReply => "job_reply"
    case JobSelector => "job_selector"
  }

  lemma OperationNameInjective(a: Operation, b: Operation)
    requires OperationName(a) == OperationName(b)
    ensures a == b
  {
  }

  datatype Outcome = Success | Failure

  function OutcomeName(k: Outcome): (s: string)
    ensures ':' !in s
  {
    match k
    case Success => "success"
    case Failure => "failure"
  }

  const STATS_PREFIX: string := "ai_replier:stats:"
  const ERRORS_PREFIX: string := "ai_replier:errors:"
  const WEEK: nat := 7 * DAY

  /** `Date.current`, as a day number. */
  function Today(now: nat): nat { now / DAY }

  /** Key of the (outcome, category, day) counter. */
  function StatKey(kind: Outcome, op: Operation, day: nat): string {
    STATS_PREFIX + StatSuffix(kind, op, day)
  }

  /** What follows the prefix: "<outcome>:<category>:<day>". */
  function StatSuffix(kind: Outcome, op: Operation, day: nat): string {
    OutcomeName(kind) + ":" + (OperationName(op) + ":" + Digits(day))
  }

  lemma StatSuffixInjective(k1: Outcome, o1: Operation, d1: nat, k2: Outcome, o2: Operation, d2: nat)
    requires StatSuffix(k1, o1, d1) == StatSuffix(k2, o2, d2)
    ensures k1 == k2 && o1 == o2 && d1 == d2
  {
    ColonSplit(OutcomeName(k1), OperationName(o1) + ":" + Digits(d1), OutcomeName(k2), OperationName(o2) + ":" + Digits(d2));
    ColonSplit(OperationName(o1), Digits(d1), OperationName(o2), Digits(d2));
    OperationNameInjective(o1, o2);
    DigitsInjective(d1, d2);
  }

  /** Key of the error message recorded at second `now`. */
  function ErrorKey(now: nat): string {
    ERRORS_PREFIX + Digits(now)
  }

  /** Each counter has its own key. */
  lemma StatKeyInjective(k1: Outcome, o1: Operation, d1: nat, k2: Outcome, o2: Operation, d2: nat)
    requires StatKey(k1, o1, d1) == StatKey(k2, o2, d2)
    ensures k1 == k2 && o1 == o2 && d1 == d2
  {
    var n := |STATS_PREFIX|;
    assert StatSuffix(k1, o1, d1) == StatKey(k1, o1, d1)[n..] == StatKey(k2, o2, d2)[n..] == StatSuffix(k2, o2, d2);
    StatSuffixInjective(k1, o1, d1, k2, o2, d2);
  }

  lemma ErrorKeyInjective(a: nat, b: nat)
    requires ErrorKey(a) == ErrorKey(b)
    ensures a == b
  {
    var n := |ERRORS_PREFIX|;
    assert Digits(a) == ErrorKey(a)[n..] == ErrorKey(b)[n..] == Digits(b);
    DigitsInjective(a, b);
  }

  /** The health keys, the request counters and the cooldown markers are
      four disjoint families: they differ right after "ai_replier:". */
  lemma KeyFamiliesDisjoint(kind: Outcome, op: Operation, day: nat, ts: nat, t: nat)
    ensures StatKey(kind, op, day) != ErrorKey(ts)
    ensures StatKey(kind, op, day) != RateLimiter.RateLimitKey(t)
    ensures ErrorKey(ts) != RateLimiter.RateLimitKey(t)
    ensures !(RateLimiter.COOLDOWN_KEY_PREFIX <= StatKey(kind, op, day))
    ensures !(RateLimiter.COOLDOWN_KEY_PREFIX <= ErrorKey(ts))
  {
    assert StatKey(kind, op, day)[11] == 's';
    assert ErrorKey(ts)[11] == 'e';
    assert RateLimiter.RateLimitKey(t)[11] == 'r';
  }

  // ---------------------------------------------------------------------
  // Counters and the error record

  /** The counter for (outcome, category, day), 0 when missing. */
  function StatCount(d: Data, kind: Outcome, op: Operation, day: nat, now: nat): int {
    ToI(Get(d, StatKey(kind, op, day), now))
  }

  /** `INCR` then a seven-day `EXPIRE` of a counter key. */
  function Bump(d: Data, key: string, now: nat): Data {
    ExpireData(IncrData(d, key, now), key, WEEK, now)
  }

  /** The store after `record_success(op)`. */
  function AfterRecordSuccess(d: Data, op: Operation, now: nat): Data {
    Bump(d, StatKey(Success, op, Today(now)), now)
  }

  /** The store after `record_failure(op, msg)`; a message, when given, is
      kept for a day under the key of the current second. */
  function AfterRecordFailure(d: Data, op: Operation, msg: Option<string>, now: nat): Data {
    var d1 := Bump(d, StatKey(Failure, op, Today(now)), now);
    if msg.Some? then SetExData(d1, ErrorKey(now), DAY, Text(msg.value), now) else d1
  }

  /** `record_success`. */
  method RecordSuccess(redis: Redis, op: Operation, now: nat)
    modifies redis
    ensures redis.data == AfterRecordSuccess(old(redis.data), op, now)
  {
    var key := StatKey(Success, op, Today(now));
    redis.Incr(key, now);
    redis.Expire(key, WEEK, now);
  }

  /** `record_failure`. */
  method RecordFailure(redis: Redis, op: Operation, msg: Option<string>, now: nat)
    modifies redis
    ensures redis.data == AfterRecordFailure(old(redis.data), op, msg, now)
  {
    var key := StatKey(Failure, op, Today(now));
    redis.Incr(key, now);
    redis.Expire(key, WEEK, now);
    if msg.Some? {
      var _ := redis.SetEx(ErrorKey(now), DAY, Text(msg.value), now);
    }
  }

  /** Bumping a counter changes only that key, and raises it by one. */
  lemma BumpEffect(d: Data, key: string, now: nat)
    ensures ToI(Get(Bump(d, key, now), key, now)) == ToI(Get(d, key, now)) + 1
    ensures forall k :: k != key ==> (k in Bump(d, key, now) <==> k in d)
    ensures forall k :: k != key && k in d ==> Bump(d, key, now)[k] == d[k]
  {
  }

  /** Recording a success raises the (success, op, today) counter by one and
      changes no other counter, error entry, request counter or cooldown
      marker. */
  lemma RecordSuccessEffect(d: Data, op: Operation, now: nat)
    ensures StatCount(AfterRecordSuccess(d, op, now), Success, op, Today(now), now)
         == StatCount(d, Success, op, Today(now), now) + 1
    ensures forall kind, op', day: nat, t :: (kind, op', day) != (Success, op, Today(now)) ==>
      StatCount(AfterRecordSuccess(d, op, now), kind, op', day, t) == StatCount(d, kind, op', day, t)
    ensures forall ts, t :: Get(AfterRecordSuccess(d, op, now), ErrorKey(ts), t) == Get(d, ErrorKey(ts), t)
    ensures forall t: nat :: RateLimiter.CurrentCount(AfterRecordSuccess(d, op, now), t) == RateLimiter.CurrentCount(d, t)
    ensures forall id, t :: RateLimiter.InCooldown(AfterRecordSuccess(d, op, now), id, t) == RateLimiter.InCooldown(d, id, t)
  {
    var key := StatKey(Success, op, Today(now));
    var d' := AfterRecordSuccess(d, op, now);
    BumpEffect(d, key, now);
    forall kind, op', day: nat, t | (kind, op', day) != (Success, op, Today(now))
      ensures StatCount(d', kind, op', day, t) == StatCount(d, kind, op', day, t)
    {
      if StatKey(kind, op', day) == key {
        StatKeyInjective(kind, op', day, Success, op, Today(now));
      }
    }
    forall ts, t ensures Get(d', ErrorKey(ts), t) == Get(d, ErrorKey(ts), t) {
      KeyFamiliesDisjoint(Success, op, Today(now), ts, 0);
    }
    forall t: nat ensures RateLimiter.CurrentCount(d', t) == RateLimiter.CurrentCount(d, t) {
      KeyFamiliesDisjoint(Success, op, Today(now), 0, t);
    }
    forall id, t ensures RateLimiter.InCooldown(d', id, t) == RateLimiter.InCooldown(d, id, t) {
      KeyFamiliesDisjoint(Success, op, Today(now), 0, 0);
      assert RateLimiter.COOLDOWN_KEY_PREFIX <= RateLimiter.CooldownKey(id);
    }
  }

  /** Recording a failure raises the (failure, op, today) counter by one and
      no other counter; the message, if any, is readable for a day under the
      current second's key, and without a message no error entry changes.
      Request counter and cooldown markers are untouched. */
  lemma RecordFailureEffect(d: Data, op: Operation, msg: Option<string>, now: nat)
    ensures StatCount(AfterRecordFailure(d, op, msg, now), Failure, op, Today(now), now)
         == StatCount(d, Failure, op, Today(now), now) + 1
    ensures forall kind, op', day: nat, t :: (kind, op', day) != (Failure, op, Today(now)) ==>
      StatCount(AfterRecordFailure(d, op, msg, now), kind, op', day, t) == StatCount(d, kind, op', day, t)
    ensures msg.Some? ==> forall t :: now <= t < now + DAY ==>
      Get(AfterRecordFailure(d, op, msg, now), ErrorKey(now), t) == Some(Text(msg.value))
    ensures forall ts, t :: (msg.None? || ts != now) ==>
      Get(AfterRecordFailure(d, op, msg, now), ErrorKey(ts), t) == Get(d, ErrorKey(ts), t)
    ensures forall t: nat :: RateLimiter.CurrentCount(AfterRecordFailure(d, op, msg, now), t) == RateLimiter.CurrentCount(d, t)
    ensures forall id, t :: RateLimiter.InCooldown(AfterRecordFailure(d, op, msg, now), id, t) == RateLimiter.InCooldown(d, id, t)
  {
    var key := StatKey(Failure, op, Today(now));
    var d' := AfterRecordFailure(d, op, msg, now);
    FailureKeepsKey(d, op, msg, now, ErrorKey(now));
    KeyFamiliesDisjoint(Failure, op, Today(now), now, 0);
    forall kind, op', day: nat, t | (kind, op', day) != (Failure, op, Today(now))
      ensures StatCount(d', kind, op', day, t) == StatCount(d, kind, op', day, t)
    {
      if StatKey(kind, op', day) == key {
        StatKeyInjective(kind, op', day, Failure, op, Today(now));
      }
      KeyFamiliesDisjoint(kind, op', day, now, 0);
      FailureKeepsKey(d, op, msg, now, StatKey(kind, op', day));
    }
    forall ts, t | msg.None? || ts != now
      ensures Get(d', ErrorKey(ts), t) == Get(d, ErrorKey(ts), t)
    {
      KeyFamiliesDisjoint(Failure, op, Today(now), ts, 0);
      if ts != now && ErrorKey(ts) == ErrorKey(now) {
        ErrorKeyInjective(ts, now);
      }
      FailureKeepsKey(d, op, msg, now, ErrorKey(ts));
    }
    forall t: nat ensures RateLimiter.CurrentCount(d', t) == RateLimiter.CurrentCount(d, t) {
      KeyFamiliesDisjoint(Failure, op, Today(now), now, t);
      FailureKeepsKey(d, op, msg, now, RateLimiter.RateLimitKey(t));
    }
    forall id, t ensures RateLimiter.InCooldown(d', id, t) == RateLimiter.InCooldown(d, id, t) {
      KeyFamiliesDisjoint(Failure, op, Today(now), now, 0);
      assert RateLimiter.COOLDOWN_KEY_PREFIX <= RateLimiter.CooldownKey(id);
      FailureKeepsKey(d, op, msg, now, RateLimiter.CooldownKey(id));
    }
  }

  /** `record_failure` writes only its counter and, with a message, the
      error entry of the current second. */
  lemma FailureKeepsKey(d: Data, op: Operation, msg: Option<string>, now: nat, k: string)
    ensures StatCount(AfterRecordFailure(d, op, msg, now), Failure, op, Today(now), now)
         == StatCount(d, Failure, op, Today(now), now) + 1
    ensures msg.Some? ==> forall t :: now <= t < now + DAY ==>
      Get(AfterRecordFailure(d, op, msg, now), ErrorKey(now), t) == Some(Text(msg.value))
    ensures k != StatKey(Failure, op, Today(now)) && (msg.None? || k != ErrorKey(now)) ==>
      forall t :: Get(AfterRecordFailure(d, op, msg, now), k, t) == Get(d, k, t)
  {
    var key := StatKey(Failure, op, Today(now));
    BumpEffect(d, key, now);
    KeyFamiliesDisjoint(Failure, op, Today(now), now, 0);
  }

  /** The request counter and the cooldown markers live outside the
      health keys: counting a request or setting a marker changes no
      health counter. */
  lemma LedgerKeepsStats(d: Data, topicId: int, secs: int, now: nat)
    requires secs > 0
    ensures forall kind, op, day: nat, t ::
      StatCount(RateLimiter.AfterIncrement(d, now), kind, op, day, t) == StatCount(d, kind, op, day, t)
    ensures forall kind, op, day: nat, t ::
      StatCount(RateLimiter.AfterSetCooldown(d, topicId, secs, now), kind, op, day, t) == StatCount(d, kind, op, day, t)
  {
    forall kind, op, day: nat, t
      ensures StatCount(RateLimiter.AfterIncrement(d, now), kind, op, day, t) == StatCount(d, kind, op, day, t)
      ensures StatCount(RateLimiter.AfterSetCooldown(d, topicId, secs, now), kind, op, day, t) == StatCount(d, kind, op, day, t)
    {
      KeyFamiliesDisjoint(kind, op, day, 0, now);
      assert RateLimiter.COOLDOWN_KEY_PREFIX <= RateLimiter.CooldownKey(topicId);
    }
  }

  // ---------------------------------------------------------------------
  // Success rate

  function ReplySuccesses(d: Data, now: nat): int { StatCount(d, Success, Reply, Today(now), now) }
  function ReplyFailures(d: Data, now: nat): int { StatCount(d, Failure, Reply, Today(now), now) }

  /** `calculate_success_rate`, as an exact percentage: today's `:reply`
      successes over today's `:reply` attempts, 100 when there were none. */
  function SuccessRate(d: Data, now: nat): real {
    var s := ReplySuccesses(d, now);
    var total := s + ReplyFailures(d, now);
    if total == 0 then 100.0 else (s as real) / (total as real) * 100.0
  }

  /** On a store whose integers are non-negative, the rate is a percentage,
      and it is 100 exactly when no reply failed today. */
  lemma SuccessRateBounds(d: Data, now: nat)
    requires IntsNonNegative(d)
    ensures 0.0 <= SuccessRate(d, now) <= 100.0
    ensures ReplySuccesses(d, now) + ReplyFailures(d, now) == 0 ==> SuccessRate(d, now) == 100.0
    ensures SuccessRate(d, now) == 100.0 <==> ReplyFailures(d, now) == 0
  {
    var s, f := ReplySuccesses(d, now), ReplyFailures(d, now);
    assert s >= 0 && f >= 0;
    if s + f > 0 {
      var q := (s as real) / ((s + f) as real);
      assert q * ((s + f) as real) == s as real;
      assert 0.0 <= q <= 1.0;
      assert q == 1.0 <==> f == 0;
    }
  }

  /** Only the `:reply` category enters the rate: recording any other
      category leaves it unchanged. */
  lemma SuccessRateCountsOnlyReplies(d: Data, op: Operation, msg: Option<string>, now: nat)
    requires op != Reply
    ensures SuccessRate(AfterRecordSuccess(d, op, now), now) == SuccessRate(d, now)
    ensures SuccessRate(AfterRecordFailure(d, op, msg, now), now) == SuccessRate(d, now)
  {
    RecordSuccessEffect(d, op, now);
    RecordFailureEffect(d, op, msg, now);
  }

  // ---------------------------------------------------------------------
  // Readiness

  const AI_EMAIL_PREFIX: string := "fungps"

  function MatchingEmails(emails: seq<string>): (r: seq<string>)
    ensures forall e :: e in r <==> e in emails && AI_EMAIL_PREFIX <= e
  {
    if emails == [] then []
    else (if AI_EMAIL_PREFIX <= emails[0] then [emails[0]] else []) + MatchingEmails(emails[1..])
  }

  predicate IsAiUser(u: User) {
    exists e :: e in u.emails && AI_EMAIL_PREFIX <= e
  }

  /** `ai_users`: the rows of users joined with their e-mail addresses that
      start with "fungps" (a user with two such addresses appears twice). */
  function AiUsers(users: seq<User>): (pool: seq<User>)
    ensures forall u :: u in pool <==> u in users && IsAiUser(u)
  {
    if users == [] then []
    else
      var u := users[0];
      var rows := seq(|MatchingEmails(u.emails)|, _ => u);
      assert u in rows <==> IsAiUser(u) by {
        if IsAiUser(u) {
          var e :| e in u.emails && AI_EMAIL_PREFIX <= e;
          assert e in MatchingEmails(u.emails);
          assert rows[0] == u;
        }
        if u in rows {
          assert MatchingEmails(u.emails)[0] in MatchingEmails(u.emails);
        }
      }
      assert forall v :: v in rows ==> v == u;
      rows + AiUsers(users[1..])
  }

  predicate ApiConfigured(cfg: Settings) {
    !IsBlank(cfg.apiKey) && !IsBlank(cfg.apiUrl) && !IsBlank(cfg.model)
  }

  /** `api_healthy?`: no live probe, just `api_configured?`. */
  function ApiHealthy(cfg: Settings): (r: bool)
    ensures r <==> !IsBlank(cfg.apiKey) && !IsBlank(cfg.apiUrl) && !IsBlank(cfg.model)
  {
    ApiConfigured(cfg)
  }

  predicate AiUsersAvailable(users: seq<User>) { |AiUsers(users)| > 0 }

  predicate RateLimitOk(d: Data, cfg: Settings, now: nat) {
    RateLimiter.CanMakeRequest(d, cfg, now)
  }

  /** `ready?`. */
  predicate Ready(cfg: Settings, users: seq<User>, d: Data, now: nat) {
    cfg.enabled && ApiConfigured(cfg) && AiUsersAvailable(users) && RateLimitOk(d, cfg, now)
  }

  /** The messages `collect_errors` can report, in the order it checks. */
  datatype HealthError = ApiKeyMissing | ApiUrlMissing | UserNotFound | RateLimitExceeded

  function Rank(e: HealthError): nat {
    match e
    case ApiKeyMissing => 0
    case ApiUrlMissing => 1
    case UserNotFound => 2
    case RateLimitExceeded => 3
  }

  /** `collect_errors`: one entry per failing check, in check order. */
  function CollectErrors(cfg: Settings, users: seq<User>, d: Data, now: nat): (errs: seq<HealthError>)
    ensures ApiKeyMissing in errs <==> IsBlank(cfg.apiKey)
    ensures ApiUrlMissing in errs <==> IsBlank(cfg.apiUrl)
    ensures UserNotFound in errs <==> !AiUsersAvailable(users)
    ensures RateLimitExceeded in errs <==> !RateLimitOk(d, cfg, now)
    ensures forall i, j :: 0 <= i < j < |errs| ==> Rank(errs[i]) < Rank(errs[j])
  {
    (if IsBlank(cfg.apiKey) then [ApiKeyMissing] else [])
    + (if IsBlank(cfg.apiUrl) then [ApiUrlMissing] else [])
    + (if !AiUsersAvailable(users) then [UserNotFound] else [])
    + (if !RateLimitOk(d, cfg, now) then [RateLimitExceeded] else [])
  }

  /** A ready system reports no error. */
  lemma ReadyImpliesNoErrors(cfg: Settings, users: seq<User>, d: Data, now: nat)
    requires Ready(cfg, users, d, now)
    ensures CollectErrors(cfg, users, d, now) == []
  {
  }

  /** The converse fails: a blank model, which `api_configured?` checks but
      `collect_errors` does not, makes the system not ready while the error
      list stays empty. */
  lemma MissingModelGoesUnreported(cfg: Settings, users: seq<User>, d: Data, now: nat)
    requires cfg.enabled && !IsBlank(cfg.apiKey) && !IsBlank(cfg.apiUrl) && IsBlank(cfg.model)
    requires AiUsersAvailable(users) && RateLimitOk(d, cfg, now)
    ensures !Ready(cfg, users, d, now)
    ensures CollectErrors(cfg, users, d, now) == []
  {
  }

  /** Recording an outcome stores no negative integer. */
  lemma RecordKeepsIntsNonNegative(d: Data, op: Operation, msg: Option<string>, now: nat)
    requires IntsNonNegative(d)
    ensures IntsNonNegative(AfterRecordSuccess(d, op, now))
    ensures IntsNonNegative(AfterRecordFailure(d, op, msg, now))
  {
    var s := StatKey(Success, op, Today(now));
    var f := StatKey(Failure, op, Today(now));
    IncrKeepsIntsNonNegative(d, s, now);
    ExpireKeepsIntsNonNegative(IncrData(d, s, now), s, WEEK, now);
    IncrKeepsIntsNonNegative(d, f, now);
    ExpireKeepsIntsNonNegative(IncrData(d, f, now), f, WEEK, now);
  }
}
