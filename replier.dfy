/** The reply orchestrator: re-checks a topic, picks an AI account, asks for
    a reply, posts it, then sets the topic's cooldown and records the
    outcome. Past the eligibility check every failure becomes `false` and
    one `:reply` failure record. The errors modelled are those of post
    creation and of the cooldown `SETEX`; post creation is a parameter
    `create` and the random pick a parameter `choice`. */
module Replier {
  import opened Common
  import opened KeyStore
  import opened Forum
  import RateLimiter
  import HealthChecker
  import AiClient
  import TopicSelector

  /** What post creation does with a draft: the post is saved, it fails
      validation with these messages, or creation raises. */
  datatype PostResult = Persisted(postId: int) | Rejected(messages: seq<string>) | Raised(message: string)

  /** The post `create_post` asks for. */
  datatype Draft = Draft(authorId: int, topicId: int, raw: string)

  /** `can_reply_to?`. */
  predicate CanReplyTo(t: Topic, d: Data, cfg: Settings, now: int) {
    !t.closed && !t.archived
    && t.deletedAt.None?
    && t.archetype != PrivateMessage
    && !RateLimiter.InCooldown(d, t.id, now)
    && (cfg.minTopicAgeHours > 0 ==> t.createdAt <= now - cfg.minTopicAgeHours * HOUR)
  }

  /** `select_ai_user`: nothing from an empty pool, otherwise the member the
      random choice falls on. */
  function SelectAiUser(pool: seq<User>, choice: nat): (u: Option<User>)
    ensures u.None? <==> pool == []
    ensures u.Some? ==> u.value in pool
  {
    if pool == [] then None else Some(pool[choice % |pool|])
  }

  /** Every account in the pool can be the one picked. */
  lemma EveryAiUserSelectable(pool: seq<User>, u: User)
    requires u in pool
    ensures exists choice: nat :: SelectAiUser(pool, choice) == Some(u)
  {
    var i :| 0 <= i < |pool| && pool[i] == u;
    assert SelectAiUser(pool, i) == Some(u);
  }

  /** `prepare_prompt`: the first post's raw text, or "" without one. */
  function PreparePrompt(t: Topic): (p: string)
    ensures t.firstPost.Some? ==> p == t.firstPost.value.raw
    ensures t.firstPost.None? ==> p == ""
  {
    match t.firstPost
    case None => ""
    case Some(post) => post.raw
  }

  const NO_AI_USER: string := "No AI user available"
  const EMPTY_RESPONSE: string := "Empty AI response"
  /** The store's answer to a `SETEX` with a non-positive lifetime. */
  const SETEX_ERROR: string := "ERR invalid expire time in 'setex' command"

  /** The value of `reply_to` (`nil` is read as false), the store
      afterwards, the HTTP requests made and the draft handed to post
      creation, if any. */
  datatype ReplyRun = ReplyRun(success: bool, data: Data, requests: nat, draft: Option<Draft>)

  /** `reply_to(topic)`: the gates run at `now`; everything after the HTTP
      exchange happens at `later`. */
  function ReplyAttempt(
    topic: Option<Topic>, users: seq<User>, choice: nat, d: Data, cfg: Settings,
    net: (AiClient.Request, nat) -> AiClient.Exchange, create: Draft -> PostResult,
    now: nat, later: nat): ReplyRun
  {
    if topic.None? then ReplyRun(false, d, 0, None)
    else
      var t := topic.value;
      if !CanReplyTo(t, d, cfg, now) then ReplyRun(false, d, 0, None)
      else match SelectAiUser(HealthChecker.AiUsers(users), choice)
        case None =>
          ReplyRun(false, HealthChecker.AfterRecordFailure(d, HealthChecker.Reply, Some(NO_AI_USER), now), 0, None)
        case Some(u) => Conclude(t, u, AiClient.Generate(d, cfg, PreparePrompt(t), net, now, later), cfg, create, later)
  }

  /** The message recorded when a post is not followed by a success: the
      store's refusal of a non-positive cooldown, the validation messages
      joined by ", ", or the message of the error raised. */
  function FailureMessage(post: PostResult): string {
    match post
    case Persisted(_) => SETEX_ERROR
    case Rejected(messages) => Join(messages, ", ")
    case Raised(m) => m
  }

  /** The rest of `reply_to` once `generate_reply` has returned `g`, with
      `u` the account picked. */
  function Conclude(t: Topic, u: User, g: AiClient.Generation, cfg: Settings, create: Draft -> PostResult, later: nat): ReplyRun {
    if IsBlankOpt(g.reply) then
      ReplyRun(false, HealthChecker.AfterRecordFailure(g.data, HealthChecker.Reply, Some(EMPTY_RESPONSE), later), g.requests, None)
    else
      var draft := Draft(u.id, t.id, g.reply.value);
      var post := create(draft);
      if post.Persisted? && RateLimiter.CooldownSeconds(cfg) > 0 then
        var d1 := RateLimiter.AfterSetCooldown(g.data, t.id, RateLimiter.CooldownSeconds(cfg), later);
        ReplyRun(true, HealthChecker.AfterRecordSuccess(d1, HealthChecker.Reply, later), g.requests, Some(draft))
      else
        ReplyRun(false, HealthChecker.AfterRecordFailure(g.data, HealthChecker.Reply, Some(FailureMessage(post)), later), g.requests, Some(draft))
  }

  /** `reply_to`. */
  method ReplyTo(
    redis: Redis, topic: Option<Topic>, users: seq<User>, choice: nat, cfg: Settings,
    net: (AiClient.Request, nat) -> AiClient.Exchange, create: Draft -> PostResult,
    now: nat, later: nat)
    returns (success: bool, requests: nat, draft: Option<Draft>)
    modifies redis
    ensures ReplyRun(success, redis.data, requests, draft)
         == ReplyAttempt(topic, users, choice, old(redis.data), cfg, net, create, now, later)
  {
    requests, draft := 0, None;
    if topic.None? {
      return false, requests, draft;
    }
    var t := topic.value;
    if !CanReplyTo(t, redis.data, cfg, now) {
      return false, requests, draft;
    }
    var aiUser := SelectAiUser(HealthChecker.AiUsers(users), choice);
    if aiUser.None? {
      HealthChecker.RecordFailure(redis, HealthChecker.Reply, Some(NO_AI_USER), now);
      return false, requests, draft;
    }
    var prompt := PreparePrompt(t);
    var reply;
    reply, requests := AiClient.GenerateReply(redis, cfg, prompt, net, now, later);
    success, draft := Finish(redis, t, aiUser.value, reply, requests, cfg, create, later);
  }

  /** The rest of `reply_to` once the reply is back: reject a blank one,
      create the post, then set the cooldown and record the outcome. */
  method Finish(
    redis: Redis, t: Topic, u: User, reply: Option<string>, requests: nat, cfg: Settings,
    create: Draft -> PostResult, later: nat)
    returns (success: bool, draft: Option<Draft>)
    modifies redis
    ensures ReplyRun(success, redis.data, requests, draft)
         == Conclude(t, u, AiClient.Generation(reply, old(redis.data), requests), cfg, create, later)
  {
    if IsBlankOpt(reply) {
      HealthChecker.RecordFailure(redis, HealthChecker.Reply, Some(EMPTY_RESPONSE), later);
      return false, None;
    }
    draft := Some(Draft(u.id, t.id, reply.value));
    var post := create(draft.value);
    match post
    case Persisted(_) =>
      var ok := RateLimiter.SetTopicCooldown(redis, cfg, t.id, later);
      if ok {
        HealthChecker.RecordSuccess(redis, HealthChecker.Reply, later);
        success := true;
      } else {
        HealthChecker.RecordFailure(redis, HealthChecker.Reply, Some(SETEX_ERROR), later);
        success := false;
      }
    case Rejected(messages) =>
      HealthChecker.RecordFailure(redis, HealthChecker.Reply, Some(Join(messages, ", ")), later);
      success := false;
    case Raised(m) =>
      HealthChecker.RecordFailure(redis, HealthChecker.Reply, Some(m), later);
      success := false;
  }

  // ---------------------------------------------------------------------
  // Properties

  /** True exactly when a draft was handed over, the post was saved and the
      cooldown could be set; then the topic stays in cooldown for the
      configured hours and today's `:reply` successes rise by one. */
  lemma SuccessIffPersisted(
    t: Topic, users: seq<User>, choice: nat, d: Data, cfg: Settings,
    net: (AiClient.Request, nat) -> AiClient.Exchange, create: Draft -> PostResult,
    now: nat, later: nat)
    ensures var r := ReplyAttempt(Some(t), users, choice, d, cfg, net, create, now, later);
      (r.success <==> r.draft.Some? && create(r.draft.value).Persisted? && RateLimiter.CooldownSeconds(cfg) > 0)
      && (r.success ==>
            (forall x :: later <= x < later + RateLimiter.CooldownSeconds(cfg) ==> RateLimiter.InCooldown(r.data, t.id, x))
            && HealthChecker.StatCount(r.data, HealthChecker.Success, HealthChecker.Reply, HealthChecker.Today(later), later)
               == HealthChecker.StatCount(d, HealthChecker.Success, HealthChecker.Reply, HealthChecker.Today(later), later) + 1)
  {
    var u := SelectAiUser(HealthChecker.AiUsers(users), choice);
    if CanReplyTo(t, d, cfg, now) && u.Some? {
      var g := AiClient.Generate(d, cfg, PreparePrompt(t), net, now, later);
      AiClient.GenerateKeepsReplyState(d, cfg, PreparePrompt(t), net, now, later);
      ConcludeSuccess(t, u.value, g, cfg, create, later);
    }
  }

  /** A failed attempt sets no cooldown marker and adds no `:reply`
      success. */
  lemma FailureSetsNoCooldown(
    t: Topic, users: seq<User>, choice: nat, d: Data, cfg: Settings,
    net: (AiClient.Request, nat) -> AiClient.Exchange, create: Draft -> PostResult,
    now: nat, later: nat)
    requires !ReplyAttempt(Some(t), users, choice, d, cfg, net, create, now, later).success
    ensures var r := ReplyAttempt(Some(t), users, choice, d, cfg, net, create, now, later);
      (forall id, x :: RateLimiter.InCooldown(r.data, id, x) == RateLimiter.InCooldown(d, id, x))
      && (forall day: nat, x :: HealthChecker.StatCount(r.data, HealthChecker.Success, HealthChecker.Reply, day, x)
            == HealthChecker.StatCount(d, HealthChecker.Success, HealthChecker.Reply, day, x))
  {
    var u := SelectAiUser(HealthChecker.AiUsers(users), choice);
    HealthChecker.RecordFailureEffect(d, HealthChecker.Reply, Some(NO_AI_USER), now);
    if CanReplyTo(t, d, cfg, now) && u.Some? {
      var g := AiClient.Generate(d, cfg, PreparePrompt(t), net, now, later);
      AiClient.GenerateKeepsReplyState(d, cfg, PreparePrompt(t), net, now, later);
      ConcludeFailure(t, u.value, g, cfg, create, later);
    }
  }

  /** Past the eligibility check, a failed attempt adds exactly one `:reply`
      failure: at `now` when there is no AI account, otherwise at `later`. */
  lemma FailureRecordsOneFailure(
    t: Topic, users: seq<User>, choice: nat, d: Data, cfg: Settings,
    net: (AiClient.Request, nat) -> AiClient.Exchange, create: Draft -> PostResult,
    now: nat, later: nat)
    requires CanReplyTo(t, d, cfg, now)
    requires !ReplyAttempt(Some(t), users, choice, d, cfg, net, create, now, later).success
    ensures var r := ReplyAttempt(Some(t), users, choice, d, cfg, net, create, now, later);
      var at := if HealthChecker.AiUsers(users) == [] then now else later;
      HealthChecker.StatCount(r.data, HealthChecker.Failure, HealthChecker.Reply, HealthChecker.Today(at), at)
      == HealthChecker.StatCount(d, HealthChecker.Failure, HealthChecker.Reply, HealthChecker.Today(at), at) + 1
  {
    var u := SelectAiUser(HealthChecker.AiUsers(users), choice);
    if u.None? {
      HealthChecker.RecordFailureEffect(d, HealthChecker.Reply, Some(NO_AI_USER), now);
    } else {
      var g := AiClient.Generate(d, cfg, PreparePrompt(t), net, now, later);
      AiClient.GenerateKeepsReplyState(d, cfg, PreparePrompt(t), net, now, later);
      ConcludeFailure(t, u.value, g, cfg, create, later);
    }
  }

  /** An ineligible topic (or none): false, and nothing happens at all — no
      pick, no request, no record. */
  lemma IneligibleTopicSkipped(
    topic: Option<Topic>, users: seq<User>, choice: nat, d: Data, cfg: Settings,
    net: (AiClient.Request, nat) -> AiClient.Exchange, create: Draft -> PostResult,
    now: nat, later: nat)
    requires topic.None? || !CanReplyTo(topic.value, d, cfg, now)
    ensures ReplyAttempt(topic, users, choice, d, cfg, net, create, now, later) == ReplyRun(false, d, 0, None)
  {
  }

  /** No AI account: false with one `:reply` failure and no request; with
      accounts, the draft's author is one of them. */
  lemma AiUserPool(
    t: Topic, users: seq<User>, choice: nat, d: Data, cfg: Settings,
    net: (AiClient.Request, nat) -> AiClient.Exchange, create: Draft -> PostResult,
    now: nat, later: nat)
    requires CanReplyTo(t, d, cfg, now)
    ensures var r := ReplyAttempt(Some(t), users, choice, d, cfg, net, create, now, later);
      (HealthChecker.AiUsers(users) == [] ==>
         r == ReplyRun(false, HealthChecker.AfterRecordFailure(d, HealthChecker.Reply, Some(NO_AI_USER), now), 0, None))
      && (r.draft.Some? ==> exists u :: u in users && HealthChecker.IsAiUser(u) && r.draft.value.authorId == u.id)
  {
    var r := ReplyAttempt(Some(t), users, choice, d, cfg, net, create, now, later);
    if r.draft.Some? {
      var u := SelectAiUser(HealthChecker.AiUsers(users), choice).value;
      assert u in HealthChecker.AiUsers(users);
    }
  }

  /** A blank generation: false, one `:reply` failure "Empty AI response",
      and no post is created. */
  lemma BlankGenerationCreatesNoPost(
    t: Topic, users: seq<User>, choice: nat, d: Data, cfg: Settings,
    net: (AiClient.Request, nat) -> AiClient.Exchange, create: Draft -> PostResult,
    now: nat, later: nat)
    requires CanReplyTo(t, d, cfg, now) && HealthChecker.AiUsers(users) != []
    requires IsBlankOpt(AiClient.Generate(d, cfg, PreparePrompt(t), net, now, later).reply)
    ensures var r := ReplyAttempt(Some(t), users, choice, d, cfg, net, create, now, later);
      var g := AiClient.Generate(d, cfg, PreparePrompt(t), net, now, later);
      !r.success && r.draft.None?
      && r.data == HealthChecker.AfterRecordFailure(g.data, HealthChecker.Reply, Some(EMPTY_RESPONSE), later)
  {
  }

  /** A post that fails validation: false, the messages joined by ", " are
      recorded as the `:reply` failure, and no cooldown is set. */
  lemma RejectedPostRecordsMessages(
    t: Topic, users: seq<User>, choice: nat, d: Data, cfg: Settings,
    net: (AiClient.Request, nat) -> AiClient.Exchange, create: Draft -> PostResult,
    now: nat, later: nat)
    requires ReplyAttempt(Some(t), users, choice, d, cfg, net, create, now, later).draft.Some?
    requires create(ReplyAttempt(Some(t), users, choice, d, cfg, net, create, now, later).draft.value).Rejected?
    ensures var r := ReplyAttempt(Some(t), users, choice, d, cfg, net, create, now, later);
      var g := AiClient.Generate(d, cfg, PreparePrompt(t), net, now, later);
      !r.success
      && r.data == HealthChecker.AfterRecordFailure(g.data, HealthChecker.Reply,
                     Some(Join(create(r.draft.value).messages, ", ")), later)
      && (forall id, x :: RateLimiter.InCooldown(r.data, id, x) == RateLimiter.InCooldown(d, id, x))
  {
    var u := SelectAiUser(HealthChecker.AiUsers(users), choice);
    var g := AiClient.Generate(d, cfg, PreparePrompt(t), net, now, later);
    assert CanReplyTo(t, d, cfg, now) && u.Some?;
    assert ReplyAttempt(Some(t), users, choice, d, cfg, net, create, now, later) == Conclude(t, u.value, g, cfg, create, later);
    FailureSetsNoCooldown(t, users, choice, d, cfg, net, create, now, later);
  }

  /** Post creation that raises: false, and the error's message is
      recorded as the `:reply` failure; no cooldown is set. */
  lemma RaisedPostRecordsMessage(
    t: Topic, users: seq<User>, choice: nat, d: Data, cfg: Settings,
    net: (AiClient.Request, nat) -> AiClient.Exchange, create: Draft -> PostResult,
    now: nat, later: nat)
    requires ReplyAttempt(Some(t), users, choice, d, cfg, net, create, now, later).draft.Some?
    requires create(ReplyAttempt(Some(t), users, choice, d, cfg, net, create, now, later).draft.value).Raised?
    ensures var r := ReplyAttempt(Some(t), users, choice, d, cfg, net, create, now, later);
      var g := AiClient.Generate(d, cfg, PreparePrompt(t), net, now, later);
      !r.success
      && r.data == HealthChecker.AfterRecordFailure(g.data, HealthChecker.Reply,
                     Some(create(r.draft.value).message), later)
      && (forall id, x :: RateLimiter.InCooldown(r.data, id, x) == RateLimiter.InCooldown(d, id, x))
  {
    var u := SelectAiUser(HealthChecker.AiUsers(users), choice);
    var g := AiClient.Generate(d, cfg, PreparePrompt(t), net, now, later);
    assert CanReplyTo(t, d, cfg, now) && u.Some?;
    assert ReplyAttempt(Some(t), users, choice, d, cfg, net, create, now, later) == Conclude(t, u.value, g, cfg, create, later);
    FailureSetsNoCooldown(t, users, choice, d, cfg, net, create, now, later);
  }

  /** A saved post whose cooldown the store refuses (a lifetime of zero or
      less hours): false, and the store's error is recorded as the `:reply`
      failure; no cooldown is set and no success is recorded. */
  lemma RefusedCooldownRecordsError(
    t: Topic, users: seq<User>, choice: nat, d: Data, cfg: Settings,
    net: (AiClient.Request, nat) -> AiClient.Exchange, create: Draft -> PostResult,
    now: nat, later: nat)
    requires ReplyAttempt(Some(t), users, choice, d, cfg, net, create, now, later).draft.Some?
    requires create(ReplyAttempt(Some(t), users, choice, d, cfg, net, create, now, later).draft.value).Persisted?
    requires RateLimiter.CooldownSeconds(cfg) <= 0
    ensures var r := ReplyAttempt(Some(t), users, choice, d, cfg, net, create, now, later);
      var g := AiClient.Generate(d, cfg, PreparePrompt(t), net, now, later);
      !r.success
      && r.data == HealthChecker.AfterRecordFailure(g.data, HealthChecker.Reply, Some(SETEX_ERROR), later)
      && (forall id, x :: RateLimiter.InCooldown(r.data, id, x) == RateLimiter.InCooldown(d, id, x))
  {
    var u := SelectAiUser(HealthChecker.AiUsers(users), choice);
    var g := AiClient.Generate(d, cfg, PreparePrompt(t), net, now, later);
    assert CanReplyTo(t, d, cfg, now) && u.Some?;
    assert ReplyAttempt(Some(t), users, choice, d, cfg, net, create, now, later) == Conclude(t, u.value, g, cfg, create, later);
    FailureSetsNoCooldown(t, users, choice, d, cfg, net, create, now, later);
  }

  /** The draft carries the generated text, trimmed, for the topic asked
      about. */
  lemma DraftIsGeneratedReply(
    t: Topic, users: seq<User>, choice: nat, d: Data, cfg: Settings,
    net: (AiClient.Request, nat) -> AiClient.Exchange, create: Draft -> PostResult,
    now: nat, later: nat)
    requires ReplyAttempt(Some(t), users, choice, d, cfg, net, create, now, later).draft.Some?
    ensures var r := ReplyAttempt(Some(t), users, choice, d, cfg, net, create, now, later);
      var g := AiClient.Generate(d, cfg, PreparePrompt(t), net, now, later);
      r.draft.value.topicId == t.id && g.reply == Some(r.draft.value.raw) && !IsBlank(r.draft.value.raw)
  {
    var u := SelectAiUser(HealthChecker.AiUsers(users), choice);
    var g := AiClient.Generate(d, cfg, PreparePrompt(t), net, now, later);
    assert CanReplyTo(t, d, cfg, now) && u.Some?;
    assert ReplyAttempt(Some(t), users, choice, d, cfg, net, create, now, later) == Conclude(t, u.value, g, cfg, create, later);
  }

  /** Once a reply succeeded, the same topic is turned away by a second
      attempt for the whole cooldown period. */
  lemma NoSecondReplyDuringCooldown(
    t: Topic, users: seq<User>, choice: nat, d: Data, cfg: Settings,
    net: (AiClient.Request, nat) -> AiClient.Exchange, create: Draft -> PostResult,
    now: nat, later: nat,
    users2: seq<User>, choice2: nat, net2: (AiClient.Request, nat) -> AiClient.Exchange,
    create2: Draft -> PostResult, now2: nat, later2: nat)
    requires ReplyAttempt(Some(t), users, choice, d, cfg, net, create, now, later).success
    requires later <= now2 < later + RateLimiter.CooldownSeconds(cfg)
    ensures var d' := ReplyAttempt(Some(t), users, choice, d, cfg, net, create, now, later).data;
      ReplyAttempt(Some(t), users2, choice2, d', cfg, net2, create2, now2, later2) == ReplyRun(false, d', 0, None)
  {
    SuccessIffPersisted(t, users, choice, d, cfg, net, create, now, later);
  }

  /** Every topic the selector picks passes this re-check at the same
      instant and against the same store. */
  lemma SelectedTopicsAreReplyable(topics: seq<Topic>, d: Data, cfg: Settings, now: int, limit: Option<nat>)
    ensures forall t :: t in TopicSelector.Select(topics, d, cfg, now, limit) ==> CanReplyTo(t, d, cfg, now)
  {
    TopicSelector.SelectedTopicsQualify(topics, d, cfg, now, limit);
  }

  /** A reply attempt stores no negative integer, so the success rate read
      afterwards is a percentage. */
  lemma ReplyKeepsIntsNonNegative(
    topic: Option<Topic>, users: seq<User>, choice: nat, d: Data, cfg: Settings,
    net: (AiClient.Request, nat) -> AiClient.Exchange, create: Draft -> PostResult,
    now: nat, later: nat, t: nat)
    requires IntsNonNegative(d)
    ensures IntsNonNegative(ReplyAttempt(topic, users, choice, d, cfg, net, create, now, later).data)
    ensures var r := ReplyAttempt(topic, users, choice, d, cfg, net, create, now, later);
      0.0 <= HealthChecker.SuccessRate(r.data, t) <= 100.0
  {
    var r := ReplyAttempt(topic, users, choice, d, cfg, net, create, now, later);
    HealthChecker.RecordKeepsIntsNonNegative(d, HealthChecker.Reply, Some(NO_AI_USER), now);
    if topic.Some? {
      var u := SelectAiUser(HealthChecker.AiUsers(users), choice);
      if CanReplyTo(topic.value, d, cfg, now) && u.Some? {
        var g := AiClient.Generate(d, cfg, PreparePrompt(topic.value), net, now, later);
        AiClient.GenerateKeepsIntsNonNegative(d, cfg, PreparePrompt(topic.value), net, now, later);
        ConcludeKeepsIntsNonNegative(topic.value, u.value, g, cfg, create, later);
      }
    }
    HealthChecker.SuccessRateBounds(r.data, t);
  }

  // ---------------------------------------------------------------------
  // The steps after generation

  /** A success posts, sets the topic's cooldown for the configured hours
      and adds one `:reply` success; it happens exactly when the post is
      saved and the cooldown can be set. */
  lemma ConcludeSuccess(t: Topic, u: User, g: AiClient.Generation, cfg: Settings, create: Draft -> PostResult, later: nat)
    ensures var r := Conclude(t, u, g, cfg, create, later);
      (r.success <==> r.draft.Some? && create(r.draft.value).Persisted? && RateLimiter.CooldownSeconds(cfg) > 0)
      && (r.success ==>
            (forall x :: later <= x < later + RateLimiter.CooldownSeconds(cfg) ==> RateLimiter.InCooldown(r.data, t.id, x))
            && HealthChecker.StatCount(r.data, HealthChecker.Success, HealthChecker.Reply, HealthChecker.Today(later), later)
               == HealthChecker.StatCount(g.data, HealthChecker.Success, HealthChecker.Reply, HealthChecker.Today(later), later) + 1)
  {
    var r := Conclude(t, u, g, cfg, create, later);
    if r.success {
      var secs := RateLimiter.CooldownSeconds(cfg);
      var d1 := RateLimiter.AfterSetCooldown(g.data, t.id, secs, later);
      RateLimiter.SetCooldownEffect(g.data, t.id, secs, later);
      HealthChecker.LedgerKeepsStats(g.data, t.id, secs, later);
      HealthChecker.RecordSuccessEffect(d1, HealthChecker.Reply, later);
    }
  }

  /** A failure after generation sets no cooldown, adds no `:reply`
      success and adds one `:reply` failure. */
  lemma ConcludeFailure(t: Topic, u: User, g: AiClient.Generation, cfg: Settings, create: Draft -> PostResult, later: nat)
    requires !Conclude(t, u, g, cfg, create, later).success
    ensures var r := Conclude(t, u, g, cfg, create, later);
      (forall id, x :: RateLimiter.InCooldown(r.data, id, x) == RateLimiter.InCooldown(g.data, id, x))
      && (forall day: nat, x :: HealthChecker.StatCount(r.data, HealthChecker.Success, HealthChecker.Reply, day, x)
            == HealthChecker.StatCount(g.data, HealthChecker.Success, HealthChecker.Reply, day, x))
      && HealthChecker.StatCount(r.data, HealthChecker.Failure, HealthChecker.Reply, HealthChecker.Today(later), later)
         == HealthChecker.StatCount(g.data, HealthChecker.Failure, HealthChecker.Reply, HealthChecker.Today(later), later) + 1
  {
    HealthChecker.RecordFailureEffect(g.data, HealthChecker.Reply, Some(EMPTY_RESPONSE), later);
    if !IsBlankOpt(g.reply) {
      var post := create(Draft(u.id, t.id, g.reply.value));
      HealthChecker.RecordFailureEffect(g.data, HealthChecker.Reply, Some(FailureMessage(post)), later);
    }
  }

  lemma ConcludeKeepsIntsNonNegative(t: Topic, u: User, g: AiClient.Generation, cfg: Settings, create: Draft -> PostResult, later: nat)
    requires IntsNonNegative(g.data)
    ensures IntsNonNegative(Conclude(t, u, g, cfg, create, later).data)
  {
    HealthChecker.RecordKeepsIntsNonNegative(g.data, HealthChecker.Reply, Some(EMPTY_RESPONSE), later);
    if !IsBlankOpt(g.reply) {
      var post := create(Draft(u.id, t.id, g.reply.value));
      HealthChecker.RecordKeepsIntsNonNegative(g.data, HealthChecker.Reply, Some(FailureMessage(post)), later);
      var secs := RateLimiter.CooldownSeconds(cfg);
      if secs > 0 {
        RateLimiter.LedgerKeepsIntsNonNegative(g.data, t.id, secs, later);
        HealthChecker.RecordKeepsIntsNonNegative(RateLimiter.AfterSetCooldown(g.data, t.id, secs, later), HealthChecker.Reply, None, later);
      }
    }
  }
}
