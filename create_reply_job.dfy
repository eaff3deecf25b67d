/** The per-topic reply job: a chain of guards in front of one call to the
    reply orchestrator. A failure of the topic lookup (the only step here
    that can raise, since the orchestrator catches its own errors) is the
    parameter `lookupFault`. */
module CreateReplyJob {
  import opened Common
  import opened KeyStore
  import opened Forum
  import HealthChecker
  import AiClient
  import Replier

  /** Where the job stopped. */
  datatype JobOutcome =
    | MissingTopicId
    | Disabled
    | TopicNotFound
    | NoLongerValid
    | Replied(success: bool)
    | Failed(message: string)

  /** The outcome, the store afterwards and how often the orchestrator ran. */
  datatype JobRun = JobRun(outcome: JobOutcome, data: Data, replierCalls: nat)

  /** `Topic.find_by(id:)`: the first record with that id. */
  function FindTopic(topics: seq<Topic>, id: int): (r: Option<Topic>)
    ensures r.Some? ==> r.value in topics && r.value.id == id
    ensures r.None? <==> forall t :: t in topics ==> t.id != id
  {
    if topics == [] then None
    else if topics[0].id == id then Some(topics[0])
    else FindTopic(topics[1..], id)
  }

  /** `execute(topic_id:)`. */
  function Run(
    topicId: Option<int>, topics: seq<Topic>, lookupFault: Option<string>,
    users: seq<User>, choice: nat, d: Data, cfg: Settings,
    net: (AiClient.Request, nat) -> AiClient.Exchange, create: Replier.Draft -> Replier.PostResult,
    now: nat, later: nat): JobRun
  {
    if topicId.None? then JobRun(MissingTopicId, d, 0)
    else if !cfg.enabled then JobRun(Disabled, d, 0)
    else if lookupFault.Some? then
      JobRun(Failed(lookupFault.value),
             HealthChecker.AfterRecordFailure(d, HealthChecker.JobReply, lookupFault, now), 0)
    else match FindTopic(topics, topicId.value)
      case None => JobRun(TopicNotFound, d, 0)
      case Some(t) =>
        if t.closed || t.archived || t.deletedAt.Some? then JobRun(NoLongerValid, d, 0)
        else
          var r := Replier.ReplyAttempt(Some(t), users, choice, d, cfg, net, create, now, later);
          JobRun(Replied(r.success), r.data, 1)
  }

  method Execute(
    redis: Redis, topicId: Option<int>, topics: seq<Topic>, lookupFault: Option<string>,
    users: seq<User>, choice: nat, cfg: Settings,
    net: (AiClient.Request, nat) -> AiClient.Exchange, create: Replier.Draft -> Replier.PostResult,
    now: nat, later: nat)
    returns (outcome: JobOutcome, replierCalls: nat)
    modifies redis
    ensures JobRun(outcome, redis.data, replierCalls)
         == Run(topicId, topics, lookupFault, users, choice, old(redis.data), cfg, net, create, now, later)
  {
    replierCalls := 0;
    if topicId.None? {
      return MissingTopicId, replierCalls;
    }
    if !cfg.enabled {
      return Disabled, replierCalls;
    }
    if lookupFault.Some? {
      HealthChecker.RecordFailure(redis, HealthChecker.JobReply, lookupFault, now);
      return Failed(lookupFault.value), replierCalls;
    }
    var topic := FindTopic(topics, topicId.value);
    if topic.None? {
      return TopicNotFound, replierCalls;
    }
    var t := topic.value;
    if t.closed || t.archived || t.deletedAt.Some? {
      return NoLongerValid, replierCalls;
    }
    var success, _, _ := Replier.ReplyTo(redis, topic, users, choice, cfg, net, create, now, later);
    replierCalls := 1;
    outcome := Replied(success);
  }

  /** The guards: without an id, with the plugin off, without the topic or
      with a closed, archived or deleted one, the orchestrator is not called
      and the store is left as it was. */
  lemma GuardsStopBeforeReplier(
    topicId: Option<int>, topics: seq<Topic>, users: seq<User>, choice: nat, d: Data, cfg: Settings,
    net: (AiClient.Request, nat) -> AiClient.Exchange, create: Replier.Draft -> Replier.PostResult,
    now: nat, later: nat)
    requires topicId.None? || !cfg.enabled
      || (forall t :: t in topics ==> t.id != topicId.value)
      || (forall t :: t in topics && t.id == topicId.value ==> t.closed || t.archived || t.deletedAt.Some?)
    ensures var r := Run(topicId, topics, None, users, choice, d, cfg, net, create, now, later);
      r.replierCalls == 0 && r.data == d && !r.outcome.Replied?
  {
  }

  /** Past the guards, the orchestrator runs exactly once on the topic found
      and its result and effects are the job's. */
  lemma ValidTopicRepliedOnce(
    id: int, topics: seq<Topic>, users: seq<User>, choice: nat, d: Data, cfg: Settings,
    net: (AiClient.Request, nat) -> AiClient.Exchange, create: Replier.Draft -> Replier.PostResult,
    now: nat, later: nat)
    requires cfg.enabled
    requires FindTopic(topics, id).Some?
    requires var t := FindTopic(topics, id).value; !t.closed && !t.archived && t.deletedAt.None?
    ensures var t := FindTopic(topics, id).value;
      var job := Run(Some(id), topics, None, users, choice, d, cfg, net, create, now, later);
      var r := Replier.ReplyAttempt(Some(t), users, choice, d, cfg, net, create, now, later);
      job.replierCalls == 1 && job.outcome == Replied(r.success) && job.data == r.data
      && t.id == id && t in topics
  {
  }

  /** A failing lookup is recorded as a `:job_reply` failure carrying its
      message, and the job ends there. */
  lemma LookupFaultRecorded(
    id: int, topics: seq<Topic>, msg: string, users: seq<User>, choice: nat, d: Data, cfg: Settings,
    net: (AiClient.Request, nat) -> AiClient.Exchange, create: Replier.Draft -> Replier.PostResult,
    now: nat, later: nat)
    requires cfg.enabled
    ensures var job := Run(Some(id), topics, Some(msg), users, choice, d, cfg, net, create, now, later);
      job.outcome == Failed(msg) && job.replierCalls == 0
      && HealthChecker.StatCount(job.data, HealthChecker.Failure, HealthChecker.JobReply, HealthChecker.Today(now), now)
         == HealthChecker.StatCount(d, HealthChecker.Failure, HealthChecker.JobReply, HealthChecker.Today(now), now) + 1
  {
    HealthChecker.RecordFailureEffect(d, HealthChecker.JobReply, Some(msg), now);
  }

  /** The job stores no negative integer, whatever path it takes. */
  lemma RunKeepsIntsNonNegative(
    topicId: Option<int>, topics: seq<Topic>, lookupFault: Option<string>,
    users: seq<User>, choice: nat, d: Data, cfg: Settings,
    net: (AiClient.Request, nat) -> AiClient.Exchange, create: Replier.Draft -> Replier.PostResult,
    now: nat, later: nat)
    requires IntsNonNegative(d)
    ensures IntsNonNegative(Run(topicId, topics, lookupFault, users, choice, d, cfg, net, create, now, later).data)
  {
    HealthChecker.RecordKeepsIntsNonNegative(d, HealthChecker.JobReply, lookupFault, now);
    if topicId.Some? {
      var t := FindTopic(topics, topicId.value);
      if t.Some? {
        Replier.ReplyKeepsIntsNonNegative(t, users, choice, d, cfg, net, create, now, later, now);
      }
    }
  }
}
