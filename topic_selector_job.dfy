/** The periodic selector job: when the plugin is on and healthy, pick
    topics and enqueue one reply job per topic. Errors during selection or
    while enqueueing are the parameter `fault`; they are recorded as a
    `:job_selector` failure and not propagated. */
module TopicSelectorJob {
  import opened Common
  import opened KeyStore
  import opened Forum
  import HealthChecker
  import TopicSelector
  import Replier

  /** The background queue reply jobs go to; a job is the id of its topic. */
  class JobQueue {
    var jobs: seq<int>

    constructor ()
      ensures jobs == []
    {
      jobs := [];
    }

    /** `Jobs.enqueue(:ai_create_reply, topic_id: id)`. */
    method Enqueue(topicId: int)
      modifies this
      ensures jobs == old(jobs) + [topicId]
    {
      jobs := jobs + [topicId];
    }
  }

  /** Where an error is raised, if anywhere. */
  datatype Fault = NoFault | SelectFails(message: string) | EnqueueFailsAt(index: nat, message: string)

  datatype SelectorOutcome = Disabled | NotReady | NothingSelected | Enqueued(count: nat) | Failed(message: string)

  /** The outcome, the store afterwards and the topic ids enqueued. */
  datatype SelectorRun = SelectorRun(outcome: SelectorOutcome, data: Data, enqueued: seq<int>)

  function Ids(topics: seq<Topic>): (ids: seq<int>)
    ensures |ids| == |topics|
    ensures forall i :: 0 <= i < |topics| ==> ids[i] == topics[i].id
  {
    if topics == [] then [] else [topics[0].id] + Ids(topics[1..])
  }

  /** The part of `execute` after selection: nothing to do, or one
      `Jobs.enqueue` per topic until the enqueue at `fault.index` raises. */
  function Dispatch(selected: seq<Topic>, d: Data, fault: Fault, now: nat): (r: SelectorRun)
    requires !fault.SelectFails?
    ensures |r.enqueued| <= |selected|
    ensures forall i :: 0 <= i < |r.enqueued| ==> r.enqueued[i] == selected[i].id
  {
    if selected == [] then SelectorRun(NothingSelected, d, [])
    else if fault.EnqueueFailsAt? && fault.index < |selected| then
      SelectorRun(Failed(fault.message),
                  HealthChecker.AfterRecordFailure(d, HealthChecker.JobSelector, Some(fault.message), now),
                  Ids(selected[..fault.index]))
    else SelectorRun(Enqueued(|selected|), d, Ids(selected))
  }

  /** `execute`. */
  function Run(topics: seq<Topic>, users: seq<User>, d: Data, cfg: Settings, fault: Fault, now: nat): SelectorRun {
    if !cfg.enabled then SelectorRun(Disabled, d, [])
    else if !HealthChecker.Ready(cfg, users, d, now) then SelectorRun(NotReady, d, [])
    else if fault.SelectFails? then
      SelectorRun(Failed(fault.message), HealthChecker.AfterRecordFailure(d, HealthChecker.JobSelector, Some(fault.message), now), [])
    else Dispatch(TopicSelector.Select(topics, d, cfg, now, None), d, fault, now)
  }

  method Execute(redis: Redis, queue: JobQueue, topics: seq<Topic>, users: seq<User>, cfg: Settings, fault: Fault, now: nat)
    returns (outcome: SelectorOutcome)
    modifies redis, queue
    ensures var r := Run(topics, users, old(redis.data), cfg, fault, now);
      outcome == r.outcome && redis.data == r.data && queue.jobs == old(queue.jobs) + r.enqueued
  {
    if !cfg.enabled {
      return Disabled;
    }
    if !HealthChecker.Ready(cfg, users, redis.data, now) {
      return NotReady;
    }
    if fault.SelectFails? {
      HealthChecker.RecordFailure(redis, HealthChecker.JobSelector, Some(fault.message), now);
      return Failed(fault.message);
    }
    var selected := TopicSelector.Select(topics, redis.data, cfg, now, None);
    outcome := EnqueueSelected(redis, queue, selected, fault, now);
  }

  /** The enqueue loop of `execute` and its rescue clause. */
  method EnqueueSelected(redis: Redis, queue: JobQueue, selected: seq<Topic>, fault: Fault, now: nat)
    returns (outcome: SelectorOutcome)
    requires !fault.SelectFails?
    modifies redis, queue
    ensures var r := Dispatch(selected, old(redis.data), fault, now);
      outcome == r.outcome && redis.data == r.data && queue.jobs == old(queue.jobs) + r.enqueued
  {
    if selected == [] {
      return NothingSelected;
    }
    var i := 0;
    while i < |selected|
      invariant 0 <= i <= |selected|
      invariant fault.EnqueueFailsAt? ==> i <= fault.index
      invariant queue.jobs == old(queue.jobs) + Ids(selected[..i])
      invariant redis.data == old(redis.data)
    {
      if fault.EnqueueFailsAt? && fault.index == i {
        HealthChecker.RecordFailure(redis, HealthChecker.JobSelector, Some(fault.message), now);
        return Failed(fault.message);
      }
      IdsSnoc(selected, i);
      queue.Enqueue(selected[i].id);
      i := i + 1;
    }
    assert selected[..i] == selected;
    outcome := Enqueued(|selected|);
  }

  lemma IdsSnoc(s: seq<Topic>, i: nat)
    requires i < |s|
    ensures Ids(s[..i + 1]) == Ids(s[..i]) + [s[i].id]
  {
  }

  // ---------------------------------------------------------------------
  // Properties

  /** A disabled plugin or a system that is not ready: nothing is selected,
      nothing is enqueued and nothing is recorded. */
  lemma NotRunningEnqueuesNothing(topics: seq<Topic>, users: seq<User>, d: Data, cfg: Settings, fault: Fault, now: nat)
    requires !cfg.enabled || !HealthChecker.Ready(cfg, users, d, now)
    ensures Run(topics, users, d, cfg, fault, now).enqueued == []
    ensures Run(topics, users, d, cfg, fault, now).data == d
  {
  }

  /** Without errors, the queue receives the selected topics' ids, one each,
      in selection order; an empty selection enqueues nothing. */
  lemma EnqueuesSelection(topics: seq<Topic>, users: seq<User>, d: Data, cfg: Settings, now: nat)
    requires HealthChecker.Ready(cfg, users, d, now)
    ensures var r := Run(topics, users, d, cfg, NoFault, now);
      var selected := TopicSelector.Select(topics, d, cfg, now, None);
      r.enqueued == Ids(selected) && r.data == d
      && |r.enqueued| <= cfg.batchSize
      && (selected == [] <==> r.outcome == NothingSelected)
  {
    TopicSelector.SelectLength(topics, d, cfg, now, None);
  }

  /** Every enqueued id belongs to a topic that the reply orchestrator would
      accept at the instant of selection. */
  lemma EnqueuedTopicsAreReplyable(topics: seq<Topic>, users: seq<User>, d: Data, cfg: Settings, fault: Fault, now: nat)
    ensures var r := Run(topics, users, d, cfg, fault, now);
      forall i :: 0 <= i < |r.enqueued| ==>
        exists t :: t in topics && t.id == r.enqueued[i] && Replier.CanReplyTo(t, d, cfg, now)
  {
    var selected := TopicSelector.Select(topics, d, cfg, now, None);
    Replier.SelectedTopicsAreReplyable(topics, d, cfg, now, None);
    forall i | 0 <= i < |Run(topics, users, d, cfg, fault, now).enqueued|
      ensures exists t :: t in topics && t.id == Run(topics, users, d, cfg, fault, now).enqueued[i] && Replier.CanReplyTo(t, d, cfg, now)
    {
      TopicSelector.SelectedTopicsQualify(topics, d, cfg, now, None);
      assert selected[i] in selected;
    }
  }

  /** An error is recorded as one `:job_selector` failure with its message;
      the jobs enqueued before it stay enqueued. */
  lemma FaultRecorded(topics: seq<Topic>, users: seq<User>, d: Data, cfg: Settings, fault: Fault, now: nat)
    requires Run(topics, users, d, cfg, fault, now).outcome.Failed?
    ensures var r := Run(topics, users, d, cfg, fault, now);
      fault != NoFault
      && r.outcome == Failed(fault.message)
      && HealthChecker.StatCount(r.data, HealthChecker.Failure, HealthChecker.JobSelector, HealthChecker.Today(now), now)
         == HealthChecker.StatCount(d, HealthChecker.Failure, HealthChecker.JobSelector, HealthChecker.Today(now), now) + 1
      && (fault.EnqueueFailsAt? ==>
            r.enqueued == Ids(TopicSelector.Select(topics, d, cfg, now, None)[..fault.index]))
  {
    assert cfg.enabled && HealthChecker.Ready(cfg, users, d, now);
    var selected := TopicSelector.Select(topics, d, cfg, now, None);
    var failed := HealthChecker.AfterRecordFailure(d, HealthChecker.JobSelector, Some(fault.message), now);
    if fault.SelectFails? {
      assert Run(topics, users, d, cfg, fault, now) == SelectorRun(Failed(fault.message), failed, []);
    } else {
      assert Run(topics, users, d, cfg, fault, now) == Dispatch(selected, d, fault, now);
      assert Dispatch(selected, d, fault, now) == SelectorRun(Failed(fault.message), failed, Ids(selected[..fault.index]));
    }
    HealthChecker.FailureKeepsKey(d, HealthChecker.JobSelector, Some(fault.message), now, "");
  }

  /** The job stores no negative integer. */
  lemma RunKeepsIntsNonNegative(topics: seq<Topic>, users: seq<User>, d: Data, cfg: Settings, fault: Fault, now: nat)
    requires IntsNonNegative(d)
    ensures IntsNonNegative(Run(topics, users, d, cfg, fault, now).data)
  {
    if fault != NoFault {
      HealthChecker.RecordKeepsIntsNonNegative(d, HealthChecker.JobSelector, Some(fault.message), now);
    }
  }
}
