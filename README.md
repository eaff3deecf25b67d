# discourse-ai-replier, modelled in Dafny

A Discourse plugin in which a set of AI-controlled accounts answers forum
topics. Every few minutes a scheduled job picks a batch of topics. New,
quiet topics come first; old topics that are still read come only when there
are no quiet ones. The job then enqueues one reply job per topic. Each reply
job re-checks its topic and picks one AI account at random. It sends the
topic's first post to an OpenAI-style chat-completion endpoint, with
retries, and posts the answer. It then puts the topic in a cooldown. A
shared Redis instance holds:

- an hourly request counter;
- the per-topic cooldown markers;
- the per-day success and failure tallies for each kind of operation;
- a short-lived log of error messages.

The model has one module per source file. Two small modules sit under them:

| module | models |
|---|---|
| `Common` | decimal rendering of integers, Ruby's `blank?`, `strip` and `join` |
| `Forum` | topics, posts, users and the plugin settings |
| `KeyStore` | the Redis commands the plugin uses, over an explicit clock, as a `class Redis` whose `data: map<string, Entry>` the commands reassign |
| `RateLimiter` | `AiReplier::RateLimiter` |
| `HealthChecker` | `AiReplier::HealthChecker` |
| `TopicSelector` | `AiReplier::TopicSelector` |
| `AiClient` | `AiReplier::AiClient` |
| `Replier` | `AiReplier::Replier` |
| `CreateReplyJob` | `Jobs::AiCreateReply` |
| `TopicSelectorJob` | `Jobs::AiTopicSelector` and the job queue |

Each Redis-backed operation appears twice:

- a pure function of the store contents, such as `AfterIncrement`,
  `AfterRecordFailure` or `Generate`;
- a method on `Redis` whose `ensures` says the new contents are that
  function of the old ones.

The properties are proved about the functions. `reply_to`, `generate_reply`
and the two jobs are methods in the same way: `ReplyTo`, `GenerateReply`,
`CreateReplyJob.Execute` and `TopicSelectorJob.Execute`. Each is specified by
a function (`ReplyAttempt`, `Generate`, `Run`) and is proved equal to it.

Parameters stand for what the code cannot see:

- `now` and `later`: the clock before and after the HTTP exchange;
- `net`: the remote endpoint, one answer per attempt;
- `create`: post creation;
- `choice`: the random pick;
- `lookupFault` and `fault`: errors raised inside the jobs.

Counters are stored as `Value.Int`. Keys are strings with the source's
prefixes and separators, and the topic id in a cooldown key is in decimal
as in the source. The hour and the day are rendered as decimal indices
rather than as `%Y%m%d%H` and `Date.current`. The model proves that
different inputs give different keys.

## Model

| member | source | states |
|---|---|---|
| KeyStore.Get | lib/ai_replier/rate_limiter.rb:25-27 | a key reads as present exactly while it has not expired |
| KeyStore.IncrData | lib/ai_replier/rate_limiter.rb:19-22 | INCR leaves the key live with its integer value one higher (an absent key counts as 0) and touches no other key |
| KeyStore.ExpireData | lib/ai_replier/rate_limiter.rb:21 | EXPIRE on a live key keeps its value until now+secs; on an absent key it changes nothing |
| KeyStore.SetExData | lib/ai_replier/rate_limiter.rb:35-39 | SETEX makes the key read as the value throughout [now, now+secs) and as absent from then on, and touches no other key |
| KeyStore.Ttl | lib/ai_replier/rate_limiter.rb:52 | TTL is -2 exactly for an absent key and positive exactly for a live key with an expiry |
| KeyStore.Redis.SetEx | lib/ai_replier/health_checker.rb:81 | SETEX succeeds exactly when the lifetime is positive; otherwise the store is unchanged |
| KeyStore.Redis.Del | lib/ai_replier/rate_limiter.rb:43 | DEL removes exactly the named keys |
| KeyStore.SetExKeepsIntsNonNegative | lib/ai_replier/rate_limiter.rb:35-39 | storing text or a non-negative integer keeps every stored integer non-negative |
| RateLimiter.RateKeysDistinct | lib/ai_replier/rate_limiter.rb:71-74 | different hour buckets use different counter keys |
| RateLimiter.CooldownKeysDistinct | lib/ai_replier/rate_limiter.rb:76-78 | different topic ids use different cooldown keys |
| RateLimiter.RateKeyOutsideCooldowns | lib/ai_replier/rate_limiter.rb:46-49 | the counter key never matches the cooldown pattern, so clearing all cooldowns cannot reset the quota |
| RateLimiter.CurrentCount | lib/ai_replier/rate_limiter.rb:25-27 | the counter of the hour containing the instant, 0 when absent; IncrementAddsOne, SpreadCount and ResetClearsCount state how operations move it |
| RateLimiter.CanMakeRequest | lib/ai_replier/rate_limiter.rb:11-13 | a request is admitted while the hour's count is below rate_limit_per_hour; ExhaustedAfterMaxIncrements and Stats state when that holds |
| RateLimiter.AfterIncrement | lib/ai_replier/rate_limiter.rb:18-22 | the store after the INCR and one-hour EXPIRE; IncrementAddsOne states its effect |
| RateLimiter.IncrementRequestCount | lib/ai_replier/rate_limiter.rb:15-23 | raises exactly when the hour's budget is spent, and then leaves the store alone; otherwise one INCR and a one-hour EXPIRE of the current bucket |
| RateLimiter.IncrementAddsOne | lib/ai_replier/rate_limiter.rb:15-27 | an increment raises the current count by one for the rest of the hour; other hours' counts and all cooldowns are unchanged |
| RateLimiter.Spread | lib/ai_replier/rate_limiter.rb:15-23 | the store after one counted request at each of a sequence of instants; SpreadCount states its count |
| RateLimiter.SpreadCount | lib/ai_replier/rate_limiter.rb:15-27 | k requests counted at successive instants of one hour raise the count by exactly k, read at any later instant of that hour |
| RateLimiter.ExhaustedAfterMaxIncrements | lib/ai_replier/rate_limiter.rb:11-23 | from an hour whose count is 0, each of rate_limit_per_hour requests at successive instants is admitted at its own instant, and every request for the rest of that hour is refused |
| RateLimiter.ResetRateLimit | lib/ai_replier/rate_limiter.rb:56-58 | deletes the current hour's counter and nothing else |
| RateLimiter.ResetClearsCount | lib/ai_replier/rate_limiter.rb:56-58 | after a reset the current count is 0 and no cooldown changed |
| RateLimiter.InCooldown | lib/ai_replier/rate_limiter.rb:29-31 | a topic is in cooldown while its marker is live; SetCooldownEffect, ClearCooldownEffect and ClearAllEffect state how operations move it |
| RateLimiter.SetTopicCooldown | lib/ai_replier/rate_limiter.rb:33-40 | succeeds exactly when cooldown_hours is positive, and then writes the topic's marker with that lifetime |
| RateLimiter.SetCooldownEffect | lib/ai_replier/rate_limiter.rb:29-40 | the topic is in cooldown throughout [now, now+hours) and not after; the remaining time is the full period; other topics and every hour's count are unchanged |
| RateLimiter.ClearTopicCooldown | lib/ai_replier/rate_limiter.rb:42-44 | deletes exactly that topic's marker |
| RateLimiter.ClearCooldownEffect | lib/ai_replier/rate_limiter.rb:42-44 | afterwards the topic is never in cooldown; other topics and the counts are unchanged |
| RateLimiter.ClearAllCooldowns | lib/ai_replier/rate_limiter.rb:46-49 | deletes every live key under the cooldown prefix |
| RateLimiter.ClearAllEffect | lib/ai_replier/rate_limiter.rb:46-49 | no topic is in cooldown afterwards; every key outside the prefix and every count is unchanged |
| RateLimiter.CooldownRemaining | lib/ai_replier/rate_limiter.rb:51-54 | never negative; positive only while the topic is in cooldown; 0 when it is not |
| RateLimiter.Stats | lib/ai_replier/rate_limiter.rb:60-67 | the remaining budget is max-count clamped at 0, positive exactly when a request would be admitted; the cooldown count is the number of live markers |
| RateLimiter.LedgerKeepsIntsNonNegative | lib/ai_replier/rate_limiter.rb:15-58 | no rate-limiter operation stores a negative integer |
| HealthChecker.OperationNameInjective | lib/ai_replier/health_checker.rb:69 | different operation types have different names |
| HealthChecker.StatKeyInjective | lib/ai_replier/health_checker.rb:68-77 | a tally key determines its outcome, operation and day |
| HealthChecker.ErrorKeyInjective | lib/ai_replier/health_checker.rb:80 | error keys of different seconds differ |
| HealthChecker.KeyFamiliesDisjoint | lib/ai_replier/health_checker.rb:68-83 | tally keys, error keys, the counter key and cooldown keys never collide |
| HealthChecker.RecordSuccess | lib/ai_replier/health_checker.rb:68-72 | one INCR and a seven-day EXPIRE of today's success key for the operation |
| HealthChecker.RecordFailure | lib/ai_replier/health_checker.rb:74-83 | the same on the failure key, plus a one-day error entry when a message is given |
| HealthChecker.BumpEffect | lib/ai_replier/health_checker.rb:70-71 | the bumped key rises by one and every other key is untouched |
| HealthChecker.RecordSuccessEffect | lib/ai_replier/health_checker.rb:68-72 | today's success tally for the operation rises by one; every other tally, error entry, count and cooldown is unchanged |
| HealthChecker.RecordFailureEffect | lib/ai_replier/health_checker.rb:74-83 | today's failure tally rises by one; the message is readable for one day; nothing else changes |
| HealthChecker.LedgerKeepsStats | lib/ai_replier/rate_limiter.rb:15-40 | counting a request or setting a cooldown changes no tally |
| HealthChecker.SuccessRate | lib/ai_replier/health_checker.rb:109-120 | today's reply successes over all reply attempts, as a percentage, 100 with no attempts; SuccessRateBounds and SuccessRateCountsOnlyReplies state its properties |
| HealthChecker.SuccessRateBounds | lib/ai_replier/health_checker.rb:109-120 | the success rate lies in [0, 100]; it is 100 with no attempts, and 100 exactly when there are no reply failures today |
| HealthChecker.SuccessRateCountsOnlyReplies | lib/ai_replier/health_checker.rb:109-120 | recording any other operation leaves the rate unchanged |
| HealthChecker.MatchingEmails | lib/ai_replier/health_checker.rb:43-45 | keeps exactly the emails that start with "fungps" |
| HealthChecker.AiUsers | lib/ai_replier/health_checker.rb:43-45 | the pool holds exactly the users with a matching email |
| HealthChecker.ApiConfigured | lib/ai_replier/health_checker.rb:25-29 | key, URL and model all present; ApiHealthy and AiClient.ValidateConfiguration are stated against it |
| HealthChecker.ApiHealthy | lib/ai_replier/health_checker.rb:31-33 | healthy exactly when key, URL and model are all present |
| HealthChecker.CollectErrors | lib/ai_replier/health_checker.rb:122-129 | each of the four errors is listed exactly when its condition holds, in the source's order |
| HealthChecker.Ready | lib/ai_replier/health_checker.rb:61-66 | plugin on, API configured, AI accounts present and budget left; ReadyImpliesNoErrors and MissingModelGoesUnreported relate it to the error list |
| HealthChecker.ReadyImpliesNoErrors | lib/ai_replier/health_checker.rb:61-66 | a ready system reports no errors |
| HealthChecker.MissingModelGoesUnreported | lib/ai_replier/health_checker.rb:122-129 | a missing model makes the system not ready, yet the error list is empty |
| HealthChecker.RecordKeepsIntsNonNegative | lib/ai_replier/health_checker.rb:68-83 | recording stores no negative integer |
| TopicSelector.Filter | lib/ai_replier/topic_selector.rb:63-77 | keeps exactly the members satisfying the predicate |
| TopicSelector.FilterIsSubseq | lib/ai_replier/topic_selector.rb:63-77 | the post-filters keep the tier's order |
| TopicSelector.Take | lib/ai_replier/topic_selector.rb:33 | LIMIT n yields a prefix of at most n rows, all of them when fewer exist |
| TopicSelector.SortDesc | lib/ai_replier/topic_selector.rb:32 | ORDER BY ... DESC yields a descending permutation of its input |
| TopicSelector.TopN | lib/ai_replier/topic_selector.rb:27-47 | an ordered, limited query returns a descending sub-multiset, all of the input when under the limit, and no row left out ranks above a row returned |
| TopicSelector.InBaseScope | lib/ai_replier/topic_selector.rb:49-61 | the base scope of both tiers; TierMembers and SelectedTopicsQualify state that every tier member is in it |
| TopicSelector.QuietTopics | lib/ai_replier/topic_selector.rb:27-35 | the quiet-tier query; QuietTierIsTopN states what it returns |
| TopicSelector.OlderWorthyTopics | lib/ai_replier/topic_selector.rb:37-47 | the old-tier query; OldTierIsTopN states what it returns |
| TopicSelector.QuietTierIsTopN | lib/ai_replier/topic_selector.rb:27-35 | the quiet tier is the newest in-scope topics with at most quiet_topic_max_posts posts, newest first |
| TopicSelector.OldTierIsTopN | lib/ai_replier/topic_selector.rb:37-47 | the old tier is the most recently active in-scope topics idle past old_topic_days with enough views, most recent first |
| TopicSelector.TierMembers | lib/ai_replier/topic_selector.rb:27-61 | every tier member is an input topic in the base scope satisfying its tier's condition |
| TopicSelector.SelectIsFilteredTier | lib/ai_replier/topic_selector.rb:6-23 | select is the chosen tier with the cooldown and age filters applied |
| TopicSelector.FilterCooldownTopics | lib/ai_replier/topic_selector.rb:63-67 | drops the topics in cooldown; PostFilters and SelectedTopicsQualify state what it keeps |
| TopicSelector.FilterByAge | lib/ai_replier/topic_selector.rb:69-77 | drops topics younger than min_topic_age_hours when that is positive; PostFilters and AgeFilterIdentityAtZero state what it keeps |
| TopicSelector.Select | lib/ai_replier/topic_selector.rb:6-23 | the waterfall of the two tiers followed by the two filters; SelectIsFilteredTier, Waterfall, SelectLength and SelectedTopicsQualify state its properties |
| TopicSelector.PostFilters | lib/ai_replier/topic_selector.rb:63-77 | the two post-filters in sequence are one filter on their conjunction |
| TopicSelector.Waterfall | lib/ai_replier/topic_selector.rb:11-15 | with a non-empty quiet tier the result comes from it alone; otherwise from the old tier |
| TopicSelector.SelectLength | lib/ai_replier/topic_selector.rb:6-23 | at most limit topics, the batch size when no limit is given |
| TopicSelector.SelectedTopicsQualify | lib/ai_replier/topic_selector.rb:6-23 | every selected topic is in scope, in a tier, out of cooldown and old enough |
| TopicSelector.AllCooledDownYieldsNothing | lib/ai_replier/topic_selector.rb:11-17 | a non-empty quiet tier all in cooldown yields nothing, without falling back to the old tier |
| TopicSelector.AgeFilterIdentityAtZero | lib/ai_replier/topic_selector.rb:69-77 | with a minimum age of 0 the age filter keeps everything |
| AiClient.ValidateConfiguration | lib/ai_replier/ai_client.rb:52-56 | no error exactly when configured; otherwise the first missing setting's message |
| AiClient.BuildRequestBody | lib/ai_replier/ai_client.rb:104-120 | the JSON body sent to the endpoint; RequestBodyShape states its fields |
| AiClient.RequestBodyShape | lib/ai_replier/ai_client.rb:104-120 | model, system then user message, the fixed sampling parameters, max_tokens only when given |
| AiClient.RequestDeterminesPrompt | lib/ai_replier/ai_client.rb:97-102 | the request carries the prompt unchanged and the key after "Bearer " |
| AiClient.BuildConnection | lib/ai_replier/ai_client.rb:84-95 | the timeout is the one given or the setting; the open timeout is half of it, rounded down |
| AiClient.Transport | lib/ai_replier/ai_client.rb:87-94 | a status from 400 to 599 or an unreachable server raises; a raised error carries the status exactly when there was a response |
| AiClient.Backoff | lib/ai_replier/ai_client.rb:74 | the base delay before retry k is 2^k |
| AiClient.RetryFrom | lib/ai_replier/ai_client.rb:58-82 | the retry loop as a function of the attempt reached so far; RetryFromFacts and RetryFacts state its outcome |
| AiClient.RetryFromFacts | lib/ai_replier/ai_client.rb:58-82 | the retry loop from any intermediate state, by induction (see RetryFacts) |
| AiClient.RetryFacts | lib/ai_replier/ai_client.rb:58-82 | between 1 and max(1, max_retries) attempts; all but the last failed; a failure comes out only after every attempt; the delays are the backoff sequence |
| AiClient.AllAttemptsFail | lib/ai_replier/ai_client.rb:58-82 | when every attempt fails, exactly max(1, max_retries) requests are made and the last error is raised |
| AiClient.UnauthorizedIsRetried | lib/ai_replier/ai_client.rb:71-80 | a 401 is retried like any other error |
| AiClient.BackoffIncreasing | lib/ai_replier/ai_client.rb:74 | the base delays strictly increase |
| AiClient.MakeApiRequest | lib/ai_replier/ai_client.rb:58-82 | the loop's outcome is the retry function's; a response records one api_request success |
| AiClient.Classify | lib/ai_replier/ai_client.rb:134-160 | 401, 429, 5xx, other statuses and no response map to their categories and messages |
| AiClient.ClassifyTransported | lib/ai_replier/ai_client.rb:134-160 | a raised 401 is an auth failure, 429 a rate-limit failure, 5xx a server failure, no response a network failure |
| AiClient.ExtractReply | lib/ai_replier/ai_client.rb:122-131 | nil exactly for blank content; otherwise the content stripped |
| AiClient.ExtractReplyTrims | lib/ai_replier/ai_client.rb:122-131 | an extracted reply is the content with only white space and NUL cut from its ends, and none left at either end |
| AiClient.ExtractReplyKeepsTrimmed | lib/ai_replier/ai_client.rb:130 | extraction is the identity on already-trimmed text |
| AiClient.GenerateReply | lib/ai_replier/ai_client.rb:12-34 | the method's reply, store and request count are those of the generate function |
| AiClient.Generate | lib/ai_replier/ai_client.rb:12-34 | generate_reply's result, store and request count; MissingConfigurationSkipsRequest, RateLimitedSkipsRequest, FailingServiceYieldsNothing, ResponseCountsOnce, LateRefusalDropsReply and the Generate lemmas state its cases |
| AiClient.MissingConfigurationSkipsRequest | lib/ai_replier/ai_client.rb:12-34 | a missing setting: no reply, no request, one api_request failure with the configuration message |
| AiClient.RateLimitedSkipsRequest | lib/ai_replier/ai_client.rb:15-18 | a spent budget: nil, no request, nothing recorded |
| AiClient.FailingServiceYieldsNothing | lib/ai_replier/ai_client.rb:20-29 | all attempts failing: nil, max(1, max_retries) requests, one failure classified from the last error, no count |
| AiClient.ResponseCountsOnce | lib/ai_replier/ai_client.rb:20-26 | a response in the same hour raises the count by exactly one, even when its content is blank; the reply is the extracted content |
| AiClient.LateRefusalDropsReply | lib/ai_replier/ai_client.rb:24-33 | a budget spent by the time of the increment drops the reply and counts nothing |
| AiClient.GenerateCountsAtMostOne | lib/ai_replier/ai_client.rb:12-34 | one generation raises the count by at most one; a reply implies at least one request |
| AiClient.GenerateKeepsReplyState | lib/ai_replier/ai_client.rb:12-34 | generation changes no cooldown and no reply tally |
| AiClient.GenerateKeepsIntsNonNegative | lib/ai_replier/ai_client.rb:12-34 | generation stores no negative integer |
| AiClient.AfterExchange | lib/ai_replier/ai_client.rb:20-33 | the steps of generate_reply after the HTTP exchange; the Exchange lemmas state their effect |
| AiClient.ExchangeCountsAtMostOne | lib/ai_replier/ai_client.rb:20-33 | whatever the exchange returned, the current hour's count rises by at most one |
| AiClient.ExchangeKeepsReplyState | lib/ai_replier/ai_client.rb:20-33 | the steps after the exchange change no cooldown and no reply tally |
| AiClient.ExchangeKeepsIntsNonNegative | lib/ai_replier/ai_client.rb:20-33 | the steps after the exchange store no negative integer |
| Replier.CanReplyTo | lib/ai_replier/replier.rb:57-72 | open, unarchived, undeleted, not a private message, out of cooldown and old enough; SelectedTopicsAreReplyable, NoSecondReplyDuringCooldown and IneligibleTopicSkipped use it |
| Replier.ReplyAttempt | lib/ai_replier/replier.rb:8-53 | reply_to branch by branch; ReplyTo is proved equal to it and the Replier lemmas below state its cases |
| Replier.Conclude | lib/ai_replier/replier.rb:27-46 | the steps of reply_to after generation; ConcludeSuccess and ConcludeFailure state their effect |
| Replier.SelectAiUser | lib/ai_replier/replier.rb:74-79 | nil exactly for an empty pool; otherwise a member of the pool |
| Replier.EveryAiUserSelectable | lib/ai_replier/replier.rb:74-79 | every account in the pool can be picked |
| Replier.PreparePrompt | lib/ai_replier/replier.rb:81-86 | the first post's raw text, or "" without a first post |
| Replier.ReplyTo | lib/ai_replier/replier.rb:8-53 | the method's result, store, requests and draft are those of the reply-attempt function |
| Replier.Finish | lib/ai_replier/replier.rb:27-46 | the steps after generation give the result, store and draft of the conclude function |
| Replier.ConcludeSuccess | lib/ai_replier/replier.rb:27-46 | after generation, success happens exactly when the post is saved and the cooldown set; then the topic is in cooldown for the configured hours and one reply success is added |
| Replier.ConcludeFailure | lib/ai_replier/replier.rb:27-46 | a failure after generation sets no cooldown, adds no reply success and adds one reply failure |
| Replier.ConcludeKeepsIntsNonNegative | lib/ai_replier/replier.rb:27-46 | the steps after generation store no negative integer |
| Replier.SuccessIffPersisted | lib/ai_replier/replier.rb:33-46 | true exactly when the post was saved and the cooldown set; then the topic is in cooldown for the configured hours and today's reply successes rose by one |
| Replier.FailureSetsNoCooldown | lib/ai_replier/replier.rb:8-53 | a failed attempt sets no cooldown and adds no reply success on any day |
| Replier.FailureRecordsOneFailure | lib/ai_replier/replier.rb:16-53 | past the eligibility check, a failed attempt adds exactly one reply failure: at the first clock reading when there is no AI account, at the second otherwise |
| Replier.IneligibleTopicSkipped | lib/ai_replier/replier.rb:9-14 | a missing or ineligible topic: false and no effect at all |
| Replier.AiUserPool | lib/ai_replier/replier.rb:16-21 | no AI account: false with the "No AI user available" failure; otherwise the author is an AI account |
| Replier.BlankGenerationCreatesNoPost | lib/ai_replier/replier.rb:27-31 | a blank generation creates no post and records "Empty AI response" |
| Replier.RejectedPostRecordsMessages | lib/ai_replier/replier.rb:41-46 | a rejected post records its messages joined by ", " and sets no cooldown |
| Replier.RaisedPostRecordsMessage | lib/ai_replier/replier.rb:33-53 | post creation that raises: false, the error's message recorded as the reply failure, no cooldown |
| Replier.RefusedCooldownRecordsError | lib/ai_replier/replier.rb:33-53 | a saved post whose cooldown SETEX the store refuses: false, the store's error recorded as the reply failure, no cooldown and no success |
| Replier.DraftIsGeneratedReply | lib/ai_replier/replier.rb:23-33 | the post is for the topic and carries the generated, non-blank text |
| Replier.NoSecondReplyDuringCooldown | lib/ai_replier/replier.rb:57-72 | after a success, the topic is turned away for the whole cooldown period |
| Replier.SelectedTopicsAreReplyable | lib/ai_replier/replier.rb:57-72 | every selected topic passes the reply re-check at the same instant |
| Replier.ReplyKeepsIntsNonNegative | lib/ai_replier/replier.rb:8-53 | a reply attempt stores no negative integer, so the success rate read afterwards is in [0, 100] |
| CreateReplyJob.FindTopic | app/jobs/regular/ai_create_reply_job.rb:18 | finds a topic with the id exactly when one exists |
| CreateReplyJob.Run | app/jobs/regular/ai_create_reply_job.rb:5-46 | the job's guards, lookup and single replier call; GuardsStopBeforeReplier, ValidTopicRepliedOnce and LookupFaultRecorded state its cases |
| CreateReplyJob.Execute | app/jobs/regular/ai_create_reply_job.rb:5-46 | the method's outcome, store and replier calls are those of the job's run function |
| CreateReplyJob.GuardsStopBeforeReplier | app/jobs/regular/ai_create_reply_job.rb:9-29 | no id, plugin off, no topic, or a closed, archived or deleted topic: the replier is not called and nothing changes |
| CreateReplyJob.ValidTopicRepliedOnce | app/jobs/regular/ai_create_reply_job.rb:31-33 | past the guards the replier runs exactly once, and its result and effects are the job's |
| CreateReplyJob.LookupFaultRecorded | app/jobs/regular/ai_create_reply_job.rb:42-45 | an error is recorded as one job_reply failure |
| CreateReplyJob.RunKeepsIntsNonNegative | app/jobs/regular/ai_create_reply_job.rb:5-46 | the job stores no negative integer |
| TopicSelectorJob.JobQueue.Enqueue | app/jobs/scheduled/ai_topic_selector_job.rb:31 | appends one job for the topic |
| TopicSelectorJob.Dispatch | app/jobs/scheduled/ai_topic_selector_job.rb:22-32 | the ids enqueued are those of the first selected topics, in selection order |
| TopicSelectorJob.EnqueueSelected | app/jobs/scheduled/ai_topic_selector_job.rb:22-39 | the loop's outcome, store and queue are those of the dispatch function: every id in order, or those before the enqueue that raises, then one failure record |
| TopicSelectorJob.Run | app/jobs/scheduled/ai_topic_selector_job.rb:7-40 | the job's guards, selection and dispatch; NotRunningEnqueuesNothing, EnqueuesSelection, EnqueuedTopicsAreReplyable and FaultRecorded state its cases |
| TopicSelectorJob.Execute | app/jobs/scheduled/ai_topic_selector_job.rb:7-40 | the method's outcome, store and enqueued ids are those of the job's run function |
| TopicSelectorJob.NotRunningEnqueuesNothing | app/jobs/scheduled/ai_topic_selector_job.rb:9-15 | plugin off or not ready: nothing enqueued or recorded |
| TopicSelectorJob.EnqueuesSelection | app/jobs/scheduled/ai_topic_selector_job.rb:20-32 | the selection's ids are enqueued in order, at most batch_size of them |
| TopicSelectorJob.EnqueuedTopicsAreReplyable | app/jobs/scheduled/ai_topic_selector_job.rb:20-32 | every enqueued id belongs to a topic the replier would accept at that instant |
| TopicSelectorJob.FaultRecorded | app/jobs/scheduled/ai_topic_selector_job.rb:36-39 | an error is recorded as one job_selector failure; jobs enqueued before it stay enqueued |
| TopicSelectorJob.RunKeepsIntsNonNegative | app/jobs/scheduled/ai_topic_selector_job.rb:7-40 | the job stores no negative integer |

## Behaviour worth knowing

- **Empty content.** `make_api_request` records an `:api_request` success
  as soon as any response arrives, and `increment_request_count!` runs
  before the caller sees the reply. So an empty completion uses up quota
  (`AiClient.ResponseCountsOnce`). The failure is then recorded once,
  under `:reply`, by the replier.
- **Already-replied topics.** No filter in `TopicSelector` excludes topics
  an AI account has already answered; only the cooldown keeps a topic
  from being picked again.
- **Admission.** `generate_reply` checks the budget before the HTTP
  exchange, and `increment_request_count!` checks it again when it counts
  the request afterwards. The model keeps both checks, on the two clocks
  `now` and `later`; a budget spent in between drops the fetched reply
  (`AiClient.LateRefusalDropsReply`).
- **Missing model.** `collect_errors` does not report a missing model,
  although `ready?` fails on it (`HealthChecker.MissingModelGoesUnreported`).

## Left out

- HTTP, JSON and Faraday. The endpoint is a function from a request and an
  attempt number to a status and content. The model does not cover:
  - the JSON parse of the body;
  - a `choices` entry that is not a string;
  - Faraday's own error-message wording, of which only "the server
    responded with status N" is modelled.
- Sleeping. The random jitter `rand(0..1.0)` in the retry delay is not
  modelled, and `AiClient.Backoff` records only the base `2^k`. Nothing
  waits.
- Floating point. `SuccessRate` is an exact `real`; the `round(2)` is not
  modelled.
- Concurrency. The `multi` transaction is treated as one atomic step.
  Races between concurrent reply jobs are not modelled: every run sees the
  store before it and leaves the store after it.
- Time formats. The hour bucket is rendered as the decimal hour index,
  not `%Y%m%d%H`, and the day as the decimal day index, not
  `Date.current`. The proofs use only the fact that different buckets give
  different keys.
- Error keys. An error key is unique per second. Two failures in the same
  second overwrite one another, and the model does the same.
- `KEYS` sees exactly the live keys; its cost is not modelled.
- Database-backed reporting, which counts rows and does not affect any
  decision:
  - `TopicSelector.stats`;
  - `HealthChecker.check`, `stats`, `recent_replies_count`,
    `active_ai_users`, `last_health_check_time` and `test_api_connection`;
  - `AiClient.test_connection`.
- `ActiveRecord`. The topic rows are a sequence handed in by the caller,
  and any default scope on `Topic.find_by` is not modelled. Ties in
  `ORDER BY` are broken by insertion order, where the database may use any
  order.
- Replier.ReplyTo: the only errors modelled inside `reply_to` are those
  of post creation and of the cooldown `SETEX`. An error raised by the
  store in the eligibility check or in the recorders, by the AI-account
  query or by prompt preparation is not modelled, so the model does not
  show that such an error, too, ends in `false` and one `:reply` failure.
- Internationalisation and logging: `I18n.t` texts are replaced by the
  datatype `HealthError`, and log lines are dropped.
- `Common.Strip` and `Common.IsBlank` cover ASCII whitespace and NUL only.
  Unicode whitespace is not modelled.
- `reply_to` returns `nil` for a missing topic; the model returns `false`,
  which is how the job reads it.
- `INCR` on a key that holds text fails in Redis; the model reads such a
  value as 0. The plugin never stores text under a counter key.
- `example.rb` is an older copy of the selector and is not part of this
  model. The diagnostic scripts `diagnose_concurrency.rb` and
  `improve_concurrency.rb` are not part of it either.
- AiClient.ResponseCountsOnce: proved only when the hour's count at `later`
  equals the count at `now`. Otherwise the increment lands in a new hour,
  and `AiClient.GenerateCountsAtMostOne` covers that case.
- AiClient.GenerateCountsAtMostOne: bounds the count at the hour current
  after the exchange, not at the hour of admission.
- CreateReplyJob.LookupFaultRecorded: the only error modelled inside the
  job is a failing topic lookup. `reply_to` rescues its own errors, and
  logging is not modelled.
- TopicSelectorJob.FaultRecorded: errors are injected at selection or at
  the k-th enqueue; which Ruby exception is raised is not modelled.
