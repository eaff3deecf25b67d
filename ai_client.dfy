/** The generation client: configuration check, admission against the
    hourly budget, the HTTP exchange with its retry loop, classification of
    transport errors into health categories, and extraction of the reply.
    The remote service is a parameter `net` that answers the request sent
    as attempt number `k` (0, 1, ...). */
module AiClient {
  import opened Common
  import opened KeyStore
  import opened Forum
  import RateLimiter
  import HealthChecker

  // ---------------------------------------------------------------------
  // Configuration and request

  /** `validate_configuration!`: the message of the first missing setting. */
  function ValidateConfiguration(cfg: Settings): (err: Option<string>)
    ensures err.None? <==> HealthChecker.ApiConfigured(cfg)
    ensures IsBlank(cfg.apiKey) ==> err == Some("API key not configured")
    ensures !IsBlank(cfg.apiKey) && IsBlank(cfg.apiUrl) ==> err == Some("API URL not configured")
    ensures !IsBlank(cfg.apiKey) && !IsBlank(cfg.apiUrl) && IsBlank(cfg.model) ==> err == Some("Model not configured")
  {
    if IsBlank(cfg.apiKey) then Some("API key not configured")
    else if IsBlank(cfg.apiUrl) then Some("API URL not configured")
    else if IsBlank(cfg.model) then Some("Model not configured")
    else None
  }

  datatype Message = Message(role: string, content: string)

  /** The JSON body of a chat completion request. */
  datatype RequestBody = RequestBody(
    model: string,
    messages: seq<Message>,
    temperature: real,
    topP: real,
    frequencyPenalty: real,
    presencePenalty: real,
    maxTokens: Option<int>)

  datatype Request = Request(url: string, authorization: string, contentType: string, body: RequestBody)

  /** `build_request_body`. */
  function BuildRequestBody(cfg: Settings, prompt: string, maxTokens: Option<int>): RequestBody {
    RequestBody(
      cfg.model,
      [Message("system", cfg.systemPrompt), Message("user", prompt)],
      0.7, 0.9, 0.3, 0.3,
      maxTokens)
  }

  /** `configure_request` on a POST to the configured URL. */
  function BuildRequest(cfg: Settings, prompt: string, maxTokens: Option<int>): Request {
    Request(cfg.apiUrl, "Bearer " + cfg.apiKey, "application/json", BuildRequestBody(cfg, prompt, maxTokens))
  }

  /** The body carries the system prompt, then the prompt as the user's
      message, and nothing else; the sampling settings are fixed; the token
      limit is present exactly when one is supplied. */
  lemma RequestBodyShape(cfg: Settings, prompt: string, maxTokens: Option<int>)
    ensures var b := BuildRequestBody(cfg, prompt, maxTokens);
      |b.messages| == 2
      && b.messages[0].role == "system" && b.messages[0].content == cfg.systemPrompt
      && b.messages[1].role == "user" && b.messages[1].content == prompt
      && b.model == cfg.model
      && b.temperature == 0.7 && b.topP == 0.9
      && b.frequencyPenalty == 0.3 && b.presencePenalty == 0.3
      && (b.maxTokens.Some? <==> maxTokens.Some?)
      && (maxTokens.Some? ==> b.maxTokens == maxTokens)
  {
  }

  /** The request is authorised by the configured key and names the
      configured model; different prompts give different requests. */
  lemma RequestDeterminesPrompt(cfg: Settings, p1: string, p2: string)
    requires BuildRequest(cfg, p1, None) == BuildRequest(cfg, p2, None)
    ensures p1 == p2
    ensures BuildRequest(cfg, p1, None).authorization[7..] == cfg.apiKey
  {
    assert BuildRequest(cfg, p1, None).body.messages[1].content == p1;
  }

  datatype Connection = Connection(timeout: int, openTimeout: int)

  /** `build_connection(timeout:)`: the setting when no timeout is given;
      connecting may take half of it (integer division). */
  function BuildConnection(cfg: Settings, timeout: Option<int>): (c: Connection)
    ensures timeout.Some? ==> c.timeout == timeout.value
    ensures timeout.None? ==> c.timeout == cfg.requestTimeout
    ensures 2 * c.openTimeout <= c.timeout < 2 * c.openTimeout + 2
  {
    var t := if timeout.Some? then timeout.value else cfg.requestTimeout;
    Connection(t, t / 2)
  }

  // ---------------------------------------------------------------------
  // One HTTP exchange

  /** What the remote end does with one request: it answers with a status
      and (from the JSON body) the first choice's message content, or it
      cannot be reached (connection refused, timeout, ...). */
  datatype Exchange =
    | Answered(status: int, content: Option<string>)
    | Unreachable(errorClass: string, errorMessage: string)

  /** The outcome of one `conn.post` behind the `raise_error` middleware:
      a response, or a `Faraday::Error` that may carry the response status. */
  datatype Transported =
    | Fetched(status: int, content: Option<string>)
    | FaradayError(errorClass: string, errorMessage: string, responseStatus: Option<int>)

  /** The error class `raise_error` raises for a 4xx/5xx status. */
  function ErrorClassFor(status: int): string {
    if status == 400 then "Faraday::BadRequestError"
    else if status == 401 then "Faraday::UnauthorizedError"
    else if status == 403 then "Faraday::ForbiddenError"
    else if status == 404 then "Faraday::ResourceNotFound"
    else if status == 407 then "Faraday::ProxyAuthError"
    else if status == 408 then "Faraday::RequestTimeoutError"
    else if status == 409 then "Faraday::ConflictError"
    else if status == 422 then "Faraday::UnprocessableEntityError"
    else if status == 429 then "Faraday::TooManyRequestsError"
    else if status < 500 then "Faraday::ClientError"
    else "Faraday::ServerError"
  }

  /** The `raise_error` middleware: statuses 400 to 599 become errors that
      keep the status; an unreachable server becomes an error without one. */
  function Transport(e: Exchange): (t: Transported)
    ensures t.Fetched? <==> e.Answered? && !(400 <= e.status <= 599)
    ensures t.FaradayError? ==> (t.responseStatus.Some? <==> e.Answered?)
    ensures t.FaradayError? && e.Answered? ==> t.responseStatus == Some(e.status)
  {
    match e
    case Answered(status, content) =>
      if 400 <= status <= 599 then
        FaradayError(ErrorClassFor(status), "the server responded with status " + IntToString(status), Some(status))
      else Fetched(status, content)
    case Unreachable(c, m) => FaradayError(c, m, None)
  }

  // ---------------------------------------------------------------------
  // The retry loop

  function Pow2(k: nat): (p: nat)
    ensures p >= 1
  {
    if k == 0 then 1 else 2 * Pow2(k - 1)
  }

  /** The base delays before retries 1, 2, ..., k: 2^1, ..., 2^k. */
  function Backoff(k: nat): (s: seq<nat>)
    ensures |s| == k
    ensures forall i :: 0 <= i < k ==> s[i] == Pow2(i + 1)
  {
    if k == 0 then [] else Backoff(k - 1) + [Pow2(k)]
  }

  /** The request attempts made, how they ended, and the base delays slept
      in between. */
  datatype Attempted = Attempted(result: Transported, attempts: nat, delays: seq<nat>)

  /** The `begin ... rescue ... retry` loop from attempt `retries` on, with
      the delays slept so far. */
  function RetryFrom(net: (Request, nat) -> Exchange, req: Request, maxRetries: int, retries: nat, delays: seq<nat>): Attempted
    decreases if retries < maxRetries then maxRetries - retries else 0
  {
    var r := Transport(net(req, retries));
    if r.Fetched? then Attempted(r, retries + 1, delays)
    else if retries + 1 < maxRetries then RetryFrom(net, req, maxRetries, retries + 1, delays + [Pow2(retries + 1)])
    else Attempted(r, retries + 1, delays)
  }

  function Retry(net: (Request, nat) -> Exchange, req: Request, maxRetries: int): Attempted {
    RetryFrom(net, req, maxRetries, 0, [])
  }

  function MaxAttempts(maxRetries: int): nat {
    if maxRetries >= 1 then maxRetries else 1
  }

  lemma {:induction false} RetryFromFacts(net: (Request, nat) -> Exchange, req: Request, maxRetries: int, retries: nat, delays: seq<nat>)
    requires retries < MaxAttempts(maxRetries)
    requires delays == Backoff(retries)
    requires forall i :: 0 <= i < retries ==> Transport(net(req, i)).FaradayError?
    ensures var a := RetryFrom(net, req, maxRetries, retries, delays);
      1 <= a.attempts <= MaxAttempts(maxRetries)
      && a.result == Transport(net(req, a.attempts - 1))
      && (forall i :: 0 <= i < a.attempts - 1 ==> Transport(net(req, i)).FaradayError?)
      && (a.result.FaradayError? ==> a.attempts == MaxAttempts(maxRetries))
      && a.delays == Backoff(a.attempts - 1)
    decreases MaxAttempts(maxRetries) - retries
  {
    var r := Transport(net(req, retries));
    if r.FaradayError? && retries + 1 < maxRetries {
      RetryFromFacts(net, req, maxRetries, retries + 1, delays + [Pow2(retries + 1)]);
    }
  }

  /** `make_api_request`'s loop: at least one and at most
      `max(1, max_retries)` attempts; every attempt but the last failed; a
      failure is final only after all of them; the base delay before retry
      `k` is `2^k`. */
  lemma RetryFacts(net: (Request, nat) -> Exchange, req: Request, maxRetries: int)
    ensures var a := Retry(net, req, maxRetries);
      1 <= a.attempts <= MaxAttempts(maxRetries)
      && a.result == Transport(net(req, a.attempts - 1))
      && (forall i :: 0 <= i < a.attempts - 1 ==> Transport(net(req, i)).FaradayError?)
      && (a.result.FaradayError? ==> a.attempts == MaxAttempts(maxRetries))
      && a.delays == Backoff(a.attempts - 1)
  {
    RetryFromFacts(net, req, maxRetries, 0, []);
  }

  /** When every attempt fails, exactly `max(1, max_retries)` requests are
      made and the last error is what comes out. */
  lemma AllAttemptsFail(net: (Request, nat) -> Exchange, req: Request, maxRetries: int)
    requires forall i :: Transport(net(req, i)).FaradayError?
    ensures Retry(net, req, maxRetries).attempts == MaxAttempts(maxRetries)
    ensures Retry(net, req, maxRetries).result == Transport(net(req, MaxAttempts(maxRetries) - 1))
    ensures |Retry(net, req, maxRetries).delays| == MaxAttempts(maxRetries) - 1
  {
    RetryFacts(net, req, maxRetries);
  }

  /** A rejected key (401) is retried like any other error. */
  lemma UnauthorizedIsRetried(net: (Request, nat) -> Exchange, req: Request, maxRetries: int)
    requires maxRetries >= 2
    requires net(req, 0) == Answered(401, None)
    ensures Retry(net, req, maxRetries).attempts >= 2
  {
    RetryFacts(net, req, maxRetries);
  }

  /** The delays grow strictly: each is twice the one before. */
  lemma BackoffIncreasing(k: nat)
    ensures forall i, j :: 0 <= i < j < k ==> Backoff(k)[i] < Backoff(k)[j]
  {
    forall i, j | 0 <= i < j < k ensures Backoff(k)[i] < Backoff(k)[j] {
      Pow2Increasing(i + 1, j + 1);
    }
  }

  lemma {:induction false} Pow2Increasing(a: nat, b: nat)
    requires a < b
    ensures Pow2(a) < Pow2(b)
  {
    if b > a + 1 {
      Pow2Increasing(a, b - 1);
    }
  }

  /** `make_api_request`: one attempt after another until a response comes
      back or the retries run out; a response is recorded as an
      `:api_request` success. */
  method MakeApiRequest(redis: Redis, cfg: Settings, req: Request, net: (Request, nat) -> Exchange, later: nat)
    returns (a: Attempted)
    modifies redis
    ensures a == Retry(net, req, cfg.maxRetries)
    ensures redis.data == if a.result.Fetched?
      then HealthChecker.AfterRecordSuccess(old(redis.data), HealthChecker.ApiRequest, later)
      else old(redis.data)
  {
    var retries: nat := 0;
    var delays: seq<nat> := [];
    while true
      invariant Retry(net, req, cfg.maxRetries) == RetryFrom(net, req, cfg.maxRetries, retries, delays)
      invariant redis.data == old(redis.data)
      decreases if retries < cfg.maxRetries then cfg.maxRetries - retries else 0
    {
      var r := Transport(net(req, retries));
      if r.Fetched? {
        HealthChecker.RecordSuccess(redis, HealthChecker.ApiRequest, later);
        return Attempted(r, retries + 1, delays);
      }
      if retries + 1 < cfg.maxRetries {
        retries := retries + 1;
        delays := delays + [Pow2(retries)];
      } else {
        return Attempted(r, retries + 1, delays);
      }
    }
  }

  // ---------------------------------------------------------------------
  // Error classification and extraction

  /** The health category and message `handle_api_error` records. */
  datatype ApiFailure = ApiFailure(op: HealthChecker.Operation, message: string)

  function Classify(errorClass: string, errorMessage: string, status: Option<int>): (f: ApiFailure)
    ensures status == Some(401) ==> f == ApiFailure(HealthChecker.ApiAuth, "Invalid API key")
    ensures status == Some(429) ==> f == ApiFailure(HealthChecker.ApiRateLimit, "API rate limit")
    ensures status.Some? && 500 <= status.value <= 599 ==>
      f == ApiFailure(HealthChecker.ApiServer, "Server error " + IntToString(status.value))
    ensures status.Some? && status.value != 401 && status.value != 429 && !(500 <= status.value <= 599) ==>
      f == ApiFailure(HealthChecker.ApiRequest, errorClass + ": " + errorMessage)
    ensures status.None? ==> f == ApiFailure(HealthChecker.ApiNetwork, errorClass + ": " + errorMessage)
  {
    var errorMsg := errorClass + ": " + errorMessage;
    match status
    case None => ApiFailure(HealthChecker.ApiNetwork, errorMsg)
    case Some(s) =>
      if s == 401 then ApiFailure(HealthChecker.ApiAuth, "Invalid API key")
      else if s == 429 then ApiFailure(HealthChecker.ApiRateLimit, "API rate limit")
      else if 500 <= s <= 599 then ApiFailure(HealthChecker.ApiServer, "Server error " + IntToString(s))
      else ApiFailure(HealthChecker.ApiRequest, errorMsg)
  }

  /** On an exchange the server answered with a 4xx/5xx status, the
      category depends on the status alone; an unreachable server is a
      network failure. */
  lemma ClassifyTransported(e: Exchange)
    requires Transport(e).FaradayError?
    ensures var t := Transport(e);
      var op := Classify(t.errorClass, t.errorMessage, t.responseStatus).op;
      (e.Unreachable? ==> op == HealthChecker.ApiNetwork)
      && (e.Answered? && e.status == 401 ==> op == HealthChecker.ApiAuth)
      && (e.Answered? && e.status == 429 ==> op == HealthChecker.ApiRateLimit)
      && (e.Answered? && 500 <= e.status <= 599 ==> op == HealthChecker.ApiServer)
      && (e.Answered? && 400 <= e.status <= 499 && e.status != 401 && e.status != 429 ==> op == HealthChecker.ApiRequest)
  {
  }

  /** `extract_reply`: nothing for missing or blank content, otherwise the
      content with surrounding white space removed. */
  function ExtractReply(content: Option<string>): (r: Option<string>)
    ensures r.None? <==> IsBlankOpt(content)
    ensures r.Some? ==> r.value == Strip(content.value)
  {
    if IsBlankOpt(content) then None else Some(Strip(content.value))
  }

  /** A non-blank reply is the content trimmed: a piece of it with only
      white space (or NUL) around, and no such character at either end. */
  lemma ExtractReplyTrims(content: Option<string>)
    requires !IsBlankOpt(content)
    ensures var r := ExtractReply(content).value;
      (exists p, q :: content.value == p + r + q && AllStrippable(p) && AllStrippable(q))
      && (|r| == 0 || (!Strippable(r[0]) && !Strippable(r[|r| - 1])))
  {
  }

  /** Content that is already trimmed and not blank comes back unchanged. */
  lemma ExtractReplyKeepsTrimmed(s: string)
    requires !IsBlank(s)
    requires !Strippable(s[0]) && !Strippable(s[|s| - 1])
    ensures ExtractReply(Some(s)) == Some(s)
  {
    assert StripLeft(s) == s;
    assert StripRight(s) == s;
  }

  // ---------------------------------------------------------------------
  // generate_reply

  /** The message of the `RateLimitExceeded` raised without one. */
  const RATE_LIMIT_EXCEEDED_MESSAGE: string := "AiReplier::RateLimiter::RateLimitExceeded"

  /** The reply, the store afterwards and the number of HTTP requests sent. */
  datatype Generation = Generation(reply: Option<string>, data: Data, requests: nat)

  /** `generate_reply(prompt)`. Configuration and admission are checked at
      `now`; everything after the exchange happens at `later`. */
  function Generate(d: Data, cfg: Settings, prompt: string, net: (Request, nat) -> Exchange, now: nat, later: nat): Generation {
    match ValidateConfiguration(cfg)
    case Some(msg) =>
      Generation(None, HealthChecker.AfterRecordFailure(d, HealthChecker.ApiRequest, Some(msg), now), 0)
    case None =>
      if !RateLimiter.CanMakeRequest(d, cfg, now) then Generation(None, d, 0)
      else
        AfterExchange(d, cfg, Retry(net, BuildRequest(cfg, prompt, None), cfg.maxRetries), later)
  }

  /** The rest of `generate_reply` once the retry loop `a` has ended: a
      raised error is classified and recorded; a response was already
      recorded as an `:api_request` success, is counted against the hour
      and its content extracted, unless the count is refused. */
  function AfterExchange(d: Data, cfg: Settings, a: Attempted, later: nat): Generation {
    match a.result
    case FaradayError(c, m, status) =>
      var f := Classify(c, m, status);
      Generation(None, HealthChecker.AfterRecordFailure(d, f.op, Some(f.message), later), a.attempts)
    case Fetched(_, content) =>
      var d1 := HealthChecker.AfterRecordSuccess(d, HealthChecker.ApiRequest, later);
      if RateLimiter.CanMakeRequest(d1, cfg, later) then
        Generation(ExtractReply(content), RateLimiter.AfterIncrement(d1, later), a.attempts)
      else
        Generation(None, HealthChecker.AfterRecordFailure(d1, HealthChecker.ApiRequest, Some(RATE_LIMIT_EXCEEDED_MESSAGE), later), a.attempts)
  }

  /** `generate_reply`. */
  method GenerateReply(redis: Redis, cfg: Settings, prompt: string, net: (Request, nat) -> Exchange, now: nat, later: nat)
    returns (reply: Option<string>, requests: nat)
    modifies redis
    ensures Generation(reply, redis.data, requests) == Generate(old(redis.data), cfg, prompt, net, now, later)
  {
    var err := ValidateConfiguration(cfg);
    if err.Some? {
      HealthChecker.RecordFailure(redis, HealthChecker.ApiRequest, err, now);
      return None, 0;
    }
    if !RateLimiter.CanMakeRequest(redis.data, cfg, now) {
      return None, 0;
    }
    var a := MakeApiRequest(redis, cfg, BuildRequest(cfg, prompt, None), net, later);
    requests := a.attempts;
    match a.result
    case FaradayError(c, m, status) =>
      var f := Classify(c, m, status);
      HealthChecker.RecordFailure(redis, f.op, Some(f.message), later);
      reply := None;
    case Fetched(_, content) =>
      var extracted := ExtractReply(content);
      var exceeded := RateLimiter.IncrementRequestCount(redis, cfg, later);
      if exceeded {
        HealthChecker.RecordFailure(redis, HealthChecker.ApiRequest, Some(RATE_LIMIT_EXCEEDED_MESSAGE), later);
        reply := None;
      } else {
        reply := extracted;
      }
  }

  // ---------------------------------------------------------------------
  // Properties of generate_reply

  /** A missing setting: no reply, no request, no increment, one
      `:api_request` failure carrying the setting's message. */
  lemma MissingConfigurationSkipsRequest(d: Data, cfg: Settings, prompt: string, net: (Request, nat) -> Exchange, now: nat, later: nat)
    requires !HealthChecker.ApiConfigured(cfg)
    ensures var g := Generate(d, cfg, prompt, net, now, later);
      g.reply.None? && g.requests == 0
      && g.data == HealthChecker.AfterRecordFailure(d, HealthChecker.ApiRequest, ValidateConfiguration(cfg), now)
      && (forall t: nat :: RateLimiter.CurrentCount(g.data, t) == RateLimiter.CurrentCount(d, t))
  {
    HealthChecker.RecordFailureEffect(d, HealthChecker.ApiRequest, ValidateConfiguration(cfg), now);
  }

  /** An exhausted budget: no reply, no request and the store untouched. */
  lemma RateLimitedSkipsRequest(d: Data, cfg: Settings, prompt: string, net: (Request, nat) -> Exchange, now: nat, later: nat)
    requires HealthChecker.ApiConfigured(cfg)
    requires !RateLimiter.CanMakeRequest(d, cfg, now)
    ensures Generate(d, cfg, prompt, net, now, later) == Generation(None, d, 0)
  {
  }

  /** When every attempt fails: no reply, `max(1, max_retries)` requests,
      no increment, and one failure in the category of the last error. */
  lemma FailingServiceYieldsNothing(d: Data, cfg: Settings, prompt: string, net: (Request, nat) -> Exchange, now: nat, later: nat)
    requires HealthChecker.ApiConfigured(cfg) && RateLimiter.CanMakeRequest(d, cfg, now)
    requires forall i :: Transport(net(BuildRequest(cfg, prompt, None), i)).FaradayError?
    ensures var g := Generate(d, cfg, prompt, net, now, later);
      var last := Transport(net(BuildRequest(cfg, prompt, None), MaxAttempts(cfg.maxRetries) - 1));
      var f := Classify(last.errorClass, last.errorMessage, last.responseStatus);
      g.reply.None? && g.requests == MaxAttempts(cfg.maxRetries)
      && g.data == HealthChecker.AfterRecordFailure(d, f.op, Some(f.message), later)
      && (forall t: nat :: RateLimiter.CurrentCount(g.data, t) == RateLimiter.CurrentCount(d, t))
  {
    var req := BuildRequest(cfg, prompt, None);
    AllAttemptsFail(net, req, cfg.maxRetries);
    var last := Transport(net(req, MaxAttempts(cfg.maxRetries) - 1));
    var f := Classify(last.errorClass, last.errorMessage, last.responseStatus);
    HealthChecker.RecordFailureEffect(d, f.op, Some(f.message), later);
  }

  /** A response within the same hour as admission: the counter rises by
      exactly one, whether or not the content was usable, and the reply is
      the extracted content. */
  lemma ResponseCountsOnce(d: Data, cfg: Settings, prompt: string, net: (Request, nat) -> Exchange, now: nat, later: nat)
    requires HealthChecker.ApiConfigured(cfg) && RateLimiter.CanMakeRequest(d, cfg, now)
    requires RateLimiter.CurrentCount(d, later) == RateLimiter.CurrentCount(d, now)
    requires Retry(net, BuildRequest(cfg, prompt, None), cfg.maxRetries).result.Fetched?
    ensures var g := Generate(d, cfg, prompt, net, now, later);
      var content := Retry(net, BuildRequest(cfg, prompt, None), cfg.maxRetries).result.content;
      RateLimiter.CurrentCount(g.data, later) == RateLimiter.CurrentCount(d, later) + 1
      && g.reply == ExtractReply(content)
      && (IsBlankOpt(content) ==> g.reply.None?)
  {
    var d1 := HealthChecker.AfterRecordSuccess(d, HealthChecker.ApiRequest, later);
    HealthChecker.RecordSuccessEffect(d, HealthChecker.ApiRequest, later);
    RateLimiter.IncrementAddsOne(d1, later);
  }

  /** The increment can still be refused when the hour has turned and the
      new hour's budget is already spent: the reply is dropped and recorded
      as an `:api_request` failure. */
  lemma LateRefusalDropsReply(d: Data, cfg: Settings, prompt: string, net: (Request, nat) -> Exchange, now: nat, later: nat)
    requires HealthChecker.ApiConfigured(cfg) && RateLimiter.CanMakeRequest(d, cfg, now)
    requires Retry(net, BuildRequest(cfg, prompt, None), cfg.maxRetries).result.Fetched?
    requires !RateLimiter.CanMakeRequest(d, cfg, later)
    ensures var g := Generate(d, cfg, prompt, net, now, later);
      g.reply.None?
      && RateLimiter.CurrentCount(g.data, later) == RateLimiter.CurrentCount(d, later)
  {
    var d1 := HealthChecker.AfterRecordSuccess(d, HealthChecker.ApiRequest, later);
    HealthChecker.RecordSuccessEffect(d, HealthChecker.ApiRequest, later);
    HealthChecker.RecordFailureEffect(d1, HealthChecker.ApiRequest, Some(RATE_LIMIT_EXCEEDED_MESSAGE), later);
  }

  /** Whatever happens, at most one request is counted against the hour
      current after the exchange. */
  lemma GenerateCountsAtMostOne(d: Data, cfg: Settings, prompt: string, net: (Request, nat) -> Exchange, now: nat, later: nat)
    ensures var g := Generate(d, cfg, prompt, net, now, later);
      var t := later;
      RateLimiter.CurrentCount(d, t) <= RateLimiter.CurrentCount(g.data, t) <= RateLimiter.CurrentCount(d, t) + 1
      && (g.reply.Some? ==> g.requests >= 1)
  {
    HealthChecker.RecordFailureEffect(d, HealthChecker.ApiRequest, ValidateConfiguration(cfg), now);
    if HealthChecker.ApiConfigured(cfg) && RateLimiter.CanMakeRequest(d, cfg, now) {
      var req := BuildRequest(cfg, prompt, None);
      RetryFacts(net, req, cfg.maxRetries);
      ExchangeCountsAtMostOne(d, cfg, Retry(net, req, cfg.maxRetries), later);
    }
  }

  /** Generation never touches a cooldown marker or a `:reply` counter. */
  lemma GenerateKeepsReplyState(d: Data, cfg: Settings, prompt: string, net: (Request, nat) -> Exchange, now: nat, later: nat)
    ensures var g := Generate(d, cfg, prompt, net, now, later);
      (forall id, t :: RateLimiter.InCooldown(g.data, id, t) == RateLimiter.InCooldown(d, id, t))
      && (forall kind, day: nat, t :: HealthChecker.StatCount(g.data, kind, HealthChecker.Reply, day, t)
            == HealthChecker.StatCount(d, kind, HealthChecker.Reply, day, t))
  {
    HealthChecker.RecordFailureEffect(d, HealthChecker.ApiRequest, ValidateConfiguration(cfg), now);
    if HealthChecker.ApiConfigured(cfg) && RateLimiter.CanMakeRequest(d, cfg, now) {
      ExchangeKeepsReplyState(d, cfg, Retry(net, BuildRequest(cfg, prompt, None), cfg.maxRetries), later);
    }
  }

  /** Generation stores no negative integer. */
  lemma GenerateKeepsIntsNonNegative(d: Data, cfg: Settings, prompt: string, net: (Request, nat) -> Exchange, now: nat, later: nat)
    requires IntsNonNegative(d)
    ensures IntsNonNegative(Generate(d, cfg, prompt, net, now, later).data)
  {
    HealthChecker.RecordKeepsIntsNonNegative(d, HealthChecker.ApiRequest, ValidateConfiguration(cfg), now);
    if HealthChecker.ApiConfigured(cfg) && RateLimiter.CanMakeRequest(d, cfg, now) {
      ExchangeKeepsIntsNonNegative(d, cfg, Retry(net, BuildRequest(cfg, prompt, None), cfg.maxRetries), later);
    }
  }

  // ---------------------------------------------------------------------
  // Properties of the steps after the exchange

  lemma ExchangeCountsAtMostOne(d: Data, cfg: Settings, a: Attempted, later: nat)
    ensures var g := AfterExchange(d, cfg, a, later);
      RateLimiter.CurrentCount(d, later) <= RateLimiter.CurrentCount(g.data, later) <= RateLimiter.CurrentCount(d, later) + 1
  {
    match a.result
    case FaradayError(c, m, status) =>
      var f := Classify(c, m, status);
      HealthChecker.RecordFailureEffect(d, f.op, Some(f.message), later);
    case Fetched(_, content) =>
      var d1 := HealthChecker.AfterRecordSuccess(d, HealthChecker.ApiRequest, later);
      HealthChecker.RecordSuccessEffect(d, HealthChecker.ApiRequest, later);
      if RateLimiter.CanMakeRequest(d1, cfg, later) {
        RateLimiter.IncrementAddsOne(d1, later);
      } else {
        HealthChecker.RecordFailureEffect(d1, HealthChecker.ApiRequest, Some(RATE_LIMIT_EXCEEDED_MESSAGE), later);
      }
  }

  lemma ExchangeKeepsReplyState(d: Data, cfg: Settings, a: Attempted, later: nat)
    ensures var g := AfterExchange(d, cfg, a, later);
      (forall id, t :: RateLimiter.InCooldown(g.data, id, t) == RateLimiter.InCooldown(d, id, t))
      && (forall kind, day: nat, t :: HealthChecker.StatCount(g.data, kind, HealthChecker.Reply, day, t)
            == HealthChecker.StatCount(d, kind, HealthChecker.Reply, day, t))
  {
    match a.result
    case FaradayError(c, m, status) =>
      var f := Classify(c, m, status);
      HealthChecker.RecordFailureEffect(d, f.op, Some(f.message), later);
    case Fetched(_, content) =>
      var d1 := HealthChecker.AfterRecordSuccess(d, HealthChecker.ApiRequest, later);
      HealthChecker.RecordSuccessEffect(d, HealthChecker.ApiRequest, later);
      if RateLimiter.CanMakeRequest(d1, cfg, later) {
        RateLimiter.IncrementAddsOne(d1, later);
        HealthChecker.LedgerKeepsStats(d1, 0, 1, later);
      } else {
        HealthChecker.RecordFailureEffect(d1, HealthChecker.ApiRequest, Some(RATE_LIMIT_EXCEEDED_MESSAGE), later);
      }
  }

  lemma ExchangeKeepsIntsNonNegative(d: Data, cfg: Settings, a: Attempted, later: nat)
    requires IntsNonNegative(d)
    ensures IntsNonNegative(AfterExchange(d, cfg, a, later).data)
  {
    match a.result
    case FaradayError(c, m, status) =>
      var f := Classify(c, m, status);
      HealthChecker.RecordKeepsIntsNonNegative(d, f.op, Some(f.message), later);
    case Fetched(_, content) =>
      var d1 := HealthChecker.AfterRecordSuccess(d, HealthChecker.ApiRequest, later);
      HealthChecker.RecordKeepsIntsNonNegative(d, HealthChecker.ApiRequest, None, later);
      if RateLimiter.CanMakeRequest(d1, cfg, later) {
        RateLimiter.LedgerKeepsIntsNonNegative(d1, 0, 0, later);
      } else {
        HealthChecker.RecordKeepsIntsNonNegative(d1, HealthChecker.ApiRequest, Some(RATE_LIMIT_EXCEEDED_MESSAGE), later);
      }
  }
}
