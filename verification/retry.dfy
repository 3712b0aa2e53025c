/**
 * The upstream client: `call_ollama_with_retry` in main.py. Each attempt posts
 * the same generation request to the backend; the network's answer to attempt
 * `k` is given as `outcomes[k]`, and every `asyncio.sleep` is recorded as a
 * delay in seconds instead of being waited out.
 */
module OllamaClient {
  import opened JsonValues

  /** The two values read from `llm_settings.json` once at start-up. */
  datatype Settings = Settings(model: string, systemPrompt: string)

  /** The default `max_retries` of `call_ollama_with_retry`, used by the endpoint. */
  const DefaultMaxRetries := 3

  /** The text placed between the instruction and the title. */
  const TitleSeparator := "\n\nTitel: "

  /** The prompt text of a generation request: the instruction, a blank line, then the title. */
  function Prompt(systemPrompt: string, title: string): (p: string)
    ensures |p| == |systemPrompt| + |TitleSeparator| + |title|
    ensures p[..|systemPrompt|] == systemPrompt
    ensures p[|systemPrompt|..|systemPrompt| + |TitleSeparator|] == TitleSeparator
    ensures p[|p| - |title|..] == title
  {
    systemPrompt + TitleSeparator + title
  }

  /** Recovers the title from a prompt built with instruction `systemPrompt`, if it is one. */
  function TitleOf(systemPrompt: string, p: string): (title: Option<string>)
    ensures title.Some? ==> p == systemPrompt + TitleSeparator + title.value
  {
    var head := |systemPrompt| + |TitleSeparator|;
    if head <= |p| && p[..head] == systemPrompt + TitleSeparator then Some(p[head..]) else None
  }

  /** The title can be read back from the prompt: different titles never give the same prompt. */
  lemma PromptRoundTrip(systemPrompt: string, title: string)
    ensures TitleOf(systemPrompt, Prompt(systemPrompt, title)) == Some(title)
  {
    var p := Prompt(systemPrompt, title);
    var head := |systemPrompt| + |TitleSeparator|;
    assert p[..head] == systemPrompt + TitleSeparator;
    assert p[head..] == title;
  }

  /** The JSON body of `POST /api/generate`: the configured model, the prompt, and no streaming. */
  function GenerateBody(settings: Settings, title: string): (body: Json)
    ensures body.JObject? && body.fields.Keys == {"model", "prompt", "stream"}
    ensures body.fields["model"] == JString(settings.model)
    ensures body.fields["stream"] == JBool(false)
    ensures body.fields["prompt"].JString?
    ensures TitleOf(settings.systemPrompt, body.fields["prompt"].s) == Some(title)
  {
    PromptRoundTrip(settings.systemPrompt, title);
    JObject(map["model" := JString(settings.model),
                "prompt" := JString(Prompt(settings.systemPrompt, title)),
                "stream" := JBool(false)])
  }

  /**
   * What one attempt ends in. `Answered` is an HTTP response with its status and
   * the result of decoding its body (`None`: `response.json()` raised);
   * `TimedOut` is an `httpx.TimeoutException`; `Failed` is any other exception.
   */
  datatype Outcome =
    | Answered(status: int, body: Option<Json>)
    | TimedOut
    | Failed

  /** An attempt ends the loop exactly when the status is 200 and the body decodes. */
  predicate Delivers(o: Outcome) {
    o.Answered? && o.status == 200 && o.body.Some?
  }

  /** The seconds slept after failed attempt number `attempt` (counted from 0). */
  function Backoff(attempt: nat): (seconds: nat) {
    1 * (attempt + 1)
  }

  /** The number of attempts `range(max_retries)` allows. */
  function Budget(maxRetries: int): (n: nat) {
    if maxRetries < 0 then 0 else maxRetries
  }

  /**
   * What a run of the loop produces: the returned envelope (`None` when the loop
   * falls through to `return None`), how many requests were sent, and the sleeps.
   */
  datatype Trace = Trace(result: Option<Json>, attempts: nat, delays: seq<nat>)

  /**
   * The loop from attempt `attempt` onward, as a recursive definition: stop on a
   * delivered body, otherwise sleep unless this was the last attempt and go on.
   */
  function RetryFrom(outcomes: seq<Outcome>, maxRetries: int, attempt: nat): (t: Trace)
    requires maxRetries <= |outcomes|
    decreases maxRetries - attempt
  {
    if attempt >= maxRetries then Trace(None, attempt, [])
    else if Delivers(outcomes[attempt]) then Trace(Some(outcomes[attempt].body.value), attempt + 1, [])
    else
      var rest := RetryFrom(outcomes, maxRetries, attempt + 1);
      var pause := if attempt < maxRetries - 1 then [Backoff(attempt)] else [];
      rest.(delays := pause + rest.delays)
  }

  /** A whole run of `call_ollama_with_retry` against the given outcomes. */
  function Retry(outcomes: seq<Outcome>, maxRetries: int): (t: Trace)
    requires maxRetries <= |outcomes|
  {
    RetryFrom(outcomes, maxRetries, 0)
  }

  /**
   * `call_ollama_with_retry` itself. `sent` lists the request bodies posted, one
   * per attempt.
   */
  method CallWithRetry(settings: Settings, title: string, outcomes: seq<Outcome>, maxRetries: int)
    returns (result: Option<Json>, attempts: nat, delays: seq<nat>, sent: seq<Json>)
    requires maxRetries <= |outcomes|
    ensures Trace(result, attempts, delays) == Retry(outcomes, maxRetries)
    ensures |sent| == attempts
    ensures forall i :: 0 <= i < |sent| ==> sent[i] == GenerateBody(settings, title)
  {
    result, attempts, delays, sent := None, 0, [], [];
    var attempt: nat := 0;
    while attempt < maxRetries
      invariant attempt <= Budget(maxRetries)
      invariant attempts == attempt && |sent| == attempt
      invariant forall i :: 0 <= i < |sent| ==> sent[i] == GenerateBody(settings, title)
      invariant result == None
      invariant Retry(outcomes, maxRetries)
                == var rest := RetryFrom(outcomes, maxRetries, attempt); rest.(delays := delays + rest.delays)
      decreases maxRetries - attempt
    {
      sent := sent + [GenerateBody(settings, title)];
      attempts := attempts + 1;
      match outcomes[attempt] {
        case Answered(status, body) =>
          if status == 200 {
            if body.Some? {
              result := Some(body.value);
              assert delays + [] == delays;
              return;
            }
            // `response.json()` raised: the generic handler logs and backs off.
            if attempt < maxRetries - 1 {
              delays := delays + [Backoff(attempt)];
            }
          } else {
            if attempt < maxRetries - 1 {
              delays := delays + [Backoff(attempt)];
            }
          }
        case TimedOut =>
          if attempt < maxRetries - 1 {
            delays := delays + [Backoff(attempt)];
          }
        case Failed =>
          if attempt < maxRetries - 1 {
            delays := delays + [Backoff(attempt)];
          }
      }
      attempt := attempt + 1;
    }
  }

  /**
   * Everything a run from `attempt` does: it stops at the first delivered body
   * and returns it, or makes every remaining attempt and returns `None`; the
   * delays are `attempt + 1, attempt + 2, ...`, one after each attempt but the last.
   */
  lemma {:induction false} RetryFromShape(outcomes: seq<Outcome>, maxRetries: int, attempt: nat)
    requires maxRetries <= |outcomes|
    requires attempt <= Budget(maxRetries)
    ensures var t := RetryFrom(outcomes, maxRetries, attempt);
      && attempt <= t.attempts <= Budget(maxRetries)
      && (forall k :: attempt <= k < t.attempts - 1 ==> !Delivers(outcomes[k]))
      && (t.result.Some? ==> t.attempts > attempt && Delivers(outcomes[t.attempts - 1])
                             && t.result.value == outcomes[t.attempts - 1].body.value)
      && (t.result.None? ==> t.attempts == Budget(maxRetries)
                             && forall k :: attempt <= k < t.attempts ==> !Delivers(outcomes[k]))
      && |t.delays| == (if t.attempts == attempt then 0 else t.attempts - 1 - attempt)
      && (forall i :: 0 <= i < |t.delays| ==> t.delays[i] == attempt + 1 + i)
    decreases maxRetries - attempt
  {
    if attempt >= maxRetries || Delivers(outcomes[attempt]) {
    } else {
      RetryFromShape(outcomes, maxRetries, attempt + 1);
    }
  }

  /** At most `max_retries` attempts are made, and none at all when it is 0 or less. */
  lemma RetryAttemptsBounded(outcomes: seq<Outcome>, maxRetries: int)
    requires maxRetries <= |outcomes|
    ensures Retry(outcomes, maxRetries).attempts <= Budget(maxRetries)
    ensures maxRetries >= 1 ==> Retry(outcomes, maxRetries).attempts >= 1
    ensures maxRetries <= 0 ==> Retry(outcomes, maxRetries) == Trace(None, 0, [])
  {
    RetryFromShape(outcomes, maxRetries, 0);
  }

  /**
   * The loop falls through to `return None` exactly when none of the first
   * `max_retries` attempts delivers a body.
   */
  lemma RetryNoneIff(outcomes: seq<Outcome>, maxRetries: int)
    requires maxRetries <= |outcomes|
    ensures Retry(outcomes, maxRetries).result.None?
            <==> forall k :: 0 <= k < maxRetries ==> !Delivers(outcomes[k])
  {
    RetryFromShape(outcomes, maxRetries, 0);
  }

  /**
   * The first attempt that delivers ends the loop: its body is returned, no later
   * attempt is made, and the earlier failures were followed by sleeps of 1, 2, ... k seconds.
   */
  lemma RetryStopsAtFirstDelivery(outcomes: seq<Outcome>, maxRetries: int, k: nat)
    requires maxRetries <= |outcomes|
    requires k < maxRetries && Delivers(outcomes[k])
    requires forall j :: 0 <= j < k ==> !Delivers(outcomes[j])
    ensures Retry(outcomes, maxRetries).result == Some(outcomes[k].body.value)
    ensures Retry(outcomes, maxRetries).attempts == k + 1
    ensures Retry(outcomes, maxRetries).delays == seq(k, i => i + 1)
  {
    RetryFromShape(outcomes, maxRetries, 0);
  }

  /**
   * The backoff is linear, not exponential: the n-th sleep lasts n seconds, and
   * there is one sleep fewer than attempts (no sleep after the last attempt).
   */
  lemma RetryDelaysLinear(outcomes: seq<Outcome>, maxRetries: int)
    requires maxRetries <= |outcomes|
    ensures var t := Retry(outcomes, maxRetries);
      && |t.delays| == (if t.attempts == 0 then 0 else t.attempts - 1)
      && forall i :: 0 <= i < |t.delays| ==> t.delays[i] == i + 1
  {
    RetryFromShape(outcomes, maxRetries, 0);
  }

  /** With the default three attempts all failing, the loop sleeps 1 s then 2 s and returns `None`. */
  lemma ExhaustedDefaultRun(outcomes: seq<Outcome>)
    requires DefaultMaxRetries <= |outcomes|
    requires forall k :: 0 <= k < DefaultMaxRetries ==> !Delivers(outcomes[k])
    ensures Retry(outcomes, DefaultMaxRetries) == Trace(None, 3, [1, 2])
  {
    var t := Retry(outcomes, DefaultMaxRetries);
    RetryFromShape(outcomes, DefaultMaxRetries, 0);
    assert t.delays == [1, 2];
  }

  /**
   * A 200 response whose body does not decode is a failed attempt like any
   * other: when the next attempt delivers, that second body is returned after a 1 s sleep.
   */
  lemma UndecodableIsRetried(outcomes: seq<Outcome>, maxRetries: int)
    requires 2 <= maxRetries <= |outcomes|
    requires outcomes[0] == Answered(200, None) && Delivers(outcomes[1])
    ensures Retry(outcomes, maxRetries) == Trace(Some(outcomes[1].body.value), 2, [1])
  {
    RetryStopsAtFirstDelivery(outcomes, maxRetries, 1);
    assert seq(1, (i: int) => i + 1) == [1];
  }

  /**
   * Nothing after the last attempt is consulted: two worlds that agree on the
   * attempts a run makes give the same run.
   */
  lemma {:induction false} RetryIgnoresLaterOutcomes(outcomes: seq<Outcome>, other: seq<Outcome>, maxRetries: int, attempt: nat)
    requires maxRetries <= |outcomes| && maxRetries <= |other|
    requires attempt <= Budget(maxRetries)
    requires var n := RetryFrom(outcomes, maxRetries, attempt).attempts;
      attempt <= n <= |outcomes| && n <= |other| && outcomes[attempt..n] == other[attempt..n]
    ensures RetryFrom(other, maxRetries, attempt) == RetryFrom(outcomes, maxRetries, attempt)
    decreases maxRetries - attempt
  {
    var n := RetryFrom(outcomes, maxRetries, attempt).attempts;
    RetryFromShape(outcomes, maxRetries, attempt);
    if attempt < maxRetries {
      assert outcomes[attempt] == outcomes[attempt..n][0] == other[attempt];
      if !Delivers(outcomes[attempt]) {
        assert outcomes[attempt + 1..n] == outcomes[attempt..n][1..];
        assert other[attempt + 1..n] == other[attempt..n][1..];
        RetryIgnoresLaterOutcomes(outcomes, other, maxRetries, attempt + 1);
      }
    }
  }

  /**
   * A non-200 status, a timeout, any other exception and an undecodable 200 are
   * handled alike: runs that differ only in which kind of failure occurs are the same run.
   */
  lemma {:induction false} FailuresAlike(outcomes: seq<Outcome>, other: seq<Outcome>, maxRetries: int, attempt: nat)
    requires maxRetries <= |outcomes| && maxRetries <= |other|
    requires forall k :: attempt <= k < maxRetries ==>
      Delivers(outcomes[k]) == Delivers(other[k])
      && (Delivers(outcomes[k]) ==> outcomes[k].body == other[k].body)
    ensures RetryFrom(outcomes, maxRetries, attempt) == RetryFrom(other, maxRetries, attempt)
    decreases maxRetries - attempt
  {
    if attempt < maxRetries && !Delivers(outcomes[attempt]) {
      FailuresAlike(outcomes, other, maxRetries, attempt + 1);
    }
  }
}
