/**
 * The result handling of `POST /extract_department` in main.py: what the
 * endpoint answers once `call_ollama_with_retry` has returned.
 */
module Endpoint {
  import opened JsonValues
  import opened OllamaClient

  /** The detail of the `HTTPException` raised when the retry loop returns `None`. */
  const UnavailableDetail := "Failed to get response from Ollama after multiple attempts"

  /** The body returned when the generated text is missing or is not JSON. */
  const Fallback := JObject(map["enhet" := JString("Okänd")])

  /** The `TypeError`s Python raises on the way, which no inner handler catches. */
  datatype TypeFault =
    | EnvelopeNotSubscriptable  // `result['response']` on a list, string, number or boolean
    | ResponseNotText           // `json.loads` on a `'response'` value that is not a string

  /** An exception escaping the body of the outer `try`. */
  datatype Raised =
    | HTTPException(status: int, detail: string)
    | TypeError(fault: TypeFault)
    | DecoderAborted  // `json.loads` raised something other than `JSONDecodeError`

  /** What the body of the outer `try` does: return a JSON body or raise. */
  datatype Handled = Returned(body: Json) | Raises(exc: Raised)

  /**
   * What the client receives: a 200 with a JSON body, or an HTTP error whose
   * detail is the text of the exception carried here.
   */
  datatype Response = Body(value: Json) | Error(status: int, cause: Raised)

  /** `result is None`: a fall-through of the loop, or an envelope that decoded to JSON null. */
  predicate IsPythonNone(result: Option<Json>) {
    result.None? || result.value.JNull?
  }

  /**
   * The body of the outer `try` after the retry loop: `None` raises 503; a
   * missing `'response'` key (`KeyError`) or text that is not JSON
   * (`JSONDecodeError`) gives the fallback; parsed text is returned unchanged;
   * any other exception from the decoder escapes the inner handler.
   */
  function Handle(parse: Parser, result: Option<Json>): (h: Handled)
    ensures IsPythonNone(result) <==> h == Raises(HTTPException(503, UnavailableDetail))
    ensures h.Returned? && h.body != Fallback ==>
      && result.Some? && result.value.JObject? && "response" in result.value.fields
      && result.value.fields["response"].JString?
      && parse(result.value.fields["response"].s) == Parsed(h.body)
  {
    if IsPythonNone(result) then Raises(HTTPException(503, UnavailableDetail))
    else match result.value
      case JObject(fields) =>
        if "response" !in fields then Returned(Fallback)
        else (match fields["response"]
          case JString(text) =>
            (match parse(text)
              case Parsed(department) => Returned(department)
              case Malformed => Returned(Fallback)
              case Aborted => Raises(DecoderAborted))
          case _ => Raises(TypeError(ResponseNotText)))
      case _ => Raises(TypeError(EnvelopeNotSubscriptable))
  }

  /**
   * The endpoint's answer as written: `except Exception` turns every escaping
   * exception into a 500, including the 503 raised inside the same `try`, so
   * the client never sees a 503.
   */
  function Respond(parse: Parser, result: Option<Json>): (r: Response)
    ensures r.Error? ==> r.status == 500
    ensures IsPythonNone(result) ==> r == Error(500, HTTPException(503, UnavailableDetail))
    ensures r.Body? <==>
      && result.Some? && result.value.JObject?
      && ("response" in result.value.fields ==>
            result.value.fields["response"].JString?
            && !parse(result.value.fields["response"].s).Aborted?)
  {
    match Handle(parse, result)
    case Returned(body) => Body(body)
    case Raises(exc) => Error(500, exc)
  }

  /**
   * The answer the authors evidently meant: the `HTTPException` reaches the
   * client with its own status, and only other exceptions become a 500.
   */
  function RespondIntended(parse: Parser, result: Option<Json>): (r: Response)
    ensures IsPythonNone(result) ==> r == Error(503, HTTPException(503, UnavailableDetail))
    ensures !IsPythonNone(result) ==> r == Respond(parse, result)
  {
    match Handle(parse, result)
    case Returned(body) => Body(body)
    case Raises(HTTPException(status, detail)) => Error(status, HTTPException(status, detail))
    case Raises(exc) => Error(500, exc)
  }

  /** A reachable backend whose text parses: the parsed value is the answer, unchanged. */
  lemma RespondPassesParsedValue(parse: Parser, fields: map<string, Json>, text: string)
    requires "response" in fields && fields["response"] == JString(text)
    requires parse(text).Parsed?
    ensures Respond(parse, Some(JObject(fields))) == Body(parse(text).value)
  {
  }

  /**
   * A reachable backend whose text is missing or is not JSON: a soft 200 with
   * exactly `{"enhet": "Okänd"}`, never an error.
   */
  lemma RespondFallsBack(parse: Parser, fields: map<string, Json>)
    requires "response" !in fields || (fields["response"].JString? && parse(fields["response"].s).Malformed?)
    ensures Respond(parse, Some(JObject(fields))) == Body(Fallback)
  {
  }

  /**
   * The whole endpoint for one title: three attempts against `outcomes`, then
   * the answer. `delays` and `sent` are the sleeps and request bodies of the loop.
   */
  method ExtractDepartment(settings: Settings, parse: Parser, title: string, outcomes: seq<Outcome>)
    returns (r: Response, delays: seq<nat>, sent: seq<Json>)
    requires DefaultMaxRetries <= |outcomes|
    ensures r == Respond(parse, Retry(outcomes, DefaultMaxRetries).result)
    ensures r.Error? ==> r.status == 500
    ensures |sent| == Retry(outcomes, DefaultMaxRetries).attempts
    ensures delays == Retry(outcomes, DefaultMaxRetries).delays
    ensures 1 <= |sent| <= DefaultMaxRetries && |delays| == |sent| - 1
    ensures forall i :: 0 <= i < |delays| ==> delays[i] == i + 1
    ensures forall i :: 0 <= i < |sent| ==> sent[i] == GenerateBody(settings, title)
  {
    var result, attempts;
    result, attempts, delays, sent := CallWithRetry(settings, title, outcomes, DefaultMaxRetries);
    RetryAttemptsBounded(outcomes, DefaultMaxRetries);
    RetryDelaysLinear(outcomes, DefaultMaxRetries);
    r := Respond(parse, result);
  }

  /** When all three attempts fail the client gets a 500 carrying the 503 exception. */
  lemma ExhaustedAnswers500(parse: Parser, outcomes: seq<Outcome>)
    requires DefaultMaxRetries <= |outcomes|
    requires forall k :: 0 <= k < DefaultMaxRetries ==> !Delivers(outcomes[k])
    ensures Respond(parse, Retry(outcomes, DefaultMaxRetries).result)
            == Error(500, HTTPException(503, UnavailableDetail))
  {
    ExhaustedDefaultRun(outcomes);
  }

  /** With the intended handling, the same failure reaches the client as a 503. */
  lemma ExhaustedIntendedAnswers503(parse: Parser, outcomes: seq<Outcome>)
    requires DefaultMaxRetries <= |outcomes|
    requires forall k :: 0 <= k < DefaultMaxRetries ==> !Delivers(outcomes[k])
    ensures RespondIntended(parse, Retry(outcomes, DefaultMaxRetries).result)
            == Error(503, HTTPException(503, UnavailableDetail))
  {
    ExhaustedDefaultRun(outcomes);
  }

  /**
   * A 200 whose envelope is the JSON literal `null` ends the loop at once, with
   * no retry, and is then answered as if the backend had been unreachable.
   */
  lemma NullEnvelopeLooksUnreachable(parse: Parser, outcomes: seq<Outcome>)
    requires DefaultMaxRetries <= |outcomes|
    requires outcomes[0] == Answered(200, Some(JNull))
    ensures Retry(outcomes, DefaultMaxRetries).attempts == 1
    ensures Respond(parse, Retry(outcomes, DefaultMaxRetries).result)
            == Error(500, HTTPException(503, UnavailableDetail))
  {
  }

  /**
   * A first attempt that fails in any way followed by a good second one: two
   * requests, one 1-second sleep, and the second reply's parsed text as the answer.
   */
  lemma FailThenSucceed(parse: Parser, outcomes: seq<Outcome>, fields: map<string, Json>, text: string)
    requires DefaultMaxRetries <= |outcomes|
    requires !Delivers(outcomes[0])
    requires outcomes[1] == Answered(200, Some(JObject(fields)))
    requires "response" in fields && fields["response"] == JString(text)
    requires parse(text).Parsed?
    ensures Retry(outcomes, DefaultMaxRetries).attempts == 2
    ensures Retry(outcomes, DefaultMaxRetries).delays == [1]
    ensures Respond(parse, Retry(outcomes, DefaultMaxRetries).result) == Body(parse(text).value)
  {
    RetryStopsAtFirstDelivery(outcomes, DefaultMaxRetries, 1);
    assert seq(1, (i: int) => i + 1) == [1];
  }
}
