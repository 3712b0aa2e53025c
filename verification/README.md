# gemma-api: retry loop and department extraction, modelled in Dafny

The service exposes `POST /extract_department`. It receives a job title and
builds a prompt from a configured instruction and the title. It sends the
prompt to a local Ollama backend (`POST /api/generate`), retrying with a
linear backoff. It then answers with the JSON that the model generated, or
with a fixed fallback object, or with an HTTP error.

This project models the two parts of `main.py` that hold logic:

- `json.dfy` (module `JsonValues`): decoded JSON values, an `Option`, and the
  type of a JSON decoder. The decoder (`json.loads`) is passed in as a function
  parameter.
- `retry.dfy` (module `OllamaClient`): prompt and request construction, and
  `call_ollama_with_retry`. The loop is the method `CallWithRetry`. It is
  proved equal to the recursive definition `Retry`, and the lemmas state
  what `Retry` guarantees. The network's answer to attempt `k` is the
  input `outcomes[k]`:
  - `Answered(status, body)`: an HTTP reply; `body == None` means `response.json()` raised.
  - `TimedOut`: an `httpx.TimeoutException`.
  - `Failed`: any other exception.

  Each `asyncio.sleep` becomes one entry, in seconds, of the output `delays`.
- `endpoint.dfy` (module `Endpoint`): what `extract_department` does with the
  loop's result (`Handle`, `Respond`), and the whole endpoint (`ExtractDepartment`).

Behaviour of main.py that the model keeps:

- A 200 reply whose body does not decode is retried. `response.json()` at
  main.py:39 raises inside the `try`, and the generic `except Exception` at
  main.py:49-52 handles it like any other failure.
- When all attempts fail, the client gets status 500 (see Findings).
- main.py:74 applies `json.loads` to the raw `'response'` text, unchanged.
- `TitleRequest` at main.py:21-22 has only a `title`; the instruction always
  comes from the settings (main.py:32).
- A missing `'response'` key, or text that `json.loads` rejects with
  `JSONDecodeError`, gives the body `{"enhet": "Okänd"}` (main.py:76-78).
  Otherwise main.py:75 returns the parsed value itself as the body.
- An envelope that is neither an object nor `null`, or a `'response'` value
  that is not a string, raises a `TypeError`. Neither inner handler catches
  it, so it ends as a 500 (main.py:80-82).
- `json.loads` can also raise exceptions that are not `JSONDecodeError`: a
  `RecursionError` on very deeply nested text, or a plain `ValueError` on an
  integer literal with too many digits. main.py:76 does not catch them, so
  they too end as a 500. The decoder parameter reports these as `Aborted`.
- An envelope that decodes to JSON `null` makes `response.json()` at
  main.py:39 return Python `None` at once, without a retry. The check at
  main.py:67 then treats it like an exhausted loop. The model writes this
  result as `Some(JNull)`, and keeps `None` for the fall-through `return None`
  at main.py:54.

## Model

| member | source | states |
|---|---|---|
| `OllamaClient.Prompt` | main.py:32 | the prompt is the instruction, then `"\n\nTitel: "`, then the title, with the lengths adding up |
| `OllamaClient.TitleOf` | main.py:32 | a title is read back only from a prompt that is exactly the instruction, the separator and that title |
| `OllamaClient.PromptRoundTrip` | main.py:32 | the title can always be read back from the prompt, so two titles never give the same prompt |
| `OllamaClient.GenerateBody` | main.py:28-35 | the request body has exactly the keys model, prompt and stream; model comes from the settings, stream is false, and the prompt carries the title |
| `OllamaClient.CallWithRetry` | main.py:24-54 | the loop returns the result, the attempt count and the sleeps given by `Retry`; it sends one identical request body per attempt |
| `OllamaClient.RetryFromShape` | main.py:25-54 | from any attempt on, a run stops at the first delivered body and returns it, or else uses up the budget and falls through to `return None`; its sleeps are consecutive integers, one per attempt except the last |
| `OllamaClient.RetryAttemptsBounded` | main.py:25-27 | at most `max_retries` attempts are made, at least one when `max_retries >= 1`, and none (result None, no sleep) when it is 0 or less |
| `OllamaClient.RetryNoneIff` | main.py:25-54 | the loop falls through to `return None` (main.py:54) if and only if none of the first `max_retries` attempts got a 200 with a decodable body |
| `OllamaClient.RetryStopsAtFirstDelivery` | main.py:38-39 | the first delivering attempt k ends the loop: its body is returned, k+1 attempts are made, and the sleeps are 1..k |
| `OllamaClient.RetryDelaysLinear` | main.py:41-52 | the n-th sleep lasts n seconds (linear, not exponential), and there is one sleep fewer than attempts |
| `OllamaClient.ExhaustedDefaultRun` | main.py:24-54 | with the default 3 attempts all failing, the run is 3 attempts, sleeps [1, 2], result None |
| `OllamaClient.UndecodableIsRetried` | main.py:38-52 | a 200 with an undecodable body counts as a failed attempt; a delivering second attempt is then returned after one 1-second sleep |
| `OllamaClient.RetryIgnoresLaterOutcomes` | main.py:38-39 | outcomes after the last attempt a run makes have no effect on it: no later attempt happens |
| `OllamaClient.FailuresAlike` | main.py:41-52 | a non-200 status, a timeout, another exception and an undecodable 200 are handled identically |
| `Endpoint.Handle` | main.py:67-78 | the 503 exception is raised exactly when the result is Python None; any returned body other than the fallback is the decoder's value for the `'response'` text |
| `Endpoint.Respond` | main.py:58-82 | every error the client sees is a 500; a None result gives the 500 carrying the 503 exception; the answer is a body exactly when the envelope is an object whose `'response'`, if present, is a string that the decoder either parses or rejects with `JSONDecodeError` |
| `Endpoint.RespondIntended` | main.py:67-71 | the corrected handling answers 503 to a None result and otherwise agrees with `Respond` |
| `Endpoint.RespondPassesParsedValue` | main.py:73-75 | text that parses is returned as the body unchanged |
| `Endpoint.RespondFallsBack` | main.py:76-78 | a missing `'response'` key or text the decoder rejects with `JSONDecodeError` gives exactly `{"enhet": "Okänd"}` with no error |
| `Endpoint.ExtractDepartment` | main.py:56-82 | the endpoint answers `Respond` of the 3-attempt run, and every error is a 500; it sends exactly the requests of that run (1 to 3 identical bodies, stopping at the first delivery) and sleeps exactly that run's delays, 1, 2, … seconds, one fewer than requests |
| `Endpoint.ExhaustedAnswers500` | main.py:67-82 | three failed attempts end in a 500 carrying the 503 exception |
| `Endpoint.ExhaustedIntendedAnswers503` | main.py:67-71 | under the corrected handling, three failed attempts end in a 503 |
| `Endpoint.NullEnvelopeLooksUnreachable` | main.py:38-71 | a 200 whose envelope is JSON null stops the loop after one attempt and is answered like an unreachable backend |
| `Endpoint.FailThenSucceed` | main.py:25-75 | a failed first attempt and a good second one (an envelope object with any fields, whose `'response'` text parses) give two attempts, one 1-second sleep, and the parsed text as the answer |

## Findings

| source | as written | input that shows it | evidently intended | confidence | as-written member | corrected member |
|---|---|---|---|---|---|---|
| main.py:58-82 | the `HTTPException(503)` raised at main.py:68 is inside the `try` opened at main.py:58. `except Exception` at main.py:80 catches it and raises a 500 instead | all three attempts time out | the client receives 503 with the detail "Failed to get response from Ollama after multiple attempts" | high (not executed) | `Endpoint.ExhaustedAnswers500` | `Endpoint.ExhaustedIntendedAnswers503` |

`Endpoint.Respond` models the code as written. `Endpoint.RespondIntended` is
the corrected definition, and it differs from `Respond` only when the result
is Python `None`.

## Left out

- The httpx client, its connection-pool limits and its timeouts (main.py:35, main.py:61-64): network I/O. Each attempt is an abstract `Outcome`.
- `asyncio.sleep` and async scheduling: sleeps are recorded as numbers in `delays`. Time and concurrency are not modelled.
- Logging: it has no effect on behaviour.
- Loading `llm_settings.json` (main.py:10-11): file I/O. The model name and the instruction are passed in as a `Settings` value.
- FastAPI routing and pydantic validation of `TitleRequest` (main.py:17-22): framework plumbing. The title arrives as a string.
- The JSON decoder: a foreign library. It is the `Parser` parameter, which returns a value, a `JSONDecodeError` or another exception; which texts lead to which is not modelled. JSON numbers are exact reals, not floats, so the model cannot hold the non-finite floats that `json.loads` accepts (`NaN`, `Infinity`, overflowing literals such as `1e999`). main.py:75 would return such a value, and the framework would then fail to render it, giving a 500 outside the handler at main.py:80-82; that path is not modelled.
- `GET /health` (main.py:84-93): a network probe. When the backend answers non-200 without an exception, the handler falls through and returns nothing.
- Endpoint.Respond: the 500's detail is `str(e)`. The model carries the exception value itself and does not model its text. This includes the Python wording of the `TypeError` messages and the framework's rendering of an `HTTPException` as a string.
- `BaseException`s that are not `Exception`s (such as task cancellation): `except Exception` does not catch them, and they are not modelled.
