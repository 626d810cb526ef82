/**
 * The request loop shared by the chat assistant, the spending analysis and
 * the category suggestion: up to three POSTs to the language-model endpoint,
 * stopping at the first success or the first response that is not worth
 * retrying, and waiting before each retry for a delay that starts at 1000 ms
 * and doubles.
 *
 * The endpoint is a parameter: `server(i)` is what the `i`-th attempt (from 0)
 * receives. Waiting is not modelled, only the delays the loop asks for.
 */
module Retry {

  /** The part of a successful response's JSON body the callers read: the first candidate's text. */
  datatype Body = Text(text: string) | NoText | Malformed

  /** What one `fetch` yields: a response with a status code, or a rejection (network failure). */
  datatype Reply = Response(status: int, body: Body) | NetworkError

  /** `response.ok`: a status in 200..299. */
  predicate IsOk(r: Reply) {
    r.Response? && 200 <= r.status <= 299
  }

  /** A rate-limit (429) or server-error (500 and above) response: the loop waits and tries again. */
  predicate IsRetryable(r: Reply) {
    r.Response? && (r.status == 429 || r.status >= 500)
  }

  /** What the chat assistant and the spending analysis show when no API key is configured. */
  const MissingKey: string := "I'm sorry, but the Gemini API key is not configured. Please add your API key to the .env file as VITE_GEMINI_API_KEY. You can get a free API key from https://aistudio.google.com/app/apikey"

  const MaxAttempts: nat := 3
  const FirstDelay: nat := 1000

  function Pow2(k: nat): (r: nat)
    ensures r >= 1
  {
    if k == 0 then 1 else 2 * Pow2(k - 1)
  }

  /** The wait before the retry that follows attempt `k` (from 0). */
  function Delay(k: nat): (r: nat)
    ensures r >= FirstDelay
    ensures k < MaxAttempts ==> r == [1000, 2000, 4000][k]
  {
    FirstDelay * Pow2(k)
  }

  /** How the loop ended: how many requests it sent, the waits it made, and the last reply. */
  datatype Outcome = Outcome(attempts: nat, delays: seq<nat>, last: Reply)

  /**
   * The loop from attempt `i` on. A success or a network failure (which
   * leaves the loop by throwing) ends it, and so does any other
   * non-retryable status; a retryable status waits and, while attempts
   * remain, tries again.
   */
  function From(server: nat -> Reply, i: nat): (o: Outcome)
    requires i < MaxAttempts
    ensures i < o.attempts <= MaxAttempts
    ensures o.last == server(o.attempts - 1)
    ensures forall k :: i <= k < o.attempts - 1 ==> IsRetryable(server(k))
    ensures o.attempts < MaxAttempts ==> !IsRetryable(o.last)
    ensures |o.delays| == if IsRetryable(o.last) then o.attempts - i else o.attempts - 1 - i
    ensures forall k :: 0 <= k < |o.delays| ==> o.delays[k] == Delay(i + k)
    decreases MaxAttempts - i
  {
    var r := server(i);
    if IsOk(r) || r.NetworkError? then Outcome(i + 1, [], r)
    else if IsRetryable(r) then
      if i + 1 < MaxAttempts then
        var rest := From(server, i + 1);
        Outcome(rest.attempts, [Delay(i)] + rest.delays, rest.last)
      else Outcome(i + 1, [Delay(i)], r)
    else Outcome(i + 1, [], r)
  }

  /**
   * The whole loop: between one and three attempts; every attempt before the
   * last got a retryable status; the loop stops early only on a reply that
   * is not retryable; it waits once per retryable reply, 1000 ms, then
   * 2000 ms, then 4000 ms.
   */
  function Run(server: nat -> Reply): (o: Outcome)
    ensures 1 <= o.attempts <= MaxAttempts
    ensures o.last == server(o.attempts - 1)
    ensures forall k :: 0 <= k < o.attempts - 1 ==> IsRetryable(server(k))
    ensures o.attempts < MaxAttempts ==> !IsRetryable(o.last)
    ensures |o.delays| == if IsRetryable(o.last) then o.attempts else o.attempts - 1
    ensures forall k :: 0 <= k < |o.delays| ==> o.delays[k] == [1000, 2000, 4000][k]
  {
    var o := From(server, 0);
    assert Delay(1) == 2000 && Delay(2) == 4000;
    o
  }

  /** The first reply that is a success or a network failure ends the loop there. */
  lemma {:induction false} StopsAtFirstSuccess(server: nat -> Reply, j: nat)
    requires j < MaxAttempts && (IsOk(server(j)) || server(j).NetworkError?)
    requires forall k :: 0 <= k < j ==> IsRetryable(server(k))
    ensures Run(server).attempts == j + 1 && Run(server).last == server(j)
  {
  }
}
