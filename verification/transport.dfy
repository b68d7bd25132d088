/**
 * HTTP exchanges as the fetch scripts see them. A request either fails before
 * a response arrives (connection error, timeout) or yields a status code and a
 * body. The successive outcomes of the attempts for one URL form a script;
 * attempts past its end fail like a connection error.
 */
module Transport {

  import opened Xml

  datatype Response = Response(status: int, body: string) | RequestError

  /** The outcome of attempt `i` (counted from 0). */
  function At(script: seq<Response>, i: nat): (r: Response)
    ensures i >= |script| ==> r == RequestError
    ensures i < |script| ==> r == script[i]
  {
    if i < |script| then script[i] else RequestError
  }

  /** `response.raise_for_status()` passes: the status is 2xx. */
  predicate Is2xx(r: Response)
  {
    r.Response? && 200 <= r.status < 300
  }

  /** `response.status_code == 200`. */
  predicate Is200(r: Response)
  {
    r.Response? && r.status == 200
  }

  /** The first of the attempts `from .. n-1` that `ok` accepts, or `n` when none does. */
  function FirstAcceptedFrom(script: seq<Response>, n: nat, ok: Response -> bool, from: nat): (k: nat)
    requires from <= n
    ensures from <= k <= n
    ensures forall j :: from <= j < k ==> !ok(At(script, j))
    ensures k < n ==> ok(At(script, k))
    decreases n - from
  {
    if from == n || ok(At(script, from)) then from else FirstAcceptedFrom(script, n, ok, from + 1)
  }

  /** The first of the first `n` attempts that `ok` accepts, or `n` when none does. */
  function FirstAccepted(script: seq<Response>, n: nat, ok: Response -> bool): (k: nat)
    ensures k <= n
    ensures forall j :: 0 <= j < k ==> !ok(At(script, j))
    ensures k < n ==> ok(At(script, k))
  {
    FirstAcceptedFrom(script, n, ok, 0)
  }

  /** What a retrying request did: the body it returned (None after giving up),
      how many attempts it made, and the pauses between them in seconds. */
  datatype Trace = Trace(body: Option<string>, calls: nat, sleeps: seq<nat>)

  function Pow2(n: nat): (p: nat)
    ensures p >= 1
  {
    if n == 0 then 1 else 2 * Pow2(n - 1)
  }

  function Sum(s: seq<nat>): nat
  {
    if s == [] then 0 else Sum(s[..|s| - 1]) + s[|s| - 1]
  }
}
