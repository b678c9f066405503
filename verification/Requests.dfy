/** How one HTTP request can end, and what the request loop and the multi-request reader make of it. */
module Requests {

  const EPERM := 1
  const ENOENT := 2
  const EIO := 5
  const ENOTSUP := 95

  datatype Outcome =
    | Response(code: int)       // the transfer completed with this HTTP status
    | HttpError(code: int)      // CURLE_HTTP_RETURNED_ERROR
    | Transient                 // a curl code that is tried again
    | Fatal                     // any other curl code

  /** One try of a request: what goes over the wire, and how it ends. */
  datatype Attempt<T> = Attempt(body: T, outcome: Outcome)

  predicate Success(o: Outcome) { o.Response? && 200 <= o.code < 300 }

  /** An answer after which the request is not tried again. */
  predicate Final(o: Outcome) {
    match o
    case Response(code) => code != 503
    case HttpError(code) => code < 500
    case Transient => false
    case Fatal => true
  }

  /** Attempt j is the first one with a final answer. */
  predicate FinalAt<T>(attempts: seq<Attempt<T>>, j: nat) {
    j < |attempts| && Final(attempts[j].outcome) && forall i :: 0 <= i < j ==> !Final(attempts[i].outcome)
  }

  lemma FinalLater<T>(attempts: seq<Attempt<T>>, j: nat)
    requires FinalAt(attempts, j) && 0 < j
    ensures !Final(attempts[0].outcome) && FinalAt(attempts[1..], j - 1)
  {
  }

  /** The response code that stays on record; -1 if there was none. */
  function CodeOf(o: Outcome): int {
    match o
    case Response(code) => code
    case HttpError(code) => code
    case Transient => -1
    case Fatal => -1
  }

  /** What RequestPerform returns for a final answer. */
  function ResultOf(o: Outcome): (r: int)
    ensures r == 0 <==> Success(o)
  {
    match o
    case Response(code) =>
      if 200 <= code < 300 then 0
      else if code == 403 then -EPERM
      else if code == 404 then -ENOENT
      else if code == 501 then -ENOTSUP
      else -EIO
    case HttpError(code) => if code == 404 then -ENOENT else -EIO
    case Transient => -EIO
    case Fatal => -EIO
  }

  /** MultiRead asks for a request again only if its last response code is one of these; -1, which
      stands for "no answer", is not. */
  predicate Repeated(code: int) { 400 <= code && code != 404 }
}
