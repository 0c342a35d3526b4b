/**
 * The breach lookup of `verificar_correo`: how one HTTP answer is interpreted, and the
 * re-issue of the same request after a 429 answer.
 */
module Client {
  import opened Wrappers
  import opened Text
  import opened Report

  /**
   * One answer of the remote API: its status code, its `Retry-After` header if any,
   * and its body already parsed as a breach list (used only on status 200).
   */
  datatype Response = Response(status: int, retryAfter: Option<string>, body: seq<Breach>)

  /** What the lookup does with one answer. */
  datatype Decision =
    | Breaches(found: seq<Breach>)   // 200: return the parsed body
    | NoBreaches                     // 404: return []
    | Failed(status: int)            // 401 and any other status: return None
    | Retry(seconds: nat)            // 429: sleep, then ask again
    | BadRetryAfter(header: string)  // 429 whose header `int()` rejects: ValueError

  const DEFAULT_RETRY_AFTER: nat := 1

  /** `int(response.headers.get('Retry-After', 1))`. */
  function RetryAfter(header: Option<string>): (r: Option<nat>)
    ensures header.None? ==> r == Some(DEFAULT_RETRY_AFTER)
    ensures header.Some? ==> r == ParseNat(header.value)
  {
    match header
    case None => Some(DEFAULT_RETRY_AFTER)
    case Some(h) => ParseNat(h)
  }

  /** The status dispatch of one answer. */
  function Decide(resp: Response): (d: Decision)
    ensures resp.status == 200 <==> d == Breaches(resp.body)
    ensures resp.status == 404 <==> d == NoBreaches
    ensures resp.status == 429 <==> d.Retry? || d.BadRetryAfter?
    ensures resp.status !in {200, 404, 429} <==> d == Failed(resp.status)
    ensures d.Retry? ==> RetryAfter(resp.retryAfter) == Some(d.seconds)
    ensures d.BadRetryAfter? ==> resp.retryAfter == Some(d.header) && ParseNat(d.header).None?
  {
    if resp.status == 200 then Breaches(resp.body)
    else if resp.status == 404 then NoBreaches
    else if resp.status == 401 then Failed(401)
    else if resp.status == 429 then
      match RetryAfter(resp.retryAfter)
      case Some(s) => Retry(s)
      case None => BadRetryAfter(resp.retryAfter.value)
    else Failed(resp.status)
  }

  /** How a lookup ends. */
  datatype End =
    | Returned(result: LookupResult)  // the function returned this value
    | Raised(header: string)          // a `Retry-After` header `int()` rejects raised ValueError
    | Waiting                         // every answer so far was a 429: the lookup is still retrying

  /** The trace of one lookup: how it ends, the sleeps it made, and how many requests it sent. */
  datatype Run = Run(end: End, sleeps: seq<nat>, requests: nat)

  /** The lookup's value for a final, non-429 decision. */
  function Final(d: Decision): (e: End)
    requires !d.Retry?
  {
    match d
    case Breaches(found) => Returned(Some(found))
    case NoBreaches => Returned(Some([]))
    case Failed(_) => Returned(None)
    case BadRetryAfter(h) => Raised(h)
  }

  /**
   * The recursive `verificar_correo` against a script of answers, one per request sent:
   * a 429 sleeps and recurses on the rest of the script.
   */
  function Replay(script: seq<Response>): (run: Run)
    ensures run.requests <= |script| && |run.sleeps| <= run.requests
  {
    if |script| == 0 then Run(Waiting, [], 0)
    else
      var d := Decide(script[0]);
      if d.Retry? then
        var rest := Replay(script[1..]);
        Run(rest.end, [d.seconds] + rest.sleeps, rest.requests + 1)
      else Run(Final(d), [], 1)
  }

  /** The lookup as a loop: one request per iteration until an answer other than 429. */
  method Lookup(script: seq<Response>) returns (run: Run)
    ensures run == Replay(script)
  {
    var i := 0;
    var sleeps: seq<nat> := [];
    while i < |script|
      invariant 0 <= i <= |script| && |sleeps| == i
      invariant Replay(script) == Run(Replay(script[i..]).end, sleeps + Replay(script[i..]).sleeps, i + Replay(script[i..]).requests)
    {
      var d := Decide(script[i]);
      ReplayStep(script, i);
      if !d.Retry? {
        return Run(Final(d), sleeps, i + 1);
      }
      ghost var rest := Replay(script[i + 1..]);
      assert sleeps + ([d.seconds] + rest.sleeps) == (sleeps + [d.seconds]) + rest.sleeps;
      sleeps := sleeps + [d.seconds];
      i := i + 1;
    }
    run := Run(Waiting, sleeps, i);
  }

  /** One step of the recursion, taken at position `i` of the script. */
  lemma ReplayStep(script: seq<Response>, i: nat)
    requires i < |script|
    ensures var d, rest := Decide(script[i]), Replay(script[i + 1..]);
      Replay(script[i..]) == if d.Retry? then Run(rest.end, [d.seconds] + rest.sleeps, rest.requests + 1) else Run(Final(d), [], 1)
  {
    assert script[i..][0] == script[i];
    assert script[i..][1..] == script[i + 1..];
  }

  /** A script whose first `k` answers are 429 with a readable `Retry-After`. */
  ghost predicate RetriesFirst(script: seq<Response>, k: nat)
    requires k <= |script|
  {
    forall j :: 0 <= j < k ==> Decide(script[j]).Retry?
  }

  /**
   * The lookup's outcome is that of the first answer that is not a retry; before it,
   * it sleeps for each 429's `Retry-After` (1 when absent) and re-sends the request.
   */
  lemma {:induction false} FirstFinalAnswerDecides(script: seq<Response>, k: nat)
    requires k < |script| && RetriesFirst(script, k) && !Decide(script[k]).Retry?
    ensures Replay(script).end == Final(Decide(script[k]))
    ensures Replay(script).requests == k + 1
    ensures |Replay(script).sleeps| == k
    ensures forall j :: 0 <= j < k ==> RetryAfter(script[j].retryAfter) == Some(Replay(script).sleeps[j])
  {
    if k > 0 {
      assert script[1..][k - 1] == script[k];
      assert RetriesFirst(script[1..], k - 1) by {
        forall j | 0 <= j < k - 1 ensures Decide(script[1..][j]).Retry? {
          assert script[1..][j] == script[j + 1];
        }
      }
      FirstFinalAnswerDecides(script[1..], k - 1);
      forall j | 0 < j < k ensures RetryAfter(script[j].retryAfter) == Some(Replay(script).sleeps[j]) {
        assert script[1..][j - 1] == script[j];
      }
    }
  }

  /** A script of nothing but readable 429 answers never ends the lookup: there is no retry cap. */
  lemma {:induction false} OnlyRetriesNeverEnd(script: seq<Response>)
    requires RetriesFirst(script, |script|)
    ensures Replay(script) == Run(Waiting, Replay(script).sleeps, |script|)
    ensures |Replay(script).sleeps| == |script|
  {
    if |script| > 0 {
      assert RetriesFirst(script[1..], |script| - 1) by {
        forall j | 0 <= j < |script| - 1 ensures Decide(script[1..][j]).Retry? {
          assert script[1..][j] == script[j + 1];
        }
      }
      OnlyRetriesNeverEnd(script[1..]);
    }
  }

  /** 200 returns the body, 404 returns `[]`, 401 and every other non-429 status return `None`. */
  lemma StatusOutcomes(resp: Response)
    ensures resp.status == 200 ==> Replay([resp]).end == Returned(Some(resp.body))
    ensures resp.status == 404 ==> Replay([resp]).end == Returned(Some([]))
    ensures resp.status !in {200, 404, 429} ==> Replay([resp]).end == Returned(None)
  {
  }
}
