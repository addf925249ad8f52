/**
 * The server route `POST /api/runpod`: it checks the request body, submits the job to RunPod and
 * polls the job's status with a doubling delay until it completes or the attempts run out.
 */
module RunpodRoute {
  import opened JsRuntime
  import opened RunPodApi

  const MaxAttempts: nat := 7
  const InitialDelayMs: nat := 3000

  /** The message in the `Error` thrown for a non-ok status response. */
  function StatusCheckFailed(status: FailureStatus, errorMessage: Option<string>): string {
    "Status check failed with status " + NatToString(status) + ": " + OrElse(errorMessage, "Unknown error")
  }

  /** What the `try` block of one polling attempt does with a status reply. */
  datatype TryOutcome = Return(data: JobData) | StillRunning | Threw(message: string)

  function TryAttempt(reply: StatusReply): TryOutcome {
    match reply
    case PollThrew(m) => Threw(m)
    case PollRejected(status, m) => Threw(StatusCheckFailed(status, m))
    case Polled(data) =>
      if data.status == "COMPLETED" then Return(data)
      else if data.status == "FAILED" then Threw(OrElse(data.error, "Job failed without error message"))
      else StillRunning
  }

  /**
   * An attempt returns exactly a COMPLETED job, goes on to the next attempt exactly on another
   * status that is not FAILED, and throws on everything else: a FAILED job, a non-ok status
   * response or a failed request.
   */
  lemma TryAttemptCases(reply: StatusReply)
    ensures TryAttempt(reply).Return? <==> reply.Polled? && reply.data.status == "COMPLETED"
    ensures TryAttempt(reply).Return? ==> TryAttempt(reply).data == reply.data
    ensures TryAttempt(reply).StillRunning? <==>
              reply.Polled? && reply.data.status != "COMPLETED" && reply.data.status != "FAILED"
    ensures TryAttempt(reply).Threw? <==> !reply.Polled? || reply.data.status == "FAILED"
  {
  }

  /** The wait in the `catch` block: only a message mentioning `fetch` counts as a network issue. */
  function CatchWait(message: string, delayMs: nat): seq<nat> {
    if Includes(message, "fetch") then [delayMs] else []
  }

  const TimedOut := "Job timed out"
  const TimedOutAfterRetries := "Job timed out after multiple attempts"

  /**
   * pollForCompletion from attempt `attempt` on, with `delayMs` the current value of the delay
   * variable: the attempts still to make, each one status request, and the waits between them.
   */
  function PollFrom(replies: seq<StatusReply>, attempt: nat, delayMs: nat): (o: PollOutcome)
    requires attempt <= MaxAttempts <= |replies|
    decreases MaxAttempts - attempt
  {
    if attempt == MaxAttempts then PollOutcome(Err(TimedOut), [], MaxAttempts)
    else
      match TryAttempt(replies[attempt])
      case Return(data) => PollOutcome(Ok(data), [], attempt + 1)
      case StillRunning => WaitFirst([2 * delayMs], PollFrom(replies, attempt + 1, 2 * delayMs))
      case Threw(m) =>
        if attempt == MaxAttempts - 1 then
          PollOutcome(Err(TimedOutAfterRetries), CatchWait(m, delayMs), MaxAttempts)
        else
          WaitFirst(CatchWait(m, delayMs), PollFrom(replies, attempt + 1, delayMs))
  }

  /** A run makes at least one request per attempt it starts with, never more than seven, and waits at most once per request. */
  lemma {:induction false} PollRequestBounds(replies: seq<StatusReply>, attempt: nat, delayMs: nat)
    requires attempt <= MaxAttempts <= |replies|
    ensures var o := PollFrom(replies, attempt, delayMs);
            (attempt < MaxAttempts ==> attempt < o.requests) && o.requests <= MaxAttempts
            && |o.waits| <= o.requests - attempt
    decreases MaxAttempts - attempt
  {
    if attempt < MaxAttempts {
      match TryAttempt(replies[attempt])
      case Return(_) =>
      case StillRunning =>
        PollRequestBounds(replies, attempt + 1, 2 * delayMs);
      case Threw(_) =>
        if attempt < MaxAttempts - 1 {
          PollRequestBounds(replies, attempt + 1, delayMs);
        }
    }
  }

  /** A run returns only a COMPLETED job, the body of its last status request. */
  lemma {:induction false} PollReturnsCompleted(replies: seq<StatusReply>, attempt: nat, delayMs: nat)
    requires attempt <= MaxAttempts <= |replies|
    ensures var o := PollFrom(replies, attempt, delayMs);
            o.result.Ok? ==> 0 < o.requests <= |replies| && o.result.value.status == "COMPLETED"
                             && replies[o.requests - 1] == Polled(o.result.value)
    decreases MaxAttempts - attempt
  {
    if attempt < MaxAttempts {
      match TryAttempt(replies[attempt])
      case Return(_) =>
      case StillRunning =>
        PollReturnsCompleted(replies, attempt + 1, 2 * delayMs);
      case Threw(_) =>
        if attempt < MaxAttempts - 1 {
          PollReturnsCompleted(replies, attempt + 1, delayMs);
        }
    }
  }

  /**
   * The first COMPLETED reply within the seven attempts is returned: whatever came before it (other
   * statuses, errors caught and retried), the run ends with that job after that request.
   */
  lemma {:induction false} FirstCompletedReturned(replies: seq<StatusReply>, attempt: nat, delayMs: nat, k: nat)
    requires attempt <= k < MaxAttempts <= |replies|
    requires forall j :: attempt <= j < k ==> !TryAttempt(replies[j]).Return?
    requires TryAttempt(replies[k]).Return?
    ensures PollFrom(replies, attempt, delayMs).result == Ok(TryAttempt(replies[k]).data)
    ensures PollFrom(replies, attempt, delayMs).requests == k + 1
    decreases k - attempt
  {
    if attempt < k {
      match TryAttempt(replies[attempt])
      case StillRunning =>
        FirstCompletedReturned(replies, attempt + 1, 2 * delayMs, k);
        assert PollFrom(replies, attempt, delayMs)
            == WaitFirst([2 * delayMs], PollFrom(replies, attempt + 1, 2 * delayMs));
      case Threw(m) =>
        assert attempt < MaxAttempts - 1;
        FirstCompletedReturned(replies, attempt + 1, delayMs, k);
        assert PollFrom(replies, attempt, delayMs)
            == WaitFirst(CatchWait(m, delayMs), PollFrom(replies, attempt + 1, delayMs));
    }
  }

  /** A run in which no attempt sees COMPLETED fails. */
  lemma {:induction false} NoCompletedFails(replies: seq<StatusReply>, attempt: nat, delayMs: nat)
    requires attempt <= MaxAttempts <= |replies|
    requires forall j :: attempt <= j < MaxAttempts ==> !TryAttempt(replies[j]).Return?
    ensures PollFrom(replies, attempt, delayMs).result.Err?
    decreases MaxAttempts - attempt
  {
    if attempt < MaxAttempts {
      match TryAttempt(replies[attempt])
      case StillRunning =>
        NoCompletedFails(replies, attempt + 1, 2 * delayMs);
      case Threw(_) =>
        if attempt < MaxAttempts - 1 {
          NoCompletedFails(replies, attempt + 1, delayMs);
        }
    }
  }

  /** A run throws only one of the two "timed out" errors, and only after all seven attempts. */
  lemma {:induction false} PollErrorsTimeOut(replies: seq<StatusReply>, attempt: nat, delayMs: nat)
    requires attempt <= MaxAttempts <= |replies|
    ensures var o := PollFrom(replies, attempt, delayMs);
            o.result.Err? ==> o.requests == MaxAttempts
                              && (o.result.message == TimedOut || o.result.message == TimedOutAfterRetries)
    decreases MaxAttempts - attempt
  {
    if attempt < MaxAttempts {
      match TryAttempt(replies[attempt])
      case Return(_) =>
      case StillRunning =>
        PollErrorsTimeOut(replies, attempt + 1, 2 * delayMs);
      case Threw(_) =>
        if attempt < MaxAttempts - 1 {
          PollErrorsTimeOut(replies, attempt + 1, delayMs);
        }
    }
  }

  /**
   * An error caught on the seventh attempt ends polling: after the wait of the `catch` block (only
   * for a `fetch` message) the run throws "Job timed out after multiple attempts".
   */
  lemma LastAttemptCaught(replies: seq<StatusReply>, delayMs: nat, m: string)
    requires MaxAttempts <= |replies| && TryAttempt(replies[MaxAttempts - 1]) == Threw(m)
    ensures PollFrom(replies, MaxAttempts - 1, delayMs)
         == PollOutcome(Err(TimedOutAfterRetries), CatchWait(m, delayMs), MaxAttempts)
  {
  }

  /**
   * When no attempt before the seventh returns, the seventh reply decides the message: a non-terminal
   * status leaves the loop with "Job timed out", a caught error gives "Job timed out after multiple attempts".
   */
  lemma {:induction false} LastAttemptDecides(replies: seq<StatusReply>, attempt: nat, delayMs: nat)
    requires attempt < MaxAttempts <= |replies|
    requires forall j :: attempt <= j < MaxAttempts - 1 ==> !TryAttempt(replies[j]).Return?
    ensures TryAttempt(replies[MaxAttempts - 1]).StillRunning? ==> PollFrom(replies, attempt, delayMs).result == Err(TimedOut)
    ensures TryAttempt(replies[MaxAttempts - 1]).Threw? ==> PollFrom(replies, attempt, delayMs).result == Err(TimedOutAfterRetries)
    decreases MaxAttempts - attempt
  {
    if attempt < MaxAttempts - 1 {
      match TryAttempt(replies[attempt])
      case StillRunning =>
        LastAttemptDecides(replies, attempt + 1, 2 * delayMs);
      case Threw(_) =>
        LastAttemptDecides(replies, attempt + 1, delayMs);
    } else if TryAttempt(replies[attempt]).StillRunning? {
      assert PollFrom(replies, attempt + 1, 2 * delayMs).result == Err(TimedOut);
    }
  }

  /**
   * The `for` loop of pollForCompletion. Each attempt makes one status request; the `catch` waits
   * on a network error and gives up only on the last attempt.
   */
  method PollForCompletion(replies: seq<StatusReply>)
    returns (result: Result<JobData>, waits: seq<nat>, requests: nat)
    requires MaxAttempts <= |replies|
    ensures PollOutcome(result, waits, requests) == PollFrom(replies, 0, InitialDelayMs)
  {
    var delayMs := InitialDelayMs;
    waits, requests := [], 0;
    ghost var whole := PollFrom(replies, 0, InitialDelayMs);
    for attempt := 0 to MaxAttempts
      invariant requests == attempt
      invariant whole == WaitFirst(waits, PollFrom(replies, attempt, delayMs))
    {
      var reply := replies[attempt];
      requests := requests + 1;
      match TryAttempt(reply) {
        case Return(data) =>
          result := Ok(data);
          return;
        case StillRunning =>
          UnfoldRunning(replies, attempt, delayMs, waits);
          delayMs := delayMs * 2;
          waits := waits + [delayMs];
        case Threw(m) =>
          // the catch block
          if attempt == MaxAttempts - 1 {
            if Includes(m, "fetch") {
              waits := waits + [delayMs];
            }
            result := Err(TimedOutAfterRetries);
            return;
          }
          UnfoldThrew(replies, attempt, delayMs, waits, m);
          ghost var before := waits;
          if Includes(m, "fetch") {
            waits := waits + [delayMs];
          }
          assert waits == before + CatchWait(m, delayMs);
      }
    }
    result := Err(TimedOut);
  }

  lemma UnfoldRunning(replies: seq<StatusReply>, attempt: nat, delayMs: nat, before: seq<nat>)
    requires attempt < MaxAttempts <= |replies| && TryAttempt(replies[attempt]).StillRunning?
    ensures WaitFirst(before, PollFrom(replies, attempt, delayMs))
         == WaitFirst(before + [2 * delayMs], PollFrom(replies, attempt + 1, 2 * delayMs))
  {
    WaitFirstTwice(before, [2 * delayMs], PollFrom(replies, attempt + 1, 2 * delayMs));
  }

  lemma UnfoldThrew(replies: seq<StatusReply>, attempt: nat, delayMs: nat, before: seq<nat>, m: string)
    requires attempt < MaxAttempts - 1 && MaxAttempts <= |replies| && TryAttempt(replies[attempt]) == Threw(m)
    ensures WaitFirst(before, PollFrom(replies, attempt, delayMs))
         == WaitFirst(before + CatchWait(m, delayMs), PollFrom(replies, attempt + 1, delayMs))
  {
    WaitFirstTwice(before, CatchWait(m, delayMs), PollFrom(replies, attempt + 1, delayMs));
  }

  lemma WaitFirstTwice(a: seq<nat>, b: seq<nat>, o: PollOutcome)
    ensures WaitFirst(a, WaitFirst(b, o)) == WaitFirst(a + b, o)
  {
    assert a + (b + o.waits) == (a + b) + o.waits;
  }

  /** Both messages pollForCompletion can throw contain "Job timed out". */
  lemma TimedOutMessages()
    ensures Includes(TimedOut, "Job timed out")
    ensures Includes(TimedOutAfterRetries, "Job timed out")
  {
    IncludesPrefix(TimedOut, "Job timed out");
    IncludesPrefix(TimedOutAfterRetries, "Job timed out");
  }

  /**
   * `delayMs` only ever doubles, and each wait is the delay in force, so the waits never decrease
   * and none is shorter than the delay the run started with.
   */
  lemma {:induction false} WaitsNeverDecrease(replies: seq<StatusReply>, attempt: nat, delayMs: nat)
    requires attempt <= MaxAttempts <= |replies|
    ensures NondecreasingFrom(PollFrom(replies, attempt, delayMs).waits, delayMs)
    decreases MaxAttempts - attempt
  {
    if attempt < MaxAttempts {
      match TryAttempt(replies[attempt])
      case Return(_) =>
      case StillRunning =>
        WaitsNeverDecrease(replies, attempt + 1, 2 * delayMs);
        PrependNondecreasing(2 * delayMs, PollFrom(replies, attempt + 1, 2 * delayMs).waits, 2 * delayMs, delayMs);
      case Threw(m) =>
        if attempt < MaxAttempts - 1 {
          WaitsNeverDecrease(replies, attempt + 1, delayMs);
          if Includes(m, "fetch") {
            PrependNondecreasing(delayMs, PollFrom(replies, attempt + 1, delayMs).waits, delayMs, delayMs);
          }
        }
    }
  }

  /** No element of `w` is below `low`, and `w` never decreases. */
  predicate NondecreasingFrom(w: seq<nat>, low: nat) {
    (forall i :: 0 <= i < |w| ==> low <= w[i]) && (forall i, j :: 0 <= i < j < |w| ==> w[i] <= w[j])
  }

  lemma PrependNondecreasing(x: nat, w: seq<nat>, lowW: nat, low: nat)
    requires NondecreasingFrom(w, lowW) && low <= x <= lowW
    ensures NondecreasingFrom([x] + w, low)
  {
  }

  /** The waits of `n` consecutive doublings of `delayMs`. */
  function Doubling(delayMs: nat, n: nat): seq<nat>
    decreases n
  {
    if n == 0 then [] else [2 * delayMs] + Doubling(2 * delayMs, n - 1)
  }

  /**
   * When every remaining attempt sees a non-terminal status, the delay doubles before each wait
   * and the loop falls through to the final "Job timed out".
   */
  lemma {:induction false} AllRunningDoubles(replies: seq<StatusReply>, attempt: nat, delayMs: nat)
    requires attempt <= MaxAttempts <= |replies|
    requires forall k :: attempt <= k < MaxAttempts ==> TryAttempt(replies[k]).StillRunning?
    ensures PollFrom(replies, attempt, delayMs) == PollOutcome(Err(TimedOut), Doubling(delayMs, MaxAttempts - attempt), MaxAttempts)
    decreases MaxAttempts - attempt
  {
    if attempt < MaxAttempts {
      AllRunningDoubles(replies, attempt + 1, 2 * delayMs);
    }
  }

  /** From the start, seven non-terminal statuses give the waits 6 s, 12 s, 24 s, ... */
  lemma AllRunningSchedule(replies: seq<StatusReply>)
    requires MaxAttempts <= |replies|
    requires forall k :: 0 <= k < MaxAttempts ==> TryAttempt(replies[k]).StillRunning?
    ensures PollFrom(replies, 0, InitialDelayMs)
         == PollOutcome(Err(TimedOut), [6000, 12000, 24000, 48000, 96000, 192000, 384000], 7)
  {
    AllRunningDoubles(replies, 0, InitialDelayMs);
    InitialDoubling();
  }

  lemma InitialDoubling()
    ensures Doubling(InitialDelayMs, MaxAttempts) == [6000, 12000, 24000, 48000, 96000, 192000, 384000]
  {
  }

  /**
   * An error caught before the last attempt neither ends polling nor doubles the delay: the rest
   * of the run is the run from the next attempt with the same delay, after one wait of that delay
   * when the message mentions `fetch` and no wait otherwise.
   */
  lemma CaughtErrorRetries(replies: seq<StatusReply>, attempt: nat, delayMs: nat, m: string)
    requires attempt < MaxAttempts - 1 && MaxAttempts <= |replies|
    requires TryAttempt(replies[attempt]) == Threw(m)
    ensures var o := PollFrom(replies, attempt, delayMs);
            var rest := PollFrom(replies, attempt + 1, delayMs);
            o.result == rest.result && o.requests == rest.requests && attempt + 1 < o.requests
            && o.waits == (if Includes(m, "fetch") then [delayMs] else []) + rest.waits
  {
    PollRequestBounds(replies, attempt + 1, delayMs);
  }

  /** A backend FAILED status is caught like any other error, so polling goes on. */
  lemma FailedStatusRetries(replies: seq<StatusReply>, attempt: nat, delayMs: nat)
    requires attempt < MaxAttempts - 1 && MaxAttempts <= |replies|
    requires replies[attempt].Polled? && replies[attempt].data.status == "FAILED"
    ensures PollFrom(replies, attempt, delayMs).result == PollFrom(replies, attempt + 1, delayMs).result
    ensures attempt + 1 < PollFrom(replies, attempt, delayMs).requests
  {
    CaughtErrorRetries(replies, attempt, delayMs, TryAttempt(replies[attempt]).message);
  }

  /**
   * A run with two network errors, a PENDING status (not one the code names) and then a completed
   * job: the errors wait the initial delay, PENDING doubles it, and the fourth request returns.
   */
  lemma NetworkErrorsThenPending(replies: seq<StatusReply>, done: JobData)
    requires MaxAttempts <= |replies|
    requires replies[0] == PollThrew("fetch failed")
    requires replies[1] == PollThrew("fetch failed")
    requires replies[2] == Polled(JobData(done.id, "PENDING", None, None))
    requires replies[3] == Polled(done) && done.status == "COMPLETED"
    ensures PollFrom(replies, 0, InitialDelayMs) == PollOutcome(Ok(done), [3000, 3000, 6000], 4)
  {
    var fetchFailed := "fetch failed";
    assert OccursAt(fetchFailed, "fetch", 0);
    assert IndexOf(fetchFailed, "fetch") == 0;
    assert CatchWait(fetchFailed, 3000) == [3000];
    var o3 := PollFrom(replies, 3, 6000);
    assert o3 == PollOutcome(Ok(done), [], 4);
    var o2 := PollFrom(replies, 2, 3000);
    assert o2 == WaitFirst([6000], o3);
    var o1 := PollFrom(replies, 1, 3000);
    assert o1 == WaitFirst([3000], o2);
  }

  /** The parsed request body of `POST /api/runpod`, or the message of the error parsing threw. */
  datatype RequestBody =
    | Unparsable(message: string)
    | Body(kind: Option<string>, text: Option<string>, audio: Option<string>)

  datatype ReplyBody =
    | ErrorOnly(error: string)
    | ErrorDetails(error: string, details: string)
    | Job(data: JobData)

  datatype HttpReply = HttpReply(status: nat, body: ReplyBody)

  const MissingFields := HttpReply(400, ErrorOnly("Missing required fields: type and text are mandatory."))
  const ServerTimeout := HttpReply(500, ErrorDetails("Server Timeout", "The job processing took too long to complete."))

  /** The reply the `catch` block of POST builds for a thrown error. */
  function CatchReply(message: string): (r: HttpReply)
    ensures r.status == 500
    ensures r == ServerTimeout <==> Includes(message, "Job timed out")
    ensures r != ServerTimeout ==> r.body == ErrorDetails("Internal Server Error", message)
  {
    if Includes(message, "Job timed out") then ServerTimeout
    else HttpReply(500, ErrorDetails("Internal Server Error", message))
  }

  /**
   * The POST handler. `forwarded` is the payload it submits to RunPod, if any; `polls` and `waits`
   * are the status requests and waits of the poller.
   */
  method Post(request: RequestBody, submitted: SubmitReply, replies: seq<StatusReply>)
    returns (reply: HttpReply, forwarded: Option<Payload>, polls: nat, waits: seq<nat>)
    requires MaxAttempts <= |replies|
    ensures request.Unparsable? ==> forwarded == None && reply == CatchReply(request.message)
    ensures request.Body? && (!Truthy(request.kind) || !Truthy(request.text)) ==> forwarded == None && reply == MissingFields
    ensures request.Body? && Truthy(request.kind) && Truthy(request.text)
            ==> forwarded == Some(Payload(request.kind, request.text, request.audio))
    ensures forwarded.None? || !submitted.Accepted? ==> polls == 0 && waits == []
    ensures forwarded.Some? && submitted.Rejected? ==>
              reply == HttpReply(submitted.status, ErrorDetails("RunPod API error",
                         OrElse(submitted.errorMessage, "Unexpected error (" + NatToString(submitted.status) + ")")))
    ensures forwarded.Some? && submitted.SubmitThrew? ==> reply == CatchReply(submitted.message)
    ensures forwarded.Some? && submitted.Accepted? ==>
              var o := PollFrom(replies, 0, InitialDelayMs);
              polls == o.requests && waits == o.waits
              && reply == (if o.result.Ok? then HttpReply(200, Job(o.result.value)) else ServerTimeout)
    ensures reply.status == 200 ==> reply.body.Job? && reply.body.data.status == "COMPLETED"
    ensures polls <= MaxAttempts
  {
    forwarded, polls, waits := None, 0, [];
    if request.Unparsable? {
      reply := CatchReply(request.message);
      return;
    }
    if !Truthy(request.kind) || !Truthy(request.text) {
      reply := MissingFields;
      return;
    }
    var payload := Payload(request.kind, request.text, request.audio);
    forwarded := Some(payload);
    match submitted {
      case Rejected(code, m) =>
        reply := HttpReply(code, ErrorDetails("RunPod API error", OrElse(m, "Unexpected error (" + NatToString(code) + ")")));
      case SubmitThrew(m) =>
        reply := CatchReply(m);
      case Accepted(_) =>
        var result;
        PollRequestBounds(replies, 0, InitialDelayMs);
        PollReturnsCompleted(replies, 0, InitialDelayMs);
        PollErrorsTimeOut(replies, 0, InitialDelayMs);
        TimedOutMessages();
        result, waits, polls := PollForCompletion(replies);
        match result {
          case Ok(completed) =>
            reply := HttpReply(200, Job(completed));
          case Err(m) =>
            reply := CatchReply(m);
        }
    }
  }

  /**
   * The error-to-reply mapping ignores whether the message names an `invalid_request_error`:
   * such an error still gets 500 Internal Server Error with its own message.
   */
  lemma ClientErrorFlagUnused(message: string)
    requires Includes(message, "invalid_request_error") && !Includes(message, "Job timed out")
    ensures CatchReply(message) == HttpReply(500, ErrorDetails("Internal Server Error", message))
  {
  }
}
