/**
 * The bulk-export side of the script: `initiate_export` validates and submits an
 * export job, `download_export` polls the job until it is complete, the time limit
 * runs out or a poll fails, and then downloads the archive.
 */
module ExportJob {
  import opened Wrappers
  import FeedRequest

  /** `status_code in (200, 201, "200", "201")`; `requests` reports the status as an int. */
  predicate Accepted(status: int)
  {
    status == 200 || status == 201
  }

  datatype Response<B> = Response(status: int, body: B)

  /** A JSON value in a place where the script tests its truth. */
  datatype JsonValue =
    | Missing
    | JsonNull
    | JsonBool(b: bool)
    | JsonNumber(x: real)
    | JsonString(s: string)
    | JsonArray(length: nat)
    | JsonObject(size: nat)

  /**
   * Python's truth of `item.get("is_valid", "true")`: a missing key yields the
   * non-empty string `"true"`, which is truthy.
   */
  predicate IsValidTruthy(v: JsonValue)
  {
    match v
    case Missing => true
    case JsonNull => false
    case JsonBool(b) => b
    case JsonNumber(x) => x != 0.0
    case JsonString(s) => s != ""
    case JsonArray(n) => n > 0
    case JsonObject(n) => n > 0
  }

  /** The validation reply: not JSON, or an object whose `items` carry their `is_valid`. */
  datatype ValidationBody =
    | ValidationNotJson
    | ValidationObject(items: Option<seq<JsonValue>>)   // `None`: no `items` key

  /** The submission reply: not JSON, or an object with an optional `id`. */
  datatype SubmitBody = SubmitNotJson | SubmitObject(id: Option<string>)

  /** Every item of the validation reply is valid. */
  predicate AllItemsValid(items: seq<JsonValue>)
  {
    forall i :: 0 <= i < |items| ==> IsValidTruthy(items[i])
  }

  /** What the validation step lets through: an accepted reply whose items are all valid. */
  predicate ValidationPasses(v: Response<ValidationBody>)
  {
    && Accepted(v.status)
    && v.body.ValidationObject?
    && v.body.items.Some?
    && AllItemsValid(v.body.items.value)
  }

  /**
   * The validation step of `initiate_export` as written (LINZ_WFS.py:456-474). The
   * branch for an invalid item evaluates `json_response[items]` with `items` unbound,
   * so it raises `NameError` instead of reaching its `exit()`.
   */
  function ValidationGateAsWritten(v: Response<ValidationBody>): (g: Option<Stop>)
    ensures g.None? <==> ValidationPasses(v)
    ensures (v.body.ValidationObject? && v.body.items.Some? && Accepted(v.status)
             && !AllItemsValid(v.body.items.value)) ==> g == Some(Raised(NameError))
  {
    if !Accepted(v.status) then Some(Exit(0))
    else match v.body
      case ValidationNotJson => Some(Exit(0))
      case ValidationObject(items) =>
        if items.None? then Some(Raised(KeyError))
        else if exists i | 0 <= i < |items.value| :: !IsValidTruthy(items.value[i]) then Some(Raised(NameError))
        else None
  }

  /** The validation step as intended: an invalid item is logged and the run exits. */
  function ValidationGate(v: Response<ValidationBody>): (g: Option<Stop>)
    ensures g.None? <==> ValidationPasses(v)
    ensures Accepted(v.status) && v.body.ValidationObject? && v.body.items.Some? ==> g.None? || g == Some(Exit(0))
  {
    if !Accepted(v.status) then Some(Exit(0))
    else match v.body
      case ValidationNotJson => Some(Exit(0))
      case ValidationObject(items) =>
        if items.None? then Some(Raised(KeyError))
        else if exists i | 0 <= i < |items.value| :: !IsValidTruthy(items.value[i]) then Some(Exit(0))
        else None
  }

  /** A submitted job: the export id the server assigned, and the watermark candidate. */
  datatype Submitted = Submitted(exportId: Option<string>, watermark: Option<int>)

  /** The submission step: the reply must be accepted and parse as JSON. */
  function Submit(s: Response<SubmitBody>, watermark: Option<int>): Result<Submitted>
  {
    if !Accepted(s.status) then Fail(Exit(0))
    else match s.body
      case SubmitNotJson => Fail(Exit(0))
      case SubmitObject(id) => Ok(Submitted(id, watermark))
  }

  /**
   * `initiate_export` as written (LINZ_WFS.py:430-494). The submission instant is
   * assigned to a local `last_updated_datetime`, so no watermark candidate reaches the
   * caller.
   */
  function InitiateExportAsWritten(v: Response<ValidationBody>, s: Response<SubmitBody>, submittedAt: int): (r: Result<Submitted>)
    ensures r.Ok? ==> ValidationPasses(v) && Accepted(s.status) && r.value.watermark.None?
  {
    var gate := ValidationGateAsWritten(v);
    if gate.Some? then Fail(gate.value) else Submit(s, None)
  }

  /**
   * `initiate_export` as intended: the validation gate exits on an invalid item, and
   * the instant of submission becomes the watermark candidate of the run.
   */
  function InitiateExport(v: Response<ValidationBody>, s: Response<SubmitBody>, submittedAt: int): (r: Result<Submitted>)
    ensures r.Ok? <==> ValidationPasses(v) && Accepted(s.status) && s.body.SubmitObject?
    ensures r.Ok? ==> r.value.exportId == s.body.id && r.value.watermark == Some(submittedAt)
  {
    var gate := ValidationGate(v);
    if gate.Some? then Fail(gate.value) else Submit(s, Some(submittedAt))
  }

  /**
   * A failed validation stops the run before anything is submitted: the outcome does
   * not depend on the submission reply or on the clock.
   */
  lemma NothingSubmittedWhenInvalid(v: Response<ValidationBody>, s1: Response<SubmitBody>, s2: Response<SubmitBody>, t1: int, t2: int)
    requires !ValidationPasses(v)
    ensures InitiateExport(v, s1, t1) == InitiateExport(v, s2, t2)
    ensures InitiateExport(v, s1, t1).Fail?
    ensures InitiateExportAsWritten(v, s1, t1) == InitiateExportAsWritten(v, s2, t2)
  {
  }

  /** The two versions accept the same jobs and hand back the same export id. */
  lemma SameJobsAccepted(v: Response<ValidationBody>, s: Response<SubmitBody>, t: int)
    ensures InitiateExportAsWritten(v, s, t).Ok? <==> InitiateExport(v, s, t).Ok?
    ensures InitiateExport(v, s, t).Ok? ==>
              InitiateExportAsWritten(v, s, t).value.exportId == InitiateExport(v, s, t).value.exportId
  {
  }

  /** An invalid item: the code as written raises `NameError`; the intent is `exit()`. */
  lemma InvalidItemRaisesNameError()
    ensures ValidationGateAsWritten(Response(200, ValidationObject(Some([JsonBool(false)])))) == Some(Raised(NameError))
    ensures ValidationGate(Response(200, ValidationObject(Some([JsonBool(false)])))) == Some(Exit(0))
  {
    assert !IsValidTruthy([JsonBool(false)][0]);
  }

  /**
   * After a full export the run writes `update_last_updated_file(None)`, that is the
   * time at the end of the run. As written, a job submitted at 100 in a run ending at
   * 700 leaves the watermark at 700, so changes made between 100 and 700 are never
   * requested; with the candidate recorded the watermark is 100.
   */
  lemma AsWrittenWatermarkSkipsWindow(v: Response<ValidationBody>, s: Response<SubmitBody>)
    requires InitiateExport(v, s, 100).Ok?
    ensures FeedRequest.WatermarkWritten(InitiateExportAsWritten(v, s, 100).value.watermark, 700) == 700
    ensures FeedRequest.WatermarkWritten(InitiateExport(v, s, 100).value.watermark, 700) == 100
  {
    SameJobsAccepted(v, s, 100);
  }

  // ---------------------------------------------------------------------------
  // The poll loop of `download_export`.

  /** What `float(poll_json_response.get("progress"))` does with the reply's progress. */
  datatype Progress =
    | ProgressNumber      // a number, or text that reads as one
    | ProgressNotNumeric  // text that does not: `ValueError`
    | ProgressMissing     // no progress at all: `float(None)` raises `TypeError`

  datatype PollBody = PollNotJson | PollObject(state: Option<string>, progress: Progress)

  /**
   * One check of the loop guard: the clock reading `now` (`time.time()`) and the reply
   * the status request would get if this check lets the loop run on.
   */
  datatype PollStep = PollStep(now: int, response: Response<PollBody>)

  /** Why the loop was left by `break`. */
  datatype BreakReason = Complete | HttpFailure(status: int) | ParseFailure

  /** What one poll reply makes the loop do. */
  datatype PollVerdict = Break(reason: BreakReason) | KeepPolling | Raise(error: PyError)

  /**
   * One iteration of the loop body (LINZ_WFS.py:514-536): a refused reply and a
   * `ValueError` while reading the reply both break out of the loop, `complete` breaks
   * out, anything else sleeps and polls again. A reply without progress raises a
   * `TypeError` that the `except ValueError` does not catch.
   */
  function Classify(r: Response<PollBody>): (v: PollVerdict)
    ensures v.Break? && v.reason.Complete? <==>
              Accepted(r.status) && r.body == PollObject(Some("complete"), ProgressNumber)
    ensures v.Break? && v.reason.HttpFailure? <==> !Accepted(r.status)
    ensures v.Raise? ==> v.error == TypeError
  {
    if !Accepted(r.status) then Break(HttpFailure(r.status))
    else match r.body
      case PollNotJson => Break(ParseFailure)
      case PollObject(state, progress) =>
        match progress
        case ProgressNotNumeric => Break(ParseFailure)
        case ProgressMissing => Raise(TypeError)
        case ProgressNumber => if state == Some("complete") then Break(Complete) else KeepPolling
  }

  /** `(time.time() - start_time) < max_polling_time` no longer holds at this check. */
  predicate Expired(s: PollStep, start: int, maxPollingTime: int)
  {
    s.now - start >= maxPollingTime
  }

  /** Some check at or after `from` finds the time limit passed. */
  predicate DeadlineAhead(trace: seq<PollStep>, start: int, maxPollingTime: int, from: nat)
  {
    exists j :: from <= j < |trace| && Expired(trace[j], start, maxPollingTime)
  }

  /** How the loop ends. `attempts` is the value of the `attempt` counter at that point. */
  datatype PollOutcome =
    | LeftLoop(reason: BreakReason, attempts: nat)   // by `break`
    | TimedOut(attempts: nat)                        // the `else` of the `while`
    | PollRaised(error: PyError, attempts: nat)      // an uncaught exception

  /** How many polls asked the loop to go on before it ended. */
  function QuietPolls(o: PollOutcome): int
  {
    if o.TimedOut? then o.attempts else o.attempts - 1
  }

  /**
   * The loop run from check `k` on. A break or a raise happens at the last attempt;
   * a time-out happens at a check that finds the limit passed; every attempt in
   * between found the time left and a reply that asked to poll again.
   */
  function PollFrom(trace: seq<PollStep>, start: int, maxPollingTime: int, k: nat): (o: PollOutcome)
    requires DeadlineAhead(trace, start, maxPollingTime, k)
    ensures k <= QuietPolls(o) && o.attempts <= |trace|
    ensures o.TimedOut? ==> o.attempts < |trace| && Expired(trace[o.attempts], start, maxPollingTime)
    ensures o.LeftLoop? ==> !Expired(trace[o.attempts - 1], start, maxPollingTime)
                            && Classify(trace[o.attempts - 1].response) == Break(o.reason)
    ensures o.PollRaised? ==> !Expired(trace[o.attempts - 1], start, maxPollingTime)
                              && Classify(trace[o.attempts - 1].response) == Raise(o.error)
    ensures forall j :: k <= j < QuietPolls(o) ==>
              !Expired(trace[j], start, maxPollingTime) && Classify(trace[j].response) == KeepPolling
    decreases |trace| - k
  {
    if Expired(trace[k], start, maxPollingTime) then TimedOut(k)
    else match Classify(trace[k].response)
      case Break(reason) => LeftLoop(reason, k + 1)
      case Raise(e) => PollRaised(e, k + 1)
      case KeepPolling => PollFrom(trace, start, maxPollingTime, k + 1)
  }

  /**
   * The `while ... else` loop of `download_export` (LINZ_WFS.py:510-546). `start` is
   * `start_time`; the sleep between attempts shows only in the clock readings of
   * `trace`, which must eventually pass the limit.
   */
  method PollExport(trace: seq<PollStep>, start: int, maxPollingTime: int) returns (outcome: PollOutcome)
    requires DeadlineAhead(trace, start, maxPollingTime, 0)
    ensures outcome == PollFrom(trace, start, maxPollingTime, 0)
  {
    var attempt := 0;
    var reason: Option<BreakReason> := None;
    while trace[attempt].now - start < maxPollingTime
      invariant attempt < |trace|
      invariant DeadlineAhead(trace, start, maxPollingTime, attempt)
      invariant PollFrom(trace, start, maxPollingTime, 0) == PollFrom(trace, start, maxPollingTime, attempt)
      decreases |trace| - attempt
    {
      attempt := attempt + 1;
      var verdict := Classify(trace[attempt - 1].response);
      if verdict.Break? {
        reason := Some(verdict.reason);
        break;
      }
      if verdict.Raise? {
        return PollRaised(verdict.error, attempt);
      }
      // time.sleep(poll_interval): the next check reads the clock from the trace
    }
    if reason.Some? {
      outcome := LeftLoop(reason.value, attempt);
    } else {
      outcome := TimedOut(attempt);
    }
  }

  /** How `download_export` ends. */
  datatype DownloadOutcome =
    | Downloaded(attempts: nat)
    | TimedOutResumable(resumeId: string)   // `exit()` after suggesting `--resume <id>`
    | DownloadStopped(stop: Stop)

  /**
   * `download_export(export_id)` (LINZ_WFS.py:497-565): every way out of the loop by
   * `break` goes on to the download request, including a refused or unreadable poll
   * reply; only the time limit and an uncaught exception skip it.
   */
  method DownloadExport(exportId: string, trace: seq<PollStep>, start: int, maxPollingTime: int, downloadStatus: int)
    returns (d: DownloadOutcome)
    requires DeadlineAhead(trace, start, maxPollingTime, 0)
    ensures d.Downloaded? <==> PollFrom(trace, start, maxPollingTime, 0).LeftLoop? && Accepted(downloadStatus)
    ensures d.Downloaded? ==> d.attempts == PollFrom(trace, start, maxPollingTime, 0).attempts
    ensures d.TimedOutResumable? <==> PollFrom(trace, start, maxPollingTime, 0).TimedOut?
    ensures d.TimedOutResumable? ==> d.resumeId == exportId
    ensures d.DownloadStopped? && PollFrom(trace, start, maxPollingTime, 0).LeftLoop? ==> d.stop == Exit(0)
    ensures PollFrom(trace, start, maxPollingTime, 0).PollRaised? ==>
              d == DownloadStopped(Raised(PollFrom(trace, start, maxPollingTime, 0).error))
  {
    var polled := PollExport(trace, start, maxPollingTime);
    match polled
    case TimedOut(_) =>
      d := TimedOutResumable(exportId);
    case PollRaised(e, _) =>
      d := DownloadStopped(Raised(e));
    case LeftLoop(_, n) =>
      if Accepted(downloadStatus) {
        d := Downloaded(n);
      } else {
        d := DownloadStopped(Exit(0));
      }
  }

  /** The clock advances by exactly `interval` between consecutive checks. */
  predicate UniformClock(trace: seq<PollStep>, start: int, interval: int)
  {
    forall k :: 0 <= k < |trace| ==> trace[k].now == start + k * interval
  }

  /** Every reply reports a state other than `complete`. */
  predicate NeverComplete(trace: seq<PollStep>)
  {
    forall k :: 0 <= k < |trace| ==> Classify(trace[k].response) == KeepPolling
  }

  /** `ceil(maxPollingTime / interval)`, and no attempt at all for a limit of zero or less. */
  function CeilDiv(maxPollingTime: int, interval: int): nat
    requires interval > 0
  {
    if maxPollingTime <= 0 then 0 else (maxPollingTime + interval - 1) / interval
  }

  lemma CeilDivBounds(maxPollingTime: int, interval: int, k: nat)
    requires interval > 0
    ensures CeilDiv(maxPollingTime, interval) * interval >= maxPollingTime
    ensures k < CeilDiv(maxPollingTime, interval) ==> k * interval < maxPollingTime
  {
    var c := CeilDiv(maxPollingTime, interval);
    if maxPollingTime > 0 {
      var n := maxPollingTime + interval - 1;
      assert n == c * interval + n % interval;
      if k < c {
        assert k <= c - 1;
        assert k * interval <= (c - 1) * interval;
      }
    }
  }

  lemma {:induction false} TimedOutFrom(trace: seq<PollStep>, start: int, interval: int, maxPollingTime: int, k: nat)
    requires interval > 0 && UniformClock(trace, start, interval) && NeverComplete(trace)
    requires k <= CeilDiv(maxPollingTime, interval)
    requires DeadlineAhead(trace, start, maxPollingTime, k)
    ensures PollFrom(trace, start, maxPollingTime, k) == TimedOut(CeilDiv(maxPollingTime, interval))
    decreases CeilDiv(maxPollingTime, interval) - k
  {
    CeilDivBounds(maxPollingTime, interval, k);
    if k < CeilDiv(maxPollingTime, interval) {
      TimedOutFrom(trace, start, interval, maxPollingTime, k + 1);
    }
  }

  /**
   * A job that never completes, polled every `interval > 0` seconds: the loop makes
   * exactly `ceil(max_polling_time / interval)` attempts and then times out.
   */
  lemma AttemptsUntilTimeOut(trace: seq<PollStep>, start: int, interval: int, maxPollingTime: int)
    requires interval > 0 && UniformClock(trace, start, interval) && NeverComplete(trace)
    requires DeadlineAhead(trace, start, maxPollingTime, 0)
    ensures PollFrom(trace, start, maxPollingTime, 0) == TimedOut(CeilDiv(maxPollingTime, interval))
  {
    TimedOutFrom(trace, start, interval, maxPollingTime, 0);
  }

  /** The defaults: polling every 10 seconds for at most 600 seconds makes 60 attempts. */
  lemma SixtyAttemptsByDefault(trace: seq<PollStep>, start: int)
    requires UniformClock(trace, start, 10) && NeverComplete(trace) && |trace| > 60
    ensures DeadlineAhead(trace, start, 600, 0) && PollFrom(trace, start, 600, 0) == TimedOut(60)
  {
    assert Expired(trace[60], start, 600);
    AttemptsUntilTimeOut(trace, start, 10, 600);
  }
}
