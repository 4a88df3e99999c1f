/** Model of how a failed Glue run surfaces: `classify_failure` and `is_retryable` of _failures.py,
    `_glue_capacity_never_started` and `GluePlatformHandler.describe_failure` of
    spark_platform_handlers.py, `complete_glue_job` of _glue.py, and the `__fail__` path of the
    operator in _operator.py.

    The two regular expressions are parameters: `Capacity` says whether a message matches
    `GLUE_CAPACITY_ERROR_RE`, `FindRunId` is the first match of `_GLUE_RUN_ID_RE`.
  */
module Failures {
  import opened Texts
  import opened Wrappers

  datatype Classification = DownstreamJob | SubmitConfig | TriggerPolling | PlatformInfra | PlatformCapacity

  function ClassifyFailure(runLaunched: bool, isTriggerFailure: bool, isPlatformInternalError: bool,
                           isCapacityNeverStarted: bool): Classification
  {
    if isTriggerFailure then TriggerPolling
    else if isCapacityNeverStarted then PlatformCapacity
    else if isPlatformInternalError then PlatformInfra
    else if runLaunched then DownstreamJob
    else SubmitConfig
  }

  predicate IsRetryable(c: Classification) {
    c in {SubmitConfig, PlatformCapacity}
  }

  /** Only two kinds of failure are worth another try: a run that capacity kept from starting, and one that was never
      launched. Neither counts when it is the trigger that failed. */
  lemma RetryableExactly(runLaunched: bool, isTriggerFailure: bool, isPlatformInternalError: bool,
                         isCapacityNeverStarted: bool)
    ensures IsRetryable(ClassifyFailure(runLaunched, isTriggerFailure, isPlatformInternalError, isCapacityNeverStarted))
       <==> !isTriggerFailure && (isCapacityNeverStarted || (!runLaunched && !isPlatformInternalError))
    ensures ClassifyFailure(true, false, isPlatformInternalError, false)
         == if isPlatformInternalError then PlatformInfra else DownstreamJob
  {
  }

  /** What Glue reports of a run; an absent text is empty. */
  datatype RunReport = RunReport(state: string, errorMessage: string, executionTime: Option<int>, logTail: string)

  /** What a failure tells the reader of the task log; an absent text is empty. */
  datatype FailureInfo = FailureInfo(runId: Option<string>, reason: string, rootCause: string,
                                     classification: Classification)

  /** The exceptions that matter to Airflow: `Fail` is AirflowFailException, which is never retried;
      `Plain` is AirflowException; `Retryable` is RetryableJobFailure. The first and the last are
      AirflowExceptions too. */
  datatype Exc = Plain | Fail | Retryable | Other

  /** An exception comes with what it tells, if it is one of the provider's own. */
  datatype Outcome<T> = Returned(value: T) | Raised(exc: Exc, info: Option<FailureInfo>)

  datatype Regexes = Regexes(capacity: string -> bool, findRunId: string -> Option<string>)

  predicate CapacityNeverStarted(run: RunReport, re: Regexes) {
    if run.executionTime.Some? && run.executionTime.value > 0 then false else re.capacity(run.errorMessage)
  }

  /** `describe_failure` of the Glue handler; `payload` is absent when there is no run to describe. */
  function DescribeFailure(payload: Option<RunReport>, error: string, runId: Option<string>, runLaunched: bool,
                           isTriggerFailure: bool, re: Regexes): FailureInfo
  {
    var run := if payload.Some? then payload.value else RunReport("", "", None, "");
    FailureInfo(runId, if run.errorMessage != "" then run.errorMessage else error, run.logTail,
                ClassifyFailure(runLaunched, isTriggerFailure, false, CapacityNeverStarted(run, re)))
  }

  /** What Glue answers when asked for the run, and what the log group holds of its output. */
  datatype Platform = Platform(getJobRun: string -> Outcome<RunReport>, outputTail: string -> string)

  /** `complete_glue_job`, called with a handler. */
  method CompleteGlueJob(p: Platform, runId: string, re: Regexes) returns (r: Outcome<RunReport>)
    ensures r == Completed(p, runId, re)
  {
    var status := p.getJobRun(runId);
    if status.Raised? {
      return status;
    }
    var run := status.value;
    if run.state != "SUCCEEDED" {
      if run.logTail == "" {
        var tail := p.outputTail(runId);
        if tail != "" {
          run := run.(logTail := tail);
        }
      }
      var failure := DescribeFailure(Some(run), "", Some(runId), true, false, re);
      var exc := if IsRetryable(failure.classification) then Retryable else Plain;
      return Raised(exc, Some(failure));
    }
    r := status;
  }

  /** The run did no work: it failed for lack of capacity before any job code ran. */
  predicate DidNoWork(run: RunReport, re: Regexes) {
    && run.state != "SUCCEEDED"
    && (run.executionTime == None || run.executionTime.value <= 0)
    && re.capacity(run.errorMessage)
  }

  /** The message names the run, its own error, and the end of its output, wherever that is found. */
  function InfoOf(p: Platform, runId: string, run: RunReport, re: Regexes): FailureInfo {
    FailureInfo(Some(runId), run.errorMessage, if run.logTail != "" then run.logTail else p.outputTail(runId),
                if DidNoWork(run, re) then PlatformCapacity else DownstreamJob)
  }

  function Completed(p: Platform, runId: string, re: Regexes): Outcome<RunReport> {
    var status := p.getJobRun(runId);
    if status.Raised? || status.value.state == "SUCCEEDED" then status
    else Raised(if DidNoWork(status.value, re) then Retryable else Plain, Some(InfoOf(p, runId, status.value, re)))
  }

  // ---------------------------------------------------------------------------------------
  // The resume path
  // ---------------------------------------------------------------------------------------

  function TerminalRunId(errorText: string, re: Regexes): Option<string> {
    if Contains(errorText, "Run State") then re.findRunId(errorText) else None
  }

  function Lines(parts: seq<string>): string {
    if parts == [] then "" else if |parts| == 1 then parts[0] else parts[0] + "\n" + Lines(parts[1..])
  }

  /** What the trigger left: the lines of its traceback, if any, and the error. */
  datatype Kwargs = Kwargs(traceback: seq<string>, error: Option<string>)

  function ErrorText(k: Kwargs): string {
    Lines(k.traceback + [ErrorOf(k)])
  }

  function ErrorOf(k: Kwargs): string {
    if k.error.Some? then k.error.value else "Trigger failed"
  }

  /** `resume_execution` for the method `__fail__`; `pushFails` says whether the final XCom push raises. */
  method ResumeFailed(k: Kwargs, p: Platform, pushFails: bool, re: Regexes) returns (r: Outcome<RunReport>)
    ensures r == Resumed(k, p, pushFails, re)
  {
    hide TerminalRunId, ErrorText, Completed;
    var runId := TerminalRunId(ErrorText(k), re);
    if runId.Some? {
      var completed := CompleteGlueJob(p, runId.value, re);
      match completed {
        case Raised(Retryable, _) => return completed;
        case Raised(Fail, _) => return completed;
        case Raised(Plain, info) => return Raised(Fail, info);
        case Raised(Other, _) =>
        case Returned(run) =>
          var pushed := if pushFails then Raised(Other, None) else completed;
          return pushed;
      }
    }
    var info := DescribeFailure(None, ErrorOf(k), None, true, true, re);
    r := Raised(Fail, Some(info));
  }

  /** What the resume comes to. */
  function Resumed(k: Kwargs, p: Platform, pushFails: bool, re: Regexes): Outcome<RunReport> {
    var runId := TerminalRunId(ErrorText(k), re);
    var unresolved := Raised(Fail, Some(FailureInfo(None, ErrorOf(k), "", TriggerPolling)));
    if runId.None? then unresolved
    else
      var completed := Completed(p, runId.value, re);
      if completed.Returned? then (if pushFails then Raised(Other, None) else completed)
      else if completed.exc == Other then unresolved
      else if completed.exc == Plain then Raised(Fail, completed.info)
      else completed
  }

  /** Each of the lines, and its end. */
  function Ended(lines: seq<string>): string {
    if lines == [] then "" else Ended(lines[..|lines| - 1]) + lines[|lines| - 1] + "\n"
  }

  function Message(k: Kwargs): string {
    match k.error
    case None => "Trigger failed"
    case Some(error) => error
  }

  /** The run id that the trigger told: the first in the lines of its traceback and its error, if a run state is
      mentioned anywhere in them. */
  ghost function ToldRunId(k: Kwargs, re: Regexes): Option<string> {
    var text := Ended(k.traceback) + Message(k);
    if exists i: nat :: StandsAt(text, i, "Run State") then re.findRunId(text) else None
  }

  lemma {:induction false} LinesAreEnded(lines: seq<string>, last: string)
    ensures Lines(lines + [last]) == Ended(lines) + last
  {
    if lines == [] {
      assert lines + [last] == [last];
    } else {
      LinesAreEnded(lines[1..], last);
      EndedCons(lines);
      var all := lines + [last];
      assert all[1..] == lines[1..] + [last];
      assert lines[0] + "\n" + (Ended(lines[1..]) + last) == (lines[0] + "\n" + Ended(lines[1..])) + last;
    }
  }

  lemma {:induction false} EndedCons(lines: seq<string>)
    requires lines != []
    ensures Ended(lines) == lines[0] + "\n" + Ended(lines[1..])
  {
    var n := |lines| - 1;
    if n == 0 {
      assert lines[..0] == [] && lines[1..] == [];
      assert Ended(lines) == "" + lines[0] + "\n";
    } else {
      EndedCons(lines[..n]);
      var rest := lines[1..];
      assert lines[..n][1..] == rest[..n - 1] && rest[n - 1] == lines[n];
      assert lines[0] + "\n" + Ended(rest[..n - 1]) + lines[n] + "\n"
          == lines[0] + "\n" + (Ended(rest[..n - 1]) + lines[n] + "\n");
    }
  }

  lemma RunIdIsTold(k: Kwargs, re: Regexes)
    ensures TerminalRunId(ErrorText(k), re) == ToldRunId(k, re) && ErrorOf(k) == Message(k)
  {
    LinesAreEnded(k.traceback, ErrorOf(k));
    ContainsExactly(ErrorText(k), "Run State");
    hide Lines, Ended, Contains, StandsAt;
  }

  /** The run that the trigger told of, if Glue knows it. */
  ghost function ResolvedRun(k: Kwargs, p: Platform, re: Regexes): Option<RunReport> {
    var runId := ToldRunId(k, re);
    if runId.None? || p.getJobRun(runId.value).Raised? then None else Some(p.getJobRun(runId.value).value)
  }

  /** Glue's client raises errors of its own, none of Airflow's. */
  ghost predicate ClientErrors(p: Platform) {
    forall id :: p.getJobRun(id).Raised? ==> p.getJobRun(id).exc == Other
  }

  /** Whatever the error text, the answers of Glue and the run: a failure that escapes is one Airflow never retries, but
      for a run that did no work. The one thing else that can escape is a final XCom push that raises, for a run that
      succeeded after all. */
  lemma ResumeEscapes(k: Kwargs, p: Platform, pushFails: bool, re: Regexes)
    requires ClientErrors(p)
    ensures var r, run := Resumed(k, p, pushFails, re), ResolvedRun(k, p, re);
            var succeeded := run.Some? && run.value.state == "SUCCEEDED";
            && (r.Raised? && r.exc == Retryable <==> run.Some? && DidNoWork(run.value, re))
            && (r.Raised? && r.exc == Other <==> succeeded && pushFails)
            && (r.Returned? <==> succeeded && !pushFails)
            && !(r.Raised? && r.exc == Plain)
  {
    RunIdIsTold(k, re);
    hide TerminalRunId, ErrorText, ToldRunId;
  }

  /** A failed run is named in the message, with its own error and the end of its output; a failure of the trigger is
      told as such, without a run. */
  lemma ResumeNamesTheRun(k: Kwargs, p: Platform, pushFails: bool, re: Regexes)
    requires ClientErrors(p)
    ensures var r, run := Resumed(k, p, pushFails, re), ResolvedRun(k, p, re);
            && (run.Some? && run.value.state != "SUCCEEDED" ==>
              && r.Raised? && r.info.Some? && r.info.value.runId == ToldRunId(k, re)
              && r.info.value.reason == run.value.errorMessage
              && (run.value.logTail != "" ==> r.info.value.rootCause == run.value.logTail)
              && r.info.value.classification in {PlatformCapacity, DownstreamJob})
            && (run.None? ==>
              && r.Raised? && r.info.Some? && r.info.value.runId == None
              && r.info.value.reason == Message(k)
              && r.info.value.classification == TriggerPolling)
  {
    RunIdIsTold(k, re);
    hide TerminalRunId, ErrorText, ToldRunId, ErrorOf, Message;
  }

  /** The run state is found wherever it stands: in the error or in any line of the traceback. */
  lemma {:induction false} RunStateFoundAnywhere(parts: seq<string>, i: nat, part: string)
    requires i < |parts| && Contains(parts[i], part)
    ensures Contains(Lines(parts), part)
  {
    hide Contains;
    if |parts| > 1 {
      if i == 0 {
        ContainsEarlier(parts[0], part, "\n" + Lines(parts[1..]));
        assert Lines(parts) == parts[0] + ("\n" + Lines(parts[1..]));
      } else {
        RunStateFoundAnywhere(parts[1..], i - 1, part);
        ContainsLater(parts[0] + "\n", part, Lines(parts[1..]));
      }
    }
  }
}
