/**
 * Whole requests against a fresh job manager, as a client of the HTTP routes
 * sees them: upload, the worker's output arriving on the child's streams,
 * the child exiting, then GET /status/:id and GET /result/:id.
 */
module Session {
  import opened Options
  import opened Text
  import opened JsValues
  import opened Protocol
  import opened JobSpec
  import opened Manager
  import opened Worker
  import opened Routes

  /**
   * A run that succeeds: the worker prints its init, progress and done lines
   * (delivered as one stdout chunk), writes diagnostics to stderr, and exits
   * with code 0. Status reports the job completed with the last counters, and
   * the result route answers the transcribed text.
   */
  method SuccessfulTranscription(parse: string -> Option<Value>, id: Id, path: string, name: string,
                                 total: nat, text: string, lines: seq<string>, diagnostics: string)
    returns (upload: UploadReply, status: StatusReply, result: ResultReply)
    requires |lines| == total + 2
    requires forall i :: 0 <= i < |lines| ==> IsLine(lines[i]) && lines[i] != ""
    requires forall i :: 0 <= i < |lines| ==> parse(lines[i]) == Some(Encode(SuccessEvents(total, text)[i]))
    ensures upload == Created(id) && upload.Code() == 200
    ensures status == StatusBody("completed", Num(total), Num(total), Str("Completed")) && status.Code() == 200
    ensures result == ResultText(Str(text)) && result.Code() == 200
  {
    var m := new JobManager(parse);
    upload := Upload(m, Some(UploadedFile(path, name)), id, true);
    Deliver(m, id, Printed(lines), diagnostics, Some(0));
    SuccessSlot(parse, id, path, name, total, text, lines, diagnostics);
    CompletedRoutes(m.jobs, m.results, m.supervisors, id, total, text);
    status := StatusRoute(m.jobs, id);
    result := ResultRoute(m.jobs, m.results, id);
  }

  /** The child's whole stdout, then its whole stderr, then its exit, each as one callback. */
  method Deliver(m: JobManager, id: Id, output: string, diagnostics: string, code: Option<int>)
    requires m.Valid() && id in m.supervisors
    modifies m
    ensures m.Valid() && id in m.jobs && id in m.supervisors
    ensures m.SlotOf(id) == CloseStep(StderrStep(StdoutStep(m.parse, old(m.SlotOf(id)), output), diagnostics), code)
    ensures m.jobs == old(m.jobs)[id := m.jobs[id]] && m.supervisors == old(m.supervisors)[id := m.supervisors[id]]
    ensures m.results == PutResult(old(m.results), id, m.SlotOf(id).result)
  {
    m.OnStdout(id, output);
    ghost var jobs1, results1, supervisors1 := m.jobs, m.results, m.supervisors;
    m.OnStderr(id, diagnostics);
    m.OnClose(id, code);
    UpdatedTwice(old(m.jobs), jobs1, m.jobs, id);
    UpdatedTwice(old(m.supervisors), supervisors1, m.supervisors, id);
    assert m.results == results1;
  }

  /** The worker's printed output, read as one stdout chunk, applies the success events. */
  lemma SuccessOutputRead(parse: string -> Option<Value>, s0: Slot, total: nat, text: string, lines: seq<string>)
    requires |lines| == total + 2
    requires forall i :: 0 <= i < |lines| ==> IsLine(lines[i]) && lines[i] != ""
    requires forall i :: 0 <= i < |lines| ==> parse(lines[i]) == Some(Encode(SuccessEvents(total, text)[i]))
    ensures StdoutStep(parse, s0, Printed(lines)) == ApplyEvents(s0, SuccessEvents(total, text))
  {
    WholeOutputOneChunk(parse, s0, lines);
    ApplyLinesIsApplyEvents(parse, s0, lines);
    DecodedEncoded(parse, lines, SuccessEvents(total, text));
  }

  /** The slot the successful run leaves: completed, last counters, the text stored. */
  lemma SuccessSlot(parse: string -> Option<Value>, id: Id, path: string, name: string, total: nat, text: string,
                    lines: seq<string>, diagnostics: string)
    requires |lines| == total + 2
    requires forall i :: 0 <= i < |lines| ==> IsLine(lines[i]) && lines[i] != ""
    requires forall i :: 0 <= i < |lines| ==> parse(lines[i]) == Some(Encode(SuccessEvents(total, text)[i]))
    ensures var s := CloseStep(StderrStep(StdoutStep(parse, Start(id, path, name), Printed(lines)), diagnostics), Some(0));
      s.job.status == Completed && s.job.message == Str("Completed") && s.result == Some(Str(text)) &&
      s.job.processedChunks == Num(total) && s.job.totalChunks == Num(total)
  {
    var s1 := StdoutStep(parse, Start(id, path, name), Printed(lines));
    SuccessOutputRead(parse, Start(id, path, name), total, text, lines);
    SuccessCompletes(id, path, name, total, text);
    StructuredMessagesKept("", "");
    assert StderrStep(s1, diagnostics).job == s1.job;
  }

  /** What status and result answer for a slot that completed with the given counters and text. */
  lemma CompletedRoutes(jobs: map<Id, Job>, results: map<Id, Value>, sups: map<Id, Supervisor>, id: Id,
                        total: nat, text: string)
    requires id in jobs && id in sups
    requires var s := SlotIn(jobs, results, sups, id);
      s.job.status == Completed && s.job.message == Str("Completed") && s.result == Some(Str(text)) &&
      s.job.processedChunks == Num(total) && s.job.totalChunks == Num(total)
    ensures StatusRoute(jobs, id) == StatusBody("completed", Num(total), Num(total), Str("Completed"))
    ensures ResultRoute(jobs, results, id) == ResultText(Str(text))
  {
    assert id in results && results[id] == Str(text);
    assert GetJobResult(results, id) == Str(text) by {
      if text == "" {
        assert !Truthy(results[id]);
      }
    }
  }

  /**
   * A run that crashes before printing a record: one diagnostic line on
   * stderr, then the exit. The job is failed with that line as its message
   * (followed by " |", from the empty piece after the line break), and the
   * result route keeps answering 202 with status "failed".
   */
  method CrashedTranscription(parse: string -> Option<Value>, id: Id, path: string, name: string,
                              line: string, code: Option<int>)
    returns (status: StatusReply, result: ResultReply)
    requires IsLine(line) && !AllSpace(line)
    ensures status == StatusBody("failed", Num(0), Num(0), Str(TrimStart(line) + " |"))
    ensures result == ResultPending("failed") && result.Code() == 202
  {
    var m := new JobManager(parse);
    var upload := Upload(m, Some(UploadedFile(path, name)), id, true);
    m.OnStderr(id, line + "\n");
    m.OnClose(id, code);
    CrashWithDiagnostic(id, path, name, line, code);
    status := StatusRoute(m.jobs, id);
    result := ResultRoute(m.jobs, m.results, id);
  }

  /**
   * An upload whose spawn throws: the client gets a 500, yet the job stays
   * registered, and status and result report it as queued.
   */
  method FailedSpawn(parse: string -> Option<Value>, id: Id, path: string, name: string)
    returns (upload: UploadReply, status: StatusReply, result: ResultReply)
    ensures upload == CreateFailed && upload.Code() == 500
    ensures status == StatusBody("queued", Num(0), Num(0), Str("Queued"))
    ensures result == ResultPending("queued") && result.Code() == 202
  {
    var m := new JobManager(parse);
    upload := Upload(m, Some(UploadedFile(path, name)), id, false);
    UnspawnedJobQueued(m.jobs, m.results, m.supervisors, id);
    status := StatusRoute(m.jobs, id);
    result := ResultRoute(m.jobs, m.results, id);
  }

  /**
   * Two uploads, then the first job's whole run: the second job, registered
   * after the first, still reads as just started.
   */
  method IndependentJobs(parse: string -> Option<Value>, a: Id, b: Id, pathA: string, nameA: string,
                         pathB: string, nameB: string, output: string, diagnostics: string, code: Option<int>)
    returns (statusB: StatusReply)
    requires a != b
    ensures statusB == StatusBody("processing", Num(0), Num(0), Str("Starting"))
  {
    var m := new JobManager(parse);
    var uploadA := Upload(m, Some(UploadedFile(pathA, nameA)), a, true);
    var uploadB := Upload(m, Some(UploadedFile(pathB, nameB)), b, true);
    Deliver(m, a, output, diagnostics, code);
    statusB := StatusRoute(m.jobs, b);
  }

  /** An upload without a file is answered 400 and registers nothing. */
  method MissingFile(parse: string -> Option<Value>, id: Id)
    returns (upload: UploadReply, status: StatusReply)
    ensures upload == NoFile && upload.Code() == 400
    ensures status == StatusNotFound && status.Code() == 404
  {
    var m := new JobManager(parse);
    upload := Upload(m, None, id, true);
    status := StatusRoute(m.jobs, id);
  }
}
