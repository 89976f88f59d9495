/**
 * The life of one job as the job manager drives it: the job record, its
 * entry in the result map, and the state its child-process callbacks close
 * over. Each callback of the child process (stdout data, stderr data, spawn
 * error, close) is a function from the old state to the new one; the class
 * in module Manager is proved to follow these functions.
 */
module JobSpec {
  import opened Options
  import opened Text
  import opened JsValues
  import opened Protocol

  /** A job identifier (a nanoid string in the application). */
  type Id = string

  datatype Status = Queued | Processing | Completed | Failed
  {
    /** The string the record and the HTTP responses carry. */
    function Name(): string
    {
      match this
      case Queued => "queued"
      case Processing => "processing"
      case Completed => "completed"
      case Failed => "failed"
    }

    predicate IsTerminal() { this == Completed || this == Failed }
  }

  /** Each status has its own name, so a client can tell them apart. */
  lemma StatusNamesDistinct(a: Status, b: Status)
    ensures a.Name() == b.Name() <==> a == b
  {
  }

  /**
   * The job record. The counters and the message hold whatever the event
   * payloads carried, as the JavaScript assignments copy them unchecked.
   */
  datatype Job = Job(
    id: Id,
    status: Status,
    processedChunks: Value,
    totalChunks: Value,
    message: Value,
    originalName: string)

  /**
   * What the callbacks of one spawned child close over: the input path and the
   * stderr buffer; and whether the done handler asked for the input file to be
   * deleted (the deletion itself is a file-system effect).
   */
  datatype Supervisor = Supervisor(inputPath: string, stderrBuf: string, unlinkRequested: bool)

  /** One job's share of the manager state: its record, its result entry, its closure. */
  datatype Slot = Slot(job: Job, result: Option<Value>, sup: Supervisor)

  /** The record createJob registers before spawning. */
  function NewJob(id: Id, originalName: string): (j: Job)
    ensures j.id == id && j.originalName == originalName
    ensures j.status == Queued && j.message == Str("Queued")
    ensures j.processedChunks == Num(0) && j.totalChunks == Num(0)
  {
    Job(id, Queued, Num(0), Num(0), Str("Queued"), originalName)
  }

  /** The slot createJob leaves once spawn has returned: processing, "Starting", nothing buffered. */
  function Start(id: Id, inputPath: string, originalName: string): (s: Slot)
    ensures s.job == NewJob(id, originalName).(status := Processing, message := Str("Starting"))
    ensures s.result == None && s.sup == Supervisor(inputPath, "", false)
  {
    Slot(NewJob(id, originalName).(status := Processing, message := Str("Starting")), None,
         Supervisor(inputPath, "", false))
  }

  // ---------------------------------------------------------------------------
  // stdout: decoded events
  // ---------------------------------------------------------------------------

  /** The message a progress record sets: `Processing ${processed}/${total}`. */
  function ProgressText(p: Value, t: Value): string
  {
    ProgressPrefix + ToStr(p) + "/" + ToStr(t)
  }

  /** The effect of one decoded stdout record on the job's slot. */
  function ApplyEvent(s: Slot, e: Event): (r: Slot)
    // what no event changes
    ensures r.job.id == s.job.id && r.job.originalName == s.job.originalName
    ensures r.sup.inputPath == s.sup.inputPath && r.sup.stderrBuf == s.sup.stderrBuf
    // the result map is written only by done, status only by done and error
    ensures r.result != s.result || r.sup.unlinkRequested != s.sup.unlinkRequested ==> e.Done?
    ensures r.job.status != s.job.status ==> e.Done? || e.Error?
    ensures e.Progress? ==>
      r.job.processedChunks == e.processed && r.job.totalChunks == e.total &&
      r.job.message == Str(ProgressText(e.processed, e.total))
    ensures e.Init? ==>
      r.job.processedChunks == s.job.processedChunks && r.job.totalChunks == Or(e.total, Num(0)) &&
      r.job.message == Str("Initialized")
    ensures e.Done? ==>
      r.job.status == Completed && r.job.message == Str("Completed") &&
      r.result == Some(Or(e.text, Str(""))) &&
      r.sup.unlinkRequested == (s.sup.unlinkRequested || s.sup.inputPath != "")
    ensures e.Error? ==>
      r.job.status == Failed && r.job.message == Or(e.message, Str("Unknown error")) && Truthy(r.job.message)
    ensures e.Done? || e.Error? ==>
      r.job.processedChunks == s.job.processedChunks && r.job.totalChunks == s.job.totalChunks
  {
    var j := s.job;
    match e
    case Progress(p, t) =>
      s.(job := j.(processedChunks := p, totalChunks := t, message := Str(ProgressText(p, t))))
    case Error(m) =>
      s.(job := j.(status := Failed, message := Or(m, Str("Unknown error"))))
    case Done(text) =>
      Slot(j.(status := Completed, message := Str("Completed")), Some(Or(text, Str(""))),
           s.sup.(unlinkRequested := s.sup.unlinkRequested || s.sup.inputPath != ""))
    case Init(t) =>
      s.(job := j.(totalChunks := Or(t, Num(0)), message := Str("Initialized")))
  }

  /** One stdout line: decoded and applied, or ignored when it does not decode. */
  function ApplyLine(parse: string -> Option<Value>, s: Slot, line: string): Slot
  {
    match DecodeLine(parse, line)
    case None => s
    case Some(e) => ApplyEvent(s, e)
  }

  /** The lines applied one after another, first line first. */
  function ApplyLines(parse: string -> Option<Value>, s: Slot, lines: seq<string>): Slot
  {
    if |lines| == 0 then s
    else ApplyLine(parse, ApplyLines(parse, s, lines[..|lines| - 1]), lines[|lines| - 1])
  }

  /** Events applied one after another. */
  function ApplyEvents(s: Slot, es: seq<Event>): Slot
  {
    if |es| == 0 then s else ApplyEvent(ApplyEvents(s, es[..|es| - 1]), es[|es| - 1])
  }

  /** The events the lines decode to, in order; undecodable lines are skipped. */
  function Decoded(parse: string -> Option<Value>, lines: seq<string>): seq<Event>
  {
    if |lines| == 0 then []
    else
      var init := Decoded(parse, lines[..|lines| - 1]);
      match DecodeLine(parse, lines[|lines| - 1])
      case None => init
      case Some(e) => init + [e]
  }

  /** The lines of a stdout chunk: split on /\r?\n/, empty lines dropped. */
  function StdoutLines(chunk: string): seq<string>
  {
    NonEmpty(SplitLines(chunk))
  }

  function StdoutStep(parse: string -> Option<Value>, s: Slot, chunk: string): Slot
  {
    ApplyLines(parse, s, StdoutLines(chunk))
  }

  /**
   * A chunk of complete lines joined by "\n" applies its non-empty lines in
   * order: a blank line between two records is skipped.
   */
  lemma BlankLinesSkipped(parse: string -> Option<Value>, s: Slot, lines: seq<string>)
    requires |lines| >= 1
    requires forall i :: 0 <= i < |lines| ==> IsLine(lines[i])
    ensures StdoutStep(parse, s, JoinWith(lines, "\n")) == ApplyLines(parse, s, NonEmpty(lines))
  {
    SplitJoinLines(lines);
  }

  /** The chunk "a\n\nb" applies exactly the two lines a and b. */
  lemma BlankLineBetweenRecords(parse: string -> Option<Value>, s: Slot, a: string, b: string)
    requires IsLine(a) && IsLine(b) && a != "" && b != ""
    ensures StdoutStep(parse, s, a + "\n" + "\n" + b) == ApplyLine(parse, ApplyLine(parse, s, a), b)
  {
    JoinBlankBetween(a, b);
    NonEmptyDropsBlank(a, b);
    BlankLinesSkipped(parse, s, [a, "", b]);
    assert [a, b][..1] == [a] && [a][..0] == [];
    assert ApplyLines(parse, s, [a]) == ApplyLine(parse, s, a);
    assert ApplyLines(parse, s, [a, b]) == ApplyLine(parse, ApplyLines(parse, s, [a]), b);
  }

  /** Applying lines is applying the events they decode to: unreadable lines do nothing. */
  lemma {:induction false} ApplyLinesIsApplyEvents(parse: string -> Option<Value>, s: Slot, lines: seq<string>)
    ensures ApplyLines(parse, s, lines) == ApplyEvents(s, Decoded(parse, lines))
  {
    if |lines| > 0 {
      var init := lines[..|lines| - 1];
      ApplyLinesIsApplyEvents(parse, s, init);
      match DecodeLine(parse, lines[|lines| - 1])
      case None =>
      case Some(e) =>
        assert (Decoded(parse, init) + [e])[..|Decoded(parse, init)|] == Decoded(parse, init);
    }
  }

  /** One more event at the end is one more ApplyEvent. */
  lemma ApplyEventsSnoc(s: Slot, es: seq<Event>, e: Event)
    ensures ApplyEvents(s, es + [e]) == ApplyEvent(ApplyEvents(s, es), e)
  {
    assert (es + [e])[..|es|] == es;
  }

  /** Applying a concatenation of events is applying them in two runs. */
  lemma {:induction false} ApplyEventsAppend(s: Slot, a: seq<Event>, b: seq<Event>)
    ensures ApplyEvents(s, a + b) == ApplyEvents(ApplyEvents(s, a), b)
  {
    if |b| > 0 {
      assert (a + b)[..|a + b| - 1] == a + b[..|b| - 1];
      ApplyEventsAppend(s, a, b[..|b| - 1]);
    } else {
      assert a + b == a;
    }
  }

  /** A line that does not decode can be taken out of any stream without effect. */
  lemma {:induction false} UndecodableLineIgnored(parse: string -> Option<Value>, s: Slot,
                                                  a: seq<string>, line: string, b: seq<string>)
    requires DecodeLine(parse, line) == None
    ensures ApplyLines(parse, s, a + [line] + b) == ApplyLines(parse, s, a + b)
  {
    if |b| == 0 {
      assert (a + [line] + b)[..|a|] == a;
      assert a + b == a;
    } else {
      assert (a + [line] + b)[..|a + [line] + b| - 1] == a + [line] + b[..|b| - 1];
      assert (a + b)[..|a + b| - 1] == a + b[..|b| - 1];
      UndecodableLineIgnored(parse, s, a, line, b[..|b| - 1]);
    }
  }

  /** The result entry changes only if one of the lines decodes to a done record. */
  lemma {:induction false} ResultOnlyFromDone(parse: string -> Option<Value>, s: Slot, lines: seq<string>)
    requires forall i :: 0 <= i < |lines| ==> !(DecodeLine(parse, lines[i]).Some? && DecodeLine(parse, lines[i]).value.Done?)
    ensures ApplyLines(parse, s, lines).result == s.result
    ensures ApplyLines(parse, s, lines).sup == s.sup
  {
    if |lines| > 0 {
      var init := lines[..|lines| - 1];
      assert forall i :: 0 <= i < |init| ==> init[i] == lines[i];
      ResultOnlyFromDone(parse, s, init);
    }
  }

  /** The counters show the last progress record when only done or error records follow it. */
  lemma {:induction false} CountersFollowLastProgress(s: Slot, es: seq<Event>, k: nat)
    requires k < |es| && es[k].Progress?
    requires forall i :: k < i < |es| ==> es[i].Done? || es[i].Error?
    ensures ApplyEvents(s, es).job.processedChunks == es[k].processed
    ensures ApplyEvents(s, es).job.totalChunks == es[k].total
  {
    if k < |es| - 1 {
      var init := es[..|es| - 1];
      assert forall i :: k < i < |init| ==> init[i] == es[i];
      CountersFollowLastProgress(s, init, k);
    }
  }

  // ---------------------------------------------------------------------------
  // stderr
  // ---------------------------------------------------------------------------

  /**
   * Whether a stderr chunk may replace the message: it is empty, still
   * "Starting", or exactly of the form `Processing <digits>/<digits>`.
   */
  predicate Overwritable(m: Value)
  {
    !Truthy(m) || m == Str("Starting") || MatchesProgress(ToStr(m))
  }

  /** A stderr chunk: appended whole to the buffer, and its trimmed text becomes the message if that is overwritable. */
  function StderrStep(s: Slot, chunk: string): (r: Slot)
    ensures r.sup.stderrBuf == s.sup.stderrBuf + chunk
    ensures r.sup.inputPath == s.sup.inputPath && r.sup.unlinkRequested == s.sup.unlinkRequested
    ensures r.job.id == s.job.id && r.job.originalName == s.job.originalName
    ensures r.job.message == if Overwritable(s.job.message) then Str(Trim(chunk)) else s.job.message
    ensures r.job.status == s.job.status && r.result == s.result
    ensures r.job.processedChunks == s.job.processedChunks && r.job.totalChunks == s.job.totalChunks
  {
    var sup := s.sup.(stderrBuf := s.sup.stderrBuf + chunk);
    if Overwritable(s.job.message) then Slot(s.job.(message := Str(Trim(chunk))), s.result, sup)
    else s.(sup := sup)
  }

  /** The messages the manager itself writes, other than "Starting" and progress, are never overwritten. */
  lemma StructuredMessagesKept(errMessage: string, errText: string)
    ensures !Overwritable(Str("Initialized"))
    ensures !Overwritable(Str("Completed"))
    ensures !Overwritable(Str("Unknown error"))
    ensures !Overwritable(Str(SpawnErrorText(errMessage, errText)))
    ensures Overwritable(Str("Starting"))
  {
    NotProgressUnlessP("Initialized");
    NotProgressUnlessP("Completed");
    NotProgressUnlessP("Unknown error");
    NotProgressUnlessP(SpawnErrorText(errMessage, errText));
  }

  lemma NotProgressUnlessP(s: string)
    requires |s| > 0 && s[0] != 'P'
    ensures !MatchesProgress(s)
  {
    assert |s| > |ProgressPrefix| ==> s[..|ProgressPrefix|][0] == s[0];
  }

  /**
   * A progress message may be overwritten by stderr exactly when both payload
   * values are written with digits only.
   */
  lemma ProgressMessageOverwritable(p: Value, t: Value)
    ensures Overwritable(Str(ProgressText(p, t))) <==>
      (|ToStr(p)| > 0 && AllDigits(ToStr(p)) && |ToStr(t)| > 0 && AllDigits(ToStr(t)))
  {
    var a, b := ToStr(p), ToStr(t);
    var s := ProgressText(p, t);
    assert s == ProgressPrefix + a + "/" + b;
    if |a| > 0 && AllDigits(a) && |b| > 0 && AllDigits(b) {
      MatchesProgressOfDigits(a, b);
    }
    if MatchesProgress(s) {
      MatchesProgressOnly(s);
      var x: string, y: string :| |x| > 0 && AllDigits(x) && |y| > 0 && AllDigits(y) && s == ProgressPrefix + x + "/" + y;
      SameSplitAtSlash(a, b, x, y);
    }
  }

  lemma SameSplitAtSlash(a: string, b: string, x: string, y: string)
    requires AllDigits(x) && AllDigits(y)
    requires ProgressPrefix + a + "/" + b == ProgressPrefix + x + "/" + y
    ensures a == x && b == y
  {
    var u, v := a + "/" + b, x + "/" + y;
    assert u == (ProgressPrefix + a + "/" + b)[|ProgressPrefix|..];
    assert v == (ProgressPrefix + x + "/" + y)[|ProgressPrefix|..];
    assert u == v;
    assert u[|a|] == '/';
    assert forall i :: 0 <= i < |x| ==> v[i] == x[i];
    assert forall i :: |x| < i < |v| ==> v[i] == y[i - |x| - 1];
    assert |a| == |x|;
    assert u[..|a|] == a && v[..|x|] == x;
    assert u[|a| + 1..] == b && v[|x| + 1..] == y;
  }

  /** For integer counters: overwritable exactly when neither is negative. */
  lemma NumericProgressOverwritable(p: int, t: int)
    ensures Overwritable(Str(ProgressText(Num(p), Num(t)))) <==> p >= 0 && t >= 0
  {
    ProgressMessageOverwritable(Num(p), Num(t));
    IntToDecimalDigits(p);
    IntToDecimalDigits(t);
  }

  // ---------------------------------------------------------------------------
  // spawn error and close
  // ---------------------------------------------------------------------------

  /** `Spawn error: ${err?.message || String(err)}` */
  function SpawnErrorText(errMessage: string, errText: string): (r: string)
    ensures |r| >= 13 && r[..13] == "Spawn error: "
  {
    "Spawn error: " + (if errMessage != "" then errMessage else errText)
  }

  /** The spawn-error handler fails the job whatever its status was. */
  function SpawnErrorStep(s: Slot, errMessage: string, errText: string): (r: Slot)
    ensures r.job.status == Failed && r.job.message == Str(SpawnErrorText(errMessage, errText))
    ensures r.result == s.result && r.sup == s.sup
    ensures r.job.processedChunks == s.job.processedChunks && r.job.totalChunks == s.job.totalChunks
  {
    s.(job := s.job.(status := Failed, message := Str(SpawnErrorText(errMessage, errText))))
  }

  /** The last at most four pieces of the stderr buffer, joined with " | ". */
  function StderrTail(buf: string): string
  {
    JoinWith(LastN(SplitLines(buf), 4), " | ")
  }

  /** `Exited with code ${code}`; the close code is null when a signal ended the child. */
  function ExitText(code: Option<int>): (r: string)
    ensures r != ""
  {
    "Exited with code " + (if code.Some? then IntToDecimal(code.value) else "null")
  }

  /** The message close gives a job it fails: the trimmed tail, else the old message, else the exit code. */
  function CloseMessage(buf: string, message: Value, code: Option<int>): (r: Value)
    ensures Truthy(r)
  {
    var tail := Trim(StderrTail(buf));
    if tail != "" then Str(tail) else Or(message, Str(ExitText(code)))
  }

  /** The close handler: fails a job that is still queued or processing, leaves any other alone. */
  function CloseStep(s: Slot, code: Option<int>): (r: Slot)
    ensures s.job.status.IsTerminal() ==> r == s
    ensures !s.job.status.IsTerminal() ==>
      r.job.status == Failed && Truthy(r.job.message) &&
      r == s.(job := s.job.(status := Failed, message := r.job.message))
  {
    if s.job.status == Processing || s.job.status == Queued then
      s.(job := s.job.(status := Failed, message := CloseMessage(s.sup.stderrBuf, s.job.message, code)))
    else s
  }

  /** A child that wrote nothing to stderr: the message is kept, or replaced by the exit code if empty. */
  lemma CloseWithoutStderr(s: Slot, code: Option<int>)
    requires !s.job.status.IsTerminal() && s.sup.stderrBuf == ""
    ensures CloseStep(s, code).job.message == Or(s.job.message, Str(ExitText(code)))
  {
    assert SplitLines("") == [""];
    assert StderrTail("") == "" by {
      assert LastN([""], 4) == [""];
    }
    assert Trim("") == "";
    assert CloseMessage("", s.job.message, code) == Or(s.job.message, Str(ExitText(code)));
  }

  /** One diagnostic line without a line break becomes the message, trimmed. */
  lemma CloseWithStderrLine(s: Slot, line: string, code: Option<int>)
    requires !s.job.status.IsTerminal() && s.sup.stderrBuf == line
    requires IsLine(line) && !AllSpace(line)
    ensures CloseStep(s, code).job.message == Str(Trim(line))
  {
    SplitSingleLine(line);
    TrimEmptyIff(line);
  }

  /**
   * One diagnostic line ended by a line break: the empty piece after the break
   * is one of the four, so the message is the line followed by " |".
   */
  lemma CloseWithTerminatedStderrLine(s: Slot, line: string, code: Option<int>)
    requires !s.job.status.IsTerminal() && s.sup.stderrBuf == line + "\n"
    requires IsLine(line) && !AllSpace(line)
    ensures CloseStep(s, code).job.message == Str(TrimStart(line) + " |")
  {
    SplitAfterLine(line, "");
    assert line + "\n" == line + "\n" + "";
    assert SplitLines("") == [""];
    assert SplitLines(line + "\n") == [line, ""];
    assert JoinWith([line, ""], " | ") == line + " | " + "";
    assert StderrTail(line + "\n") == line + " | ";
    assert line + " | " == line + " |" + " ";
    assert TrimEnd(line + " | ") == line + " |" by {
      assert (line + " | ")[..|line + " | "| - 1] == line + " |";
      TrimEndStops(line, " |");
    }
    TrimStartConcat(line, " |");
  }

  // ---------------------------------------------------------------------------
  // Callbacks and runs
  // ---------------------------------------------------------------------------

  /** One callback of the child process, as Node's event loop delivers it. */
  datatype Callback =
    | Stdout(chunk: string)
    | Stderr(chunk: string)
    | SpawnError(errMessage: string, errText: string)
    | Close(code: Option<int>)

  function Step(parse: string -> Option<Value>, s: Slot, cb: Callback): Slot
  {
    match cb
    case Stdout(chunk) => StdoutStep(parse, s, chunk)
    case Stderr(chunk) => StderrStep(s, chunk)
    case SpawnError(m, t) => SpawnErrorStep(s, m, t)
    case Close(code) => CloseStep(s, code)
  }

  /** The callbacks delivered one at a time, in order. */
  function Run(parse: string -> Option<Value>, s: Slot, cbs: seq<Callback>): Slot
  {
    if |cbs| == 0 then s else Step(parse, Run(parse, s, cbs[..|cbs| - 1]), cbs[|cbs| - 1])
  }

  /**
   * What holds of every slot the manager keeps for a spawned job: it is never
   * queued again, a completed job has a result entry, a stored result is a
   * truthy value or the empty string, and a deletion is only requested once a
   * result is stored.
   */
  predicate Inv(s: Slot)
  {
    s.job.status != Queued &&
    (s.job.status == Completed ==> s.result.Some?) &&
    (s.result.Some? ==> Truthy(s.result.value) || s.result.value == Str("")) &&
    (s.sup.unlinkRequested ==> s.result.Some?)
  }

  lemma StartInv(id: Id, inputPath: string, originalName: string)
    ensures Inv(Start(id, inputPath, originalName))
  {
  }

  lemma StderrInv(s: Slot, chunk: string)
    requires Inv(s)
    ensures Inv(StderrStep(s, chunk))
  {
  }

  lemma {:induction false} ApplyLinesInv(parse: string -> Option<Value>, s: Slot, lines: seq<string>)
    requires Inv(s)
    ensures Inv(ApplyLines(parse, s, lines))
    ensures s.result.Some? ==> ApplyLines(parse, s, lines).result.Some?
  {
    if |lines| > 0 {
      ApplyLinesInv(parse, s, lines[..|lines| - 1]);
    }
  }

  /** Every callback keeps the invariant, and a stored result is never removed. */
  lemma StepInv(parse: string -> Option<Value>, s: Slot, cb: Callback)
    requires Inv(s)
    ensures Inv(Step(parse, s, cb))
    ensures s.result.Some? ==> Step(parse, s, cb).result.Some?
  {
    if cb.Stdout? {
      ApplyLinesInv(parse, s, StdoutLines(cb.chunk));
    }
  }

  /** Whatever the callbacks and their order, the invariant holds after them. */
  lemma {:induction false} RunInv(parse: string -> Option<Value>, s: Slot, cbs: seq<Callback>)
    requires Inv(s)
    ensures Inv(Run(parse, s, cbs))
    ensures s.result.Some? ==> Run(parse, s, cbs).result.Some?
  {
    if |cbs| > 0 {
      RunInv(parse, s, cbs[..|cbs| - 1]);
      StepInv(parse, Run(parse, s, cbs[..|cbs| - 1]), cbs[|cbs| - 1]);
    }
  }

  /** Once close has failed or left a job, the job has a terminal status. */
  lemma CloseTerminates(s: Slot, code: Option<int>)
    ensures CloseStep(s, code).job.status.IsTerminal()
  {
  }

  // ---------------------------------------------------------------------------
  // Terminal states are not final
  // ---------------------------------------------------------------------------

  /** An error record after a done record turns the completed job into a failed one; the text stays stored. */
  lemma ErrorAfterDoneFails(s: Slot, text: Value, message: Value)
    ensures ApplyEvents(s, [Done(text), Error(message)]).job.status == Failed
    ensures ApplyEvents(s, [Done(text), Error(message)]).result == Some(Or(text, Str("")))
  {
    assert [Done(text), Error(message)][..1] == [Done(text)];
    assert [Done(text)][..0] == [];
  }

  /** A done record after an error record completes the failed job. */
  lemma DoneAfterErrorCompletes(s: Slot, text: Value, message: Value)
    ensures ApplyEvents(s, [Error(message), Done(text)]).job.status == Completed
  {
    assert [Error(message), Done(text)][..1] == [Error(message)];
    assert [Error(message)][..0] == [];
  }

  /** A spawn error fails even a completed job. */
  lemma SpawnErrorAfterCompletion(s: Slot, errMessage: string, errText: string)
    requires s.job.status == Completed
    ensures SpawnErrorStep(s, errMessage, errText).job.status == Failed
  {
  }
}
