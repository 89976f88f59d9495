/**
 * The record streams the transcription worker (transcriber/transcribe.py)
 * prints, and what the job manager makes of them: a run over `total` chunks
 * prints init, one progress record per chunk and done; a run that raises
 * prints the records it got to, then error, and exits with code 1.
 */
module Worker {
  import opened Options
  import opened Text
  import opened JsValues
  import opened Protocol
  import opened JobSpec

  /** progress{i, total} for i = 1 .. k, printed after each transcribed chunk. */
  function ProgressEvents(k: nat, total: nat): (es: seq<Event>)
    ensures |es| == k
    ensures forall i :: 0 <= i < k ==> es[i] == Progress(Num(i + 1), Num(total))
  {
    if k == 0 then [] else ProgressEvents(k - 1, total) + [Progress(Num(k), Num(total))]
  }

  /** The records of a run that transcribes every chunk and prints the joined text. */
  function SuccessEvents(total: nat, text: string): (es: seq<Event>)
    ensures |es| == total + 2
    ensures es[0] == Init(Num(total)) && es[total + 1] == Done(Str(text))
    ensures forall i :: 1 <= i <= total ==> es[i] == Progress(Num(i), Num(total))
  {
    [Init(Num(total))] + ProgressEvents(total, total) + [Done(Str(text))]
  }

  /**
   * The records of a run that raises: nothing before the error if splitting the
   * audio failed, otherwise init and the progress of the k chunks done so far.
   */
  function FailureEvents(total: nat, initPrinted: bool, k: nat, message: string): (es: seq<Event>)
    requires k <= total
    ensures |es| == (if initPrinted then k + 2 else 1) && es[|es| - 1] == Error(Str(message))
    ensures initPrinted ==> es[0] == Init(Num(total))
    ensures initPrinted ==> forall i :: 1 <= i <= k ==> es[i] == Progress(Num(i), Num(total))
  {
    (if initPrinted then [Init(Num(total))] + ProgressEvents(k, total) else []) + [Error(Str(message))]
  }

  /** One stdout data event per printed line (each print is flushed). */
  function LineChunks(lines: seq<string>): (cbs: seq<Callback>)
    ensures |cbs| == |lines|
    ensures forall i :: 0 <= i < |lines| ==> cbs[i] == Stdout(lines[i] + "\n")
  {
    if |lines| == 0 then [] else LineChunks(lines[..|lines| - 1]) + [Stdout(lines[|lines| - 1] + "\n")]
  }

  /** A progress record sets both counters and leaves the status, result and closure alone. */
  lemma ProgressApplied(s: Slot, p: nat, total: nat)
    ensures var r := ApplyEvent(s, Progress(Num(p), Num(total)));
      r.job.status == s.job.status && r.result == s.result && r.sup == s.sup &&
      r.job.processedChunks == Num(p) && r.job.totalChunks == Num(total)
  {
  }

  /** The counters and status after init and the first i progress records. */
  lemma {:induction false} PollingCounters(id: Id, inputPath: string, name: string, total: nat, i: nat)
    requires i <= total
    ensures var s := ApplyEvents(Start(id, inputPath, name), [Init(Num(total))] + ProgressEvents(i, total));
      s.job.status == Processing && s.result == None && s.sup == Start(id, inputPath, name).sup &&
      s.job.processedChunks == Num(i) && s.job.totalChunks == Num(total)
  {
    var s0 := Start(id, inputPath, name);
    if i == 0 {
      assert [Init(Num(total))] + ProgressEvents(0, total) == [] + [Init(Num(total))];
      ApplyEventsSnoc(s0, [], Init(Num(total)));
    } else {
      PollingCounters(id, inputPath, name, total, i - 1);
      var prev := [Init(Num(total))] + ProgressEvents(i - 1, total);
      assert [Init(Num(total))] + ProgressEvents(i, total) == prev + [Progress(Num(i), Num(total))];
      ApplyEventsSnoc(s0, prev, Progress(Num(i), Num(total)));
      ProgressApplied(ApplyEvents(s0, prev), i, total);
    }
  }

  /** The state status polling sees after init and the first i progress records. */
  lemma PollingDuringRun(id: Id, inputPath: string, name: string, total: nat, i: nat)
    requires i <= total
    ensures var s := ApplyEvents(Start(id, inputPath, name), [Init(Num(total))] + ProgressEvents(i, total));
      s.job.status == Processing && s.result == None && s.sup == Start(id, inputPath, name).sup &&
      s.job.processedChunks == Num(i) && s.job.totalChunks == Num(total) &&
      s.job.message == (if i == 0 then Str("Initialized") else Str(ProgressText(Num(i), Num(total))))
  {
    PollingCounters(id, inputPath, name, total, i);
    var s0 := Start(id, inputPath, name);
    if i == 0 {
      assert [Init(Num(total))] + ProgressEvents(0, total) == [] + [Init(Num(total))];
      ApplyEventsSnoc(s0, [], Init(Num(total)));
    } else {
      var prev := [Init(Num(total))] + ProgressEvents(i - 1, total);
      assert [Init(Num(total))] + ProgressEvents(i, total) == prev + [Progress(Num(i), Num(total))];
      ApplyEventsSnoc(s0, prev, Progress(Num(i), Num(total)));
      ProgressApplied(ApplyEvents(s0, prev), i, total);
    }
  }

  /** A run that succeeds leaves the job completed with its text stored and the input marked for deletion. */
  lemma SuccessCompletes(id: Id, inputPath: string, name: string, total: nat, text: string)
    ensures var s := ApplyEvents(Start(id, inputPath, name), SuccessEvents(total, text));
      s.job.status == Completed && s.job.message == Str("Completed") &&
      s.result == Some(Str(text)) &&
      s.job.processedChunks == Num(total) && s.job.totalChunks == Num(total) &&
      s.sup.unlinkRequested == (inputPath != "")
  {
    var es := SuccessEvents(total, text);
    PollingDuringRun(id, inputPath, name, total, total);
    assert es[..|es| - 1] == [Init(Num(total))] + ProgressEvents(total, total);
    assert Or(Str(text), Str("")) == Str(text);
  }

  /** A run that raises leaves the job failed with the exception text, or "Unknown error" when it is empty. */
  lemma FailureFails(id: Id, inputPath: string, name: string, total: nat, initPrinted: bool, k: nat, message: string)
    requires k <= total
    ensures var s := ApplyEvents(Start(id, inputPath, name), FailureEvents(total, initPrinted, k, message));
      s.job.status == Failed && s.result == None && !s.sup.unlinkRequested &&
      s.job.message == (if message != "" then Str(message) else Str("Unknown error"))
  {
    var es := FailureEvents(total, initPrinted, k, message);
    var s0 := Start(id, inputPath, name);
    if initPrinted {
      PollingDuringRun(id, inputPath, name, total, k);
      assert es[..|es| - 1] == [Init(Num(total))] + ProgressEvents(k, total);
    } else {
      assert es == [Error(Str(message))];
      assert es[..0] == [];
    }
    assert Or(Str(message), Str("Unknown error")) == if message != "" then Str(message) else Str("Unknown error");
  }

  /** The events decoded from lines that each parse to an encoded event are those events. */
  lemma {:induction false} DecodedEncoded(parse: string -> Option<Value>, lines: seq<string>, es: seq<Event>)
    requires |lines| == |es|
    requires forall i :: 0 <= i < |lines| ==> parse(lines[i]) == Some(Encode(es[i]))
    ensures Decoded(parse, lines) == es
  {
    if |lines| > 0 {
      DecodedEncoded(parse, lines[..|lines| - 1], es[..|es| - 1]);
      DecodeEncode(es[|es| - 1]);
    }
  }

  /** Delivering each line as its own stdout chunk applies the lines in order. */
  lemma {:induction false} LineChunksApplyLines(parse: string -> Option<Value>, s: Slot, lines: seq<string>)
    requires forall i :: 0 <= i < |lines| ==> IsLine(lines[i]) && lines[i] != ""
    ensures Run(parse, s, LineChunks(lines)) == ApplyLines(parse, s, lines)
  {
    if |lines| > 0 {
      var init, last := lines[..|lines| - 1], lines[|lines| - 1];
      var cbs := LineChunks(lines);
      assert cbs[..|cbs| - 1] == LineChunks(init);
      LineChunksApplyLines(parse, s, init);
      var mid := Run(parse, s, LineChunks(init));
      assert Run(parse, s, cbs) == StdoutStep(parse, mid, last + "\n");
      SplitAfterLine(last, "");
      assert last + "\n" == last + "\n" + "";
      assert SplitLines("") == [""];
      NonEmptyDropsLastEmpty([last]);
      NonEmptyKeepsLines([last]);
      assert StdoutLines(last + "\n") == [last];
      assert [last][..0] == [];
      assert ApplyLines(parse, mid, [last]) == ApplyLine(parse, mid, last);
    }
  }

  /** Everything the worker prints: each line followed by "\n". */
  function Printed(lines: seq<string>): (out: string)
    ensures |out| >= |lines|
  {
    if |lines| == 0 then "" else lines[0] + "\n" + Printed(lines[1..])
  }

  /** Splitting the printed output gives back the lines and the empty piece after the last break. */
  lemma {:induction false} SplitPrinted(lines: seq<string>)
    requires forall i :: 0 <= i < |lines| ==> IsLine(lines[i])
    ensures SplitLines(Printed(lines)) == lines + [""]
  {
    if |lines| > 0 {
      SplitPrinted(lines[1..]);
      SplitAfterLine(lines[0], Printed(lines[1..]));
      assert [lines[0]] + (lines[1..] + [""]) == lines + [""];
    }
  }

  /** The whole output delivered as one stdout chunk applies the lines in order, as one chunk per line does. */
  lemma WholeOutputOneChunk(parse: string -> Option<Value>, s: Slot, lines: seq<string>)
    requires forall i :: 0 <= i < |lines| ==> IsLine(lines[i]) && lines[i] != ""
    ensures StdoutStep(parse, s, Printed(lines)) == ApplyLines(parse, s, lines)
    ensures StdoutStep(parse, s, Printed(lines)) == Run(parse, s, LineChunks(lines))
  {
    SplitPrinted(lines);
    NonEmptyDropsLastEmpty(lines);
    NonEmptyKeepsLines(lines);
    LineChunksApplyLines(parse, s, lines);
  }

  /**
   * End to end: the worker's lines of a successful run, each in its own stdout
   * chunk, then exit code 0, leave the job completed with the text stored.
   */
  lemma WorkerSuccessEndToEnd(parse: string -> Option<Value>, id: Id, inputPath: string, name: string,
                              total: nat, text: string, lines: seq<string>)
    requires |lines| == total + 2
    requires forall i :: 0 <= i < |lines| ==> IsLine(lines[i]) && lines[i] != ""
    requires forall i :: 0 <= i < |lines| ==> parse(lines[i]) == Some(Encode(SuccessEvents(total, text)[i]))
    ensures var s := Run(parse, Start(id, inputPath, name), LineChunks(lines) + [Close(Some(0))]);
      s.job.status == Completed && s.job.message == Str("Completed") && s.result == Some(Str(text))
  {
    var s0 := Start(id, inputPath, name);
    var cbs := LineChunks(lines) + [Close(Some(0))];
    assert cbs[..|cbs| - 1] == LineChunks(lines);
    var s1 := Run(parse, s0, LineChunks(lines));
    assert Run(parse, s0, cbs) == CloseStep(s1, Some(0));
    LineChunksApplyLines(parse, s0, lines);
    ApplyLinesIsApplyEvents(parse, s0, lines);
    DecodedEncoded(parse, lines, SuccessEvents(total, text));
    assert s1 == ApplyEvents(s0, SuccessEvents(total, text));
    SuccessCompletes(id, inputPath, name, total, text);
  }

  /** After completion, stderr output and the close keep the job completed with its text. */
  lemma {:induction false} CompletionSurvivesDiagnostics(parse: string -> Option<Value>, s: Slot, cbs: seq<Callback>)
    requires s.job.status == Completed && s.job.message == Str("Completed")
    requires forall i :: 0 <= i < |cbs| ==> cbs[i].Stderr? || cbs[i].Close?
    ensures Run(parse, s, cbs).job.status == Completed
    ensures Run(parse, s, cbs).job.message == Str("Completed")
    ensures Run(parse, s, cbs).result == s.result
  {
    if |cbs| > 0 {
      CompletionSurvivesDiagnostics(parse, s, cbs[..|cbs| - 1]);
      StructuredMessagesKept("", "");
    }
  }

  /**
   * End to end, crash: the worker writes one diagnostic line to stderr and
   * exits without a record; the job fails with that line (and the " |" the
   * empty last piece adds) as its message, and no result.
   */
  lemma CrashWithDiagnostic(id: Id, inputPath: string, name: string, line: string, code: Option<int>)
    requires IsLine(line) && !AllSpace(line)
    ensures var s := CloseStep(StderrStep(Start(id, inputPath, name), line + "\n"), code);
      s.job.status == Failed && s.result == None && s.job.message == Str(TrimStart(line) + " |") &&
      s.job.processedChunks == Num(0) && s.job.totalChunks == Num(0)
  {
    CrashAfterStderrLine(Start(id, inputPath, name), line, code);
  }

  /** One stderr line on a running job with an empty buffer, then the exit: failed with that line. */
  lemma CrashAfterStderrLine(s: Slot, line: string, code: Option<int>)
    requires s.job.status == Processing && s.sup.stderrBuf == ""
    requires IsLine(line) && !AllSpace(line)
    ensures var r := CloseStep(StderrStep(s, line + "\n"), code);
      r.job.status == Failed && r.result == s.result && r.job.message == Str(TrimStart(line) + " |") &&
      r.job.processedChunks == s.job.processedChunks && r.job.totalChunks == s.job.totalChunks
  {
    CloseWithTerminatedStderrLine(StderrStep(s, line + "\n"), line, code);
  }

  /** End to end, reported failure: the error record decides the message and close changes nothing. */
  lemma WorkerFailureEndToEnd(id: Id, inputPath: string, name: string, total: nat, initPrinted: bool,
                              k: nat, message: string)
    requires k <= total
    ensures var s := ApplyEvents(Start(id, inputPath, name), FailureEvents(total, initPrinted, k, message));
      CloseStep(s, Some(1)) == s && s.job.status == Failed && s.result == None
  {
    FailureFails(id, inputPath, name, total, initPrinted, k, message);
  }
}
