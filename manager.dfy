/**
 * The job manager of backend/src/jobs/manager.js: two registries (job records
 * and result texts), a createJob that registers a record and spawns the
 * worker, and the callbacks of each spawned child, which update that job's
 * record in place. Node delivers callbacks one at a time, so any interleaving
 * of callbacks of any jobs is a sequence of calls to the methods below.
 */
module Manager {
  import opened Options
  import opened Text
  import opened JsValues
  import opened Protocol
  import opened JobSpec

  /** getJob: the record registered under id, or null. */
  function GetJob(jobs: map<Id, Job>, id: Id): (r: Option<Job>)
    ensures r.Some? <==> id in jobs
    ensures r.Some? ==> r.value == jobs[id]
  {
    if id in jobs then Some(jobs[id]) else None
  }

  /** getJobResult: the stored text, or '' when nothing (or a falsy value) is stored. */
  function GetJobResult(results: map<Id, Value>, id: Id): (r: Value)
    ensures Truthy(r) || r == Str("")
    ensures id in results && Truthy(results[id]) ==> r == results[id]
    ensures r != Str("") ==> id in results && r == results[id]
  {
    if id in results && Truthy(results[id]) then results[id] else Str("")
  }

  /** The result entry stored for id, if any. */
  function ResultOf(results: map<Id, Value>, id: Id): Option<Value>
  {
    if id in results then Some(results[id]) else None
  }

  /** The slot of a spawned job, read out of the three maps. */
  function SlotIn(jobs: map<Id, Job>, results: map<Id, Value>, sups: map<Id, Supervisor>, id: Id): Slot
    requires id in jobs && id in sups
  {
    Slot(jobs[id], ResultOf(results, id), sups[id])
  }

  /**
   * What holds of the job filed under id: the record carries that id; a
   * spawned job's slot satisfies Inv; a job whose spawn threw is still the
   * queued record and has no result.
   */
  ghost predicate Filed(jobs: map<Id, Job>, results: map<Id, Value>, sups: map<Id, Supervisor>, id: Id)
    requires id in jobs
  {
    jobs[id].id == id &&
    if id in sups then Inv(SlotIn(jobs, results, sups, id))
    else id !in results && jobs[id] == NewJob(id, jobs[id].originalName)
  }

  /** What the three maps satisfy between callbacks. */
  ghost predicate Registry(jobs: map<Id, Job>, results: map<Id, Value>, sups: map<Id, Supervisor>)
  {
    sups.Keys <= jobs.Keys && results.Keys <= sups.Keys &&
    forall id {:trigger Filed(jobs, results, sups, id)} :: id in jobs ==> Filed(jobs, results, sups, id)
  }

  /** The result map after a slot's result entry is written back (an entry is never removed). */
  function PutResult(results: map<Id, Value>, id: Id, r: Option<Value>): map<Id, Value>
  {
    if r.Some? then results[id := r.value] else results
  }

  /** Writing back one spawned job's slot keeps the registry valid, if the slot keeps Inv. */
  lemma RegistryPut(jobs: map<Id, Job>, results: map<Id, Value>, sups: map<Id, Supervisor>, id: Id, s: Slot)
    requires Registry(jobs, results, sups) && id in jobs
    requires s.job.id == id && Inv(s)
    requires id in results ==> s.result.Some?
    ensures Registry(jobs[id := s.job], PutResult(results, id, s.result), sups[id := s.sup])
    ensures SlotIn(jobs[id := s.job], PutResult(results, id, s.result), sups[id := s.sup], id) == s
  {
    var j, r, u := jobs[id := s.job], PutResult(results, id, s.result), sups[id := s.sup];
    forall k | k in j
      ensures Filed(j, r, u, k)
    {
      if k != id {
        assert Filed(jobs, results, sups, k);
        if k in sups {
          assert SlotIn(j, r, u, k) == SlotIn(jobs, results, sups, k);
        }
      }
    }
  }

  /** Registering a queued record under a fresh id keeps the registry valid. */
  lemma RegistryAdd(jobs: map<Id, Job>, results: map<Id, Value>, sups: map<Id, Supervisor>, id: Id, name: string)
    requires Registry(jobs, results, sups) && id !in jobs
    ensures Registry(jobs[id := NewJob(id, name)], results, sups)
  {
    var j := jobs[id := NewJob(id, name)];
    forall k | k in j
      ensures Filed(j, results, sups, k)
    {
      if k != id {
        assert Filed(jobs, results, sups, k);
        if k in sups {
          assert SlotIn(j, results, sups, k) == SlotIn(jobs, results, sups, k);
        }
      }
    }
  }

  /** One more line handled: the maps still differ from the start only at id, and the slot has applied it. */
  lemma LineHandled(parse: string -> Option<Value>,
                    jobs0: map<Id, Job>, results0: map<Id, Value>, sups0: map<Id, Supervisor>,
                    jobsA: map<Id, Job>, resultsA: map<Id, Value>, supsA: map<Id, Supervisor>,
                    jobsB: map<Id, Job>, resultsB: map<Id, Value>, supsB: map<Id, Supervisor>,
                    id: Id, s0: Slot, lines: seq<string>, i: nat)
    requires i < |lines| && id in jobsA && id in supsA && id in jobsB && id in supsB
    requires SlotIn(jobsA, resultsA, supsA, id) == ApplyLines(parse, s0, lines[..i])
    requires jobsA == jobs0[id := jobsA[id]] && supsA == sups0[id := supsA[id]]
    requires resultsA == PutResult(results0, id, SlotIn(jobsA, resultsA, supsA, id).result)
    requires SlotIn(jobsB, resultsB, supsB, id) == ApplyLine(parse, SlotIn(jobsA, resultsA, supsA, id), lines[i])
    requires jobsB == jobsA[id := jobsB[id]] && supsB == supsA[id := supsB[id]]
    requires resultsB == PutResult(resultsA, id, SlotIn(jobsB, resultsB, supsB, id).result)
    ensures SlotIn(jobsB, resultsB, supsB, id) == ApplyLines(parse, s0, lines[..i + 1])
    ensures jobsB == jobs0[id := jobsB[id]] && supsB == sups0[id := supsB[id]]
    ensures resultsB == PutResult(results0, id, SlotIn(jobsB, resultsB, supsB, id).result)
  {
    ApplyLinesSnoc(parse, s0, lines, i);
    UpdatedTwice(jobs0, jobsA, jobsB, id);
    UpdatedTwice(sups0, supsA, supsB, id);
    ResultsPutTwice(results0, resultsA, resultsB, id);
  }

  lemma ApplyLinesSnoc(parse: string -> Option<Value>, s0: Slot, lines: seq<string>, i: nat)
    requires i < |lines|
    ensures ApplyLines(parse, s0, lines[..i + 1]) == ApplyLine(parse, ApplyLines(parse, s0, lines[..i]), lines[i])
  {
    assert lines[..i + 1][..i] == lines[..i];
  }

  lemma UpdatedTwice<V>(m0: map<Id, V>, mA: map<Id, V>, mB: map<Id, V>, id: Id)
    requires id in mA && id in mB && mA == m0[id := mA[id]] && mB == mA[id := mB[id]]
    ensures mB == m0[id := mB[id]]
  {
  }

  lemma ResultsPutTwice(results0: map<Id, Value>, resultsA: map<Id, Value>, resultsB: map<Id, Value>, id: Id)
    requires resultsA == PutResult(results0, id, ResultOf(resultsA, id))
    requires resultsB == PutResult(resultsA, id, ResultOf(resultsB, id))
    ensures resultsB == PutResult(results0, id, ResultOf(resultsB, id))
  {
  }

  /** A stderr chunk written back into the maps keeps the registry valid. */
  lemma StderrWriteBack(jobs: map<Id, Job>, results: map<Id, Value>, sups: map<Id, Supervisor>, id: Id, chunk: string)
    requires Registry(jobs, results, sups) && id in sups
    ensures var after := StderrStep(SlotIn(jobs, results, sups, id), chunk);
      Registry(jobs[id := after.job], results, sups[id := after.sup]) &&
      SlotIn(jobs[id := after.job], results, sups[id := after.sup], id) == after
  {
    var before := SlotIn(jobs, results, sups, id);
    assert Filed(jobs, results, sups, id);
    StderrInv(before, chunk);
    var after := StderrStep(before, chunk);
    assert results == PutResult(results, id, after.result);
    RegistryPut(jobs, results, sups, id, after);
  }

  /** A stdout line's effect written back into the maps keeps the registry valid. */
  lemma LineWriteBack(parse: string -> Option<Value>, jobs: map<Id, Job>, results: map<Id, Value>,
                      sups: map<Id, Supervisor>, id: Id, line: string)
    requires Registry(jobs, results, sups) && id in sups
    ensures var after := ApplyLine(parse, SlotIn(jobs, results, sups, id), line);
      Registry(jobs[id := after.job], PutResult(results, id, after.result), sups[id := after.sup]) &&
      SlotIn(jobs[id := after.job], PutResult(results, id, after.result), sups[id := after.sup], id) == after
  {
    var before := SlotIn(jobs, results, sups, id);
    assert Filed(jobs, results, sups, id);
    assert [line][..0] == [];
    ApplyLinesInv(parse, before, [line]);
    var after := ApplyLine(parse, before, line);
    RegistryPut(jobs, results, sups, id, after);
  }

  class JobManager {
    /** JSON.parse, None where it throws: the model does not fix a JSON grammar. */
    const parse: string -> Option<Value>
    /** The `jobs` map: id to record. */
    var jobs: map<Id, Job>
    /** The `results` map: id to the text a done record carried. */
    var results: map<Id, Value>
    /** For each job whose child was spawned, what its callbacks close over. */
    var supervisors: map<Id, Supervisor>

    ghost predicate Valid()
      reads this
    {
      Registry(jobs, results, supervisors)
    }

    /** One job's record, result entry and closure. */
    ghost function SlotOf(id: Id): Slot
      reads this
      requires id in jobs && id in supervisors
    {
      SlotIn(jobs, results, supervisors, id)
    }

    constructor (parse: string -> Option<Value>)
      ensures Valid() && this.parse == parse
      ensures jobs == map[] && results == map[] && supervisors == map[]
    {
      this.parse := parse;
      jobs, results, supervisors := map[], map[], map[];
    }

    /**
     * createJob with a fresh id. The record is registered as queued; if spawn
     * returns, it becomes processing/"Starting" and gets its callbacks and
     * an empty stderr buffer. If spawn throws, the call fails and the queued
     * record stays registered without callbacks.
     */
    method CreateJob(id: Id, inputPath: string, originalName: string, spawnReturns: bool)
      returns (r: Option<Id>)
      requires Valid() && id !in jobs
      modifies this
      ensures Valid()
      ensures r == if spawnReturns then Some(id) else None
      ensures jobs == old(jobs)[id := if spawnReturns then Start(id, inputPath, originalName).job
                                       else NewJob(id, originalName)]
      ensures results == old(results)
      ensures supervisors == if spawnReturns then old(supervisors)[id := Start(id, inputPath, originalName).sup]
                             else old(supervisors)
      ensures spawnReturns ==> SlotOf(id) == Start(id, inputPath, originalName)
    {
      RegistryAdd(jobs, results, supervisors, id, originalName);
      var job := Job(id, Queued, Num(0), Num(0), Str("Queued"), originalName);
      jobs := jobs[id := job];
      assert job == NewJob(id, originalName);
      if !spawnReturns {
        return None;
      }
      ghost var jobs0 := jobs;
      jobs := jobs[id := job.(status := Processing, message := Str("Starting"))];
      supervisors := supervisors[id := Supervisor(inputPath, "", false)];
      StartInv(id, inputPath, originalName);
      RegistryPut(jobs0, results, old(supervisors), id, Start(id, inputPath, originalName));
      assert jobs == jobs0[id := Start(id, inputPath, originalName).job];
      r := Some(id);
    }

    /**
     * The stdout 'data' callback: the chunk is split into lines, empty lines
     * dropped, and each line is handled in order.
     */
    method OnStdout(id: Id, chunk: string)
      requires Valid() && id in supervisors
      modifies this
      ensures id in jobs && id in supervisors && Valid()
      ensures SlotOf(id) == StdoutStep(parse, old(SlotOf(id)), chunk)
      ensures jobs == old(jobs)[id := jobs[id]] && supervisors == old(supervisors)[id := supervisors[id]]
      ensures results == PutResult(old(results), id, SlotOf(id).result)
    {
      var lines := NonEmpty(SplitLines(chunk));
      ghost var s0 := SlotOf(id);
      assert results == PutResult(results, id, s0.result);
      var i := 0;
      while i < |lines|
        invariant 0 <= i <= |lines|
        invariant id in jobs && id in supervisors && Valid()
        invariant SlotOf(id) == ApplyLines(parse, s0, lines[..i])
        invariant jobs == old(jobs)[id := jobs[id]] && supervisors == old(supervisors)[id := supervisors[id]]
        invariant results == PutResult(old(results), id, SlotOf(id).result)
      {
        ghost var jobsA, resultsA, supervisorsA := jobs, results, supervisors;
        HandleLine(id, lines[i]);
        LineHandled(parse, old(jobs), old(results), old(supervisors), jobsA, resultsA, supervisorsA,
                    jobs, results, supervisors, id, s0, lines, i);
        i := i + 1;
      }
      assert lines[..|lines|] == lines;
    }

    /**
     * One stdout line: parsed and dispatched on its type; a line that does not
     * parse, or whose type is none of the four, is ignored.
     */
    method HandleLine(id: Id, line: string)
      requires Valid() && id in supervisors
      modifies this
      ensures id in jobs && id in supervisors && Valid()
      ensures SlotOf(id) == ApplyLine(parse, old(SlotOf(id)), line)
      ensures jobs == old(jobs)[id := jobs[id]] && supervisors == old(supervisors)[id := supervisors[id]]
      ensures results == PutResult(old(results), id, SlotOf(id).result)
    {
      ghost var before, jobs0, results0, supervisors0 := SlotOf(id), jobs, results, supervisors;
      var evt := DecodeLine(parse, line);
      if evt.Some? {
        var job := jobs[id];
        match evt.value
        case Progress(p, t) =>
          jobs := jobs[id := job.(processedChunks := p, totalChunks := t,
                                  message := Str(ProgressText(p, t)))];
        case Error(m) =>
          jobs := jobs[id := job.(status := Failed, message := Or(m, Str("Unknown error")))];
        case Done(text) =>
          results := results[id := Or(text, Str(""))];
          jobs := jobs[id := job.(status := Completed, message := Str("Completed"))];
          var sup := supervisors[id];
          if sup.inputPath != "" {
            supervisors := supervisors[id := sup.(unlinkRequested := true)];
          }
        case Init(t) =>
          jobs := jobs[id := job.(totalChunks := Or(t, Num(0)), message := Str("Initialized"))];
      }
      ghost var after := ApplyLine(parse, before, line);
      assert jobs == jobs0[id := after.job];
      assert supervisors == supervisors0[id := after.sup];
      assert results == PutResult(results0, id, after.result);
      LineWriteBack(parse, jobs0, results0, supervisors0, id, line);
    }

    /**
     * The stderr 'data' callback: the chunk is appended to the buffer, and its
     * trimmed text replaces the message when the message is overwritable.
     */
    method OnStderr(id: Id, chunk: string)
      requires Valid() && id in supervisors
      modifies this
      ensures jobs.Keys == old(jobs).Keys && supervisors.Keys == old(supervisors).Keys
      ensures Valid()
      ensures SlotOf(id) == StderrStep(old(SlotOf(id)), chunk)
      ensures results == old(results)
      ensures jobs == old(jobs)[id := jobs[id]] && supervisors == old(supervisors)[id := supervisors[id]]
    {
      ghost var jobs0, results0, supervisors0 := jobs, results, supervisors;
      ghost var after := StderrStep(SlotOf(id), chunk);
      var sup := supervisors[id];
      supervisors := supervisors[id := sup.(stderrBuf := sup.stderrBuf + chunk)];
      assert supervisors == supervisors0[id := after.sup];
      var job := jobs[id];
      if Overwritable(job.message) {
        jobs := jobs[id := job.(message := Str(Trim(chunk)))];
        assert jobs == jobs0[id := after.job];
      } else {
        assert jobs == jobs0[id := after.job];
      }
      StderrWriteBack(jobs0, results0, supervisors0, id, chunk);
    }

    /** The 'error' callback: the job fails with the spawn error, whatever its status. */
    method OnSpawnError(id: Id, errMessage: string, errText: string)
      requires Valid() && id in supervisors
      modifies this
      ensures jobs.Keys == old(jobs).Keys && results == old(results) && supervisors == old(supervisors)
      ensures Valid()
      ensures SlotOf(id) == SpawnErrorStep(old(SlotOf(id)), errMessage, errText)
      ensures jobs == old(jobs)[id := jobs[id]]
    {
      assert Filed(jobs, results, supervisors, id);
      ghost var jobs0, results0, supervisors0 := jobs, results, supervisors;
      var job := jobs[id];
      var detail := if errMessage != "" then errMessage else errText;
      jobs := jobs[id := job.(status := Failed, message := Str("Spawn error: " + detail))];
      assert supervisors0[id := supervisors0[id]] == supervisors0;
      assert results0 == PutResult(results0, id, SlotOf(id).result);
      RegistryPut(jobs0, results0, supervisors0, id, SlotOf(id));
    }

    /**
     * The 'close' callback: a job still queued or processing fails, with the
     * trimmed tail of its stderr buffer, its old message, or the exit code as
     * message; a completed or failed job is left as it is.
     */
    method OnClose(id: Id, code: Option<int>)
      requires Valid() && id in supervisors
      modifies this
      ensures jobs.Keys == old(jobs).Keys && results == old(results) && supervisors == old(supervisors)
      ensures Valid()
      ensures SlotOf(id) == CloseStep(old(SlotOf(id)), code)
      ensures jobs == old(jobs)[id := jobs[id]]
    {
      assert Filed(jobs, results, supervisors, id);
      ghost var jobs0, results0, supervisors0 := jobs, results, supervisors;
      var job := jobs[id];
      if job.status == Processing || job.status == Queued {
        var tail := JoinWith(LastN(SplitLines(supervisors[id].stderrBuf), 4), " | ");
        var trimmed := Trim(tail);
        var message := if trimmed != "" then Str(trimmed) else Or(job.message, Str(ExitText(code)));
        jobs := jobs[id := job.(status := Failed, message := message)];
      }
      assert supervisors0[id := supervisors0[id]] == supervisors0;
      assert results0 == PutResult(results0, id, SlotOf(id).result);
      RegistryPut(jobs0, results0, supervisors0, id, SlotOf(id));
    }
  }
}
