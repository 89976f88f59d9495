/**
 * The HTTP routes of backend/src/routes/transcription.js over the job
 * manager: the name an upload is stored under, POST /upload, GET /status/:id
 * and GET /result/:id. A reply is the status code with its JSON body.
 */
module Routes {
  import opened Options
  import opened Text
  import opened JsValues
  import opened JobSpec
  import opened Manager

  // ---------------------------------------------------------------------------
  // The stored file name: path.extname (POSIX) and the multer filename callback
  // ---------------------------------------------------------------------------

  /** The path without the run of '/' it ends with. */
  function StripTrailingSlashes(p: string): (r: string)
    ensures |r| <= |p| && r == p[..|r|]
    ensures r == [] || r[|r| - 1] != '/'
    ensures forall i :: |r| <= i < |p| ==> p[i] == '/'
  {
    if |p| > 0 && p[|p| - 1] == '/' then StripTrailingSlashes(p[..|p| - 1]) else p
  }

  /** What follows the last '/' of a path, or all of it when it has none. */
  function AfterLastSlash(q: string): (r: string)
    ensures '/' !in r
    ensures |r| <= |q| && r == q[|q| - |r|..]
  {
    match LastIndexOf(q, '/')
    case None => q
    case Some(k) =>
      assert q[k] == '/' && |q[k + 1..]| == |q| - k - 1;
      q[k + 1..]
  }

  /** The last component of a path: what follows the last '/' once trailing ones are gone. */
  function Basename(p: string): (r: string)
    ensures '/' !in r
    ensures |r| <= |StripTrailingSlashes(p)|
    ensures r == StripTrailingSlashes(p)[|StripTrailingSlashes(p)| - |r|..]
  {
    AfterLastSlash(StripTrailingSlashes(p))
  }

  /** The last component is the whole stripped path, or starts right after a '/'. */
  lemma BasenameIsLastComponent(p: string)
    ensures var q, b := StripTrailingSlashes(p), Basename(p);
      |b| == |q| || q[|q| - |b| - 1] == '/'
  {
    AfterLastSlashFollowsSlash(StripTrailingSlashes(p));
  }

  lemma AfterLastSlashFollowsSlash(q: string)
    ensures |AfterLastSlash(q)| == |q| || q[|q| - |AfterLastSlash(q)| - 1] == '/'
  {
    match LastIndexOf(q, '/')
    case None =>
    case Some(k) =>
      assert q[k] == '/' && |AfterLastSlash(q)| == |q| - k - 1;
  }

  /**
   * The extension of one path component: from its last '.' to its end, or ""
   * when it has no '.' after its first character, and for "..".
   */
  function ComponentExtension(b: string): (r: string)
    ensures r != [] <==> (|b| > 0 && '.' in b[1..] && b != "..")
    ensures r != [] ==> r[0] == '.' && '.' !in r[1..]
    ensures r != [] ==> |r| < |b| && r == b[|b| - |r|..]
  {
    match LastIndexOf(b, '.')
    case None =>
      assert |b| > 0 ==> '.' !in b[1..];
      ""
    case Some(k) =>
      assert |b| > 0 && '.' in b[1..] ==> k > 0 by {
        if |b| > 0 && '.' in b[1..] {
          var j :| 0 <= j < |b[1..]| && b[1..][j] == '.';
          assert b[j + 1] == '.';
        }
      }
      assert k > 0 ==> '.' in b[1..] by {
        if k > 0 {
          assert b[1..][k - 1] == '.';
        }
      }
      assert '.' !in b[k..][1..] by {
        forall j | 0 <= j < |b[k..][1..]|
          ensures b[k..][1..][j] != '.'
        {
          assert b[k..][1..][j] == b[k + 1 + j];
        }
      }
      if k == 0 || b == ".." then "" else b[k..]
  }

  /** path.extname on POSIX: the extension of the last component. */
  function Extname(p: string): (r: string)
    ensures var b := Basename(p);
      r != [] <==> (|b| > 0 && '.' in b[1..] && b != "..")
    ensures r != [] ==> r[0] == '.' && '.' !in r[1..] && '/' !in r
    ensures r != [] ==> |r| < |Basename(p)| && r == Basename(p)[|Basename(p)| - |r|..]
  {
    var b := Basename(p);
    SuffixLacks(b, |b| - |ComponentExtension(b)|, '/');
    ComponentExtension(b)
  }

  /** A character missing from a text is missing from each of its suffixes. */
  lemma SuffixLacks(b: string, k: nat, c: char)
    requires k <= |b| && c !in b
    ensures c !in b[k..]
  {
    forall i | 0 <= i < |b[k..]|
      ensures b[k..][i] != c
    {
      assert b[k..][i] == b[k + i];
    }
  }

  /** The extension multer's filename callback gives the stored file: the original one, or ".wav". */
  function StoredExtension(originalName: string): (r: string)
    ensures |r| > 0 && r[0] == '.' && '/' !in r
    ensures Extname(originalName) != "" ==> r == Extname(originalName)
  {
    var e := Extname(originalName);
    if e != "" then e else ".wav"
  }

  /**
   * The stored name `${Date.now()}-${Math.round(Math.random() * 1e9)}${ext}`:
   * the clock reading and the rounded random number are given as parameters.
   */
  function StoredFilename(now: nat, random: nat, originalName: string): (r: string)
    ensures '/' !in r
    ensures |r| > |StoredExtension(originalName)|
    ensures r[|r| - |StoredExtension(originalName)|..] == StoredExtension(originalName)
  {
    var a, b, e := NatToDecimal(now), NatToDecimal(random), StoredExtension(originalName);
    DigitsHaveNoSlash(a);
    DigitsHaveNoSlash(b);
    EndsWith(a + "-" + b, e);
    a + "-" + b + e
  }

  lemma DigitsHaveNoSlash(a: string)
    requires AllDigits(a)
    ensures '/' !in a
  {
    assert !IsDigit('/');
  }

  lemma EndsWith(x: string, e: string)
    ensures |x + e| >= |e| && (x + e)[|x + e| - |e|..] == e
  {
  }

  /** Digits followed by a text that starts with something else: the split point is fixed. */
  lemma DigitsSplitUnique(a: string, s: string, b: string, t: string)
    requires AllDigits(a) && AllDigits(b)
    requires |s| > 0 && !IsDigit(s[0]) && |t| > 0 && !IsDigit(t[0])
    requires a + s == b + t
    ensures a == b && s == t
  {
    LeadingDigitsOf(a, s);
    LeadingDigitsOf(b, t);
    assert a == (a + s)[..|a|] && s == (a + s)[|a|..];
    assert b == (b + t)[..|b|] && t == (b + t)[|b|..];
  }

  /** In "<digits>-<digits><ext>" with ext starting with '.', both digit runs are fixed. */
  lemma UniquePartSplit(a1: string, b1: string, e1: string, a2: string, b2: string, e2: string)
    requires AllDigits(a1) && AllDigits(b1) && AllDigits(a2) && AllDigits(b2)
    requires |e1| > 0 && e1[0] == '.' && |e2| > 0 && e2[0] == '.'
    requires a1 + "-" + b1 + e1 == a2 + "-" + b2 + e2
    ensures a1 == a2 && b1 == b2
  {
    assert a1 + "-" + b1 + e1 == a1 + ("-" + (b1 + e1));
    assert a2 + "-" + b2 + e2 == a2 + ("-" + (b2 + e2));
    DigitsSplitUnique(a1, "-" + (b1 + e1), a2, "-" + (b2 + e2));
    assert b1 + e1 == ("-" + (b1 + e1))[1..];
    assert b2 + e2 == ("-" + (b2 + e2))[1..];
    DigitsSplitUnique(b1, e1, b2, e2);
  }

  /**
   * Two uploads whose clock readings or random numbers differ are stored under
   * different names, whatever their original names.
   */
  lemma StoredFilenameInjective(now1: nat, random1: nat, name1: string, now2: nat, random2: nat, name2: string)
    requires StoredFilename(now1, random1, name1) == StoredFilename(now2, random2, name2)
    ensures now1 == now2 && random1 == random2
  {
    UniquePartSplit(NatToDecimal(now1), NatToDecimal(random1), StoredExtension(name1),
                    NatToDecimal(now2), NatToDecimal(random2), StoredExtension(name2));
    NatToDecimalInjective(now1, now2);
    NatToDecimalInjective(random1, random2);
  }

  // ---------------------------------------------------------------------------
  // Replies
  // ---------------------------------------------------------------------------

  /** GET /status/:id: 404 {error}, or 200 with the record's progress fields. */
  datatype StatusReply =
    | StatusNotFound
    | StatusBody(status: string, processedChunks: Value, totalChunks: Value, message: Value)
  {
    function Code(): int { if StatusNotFound? then 404 else 200 }
  }

  /** GET /result/:id: 404 {error}, 202 {status} while not completed, or 200 {text}. */
  datatype ResultReply =
    | ResultNotFound
    | ResultPending(status: string)
    | ResultText(text: Value)
  {
    function Code(): int
    {
      match this
      case ResultNotFound => 404
      case ResultPending(_) => 202
      case ResultText(_) => 200
    }
  }

  /** POST /upload: 400 without a file, 200 {jobId}, or 500 when createJob fails. */
  datatype UploadReply =
    | NoFile
    | Created(jobId: Id)
    | CreateFailed
  {
    function Code(): int
    {
      match this
      case NoFile => 400
      case Created(_) => 200
      case CreateFailed => 500
    }
  }

  /** GET /status/:id over the job map. */
  function StatusRoute(jobs: map<Id, Job>, id: Id): (r: StatusReply)
    ensures r.StatusNotFound? <==> id !in jobs
    ensures r.StatusBody? ==>
      r.status == jobs[id].status.Name() &&
      r.processedChunks == jobs[id].processedChunks && r.totalChunks == jobs[id].totalChunks
    ensures r.StatusBody? && Truthy(jobs[id].message) ==> r.message == jobs[id].message
    ensures r.StatusBody? && !Truthy(jobs[id].message) ==> r.message == Null
  {
    match GetJob(jobs, id)
    case None => StatusNotFound
    case Some(job) => StatusBody(job.status.Name(), job.processedChunks, job.totalChunks, Or(job.message, Null))
  }

  /** GET /result/:id over the job and result maps. */
  function ResultRoute(jobs: map<Id, Job>, results: map<Id, Value>, id: Id): (r: ResultReply)
    ensures r.ResultNotFound? <==> id !in jobs
    ensures r.ResultPending? <==> id in jobs && jobs[id].status != Completed
    ensures r.ResultPending? ==> r.status == jobs[id].status.Name()
    ensures r.ResultText? ==> r.text == GetJobResult(results, id)
  {
    match GetJob(jobs, id)
    case None => ResultNotFound
    case Some(job) =>
      if job.status.Name() != "completed" then ResultPending(job.status.Name())
      else ResultText(GetJobResult(results, id))
  }

  /** A completed job's result reply carries exactly the value its done record stored. */
  lemma CompletedJobText(jobs: map<Id, Job>, results: map<Id, Value>, sups: map<Id, Supervisor>, id: Id)
    requires Registry(jobs, results, sups) && id in jobs && jobs[id].status == Completed
    ensures id in results && ResultRoute(jobs, results, id) == ResultText(results[id])
  {
    assert Filed(jobs, results, sups, id);
  }

  /** A job whose spawn threw stays queued: status and result report it as queued for good. */
  lemma UnspawnedJobQueued(jobs: map<Id, Job>, results: map<Id, Value>, sups: map<Id, Supervisor>, id: Id)
    requires Registry(jobs, results, sups) && id in jobs && id !in sups
    ensures StatusRoute(jobs, id) == StatusBody("queued", Num(0), Num(0), Str("Queued"))
    ensures ResultRoute(jobs, results, id) == ResultPending("queued")
  {
    assert Filed(jobs, results, sups, id);
  }

  /** The file multer stored: its path and the name the client gave it. */
  datatype UploadedFile = UploadedFile(path: string, originalName: string)

  /**
   * POST /upload: no file is a 400; otherwise createJob runs on the stored
   * path with a fresh id, and the reply is its id, or a 500 if spawn threw.
   */
  method Upload(m: JobManager, file: Option<UploadedFile>, id: Id, spawnReturns: bool) returns (reply: UploadReply)
    requires m.Valid() && id !in m.jobs
    modifies m
    ensures m.Valid()
    ensures file.Some? ==> id in m.jobs && (spawnReturns <==> id in m.supervisors)
    ensures file.None? ==> reply == NoFile && unchanged(m)
    ensures file.Some? && spawnReturns ==>
      reply == Created(id) && m.SlotOf(id) == Start(id, file.value.path, file.value.originalName)
    ensures file.Some? && !spawnReturns ==>
      reply == CreateFailed && m.jobs == old(m.jobs)[id := NewJob(id, file.value.originalName)]
    ensures file.Some? ==> m.results == old(m.results)
    ensures file.Some? ==> m.jobs == old(m.jobs)[id := m.jobs[id]]
    ensures file.Some? && spawnReturns ==>
      m.supervisors == old(m.supervisors)[id := Start(id, file.value.path, file.value.originalName).sup]
    ensures file.Some? && !spawnReturns ==> m.supervisors == old(m.supervisors)
  {
    if file.None? {
      return NoFile;
    }
    var created := m.CreateJob(id, file.value.path, file.value.originalName, spawnReturns);
    match created
    case Some(jobId) => reply := Created(jobId);
    case None => reply := CreateFailed;
  }
}
