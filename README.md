# Job lifecycle of the audio transcription backend

The backend accepts an uploaded audio file, starts a Python worker on it,
and lets clients poll the job. The worker prints one JSON record per line
on stdout: `init`, `progress`, `done` or `error`. The job manager
(`backend/src/jobs/manager.js`) keeps two registries, job records and result
texts, and updates a job's record from its child process's callbacks:

- stdout data
- stderr data
- spawn error
- close

The routes (`backend/src/routes/transcription.js`) name the stored upload
and serve `POST /upload`, `GET /status/:id` and `GET /result/:id`.

Modules:

- `Text` (text.dfy): the JavaScript string operations the core uses.
  - `String()` of numbers
  - `trim()`
  - `split(/\r?\n/)`, `join`, `slice(-4)` and `filter(Boolean)`
  - the regular expression `/^Processing \d+\/\d+$/`
- `JsValues`, `Protocol` (protocol.dfy): JavaScript values with truthiness,
  `||` and `String()`, and the decoding of a parsed line into a worker event.
- `JobSpec` (jobspec.dfy): one job's state as a value, a `Slot`:
  - the record
  - its result entry
  - what the callbacks close over: the input path, the stderr buffer, and
    whether the input file was asked to be deleted

  Each callback is a function from the old slot to the new one. The module
  also has the slot invariant `Inv` and the properties of runs of callbacks.
- `Manager` (manager.dfy): the job manager as a class with the three maps as
  fields. Each callback is a method, proved to change only its own job's
  entries and to follow the `JobSpec` step function. Every method keeps the
  registry invariant `Registry`.
- `Worker` (worker.dfy): the line streams the worker prints, and what they
  do to a job.
- `Routes` (routes.dfy): the stored file name (POSIX `path.extname`) and the
  three routes, with replies given as status code and body.
- `Session` (session.dfy): whole requests against a fresh manager: success,
  crash, failed spawn, missing file, and two jobs side by side.

Parameters stand in for what the model does not fix:

- `parse` stands for `JSON.parse`, with `None` where it throws.
- `id` is the fresh id `nanoid()` returns.
- `spawnReturns` says whether `spawn` returned or threw.
- `now` and `random` are `Date.now()` and the rounded random number.

The code behaves as follows, which a reader may not expect:

- **Terminal states are not final.** An `error` record after `done` fails a
  completed job, and a `done` record after `error` completes a failed job. A
  spawn error fails a completed job. A second `done` overwrites the stored
  text. Only `close` checks for a terminal status first. Shown by
  `JobSpec.ErrorAfterDoneFails`, `JobSpec.DoneAfterErrorCompletes` and
  `JobSpec.SpawnErrorAfterCompletion`.
- **A job whose spawn threw stays `queued`, with message "Queued".** It is
  never failed, and both polling routes report it as queued for good
  (`Routes.UnspawnedJobQueued`).
- **`/result/:id` answers 202 `{status: "failed"}` for a failed job.** It does
  not signal an error.
- **The stderr tail keeps the empty piece after a final line break.** A
  crash whose stderr is `"boom\n"` gets the message `"boom |"`
  (`JobSpec.CloseWithTerminatedStderrLine`).

## Model

| member | source | states |
|---|---|---|
| Manager.GetJob | backend/src/jobs/manager.js:14-16 | The result is present exactly when the id is registered, and then it is that record. |
| Manager.GetJobResult | backend/src/jobs/manager.js:18-20 | The result is the stored value when it is truthy, and otherwise ''. A result other than '' is always the stored one. |
| Manager.JobManager.constructor | backend/src/jobs/manager.js:11-12 | Starts with empty registries, which satisfy the registry invariant. |
| Manager.JobManager.CreateJob | backend/src/jobs/manager.js:33-67 | Registers the queued record under the fresh id. If spawn returns: the job becomes processing/"Starting" with an empty stderr buffer and the id is returned. If spawn throws: the queued record stays and the call fails. Results and other jobs are unchanged, and the registry invariant is kept. |
| Manager.JobManager.OnStdout | backend/src/jobs/manager.js:70-99 | The new slot is StdoutStep of the old one: the chunk's non-empty lines applied in order. Only this job's record, result entry and closure change, and the invariant is kept. |
| Manager.JobManager.HandleLine | backend/src/jobs/manager.js:73-97 | One line: progress, error, done and init update the record (done also stores the text and asks to delete the input). A line that does not parse or has another type changes nothing. The new slot is ApplyLine of the old one, and the invariant is kept. |
| Manager.JobManager.OnStderr | backend/src/jobs/manager.js:103-110 | Appends the chunk to the buffer. Replaces the message with the trimmed chunk only when the message is falsy, "Starting" or matches the progress pattern. Status and results are unchanged. |
| Manager.JobManager.OnSpawnError | backend/src/jobs/manager.js:113-116 | Fails the job with "Spawn error: " and the error message (or its text), whatever the previous status. Nothing else changes. |
| Manager.JobManager.OnClose | backend/src/jobs/manager.js:118-125 | A queued or processing job fails, with message: the trimmed tail of the last four stderr pieces, else the old message, else "Exited with code …". A completed or failed job is left alone. |
| Manager.Registry | backend/src/jobs/manager.js:11-12 | The invariant of the two maps and the callbacks' state: closures only for registered jobs, results only for spawned ones, and Filed for every id. |
| Manager.Filed | backend/src/jobs/manager.js:35-43 | A registered record carries its own id. A spawned job's slot keeps Inv. A job whose spawn threw is the queued record with no result. |
| Manager.RegistryPut | backend/src/jobs/manager.js:11-12 | Writing one job's slot back into the maps keeps every other job's entries and the registry invariant, provided the slot keeps Inv. |
| Manager.LineWriteBack | backend/src/jobs/manager.js:73-97 | A stdout line's effect written back into the three maps keeps the registry invariant, and reading the slot back gives that effect. |
| Manager.StderrWriteBack | backend/src/jobs/manager.js:103-110 | A stderr chunk's effect written back into the maps keeps the registry invariant, and reading the slot back gives that effect. |
| Manager.LineHandled | backend/src/jobs/manager.js:72-98 | Handling one more line of a chunk: the maps still differ from the start only at this job, and the slot has applied every line so far. |
| JobSpec.Status.Name | backend/src/jobs/manager.js:37-121 | The status strings the record stores (lines 37, 66, 80, 84 and 121) and both routes serve: "queued", "processing", "completed", "failed". StatusNamesDistinct proves each status has its own name. |
| JobSpec.StatusNamesDistinct | backend/src/routes/transcription.js:41-51 | Two statuses have the same name exactly when they are the same status, so the status and result replies tell the four states apart. |
| JobSpec.NewJob | backend/src/jobs/manager.js:35-42 | The record createJob builds: queued, counters 0, message "Queued", the given id and name. |
| JobSpec.Start | backend/src/jobs/manager.js:64-67 | After spawn: processing, "Starting", no result, empty stderr buffer. |
| JobSpec.ProgressText | backend/src/jobs/manager.js:78 | The progress message: "Processing ", String() of processed, "/", String() of total. |
| JobSpec.ApplyLine | backend/src/jobs/manager.js:73-97 | One line: parsed and applied as its event, or ignored when it does not parse or has no known type (UndecodableLineIgnored). |
| JobSpec.ApplyLines | backend/src/jobs/manager.js:72-98 | The lines applied one after another, in order (ApplyLinesIsApplyEvents ties it to the decoded events). |
| JobSpec.StdoutLines | backend/src/jobs/manager.js:71 | The lines a chunk yields: split at "\n" or "\r\n", empty pieces dropped. |
| JobSpec.StdoutStep | backend/src/jobs/manager.js:70-99 | The stdout callback on one slot: the chunk's lines applied in order. |
| JobSpec.BlankLinesSkipped | backend/src/jobs/manager.js:70-99 | A chunk of complete lines joined by "\n" applies exactly its non-empty lines, in order. |
| JobSpec.BlankLineBetweenRecords | backend/src/jobs/manager.js:70-99 | The chunk "a\n\nb" applies line a, then line b, and nothing for the blank line. |
| JobSpec.Overwritable | backend/src/jobs/manager.js:107 | The stderr guard: the message is falsy, "Starting", or matches the progress pattern. StructuredMessagesKept and ProgressMessageOverwritable state which messages pass. |
| JobSpec.StderrTail | backend/src/jobs/manager.js:122 | The last four pieces of the stderr buffer split at line breaks, joined by a space, a bar and a space. The close lemmas state what it gives. |
| JobSpec.Step | backend/src/jobs/manager.js:70-125 | One callback of any kind (stdout, stderr, spawn error, close) on a slot. |
| JobSpec.Run | backend/src/jobs/manager.js:70-125 | Callbacks applied in the order they fire. |
| JobSpec.Inv | backend/src/jobs/manager.js:66-125 | What a spawned job's slot keeps: never queued again, a completed job has a result, a stored result is truthy or "", and deletion is requested only once a result is stored. StartInv, StepInv and RunInv prove it is kept. |
| JobSpec.ApplyEvent | backend/src/jobs/manager.js:75-94 | Per event kind. Progress copies both counters and sets "Processing p/t". Init sets total (default 0) and "Initialized". Done sets completed/"Completed", stores text or '', and requests deletion of a non-empty input path. Error sets failed with the message or "Unknown error". Only done touches the result, and only done and error touch the status. |
| JobSpec.ApplyLinesIsApplyEvents | backend/src/jobs/manager.js:71-97 | Applying the lines of a chunk equals applying the events they decode to. Undecodable lines are skipped. |
| JobSpec.ApplyEventsAppend | backend/src/jobs/manager.js:72-98 | Events apply in two runs as in one. |
| JobSpec.UndecodableLineIgnored | backend/src/jobs/manager.js:95-97 | A line that does not parse or decode can be removed anywhere in the stream without effect. |
| JobSpec.ResultOnlyFromDone | backend/src/jobs/manager.js:82-90 | Without a done record among the lines, the result entry and the closure are unchanged. |
| JobSpec.CountersFollowLastProgress | backend/src/jobs/manager.js:75-78 | When only done or error records follow a progress record, the counters show that progress record. |
| JobSpec.StderrStep | backend/src/jobs/manager.js:103-110 | The buffer grows by the chunk. The message becomes the trimmed chunk exactly when the old one is overwritable. Status, counters and result are kept. |
| JobSpec.StructuredMessagesKept | backend/src/jobs/manager.js:107 | "Initialized", "Completed", "Unknown error" and spawn-error messages are never overwritten by stderr. "Starting" is. |
| JobSpec.ProgressMessageOverwritable | backend/src/jobs/manager.js:78 | A progress message can be overwritten by stderr exactly when both payload values print as non-empty digit strings. |
| JobSpec.NumericProgressOverwritable | backend/src/jobs/manager.js:107 | For integer counters: overwritable exactly when neither counter is negative. |
| JobSpec.SpawnErrorText | backend/src/jobs/manager.js:115 | The message starts with "Spawn error: ". |
| JobSpec.SpawnErrorStep | backend/src/jobs/manager.js:113-116 | Status failed, with the spawn-error message. Counters, result and closure are kept. |
| JobSpec.ExitText | backend/src/jobs/manager.js:123 | "Exited with code …" is never empty. |
| JobSpec.CloseMessage | backend/src/jobs/manager.js:122-123 | The failure message close gives is always truthy. |
| JobSpec.CloseStep | backend/src/jobs/manager.js:118-125 | A terminal slot is returned unchanged. Any other slot fails with a truthy message, and nothing else changes. |
| JobSpec.CloseWithoutStderr | backend/src/jobs/manager.js:122-123 | With an empty stderr buffer, close keeps the message, or uses "Exited with code …" when it is falsy. |
| JobSpec.CloseWithStderrLine | backend/src/jobs/manager.js:122-123 | A single stderr line without a break becomes the message, trimmed. |
| JobSpec.CloseWithTerminatedStderrLine | backend/src/jobs/manager.js:122-123 | A single stderr line ending in "\n" gives the message: the line, trimmed in front, followed by a space and a bar. |
| JobSpec.StartInv | backend/src/jobs/manager.js:64-67 | The slot after spawn satisfies Inv. |
| JobSpec.ApplyLinesInv | backend/src/jobs/manager.js:70-99 | Any lines keep Inv and never remove a stored result. |
| JobSpec.StepInv | backend/src/jobs/manager.js:70-125 | Every callback keeps Inv: never queued again; completed implies a result entry; a stored result is truthy or ''; deletion is requested only once a result exists. A stored result is never removed. |
| JobSpec.RunInv | backend/src/jobs/manager.js:70-125 | Any sequence of callbacks, in any order, keeps Inv. |
| JobSpec.CloseTerminates | backend/src/jobs/manager.js:118-125 | After close the status is completed or failed. |
| JobSpec.ErrorAfterDoneFails | backend/src/jobs/manager.js:79-85 | An error record after done makes the job failed, and the text stays stored. |
| JobSpec.DoneAfterErrorCompletes | backend/src/jobs/manager.js:79-85 | A done record after error makes the job completed. |
| JobSpec.SpawnErrorAfterCompletion | backend/src/jobs/manager.js:113-116 | A spawn error fails even a completed job. |
| Protocol.DecodeLine | backend/src/jobs/manager.js:73-94 | JSON.parse, then the dispatch on the type tag. None where parse throws or the record has no known type. |
| JsValues.Truthy | backend/src/jobs/manager.js:107 | JavaScript truthiness: false exactly for undefined, null, false, 0 and "". |
| JsValues.ToStr | backend/src/jobs/manager.js:78 | String() of a value, as a template literal prints it. |
| Protocol.Decode | backend/src/jobs/manager.js:74-94 | A value decodes exactly when it is not null and its type is one of the four tags, and the event's tag is that type. |
| Protocol.DecodeEncode | transcriber/transcribe.py:83-107 | Every record the worker prints decodes back to the same event. |
| Protocol.Encode | transcriber/transcribe.py:83-107 | The object the worker prints for each event: "type" with the event's tag and the payload keys of the four json.dumps calls. DecodeEncode proves the manager reads it back as the same event. |
| JsValues.Or | backend/src/jobs/manager.js:81 | The logical or of a and b is one of them, and is truthy exactly when one of them is. |
| JsValues.Get | backend/src/jobs/manager.js:75-92 | Reading a property gives a value other than undefined only on an object that has that key. |
| Text.NatToDecimal | backend/src/routes/transcription.js:14 | A number prints as a non-empty digit string, with no leading zero unless the number is 0. |
| Text.DecimalRoundTrip | backend/src/routes/transcription.js:14 | Reading the printed digits back gives the number. |
| Text.NatToDecimalInjective | backend/src/routes/transcription.js:14 | Different numbers print differently. |
| Text.IntToDecimalDigits | backend/src/jobs/manager.js:78 | An integer prints as digits only exactly when it is non-negative. |
| Text.IntToDecimal | backend/src/jobs/manager.js:78 | String() of an integer: never empty, and it starts with '-' exactly when the integer is negative. |
| Text.TrimEmptyIff | backend/src/jobs/manager.js:108 | trim() gives the empty string exactly when the text is all white space. |
| Text.TrimStartSpec | backend/src/jobs/manager.js:108 | Stripping the start removes a run of white space and keeps the rest, which does not start with white space. |
| Text.TrimEndSpec | backend/src/jobs/manager.js:108 | Stripping the end removes a run of white space and keeps the rest, which does not end with white space. |
| Text.TrimEnds | backend/src/jobs/manager.js:108 | What trim() returns neither starts nor ends with white space. |
| Text.TrimIsInfix | backend/src/jobs/manager.js:108 | What trim() returns is a piece of the original text. |
| Text.SplitLines | backend/src/jobs/manager.js:71 | split(/\r?\n/) gives at least one piece, and no piece holds "\n". |
| Text.JoinSplitLines | backend/src/jobs/manager.js:71 | Joining the pieces of split(/\r?\n/) (line 71, and line 122 on the stderr buffer) with "\n" gives the text back, with each "\r\n" written as "\n". |
| Text.SplitJoinLines | backend/src/jobs/manager.js:71 | Lines joined with "\n" split back into the same lines. |
| Text.JoinWith | backend/src/jobs/manager.js:122 | join(sep): the pieces with the separator between each pair and "" for none. JoinWithSnoc shows it builds from the left as join does. JoinSplitLines and SplitJoinLines relate it to the line split. |
| Text.JoinWithSnoc | backend/src/jobs/manager.js:122 | Joining one more piece appends the separator and then that piece. |
| Text.LastN | backend/src/jobs/manager.js:122 | slice(-n): the last n elements, or all of them when there are fewer, or when n is 0 (slice(-0) is slice(0)). LastNIsSuffix states the length and that they end the list. |
| Text.LastNIsSuffix | backend/src/jobs/manager.js:122 | slice(-n) keeps the last min(n, length) elements, all of them for n = 0, and they end the list. |
| Text.NonEmpty | backend/src/jobs/manager.js:71 | filter(Boolean) leaves no empty string. |
| Text.NonEmptyKeepsLines | backend/src/jobs/manager.js:71 | filter(Boolean) returns a list without empty strings unchanged. |
| Text.NonEmptySingleton | backend/src/jobs/manager.js:71 | filter(Boolean) on one string drops it exactly when it is empty. |
| Text.NonEmptyAppend | backend/src/jobs/manager.js:71 | filter(Boolean) of a concatenation is the concatenation of the filtered parts. With the singleton case this fixes it as "the non-empty strings, in order". |
| Text.NonEmptyDropsBlank | backend/src/jobs/manager.js:71 | A blank line between two non-empty lines is dropped, and the two are kept in order. |
| Text.Trim | backend/src/jobs/manager.js:108 | trim(): leading, then trailing ECMAScript white space removed. What it gives is stated by TrimStartSpec, TrimEndSpec, TrimEmptyIff, TrimEnds and TrimIsInfix. |
| Text.MatchesProgress | backend/src/jobs/manager.js:107 | The regular expression /^Processing \d+\/\d+$/. MatchesProgressOfDigits and MatchesProgressOnly show it accepts exactly "Processing ", digits, "/", digits. |
| Text.MatchesProgressOfDigits | backend/src/jobs/manager.js:107 | Every "Processing <digits>/<digits>" matches the pattern. |
| Text.MatchesProgressOnly | backend/src/jobs/manager.js:107 | Only such texts match. |
| Worker.ProgressEvents | transcriber/transcribe.py:92-101 | The progress records printed after chunks 1 to k, each with the total. |
| Worker.SuccessEvents | transcriber/transcribe.py:83-104 | A successful run prints init with the total, one progress record per chunk, then done with the text. |
| Worker.FailureEvents | transcriber/transcribe.py:80-108 | A failing run prints init and the progress records it reached (if splitting succeeded), then error with the exception text. |
| Worker.PollingCounters | transcriber/transcribe.py:83-101 | After init and the first i progress records: still processing, no result, closure untouched, counters i and total. |
| Worker.ProgressApplied | backend/src/jobs/manager.js:75-78 | A progress record sets both counters and leaves the status, result and closure alone. |
| Worker.PollingDuringRun | transcriber/transcribe.py:83-101 | After init and i progress records, polling sees processing, counters i/total, and "Initialized" or "Processing i/total". |
| Worker.SuccessCompletes | transcriber/transcribe.py:83-104 | A successful run ends completed, with the text stored, both counters at total, and deletion requested when the input path is non-empty. |
| Worker.FailureFails | transcriber/transcribe.py:105-108 | A run that raises ends failed, with no result and the exception text (or "Unknown error") as message. |
| Worker.DecodedEncoded | transcriber/transcribe.py:83-107 | Lines that parse to encoded events decode to exactly those events. |
| Worker.LineChunksApplyLines | transcriber/transcribe.py:83-107 | Delivering each printed line as its own stdout chunk applies the lines in order. |
| Worker.LineChunks | transcriber/transcribe.py:83-107 | One stdout chunk per printed line, in print order: the line followed by "\n", as each flushed print delivers it. |
| Worker.Printed | transcriber/transcribe.py:83-107 | The worker's whole stdout: each line followed by "\n". SplitPrinted states how the manager splits it. |
| Worker.SplitPrinted | backend/src/jobs/manager.js:71 | split(/\r?\n/) of the printed output gives back the lines, then one empty piece. |
| Worker.WholeOutputOneChunk | backend/src/jobs/manager.js:70-72 | The whole output as one chunk has the same effect as one chunk per line. |
| Worker.WorkerSuccessEndToEnd | backend/src/jobs/manager.js:70-125 | The lines of a successful run, then exit code 0, leave the job completed with the text. |
| Worker.CompletionSurvivesDiagnostics | backend/src/jobs/manager.js:103-125 | Stderr chunks and close after completion keep it completed, with message "Completed" and the same result. |
| Worker.CrashAfterStderrLine | backend/src/jobs/manager.js:103-125 | On any running job with an empty stderr buffer, one stderr line and then the exit fail the job with the line, trimmed in front, followed by a space and a bar ("  boom\n" gives "boom |"). The result and counters are kept. |
| Worker.CrashWithDiagnostic | backend/src/jobs/manager.js:103-125 | A child that writes one stderr line and exits leaves the job failed, counters 0, no result, and as message the line, trimmed in front, followed by a space and a bar. |
| Worker.WorkerFailureEndToEnd | backend/src/jobs/manager.js:118-125 | After an error record, close with code 1 changes nothing. |
| Routes.AfterLastSlash | backend/src/routes/transcription.js:15 | What follows the last '/': no '/' in it, and a suffix of the text. |
| Routes.Basename | backend/src/routes/transcription.js:15 | The last path component path.extname looks at: no '/', and a suffix of the path without its trailing slashes. |
| Routes.BasenameIsLastComponent | backend/src/routes/transcription.js:15 | That suffix is the whole stripped path, or starts right after a '/'. |
| Routes.ComponentExtension | backend/src/routes/transcription.js:15 | The extension of one component is non-empty exactly when the component has a '.' after its first character and is not "..". It then starts at the last '.' and ends the component. |
| Routes.Extname | backend/src/routes/transcription.js:15 | path.extname is non-empty exactly when the last component has a '.' after its first character and is not "..". It then starts at the last '.', ends the component, and holds no other '.'. |
| Routes.StoredExtension | backend/src/routes/transcription.js:15 | The stored extension is the original one, or ".wav"; it is never empty and starts with '.'. |
| Routes.StoredFilename | backend/src/routes/transcription.js:14-16 | The stored name holds no '/' and ends with the stored extension. |
| Routes.StoredFilenameInjective | backend/src/routes/transcription.js:14-16 | Two uploads with equal stored names had the same clock reading and the same random number. |
| Routes.StatusRoute | backend/src/routes/transcription.js:37-46 | 404 exactly for an unknown id. Otherwise the status name and both counters of the record, and the message when it is truthy, else null. |
| Routes.ResultRoute | backend/src/routes/transcription.js:48-54 | 404 exactly for an unknown id. 202 with the status exactly when the job is not completed. Otherwise the text getJobResult gives. |
| Routes.CompletedJobText | backend/src/routes/transcription.js:48-54 | For a completed job in a valid registry, a result is stored and the route answers exactly it. |
| Routes.UnspawnedJobQueued | backend/src/routes/transcription.js:29-54 | A job whose spawn threw is reported queued, 0/0, "Queued" by status, and pending "queued" by result. |
| Routes.Upload | backend/src/routes/transcription.js:24-35 | No file: 400, nothing changes. Otherwise createJob runs: 200 with the id if spawn returned, 500 if it threw (the queued record stays). Only the new job's entries are added: every other record, closure and result is unchanged. |
| Session.SuccessfulTranscription | backend/src/routes/transcription.js:24-54 | Upload, the worker's successful output, stderr, exit 0: upload 200 with the id, status completed total/total "Completed", result 200 with the text. |
| Session.SuccessSlot | backend/src/jobs/manager.js:70-125 | The slot after that run is completed, with the text and the final counters. |
| Session.SuccessOutputRead | backend/src/jobs/manager.js:70-99 | The printed output read as one chunk applies the success events. |
| Session.CompletedRoutes | backend/src/routes/transcription.js:37-54 | For a completed slot with counters and text, status answers completed with those counters and "Completed", and result answers the text. |
| Session.Deliver | backend/src/jobs/manager.js:70-125 | The stdout chunk, the stderr chunk and the exit delivered in that order leave the slot at the close of the stderr step of the stdout step. Every other job's record, closure and result are unchanged. |
| Session.CrashedTranscription | backend/src/routes/transcription.js:37-54 | Upload, one stderr line, exit: status failed 0/0 with the line, trimmed in front, followed by a space and a bar, and result 202 "failed". |
| Session.FailedSpawn | backend/src/routes/transcription.js:24-54 | A spawn that throws: upload 500, yet status and result report the job queued. |
| Session.IndependentJobs | backend/src/routes/transcription.js:24-46 | Two uploads, then the first job's whole run: the second job still reads as processing 0/0 "Starting". |
| Session.MissingFile | backend/src/routes/transcription.js:26-28 | No file: 400, and the id is unknown to status (404). |

## Left out

- Process spawning and its context are not modelled:
  - the interpreter lookup `resolvePythonBin`
  - the worker's arguments and the local-model-directory check
  - `console` logging
  - `setEncoding`

  spawn's outcome is the parameter `spawnReturns`, and the child's output
  arrives as the method arguments.
- The input file is not deleted in the model. The done handler only records
  the request (`unlinkRequested` when the input path is non-empty), because
  `fs.existsSync` and `fs.unlinkSync` are file-system effects.
- `JSON.parse` is the abstract function `parse`; the JSON grammar is not
  modelled. Numbers are integers: JSON fractions and exponents are not
  modelled. JavaScript numbers are doubles, so an integer of 1e21 or more
  prints in exponent form ("1e+21") in the progress message and in the
  regular-expression test; `IntToDecimal` prints every digit instead.
- `String()` of an object whose own `toString`/`valueOf` throws or returns
  something else is not modelled. Objects print as "[object Object]".
- `nanoid()` is not modelled. The fresh id is a parameter that must not be
  registered yet.
- `Date.now()` and `Math.random()` are not modelled. The two numbers are
  parameters, and the range of the random number is not enforced.
- `path.extname` follows POSIX only; Windows path rules are not modelled.
- JavaScript strings are UTF-16 code units. Here a character is a Unicode
  scalar value.
- The record is one shared object in JavaScript. Here it is a value in the
  `jobs` map that each callback writes back; nothing else holds a reference
  to it.
- Express, multer's storage and upload handling, the server, configuration
  and the frontend are not part of this model. Multer's stored file is the
  `UploadedFile` argument.
- How a stream is cut into data events is a parameter. `Worker.LineChunks`
  and `Worker.Printed` cover one chunk per line and one chunk for everything.
  A line split across two chunks is read as two lines, as the code does.
