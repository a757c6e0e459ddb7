# Verification of the IPP printer application framework

This Dafny 4.11 project models the parts of the framework whose correctness is not visible in one
function: jobs and printers shared by print workers, request handlers, the status poller and the media
form; the conversion of Unix time to a calendar date; the parsers that work on bytes and text; and the
media table with the margins derived from it. `dafny verify dfyconfig.toml` checks all of it.

## The modules

| file | models |
|---|---|
| `Common.dfy` | options, printer-state reasons |
| `Jobs.dfy` | the job list, the id counter with its wrap-around, runs of creations and writes (`src/job.rs`) |
| `JobRegistry.dfy` | the registry object, updated in place, with the cancel flag that copies of a record share |
| `JobUri.dfy` | `job-uri` and `job-id`: written in responses, read from requests |
| `Printers.dfy` | printer records, the media table and its history (`src/printer.rs`) |
| `Status.dfy` | records updated in place and the poller's pass over them (`src/status.rs`) |
| `PrintWorker.dfy` | the print worker: a control machine of one lock section, flag load or await per step, and the retry loop and cancelable sleep proved to take exactly its steps |
| `Lifecycle.dfy` | the running server as a transition system with any number of jobs, printers, workers and form submissions, and its inductive invariant |
| `LifecycleRuns.dfy` | what holds of every run: nothing stuck, bookkeeping, truthful results, bounded work after a cancel |
| `LifecycleJobs.dfy` | every run as a history of creations and writes of the job registry |
| `LifecycleFinal.dfy` | exactly when a finished job stays as it is, and how soon a canceled worker ends |
| `LifecycleSaves.dfy` | the saved file against the live configurations, with saves that may overlap |
| `LifecyclePolls.dfy` | exactly when the poller disturbs printing |
| `LifecyclePrinters.dfy` | who changes the state of a printer: how long a worker's start and a poll answer last |
| `LifecyclePass.dfy` | what the poller's pass leaves of every printer and advert, whatever runs between its steps |
| `LifecycleScenarios.dfy` | runs that show where stronger claims fail |
| `Margins.dfy` | `media-col-database` and the side-margin set (`src/attributes.rs`) |
| `MediaForm.dfy` | the media form: what it accepts, loads and then reports |
| `Bootstrap.dfy` | merging discovered devices into the saved printers |
| `QueueName.dfy` | the proposed queue name: the string pipeline against a one-pass machine |
| `RawScan.dfy` | the scan of the first two operation attributes, against the encoding of section 3.1 of RFC 8010 |
| `Calendar.dfy` | `datetime_utc` against a Gregorian calendar that only steps single days |

The transition system takes one lock section, flag load or await per step, so everything else may happen
between any two of them. Saving is two steps, the snapshot under the lock and the later write of the
file. Times and callback outcomes are inputs. An action that is not possible in a state leaves it as it
is, so a run is simply a list of actions. The worker's imperative loop is proved to replay the same
machine that the transition system interleaves.

Job ids wrap around after 4294967295 creations, and a write by id then reaches the first job that had
the id. The model keeps this: a worker writes the job `Target(slot)` while it reads the flag of its own
job `slot`, and the invariants hold across the wrap-around.

## Where the code and what is said about it differ

- `src/job.rs:30-31` says the registry will not leave a terminal state. It does:
  `LifecycleScenarios.CanceledJobRestarts` and `LifecycleScenarios.CanceledJobCompletes` are two runs, and
  a document sent to any finished job restarts it (`LifecycleFinal.DocumentRestarts`). A finished job,
  Canceled, Aborted or Completed, stays so in every run that sends it no document exactly if each of its
  workers stands at a point from which it writes nothing else (`LifecycleFinal.FinalExactly`), and in every
  run at all exactly if, besides, no document can reach it (`LifecycleFinal.FinalForEver`).
- `src/status.rs:114-117` says a Processing job is never disturbed by the poller. The answer may arrive
  after a worker has started (`LifecycleScenarios.PollDisturbsPrinting`). While the poller waits for a
  printer that is not printing, there is a moment at which the answer disturbs printing exactly if a worker
  starts on that printer meanwhile (`LifecyclePolls.DisturbedExactly`).
- `src/server.rs:999-1002` says the printer stays Processing for the whole life of a job. A second worker on
  the same printer, or a poll answer, may take it to idle before (`LifecyclePrinters.LeavesPrintingExactly`);
  while neither writes its state it is Processing exactly as long as the worker has not returned it
  (`LifecyclePrinters.PrinterHeldExactly`).
- What a poll answer leaves of a printer need not last the pass even if no worker starts: a canceled worker
  that has printed before clears it (`LifecycleScenarios.AnswerUndone`). A printer that no worker's write and
  no media load reaches is as its answer left it, whatever else runs (`LifecyclePass.PassPointwise`), and one
  left Stopped leaves that state before its next answer exactly if a worker writes it
  (`LifecyclePrinters.LeavesStoppedExactly`).
- The saved file need not follow the live configurations: an old snapshot can be written last
  (`LifecycleScenarios.OverlappingSavesGoStale`). With no save owed it is live exactly if the save that
  ended last had the same snapshot as the one that began last (`LifecycleSaves.SavedIsLive`), so surely if
  they are one save, as when saves come one at a time (`LifecycleSaves.OneAtATimeIsLive`).
- `src/attributes.rs:499-501` wants the margin set to contain the margin of every database entry. With an
  empty size list and a listed name that can fail (`Margins.MarginNotCovered`);
  `Margins.MarginsCoveredExactly` says exactly when.
- `src/printer.rs:136-140` says index 0 reports what is loaded. A roll that comes under the name of the
  default with another size leaves the old size there; `Printers.LoadedFrontExactly` says for every history
  of loads which size index 0 carries. The margin of the ready media is then offered only if a listed width
  happens to have it (`MediaForms.ReadyMarginExactly`; `MediaForms.ReadyMarginNotCovered` is a roll
  without).
- The media form can cause this too, where the default already has the name of the submitted size and is
  listed without a size, or with another (`MediaForms.FormNotReported`); `MediaForms.FormsReportedExactly`
  says exactly when, for every table and series of forms.
- `src/printer.rs:39-43` says to leave either custom bound zeroed for fixed sizes only. With the minimum set
  and the maximum zeroed, the media form refuses every size (`MediaForms.AcceptsExactly`).
- The scan of the operation attributes also accepts additional values that come before any attribute, and
  a second attribute whose value is cut off (`RawScan.ScanExact`).

## Model

| member | source | states |
|---|---|---|
| `Lifecycle.StepKeepsInv` | src/server.rs:983-1100 | every atomic step of a worker, a request, the poller or the media form keeps the invariant: ids in order, worker histories well formed, no stuck job, no stuck printer |
| `Lifecycle.RunKeepsInv` | src/server.rs:983-1117 | the invariant survives every run, with any number of jobs, printers and workers, several per job or printer |
| `Lifecycle.WorkKeepsNoStuckJob` | src/server.rs:1034-1098 | a worker's own step leaves no job in Processing or ProcessingStopped without a worker that still has its terminal write, or under a raised flag its final cancel, ahead |
| `Lifecycle.WorkKeepsNoStuckPrinter` | src/server.rs:1003-1067 | a worker's own step leaves no printer in Processing without a worker that still has its return to idle ahead |
| `Lifecycle.CancelKeepsInv` | src/job.rs:171-181 | a cancel by id, landing between any two steps, keeps the invariant |
| `Lifecycle.PrinterWriteKeepsInv` | src/status.rs:96-134 | a poll answer or a media load landing between any two steps keeps the invariant |
| `Lifecycle.WriteJobs` | src/job.rs:148-181 | a write by id changes at most the first job with that id, and undoes no flag, completion time or start of any job |
| `Lifecycle.ActHistory` | src/server.rs:1033-1087 | a worker's waits follow the capped doubling, and only its last attempt can be final |
| `LifecycleRuns.NoStuckJobs` | src/server.rs:998-1100 | in every reachable state an active job has a worker that will end it; once all workers of a job with a worker have exited, it is Canceled, Aborted or Completed |
| `LifecycleRuns.NoStuckPrinters` | src/server.rs:1003-1097 | in every reachable state a Processing printer has a worker that will return it to idle; once all its workers have exited it is not in Processing |
| `LifecycleRuns.Bookkeeping` | src/job.rs:111-181 | in every reachable state terminal jobs have a completion time, Canceled implies a raised flag, a raised flag implies not Pending; each worker has holds and then at most one final outcome |
| `LifecycleRuns.RunEvolves` | src/job.rs:148-181 | over any stretch of a run flags stay raised, completion times stay set, and Pending is never entered again |
| `LifecycleRuns.FlagRaisedExactly` | src/job.rs:171-181 | in every run of the server a job's flag is raised if and only if some cancel, of a request or of a worker at its end, has reached it while it was unfinished |
| `LifecycleJobs.StepIsOp` | src/job.rs:111-181 | each step of the server is one creation or one write by id of the job registry, or leaves the jobs alone; a creation appends a Pending job with the next id, the clock reading and a lowered flag |
| `LifecycleJobs.RunIsHistory` | src/job.rs:111-181 | the jobs after any run of the server, workers' writes and requests interleaved, are those of the registry after the run's creations and writes |
| `LifecycleJobs.JobsOfRun` | src/job.rs:111-181 | so in every run of the server the n-th job carries the n-th id, a listing is the printer's creations in order, and creation and completion times are the readings of what set them |
| `LifecycleRuns.JobsAreTruthful` | src/server.rs:1039-1067 | in every reachable state a Completed job was answered Completed to one of its workers, and an Aborted job shows the reasons and message of a failure of one of its workers |
| `LifecycleRuns.CancelBoundsWork` | src/server.rs:1034-1038 | once a job's flag is raised each of its workers starts only the callback it had already passed the check for, and a worker spawned later starts none |
| `LifecycleFinal.FinalExactly` | src/job.rs:28-35 | in every state of the invariant, a Canceled, Aborted or Completed job stays in its state in every run that sends it no document if and only if each of its workers stands where it keeps the state: a test of program counter and flag |
| `LifecycleFinal.FinalStays` | src/server.rs:1034-1098 | such a job stays in its state over any such run, and its workers start no further callback |
| `LifecycleFinal.FinalForEver` | src/server.rs:692-718 | it stays in its state in every run at all if and only if, besides, there is no printer or its id has gone to an older job |
| `LifecycleFinal.DocumentRestarts` | src/server.rs:692-718 | a document sent to a job in any state takes it to Processing |
| `LifecycleFinal.CancelIsFinalExactly` | src/server.rs:760-773 | canceling an unfinished job ends it for good, until a document is sent to it again, if and only if each of its workers stands where the flag, now raised, keeps it Canceled |
| `LifecycleFinal.CancelWhileHeld` | src/server.rs:1082-1097 | a job canceled while its workers, any number, are held or past their last write stays canceled for the rest of such a run without another attempt |
| `LifecycleFinal.CompletesExactly` | src/server.rs:1034-1051 | a job not Completed can become so, in a run that sends it no document, if and only if one of its workers has passed its last load of the flag with success or is on the way with the flag down: a job canceled mid-print never completes but for a worker about to write it |
| `LifecycleFinal.CancelMyJobsInterleaved` | src/server.rs:601-604 | the listing and the cancels among anything else: for every job of the printer at the listing, the job its id leads to was finished at the cancel, or has its flag raised from then on whatever its workers write |
| `LifecycleFinal.CanceledWorkerExits` | src/server.rs:1119-1136 | once its flag is raised every own step brings a worker nearer to its exit, and after twelve it has exited, whatever the rest of the system does |
| `LifecycleSaves.StepSaves` | src/server.rs:242-245 | every step does to the file and to the snapshots under way what its kind says, and unless it begins a save it leaves a save owed or the configurations unchanged |
| `LifecycleSaves.AnswerSaves` | src/status.rs:127-130 | a poll answer that leaves no save owed has changed no configuration |
| `LifecycleSaves.StepKeepsSaves` | src/server.rs:242-245 | after every step, with any saves overlapping, each snapshot under way is of the moment its save began, the file of the save that ended last, and the live configurations are those of the save begun last unless one is owed |
| `LifecycleSaves.SavedIsLive` | src/status.rs:55-62 | in every run, with no save owed, the file equals the live configurations if and only if the save that ended last had the snapshot of the one that began last; in particular if they are one |
| `LifecycleSaves.OneAtATimeIsLive` | src/server.rs:242-245 | if saves have come one at a time, the file is live whenever none is owed or under way |
| `LifecyclePolls.PollDisturbsOnlyStarted` | src/status.rs:81-103 | over every pass from the start of the server, with distinct names, a printer about to be written by the poller is Processing only if a worker has started on it since the snapshot |
| `LifecyclePolls.DisturbedExactly` | src/status.rs:81-126 | while the poller waits for the answer of a printer that is not printing, whatever else runs: there is a moment at which the answer would take it from printing if and only if a worker starts on it meanwhile |
| `LifecyclePolls.StartThenAnswerDisturbs` | src/status.rs:96-126 | in every state of the invariant, a worker's start on the printer whose answer comes next, and then any answer, takes the printer from printing while the worker goes on |
| `LifecyclePrinters.LeavesPrintingExactly` | src/server.rs:1112-1117 | a printing printer stops printing in a step if and only if the step writes a poll answer to it or is some worker's return of it to idle |
| `LifecyclePrinters.PrinterHeldExactly` | src/server.rs:999-1008 | from a worker's start on, in every run in which no answer and no other worker writes the state of its printer, the printer is Processing if and only if the worker has not returned it yet: through every attempt, hold and wait |
| `LifecyclePrinters.StartHolds` | src/server.rs:1003-1008 | a worker's start brings that about |
| `LifecyclePrinters.FinishedAfterReturn` | src/server.rs:1040-1097 | a worker completes, fails or cancels its job only after it has returned the printer to idle |
| `LifecyclePrinters.LeavesStoppedExactly` | src/status.rs:118-126 | a printer left Stopped by an answer is not Stopped at some moment before its next answer if and only if a worker writes its state meanwhile |
| `LifecyclePass.PassPointwise` | src/status.rs:81-134 | at every moment of a pass whose queue names each printer once, whatever else has run: a printer that no worker's write and no media load has reached is what its answer makes of it, or, not answered or not queued, what it was |
| `LifecyclePass.SnapshotExactly` | src/status.rs:81-92 | the poller's snapshot queues, in registry order and once each, the configuration of exactly the printers that are not printing, idle or stopped, and changes nothing else |
| `LifecyclePass.PassMeetsDescription` | src/status.rs:81-134 | in every run that begins with the snapshot, with distinct names, each printer that no worker's write and no media load has reached since is as the pointwise description of a pass has it, Processing ones untouched |
| `LifecyclePass.PassAsksAll` | src/status.rs:85-103 | once the queue of such a run is empty, every printer that was idle or stopped at the snapshot has been asked |
| `LifecyclePass.PassAlone` | src/status.rs:55-158 | if no printer is reached, the pass of the transition system is the pass of `Status.PollOnce`, and ended it owes a save if and only if some answer brought a roll that was not the default, or not ready with its size |
| `LifecyclePass.AdvertsExactly` | src/status.rs:136-156 | at every moment of a pass, whatever else has run: a name answered for is advertised if and only if the answer is not offline (and there is such a printer, or it was advertised), any other name if and only if it was |
| `LifecycleScenarios.AnswerUndone` | src/server.rs:1046-1097 | a run in which no worker starts during the pass, the answer stops the printer, and a worker that is canceled after printing clears the reasons and returns it to idle |
| `LifecycleScenarios.CanceledJobRestarts` | src/server.rs:1009-1011 | a run in which a Canceled job is put back to Processing |
| `LifecycleScenarios.CanceledJobCompletes` | src/server.rs:1047-1051 | a run in which a cancel lands between the last look at the flag and the write, and Completed overwrites Canceled |
| `LifecycleScenarios.PollDisturbsPrinting` | src/status.rs:81-126 | a run in which the poller takes a printing printer to idle |
| `LifecycleScenarios.OverlappingSavesGoStale` | src/server.rs:420-431 | a run of two form submissions after which nobody owes a save and the file is not live |
| `PrintWorkers.RunWorker` | src/server.rs:998-1100 | the worker from spawn to exit takes exactly the machine's steps; uncanceled it makes one attempt per hold and a last one, and its outcome alone decides the job's last write; canceled, the cancel is the last write before saving |
| `PrintWorkers.RunUncanceled` | src/server.rs:1024-1087 | held k times and then answered for good, with nobody canceling: exactly k + 1 attempts, wait i is min(start * 2^i, 30 s), at most 30 k seconds in all; whatever they were before, the job ends Completed, or Aborted with the failure's reasons and message, and the printer Idle, without reasons or with the failure's, otherwise untouched |
| `PrintWorkers.HoldLogMeans` | src/server.rs:1003-1084 | while held the printer is Processing with the reasons of the last attempt, the job ProcessingStopped, and nothing else of them is touched |
| `PrintWorkers.CancelLogMeans` | src/server.rs:1089-1098 | ended by a cancel the printer is Idle without reasons, and the job Canceled, flag up, unless it was finished before |
| `PrintWorkers.RetryLoop` | src/server.rs:1034-1087 | the loop, for every monotone flag and every script of outcomes: attempts, waits, effects and flag loads, and why it was left |
| `PrintWorkers.TakeOutcome` | src/server.rs:1038-1086 | one answer of the callback: what is written, whether it goes round again, and that the machine does the same |
| `PrintWorkers.SleepCancelable` | src/server.rs:1121-1136 | the answer is the flag at its last load; naps are at most 250 ms, never longer than asked in all, the whole time if false; it is true exactly if the flag is up by load number ceil(duration / 250) |
| `PrintWorkers.BackoffClosed` | src/server.rs:1032-1086 | capping at every doubling is capping once: wait i is min(start * 2^i, 30 s) |
| `PrintWorkers.TotalWait` | src/server.rs:1024-1086 | k waits take at most 30 k seconds in all |
| `Jobs.JobsAreCreations` | src/job.rs:111-127 | after any run of creations and writes, the n-th job is the n-th creation and carries the n-th id |
| `Jobs.LookupExact` | src/job.rs:131-133 | a job is found by its own id exactly if it is among the first 4294967295 |
| `Jobs.ListingIsCreations` | src/job.rs:136-144 | a printer's listing after any run is its creations, each once, in creation order, with their ids |
| `Jobs.IdOfStep` | src/job.rs:114 | the wrapping increment hands out 1 to 4294967295 round and round, never 0 |
| `Jobs.AppliesExactly` | src/job.rs:148-181 | the three writes field by field: what each sets, what it keeps, and that a cancel of a finished job changes nothing |
| `Jobs.CancelOfFinished` | src/job.rs:171-176 | a cancel by the id of a finished job, or of none, leaves every job, flags included, as it is |
| `Jobs.FlagExactly` | src/job.rs:171-181 | over any run of the registry a job's flag is raised if and only if some cancel has reached it while it was unfinished |
| `Jobs.CompletionExactly` | src/job.rs:148-181 | over any run a job's completion time is the clock reading of the last failure, cancel while unfinished, or first final state that reached it, and there is none without |
| `Jobs.CreationTime` | src/job.rs:111-127 | over any run a job's creation time is the clock reading of its creation |
| `JobRegistries.JobRegistry.Create` | src/job.rs:111-127 | appends a pending job with the next id; the returned copy shares its flag with the record and with no older one |
| `JobRegistries.JobRegistry.Get` | src/job.rs:131-133 | the first record with the id, or none |
| `JobRegistries.JobRegistry.JobsForPrinter` | src/job.rs:136-144 | the filtered list the specification describes |
| `JobRegistries.JobRegistry.SetState` | src/job.rs:148-156 | rewrites the first record with the id in place and nothing else; a completion time is set once |
| `JobRegistries.JobRegistry.SetFailure` | src/job.rs:159-167 | aborts the first record with the id, with reasons, message and time |
| `JobRegistries.JobRegistry.Cancel` | src/job.rs:171-181 | answers with the new state; a finished job, or none, leaves records and flags as they are; otherwise the record is canceled and its flag, no other, is raised for every copy of it |
| `JobRegistries.JobRegistry.CancelMyJobs` | src/server.rs:601-604 | the request by itself: a listing and one cancel per listed job have the effect of cancelling each in turn |
| `JobRegistries.CancelEachExact` | src/server.rs:601-604 | cancelling a list in turn cancels exactly the jobs whose ids are listed, of jobs with one id the first |
| `JobRegistries.CancelMyJobsScope` | src/server.rs:601-604 | of the request by itself, no other actor writing between its cancels: exactly the jobs that the ids of the printer's jobs lead to are canceled; until ids start again these are its own jobs, each finished afterwards, and no job of another printer has changed |
| `Printers.TableHistory` | src/printer.rs:144-165 | after any loads into a duplicate-free table, names stay unique, none is lost, loaded ones come most recent first, then the rest in their original order |
| `Printers.RecencyIsLastLoad` | src/printer.rs:133-140 | the order used there is the number of the last load of a name |
| `Printers.LoadKeepsSizes` | src/printer.rs:148-164 | a load keeps the explicit size of every other name, however short the size list |
| `Printers.HistoryKeepsSizes` | src/printer.rs:148-164 | a name never loaded keeps its size through any history |
| `Printers.LoadedNamesCarrySizes` | src/printer.rs:133-140 | if each name always comes with the same size and the table starts so, every loaded name carries its size and index 0 the loaded roll |
| `Printers.LoadedFrontExactly` | src/printer.rs:133-165 | after any loads into any table the roll loaded last is the default, with the size its last stretch of loads began with, or, where that stretch is the whole history of what was the default already, the size listed before |
| `Printers.LoadedSizeExact` | src/printer.rs:144-165 | after one load index 0 carries its size exactly unless it reloads a default of another or no size |
| `Printers.LoadKeepsAlignment` | src/printer.rs:150-164 | two lists of equal length stay so, and a size list no longer than the names stays no longer |
| `Printers.LoadExactly` | src/printer.rs:147-164 | one load, list by list: nothing for the default; else the name comes to the front with the size and leaves its old place in both lists, as far as each goes |
| `Printers.UnreportedMeansUnchanged` | src/printer.rs:142-169 | the media are ready, the table has loaded them, all else is kept; the answer is true if and only if the media were not the default, or none was ready, or of another size; the configuration changes only in the first case, so never unreported |
| `Printers.PolledMeans` | src/status.rs:96-134 | one answer field by field: reasons and state replaced, media loaded and ready, supply taken, what is left out kept; a change is reported if and only if given media were not the default, or none was ready, or of another size |
| `Printers.PollableInOrder` | src/status.rs:85-92 | the snapshot's configurations are those of the printers not printing, once each, in registry order |
| `Status.PrinterRecord.SetReadyMedia` | src/printer.rs:144-170 | the two lists updated in place end as the table the specification describes, with its answer |
| `Status.TakeAnswer` | src/status.rs:96-134 | the lock section of one poll answer, field by field in place |
| `Status.PollOnce` | src/status.rs:69-158 | a pass by itself, no other actor writing between its lock sections, with unique names: every polled and answering printer, and its advert, is as the pointwise description has it, exactly once; the answer is whether any media changed. `LifecyclePass` has the pass among other actors |
| `Status.PolledOnceMeans` | src/status.rs:96-134 | an answering printer ends Idle or, offline, Stopped, reasons replaced, a roll given ready and loaded to the front of the table, all other configuration kept, media and supply carried forward when left out; all others are untouched; a change is counted exactly for a roll that was not the default or not ready with its size |
| `Status.SecondPassIsQuiet` | src/status.rs:136-156 | a second pass with the same answers changes no printer and no advert, and reports nothing |
| `Bootstrap.BootstrapPrinters` | src/server.rs:208-237 | the new registry is the merge of saved printers and devices, as fresh idle records, and is what is saved |
| `Bootstrap.SavedSurvive` | src/server.rs:214-234 | saved printers come first, in order; what follows comes from listed devices |
| `Bootstrap.AddedDescribesDevice` | src/server.rs:220-234 | with an application that writes down what it is given, every added printer carries queue name, description, URI and id of one listed device, and the driver the backend names for that id and URI |
| `Bootstrap.NoUriAddedTwice` | src/server.rs:225-227 | every added printer is that of a listed device whose URI no printer before it carries; so with an application that keeps the URI none is added beside one with its URI |
| `Bootstrap.EveryDevicePresent` | src/server.rs:220-234 | every listed device with a driver and a configuration has a printer: by its URI or with its own configuration, by its URI if the application keeps it |
| `Bootstrap.MergeFixedExactly` | src/server.rs:220-234 | a merge changes nothing if and only if every device with a configuration is there already by its URI |
| `Bootstrap.SecondBootstrap` | tests/discovery.rs:156-184 | starting again with the same devices changes nothing if and only if the first start left each under its own URI; always with an application that keeps the URI |
| `Bootstrap.MergeIsAdded` | src/server.rs:220-234 | with such an application the merge is the saved printers and then, in order, the devices whose URI is neither saved nor that of an earlier device with a configuration |
| `Bootstrap.NamesDistinctExactly` | src/server.rs:224-234 | if the application also keeps the name, the printers have distinct names if and only if the saved ones have, and the queue names of the added devices differ from each other and from theirs |
| `Bootstrap.ChangedUriAddsAgain` | src/server.rs:225-234 | an application that changes the URI gets its printer again at every start |
| `Bootstrap.AlikeDevicesShareAName` | src/server.rs:224-227 | two devices with the same description get two printers of one name |
| `QueueNames.CollapsedIsOnePass` | src/server.rs:255-272 | mapping, trimming, splitting, filtering and joining is one pass that turns each run of other characters into one underscore |
| `QueueNames.QueueNameExactly` | src/server.rs:255-278 | the name is that pass over the description, or over the URI where the description is empty, and "printer" where it writes nothing |
| `QueueNames.QueueNameStable` | src/server.rs:255-278 | a name is never empty, only [a-z0-9_], no underscore leads, trails or is doubled, and naming a device by it returns it |
| `QueueNames.QueueNameIgnoresCase` | src/server.rs:259-266 | ASCII case in the description and the URI does not matter |
| `RawScan.OperationAttributesWellOrdered` | src/server.rs:789-823 | the index-driven scan, which never reads out of range, answers as the scan on byte tails |
| `RawScan.ScanEncoded` | src/server.rs:783-823 | on every operation group encoded per section 3.1 of RFC 8010 the answer is true exactly if the first two attributes are attributes-charset and attributes-natural-language |
| `RawScan.ScanExact` | src/server.rs:789-823 | on arbitrary bytes the answer is true of exactly the bodies that open with the two names, stray additional values allowed |
| `RawScan.ScanMonotone` | src/server.rs:797-820 | appending bytes never turns true into false |
| `RawScan.WantedIsValid` | src/server.rs:821-822 | the two byte strings compared with spell the two attribute names |
| `JobUris.ParseExact` | src/server.rs:845 | the 32-bit parse accepts exactly one optional plus sign and digits that write a number below 2^32 |
| `JobUris.JobUriRoundTrip` | src/attributes.rs:738 | for every printer URI and every 32-bit id the written job-uri is read back as the id |
| `JobUris.JobIdRoundTrip` | src/attributes.rs:740-746 | the id survives the casts to and from a signed 32-bit integer |
| `JobUris.FirstReferenceDecides` | src/server.rs:835-851 | the first job-id integer or job-uri URI decides, whatever follows: the integer read as unsigned, or the number of its last segment, none included; without either there is no answer |
| `JobUris.AsU32Exact` | src/server.rs:840 | the unsigned reading of every signed 32-bit number |
| `JobUris.LastSegmentExact` | src/server.rs:845 | the last segment is what follows the last slash, or all of a text without one |
| `JobUris.JobUriShape` | src/attributes.rs:738-746 | the job-uri is the printer's URI, "/job/" and the id |
| `JobUris.ReferencesReadBack` | src/attributes.rs:807-810 | a request that repeats either reference of a response, among any other attributes in any order, means that id |
| `JobUris.ReferencesFindTheJob` | src/server.rs:692-699 | over any run of the registry those references lead back to the very job, exactly as long as ids have not wrapped before it |
| `Margins.SideMargins` | src/attributes.rs:508-525 | the pushed, sorted and deduplicated list is the set described next |
| `Margins.SupportedExact` | src/attributes.rs:508-525 | it is strictly increasing and holds exactly the margins of the listed and custom widths, or 0 when there is none |
| `Margins.OfferedExactly` | src/attributes.rs:508-525 | size by size: the margin of every size in the list and of both custom ends, 0 besides only where there is neither, and nothing else |
| `Margins.ZeroExact` | src/attributes.rs:519-524 | 0 is offered exactly if some width is fully printable, to a unit, or there is none |
| `Margins.ImageableWidth` | src/attributes.rs:928-945 | what the two margins leave is the head width, one unit more where it does not halve, or all of a narrower sheet |
| `Margins.Database` | src/attributes.rs:406-428 | the entries: every name with its own or the default size, then the two custom ends |
| `Margins.ListedEntries` | src/attributes.rs:406-416 | every listed name comes with its own size, beyond the size list with the first, 40 by 30 mm if there is none, and the margin of that width |
| `Margins.CustomEntries` | src/attributes.rs:417-428 | two more entries exactly where both custom bounds are positive and in order: the smaller under its "min" name, the larger under its "max" name, each name telling its size |
| `Margins.MarginsCoveredExactly` | src/attributes.rs:499-524 | the set holds every entry's margin exactly if a size is listed, or no name is, or the fallback's margin happens to be in it |
| `Margins.MarginNotCovered` | src/attributes.rs:391-428 | a configuration where it does not |
| `MediaForms.Apply` | src/server.rs:361-431 | the handler's answer and the records afterwards, for every form, every consumer's decision, and everything other actors may do to the records while the consumer is asked |
| `MediaForms.SubmitMeans` | src/server.rs:299-310 | exactly when a form is applied; it is then what the page shows, and beyond what the others did meanwhile only its printer changes, and nothing on any other answer |
| `MediaForms.SubmitAnswers` | src/server.rs:366-429 | when exactly a form is answered not found, out of range and refused |
| `MediaForms.PageShows` | src/server.rs:299-310 | the page shows the ready media, else the first size listed, else 40 by 30 mm, in whole millimetres |
| `MediaForms.FormMediaShape` | src/server.rs:380-405 | a form's media: width first in name and size, the size in hundredths of a millimetre |
| `MediaForms.AcceptsExactly` | src/server.rs:381-389 | without minima every size; with the minima set the form takes exactly the sizes of the advertised range, and none if there is no such range |
| `MediaForms.FormMarginCovered` | src/server.rs:381-389 | no size the form takes from the advertised range has a wider margin than the widest offered |
| `MediaForms.FormNameInjective` | src/server.rs:398-405 | the generated media name tells the size |
| `MediaForms.FormsReportedExactly` | src/server.rs:420-429 | after any forms, on any table, index 0 carries the last form's name; it carries its size too if and only if not all forms were that one and named the default from the start, or that default was listed with the form's size |
| `MediaForms.FormsAreReported` | src/printer.rs:133-140 | so on a table whose default has a size, and which lists form names with their sizes, index 0 always carries the last form's media and its margin is offered |
| `MediaForms.FormNotReported` | src/printer.rs:145-165 | a form under the name of a default without a size: index 0 goes on reporting the fallback size, and the margin of the loaded media is not offered |
| `MediaForms.ReadyMarginExactly` | src/attributes.rs:480-493 | for every printer and load, the margin of the ready media is offered if and only if the media was not the default already, or some listed or custom width has that margin (with no width, if it is 0) |
| `MediaForms.ReadyMarginNotCovered` | src/attributes.rs:480-493 | a polled roll whose margin is reported as ready but not offered |
| `Calendar.CivilIsCalendar` | src/attributes.rs:63-71 | for every day number, before or after 1970, the closed form is the date reached by single steps |
| `Calendar.DayNumberOfDate` | src/attributes.rs:63-71 | counting the days of a date gives back its day number |
| `Calendar.EveryDateIsReached` | src/attributes.rs:63-71 | every valid Gregorian date is the date of its day number |
| `Calendar.LeapDays` | src/attributes.rs:63-71 | 29 February of a year appears exactly in leap years |
| `Calendar.YearFieldExact` | src/attributes.rs:73-74 | the 16-bit year is the year exactly for the seconds of years 0 to 65535, and its low 16 bits for all |
| `Calendar.DateTimeIsCalendar` | src/attributes.rs:58-86 | for those seconds the date is the calendar's, the fields are in range and recombine to the seconds |
| `Calendar.DateTimeMonotone` | src/attributes.rs:58-86 | later seconds give later fields, and only they do |

## Left out

- HTTP routing, HTML pages, icons, logging, the `ipp` crate's parser and value types, the mDNS daemon and the JSON file format: plumbing and library code. The advertiser is a set of names, the disk a list of configurations, saving and publishing succeed.
- The real clock, environment variables and UUIDs: readings of the clock and the retry start are inputs.
- The device backend, the print callback and the consumer's media hook are arbitrary answers at each call; they return and do not panic.
- The flag `held` in the worker only guards a log line and is not kept.
- Spawning a worker in the transition system is allowed for any job and any printer at any time, which covers Print-Job and Send-Document and more; their checks of the request are not modelled.
- `PrintWorkers.RunWorker`: the loop records what it writes as a list of effects instead of calling the registries; the transition system applies the same effects to jobs and printers one lock section at a time.
- Job attributes other than `job-uri` and `job-id`, and the filter on requested attributes.
- The update of an advert is taken together with the answer it follows; only the poller touches adverts while the server runs.
- Cancel-My-Jobs cancels every job of the printer whoever asks, as the code does; owner scoping of Get-Jobs is not modelled.
- Overflow of very large form sizes, printhead widths and margins: `Margins` and `MediaForms` compute with unbounded integers, which agree with the 32-bit ones while the values fit.
- The order of two equal elements in a sort and the allocation behaviour of vectors: sorting is by value.
- Get-Printer-Attributes beyond media and margins, the keyword table of reasons, raster drivers and job options: finite tables and interfaces.
