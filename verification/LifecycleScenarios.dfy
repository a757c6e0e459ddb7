/** Runs that show where stronger claims fail. */
module LifecycleScenarios {
  import opened Common
  import opened Jobs
  import opened PrintWorkers
  import opened Lifecycle
  import P = Printers

  const ANY := JobOutcome.Completed

  /** A worker that takes its first two steps on the first job. */
  lemma StartWorker(s: Sys, printer: string)
    requires P.Named(s.printers, printer) < |s.printers| && |s.jobs| == 1 && s.jobs[0].id == 1 && s.workers == []
    ensures var s1 := Next(s, Spawn(0, printer, 0)); var s2 := Next(s1, Work(0, ANY, 0)); var s3 := Next(s2, Work(0, ANY, 0));
            && s3.workers == [NewWorker(printer, 0, 0).(pc := Check)]
            && s3.jobs == [Apply(s.jobs[0], JobWrite.SetState(Processing), 0)]
            && s3.printers == P.Write(s.printers, printer, P.PrinterWrite.SetState(P.Processing))
            && s3.poller == NoteStart(s.poller, P.PrinterWrite.SetState(P.Processing), printer)
            && s3.nextId == s.nextId && s3.media == s.media && s3.disk == s.disk
  {
  }

  /** Canceled is not final: a worker that starts after the cancel puts its job back to Processing. */
  lemma CanceledJobRestarts(s: Sys, printer: string) returns (run: seq<Action>, k: nat)
    requires Init(s) && P.Named(s.printers, printer) < |s.printers|
    ensures k < |run| && Lifecycle.After(s, run[..k]).jobs != [] && Lifecycle.After(s, run).jobs != []
    ensures Lifecycle.After(s, run[..k]).jobs[0].state.Canceled?
    ensures Lifecycle.After(s, run).jobs[0].state.Processing? && Lifecycle.After(s, run).jobs[0].canceled
  {
    var r2 := [CreateJob(printer, "", 0)] + [CancelJob(1, 0)];
    var r4 := r2 + [Spawn(0, printer, 0)] + [Work(0, ANY, 0)];
    run, k := r4 + [Work(0, ANY, 0)], 2;
    AfterSnoc(s, [], CreateJob(printer, "", 0));
    AfterSnoc(s, [CreateJob(printer, "", 0)], CancelJob(1, 0));
    AfterSnoc(s, r2, Spawn(0, printer, 0));
    AfterSnoc(s, r2 + [Spawn(0, printer, 0)], Work(0, ANY, 0));
    AfterSnoc(s, r4, Work(0, ANY, 0));
    assert [] + [CreateJob(printer, "", 0)] == [CreateJob(printer, "", 0)];
    assert run[..2] == r2;
    StartWorker(Lifecycle.After(s, r2), printer);
  }

  /** One step of the only worker that writes no job. */
  lemma OneWork(s: Sys, worker: Worker)
    requires s.workers == [worker] && worker.slot < |s.jobs| && !Act(worker, InputOf(s, 0, ANY)).1.OnJob?
    ensures Next(s, Work(0, ANY, 0)).workers == [Act(worker, InputOf(s, 0, ANY)).0]
    ensures Next(s, Work(0, ANY, 0)).jobs == s.jobs
  {
  }

  /** A started worker whose callback answers Completed, up to its write to the job. */
  lemma PrintToTheEnd(s: Sys, worker: Worker)
    requires s.workers == [worker] && worker.slot == 0 && worker.pc.Check? && |s.jobs| == 1 && !s.jobs[0].canceled
    ensures var s1 := Next(s, Work(0, ANY, 0)); var s2 := Next(s1, Work(0, ANY, 0)); var s3 := Next(s2, Work(0, ANY, 0));
            && s3.workers == [worker.(pc := DoneReasons, attempts := worker.attempts + [ANY])] && s3.jobs == s.jobs
  {
    var s1 := Next(s, Work(0, ANY, 0));
    OneWork(s, worker);
    OneWork(s1, worker.(pc := Go));
    OneWork(Next(s1, Work(0, ANY, 0)), worker.(pc := Calling));
  }

  lemma PrintToTheWrite(s: Sys, worker: Worker)
    requires s.workers == [worker] && worker.slot == 0 && worker.pc.DoneReasons? && |s.jobs| == 1 && !s.jobs[0].canceled
    ensures var s1 := Next(s, Work(0, ANY, 0)); var s2 := Next(s1, Work(0, ANY, 0)); var s3 := Next(s2, Work(0, ANY, 0));
            && s3.workers == [worker.(pc := DoneState)] && s3.jobs == s.jobs
  {
    var s1 := Next(s, Work(0, ANY, 0));
    OneWork(s, worker);
    OneWork(s1, worker.(pc := DoneIdle));
    OneWork(Next(s1, Work(0, ANY, 0)), worker.(pc := DoneCheck));
  }

  /** Canceled may be overwritten by Completed: the cancel lands between a worker's last look at the
      flag and its write. */
  lemma CanceledJobCompletes(s: Sys, printer: string) returns (run: seq<Action>, k: nat)
    requires Init(s) && P.Named(s.printers, printer) < |s.printers|
    ensures k < |run| && Lifecycle.After(s, run[..k]).jobs != [] && Lifecycle.After(s, run).jobs != []
    ensures Lifecycle.After(s, run[..k]).jobs[0].state.Canceled?
    ensures Lifecycle.After(s, run).jobs[0].state.Completed? && Lifecycle.After(s, run).jobs[0].canceled
  {
    var work := Work(0, ANY, 0);
    var r1 := [CreateJob(printer, "", 0)];
    var r2 := r1 + [Spawn(0, printer, 0)];
    var r4 := r2 + [work] + [work];
    var r7 := r4 + [work] + [work] + [work];
    var r10 := r7 + [work] + [work] + [work];
    var r11 := r10 + [CancelJob(1, 0)];
    run, k := r11 + [work], 11;
    assert [] + r1 == r1;
    AfterSnoc(s, [], CreateJob(printer, "", 0));
    AfterSnoc(s, r1, Spawn(0, printer, 0));
    AfterSnoc(s, r2, work);
    AfterSnoc(s, r2 + [work], work);
    StartWorker(Lifecycle.After(s, r1), printer);
    AfterThrice(s, r4, work);
    PrintToTheEnd(Lifecycle.After(s, r4), Lifecycle.After(s, r4).workers[0]);
    AfterThrice(s, r7, work);
    PrintToTheWrite(Lifecycle.After(s, r7), Lifecycle.After(s, r7).workers[0]);
    AfterSnoc(s, r10, CancelJob(1, 0));
    AfterSnoc(s, r11, work);
    assert run[..11] == r11;
    LateCancel(Lifecycle.After(s, r10));
  }

  lemma AfterThrice(s: Sys, run: seq<Action>, a: Action)
    ensures Lifecycle.After(s, run + [a] + [a] + [a]) == Next(Next(Next(Lifecycle.After(s, run), a), a), a)
  {
    AfterSnoc(s, run, a);
    AfterSnoc(s, run + [a], a);
    AfterSnoc(s, run + [a] + [a], a);
  }

  lemma LateCancel(s: Sys)
    requires |s.workers| == 1 && s.workers[0].slot == 0 && s.workers[0].pc.DoneState?
    requires |s.jobs| == 1 && s.jobs[0].state.Processing? && s.jobs[0].id == 1
    ensures var s1 := Next(s, CancelJob(1, 0)); var s2 := Next(s1, Work(0, ANY, 0));
            && |s1.jobs| == 1 && s1.jobs[0].state.Canceled?
            && |s2.jobs| == 1 && s2.jobs[0].state.Completed? && s2.jobs[0].canceled
  {
  }

  lemma AnswerIdles(s: Sys, printer: string)
    requires |s.printers| == 1 && s.printers[0].config.name == printer
    requires s.poller.Polling? && |s.poller.queue| == 1 && s.poller.queue[0].name == printer
    ensures var s1 := Next(s, PollAnswer(Some(P.PollStatus({}, None, None))));
            |s1.printers| == 1 && s1.printers[0].state == P.Idle && s1.workers == s.workers
  {
    assert P.Names(s.printers) == [printer];
  }

  /** The poller can take a printing printer to idle: its answer comes after a worker has started. */
  lemma PollDisturbsPrinting(s: Sys, printer: string) returns (run: seq<Action>, k: nat)
    requires Init(s) && |s.printers| == 1 && s.printers[0].config.name == printer
    ensures k < |run| && |Lifecycle.After(s, run[..k]).printers| == 1 && |Lifecycle.After(s, run).printers| == 1
    ensures Lifecycle.After(s, run[..k]).printers[0].state == P.Processing
    ensures Lifecycle.After(s, run).printers[0].state == P.Idle
    ensures Lifecycle.After(s, run).workers != [] && Lifecycle.After(s, run).workers[0].pc.Check?
  {
    var answer, work := PollAnswer(Some(P.PollStatus({}, None, None))), Work(0, ANY, 0);
    var r1 := [CreateJob(printer, "", 0)];
    var r2 := r1 + [PollSnapshot];
    var r3 := r2 + [Spawn(0, printer, 0)];
    var r5 := r3 + [work] + [work];
    run, k := r5 + [answer], 5;
    assert run[..5] == r5 && [] + r1 == r1;
    AfterSnoc(s, [], CreateJob(printer, "", 0));
    AfterSnoc(s, r1, PollSnapshot);
    AfterSnoc(s, r2, Spawn(0, printer, 0));
    AfterSnoc(s, r3, work);
    AfterSnoc(s, r3 + [work], work);
    AfterSnoc(s, r5, answer);
    OnlyPrinterPolled(s.printers);
    OnlyPrinterNamed(s.printers);
    StartWorker(Lifecycle.After(s, r2), printer);
    AnswerIdles(Lifecycle.After(s, r5), printer);
  }

  lemma {:induction false} OnlyPrinterPolled(printers: seq<P.Printer>)
    requires |printers| == 1 && printers[0].state == P.Idle
    ensures P.Pollable(printers) == [printers[0].config]
  {
    assert printers[1..] == [];
  }

  lemma OnlyPrinterNamed(printers: seq<P.Printer>)
    requires |printers| == 1
    ensures P.Named(printers, printers[0].config.name) == 0
  {
    assert P.Names(printers) == [printers[0].config.name];
  }

  lemma LoadOnly(s: Sys, printer: string, media: P.ReadyMedia)
    requires |s.printers| == 1 && s.printers[0].config.name == printer
    ensures var s' := Next(s, LoadMedia(printer, media));
            && |s'.printers| == 1 && s'.printers[0].config.name == printer
            && s'.printers[0].config.mediaNames != [] && s'.printers[0].config.mediaNames[0] == media.name
            && s' == s.(printers := s'.printers, media := s.media + [MediaOwes])
  {
    OnlyPrinterNamed(s.printers);
  }

  lemma AfterTwo(s: Sys, a: Action, b: Action)
    ensures Lifecycle.After(s, [a] + [b]) == Next(Next(s, a), b)
  {
    AfterSnoc(s, [], a);
    assert [] + [a] == [a];
    AfterSnoc(s, [a], b);
  }

  lemma FirstSaveUnderway(s: Sys, printer: string, a: P.ReadyMedia)
    requires Init(s) && |s.printers| == 1 && s.printers[0].config.name == printer
    ensures var s2 := Lifecycle.After(s, [LoadMedia(printer, a)] + [MediaSave(0)]);
            && |s2.printers| == 1 && s2.printers[0].config.name == printer
            && s2.printers[0].config.mediaNames != [] && s2.printers[0].config.mediaNames[0] == a.name
            && s2.media == [MediaSaving(P.Configs(s2.printers))] && s2.poller.Resting? && s2.workers == []
  {
    AfterTwo(s, LoadMedia(printer, a), MediaSave(0));
    LoadOnly(s, printer, a);
  }

  /** Of two form submissions that owe a save, the first takes its snapshot before the second loads. */
  lemma LateFirstSave(s: Sys, printer: string, b: P.ReadyMedia, stale: seq<P.Config>)
    requires |s.printers| == 1 && s.printers[0].config.name == printer && s.media == [MediaSaving(stale)]
    ensures var s1 := Next(s, LoadMedia(printer, b)); var s2 := Next(s1, MediaSave(1)); var s3 := Next(s2, MediaSave(1));
            var s4 := Next(s3, MediaSave(0));
            s4.media == [MediaDone, MediaDone] && s4.disk == stale && s4.printers == s1.printers
            && s4.poller == s.poller && s4.workers == s.workers
  {
    LoadOnly(s, printer, b);
  }

  /** Overlapping saves can leave an old configuration on disk with nobody left to save: the first
      form submission takes its snapshot, the second changes, saves, and then the first writes. */
  lemma OverlappingSavesGoStale(s: Sys, printer: string, a: P.ReadyMedia, b: P.ReadyMedia) returns (run: seq<Action>)
    requires Init(s) && |s.printers| == 1 && s.printers[0].config.name == printer && a.name != b.name
    ensures var s' := Lifecycle.After(s, run);
            s'.media == [MediaDone, MediaDone] && s'.poller.Resting? && s'.workers == [] && s'.disk != P.Configs(s'.printers)
  {
    var r2 := [LoadMedia(printer, a)] + [MediaSave(0)];
    var r3 := r2 + [LoadMedia(printer, b)];
    var r4 := r3 + [MediaSave(1)];
    var r5 := r4 + [MediaSave(1)];
    run := r5 + [MediaSave(0)];
    FirstSaveUnderway(s, printer, a);
    AfterSnoc(s, r2, LoadMedia(printer, b));
    AfterSnoc(s, r3, MediaSave(1));
    AfterSnoc(s, r4, MediaSave(1));
    AfterSnoc(s, r5, MediaSave(0));
    var s2 := Lifecycle.After(s, r2);
    LateFirstSave(s2, printer, b, P.Configs(s2.printers));
    LoadOnly(s2, printer, b);
    assert P.Configs(Lifecycle.After(s, r3).printers)[0].mediaNames[0] == b.name;
    assert P.Configs(s2.printers)[0].mediaNames[0] == a.name;
  }

  // ---- an answer undone ---------------------------------------------------------------------------

  /** One printer, one job and its worker. */
  ghost predicate Solo(s: Sys, w: Worker, j: Job, p: P.Printer, poller: Poller) {
    && s.workers == [w] && s.jobs == [j] && s.printers == [p] && s.poller == poller
    && w.slot == 0 && j.id == 1 && w.printer == p.config.name
  }

  lemma SoloWork(s: Sys, w: Worker, j: Job, p: P.Printer, poller: Poller)
    requires Solo(s, w, j, p, poller) && !w.pc.Start?
    requires !Act(w, Input(j.canceled, P.Configs([p]), ANY)).1.OnJob?
    ensures var (w', effect) := Act(w, Input(j.canceled, P.Configs([p]), ANY));
            (effect.OnPrinter? ==> effect.printerWrite.SetState? || effect.printerWrite.SetReasons?) &&
            Solo(Next(s, Work(0, ANY, 0)), w', j, if effect.OnPrinter? then P.Apply(p, effect.printerWrite) else p, poller)
  {
    OnlyPrinterNamed(s.printers);
    ActOnPrinter(w, Input(j.canceled, P.Configs([p]), ANY));
  }

  /** A started worker prints, and has returned the printer to idle. */
  lemma SoloPrint(s: Sys, w: Worker, j: Job, p: P.Printer, poller: Poller)
    requires Solo(s, w, j, p, poller) && w.pc.Check? && !j.canceled
    ensures var work := Work(0, ANY, 0); var s3 := Next(Next(Next(s, work), work), work);
            Solo(Next(Next(s3, work), work), w.(pc := DoneCheck, attempts := w.attempts + [ANY]), j,
                 p.(reasons := {}, state := P.Idle), poller)
  {
    var work := Work(0, ANY, 0);
    var s1 := Next(s, work);
    var s2 := Next(s1, work);
    var s3 := Next(s2, work);
    var w3 := w.(pc := DoneReasons, attempts := w.attempts + [ANY]);
    SoloWork(s, w, j, p, poller);
    SoloWork(s1, w.(pc := Go), j, p, poller);
    SoloWork(s2, w.(pc := Calling), j, p, poller);
    SoloWork(s3, w3, j, p, poller);
    SoloWork(Next(s3, work), w3.(pc := DoneIdle), j, p.(reasons := {}), poller);
  }

  const OFFLINE_ANSWER := PollAnswer(Some(P.PollStatus({Offline}, None, None)))

  lemma SoloPoll(s: Sys, w: Worker, j: Job, p: P.Printer)
    requires Solo(s, w, j, p, Resting) && p.state == P.Idle
    ensures var s1 := Next(s, PollSnapshot);
            && s1.poller == Polling([p.config], false, {})
            && Solo(Next(s1, OFFLINE_ANSWER), w, j, p.(reasons := {Offline}, state := P.Stopped), Polling([], false, {}))
  {
    OnlyPrinterPolled(s.printers);
    OnlyPrinterNamed(s.printers);
  }

  lemma SoloCancel(s: Sys, w: Worker, j: Job, p: P.Printer, poller: Poller)
    requires Solo(s, w, j, p, poller) && w.pc.DoneCheck? && j.state.Processing?
    ensures var s1 := Next(s, CancelJob(1, 0)); var work := Work(0, ANY, 0);
            var s3 := Next(Next(s1, work), work);
            Solo(Next(Next(s3, work), work), w.(pc := EndCancel), Apply(j, JobWrite.Cancel, 0), p.(reasons := {}, state := P.Idle), poller)
  {
    var work, s1, j1 := Work(0, ANY, 0), Next(s, CancelJob(1, 0)), Apply(j, JobWrite.Cancel, 0);
    assert Solo(s1, w, j1, p, poller);
    var s2 := Next(s1, work);
    var s3 := Next(s2, work);
    SoloWork(s1, w, j1, p, poller);
    SoloWork(s2, w.(pc := ExitCheck), j1, p, poller);
    SoloWork(s3, w.(pc := EndReasons), j1, p, poller);
    SoloWork(Next(s3, work), w.(pc := EndIdle), j1, p.(reasons := {}), poller);
  }

  lemma SoloStart(s: Sys, printer: string)
    requires Init(s) && |s.printers| == 1 && s.printers[0].config.name == printer
    ensures var s1 := Next(Next(s, CreateJob(printer, "", 0)), Spawn(0, printer, 0)); var work := Work(0, ANY, 0);
            Solo(Next(Next(s1, work), work), NewWorker(printer, 0, 0).(pc := Check),
                 Apply(NewJob(1, printer, "", 0), JobWrite.SetState(Processing), 0), s.printers[0].(state := P.Processing), Resting)
  {
    OnlyPrinterNamed(s.printers);
    StartWorker(Next(s, CreateJob(printer, "", 0)), printer);
  }

  lemma AfterTwice(s: Sys, run: seq<Action>, a: Action, b: Action)
    ensures Lifecycle.After(s, run + [a] + [b]) == Next(Next(Lifecycle.After(s, run), a), b)
  {
    AfterSnoc(s, run, a);
    AfterSnoc(s, run + [a], b);
  }

  lemma PrintedBefore(s: Sys, printer: string) returns (run: seq<Action>, w: Worker, j: Job)
    requires Init(s) && |s.printers| == 1 && s.printers[0].config.name == printer
    ensures |run| == 9 && w.pc.DoneCheck? && j.state.Processing?
    ensures Solo(Lifecycle.After(s, run), w, j, s.printers[0].(reasons := {}, state := P.Idle), Resting)
  {
    var work, p := Work(0, ANY, 0), s.printers[0];
    var r2 := [CreateJob(printer, "", 0)] + [Spawn(0, printer, 0)];
    var r4 := r2 + [work] + [work];
    var r7 := r4 + [work] + [work] + [work];
    run := r7 + [work] + [work];
    AfterTwo(s, CreateJob(printer, "", 0), Spawn(0, printer, 0));
    AfterTwice(s, r2, work, work);
    SoloStart(s, printer);
    AfterThrice(s, r4, work);
    AfterTwice(s, r7, work, work);
    w, j := NewWorker(printer, 0, 0).(pc := Check), Apply(NewJob(1, printer, "", 0), JobWrite.SetState(Processing), 0);
    SoloPrint(Lifecycle.After(s, r4), w, j, p.(state := P.Processing), Resting);
    w := w.(pc := DoneCheck, attempts := w.attempts + [ANY]);
  }

  /** No worker starts during the pass, and yet the answer does not last it: the device is offline, the
      printer is stopped, and then a worker that has printed before the pass is canceled, clears the
      reasons and returns the printer to idle. */
  lemma AnswerUndone(s: Sys, printer: string) returns (run: seq<Action>, k: nat)
    requires Init(s) && |s.printers| == 1 && s.printers[0].config.name == printer
    ensures k < |run| && run[k] == OFFLINE_ANSWER
    ensures var s1 := Lifecycle.After(s, run[..k + 1]);
            |s1.printers| == 1 && s1.printers[0].state == P.Stopped && s1.printers[0].reasons == {Offline}
    ensures var s' := Lifecycle.After(s, run);
            && |s'.printers| == 1 && s'.printers[0].state == P.Idle && s'.printers[0].reasons == {}
            && s'.poller == Polling([], false, {})
  {
    var p := s.printers[0].(reasons := {}, state := P.Idle);
    var r9, w, j := PrintedBefore(s, printer);
    var r11 := r9 + [PollSnapshot] + [OFFLINE_ANSWER];
    run, k := r11 + CANCELED, 10;
    AfterTwice(s, r9, PollSnapshot, OFFLINE_ANSWER);
    SoloPoll(Lifecycle.After(s, r9), w, j, p);
    assert run[..11] == r11;
    AfterConcat(s, r11, CANCELED);
    AfterCanceled(Lifecycle.After(s, r11), w, j, p.(reasons := {Offline}, state := P.Stopped), Polling([], false, {}));
  }

  const CANCELED := [CancelJob(1, 0)] + [Work(0, ANY, 0)] + [Work(0, ANY, 0)] + [Work(0, ANY, 0)] + [Work(0, ANY, 0)]

  lemma AfterCanceled(s: Sys, w: Worker, j: Job, p: P.Printer, poller: Poller)
    requires Solo(s, w, j, p, poller) && w.pc.DoneCheck? && j.state.Processing?
    ensures Solo(Lifecycle.After(s, CANCELED), w.(pc := EndCancel), Apply(j, JobWrite.Cancel, 0),
                 p.(reasons := {}, state := P.Idle), poller)
  {
    var work, cancel := Work(0, ANY, 0), CancelJob(1, 0);
    AfterSnoc(s, [], cancel);
    assert [] + [cancel] == [cancel];
    AfterThrice(s, [cancel], work);
    AfterSnoc(s, [cancel] + [work] + [work] + [work], work);
    SoloCancel(s, w, j, p, poller);
  }
}
