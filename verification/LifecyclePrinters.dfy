/** Who changes the state of a printer: how long a worker's start and a poll answer last. */
module LifecyclePrinters {
  import opened Common
  import opened PrintWorkers
  import opened Lifecycle
  import opened LifecycleRuns
  import P = Printers

  /** `p` is the printer that is found by its name. */
  predicate FirstOf(printers: seq<P.Printer>, p: nat) {
    p < |printers| && P.Named(printers, printers[p].config.name) == p
  }

  lemma WorkKeepsNames(s: Sys, w: nat, outcome: JobOutcome, now: int)
    requires CanWork(s, w)
    ensures P.Names(WorkStep(s, w, outcome, now).printers) == P.Names(s.printers)
  {
    var effect := EffectOf(s, w, outcome);
    if effect.OnPrinter? { P.WriteKeepsNames(s.printers, s.workers[w].printer, effect.printerWrite); }
  }

  lemma StepKeepsNames(s: Sys, a: Action)
    ensures P.Names(Next(s, a).printers) == P.Names(s.printers)
  {
    if a.Work? {
      if CanWork(s, a.w) { WorkKeepsNames(s, a.w, a.outcome, a.now); }
    } else if a.LoadMedia? {
      P.WriteKeepsNames(s.printers, a.printer, P.LoadMedia(a.media));
    } else if a.PollAnswer? && a.answer.Some? && s.poller.Polling? && s.poller.queue != [] {
      P.WriteKeepsNames(s.printers, s.poller.queue[0].name, P.Poll(a.answer.value));
    }
  }

  lemma {:induction false} RunKeepsNames(s: Sys, run: seq<Action>)
    ensures P.Names(Lifecycle.After(s, run).printers) == P.Names(s.printers)
  {
    if run != [] {
      RunKeepsNames(s, run[..|run| - 1]);
      StepKeepsNames(Lifecycle.After(s, run[..|run| - 1]), run[|run| - 1]);
    }
  }

  lemma SameNames(a: seq<P.Printer>, b: seq<P.Printer>, p: nat)
    requires P.Names(a) == P.Names(b) && p < |a|
    ensures |b| == |a| && b[p].config.name == a[p].config.name && (FirstOf(a, p) <==> FirstOf(b, p))
  {
    assert P.Names(a)[p] == P.Names(b)[p];
  }

  // ---- one step -----------------------------------------------------------------------------------

  /** The step is an answer of the poll of `name`. */
  predicate AnswersFor(s: Sys, a: Action, name: string) {
    a.PollAnswer? && s.poller.Polling? && s.poller.queue != [] && s.poller.queue[0].name == name
  }

  /** The step writes the answer of a poll to printer `p`. */
  predicate AnswerReaches(s: Sys, a: Action, p: nat)
    requires p < |s.printers|
  {
    AnswersFor(s, a, s.printers[p].config.name) && a.answer.Some?
  }

  /** The step is a worker's write to printer `p`. */
  predicate WorkReaches(s: Sys, a: Action, p: nat) {
    a.Work? && CanWork(s, a.w) && EffectOf(s, a.w, a.outcome).OnPrinter? && PrinterOf(s, a.w) == p
  }

  /** The step is a worker's write to the state of printer `p`. */
  predicate WritesState(s: Sys, a: Action, p: nat) {
    WorkReaches(s, a, p) && EffectOf(s, a.w, a.outcome).printerWrite.SetState?
  }

  predicate Returns(s: Sys, a: Action, p: nat) {
    WorkReaches(s, a, p) && EffectOf(s, a.w, a.outcome) == TO_IDLE
  }

  lemma ActStates(w: Worker, input: Input)
    ensures var (w', effect) := Act(w, input);
            && (effect.OnPrinter? && effect.printerWrite.SetState? ==>
                  effect == TO_IDLE || (effect.printerWrite.state == P.Processing && w.pc.Start?))
            && (effect == TO_IDLE <==> w.pc.DoneIdle? || w.pc.FailIdle? || w.pc.EndIdle?)
  {
  }

  lemma WriteAt(printers: seq<P.Printer>, name: string, write: P.PrinterWrite, p: nat)
    requires FirstOf(printers, p)
    ensures P.Write(printers, name, write)[p]
         == if P.Named(printers, name) == p then P.Apply(printers[p], write) else printers[p]
  {
  }

  /** What a step makes of the printer: an answer, a worker's write, a media load, or nothing. */
  lemma StepAt(s: Sys, a: Action, p: nat)
    requires FirstOf(s.printers, p)
    ensures FirstOf(Next(s, a).printers, p)
    ensures Next(s, a).printers[p].config.name == s.printers[p].config.name
    ensures Next(s, a).printers[p]
         == if AnswerReaches(s, a, p) then P.Polled(s.printers[p], a.answer.value).0
            else if WorkReaches(s, a, p) then P.Apply(s.printers[p], EffectOf(s, a.w, a.outcome).printerWrite)
            else if a.LoadMedia? && P.Named(s.printers, a.printer) == p then P.SetReadyMedia(s.printers[p], a.media).0
            else s.printers[p]
  {
    StepKeepsNames(s, a);
    SameNames(s.printers, Next(s, a).printers, p);
    if a.Work? && CanWork(s, a.w) {
      var effect := EffectOf(s, a.w, a.outcome);
      if effect.OnPrinter? { WriteAt(s.printers, s.workers[a.w].printer, effect.printerWrite, p); }
    } else if a.LoadMedia? {
      WriteAt(s.printers, a.printer, P.LoadMedia(a.media), p);
    } else if a.PollAnswer? && a.answer.Some? && s.poller.Polling? && s.poller.queue != [] {
      WriteAt(s.printers, s.poller.queue[0].name, P.Poll(a.answer.value), p);
    }
  }

  /** The state of a printer changes by answers and by workers' writes of the state alone; those make
      it Processing or Idle. */
  lemma StateAt(s: Sys, a: Action, p: nat)
    requires FirstOf(s.printers, p)
    ensures FirstOf(Next(s, a).printers, p)
    ensures !AnswerReaches(s, a, p) && !WritesState(s, a, p) ==> Next(s, a).printers[p].state == s.printers[p].state
    ensures WritesState(s, a, p) ==> Next(s, a).printers[p].state == if Returns(s, a, p) then P.Idle else P.Processing
    ensures AnswerReaches(s, a, p) ==>
              Next(s, a).printers[p].state == if Offline in a.answer.value.reasons then P.Stopped else P.Idle
  {
    StepAt(s, a, p);
    if a.Work? && CanWork(s, a.w) { ActStates(s.workers[a.w], InputOf(s, a.w, a.outcome)); }
  }

  /** A printing printer stops printing exactly by an answer or by some worker's return to idle. */
  lemma LeavesPrintingExactly(s: Sys, a: Action, p: nat)
    requires FirstOf(s.printers, p) && s.printers[p].state == P.Processing
    ensures Next(s, a).printers[p].state != P.Processing <==> AnswerReaches(s, a, p) || Returns(s, a, p)
  {
    StateAt(s, a, p);
    if a.Work? && CanWork(s, a.w) { ActStates(s.workers[a.w], InputOf(s, a.w, a.outcome)); }
  }

  // ---- how long an answer lasts --------------------------------------------------------------------

  ghost predicate NoAnswerTo(s: Sys, run: seq<Action>, p: nat) {
    forall k :: 0 <= k < |run| ==> !AnswerReachesAt(s, run, k, p)
  }

  ghost predicate AnswerReachesAt(s: Sys, run: seq<Action>, k: nat, p: nat) {
    k < |run| && p < |Lifecycle.After(s, run[..k]).printers| && AnswerReaches(Lifecycle.After(s, run[..k]), run[k], p)
  }

  /** After `k` steps of the run printer `p` is not Stopped. */
  ghost predicate UpAt(s: Sys, run: seq<Action>, k: nat, p: nat) {
    && k <= |run| && p < |Lifecycle.After(s, run[..k]).printers|
    && Lifecycle.After(s, run[..k]).printers[p].state != P.Stopped
  }

  /** The step after `k` others is a worker's write of the state of printer `p`. */
  ghost predicate WritesStateAt(s: Sys, run: seq<Action>, k: nat, p: nat) {
    k < |run| && WritesState(Lifecycle.After(s, run[..k]), run[k], p)
  }

  lemma FirstAt(s: Sys, run: seq<Action>, k: nat, p: nat)
    requires FirstOf(s.printers, p) && k <= |run|
    ensures FirstOf(Lifecycle.After(s, run[..k]).printers, p)
    ensures Lifecycle.After(s, run[..k]).printers[p].config.name == s.printers[p].config.name
  {
    RunKeepsNames(s, run[..k]);
    SameNames(s.printers, Lifecycle.After(s, run[..k]).printers, p);
  }

  lemma {:induction false} UpOnlyWritten(s: Sys, run: seq<Action>, k: nat, p: nat) returns (m: nat)
    requires FirstOf(s.printers, p) && s.printers[p].state == P.Stopped && NoAnswerTo(s, run, p) && UpAt(s, run, k, p)
    ensures WritesStateAt(s, run, m, p)
    decreases k
  {
    assert run[..0] == [];
    assert k > 0;
    m := k - 1;
    MomentStep(s, run, m);
    FirstAt(s, run, m, p);
    StateAt(Lifecycle.After(s, run[..m]), run[m], p);
    assert !AnswerReachesAt(s, run, m, p);
    if !WritesStateAt(s, run, m, p) {
      m := UpOnlyWritten(s, run, m, p);
    }
  }

  lemma WrittenIsUp(s: Sys, run: seq<Action>, k: nat, p: nat)
    requires FirstOf(s.printers, p) && WritesStateAt(s, run, k, p)
    ensures UpAt(s, run, k + 1, p)
  {
    MomentStep(s, run, k);
    FirstAt(s, run, k, p);
    StateAt(Lifecycle.After(s, run[..k]), run[k], p);
  }

  /** A printer left Stopped by an answer is not Stopped at some moment before its next answer, exactly
      if a worker writes its state meanwhile. */
  lemma LeavesStoppedExactly(s: Sys, run: seq<Action>, p: nat)
    requires FirstOf(s.printers, p) && s.printers[p].state == P.Stopped && NoAnswerTo(s, run, p)
    ensures (exists k: nat :: UpAt(s, run, k, p)) <==> (exists k: nat :: WritesStateAt(s, run, k, p))
  {
    if k: nat :| UpAt(s, run, k, p) {
      var m := UpOnlyWritten(s, run, k, p);
    }
    if k: nat :| WritesStateAt(s, run, k, p) {
      WrittenIsUp(s, run, k, p);
    }
  }

  // ---- how long a start lasts -----------------------------------------------------------------------

  /** The worker's last outcome is final. */
  predicate Answered(w: Worker) {
    w.attempts != [] && !w.attempts[|w.attempts| - 1].DeviceUnavailable?
  }

  /** A worker that has started on its printer and not returned it. */
  predicate Holds(w: Worker) {
    match w.pc
    case Start | DoneCheck | DoneState | FailState(_, _) | EndCancel | Persist | Saving(_) | Exited => false
    case ExitCheck | EndReasons | EndIdle => !Answered(w)
    case _ => true
  }

  /** A worker that leaves the loop before it has an answer has seen its flag. */
  ghost predicate LeftCanceled(s: Sys, w: nat) {
    CanWork(s, w) && (s.workers[w].pc.ExitCheck? && !Answered(s.workers[w]) ==> FlagOf(s, w))
  }

  lemma ActHolds(w: Worker, input: Input)
    requires HistoryOk(w) && !w.pc.Start? && (w.pc.ExitCheck? && !Answered(w) ==> input.canceled)
    ensures var (w', effect) := Act(w, input);
            && !w'.pc.Start?
            && (w'.pc.ExitCheck? && !Answered(w') ==> input.canceled)
            && (effect == TO_IDLE ==> !Holds(w'))
            && (effect != TO_IDLE ==> (Holds(w') <==> Holds(w)))
  {
  }

  /** Nothing but worker `w` writes the state of printer `p`. */
  ghost predicate OnlyWriter(s: Sys, run: seq<Action>, w: nat, p: nat) {
    run == [] ||
      var s1, a := Lifecycle.After(s, run[..|run| - 1]), run[|run| - 1];
      && OnlyWriter(s, run[..|run| - 1], w, p)
      && p < |s1.printers| && !AnswerReaches(s1, a, p)
      && (WritesState(s1, a, p) ==> a.w == w)
  }

  /** The printer of worker `w` is Processing exactly if the worker holds it. */
  ghost predicate HeldBy(s: Sys, w: nat, p: nat) {
    && w < |s.workers| && PrinterOf(s, w) == p && FirstOf(s.printers, p)
    && !s.workers[w].pc.Start? && LeftCanceled(s, w)
    && (s.printers[p].state == P.Processing <==> Holds(s.workers[w]))
  }

  lemma OwnStepHolds(s: Sys, w: nat, outcome: JobOutcome, now: int, p: nat)
    requires Inv(s) && HeldBy(s, w, p)
    ensures HeldBy(Next(s, Work(w, outcome, now)), w, p)
  {
    var a := Work(w, outcome, now);
    WorkFrame(s, w, outcome, now);
    ActHolds(s.workers[w], InputOf(s, w, outcome));
    ActStates(s.workers[w], InputOf(s, w, outcome));
    StateAt(s, a, p);
    assert Evolves(s.jobs[s.workers[w].slot], Next(s, a).jobs[s.workers[w].slot]);
  }

  lemma WorkerKept(s: Sys, a: Action, w: nat)
    requires Inv(s) && w < |s.workers| && !(a.Work? && a.w == w)
    ensures var s' := Next(s, a);
            && w < |s'.workers| && s'.workers[w] == s.workers[w] && CanWork(s', w) && (FlagOf(s, w) ==> FlagOf(s', w))
  {
    StepEvolves(s, a);
    if a.Work? && CanWork(s, a.w) { WorkFrame(s, a.w, a.outcome, a.now); }
    assert Evolves(s.jobs[s.workers[w].slot], Next(s, a).jobs[s.workers[w].slot]);
  }

  lemma OtherStepHolds(s: Sys, a: Action, w: nat, p: nat)
    requires Inv(s) && HeldBy(s, w, p) && !(a.Work? && a.w == w)
    requires !AnswerReaches(s, a, p) && !WritesState(s, a, p)
    ensures HeldBy(Next(s, a), w, p)
  {
    StepKeepsNames(s, a);
    StateAt(s, a, p);
    WorkerKept(s, a, w);
  }

  /** From a worker's start on, while no answer and no other worker writes the state of its printer, the
      printer is Processing exactly as long as the worker holds it: through every attempt and every wait,
      up to its own return to idle. */
  lemma {:induction false} PrinterHeldExactly(s: Sys, run: seq<Action>, w: nat, p: nat)
    requires Inv(s) && HeldBy(s, w, p) && OnlyWriter(s, run, w, p)
    ensures HeldBy(Lifecycle.After(s, run), w, p)
  {
    if run != [] {
      var before, a := run[..|run| - 1], run[|run| - 1];
      var s1 := Lifecycle.After(s, before);
      PrinterHeldExactly(s, before, w, p);
      RunKeepsInv(s, before);
      if a.Work? && a.w == w {
        OwnStepHolds(s1, w, a.outcome, a.now, p);
      } else {
        OtherStepHolds(s1, a, w, p);
      }
    }
  }

  /** The start itself. */
  lemma StartHolds(s: Sys, w: nat, outcome: JobOutcome, now: int)
    requires Inv(s) && w < |s.workers| && s.workers[w].pc.Start?
    ensures HeldBy(Next(s, Work(w, outcome, now)), w, PrinterOf(s, w))
  {
    var a, p := Work(w, outcome, now), PrinterOf(s, w);
    WorkFrame(s, w, outcome, now);
    assert s.printers[p].config.name == s.workers[w].printer;
    StateAt(s, a, p);
  }

  /** A worker ends its job, completed, failed or canceled, only after it has returned the printer. */
  lemma FinishedAfterReturn(w: Worker, input: Input)
    requires HistoryOk(w)
    ensures var (w', effect) := Act(w, input);
            effect.OnJob? && (effect.jobWrite.SetState? ==> effect.jobWrite.state.Terminal()) ==>
              !Holds(w) && !Holds(w')
  {
  }
}
