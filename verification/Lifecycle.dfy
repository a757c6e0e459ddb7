/** The running server as a transition system: print workers, request handlers, the status poller and
    the media form, interleaved one lock section, flag load or await at a time. */
module Lifecycle {
  import opened Common
  import opened Jobs
  import opened PrintWorkers
  import P = Printers

  /** `started` is a history variable: the printers a worker has started on since the snapshot. */
  datatype Poller =
    | Resting
    | Polling(queue: seq<P.Config>, changed: bool, started: set<string>)
    | PollOwes
    | PollSaving(snapshot: seq<P.Config>)

  /** A media form submission from the moment it has changed the configuration. */
  datatype MediaHandler = MediaOwes | MediaSaving(snapshot: seq<P.Config>) | MediaDone

  datatype Sys = Sys(
    nextId: nat, jobs: seq<Job>, printers: seq<P.Printer>,
    workers: seq<Worker>, poller: Poller, media: seq<MediaHandler>, disk: seq<P.Config>)

  datatype Action =
    | CreateJob(printer: string, owner: string, now: int)       // Print-Job, Create-Job
    | Spawn(slot: nat, printer: string, backoffStart: nat)      // Print-Job, Send-Document
    | CancelJob(id: nat, now: int)                              // Cancel-Job, each step of Cancel-My-Jobs
    | Work(w: nat, outcome: JobOutcome, now: int)
    | PollSnapshot
    | PollAnswer(answer: Option<P.PollStatus>)
    | PollEnd
    | PollSave
    | LoadMedia(printer: string, media: P.ReadyMedia)
    | MediaSave(h: nat)

  predicate CanWork(s: Sys, w: nat) {
    w < |s.workers| && s.workers[w].slot < |s.jobs|
  }

  function InputOf(s: Sys, w: nat, outcome: JobOutcome): Input
    requires CanWork(s, w)
  {
    Input(s.jobs[s.workers[w].slot].canceled, P.Configs(s.printers), outcome)
  }

  function NoteStart(poller: Poller, write: P.PrinterWrite, printer: string): Poller {
    if poller.Polling? && write == P.PrinterWrite.SetState(P.Processing)
    then poller.(started := poller.started + {printer}) else poller
  }

  function WorkStep(s: Sys, w: nat, outcome: JobOutcome, now: int): Sys
    requires CanWork(s, w)
  {
    var worker := s.workers[w];
    var (worker', effect) := Act(worker, InputOf(s, w, outcome));
    var t := s.(workers := s.workers[w := worker']);
    match effect
    case Quiet => t
    case OnPrinter(write) =>
      t.(printers := P.Write(s.printers, worker.printer, write), poller := NoteStart(s.poller, write, worker.printer))
    case OnJob(write) => t.(jobs := Write(s.jobs, s.jobs[worker.slot].id, write, now))
    case BeginSave => t
    case EndSave(snapshot) => t.(disk := snapshot)
  }

  function AnswerStep(s: Sys, answer: Option<P.PollStatus>): Sys
    requires s.poller.Polling? && s.poller.queue != []
  {
    var name := s.poller.queue[0].name;
    var rest := s.poller.(queue := s.poller.queue[1..]);
    var i := P.Named(s.printers, name);
    if answer.None? || i == |s.printers| then s.(poller := rest)
    else s.(printers := P.Write(s.printers, name, P.Poll(answer.value)),
            poller := rest.(changed := rest.changed || P.Polled(s.printers[i], answer.value).1))
  }

  /** One step; an action that is not possible in `s` leaves it as it is. */
  function Next(s: Sys, a: Action): Sys {
    match a
    case CreateJob(printer, owner, now) =>
      s.(nextId := NextId(s.nextId), jobs := s.jobs + [NewJob(s.nextId, printer, owner, now)])
    case Spawn(slot, printer, backoffStart) =>
      if slot < |s.jobs| && P.Named(s.printers, printer) < |s.printers|
      then s.(workers := s.workers + [NewWorker(printer, slot, backoffStart)]) else s
    case CancelJob(id, now) => s.(jobs := Write(s.jobs, id, Cancel, now))
    case Work(w, outcome, now) => if CanWork(s, w) then WorkStep(s, w, outcome, now) else s
    case PollSnapshot => if s.poller.Resting? then s.(poller := Polling(P.Pollable(s.printers), false, {})) else s
    case PollAnswer(answer) => if s.poller.Polling? && s.poller.queue != [] then AnswerStep(s, answer) else s
    case PollEnd =>
      if s.poller.Polling? && s.poller.queue == []
      then s.(poller := if s.poller.changed then PollOwes else Resting) else s
    case PollSave =>
      if s.poller.PollOwes? then s.(poller := PollSaving(P.Configs(s.printers)))
      else if s.poller.PollSaving? then s.(disk := s.poller.snapshot, poller := Resting)
      else s
    case LoadMedia(printer, media) =>
      if P.Named(s.printers, printer) < |s.printers|
      then s.(printers := P.Write(s.printers, printer, P.LoadMedia(media)), media := s.media + [MediaOwes]) else s
    case MediaSave(h) =>
      if h >= |s.media| then s
      else match s.media[h]
        case MediaOwes => s.(media := s.media[h := MediaSaving(P.Configs(s.printers))])
        case MediaSaving(snapshot) => s.(disk := snapshot, media := s.media[h := MediaDone])
        case MediaDone => s
  }

  function After(s: Sys, run: seq<Action>): Sys {
    if run == [] then s else Next(After(s, run[..|run| - 1]), run[|run| - 1])
  }

  lemma AfterSnoc(s: Sys, run: seq<Action>, a: Action)
    ensures After(s, run + [a]) == Next(After(s, run), a)
  {
    assert (run + [a])[..|run|] == run;
  }

  lemma MomentStep(s: Sys, run: seq<Action>, k: nat)
    requires k < |run|
    ensures After(s, run[..k + 1]) == Next(After(s, run[..k]), run[k])
  {
    assert run[..k + 1] == run[..k] + [run[k]];
    AfterSnoc(s, run[..k], run[k]);
  }

  lemma Regroup(a: seq<Action>, front: seq<Action>, last: Action)
    ensures a + (front + [last]) == a + front + [last]
  {
  }

  lemma {:induction false} AfterConcat(s: Sys, a: seq<Action>, b: seq<Action>)
    ensures After(s, a + b) == After(After(s, a), b)
  {
    if b == [] {
      assert a + b == a;
    } else {
      var front, last := b[..|b| - 1], b[|b| - 1];
      AfterConcat(s, a, front);
      Regroup(a, front, last);
      assert b == front + [last];
      AfterSnoc(s, a + front, last);
      AfterSnoc(After(s, a), front, last);
    }
  }

  lemma AfterCons(s: Sys, a: Action, run: seq<Action>)
    ensures After(s, [a] + run) == After(Next(s, a), run)
  {
    AfterSnoc(s, [], a);
    assert [] + [a] == [a];
    AfterConcat(s, [a], run);
  }

  /** A server just bootstrapped: every printer idle and saved. */
  ghost predicate Init(s: Sys) {
    && s.nextId == 1 && s.jobs == [] && s.workers == [] && s.poller.Resting? && s.media == []
    && (forall i :: 0 <= i < |s.printers| ==> s.printers[i].state == P.Idle)
    && s.disk == P.Configs(s.printers)
  }

  // ---- what a job and a worker may look like ------------------------------------------------

  predicate JobOk(j: Job) {
    && (j.state.Terminal() ==> j.completedAt.Some?)
    && (j.state.Canceled? ==> j.canceled)
    && (j.canceled ==> !j.state.Pending?)
    && !j.state.Held?
  }

  /** What no step undoes. */
  predicate Evolves(j: Job, j': Job) {
    && j'.id == j.id && j'.printer == j.printer && j'.owner == j.owner && j'.createdAt == j.createdAt
    && (j.canceled ==> j'.canceled)
    && (j.completedAt.Some? ==> j'.completedAt.Some?)
    && (!j.state.Pending? ==> !j'.state.Pending?)
  }

  /** Every attempt but the last was held. */
  ghost predicate OneFinalOutcome(attempts: seq<JobOutcome>) {
    forall i :: 0 <= i < |attempts| - 1 ==> attempts[i].DeviceUnavailable?
  }

  ghost predicate AllHeld(attempts: seq<JobOutcome>) {
    forall i :: 0 <= i < |attempts| ==> attempts[i].DeviceUnavailable?
  }

  ghost predicate WaitsOk(w: Worker) {
    forall i :: 0 <= i < |w.waits| ==> w.waits[i] == Backoff(w.backoffStart, i)
  }

  /** The worker's history fits where it stands. */
  ghost predicate HistoryOk(w: Worker) {
    && OneFinalOutcome(w.attempts) && WaitsOk(w) && |w.waits| <= |w.attempts| <= |w.waits| + 1
    && match w.pc
       case Start | Started => w.attempts == [] && w.backoff == Backoff(w.backoffStart, 0)
       case Check | Go | Calling =>
         AllHeld(w.attempts) && |w.waits| == |w.attempts| && w.backoff == Backoff(w.backoffStart, |w.attempts|)
       case HoldReasons(_) | HoldState =>
         AllHeld(w.attempts) && |w.waits| + 1 == |w.attempts| && w.backoff == Backoff(w.backoffStart, |w.waits|)
       case Asleep(left) =>
         && AllHeld(w.attempts) && 0 < |w.waits| == |w.attempts| && left <= w.backoff
         && w.backoff == Backoff(w.backoffStart, |w.waits| - 1)
       case Napping(left) =>
         && AllHeld(w.attempts) && 0 < |w.waits| == |w.attempts| && 0 < left <= w.backoff
         && w.backoff == Backoff(w.backoffStart, |w.waits| - 1)
       case DoneReasons | DoneIdle | DoneCheck | DoneState =>
         w.attempts != [] && w.attempts[|w.attempts| - 1].Completed?
       case FailReasons(r, m) => w.attempts != [] && w.attempts[|w.attempts| - 1] == Failed(r, m)
       case FailIdle(r, m) => w.attempts != [] && w.attempts[|w.attempts| - 1] == Failed(r, m)
       case FailState(r, m) => w.attempts != [] && w.attempts[|w.attempts| - 1] == Failed(r, m)
       case _ => true
  }

  /** The worker ends its job for sure; `canceled` is the value of its flag. */
  predicate Ahead(w: Worker, canceled: bool) {
    match w.pc
    case Persist | Saving(_) | Exited => false
    case ExitCheck | EndReasons | EndIdle | EndCancel => canceled
    case _ => true
  }

  /** The worker returns its printer to idle for sure. */
  predicate IdleAhead(w: Worker, canceled: bool) {
    match w.pc
    case DoneCheck | DoneState | FailState(_, _) | EndCancel | Persist | Saving(_) | Exited => false
    case ExitCheck | EndReasons | EndIdle => canceled
    case _ => true
  }

  predicate Ending(w: Worker) {
    w.pc.EndReasons? || w.pc.EndIdle? || w.pc.EndCancel?
  }

  /** The worker has made its first write to the job. */
  predicate Underway(w: Worker) {
    !w.pc.Start? && !w.pc.Started?
  }

  lemma ActIdentity(w: Worker, input: Input)
    ensures var w' := Act(w, input).0;
            w'.slot == w.slot && w'.printer == w.printer && w'.backoffStart == w.backoffStart
  {
  }

  lemma ActOnJob(w: Worker, input: Input)
    ensures var (w', effect) := Act(w, input);
            && (Ahead(w, input.canceled) && !Ahead(w', input.canceled) ==>
                  effect.OnJob? && (effect.jobWrite.SetState? ==> effect.jobWrite.state.Terminal()))
            && (effect.OnJob? && effect.jobWrite.SetState? ==>
                  effect.jobWrite.state in {Processing, ProcessingStopped, JobState.Completed})
            && (effect.OnJob? && effect.jobWrite.SetState? && effect.jobWrite.state.Active() ==> Ahead(w', input.canceled))
            && (Underway(w') ==> Underway(w) || (effect.OnJob? && effect.jobWrite.SetState?))
            && ((Ending(w) ==> input.canceled) ==> (Ending(w') ==> input.canceled))
  {
  }

  lemma ActOnPrinter(w: Worker, input: Input)
    ensures var (w', effect) := Act(w, input);
            && (IdleAhead(w, input.canceled) && !IdleAhead(w', input.canceled) ==> effect == TO_IDLE)
            && (effect.OnPrinter? ==> effect.printerWrite.SetState? || effect.printerWrite.SetReasons?)
            && (effect == OnPrinter(P.PrinterWrite.SetState(P.Processing)) ==> IdleAhead(w', input.canceled))
  {
  }

  lemma CallingHistory(w: Worker, input: Input)
    requires HistoryOk(w) && w.pc.Calling?
    ensures HistoryOk(Act(w, input).0)
  {
  }

  lemma HoldHistory(w: Worker, input: Input)
    requires HistoryOk(w) && w.pc.HoldState?
    ensures HistoryOk(Act(w, input).0)
  {
  }

  lemma SleepHistory(w: Worker, input: Input)
    requires HistoryOk(w) && (w.pc.Asleep? || w.pc.Napping?)
    ensures HistoryOk(Act(w, input).0)
  {
  }

  lemma ActHistory(w: Worker, input: Input)
    requires HistoryOk(w)
    ensures HistoryOk(Act(w, input).0)
  {
    if w.pc.Calling? {
      CallingHistory(w, input);
    } else if w.pc.HoldState? {
      HoldHistory(w, input);
    } else if w.pc.Asleep? || w.pc.Napping? {
      SleepHistory(w, input);
    }
  }

  lemma NewWorkerHistory(printer: string, slot: nat, backoffStart: nat)
    ensures HistoryOk(NewWorker(printer, slot, backoffStart))
  {
  }

  // ---- the invariant ------------------------------------------------------------------------

  function FlagOf(s: Sys, w: nat): bool
    requires CanWork(s, w)
  {
    s.jobs[s.workers[w].slot].canceled
  }

  /** The job worker `w` writes. */
  function JobOf(s: Sys, w: nat): nat
    requires w < |s.workers|
  {
    Target(s.workers[w].slot)
  }

  function PrinterOf(s: Sys, w: nat): nat
    requires w < |s.workers|
  {
    P.Named(s.printers, s.workers[w].printer)
  }

  ghost predicate WellFormed(s: Sys) {
    && Numbered(s.jobs) && s.nextId == IdOf(|s.jobs|)
    && forall w :: 0 <= w < |s.workers| ==>
         s.workers[w].slot < |s.jobs| && P.Named(s.printers, s.workers[w].printer) < |s.printers|
  }

  ghost predicate JobsOk(s: Sys) {
    forall t :: 0 <= t < |s.jobs| ==> JobOk(s.jobs[t])
  }

  ghost predicate WorkersOk(s: Sys)
    requires WellFormed(s)
  {
    forall w :: 0 <= w < |s.workers| ==>
      && HistoryOk(s.workers[w])
      && (Ending(s.workers[w]) ==> FlagOf(s, w))
      && (Underway(s.workers[w]) ==> JobOf(s, w) < |s.jobs| && !s.jobs[JobOf(s, w)].state.Pending?)
  }

  ghost predicate EndsJob(s: Sys, w: nat, t: nat) {
    CanWork(s, w) && JobOf(s, w) == t && Ahead(s.workers[w], FlagOf(s, w))
  }

  /** Every job in Processing or ProcessingStopped has a worker that will end it. */
  ghost predicate NoStuckJob(s: Sys) {
    forall t :: 0 <= t < |s.jobs| && s.jobs[t].state.Active() ==> exists w: nat :: EndsJob(s, w, t)
  }

  ghost predicate IdlesPrinter(s: Sys, w: nat, p: nat) {
    CanWork(s, w) && PrinterOf(s, w) == p && IdleAhead(s.workers[w], FlagOf(s, w))
  }

  /** Every printer in Processing has a worker that will return it to idle. */
  ghost predicate NoStuckPrinter(s: Sys) {
    forall p :: 0 <= p < |s.printers| && s.printers[p].state == P.Processing ==> exists w: nat :: IdlesPrinter(s, w, p)
  }

  ghost predicate Inv(s: Sys) {
    WellFormed(s) && JobsOk(s) && WorkersOk(s) && NoStuckJob(s) && NoStuckPrinter(s)
  }

  // ---- writes to jobs ----------------------------------------------------------------------

  /** Writes the system does: nothing is ever set to Pending, Held or (other than by Cancel) Canceled. */
  predicate Orderly(write: JobWrite) {
    write.SetState? ==> write.state in {Processing, ProcessingStopped, JobState.Completed}
  }

  lemma ApplyOrderly(j: Job, write: JobWrite, now: int)
    requires Orderly(write)
    ensures Evolves(j, Apply(j, write, now))
    ensures JobOk(j) ==> JobOk(Apply(j, write, now))
    ensures write.SetState? || write.SetFailure? || write.Cancel?
    ensures !write.SetState? || write.state.Terminal() ==> Apply(j, write, now).state.Terminal()
    ensures Apply(j, write, now).state.Active() ==> write.SetState? && write.state.Active()
    ensures write.SetState? ==> !Apply(j, write, now).state.Pending? && Apply(j, write, now).canceled == j.canceled
  {
  }

  /** Effect of a write on the whole list. */
  lemma WriteJobs(jobs: seq<Job>, id: nat, write: JobWrite, now: int)
    requires Orderly(write)
    ensures var jobs' := Write(jobs, id, write, now); var k := IndexOf(jobs, id);
            && |jobs'| == |jobs|
            && (forall i :: 0 <= i < |jobs| ==> Evolves(jobs[i], jobs'[i]))
            && (forall i :: 0 <= i < |jobs| && i != k ==> jobs'[i] == jobs[i])
            && (k < |jobs| ==> jobs'[k] == Apply(jobs[k], write, now))
            && (Numbered(jobs) ==> Numbered(jobs'))
  {
    var k := IndexOf(jobs, id);
    if k < |jobs| { ApplyOrderly(jobs[k], write, now); }
  }

  lemma TargetInRange(s: Sys, w: nat)
    requires WellFormed(s) && w < |s.workers|
    ensures JobOf(s, w) < |s.jobs| && CanWork(s, w)
    ensures IndexOf(s.jobs, s.jobs[s.workers[w].slot].id) == JobOf(s, w)
  {
    IndexOfNumbered(s.jobs, s.workers[w].slot);
    TargetBounds(s.workers[w].slot);
  }

  /** Nothing a step does makes a witness worse off, except its own last write. */
  lemma AheadKept(w: Worker, canceled: bool, canceled': bool)
    requires canceled ==> canceled'
    ensures Ahead(w, canceled) ==> Ahead(w, canceled')
    ensures IdleAhead(w, canceled) ==> IdleAhead(w, canceled')
  {
  }

  // ---- every step keeps the invariant ---------------------------------------------------------

  /** Steps other than a worker's: the workers stay, flags only rise, no job and no printer becomes
      busy. Then the witnesses stay witnesses. */
  lemma WitnessesKept(s: Sys, s': Sys)
    requires Inv(s) && s.workers <= s'.workers && |s.jobs| <= |s'.jobs| && P.Names(s'.printers) == P.Names(s.printers)
    requires forall t :: 0 <= t < |s.jobs| ==> s.jobs[t].canceled ==> s'.jobs[t].canceled
    requires forall t :: 0 <= t < |s'.jobs| && s'.jobs[t].state.Active() ==> t < |s.jobs| && s.jobs[t].state.Active()
    requires forall p :: 0 <= p < |s'.printers| && s'.printers[p].state == P.Processing ==> s.printers[p].state == P.Processing
    ensures NoStuckJob(s') && NoStuckPrinter(s')
  {
    forall t | 0 <= t < |s'.jobs| && s'.jobs[t].state.Active() ensures exists w: nat :: EndsJob(s', w, t) {
      var w: nat :| EndsJob(s, w, t);
      AheadKept(s.workers[w], FlagOf(s, w), FlagOf(s', w));
      assert EndsJob(s', w, t);
    }
    forall p | 0 <= p < |s'.printers| && s'.printers[p].state == P.Processing ensures exists w: nat :: IdlesPrinter(s', w, p) {
      var w: nat :| IdlesPrinter(s, w, p);
      AheadKept(s.workers[w], FlagOf(s, w), FlagOf(s', w));
      assert IdlesPrinter(s', w, p);
    }
  }

  lemma CreateKeepsInv(s: Sys, printer: string, owner: string, now: int)
    requires Inv(s)
    ensures Inv(Next(s, CreateJob(printer, owner, now)))
  {
    IdOfStep(|s.jobs|);
    WitnessesKept(s, Next(s, CreateJob(printer, owner, now)));
  }

  lemma SpawnKeepsWorkersOk(s: Sys, slot: nat, printer: string, backoffStart: nat)
    requires WellFormed(s) && WorkersOk(s)
    ensures var s' := Next(s, Spawn(slot, printer, backoffStart)); WellFormed(s') && WorkersOk(s')
  {
    NewWorkerHistory(printer, slot, backoffStart);
  }

  lemma SpawnKeepsInv(s: Sys, slot: nat, printer: string, backoffStart: nat)
    requires Inv(s)
    ensures Inv(Next(s, Spawn(slot, printer, backoffStart)))
  {
    SpawnKeepsWorkersOk(s, slot, printer, backoffStart);
    WitnessesKept(s, Next(s, Spawn(slot, printer, backoffStart)));
  }

  lemma CancelKeepsInv(s: Sys, id: nat, now: int)
    requires Inv(s)
    ensures Inv(Next(s, CancelJob(id, now)))
  {
    var s' := Next(s, CancelJob(id, now));
    var k := IndexOf(s.jobs, id);
    WriteJobs(s.jobs, id, Cancel, now);
    if k < |s.jobs| { ApplyOrderly(s.jobs[k], Cancel, now); }
    forall w | 0 <= w < |s.workers|
      ensures FlagOf(s, w) ==> FlagOf(s', w)
      ensures Underway(s.workers[w]) ==> !s'.jobs[JobOf(s', w)].state.Pending?
    {
      TargetInRange(s, w);
      assert Evolves(s.jobs[s.workers[w].slot], s'.jobs[s.workers[w].slot]);
      assert Evolves(s.jobs[JobOf(s, w)], s'.jobs[JobOf(s, w)]);
    }
    WitnessesKept(s, s');
  }

  function EffectOf(s: Sys, w: nat, outcome: JobOutcome): Effect
    requires CanWork(s, w)
  {
    Act(s.workers[w], InputOf(s, w, outcome)).1
  }

  lemma WorkOnWorkers(s: Sys, w: nat, outcome: JobOutcome, now: int)
    requires WellFormed(s) && w < |s.workers|
    ensures var s' := WorkStep(s, w, outcome, now);
            && s'.workers == s.workers[w := Act(s.workers[w], InputOf(s, w, outcome)).0]
            && s'.workers[w].slot == s.workers[w].slot && s'.workers[w].printer == s.workers[w].printer
            && s'.nextId == s.nextId
  {
    ActIdentity(s.workers[w], InputOf(s, w, outcome));
  }

  lemma WorkOnPrinters(s: Sys, w: nat, outcome: JobOutcome, now: int)
    requires WellFormed(s) && w < |s.workers|
    ensures P.Names(WorkStep(s, w, outcome, now).printers) == P.Names(s.printers)
  {
    var effect := EffectOf(s, w, outcome);
    if effect.OnPrinter? {
      P.WriteKeepsNames(s.printers, s.workers[w].printer, effect.printerWrite);
    }
  }

  lemma OrderlyOnJobs(s: Sys, w: nat, effect: Effect, now: int, jobs: seq<Job>)
    requires WellFormed(s) && w < |s.workers| && (effect.OnJob? ==> Orderly(effect.jobWrite))
    requires jobs == if effect.OnJob? then Write(s.jobs, s.jobs[s.workers[w].slot].id, effect.jobWrite, now) else s.jobs
    ensures |jobs| == |s.jobs| && Numbered(jobs)
    ensures forall i :: 0 <= i < |s.jobs| ==> Evolves(s.jobs[i], jobs[i])
    ensures forall i :: 0 <= i < |s.jobs| && i != JobOf(s, w) ==> jobs[i] == s.jobs[i]
    ensures JobOf(s, w) < |s.jobs|
    ensures jobs[JobOf(s, w)] == if effect.OnJob? then Apply(s.jobs[JobOf(s, w)], effect.jobWrite, now) else s.jobs[JobOf(s, w)]
  {
    TargetInRange(s, w);
    if effect.OnJob? {
      WriteJobs(s.jobs, s.jobs[s.workers[w].slot].id, effect.jobWrite, now);
    }
  }

  lemma WorkOnJobs(s: Sys, w: nat, outcome: JobOutcome, now: int)
    requires CanWork(s, w)
    ensures var effect := EffectOf(s, w, outcome);
            && (effect.OnJob? ==> Orderly(effect.jobWrite))
            && WorkStep(s, w, outcome, now).jobs
               == if effect.OnJob? then Write(s.jobs, s.jobs[s.workers[w].slot].id, effect.jobWrite, now) else s.jobs
  {
    ActOnJob(s.workers[w], InputOf(s, w, outcome));
  }

  /** What a worker's step leaves alone: the other workers, the other jobs, the names. */
  lemma WorkFrame(s: Sys, w: nat, outcome: JobOutcome, now: int)
    requires WellFormed(s) && w < |s.workers|
    ensures var s' := WorkStep(s, w, outcome, now); var effect := EffectOf(s, w, outcome);
            && s'.workers == s.workers[w := Act(s.workers[w], InputOf(s, w, outcome)).0]
            && s'.workers[w].slot == s.workers[w].slot && s'.workers[w].printer == s.workers[w].printer
            && P.Names(s'.printers) == P.Names(s.printers)
            && |s'.jobs| == |s.jobs| && s'.nextId == s.nextId && Numbered(s'.jobs)
            && (forall i :: 0 <= i < |s.jobs| ==> Evolves(s.jobs[i], s'.jobs[i]))
            && (forall i :: 0 <= i < |s.jobs| && i != JobOf(s, w) ==> s'.jobs[i] == s.jobs[i])
            && JobOf(s, w) < |s.jobs|
            && s'.jobs[JobOf(s, w)] == (if effect.OnJob? then Apply(s.jobs[JobOf(s, w)], effect.jobWrite, now)
                                        else s.jobs[JobOf(s, w)])
  {
    WorkOnWorkers(s, w, outcome, now);
    WorkOnPrinters(s, w, outcome, now);
    WorkOnJobs(s, w, outcome, now);
    OrderlyOnJobs(s, w, EffectOf(s, w, outcome), now, WorkStep(s, w, outcome, now).jobs);
  }

  lemma WorkKeepsWorkersOk(s: Sys, w: nat, outcome: JobOutcome, now: int)
    requires Inv(s) && w < |s.workers|
    ensures var s' := WorkStep(s, w, outcome, now); WellFormed(s') && JobsOk(s') && WorkersOk(s')
  {
    var s', input, effect := WorkStep(s, w, outcome, now), InputOf(s, w, outcome), EffectOf(s, w, outcome);
    WorkFrame(s, w, outcome, now);
    ActOnJob(s.workers[w], input);
    ActHistory(s.workers[w], input);
    if effect.OnJob? { ApplyOrderly(s.jobs[JobOf(s, w)], effect.jobWrite, now); }
    forall v | 0 <= v < |s'.workers|
      ensures Ending(s'.workers[v]) ==> FlagOf(s', v)
      ensures Underway(s'.workers[v]) ==> JobOf(s', v) < |s'.jobs| && !s'.jobs[JobOf(s', v)].state.Pending?
    {
      TargetInRange(s, v);
      assert Evolves(s.jobs[s.workers[v].slot], s'.jobs[s.workers[v].slot]);
      assert Evolves(s.jobs[JobOf(s, v)], s'.jobs[JobOf(s, v)]);
    }
  }

  lemma WorkKeepsNoStuckJob(s: Sys, w: nat, outcome: JobOutcome, now: int)
    requires Inv(s) && w < |s.workers|
    ensures NoStuckJob(WorkStep(s, w, outcome, now))
  {
    var s', input, effect := WorkStep(s, w, outcome, now), InputOf(s, w, outcome), EffectOf(s, w, outcome);
    WorkFrame(s, w, outcome, now);
    ActOnJob(s.workers[w], input);
    if effect.OnJob? { ApplyOrderly(s.jobs[JobOf(s, w)], effect.jobWrite, now); }
    forall t | 0 <= t < |s'.jobs| && s'.jobs[t].state.Active() ensures exists v: nat :: EndsJob(s', v, t) {
      if t == JobOf(s, w) && effect.OnJob? {
        AheadKept(s'.workers[w], FlagOf(s, w), FlagOf(s', w));
        assert EndsJob(s', w, t);
      } else {
        var v: nat :| EndsJob(s, v, t);
        AheadKept(s'.workers[v], FlagOf(s, v), FlagOf(s', v));
        assert EndsJob(s', v, t);
      }
    }
  }

  lemma WorkKeepsNoStuckPrinter(s: Sys, w: nat, outcome: JobOutcome, now: int)
    requires Inv(s) && w < |s.workers|
    ensures NoStuckPrinter(WorkStep(s, w, outcome, now))
  {
    var s', input, effect := WorkStep(s, w, outcome, now), InputOf(s, w, outcome), EffectOf(s, w, outcome);
    WorkFrame(s, w, outcome, now);
    ActOnPrinter(s.workers[w], input);
    forall p | 0 <= p < |s'.printers| && s'.printers[p].state == P.Processing
      ensures exists v: nat :: IdlesPrinter(s', v, p)
    {
      if s.printers[p].state != P.Processing {
        assert effect.OnPrinter? && p == PrinterOf(s, w) && effect.printerWrite == P.PrinterWrite.SetState(P.Processing);
        AheadKept(s'.workers[w], FlagOf(s, w), FlagOf(s', w));
        assert IdlesPrinter(s', w, p);
      } else {
        var v: nat :| IdlesPrinter(s, v, p);
        AheadKept(s'.workers[v], FlagOf(s, v), FlagOf(s', v));
        assert IdlesPrinter(s', v, p);
      }
    }
  }

  /** A write to a printer that sets no state to Processing, and leaves jobs and workers alone. */
  lemma PrinterWriteKeepsInv(s: Sys, s': Sys, printer: string, write: P.PrinterWrite)
    requires Inv(s) && (write.Poll? || write.LoadMedia?)
    requires s'.printers == P.Write(s.printers, printer, write)
    requires s'.jobs == s.jobs && s'.nextId == s.nextId && s'.workers == s.workers
    ensures Inv(s')
  {
    P.WriteKeepsNames(s.printers, printer, write);
    WitnessesKept(s, s');
  }

  lemma InvOnlyReads(s: Sys, s': Sys)
    requires Inv(s) && s'.printers == s.printers && s'.jobs == s.jobs && s'.nextId == s.nextId && s'.workers == s.workers
    ensures Inv(s')
  {
    WitnessesKept(s, s');
  }

  lemma StepKeepsInv(s: Sys, a: Action)
    requires Inv(s)
    ensures Inv(Next(s, a))
  {
    match a
    case CreateJob(printer, owner, now) => CreateKeepsInv(s, printer, owner, now);
    case Spawn(slot, printer, backoffStart) => SpawnKeepsInv(s, slot, printer, backoffStart);
    case CancelJob(id, now) => CancelKeepsInv(s, id, now);
    case Work(w, outcome, now) =>
      if CanWork(s, w) {
        WorkKeepsWorkersOk(s, w, outcome, now);
        WorkKeepsNoStuckJob(s, w, outcome, now);
        WorkKeepsNoStuckPrinter(s, w, outcome, now);
      }
    case PollAnswer(answer) =>
      if s.poller.Polling? && s.poller.queue != [] && answer.Some? && P.Named(s.printers, s.poller.queue[0].name) < |s.printers| {
        PrinterWriteKeepsInv(s, Next(s, a), s.poller.queue[0].name, P.Poll(answer.value));
      } else {
        InvOnlyReads(s, Next(s, a));
      }
    case LoadMedia(printer, media) =>
      if P.Named(s.printers, printer) < |s.printers| {
        PrinterWriteKeepsInv(s, Next(s, a), printer, P.LoadMedia(media));
      }
    case PollSnapshot => InvOnlyReads(s, Next(s, a));
    case PollEnd => InvOnlyReads(s, Next(s, a));
    case PollSave => InvOnlyReads(s, Next(s, a));
    case MediaSave(h) => InvOnlyReads(s, Next(s, a));
  }

  /** The invariant holds after every run. */
  lemma {:induction false} RunKeepsInv(s: Sys, run: seq<Action>)
    requires Inv(s)
    ensures Inv(After(s, run))
  {
    if run != [] {
      RunKeepsInv(s, run[..|run| - 1]);
      StepKeepsInv(After(s, run[..|run| - 1]), run[|run| - 1]);
    }
  }

  lemma InitInv(s: Sys)
    requires Init(s)
    ensures Inv(s)
  {
  }
}
