/** The print worker of src/server.rs: its control as a machine that takes one lock section, flag
    load or await per step, and its loop, which takes the same steps. Times are in milliseconds. */
module PrintWorkers {
  import opened Common
  import opened Jobs
  import Printers

  datatype JobOutcome = Completed | DeviceUnavailable(reasons: Reasons) | Failed(reasons: Reasons, message: string)

  /** Where a worker stands: each name is what its next step does. */
  datatype Pc =
    | Start                                   // printer to Processing
    | Started                                 // job to Processing
    | Check                                   // load the cancel flag at the head of the loop
    | Go                                      // call the print callback
    | Calling                                 // await its outcome
    | DoneReasons | DoneIdle | DoneCheck | DoneState
    | FailReasons(reasons: Reasons, message: string)
    | FailIdle(reasons: Reasons, message: string)
    | FailState(reasons: Reasons, message: string)
    | HoldReasons(reasons: Reasons) | HoldState
    | Asleep(left: nat) | Napping(left: nat)  // load the flag with `left` to wait; await one slice
    | ExitCheck                               // load the flag after the loop
    | EndReasons | EndIdle | EndCancel
    | Persist | Saving(snapshot: seq<Printers.Config>)
    | Exited

  /** `attempts` are the outcomes so far, `waits` the waits asked for; neither is read by the worker. */
  datatype Worker = Worker(
    printer: string, slot: nat, backoffStart: nat, pc: Pc, backoff: nat,
    attempts: seq<JobOutcome>, waits: seq<nat>)

  /** What a step may read: the job's flag, the live configurations, the callback's outcome. */
  datatype Input = Input(canceled: bool, live: seq<Printers.Config>, outcome: JobOutcome)

  datatype Effect =
    | Quiet
    | OnPrinter(printerWrite: Printers.PrinterWrite)
    | OnJob(jobWrite: JobWrite)
    | BeginSave
    | EndSave(snapshot: seq<Printers.Config>)

  const BACKOFF_MAX: nat := 30000
  const SLICE: nat := 250

  function Min(a: nat, b: nat): nat { if a < b then a else b }

  function NewWorker(printer: string, slot: nat, backoffStart: nat): Worker {
    Worker(printer, slot, backoffStart, Start, Min(backoffStart, BACKOFF_MAX), [], [])
  }

  const TO_IDLE := OnPrinter(Printers.PrinterWrite.SetState(Printers.Idle))

  function Reasoned(reasons: Reasons): Effect {
    OnPrinter(Printers.PrinterWrite.SetReasons(reasons))
  }

  function Act(w: Worker, input: Input): (Worker, Effect) {
    match w.pc
    case Start => (w.(pc := Started), OnPrinter(Printers.PrinterWrite.SetState(Printers.Processing)))
    case Started => (w.(pc := Check), OnJob(JobWrite.SetState(Processing)))
    case Check => (w.(pc := if input.canceled then ExitCheck else Go), Quiet)
    case Go => (w.(pc := Calling), Quiet)
    case Calling =>
      (w.(attempts := w.attempts + [input.outcome],
          pc := match input.outcome
                case Completed => DoneReasons
                case Failed(reasons, message) => FailReasons(reasons, message)
                case DeviceUnavailable(reasons) => HoldReasons(reasons)), Quiet)
    case DoneReasons => (w.(pc := DoneIdle), Reasoned({}))
    case DoneIdle => (w.(pc := DoneCheck), TO_IDLE)
    case DoneCheck => (w.(pc := if input.canceled then ExitCheck else DoneState), Quiet)
    case DoneState => (w.(pc := ExitCheck), OnJob(JobWrite.SetState(JobState.Completed)))
    case FailReasons(reasons, message) => (w.(pc := FailIdle(reasons, message)), Reasoned(reasons))
    case FailIdle(reasons, message) => (w.(pc := FailState(reasons, message)), TO_IDLE)
    case FailState(reasons, message) => (w.(pc := ExitCheck), OnJob(JobWrite.SetFailure(reasons, message)))
    case HoldReasons(reasons) => (w.(pc := HoldState), Reasoned(reasons))
    case HoldState =>
      (w.(pc := Asleep(w.backoff), waits := w.waits + [w.backoff]), OnJob(JobWrite.SetState(ProcessingStopped)))
    case Asleep(left) =>
      if input.canceled then (w.(pc := ExitCheck), Quiet)
      else if left > 0 then (w.(pc := Napping(left)), Quiet)
      else (w.(pc := Check, backoff := Min(2 * w.backoff, BACKOFF_MAX)), Quiet)
    case Napping(left) => (w.(pc := Asleep(left - Min(left, SLICE))), Quiet)
    case ExitCheck => (w.(pc := if input.canceled then EndReasons else Persist), Quiet)
    case EndReasons => (w.(pc := EndIdle), Reasoned({}))
    case EndIdle => (w.(pc := EndCancel), TO_IDLE)
    case EndCancel => (w.(pc := Persist), OnJob(JobWrite.Cancel))
    case Persist => (w.(pc := Saving(input.live)), BeginSave)
    case Saving(snapshot) => (w.(pc := Exited), EndSave(snapshot))
    case Exited => (w, Quiet)
  }

  /** Callbacks started so far. */
  function Starts(w: Worker): nat {
    |w.attempts| + if w.pc.Calling? then 1 else 0
  }

  // ---- back-off ---------------------------------------------------------------------------

  /** The i-th wait, by the capped doubling the loop does. */
  function Backoff(start: nat, i: nat): nat {
    if i == 0 then Min(start, BACKOFF_MAX) else Min(2 * Backoff(start, i - 1), BACKOFF_MAX)
  }

  function Pow2(i: nat): nat {
    if i == 0 then 1 else 2 * Pow2(i - 1)
  }

  lemma DoubleCapped(start: nat, p: nat)
    ensures start * (2 * p) == 2 * (start * p)
    ensures Min(2 * Min(start * p, BACKOFF_MAX), BACKOFF_MAX) == Min(2 * (start * p), BACKOFF_MAX)
  {
  }

  /** Capping at every doubling is capping once. */
  lemma {:induction false} BackoffClosed(start: nat, i: nat)
    ensures Backoff(start, i) == Min(start * Pow2(i), 30000)
  {
    if i > 0 {
      BackoffClosed(start, i - 1);
      DoubleCapped(start, Pow2(i - 1));
    }
  }

  lemma {:induction false} TotalWait(start: nat, waits: seq<nat>)
    requires forall i :: 0 <= i < |waits| ==> waits[i] == Backoff(start, i)
    ensures Sum(waits) <= 30000 * |waits|
  {
    if waits != [] { TotalWait(start, waits[..|waits| - 1]); }
  }

  // ---- the sleep -----------------------------------------------------------------------------

  /** A flag that is loaded now and then and never cleared: `flag(r)` is what load number `r` sees. */
  ghost predicate NeverCleared(flag: nat -> bool) {
    forall r, s :: 0 <= r <= s && flag(r) ==> flag(s)
  }

  /** No load from number `r` up to, not including, number `s` sees the flag. */
  ghost predicate Unseen(flag: nat -> bool, r: nat, s: nat) {
    forall k :: r <= k < s ==> !flag(k)
  }

  /** The naps of an uninterrupted wait. */
  function NapsOf(dur: nat): seq<nat> {
    if dur == 0 then [] else [Min(dur, SLICE)] + NapsOf(dur - Min(dur, SLICE))
  }

  function Sum(s: seq<nat>): nat {
    if s == [] then 0 else Sum(s[..|s| - 1]) + s[|s| - 1]
  }

  lemma NapsCount(dur: nat)
    ensures |NapsOf(dur)| == (dur + SLICE - 1) / SLICE
  {
    if dur > SLICE {
      assert (dur + SLICE - 1) / SLICE == (dur - 1) / SLICE + 1;
    }
  }

  /** After `naps`, with `left` to wait and no load so far having seen the flag. */
  ghost predicate Slept(flag: nat -> bool, r: nat, dur: nat, left: nat, naps: seq<nat>) {
    && left + Sum(naps) == dur && Unseen(flag, r, r + |naps|) && naps + NapsOf(left) == NapsOf(dur)
    && forall i :: 0 <= i < |naps| ==> 0 < naps[i] <= SLICE
  }

  lemma NapAgain(flag: nat -> bool, r: nat, dur: nat, left: nat, naps: seq<nat>)
    requires Slept(flag, r, dur, left, naps) && left > 0 && !flag(r + |naps|)
    ensures var nap := Min(left, SLICE); Slept(flag, r, dur, left - nap, naps + [nap])
  {
    var nap := Min(left, SLICE);
    assert (naps + [nap])[..|naps|] == naps;
    assert naps + ([nap] + NapsOf(left - nap)) == naps + [nap] + NapsOf(left - nap);
  }

  /** The answer of `sleep_cancelable` for a wait of `dur` whose first load of the flag is number `r`:
      its last load; it naps the whole time if no load saw the flag, a whole number of slices before the
      one that did. */
  ghost predicate SleepAnswer(flag: nat -> bool, r: nat, dur: nat, canceled: bool, naps: seq<nat>) {
    && canceled == flag(r + |naps|) && Unseen(flag, r, r + |naps|)
    && (forall i :: 0 <= i < |naps| ==> 0 < naps[i] <= 250)
    && Sum(naps) <= dur && (!canceled ==> Sum(naps) == dur)
    && (canceled <==> flag(r + (dur + 249) / 250))
    && naps <= NapsOf(dur) && (!canceled ==> naps == NapsOf(dur))
  }

  lemma AnswerOf(flag: nat -> bool, r: nat, dur: nat, left: nat, naps: seq<nat>)
    requires NeverCleared(flag) && Slept(flag, r, dur, left, naps) && (left == 0 || flag(r + |naps|))
    ensures SleepAnswer(flag, r, dur, flag(r + |naps|), naps)
  {
    NapsCount(dur);
    assert |naps| + |NapsOf(left)| == |NapsOf(dur)|;
  }

  method SleepCancelable(flag: nat -> bool, r: nat, dur: nat) returns (canceled: bool, naps: seq<nat>)
    requires NeverCleared(flag)
    ensures SleepAnswer(flag, r, dur, canceled, naps)
  {
    var left: nat := dur;
    naps := [];
    while left > 0
      invariant Slept(flag, r, dur, left, naps)
    {
      if flag(r + |naps|) {
        AnswerOf(flag, r, dur, left, naps);
        return true, naps;
      }
      NapAgain(flag, r, dur, left, naps);
      var nap := Min(left, SLICE);
      naps := naps + [nap];
      left := left - nap;
    }
    AnswerOf(flag, r, dur, left, naps);
    canceled := flag(r + |naps|);
  }

  // ---- the loop ------------------------------------------------------------------------------

  /** Runs the machine on `inputs`: the worker and the effects that are not `Quiet`, in order. */
  ghost function Replay(w: Worker, inputs: seq<Input>): (Worker, seq<Effect>) {
    if inputs == [] then (w, [])
    else
      var (w1, log) := Replay(w, inputs[..|inputs| - 1]);
      var (w2, effect) := Act(w1, inputs[|inputs| - 1]);
      (w2, if effect.Quiet? then log else log + [effect])
  }

  /** The inputs drive `w0` to `w`, writing `log`; the flag they show is never cleared again, and
      shown set only if `seen`. */
  ghost predicate Drives(w0: Worker, inputs: seq<Input>, w: Worker, log: seq<Effect>, seen: bool) {
    && Replay(w0, inputs) == (w, log)
    && (forall i, j :: 0 <= i <= j < |inputs| && inputs[i].canceled ==> inputs[j].canceled)
    && (!seen ==> forall i :: 0 <= i < |inputs| ==> !inputs[i].canceled)
  }

  function Logged(log: seq<Effect>, effect: Effect): seq<Effect> {
    if effect.Quiet? then log else log + [effect]
  }

  /** One more step of the machine. */
  lemma Advance(w0: Worker, inputs: seq<Input>, w: Worker, log: seq<Effect>, seen: bool, input: Input, w': Worker, effect: Effect)
    returns (inputs': seq<Input>)
    requires Drives(w0, inputs, w, log, seen) && (seen ==> input.canceled)
    requires Act(w, input) == (w', effect)
    ensures Drives(w0, inputs', w', Logged(log, effect), input.canceled)
  {
    inputs' := inputs + [input];
    assert inputs'[..|inputs'| - 1] == inputs;
  }

  /** An input that shows the flag as `canceled`. */
  function Showing(canceled: bool, live: seq<Printers.Config>): Input {
    Input(canceled, live, JobOutcome.Completed)
  }

  const ENTRY_LOG := [OnPrinter(Printers.PrinterWrite.SetState(Printers.Processing)), OnJob(JobWrite.SetState(Processing))]

  predicate AllUnavailable(script: seq<JobOutcome>, n: nat)
    requires n <= |script|
  {
    forall i :: 0 <= i < n ==> script[i].DeviceUnavailable?
  }

  /** Effects of an uncanceled worker up to the hold of its n-th attempt. */
  function HoldLog(script: seq<JobOutcome>, n: nat): seq<Effect>
    requires n <= |script| && AllUnavailable(script, n)
  {
    if n == 0 then ENTRY_LOG
    else
      HoldLog(script, n - 1) + [Reasoned(script[n - 1].reasons)] + [OnJob(JobWrite.SetState(ProcessingStopped))]
  }

  /** `log`, and then the effects of ending an uncanceled worker on a final outcome. */
  function EndLog(log: seq<Effect>, outcome: JobOutcome): seq<Effect>
    requires !outcome.DeviceUnavailable?
  {
    match outcome
    case Completed => log + [Reasoned({})] + [TO_IDLE] + [OnJob(JobWrite.SetState(JobState.Completed))]
    case Failed(reasons, message) => log + [Reasoned(reasons)] + [TO_IDLE] + [OnJob(JobWrite.SetFailure(reasons, message))]
  }

  // One step of the machine at each point where the loop writes or loads.

  lemma Reason(w0: Worker, inputs: seq<Input>, w: Worker, log: seq<Effect>, canceled: bool,
               live: seq<Printers.Config>, next: Pc, reasons: Reasons)
    returns (inputs': seq<Input>)
    requires Drives(w0, inputs, w, log, canceled)
    requires match w.pc
             case DoneReasons => next == DoneIdle && reasons == {}
             case EndReasons => next == EndIdle && reasons == {}
             case FailReasons(r, m) => next == FailIdle(r, m) && reasons == r
             case HoldReasons(r) => next == HoldState && reasons == r
             case _ => false
    ensures Drives(w0, inputs', w.(pc := next), log + [Reasoned(reasons)], canceled)
  {
    inputs' := Advance(w0, inputs, w, log, canceled, Showing(canceled, live), w.(pc := next), Reasoned(reasons));
  }

  lemma Idle(w0: Worker, inputs: seq<Input>, w: Worker, log: seq<Effect>, canceled: bool, live: seq<Printers.Config>, next: Pc)
    returns (inputs': seq<Input>)
    requires Drives(w0, inputs, w, log, canceled)
    requires match w.pc
             case DoneIdle => next == DoneCheck
             case EndIdle => next == EndCancel
             case FailIdle(r, m) => next == FailState(r, m)
             case _ => false
    ensures Drives(w0, inputs', w.(pc := next), log + [TO_IDLE], canceled)
  {
    inputs' := Advance(w0, inputs, w, log, canceled, Showing(canceled, live), w.(pc := next), TO_IDLE);
  }

  /** The writes to the job that end a phase. */
  lemma EndPhase(w0: Worker, inputs: seq<Input>, w: Worker, log: seq<Effect>, canceled: bool,
                 live: seq<Printers.Config>, next: Pc, write: JobWrite)
    returns (inputs': seq<Input>)
    requires Drives(w0, inputs, w, log, canceled)
    requires match w.pc
             case Started => next == Check && write == JobWrite.SetState(Processing)
             case DoneState => next == ExitCheck && write == JobWrite.SetState(JobState.Completed)
             case FailState(r, m) => next == ExitCheck && write == JobWrite.SetFailure(r, m)
             case EndCancel => next == Persist && write == JobWrite.Cancel
             case _ => false
    ensures Drives(w0, inputs', w.(pc := next), log + [OnJob(write)], canceled)
  {
    inputs' := Advance(w0, inputs, w, log, canceled, Showing(canceled, live), w.(pc := next), OnJob(write));
  }

  lemma HoldJob(w0: Worker, inputs: seq<Input>, w: Worker, log: seq<Effect>, live: seq<Printers.Config>)
    returns (inputs': seq<Input>)
    requires Drives(w0, inputs, w, log, false) && w.pc.HoldState?
    ensures Drives(w0, inputs', w.(pc := Asleep(w.backoff), waits := w.waits + [w.backoff]),
                   log + [OnJob(JobWrite.SetState(ProcessingStopped))], false)
  {
    inputs' := Advance(w0, inputs, w, log, false, Showing(false, live),
                       w.(pc := Asleep(w.backoff), waits := w.waits + [w.backoff]), OnJob(JobWrite.SetState(ProcessingStopped)));
  }

  /** The loads of the flag at the head of the loop, after it, and after a completed callback. */
  lemma LoadFlag(w0: Worker, inputs: seq<Input>, w: Worker, log: seq<Effect>, seen: bool,
                 canceled: bool, live: seq<Printers.Config>, next: Pc)
    returns (inputs': seq<Input>)
    requires Drives(w0, inputs, w, log, seen) && (seen ==> canceled)
    requires match w.pc
             case Check => next == if canceled then ExitCheck else Go
             case DoneCheck => next == if canceled then ExitCheck else DoneState
             case ExitCheck => next == if canceled then EndReasons else Persist
             case _ => false
    ensures Drives(w0, inputs', w.(pc := next), log, canceled)
  {
    inputs' := Advance(w0, inputs, w, log, seen, Showing(canceled, live), w.(pc := next), Quiet);
  }

  lemma Call(w0: Worker, inputs: seq<Input>, w: Worker, log: seq<Effect>, live: seq<Printers.Config>)
    returns (inputs': seq<Input>)
    requires Drives(w0, inputs, w, log, false) && w.pc.Go?
    ensures Drives(w0, inputs', w.(pc := Calling), log, false)
  {
    inputs' := Advance(w0, inputs, w, log, false, Showing(false, live), w.(pc := Calling), Quiet);
  }

  lemma Answer(w0: Worker, inputs: seq<Input>, w: Worker, log: seq<Effect>, outcome: JobOutcome, live: seq<Printers.Config>, next: Pc)
    returns (inputs': seq<Input>)
    requires Drives(w0, inputs, w, log, false) && w.pc.Calling?
    requires next == match outcome
                     case Completed => DoneReasons
                     case Failed(reasons, message) => FailReasons(reasons, message)
                     case DeviceUnavailable(reasons) => HoldReasons(reasons)
    ensures Drives(w0, inputs', w.(pc := next, attempts := w.attempts + [outcome]), log, false)
  {
    inputs' := Advance(w0, inputs, w, log, false, Input(false, live, outcome),
                       w.(pc := next, attempts := w.attempts + [outcome]), Quiet);
  }

  /** The load of the flag that ends the sleep: the flag is up, or the time is over. */
  lemma Wake(w0: Worker, inputs: seq<Input>, w: Worker, log: seq<Effect>, canceled: bool, live: seq<Printers.Config>)
    returns (inputs': seq<Input>)
    requires Drives(w0, inputs, w, log, false) && w.pc.Asleep? && (canceled || w.pc.left == 0)
    ensures Drives(w0, inputs', if canceled then w.(pc := ExitCheck)
                                else w.(pc := Check, backoff := Min(2 * w.backoff, BACKOFF_MAX)), log, canceled)
  {
    inputs' := Advance(w0, inputs, w, log, false, Showing(canceled, live),
                       if canceled then w.(pc := ExitCheck) else w.(pc := Check, backoff := Min(2 * w.backoff, BACKOFF_MAX)), Quiet);
  }

  /** A load of the flag that does not see it, and a nap. */
  lemma Nap(w0: Worker, inputs: seq<Input>, w: Worker, log: seq<Effect>, live: seq<Printers.Config>)
    returns (inputs': seq<Input>)
    requires Drives(w0, inputs, w, log, false) && w.pc.Asleep? && w.pc.left > 0
    ensures Drives(w0, inputs', w.(pc := Asleep(w.pc.left - Min(w.pc.left, SLICE))), log, false)
  {
    inputs' := Advance(w0, inputs, w, log, false, Showing(false, live), w.(pc := Napping(w.pc.left)), Quiet);
    inputs' := Advance(w0, inputs', w.(pc := Napping(w.pc.left)), log, false, Showing(false, live),
                       w.(pc := Asleep(w.pc.left - Min(w.pc.left, SLICE))), Quiet);
  }

  // Each phase of the loop is the machine's: one lemma a phase.

  lemma DriveEntry(w0: Worker, live: seq<Printers.Config>) returns (inputs: seq<Input>)
    requires w0.pc.Start?
    ensures Drives(w0, inputs, w0.(pc := Check), ENTRY_LOG, false)
  {
    var start := OnPrinter(Printers.PrinterWrite.SetState(Printers.Processing));
    inputs := Advance(w0, [], w0, [], false, Showing(false, live), w0.(pc := Started), start);
    assert [] + [start] == [start] && [start] + [OnJob(JobWrite.SetState(Processing))] == ENTRY_LOG;
    inputs := EndPhase(w0, inputs, w0.(pc := Started), [start], false, live, Check, JobWrite.SetState(Processing));
  }

  lemma DriveCall(w0: Worker, inputs: seq<Input>, w: Worker, log: seq<Effect>, outcome: JobOutcome, live: seq<Printers.Config>)
    returns (inputs': seq<Input>, w': Worker)
    requires Drives(w0, inputs, w, log, false) && w.pc.Go?
    ensures Drives(w0, inputs', w', log, false)
    ensures w' == w.(attempts := w.attempts + [outcome],
                     pc := match outcome
                           case Completed => DoneReasons
                           case Failed(reasons, message) => FailReasons(reasons, message)
                           case DeviceUnavailable(reasons) => HoldReasons(reasons))
  {
    inputs' := Call(w0, inputs, w, log, live);
    var next := match outcome
                case Completed => DoneReasons
                case Failed(reasons, message) => FailReasons(reasons, message)
                case DeviceUnavailable(reasons) => HoldReasons(reasons);
    inputs' := Answer(w0, inputs', w.(pc := Calling), log, outcome, live, next);
    w' := w.(pc := next, attempts := w.attempts + [outcome]);
  }

  lemma DriveDone(w0: Worker, inputs: seq<Input>, w: Worker, log: seq<Effect>, log1: seq<Effect>, log2: seq<Effect>,
                  canceled: bool, live: seq<Printers.Config>)
    returns (inputs': seq<Input>)
    requires Drives(w0, inputs, w, log, false) && w.pc.DoneReasons?
    requires log1 == log + [Reasoned({})] && log2 == log1 + [TO_IDLE]
    ensures Drives(w0, inputs', w.(pc := ExitCheck),
                   if canceled then log2 else log2 + [OnJob(JobWrite.SetState(JobState.Completed))], canceled)
  {
    inputs' := Reason(w0, inputs, w, log, false, live, DoneIdle, {});
    inputs' := Idle(w0, inputs', w.(pc := DoneIdle), log1, false, live, DoneCheck);
    inputs' := LoadFlag(w0, inputs', w.(pc := DoneCheck), log2, false, canceled, live, if canceled then ExitCheck else DoneState);
    if !canceled {
      inputs' := EndPhase(w0, inputs', w.(pc := DoneState), log2, false, live, ExitCheck, JobWrite.SetState(JobState.Completed));
    }
  }

  lemma DriveFail(w0: Worker, inputs: seq<Input>, w: Worker, log: seq<Effect>, log1: seq<Effect>, log2: seq<Effect>,
                  live: seq<Printers.Config>, reasons: Reasons, message: string)
    returns (inputs': seq<Input>)
    requires Drives(w0, inputs, w, log, false) && w.pc == FailReasons(reasons, message)
    requires log1 == log + [Reasoned(reasons)] && log2 == log1 + [TO_IDLE]
    ensures Drives(w0, inputs', w.(pc := ExitCheck), log2 + [OnJob(JobWrite.SetFailure(reasons, message))], false)
  {
    inputs' := Reason(w0, inputs, w, log, false, live, FailIdle(reasons, message), reasons);
    inputs' := Idle(w0, inputs', w.(pc := FailIdle(reasons, message)), log1, false, live, FailState(reasons, message));
    inputs' := EndPhase(w0, inputs', w.(pc := FailState(reasons, message)), log2, false, live, ExitCheck,
                        JobWrite.SetFailure(reasons, message));
  }

  lemma DriveHold(w0: Worker, inputs: seq<Input>, w: Worker, log: seq<Effect>, log1: seq<Effect>, live: seq<Printers.Config>,
                  reasons: Reasons)
    returns (inputs': seq<Input>, w': Worker)
    requires Drives(w0, inputs, w, log, false) && w.pc == HoldReasons(reasons) && log1 == log + [Reasoned(reasons)]
    ensures w' == w.(pc := Asleep(w.backoff), waits := w.waits + [w.backoff])
    ensures Drives(w0, inputs', w', log1 + [OnJob(JobWrite.SetState(ProcessingStopped))], false)
  {
    inputs' := Reason(w0, inputs, w, log, false, live, HoldState, reasons);
    inputs' := HoldJob(w0, inputs', w.(pc := HoldState), log1, live);
    w' := w.(pc := Asleep(w.backoff), waits := w.waits + [w.backoff]);
  }

  lemma DriveSleep(w0: Worker, inputs: seq<Input>, w: Worker, log: seq<Effect>, naps: seq<nat>, canceled: bool,
                   live: seq<Printers.Config>)
    returns (inputs': seq<Input>, w': Worker)
    requires Drives(w0, inputs, w, log, false) && w.pc.Asleep?
    requires naps <= NapsOf(w.pc.left) && (!canceled ==> naps == NapsOf(w.pc.left))
    ensures Drives(w0, inputs', w', log, canceled)
    ensures w' == if canceled then w.(pc := ExitCheck)
                  else w.(pc := Check, backoff := Min(2 * w.backoff, BACKOFF_MAX))
    decreases |naps|
  {
    if naps == [] {
      inputs' := Wake(w0, inputs, w, log, canceled, live);
      w' := if canceled then w.(pc := ExitCheck) else w.(pc := Check, backoff := Min(2 * w.backoff, BACKOFF_MAX));
    } else {
      var left := w.pc.left - Min(w.pc.left, SLICE);
      inputs' := Nap(w0, inputs, w, log, live);
      assert NapsOf(left) == NapsOf(w.pc.left)[1..];
      inputs', w' := DriveSleep(w0, inputs', w.(pc := Asleep(left)), log, naps[1..], canceled, live);
    }
  }

  const CANCEL_LOG := [Reasoned({}), TO_IDLE, OnJob(JobWrite.Cancel)]

  lemma CancelLog(log: seq<Effect>)
    ensures log + [Reasoned({})] + [TO_IDLE] + [OnJob(JobWrite.Cancel)] == log + CANCEL_LOG
  {
  }

  lemma DriveCancel(w0: Worker, inputs: seq<Input>, w: Worker, log: seq<Effect>, log1: seq<Effect>, log2: seq<Effect>,
                    live: seq<Printers.Config>)
    returns (inputs': seq<Input>)
    requires Drives(w0, inputs, w, log, true) && w.pc.EndReasons?
    requires log1 == log + [Reasoned({})] && log2 == log1 + [TO_IDLE]
    ensures Drives(w0, inputs', w.(pc := Persist), log2 + [OnJob(JobWrite.Cancel)], true)
  {
    inputs' := Reason(w0, inputs, w, log, true, live, EndIdle, {});
    inputs' := Idle(w0, inputs', w.(pc := EndIdle), log1, true, live, EndCancel);
    inputs' := EndPhase(w0, inputs', w.(pc := EndCancel), log2, true, live, Persist, JobWrite.Cancel);
  }

  lemma DriveSave(w0: Worker, inputs: seq<Input>, w: Worker, log: seq<Effect>, log1: seq<Effect>, canceled: bool,
                  live: seq<Printers.Config>)
    returns (inputs': seq<Input>)
    requires Drives(w0, inputs, w, log, canceled) && w.pc.Persist? && log1 == log + [BeginSave]
    ensures Drives(w0, inputs', w.(pc := Exited), log1 + [EndSave(live)], canceled)
  {
    inputs' := Advance(w0, inputs, w, log, canceled, Showing(canceled, live), w.(pc := Saving(live)), BeginSave);
    inputs' := Advance(w0, inputs', w.(pc := Saving(live)), log1, canceled, Showing(canceled, live), w.(pc := Exited), EndSave(live));
  }

  lemma DriveEnd(w0: Worker, inputs: seq<Input>, w: Worker, log: seq<Effect>, seen: bool, canceled: bool,
                 live: seq<Printers.Config>)
    returns (inputs': seq<Input>)
    requires Drives(w0, inputs, w, log, seen) && w.pc.ExitCheck? && (seen ==> canceled)
    ensures Drives(w0, inputs', w.(pc := Exited), (if canceled then log + CANCEL_LOG else log) + [BeginSave] + [EndSave(live)], canceled)
  {
    inputs' := LoadFlag(w0, inputs, w, log, seen, canceled, live, if canceled then EndReasons else Persist);
    var saved := log;
    if canceled {
      var log1 := log + [Reasoned({})];
      inputs' := DriveCancel(w0, inputs', w.(pc := EndReasons), log, log1, log1 + [TO_IDLE], live);
      CancelLog(log);
      saved := log + CANCEL_LOG;
    }
    inputs' := DriveSave(w0, inputs', w.(pc := Persist), saved, saved + [BeginSave], canceled, live);
  }

  /** One answer of the callback: hold and go round again, or leave the loop. */
  method TakeOutcome(ghost w0: Worker, flag: nat -> bool, r: nat, outcome: JobOutcome, backoff: nat, live: seq<Printers.Config>,
                     log: seq<Effect>, ghost inputs: seq<Input>, ghost w: Worker)
    returns (log': seq<Effect>, loads: nat, canceled: bool, again: bool, ghost inputs': seq<Input>, ghost w': Worker)
    requires NeverCleared(flag) && 0 < r && !flag(r - 1)
    requires Drives(w0, inputs, w, log, false) && w.pc.Go? && w.backoff == backoff
    ensures Drives(w0, inputs', w', log', canceled)
    ensures r <= loads && canceled == flag(loads - 1)
    ensures again ==>
      && outcome.DeviceUnavailable? && !canceled
      && log' == log + [Reasoned(outcome.reasons)] + [OnJob(JobWrite.SetState(ProcessingStopped))]
    ensures !again && !canceled ==> !outcome.DeviceUnavailable? && log' == EndLog(log, outcome)
    ensures w' == w.(attempts := w.attempts + [outcome],
                     waits := if outcome.DeviceUnavailable? then w.waits + [backoff] else w.waits,
                     backoff := if again then Min(2 * backoff, BACKOFF_MAX) else backoff,
                     pc := if again then Check else ExitCheck)
  {
    inputs', w' := DriveCall(w0, inputs, w, log, outcome, live);
    loads, canceled, again := r, false, false;
    match outcome {
      case Completed =>
        log' := log + [Reasoned({})];
        ghost var log1 := log';
        log' := log' + [TO_IDLE];
        canceled := flag(loads);
        loads := loads + 1;
        inputs' := DriveDone(w0, inputs', w', log, log1, log', canceled, live);
        w' := w'.(pc := ExitCheck);
        if !canceled {
          log' := log' + [OnJob(JobWrite.SetState(JobState.Completed))];
        }
      case Failed(reasons, message) =>
        log' := log + [Reasoned(reasons)];
        ghost var log1 := log';
        log' := log' + [TO_IDLE];
        inputs' := DriveFail(w0, inputs', w', log, log1, log', live, reasons, message);
        w' := w'.(pc := ExitCheck);
        log' := log' + [OnJob(JobWrite.SetFailure(reasons, message))];
      case DeviceUnavailable(reasons) =>
        log' := log + [Reasoned(reasons)];
        inputs', w' := DriveHold(w0, inputs', w', log, log', live, reasons);
        log' := log' + [OnJob(JobWrite.SetState(ProcessingStopped))];
        var naps;
        canceled, naps := SleepCancelable(flag, loads, backoff);
        inputs', w' := DriveSleep(w0, inputs', w', log', naps, canceled, live);
        loads := loads + |naps| + 1;
        again := !canceled;
    }
  }

  /** `n` attempts were all held, with their waits and effects. */
  ghost predicate Held(start: nat, script: seq<JobOutcome>, n: nat, waits: seq<nat>, log: seq<Effect>) {
    && n <= |script| && AllUnavailable(script, n) && log == HoldLog(script, n)
    && |waits| == n && forall i :: 0 <= i < n ==> waits[i] == Backoff(start, i)
  }

  /** The head of the loop for the n-th time (from 0), and the machine with it. */
  ghost predicate Round(w0: Worker, script: seq<JobOutcome>, n: nat, backoff: nat, waits: seq<nat>, log: seq<Effect>, w: Worker) {
    && Held(w0.backoffStart, script, n, waits, log) && backoff == Backoff(w0.backoffStart, n)
    && w == w0.(pc := Check, backoff := backoff, attempts := script[..n], waits := waits)
  }

  /** The loop left after `attempts` calls: canceled, on a final outcome, or (`!finished`) about to call
      once more than `script` has answers. */
  ghost predicate LoopLeft(w0: Worker, script: seq<JobOutcome>, attempts: nat, waits: seq<nat>, log: seq<Effect>, w: Worker,
                           canceled: bool, finished: bool)
  {
    && attempts <= |script| && w.attempts == script[..attempts] && w.waits == waits
    && w.pc == (if finished then ExitCheck else Go)
    && (!finished ==> attempts == |script| && AllUnavailable(script, attempts) && !canceled && log == HoldLog(script, attempts))
    && (forall i :: 0 <= i < |waits| ==> waits[i] == Backoff(w0.backoffStart, i))
    && (attempts > 0 ==> AllUnavailable(script, attempts - 1))
    && (finished && !canceled ==>
          && attempts > 0 && !script[attempts - 1].DeviceUnavailable? && |waits| == attempts - 1
          && log == EndLog(HoldLog(script, attempts - 1), script[attempts - 1]))
  }

  lemma RoundAgain(w0: Worker, script: seq<JobOutcome>, n: nat, backoff: nat, waits: seq<nat>, log: seq<Effect>, w: Worker)
    requires Round(w0, script, n, backoff, waits, log, w) && n < |script| && script[n].DeviceUnavailable?
    ensures var backoff' := Min(2 * backoff, BACKOFF_MAX);
            Round(w0, script, n + 1, backoff', waits + [backoff],
                  log + [Reasoned(script[n].reasons)] + [OnJob(JobWrite.SetState(ProcessingStopped))],
                  w.(attempts := w.attempts + [script[n]], waits := waits + [backoff], backoff := backoff'))
  {
    assert script[..n + 1] == script[..n] + [script[n]];
  }

  lemma LeaveAtCheck(w0: Worker, script: seq<JobOutcome>, n: nat, backoff: nat, waits: seq<nat>, log: seq<Effect>, w: Worker,
                     canceled: bool)
    requires Round(w0, script, n, backoff, waits, log, w) && (!canceled ==> n == |script|)
    ensures LoopLeft(w0, script, n, waits, log, w.(pc := if canceled then ExitCheck else Go), canceled, canceled)
  {
  }

  lemma LeaveOnAnswer(w0: Worker, script: seq<JobOutcome>, n: nat, backoff: nat, waits: seq<nat>, log: seq<Effect>, w: Worker,
                      log': seq<Effect>, w': Worker, canceled: bool)
    requires Round(w0, script, n, backoff, waits, log, w) && n < |script|
    requires !canceled ==> !script[n].DeviceUnavailable? && log' == EndLog(log, script[n])
    requires w' == w.(attempts := w.attempts + [script[n]], pc := ExitCheck,
                      waits := if script[n].DeviceUnavailable? then waits + [backoff] else waits)
    ensures LoopLeft(w0, script, n + 1, w'.waits, log', w', canceled, true)
  {
    assert script[..n + 1] == script[..n] + [script[n]];
  }

  /** The retry loop, with its flag loads numbered from 0 and a callback that answers `script`. */
  method RetryLoop(w0: Worker, flag: nat -> bool, script: seq<JobOutcome>, live: seq<Printers.Config>,
                   ghost inputs0: seq<Input>, ghost started: Worker)
    returns (log: seq<Effect>, attempts: nat, waits: seq<nat>, loads: nat, canceled: bool, finished: bool,
             ghost inputs: seq<Input>, ghost w: Worker)
    requires w0 == NewWorker(w0.printer, w0.slot, w0.backoffStart) && NeverCleared(flag)
    requires Drives(w0, inputs0, started, ENTRY_LOG, false) && started == w0.(pc := Check)
    ensures Drives(w0, inputs, w, log, canceled)
    ensures 0 < loads && canceled == flag(loads - 1)
    ensures LoopLeft(w0, script, attempts, waits, log, w, canceled, finished)
  {
    log, attempts, waits, loads, canceled, finished := ENTRY_LOG, 0, [], 0, false, true;
    inputs, w := inputs0, started;
    var backoff := Min(w0.backoffStart, BACKOFF_MAX);
    while true
      invariant Drives(w0, inputs, w, log, false) && finished
      invariant Round(w0, script, attempts, backoff, waits, log, w)
      decreases |script| - attempts
    {
      canceled := flag(loads);
      ghost var go;
      go := w.(pc := if canceled then ExitCheck else Go);
      inputs := LoadFlag(w0, inputs, w, log, false, canceled, live, go.pc);
      loads := loads + 1;
      if canceled || attempts == |script| {
        LeaveAtCheck(w0, script, attempts, backoff, waits, log, w, canceled);
        w, finished := go, canceled;
        return;
      }
      ghost var log0, waits0 := log, waits;
      var outcome, again := script[attempts], false;
      log, loads, canceled, again, inputs, go := TakeOutcome(w0, flag, loads, outcome, backoff, live, log, inputs, go);
      if outcome.DeviceUnavailable? {
        waits := waits + [backoff];
      }
      attempts := attempts + 1;
      if !again {
        LeaveOnAnswer(w0, script, attempts - 1, backoff, waits0, log0, w, log, go, canceled);
        w := go;
        return;
      }
      RoundAgain(w0, script, attempts - 1, backoff, waits0, log0, w);
      w := go;
      backoff := Min(backoff * 2, BACKOFF_MAX);
    }
  }

  /** The worker from spawn to exit. `log` lists what it wrote, `canceled` is what its last load of
      the flag saw. Besides what these are, it takes exactly the machine's steps. */
  method RunWorker(w0: Worker, flag: nat -> bool, script: seq<JobOutcome>, live: seq<Printers.Config>)
    returns (log: seq<Effect>, attempts: nat, waits: seq<nat>, loads: nat, canceled: bool, finished: bool,
             ghost inputs: seq<Input>, ghost w: Worker, ghost body: seq<Effect>)
    requires w0 == NewWorker(w0.printer, w0.slot, w0.backoffStart) && NeverCleared(flag)
    ensures Drives(w0, inputs, w, log, canceled)
    ensures 0 < loads && canceled == flag(loads - 1)
    ensures attempts <= |script| && w.attempts == script[..attempts] && w.waits == waits
    ensures finished <==> w.pc.Exited?
    ensures !finished ==>
      && w.pc.Go? && attempts == |script| && AllUnavailable(script, attempts) && !canceled && log == HoldLog(script, attempts)
    ensures forall i :: 0 <= i < |waits| ==> waits[i] == Backoff(w0.backoffStart, i)
    ensures attempts > 0 ==> AllUnavailable(script, attempts - 1)
    // nobody cancels: one attempt per hold and a last one, and its outcome decides
    ensures finished && !canceled ==>
      && attempts > 0 && !script[attempts - 1].DeviceUnavailable? && |waits| == attempts - 1
      && log == EndLog(HoldLog(script, attempts - 1), script[attempts - 1]) + [BeginSave] + [EndSave(live)]
    // somebody cancels: the last thing written before saving is the cancel
    ensures finished && canceled ==> log == body + CANCEL_LOG + [BeginSave] + [EndSave(live)]
  {
    inputs := DriveEntry(w0, live);
    w := w0.(pc := Check);
    log, attempts, waits, loads, canceled, finished, inputs, w := RetryLoop(w0, flag, script, live, inputs, w);
    body := log;
    if !finished { return; }
    ghost var seen := canceled;
    canceled := flag(loads);
    loads := loads + 1;
    inputs := DriveEnd(w0, inputs, w, log, seen, canceled, live);
    w := w.(pc := Exited);
    if canceled {
      log := log + CANCEL_LOG;
    }
    log := log + [BeginSave];
    log := log + [EndSave(live)];
  }

  // ---- a worker nobody cancels -----------------------------------------------------------------

  /** The job after what `log` writes to it, at clock reading `now`. */
  function JobAfter(j: Job, log: seq<Effect>, now: int): Job {
    if log == [] then j
    else
      var before, last := JobAfter(j, log[..|log| - 1], now), log[|log| - 1];
      if last.OnJob? then Jobs.Apply(before, last.jobWrite, now) else before
  }

  lemma JobAfterSnoc(j: Job, log: seq<Effect>, effect: Effect, now: int)
    ensures JobAfter(j, log + [effect], now)
         == if effect.OnJob? then Jobs.Apply(JobAfter(j, log, now), effect.jobWrite, now) else JobAfter(j, log, now)
  {
    assert (log + [effect])[..|log|] == log;
  }

  /** The printer after what `log` writes to it. */
  function PrinterAfter(p: Printers.Printer, log: seq<Effect>): Printers.Printer {
    if log == [] then p
    else
      var before, last := PrinterAfter(p, log[..|log| - 1]), log[|log| - 1];
      if last.OnPrinter? then Printers.Apply(before, last.printerWrite) else before
  }

  lemma PrinterAfterSnoc(p: Printers.Printer, log: seq<Effect>, effect: Effect)
    ensures PrinterAfter(p, log + [effect])
         == if effect.OnPrinter? then Printers.Apply(PrinterAfter(p, log), effect.printerWrite) else PrinterAfter(p, log)
  {
    assert (log + [effect])[..|log|] == log;
  }

  /** The entry: printer and job go to Processing. */
  lemma EntryLogMeans(p: Printers.Printer, j: Job, now: int)
    ensures PrinterAfter(p, ENTRY_LOG) == p.(state := Printers.Processing)
    ensures JobAfter(j, ENTRY_LOG, now) == j.(state := Processing)
  {
    var first, second := ENTRY_LOG[0], ENTRY_LOG[1];
    assert ENTRY_LOG == [] + [first] + [second];
    PrinterAfterSnoc(p, [], first);
    PrinterAfterSnoc(p, [] + [first], second);
    JobAfterSnoc(j, [], first, now);
    JobAfterSnoc(j, [] + [first], second, now);
  }

  /** Held: the printer stays Processing and shows the reasons of the last attempt, the job is
      ProcessingStopped; nothing else of them is touched. */
  lemma {:induction false} HoldLogMeans(p: Printers.Printer, j: Job, script: seq<JobOutcome>, n: nat, now: int)
    requires n <= |script| && AllUnavailable(script, n)
    ensures PrinterAfter(p, HoldLog(script, n))
         == p.(state := Printers.Processing, reasons := if n == 0 then p.reasons else script[n - 1].reasons)
    ensures JobAfter(j, HoldLog(script, n), now) == j.(state := if n == 0 then Processing else ProcessingStopped)
  {
    if n == 0 {
      EntryLogMeans(p, j, now);
    } else {
      var log, reasons, hold := HoldLog(script, n - 1), Reasoned(script[n - 1].reasons), OnJob(JobWrite.SetState(ProcessingStopped));
      HoldLogMeans(p, j, script, n - 1, now);
      PrinterAfterSnoc(p, log, reasons);
      PrinterAfterSnoc(p, log + [reasons], hold);
      JobAfterSnoc(j, log, reasons, now);
      JobAfterSnoc(j, log + [reasons], hold, now);
    }
  }

  lemma HoldLogPrinter(p: Printers.Printer, script: seq<JobOutcome>, n: nat)
    requires n <= |script| && AllUnavailable(script, n)
    ensures var q := PrinterAfter(p, HoldLog(script, n));
            q.config == p.config && q.readyMedia == p.readyMedia && q.supplyPercent == p.supplyPercent
  {
    HoldLogMeans(p, Jobs.NewJob(1, "", "", 0), script, n, 0);
  }

  /** A printer returned to idle with these reasons, and otherwise untouched. */
  predicate Returned(p: Printers.Printer, p': Printers.Printer, reasons: Reasons) {
    p' == Printers.Printer(p.config, Printers.Idle, reasons, p.readyMedia, p.supplyPercent)
  }

  lemma Settles(p: Printers.Printer, log: seq<Effect>, reasons: Reasons, last: Effect, live: seq<Printers.Config>)
    requires !last.OnPrinter?
    ensures var p1 := PrinterAfter(p, log);
            Returned(p1, PrinterAfter(p, log + [Reasoned(reasons)] + [TO_IDLE] + [last] + [BeginSave] + [EndSave(live)]), reasons)
  {
    var log1 := log + [Reasoned(reasons)];
    PrinterAfterSnoc(p, log, Reasoned(reasons));
    PrinterAfterSnoc(p, log1, TO_IDLE);
    PrinterAfterSnoc(p, log1 + [TO_IDLE], last);
    PrinterAfterSnoc(p, log1 + [TO_IDLE] + [last], BeginSave);
    PrinterAfterSnoc(p, log1 + [TO_IDLE] + [last] + [BeginSave], EndSave(live));
  }

  /** Ended on an answer: the printer is returned, without reasons or with the failure's. */
  lemma EndLogReturns(p: Printers.Printer, log: seq<Effect>, outcome: JobOutcome, live: seq<Printers.Config>)
    requires !outcome.DeviceUnavailable?
    ensures Returned(PrinterAfter(p, log), PrinterAfter(p, EndLog(log, outcome) + [BeginSave] + [EndSave(live)]),
                     if outcome.Completed? then {} else outcome.reasons)
  {
    Settles(p, log, if outcome.Completed? then {} else outcome.reasons,
            if outcome.Completed? then OnJob(JobWrite.SetState(JobState.Completed))
            else OnJob(JobWrite.SetFailure(outcome.reasons, outcome.message)), live);
  }

  /** Ended by a cancel: the printer is returned without reasons, and the job is finished, Canceled unless
      it was before. */
  lemma CancelLogMeans(p: Printers.Printer, j: Job, log: seq<Effect>, live: seq<Printers.Config>, now: int)
    ensures var ended := log + CANCEL_LOG + [BeginSave] + [EndSave(live)]; var j1 := JobAfter(j, log, now);
            && Returned(PrinterAfter(p, log), PrinterAfter(p, ended), {})
            && JobAfter(j, ended, now) == if j1.state.Terminal() then j1
                                          else j1.(state := Canceled, completedAt := Some(now), canceled := true)
  {
    var log2, cancel := log + [Reasoned({})] + [TO_IDLE], OnJob(JobWrite.Cancel);
    CancelLog(log);
    Settles(p, log, {}, cancel, live);
    JobAfterSnoc(j, log, Reasoned({}), now);
    JobAfterSnoc(j, log + [Reasoned({})], TO_IDLE, now);
    JobAfterSnoc(j, log2, cancel, now);
    JobAfterSnoc(j, log2 + [cancel], BeginSave, now);
    JobAfterSnoc(j, log2 + [cancel] + [BeginSave], EndSave(live), now);
  }

  /** What a final outcome makes of the job. */
  predicate EndsAs(j: Job, outcome: JobOutcome) {
    match outcome
    case Completed => j.state.Completed?
    case Failed(reasons, message) => j.state.Aborted? && j.reasons == reasons && j.message == message
    case DeviceUnavailable(_) => false
  }

  lemma EndLogEnds(j: Job, log: seq<Effect>, outcome: JobOutcome, live: seq<Printers.Config>, now: int)
    requires !outcome.DeviceUnavailable?
    ensures EndsAs(JobAfter(j, EndLog(log, outcome) + [BeginSave] + [EndSave(live)], now), outcome)
  {
    var end := EndLog(log, outcome);
    var front, last := end[..|end| - 1], end[|end| - 1];
    assert front + [last] == end;
    JobAfterSnoc(j, front, last, now);
    JobAfterSnoc(j, end, BeginSave, now);
    JobAfterSnoc(j, end + [BeginSave], EndSave(live), now);
  }

  lemma UncanceledMeans(start: nat, script: seq<JobOutcome>, k: nat, attempts: nat, waits: seq<nat>)
    requires k < |script| && AllUnavailable(script, k) && !script[k].DeviceUnavailable?
    requires 0 < attempts <= |script| && AllUnavailable(script, attempts - 1) && !script[attempts - 1].DeviceUnavailable?
    requires |waits| == attempts - 1 && forall i :: 0 <= i < |waits| ==> waits[i] == Backoff(start, i)
    ensures attempts == k + 1
    ensures forall i :: 0 <= i < |waits| ==> waits[i] == Min(start * Pow2(i), 30000)
    ensures Sum(waits) <= 30000 * |waits|
  {
    TotalWait(start, waits);
    forall i | 0 <= i < |waits| ensures waits[i] == Min(start * Pow2(i), 30000) {
      BackoffClosed(start, i);
    }
  }

  /** A worker that is held `k` times and then answered for good, with nobody canceling. */
  method RunUncanceled(w0: Worker, flag: nat -> bool, script: seq<JobOutcome>, k: nat, live: seq<Printers.Config>)
    returns (log: seq<Effect>, attempts: nat, waits: seq<nat>)
    requires w0 == NewWorker(w0.printer, w0.slot, w0.backoffStart) && forall r :: !flag(r)
    requires k < |script| && AllUnavailable(script, k) && !script[k].DeviceUnavailable?
    ensures attempts == k + 1 && |waits| == k
    ensures forall i :: 0 <= i < k ==> waits[i] == Min(w0.backoffStart * Pow2(i), 30000)
    ensures Sum(waits) <= 30000 * k
    ensures forall j, now :: EndsAs(JobAfter(j, log, now), script[k])
    ensures forall p :: Returned(p, PrinterAfter(p, log), if script[k].Completed? then {} else script[k].reasons)
  {
    var loads, canceled, finished;
    ghost var inputs, w, body;
    log, attempts, waits, loads, canceled, finished, inputs, w, body := RunWorker(w0, flag, script, live);
    UncanceledMeans(w0.backoffStart, script, k, attempts, waits);
    forall j, now ensures EndsAs(JobAfter(j, log, now), script[k]) {
      EndLogEnds(j, HoldLog(script, k), script[k], live, now);
    }
    forall p ensures Returned(p, PrinterAfter(p, log), if script[k].Completed? then {} else script[k].reasons) {
      EndLogReturns(p, HoldLog(script, k), script[k], live);
      HoldLogPrinter(p, script, k);
    }
  }
}
