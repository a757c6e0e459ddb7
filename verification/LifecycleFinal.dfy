/** When a finished job stays as it is, and how soon a canceled worker ends. */
module LifecycleFinal {
  import opened Common
  import opened Jobs
  import opened PrintWorkers
  import opened Lifecycle
  import opened LifecycleRuns
  import P = Printers

  /** A document is sent to job `t`. */
  predicate SpawnsOn(a: Action, t: nat) {
    a.Spawn? && Target(a.slot) == t
  }

  ghost predicate NoDocument(run: seq<Action>, t: nat) {
    forall a :: a in run ==> !SpawnsOn(a, t)
  }

  /** Job `t` is in the state it was in before the run. */
  ghost predicate Unchanged(s: Sys, run: seq<Action>, t: nat)
    requires t < |s.jobs|
  {
    var s' := Lifecycle.After(s, run);
    t < |s'.jobs| && s'.jobs[t].state == s.jobs[t].state
  }

  /** What a worker has yet to write leaves a job in the terminal state `end`: a test of where it
      stands and, at its loads of the flag still to come, of the flag. */
  predicate Keeps(w: Worker, canceled: bool, end: JobState) {
    match w.pc
    case Check | Asleep(_) | Napping(_) => canceled
    case DoneReasons | DoneIdle | DoneCheck => canceled || end.Completed?
    case DoneState => end.Completed?
    case FailReasons(_, _) | FailIdle(_, _) | FailState(_, _) => end.Aborted?
    case ExitCheck | EndReasons | EndIdle | EndCancel | Persist | Saving(_) | Exited => true
    case _ => false
  }

  predicate WriteKeeps(write: JobWrite, end: JobState) {
    match write
    case SetState(state) => state == end
    case SetFailure(_, _) => end.Aborted?
    case Cancel => true
  }

  lemma ApplyKeeps(j: Job, write: JobWrite, now: int)
    requires j.state.Terminal()
    ensures Apply(j, write, now).state == j.state <==> WriteKeeps(write, j.state)
  {
  }

  // ---- while every worker keeps it, the job stays ------------------------------------------------

  lemma ActKeeps(w: Worker, input: Input, end: JobState)
    requires end.Terminal() && Keeps(w, input.canceled, end)
    ensures var (w', effect) := Act(w, input);
            Keeps(w', input.canceled, end) && Starts(w') == Starts(w) && (effect.OnJob? ==> WriteKeeps(effect.jobWrite, end))
  {
  }

  lemma KeepsMonotone(w: Worker, canceled: bool, canceled': bool, end: JobState)
    requires Keeps(w, canceled, end) && (canceled ==> canceled')
    ensures Keeps(w, canceled', end)
  {
  }

  /** Job `t` is finished and all its workers keep it so. */
  ghost predicate Final(s: Sys, t: nat) {
    && t < |s.jobs| && s.jobs[t].state.Terminal()
    && forall w :: 0 <= w < |s.workers| && JobOf(s, w) == t ==>
         CanWork(s, w) && Keeps(s.workers[w], FlagOf(s, w), s.jobs[t].state)
  }

  /** Job `t` is final still, in the same state, and its workers have started nothing since `s`. */
  ghost predicate StillFinal(s: Sys, s': Sys, t: nat) {
    && Final(s, t) && Final(s', t) && s'.jobs[t].state == s.jobs[t].state && |s.workers| <= |s'.workers|
    && forall w :: 0 <= w < |s.workers| && JobOf(s, w) == t ==>
         JobOf(s', w) == t && Starts(s'.workers[w]) == Starts(s.workers[w])
  }

  lemma WorkKeepsFinal(s: Sys, w: nat, outcome: JobOutcome, now: int, t: nat)
    requires Inv(s) && Final(s, t) && w < |s.workers|
    ensures StillFinal(s, WorkStep(s, w, outcome, now), t)
  {
    var s', effect, end := WorkStep(s, w, outcome, now), EffectOf(s, w, outcome), s.jobs[t].state;
    WorkFrame(s, w, outcome, now);
    if JobOf(s, w) == t {
      ActKeeps(s.workers[w], InputOf(s, w, outcome), end);
      if effect.OnJob? { ApplyKeeps(s.jobs[t], effect.jobWrite, now); }
    }
    forall v | 0 <= v < |s'.workers| && JobOf(s', v) == t
      ensures CanWork(s', v) && Keeps(s'.workers[v], FlagOf(s', v), end)
    {
      assert CanWork(s, v) && JobOf(s, v) == t;
      assert Evolves(s.jobs[s.workers[v].slot], s'.jobs[s.workers[v].slot]);
      KeepsMonotone(s'.workers[v], FlagOf(s, v), FlagOf(s', v), end);
    }
  }

  lemma CancelKeepsFinal(s: Sys, id: nat, now: int, t: nat)
    requires Inv(s) && Final(s, t)
    ensures StillFinal(s, Next(s, CancelJob(id, now)), t)
  {
    var s' := Next(s, CancelJob(id, now));
    WriteJobs(s.jobs, id, Cancel, now);
    forall v | 0 <= v < |s'.workers| && JobOf(s', v) == t
      ensures CanWork(s', v) && Keeps(s'.workers[v], FlagOf(s', v), s.jobs[t].state)
    {
      assert Evolves(s.jobs[s.workers[v].slot], s'.jobs[s.workers[v].slot]);
      KeepsMonotone(s'.workers[v], FlagOf(s, v), FlagOf(s', v), s.jobs[t].state);
    }
  }

  lemma OthersKeepFinal(s: Sys, s': Sys, t: nat)
    requires Final(s, t) && s.jobs <= s'.jobs && s.workers <= s'.workers
    requires forall w :: |s.workers| <= w < |s'.workers| ==> JobOf(s', w) != t
    ensures StillFinal(s, s', t)
  {
  }

  lemma StepKeepsFinal(s: Sys, a: Action, t: nat)
    requires Inv(s) && Final(s, t) && !SpawnsOn(a, t)
    ensures StillFinal(s, Next(s, a), t)
  {
    if a.CancelJob? {
      CancelKeepsFinal(s, a.id, a.now, t);
    } else if a.Work? && CanWork(s, a.w) {
      WorkKeepsFinal(s, a.w, a.outcome, a.now, t);
    } else {
      OthersKeepFinal(s, Next(s, a), t);
    }
  }

  lemma StillFinalChain(s: Sys, s1: Sys, s2: Sys, t: nat)
    requires StillFinal(s, s1, t) && StillFinal(s1, s2, t)
    ensures StillFinal(s, s2, t)
  {
  }

  /** A final job stays in its state, and starts nothing, until a document is sent to it again. */
  lemma {:induction false} FinalStays(s: Sys, run: seq<Action>, t: nat)
    requires Inv(s) && Final(s, t) && NoDocument(run, t)
    ensures StillFinal(s, Lifecycle.After(s, run), t)
  {
    if run != [] {
      var before := run[..|run| - 1];
      var s1 := Lifecycle.After(s, before);
      FinalStays(s, before, t);
      RunKeepsInv(s, before);
      StepKeepsFinal(s1, run[|run| - 1], t);
      StillFinalChain(s, s1, Lifecycle.After(s, run), t);
    }
  }

  // ---- and no longer ------------------------------------------------------------------------------

  /** Own steps to the next write of the job, when the callback finds the device unavailable. */
  function StepsToWrite(w: Worker): nat {
    match w.pc
    case Start => 2
    case Started => 1
    case Check => 5
    case Go => 4
    case Calling => 3
    case HoldReasons(_) => 2
    case HoldState => 1
    case Asleep(left) => 6 + 2 * left
    case Napping(left) => 5 + 2 * left
    case DoneReasons => 4
    case DoneIdle => 3
    case DoneCheck => 2
    case DoneState => 1
    case FailReasons(_, _) => 3
    case FailIdle(_, _) => 2
    case FailState(_, _) => 1
    case _ => 0
  }

  const UNAVAILABLE := DeviceUnavailable({})

  lemma ActHarms(w: Worker, input: Input, end: JobState)
    requires HistoryOk(w) && end.Terminal() && !Keeps(w, input.canceled, end) && input.outcome == UNAVAILABLE
    ensures var (w', effect) := Act(w, input);
            if effect.OnJob? then !WriteKeeps(effect.jobWrite, end)
            else !Keeps(w', input.canceled, end) && StepsToWrite(w') < StepsToWrite(w)
  {
  }

  /** Worker `w` will take job `t` out of its state. */
  ghost predicate Harms(s: Sys, w: nat, t: nat) {
    && t < |s.jobs| && s.jobs[t].state.Terminal() && CanWork(s, w) && JobOf(s, w) == t
    && !Keeps(s.workers[w], FlagOf(s, w), s.jobs[t].state)
  }

  lemma HarmStep(s: Sys, w: nat, t: nat)
    requires Inv(s) && Harms(s, w, t)
    ensures var s' := Next(s, Work(w, UNAVAILABLE, 0));
            && |s'.jobs| == |s.jobs| && w < |s'.workers|
            && (s'.jobs[t].state == s.jobs[t].state ==>
                  Harms(s', w, t) && StepsToWrite(s'.workers[w]) < StepsToWrite(s.workers[w]))
  {
    var effect := EffectOf(s, w, UNAVAILABLE);
    WorkFrame(s, w, UNAVAILABLE, 0);
    ActHarms(s.workers[w], InputOf(s, w, UNAVAILABLE), s.jobs[t].state);
    if effect.OnJob? { ApplyKeeps(s.jobs[t], effect.jobWrite, 0); }
  }

  lemma {:induction false} HarmRun(s: Sys, w: nat, t: nat) returns (run: seq<Action>)
    requires Inv(s) && Harms(s, w, t)
    ensures NoDocument(run, t) && !Unchanged(s, run, t)
    decreases StepsToWrite(s.workers[w])
  {
    var a := Work(w, UNAVAILABLE, 0);
    var s' := Next(s, a);
    HarmStep(s, w, t);
    var rest := [];
    if s'.jobs[t].state == s.jobs[t].state {
      StepKeepsInv(s, a);
      rest := HarmRun(s', w, t);
    }
    run := [a] + rest;
    AfterCons(s, a, rest);
  }

  /** A finished job stays in its state in every run that sends it no document, exactly if each of
      its workers stands where it keeps the state. */
  lemma FinalExactly(s: Sys, t: nat)
    requires Inv(s) && t < |s.jobs| && s.jobs[t].state.Terminal()
    ensures (forall run :: NoDocument(run, t) ==> Unchanged(s, run, t)) <==> Final(s, t)
  {
    if Final(s, t) {
      forall run | NoDocument(run, t) ensures Unchanged(s, run, t) {
        FinalStays(s, run, t);
      }
    } else {
      var w: nat :| w < |s.workers| && JobOf(s, w) == t && !Keeps(s.workers[w], FlagOf(s, w), s.jobs[t].state);
      var run := HarmRun(s, w, t);
    }
  }

  /** A document sent to a job, finished or not, takes it to Processing. */
  lemma DocumentRestarts(s: Sys, t: nat, printer: string, backoffStart: nat) returns (run: seq<Action>)
    requires Inv(s) && t < |s.jobs| && t < ID_SPAN && P.Named(s.printers, printer) < |s.printers|
    ensures |Lifecycle.After(s, run).jobs| == |s.jobs| && Lifecycle.After(s, run).jobs[t].state.Processing?
  {
    var spawn, work := Spawn(t, printer, backoffStart), Work(|s.workers|, UNAVAILABLE, 0);
    run := [spawn] + ([work] + ([work] + []));
    var s1 := Next(s, spawn);
    var s2 := Next(s1, work);
    AfterCons(s, spawn, [work] + ([work] + []));
    AfterCons(s1, work, [work] + []);
    AfterCons(s2, work, []);
    StepKeepsInv(s, spawn);
    StepKeepsInv(s1, work);
    TargetBounds(t);
    WorkFrame(s1, |s.workers|, UNAVAILABLE, 0);
    WorkFrame(s2, |s.workers|, UNAVAILABLE, 0);
  }

  /** A finished job stays in its state in every run at all, exactly if its workers keep it and no
      document can be sent to it: there is no printer, or the id has gone to an older job. */
  lemma FinalForEver(s: Sys, t: nat)
    requires Inv(s) && t < |s.jobs| && s.jobs[t].state.Terminal()
    ensures (forall run :: Unchanged(s, run, t)) <==> Final(s, t) && (s.printers == [] || t >= ID_SPAN)
  {
    FinalExactly(s, t);
    if t >= ID_SPAN {
      forall run ensures NoDocument(run, t) {
        forall a | a in run ensures !SpawnsOn(a, t) {
          if a.Spawn? { TargetBounds(a.slot); }
        }
      }
    } else if s.printers == [] {
      if Final(s, t) {
        forall run ensures Unchanged(s, run, t) {
          NoPrinterNoDocument(s, run, t);
        }
      }
    } else {
      var name := s.printers[0].config.name;
      assert P.Names(s.printers)[0] == name;
      var run := DocumentRestarts(s, t, name, 0);
      assert !Unchanged(s, run, t);
    }
  }

  lemma {:induction false} NoPrinterNoDocument(s: Sys, run: seq<Action>, t: nat)
    requires Inv(s) && Final(s, t) && s.printers == []
    ensures StillFinal(s, Lifecycle.After(s, run), t) && Lifecycle.After(s, run).printers == []
  {
    if run != [] {
      var before, a := run[..|run| - 1], run[|run| - 1];
      var s1 := Lifecycle.After(s, before);
      NoPrinterNoDocument(s, before, t);
      RunKeepsInv(s, before);
      if a.Spawn? {
        OthersKeepFinal(s1, Next(s1, a), t);
      } else {
        StepKeepsFinal(s1, a, t);
      }
      StillFinalChain(s, s1, Lifecycle.After(s, run), t);
    }
  }

  /** Canceling an unfinished job ends it for good, until a document is sent to it again, exactly if
      each of its workers stands where its flag, raised now, keeps it Canceled. */
  lemma CancelIsFinalExactly(s: Sys, t: nat, now: int)
    requires Inv(s) && t < |s.jobs| && t < ID_SPAN && !s.jobs[t].state.Terminal()
    ensures var s1 := Next(s, CancelJob(s.jobs[t].id, now));
            && |s1.jobs| == |s.jobs| && s1.jobs[t].state.Canceled?
            && ((forall run :: NoDocument(run, t) ==> Unchanged(s1, run, t)) <==>
                 forall w :: 0 <= w < |s.workers| && JobOf(s, w) == t ==>
                   Keeps(s.workers[w], CanWork(s, w) && (s.workers[w].slot == t || FlagOf(s, w)), Canceled))
  {
    var s1 := Next(s, CancelJob(s.jobs[t].id, now));
    LookupExact(s.jobs, t);
    StepKeepsInv(s, CancelJob(s.jobs[t].id, now));
    assert s1.jobs == s.jobs[t := Apply(s.jobs[t], Cancel, now)];
    FinalExactly(s1, t);
    forall w | 0 <= w < |s.workers| ensures FlagOf(s1, w) <==> s.workers[w].slot == t || FlagOf(s, w) {}
  }

  /** A job canceled while all its workers are held, or past their last write, stays canceled for the
      rest of any run that sends it no document, without another attempt. */
  lemma CancelWhileHeld(s: Sys, t: nat, now: int, run: seq<Action>)
    requires Inv(s) && t < |s.jobs| && t < ID_SPAN && !s.jobs[t].state.Terminal()
    requires forall w :: 0 <= w < |s.workers| && JobOf(s, w) == t ==> s.workers[w].slot == t && Keeps(s.workers[w], true, Canceled)
    requires NoDocument(run, t)
    ensures var s1 := Next(s, CancelJob(s.jobs[t].id, now));
            s1.workers == s.workers && s1.jobs[t].state.Canceled? && StillFinal(s1, Lifecycle.After(s1, run), t)
  {
    var s1 := Next(s, CancelJob(s.jobs[t].id, now));
    LookupExact(s.jobs, t);
    StepKeepsInv(s, CancelJob(s.jobs[t].id, now));
    assert s1.jobs[t] == Apply(s.jobs[t], Cancel, now);
    assert Final(s1, t);
    FinalStays(s1, run, t);
  }

  // ---- whether a job can still complete ---------------------------------------------------------------

  /** A worker that may yet write Completed: past its last load of the flag, or on the way with the flag
      down. */
  predicate CanComplete(w: Worker, canceled: bool) {
    match w.pc
    case DoneState => true
    case FailReasons(_, _) | FailIdle(_, _) | FailState(_, _) => false
    case ExitCheck | EndReasons | EndIdle | EndCancel | Persist | Saving(_) | Exited => false
    case _ => !canceled
  }

  /** Some worker of job `t` may yet write Completed. */
  ghost predicate Completable(s: Sys, t: nat) {
    exists w: nat :: Completes(s, w, t)
  }

  ghost predicate Completes(s: Sys, w: nat, t: nat) {
    CanWork(s, w) && JobOf(s, w) == t && CanComplete(s.workers[w], FlagOf(s, w))
  }

  ghost predicate CompletedAfter(s: Sys, run: seq<Action>, t: nat) {
    var s' := Lifecycle.After(s, run);
    t < |s'.jobs| && s'.jobs[t].state.Completed?
  }

  lemma ActCompletes(w: Worker, input: Input)
    ensures var (w', effect) := Act(w, input);
            && (CanComplete(w', input.canceled) ==> CanComplete(w, input.canceled))
            && (effect == OnJob(JobWrite.SetState(JobState.Completed)) ==> CanComplete(w, input.canceled))
  {
  }

  lemma ApplyCompletes(j: Job, write: JobWrite, now: int)
    ensures Apply(j, write, now).state.Completed? ==>
              j.state.Completed? || write == JobWrite.SetState(JobState.Completed)
  {
  }

  lemma WorkKeepsIncomplete(s: Sys, w: nat, outcome: JobOutcome, now: int, t: nat)
    requires Inv(s) && w < |s.workers| && t < |s.jobs| && !s.jobs[t].state.Completed? && !Completable(s, t)
    ensures var s' := WorkStep(s, w, outcome, now);
            |s'.jobs| == |s.jobs| && !s'.jobs[t].state.Completed? && !Completable(s', t)
  {
    var s', effect := WorkStep(s, w, outcome, now), EffectOf(s, w, outcome);
    WorkFrame(s, w, outcome, now);
    ActCompletes(s.workers[w], InputOf(s, w, outcome));
    if JobOf(s, w) == t {
      assert !Completes(s, w, t);
      if effect.OnJob? { ApplyCompletes(s.jobs[t], effect.jobWrite, now); }
    }
    forall v: nat ensures !Completes(s', v, t) {
      if CanWork(s', v) && JobOf(s', v) == t {
        assert !Completes(s, v, t);
        assert Evolves(s.jobs[s.workers[v].slot], s'.jobs[s.workers[v].slot]);
      }
    }
  }

  lemma OthersKeepIncomplete(s: Sys, a: Action, t: nat)
    requires Inv(s) && t < |s.jobs| && !s.jobs[t].state.Completed? && !Completable(s, t) && !SpawnsOn(a, t) && !a.Work?
    ensures var s' := Next(s, a);
            t < |s'.jobs| && !s'.jobs[t].state.Completed? && !Completable(s', t)
  {
    var s' := Next(s, a);
    StepEvolves(s, a);
    if a.CancelJob? && IndexOf(s.jobs, a.id) == t { ApplyCompletes(s.jobs[t], Cancel, a.now); }
    forall v: nat ensures !Completes(s', v, t) {
      if v < |s.workers| {
        assert !Completes(s, v, t);
        assert Evolves(s.jobs[s.workers[v].slot], s'.jobs[s.workers[v].slot]);
      }
    }
  }

  lemma {:induction false} StaysIncomplete(s: Sys, run: seq<Action>, t: nat)
    requires Inv(s) && t < |s.jobs| && !s.jobs[t].state.Completed? && !Completable(s, t) && NoDocument(run, t)
    ensures var s' := Lifecycle.After(s, run);
            t < |s'.jobs| && !s'.jobs[t].state.Completed? && !Completable(s', t)
  {
    if run != [] {
      var before, a := run[..|run| - 1], run[|run| - 1];
      var s1 := Lifecycle.After(s, before);
      StaysIncomplete(s, before, t);
      RunKeepsInv(s, before);
      assert a in run;
      if a.Work? {
        if CanWork(s1, a.w) { WorkKeepsIncomplete(s1, a.w, a.outcome, a.now, t); }
      } else {
        OthersKeepIncomplete(s1, a, t);
      }
    }
  }

  /** Own steps to the write of Completed, when the callback succeeds. */
  function StepsToComplete(w: Worker): nat {
    match w.pc
    case Start => 9
    case Started => 8
    case Check => 7
    case Go => 6
    case Calling => 5
    case DoneReasons => 4
    case DoneIdle => 3
    case DoneCheck => 2
    case DoneState => 1
    case HoldReasons(_) => 10 + 2 * w.backoff
    case HoldState => 9 + 2 * w.backoff
    case Asleep(left) => 8 + 2 * left
    case Napping(left) => 7 + 2 * left
    case _ => 0
  }

  const SUCCESS := JobOutcome.Completed

  lemma ActNearsCompletion(w: Worker, input: Input)
    requires HistoryOk(w) && CanComplete(w, input.canceled) && input.outcome == SUCCESS
    ensures var (w', effect) := Act(w, input);
            || effect == OnJob(JobWrite.SetState(JobState.Completed))
            || (&& CanComplete(w', input.canceled) && StepsToComplete(w') < StepsToComplete(w)
                && (effect.OnJob? ==> effect.jobWrite.SetState?))
  {
  }

  lemma NearsCompletion(s: Sys, w: nat, t: nat)
    requires Inv(s) && Completes(s, w, t)
    ensures var s' := Next(s, Work(w, SUCCESS, 0));
            && t < |s'.jobs| && w < |s'.workers|
            && (s'.jobs[t].state.Completed? || (Completes(s', w, t) && StepsToComplete(s'.workers[w]) < StepsToComplete(s.workers[w])))
  {
    var effect := EffectOf(s, w, SUCCESS);
    WorkFrame(s, w, SUCCESS, 0);
    ActNearsCompletion(s.workers[w], InputOf(s, w, SUCCESS));
    if effect.OnJob? { ApplyOrderly(s.jobs[t], effect.jobWrite, 0); }
  }

  lemma {:induction false} CompletingRun(s: Sys, w: nat, t: nat) returns (run: seq<Action>)
    requires Inv(s) && Completes(s, w, t)
    ensures NoDocument(run, t) && CompletedAfter(s, run, t)
    decreases StepsToComplete(s.workers[w])
  {
    var a := Work(w, SUCCESS, 0);
    var s' := Next(s, a);
    NearsCompletion(s, w, t);
    var rest := [];
    if !s'.jobs[t].state.Completed? {
      StepKeepsInv(s, a);
      rest := CompletingRun(s', w, t);
    }
    run := [a] + rest;
    AfterCons(s, a, rest);
  }

  /** A job that is not Completed can become so, in a run that sends it no document, exactly if one of its
      workers has passed its last load of the flag, or is on the way with the flag down. So a job whose
      flag is raised while it prints never completes, but for a worker just about to write it. */
  lemma CompletesExactly(s: Sys, t: nat)
    requires Inv(s) && t < |s.jobs| && !s.jobs[t].state.Completed?
    ensures (exists run :: NoDocument(run, t) && CompletedAfter(s, run, t)) <==> Completable(s, t)
  {
    if Completable(s, t) {
      var w: nat :| Completes(s, w, t);
      var run := CompletingRun(s, w, t);
    } else {
      forall run | NoDocument(run, t) ensures !CompletedAfter(s, run, t) {
        StaysIncomplete(s, run, t);
      }
    }
  }

  // ---- Cancel-My-Jobs among other actors -------------------------------------------------------------

  /** Step `k` of the run cancels by the id of job `i`; the job the id leads to was finished then, or has
      its flag raised from then on. */
  ghost predicate CanceledAt(s: Sys, run: seq<Action>, k: nat, i: nat)
    requires i < |s.jobs|
  {
    && k < |run| && run[k].CancelJob? && run[k].id == s.jobs[i].id
    && (FinishedAt(s, run, k, Target(i)) || forall m: nat :: k < m <= |run| ==> RaisedAt(s, run, m, Target(i)))
  }

  ghost predicate FinishedAt(s: Sys, run: seq<Action>, k: nat, t: nat)
    requires k <= |run|
  {
    t < |Lifecycle.After(s, run[..k]).jobs| && Lifecycle.After(s, run[..k]).jobs[t].state.Terminal()
  }

  ghost predicate RaisedAt(s: Sys, run: seq<Action>, m: nat, t: nat)
    requires m <= |run|
  {
    t < |Lifecycle.After(s, run[..m]).jobs| && Lifecycle.After(s, run[..m]).jobs[t].canceled
  }

  lemma CancelRaises(s: Sys, i: nat, now: int)
    requires Inv(s) && i < |s.jobs|
    ensures var s' := Next(s, CancelJob(s.jobs[i].id, now)); var t := Target(i);
            && t < |s.jobs| && |s'.jobs| == |s.jobs|
            && (s.jobs[t].state.Terminal() || (s'.jobs[t].canceled && s'.jobs[t].state.Canceled?))
  {
    IndexOfNumbered(s.jobs, i);
    TargetBounds(i);
  }

  lemma RaisedStays(s: Sys, run: seq<Action>, k: nat, m: nat, t: nat)
    requires Inv(s) && k <= m <= |run| && RaisedAt(s, run, k, t)
    ensures RaisedAt(s, run, m, t)
  {
    var s1 := Lifecycle.After(s, run[..k]);
    RunKeepsInv(s, run[..k]);
    assert run[..m] == run[..k] + run[k..m];
    AfterConcat(s, run[..k], run[k..m]);
    RunEvolves(s1, run[k..m]);
    assert Evolves(s1.jobs[t], Lifecycle.After(s, run[..m]).jobs[t]);
  }

  lemma CancelStep(s: Sys, run: seq<Action>, k: nat, i: nat)
    requires Inv(s) && i < |s.jobs| && k < |run| && run[k].CancelJob? && run[k].id == s.jobs[i].id
    ensures CanceledAt(s, run, k, i)
  {
    var s1, t := Lifecycle.After(s, run[..k]), Target(i);
    RunKeepsInv(s, run[..k]);
    RunEvolves(s, run[..k]);
    assert Evolves(s.jobs[i], s1.jobs[i]);
    CancelRaises(s1, i, run[k].now);
    MomentStep(s, run, k);
    if !FinishedAt(s, run, k, t) {
      assert RaisedAt(s, run, k + 1, t);
      forall m: nat | k < m <= |run| ensures RaisedAt(s, run, m, t) {
        RaisedStays(s, run, k + 1, m, t);
      }
    }
  }

  /** The request has listed the jobs of `printer` in `s`, and the run holds its cancels, one lock
      section each, among whatever else runs. */
  ghost predicate CancelsListed(s: Sys, run: seq<Action>, printer: string) {
    forall j :: j in Listing(s.jobs, printer) ==> CancelsId(run, j.id)
  }

  ghost predicate CancelsId(run: seq<Action>, id: nat) {
    exists k: nat :: k < |run| && run[k].CancelJob? && run[k].id == id
  }

  lemma {:induction false} Listed(jobs: seq<Job>, printer: string, i: nat)
    requires i < |jobs| && jobs[i].printer == printer
    ensures jobs[i] in Listing(jobs, printer)
  {
    if i > 0 { Listed(jobs[1..], printer, i - 1); }
  }

  /** Every job of the printer at the listing: at its own cancel the job its id leads to was finished, or
      its flag is raised from then on, whatever its workers write. */
  lemma CancelMyJobsInterleaved(s: Sys, run: seq<Action>, printer: string, i: nat)
    requires Inv(s) && CancelsListed(s, run, printer) && i < |s.jobs| && s.jobs[i].printer == printer
    ensures exists k: nat :: CanceledAt(s, run, k, i)
  {
    Listed(s.jobs, printer, i);
    assert CancelsId(run, s.jobs[i].id);
    var k: nat :| k < |run| && run[k].CancelJob? && run[k].id == s.jobs[i].id;
    CancelStep(s, run, k, i);
  }

  // ---- how soon a canceled worker ends -------------------------------------------------------------

  /** Own steps a worker with a raised flag has left at most. */
  function StepsLeft(w: Worker): (n: nat)
    ensures n <= 12
  {
    match w.pc
    case Go => 12
    case Calling => 11
    case DoneReasons => 10
    case DoneIdle | Start | FailReasons(_, _) | HoldReasons(_) => 9
    case DoneCheck | Started | FailIdle(_, _) | HoldState | Napping(_) => 8
    case DoneState | FailState(_, _) | Check | Asleep(_) => 7
    case ExitCheck => 6
    case EndReasons => 5
    case EndIdle => 4
    case EndCancel => 3
    case Persist => 2
    case Saving(_) => 1
    case Exited => 0
  }

  lemma ActStepsLeft(w: Worker, input: Input)
    requires input.canceled
    ensures StepsLeft(Act(w, input).0) < StepsLeft(w) || w.pc.Exited?
  {
  }

  function OwnSteps(run: seq<Action>, w: nat): nat {
    if run == [] then 0
    else
      var last := run[|run| - 1];
      OwnSteps(run[..|run| - 1], w) + if last.Work? && last.w == w then 1 else 0
  }

  lemma StepLessLeft(s: Sys, a: Action, w: nat)
    requires Inv(s) && w < |s.workers| && FlagOf(s, w)
    ensures var s' := Next(s, a);
            && w < |s'.workers|
            && (if a.Work? && a.w == w
                then StepsLeft(s'.workers[w]) < StepsLeft(s.workers[w]) || s.workers[w].pc.Exited?
                else s'.workers[w] == s.workers[w])
  {
    if a.Work? && CanWork(s, a.w) {
      WorkFrame(s, a.w, a.outcome, a.now);
      if a.w == w { ActStepsLeft(s.workers[w], InputOf(s, w, a.outcome)); }
    }
  }

  /** Worker `w` has come at least `n` steps nearer to its exit, or has exited. */
  ghost predicate Nearer(s: Sys, s': Sys, w: nat, n: nat) {
    && w < |s.workers| && w < |s'.workers|
    && (StepsLeft(s'.workers[w]) + n <= StepsLeft(s.workers[w]) || s'.workers[w].pc.Exited?)
  }

  lemma NearerStep(s: Sys, s1: Sys, a: Action, w: nat, n: nat)
    requires Inv(s1) && Nearer(s, s1, w, n) && FlagOf(s1, w)
    ensures Nearer(s, Next(s1, a), w, n + if a.Work? && a.w == w then 1 else 0)
  {
    StepLessLeft(s1, a, w);
    if a.Work? && a.w == w && s1.workers[w].pc.Exited? {
      assert Next(s1, a).workers[w].pc.Exited?;
    }
  }

  lemma FlagStays(s: Sys, run: seq<Action>, w: nat)
    requires Inv(s) && w < |s.workers| && FlagOf(s, w)
    ensures var s' := Lifecycle.After(s, run); Inv(s') && CanWork(s', w) && FlagOf(s', w)
  {
    RunEvolves(s, run);
    RunKeepsInv(s, run);
    assert Evolves(s.jobs[s.workers[w].slot], Lifecycle.After(s, run).jobs[s.workers[w].slot]);
  }

  lemma {:induction false} NearerAfter(s: Sys, run: seq<Action>, w: nat)
    requires Inv(s) && w < |s.workers| && FlagOf(s, w)
    ensures Nearer(s, Lifecycle.After(s, run), w, OwnSteps(run, w))
  {
    if run != [] {
      var before := run[..|run| - 1];
      NearerAfter(s, before, w);
      FlagStays(s, before, w);
      NearerStep(s, Lifecycle.After(s, before), run[|run| - 1], w, OwnSteps(before, w));
    }
  }

  /** Once its flag is raised, each own step brings a worker nearer to its exit, whatever everything
      else does: it has exited after twelve. */
  lemma CanceledWorkerExits(s: Sys, run: seq<Action>, w: nat)
    requires Inv(s) && w < |s.workers| && FlagOf(s, w)
    ensures Nearer(s, Lifecycle.After(s, run), w, OwnSteps(run, w))
    ensures OwnSteps(run, w) >= 12 ==> Lifecycle.After(s, run).workers[w].pc.Exited?
  {
    NearerAfter(s, run, w);
  }
}
