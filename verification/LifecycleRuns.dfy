/** What holds of every run of the server: nothing is left in the middle, the books are kept, results are
    true, and a cancel bounds the work. */
module LifecycleRuns {
  import opened Common
  import opened Jobs
  import opened PrintWorkers
  import opened Lifecycle
  import P = Printers

  /** A state some run of the server leads to. */
  ghost predicate Reachable(s: Sys) {
    exists s0, run :: Init(s0) && Lifecycle.After(s0, run) == s
  }

  lemma ReachableInv(s: Sys)
    requires Reachable(s)
    ensures Inv(s)
  {
    var s0, run :| Init(s0) && Lifecycle.After(s0, run) == s;
    InitInv(s0);
    RunKeepsInv(s0, run);
  }

  // ---- nothing is left in the middle ---------------------------------------------------------

  /** A started job whose workers have all exited is finished. */
  lemma NoStuckJobs(s: Sys, t: nat)
    requires Reachable(s) && t < |s.jobs|
    ensures s.jobs[t].state.Active() ==> exists w: nat :: EndsJob(s, w, t)
    ensures (exists w: nat :: w < |s.workers| && JobOf(s, w) == t)
            && (forall w: nat :: w < |s.workers| && JobOf(s, w) == t ==> s.workers[w].pc.Exited?)
            ==> s.jobs[t].state.Terminal()
  {
    ReachableInv(s);
    assert JobOk(s.jobs[t]);
    if w: nat :| w < |s.workers| && JobOf(s, w) == t && s.workers[w].pc.Exited? {
      assert Underway(s.workers[w]);
    }
  }

  /** A printer whose workers have all exited is not left in Processing. */
  lemma NoStuckPrinters(s: Sys, p: nat)
    requires Reachable(s) && p < |s.printers|
    ensures s.printers[p].state == P.Processing ==> exists w: nat :: IdlesPrinter(s, w, p)
    ensures (forall w: nat :: w < |s.workers| && PrinterOf(s, w) == p ==> s.workers[w].pc.Exited?)
            ==> s.printers[p].state != P.Processing
  {
    ReachableInv(s);
  }

  // ---- bookkeeping ------------------------------------------------------------------------------

  /** Finished jobs have a completion time, canceled jobs a raised flag, raised flags a started job;
      each worker was held any number of times and then got at most one final outcome, and waited the
      doubled and capped time after each hold. */
  lemma Bookkeeping(s: Sys)
    requires Reachable(s)
    ensures forall t :: 0 <= t < |s.jobs| ==> JobOk(s.jobs[t])
    ensures forall w :: 0 <= w < |s.workers| ==> OneFinalOutcome(s.workers[w].attempts) && WaitsOk(s.workers[w])
  {
    ReachableInv(s);
  }

  lemma EvolvesChain(a: Job, b: Job, c: Job)
    requires Evolves(a, b) && Evolves(b, c)
    ensures Evolves(a, c)
  {
  }

  lemma StepEvolves(s: Sys, a: Action)
    requires Inv(s)
    ensures var s' := Next(s, a);
            && |s.jobs| <= |s'.jobs| && |s.workers| <= |s'.workers|
            && (forall t :: 0 <= t < |s.jobs| ==> Evolves(s.jobs[t], s'.jobs[t]))
            && (forall w :: 0 <= w < |s.workers| ==> s'.workers[w].slot == s.workers[w].slot)
  {
    if a.CancelJob? {
      WriteJobs(s.jobs, a.id, Cancel, a.now);
    } else if a.Work? && CanWork(s, a.w) {
      WorkFrame(s, a.w, a.outcome, a.now);
    }
  }

  /** Over any stretch of a run, a flag stays raised, a completion time stays set, and a job that has
      left Pending does not come back to it. */
  lemma {:induction false} RunEvolves(s: Sys, run: seq<Action>)
    requires Inv(s)
    ensures var s' := Lifecycle.After(s, run);
            && |s.jobs| <= |s'.jobs| && |s.workers| <= |s'.workers|
            && (forall t :: 0 <= t < |s.jobs| ==> Evolves(s.jobs[t], s'.jobs[t]))
            && (forall w :: 0 <= w < |s.workers| ==> s'.workers[w].slot == s.workers[w].slot)
  {
    if run != [] {
      var before := run[..|run| - 1];
      RunEvolves(s, before);
      RunKeepsInv(s, before);
      StepEvolves(Lifecycle.After(s, before), run[|run| - 1]);
      forall t | 0 <= t < |s.jobs| ensures Evolves(s.jobs[t], Lifecycle.After(s, run).jobs[t]) {
        EvolvesChain(s.jobs[t], Lifecycle.After(s, before).jobs[t], Lifecycle.After(s, run).jobs[t]);
      }
    }
  }

  // ---- finished jobs say what happened ------------------------------------------------------------

  ghost predicate LastOutcome(s: Sys, w: nat, t: nat, outcome: JobOutcome) {
    && w < |s.workers| && JobOf(s, w) == t
    && s.workers[w].attempts != [] && s.workers[w].attempts[|s.workers[w].attempts| - 1] == outcome
  }

  /** The outcome a Completed or Aborted job claims. */
  function Verdict(j: Job): JobOutcome {
    if j.state.Completed? then JobOutcome.Completed else Failed(j.reasons, j.message)
  }

  predicate Judged(j: Job) {
    j.state.Completed? || j.state.Aborted?
  }

  /** A Completed job was printed by one of its workers; an Aborted job failed in one of them, with
      the reasons and the message it shows. */
  ghost predicate Truthful(s: Sys) {
    forall t :: 0 <= t < |s.jobs| && Judged(s.jobs[t]) ==> exists w: nat :: LastOutcome(s, w, t, Verdict(s.jobs[t]))
  }

  lemma ActOutcome(w: Worker, input: Input)
    requires HistoryOk(w)
    ensures var (w', effect) := Act(w, input); var n := |w.attempts|;
            && (n > 0 && !w.attempts[n - 1].DeviceUnavailable? ==> w'.attempts == w.attempts)
            && (effect.OnJob? && effect.jobWrite.SetState? && effect.jobWrite.state.Completed? ==>
                  n > 0 && w.attempts[n - 1].Completed?)
            && (effect.OnJob? && effect.jobWrite.SetFailure? ==>
                  n > 0 && w.attempts[n - 1] == Failed(effect.jobWrite.reasons, effect.jobWrite.message))
  {
  }

  /** Only a worker's own last write passes judgement on its job, and it tells its last outcome. */
  lemma ApplyVerdict(j: Job, write: JobWrite, now: int)
    requires Orderly(write)
    ensures var j' := Apply(j, write, now);
            Judged(j') ==> if write.SetState? then write.state.Completed? && j'.state.Completed?
                           else if write.SetFailure? then Verdict(j') == Failed(write.reasons, write.message)
                           else Judged(j) && Verdict(j') == Verdict(j)
  {
  }

  lemma WorkKeepsTruthful(s: Sys, w: nat, outcome: JobOutcome, now: int)
    requires Inv(s) && Truthful(s) && w < |s.workers|
    ensures Truthful(WorkStep(s, w, outcome, now))
  {
    var s', effect, k := WorkStep(s, w, outcome, now), EffectOf(s, w, outcome), JobOf(s, w);
    WorkFrame(s, w, outcome, now);
    ActOutcome(s.workers[w], InputOf(s, w, outcome));
    ActOnJob(s.workers[w], InputOf(s, w, outcome));
    if effect.OnJob? { ApplyVerdict(s.jobs[k], effect.jobWrite, now); }
    forall t | 0 <= t < |s'.jobs| && Judged(s'.jobs[t])
      ensures exists v: nat :: LastOutcome(s', v, t, Verdict(s'.jobs[t]))
    {
      if t == k && effect.OnJob? && !effect.jobWrite.Cancel? {
        assert LastOutcome(s', w, t, Verdict(s'.jobs[t]));
      } else {
        assert Verdict(s'.jobs[t]) == Verdict(s.jobs[t]) && Judged(s.jobs[t]);
        var v: nat :| LastOutcome(s, v, t, Verdict(s.jobs[t]));
        LastOutcomeKept(s, s', w, InputOf(s, w, outcome), v, t, Verdict(s.jobs[t]));
      }
    }
  }

  lemma LastOutcomeKept(s: Sys, s': Sys, w: nat, input: Input, v: nat, t: nat, o: JobOutcome)
    requires Inv(s) && w < |s.workers| && s'.workers == s.workers[w := Act(s.workers[w], input).0]
    requires LastOutcome(s, v, t, o) && !o.DeviceUnavailable?
    ensures LastOutcome(s', v, t, o)
  {
    ActOutcome(s.workers[w], input);
    ActIdentity(s.workers[w], input);
  }

  lemma TruthfulFrame(s: Sys, s': Sys)
    requires Truthful(s) && s.workers <= s'.workers
    requires forall t :: 0 <= t < |s'.jobs| && Judged(s'.jobs[t]) ==>
               t < |s.jobs| && Judged(s.jobs[t]) && Verdict(s'.jobs[t]) == Verdict(s.jobs[t])
    ensures Truthful(s')
  {
    forall t | 0 <= t < |s'.jobs| && Judged(s'.jobs[t])
      ensures exists v: nat :: LastOutcome(s', v, t, Verdict(s'.jobs[t]))
    {
      var v: nat :| LastOutcome(s, v, t, Verdict(s.jobs[t]));
      assert LastOutcome(s', v, t, Verdict(s'.jobs[t]));
    }
  }

  lemma StepKeepsTruthful(s: Sys, a: Action)
    requires Inv(s) && Truthful(s)
    ensures Truthful(Next(s, a))
  {
    if a.Work? {
      if CanWork(s, a.w) { WorkKeepsTruthful(s, a.w, a.outcome, a.now); }
    } else {
      if a.CancelJob? {
        var k := IndexOf(s.jobs, a.id);
        WriteJobs(s.jobs, a.id, Cancel, a.now);
        if k < |s.jobs| { ApplyVerdict(s.jobs[k], Cancel, a.now); }
      }
      TruthfulFrame(s, Next(s, a));
    }
  }

  /** In every reachable state finished jobs say what happened. */
  lemma JobsAreTruthful(s: Sys)
    requires Reachable(s)
    ensures Truthful(s)
  {
    var s0, run :| Init(s0) && Lifecycle.After(s0, run) == s;
    InitInv(s0);
    RunKeepsTruthful(s0, run);
  }

  lemma {:induction false} RunKeepsTruthful(s: Sys, run: seq<Action>)
    requires Inv(s) && Truthful(s)
    ensures Truthful(Lifecycle.After(s, run))
  {
    if run != [] {
      RunKeepsTruthful(s, run[..|run| - 1]);
      RunKeepsInv(s, run[..|run| - 1]);
      StepKeepsTruthful(Lifecycle.After(s, run[..|run| - 1]), run[|run| - 1]);
    }
  }

  // ---- flags ------------------------------------------------------------------------------------

  /** The step is a cancel, a request's or a worker's, that reaches job `t` while it is unfinished. */
  ghost predicate CancelsJob(s: Sys, a: Action, t: nat) {
    && t < |s.jobs| && s.jobs[t].state !in {Canceled, Aborted, JobState.Completed}
    && ((a.CancelJob? && IndexOf(s.jobs, a.id) == t)
        || (a.Work? && CanWork(s, a.w) && EffectOf(s, a.w, a.outcome) == OnJob(JobWrite.Cancel) && JobOf(s, a.w) == t))
  }

  lemma ApplyFlag(j: Job, write: JobWrite, now: int)
    ensures Apply(j, write, now).canceled <==>
            j.canceled || (write.Cancel? && j.state !in {Canceled, Aborted, JobState.Completed})
  {
  }

  lemma WorkFlag(s: Sys, w: nat, outcome: JobOutcome, now: int, t: nat)
    requires Inv(s) && w < |s.workers| && t < |s.jobs|
    ensures var s' := WorkStep(s, w, outcome, now);
            |s'.jobs| == |s.jobs| && (s'.jobs[t].canceled <==> s.jobs[t].canceled || CancelsJob(s, Work(w, outcome, now), t))
  {
    var effect := EffectOf(s, w, outcome);
    WorkFrame(s, w, outcome, now);
    if effect.OnJob? { ApplyFlag(s.jobs[JobOf(s, w)], effect.jobWrite, now); }
  }

  lemma StepFlag(s: Sys, a: Action, t: nat)
    requires Inv(s) && t < |Next(s, a).jobs|
    ensures Next(s, a).jobs[t].canceled <==> t < |s.jobs| && (s.jobs[t].canceled || CancelsJob(s, a, t))
  {
    if a.Work? {
      if CanWork(s, a.w) { WorkFlag(s, a.w, a.outcome, a.now, t); }
    } else if a.CancelJob? {
      var k := IndexOf(s.jobs, a.id);
      if k < |s.jobs| { ApplyFlag(s.jobs[k], Cancel, a.now); }
    }
  }

  predicate Raised(s: Sys, t: nat) {
    t < |s.jobs| && s.jobs[t].canceled
  }

  lemma NextFlag(s: Sys, a: Action, t: nat)
    requires Inv(s)
    ensures Raised(Next(s, a), t) <==> Raised(s, t) || CancelsJob(s, a, t)
  {
    StepEvolves(s, a);
    if t < |Next(s, a).jobs| { StepFlag(s, a, t); }
  }

  ghost predicate CancelsJobAt(s: Sys, run: seq<Action>, k: nat, t: nat) {
    k < |run| && CancelsJob(Lifecycle.After(s, run[..k]), run[k], t)
  }

  ghost predicate CanceledBefore(s: Sys, run: seq<Action>, n: nat, t: nat) {
    exists k: nat :: k < n && CancelsJobAt(s, run, k, t)
  }

  lemma CanceledNext(s: Sys, run: seq<Action>, n: nat, t: nat)
    ensures CanceledBefore(s, run, n + 1, t) <==> CanceledBefore(s, run, n, t) || CancelsJobAt(s, run, n, t)
  {
  }

  lemma {:induction false} FlagAt(s: Sys, run: seq<Action>, n: nat, t: nat)
    requires Init(s) && n <= |run|
    ensures Raised(Lifecycle.After(s, run[..n]), t) <==> CanceledBefore(s, run, n, t)
  {
    if n == 0 {
      assert run[..0] == [];
    } else {
      FlagAt(s, run, n - 1, t);
      InitInv(s);
      RunKeepsInv(s, run[..n - 1]);
      MomentStep(s, run, n - 1);
      CanceledNext(s, run, n - 1, t);
      NextFlag(Lifecycle.After(s, run[..n - 1]), run[n - 1], t);
    }
  }

  /** In every run a job's flag is raised exactly if some cancel, of a request or of a worker at its end,
      has reached it while it was unfinished. */
  lemma FlagRaisedExactly(s: Sys, run: seq<Action>, t: nat)
    requires Init(s) && t < |Lifecycle.After(s, run).jobs|
    ensures Lifecycle.After(s, run).jobs[t].canceled <==> exists k: nat :: CancelsJobAt(s, run, k, t)
  {
    assert run[..|run|] == run;
    FlagAt(s, run, |run|, t);
  }

  // ---- canceling ----------------------------------------------------------------------------------

  /** Callbacks started, counting one that is bound to start. */
  function Committed(w: Worker): nat {
    Starts(w) + if w.pc.Go? then 1 else 0
  }

  lemma ActCommitted(w: Worker, input: Input)
    requires input.canceled
    ensures Committed(Act(w, input).0) <= Committed(w)
    ensures Act(w, input).0.slot == w.slot
  {
  }

  lemma StepCommitted(s: Sys, a: Action, w: nat)
    requires Inv(s) && w < |s.workers| && FlagOf(s, w)
    ensures var s' := Next(s, a); w < |s'.workers| && Committed(s'.workers[w]) <= Committed(s.workers[w])
  {
    if a.Work? && CanWork(s, a.w) {
      WorkFrame(s, a.w, a.outcome, a.now);
      if a.w == w { ActCommitted(s.workers[w], InputOf(s, w, a.outcome)); }
    }
  }

  lemma NewlyCommitted(s: Sys, a: Action, w: nat)
    requires |s.workers| <= w < |Next(s, a).workers|
    ensures Committed(Next(s, a).workers[w]) == 0
  {
  }

  /** Worker `w` of a state is bound to no more callbacks than in an earlier one, if its flag was
      raised then; to none, if it has been spawned since on a job whose flag was. */
  ghost predicate WorkBounded(s: Sys, s': Sys, w: nat) {
    && (w < |s.workers| && s.workers[w].slot < |s.jobs| && FlagOf(s, w) ==>
          w < |s'.workers| && Committed(s'.workers[w]) <= Committed(s.workers[w]))
    && (|s.workers| <= w < |s'.workers| && s'.workers[w].slot < |s.jobs| && s.jobs[s'.workers[w].slot].canceled ==>
          Committed(s'.workers[w]) == 0)
  }

  lemma StepBoundsWork(s: Sys, s1: Sys, a: Action, w: nat)
    requires Inv(s) && Inv(s1) && WorkBounded(s, s1, w)
    requires |s.jobs| <= |s1.jobs| && |s.workers| <= |s1.workers|
    requires forall t :: 0 <= t < |s.jobs| ==> Evolves(s.jobs[t], s1.jobs[t])
    requires forall v :: 0 <= v < |s.workers| ==> s1.workers[v].slot == s.workers[v].slot
    ensures WorkBounded(s, Next(s1, a), w)
  {
    StepEvolves(s1, a);
    if w < |s1.workers| {
      if FlagOf(s1, w) { StepCommitted(s1, a, w); }
    } else if w < |Next(s1, a).workers| {
      NewlyCommitted(s1, a, w);
    }
  }

  /** Once a job's flag is raised, a worker of it starts a callback only if it had already passed the
      check of the flag, and then one; a worker spawned afterwards starts none. */
  lemma {:induction false} CancelBoundsWork(s: Sys, run: seq<Action>, w: nat)
    requires Inv(s)
    ensures WorkBounded(s, Lifecycle.After(s, run), w)
  {
    if run != [] {
      var before := run[..|run| - 1];
      CancelBoundsWork(s, before, w);
      RunEvolves(s, before);
      RunKeepsInv(s, before);
      StepBoundsWork(s, Lifecycle.After(s, before), run[|run| - 1], w);
    }
  }
}
