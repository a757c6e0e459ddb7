/** The jobs of the running server are the registry's: every run makes a history of creations and writes,
    so what holds of histories, ids, lookups, listings, flags and times, holds of runs. */
module LifecycleJobs {
  import opened Common
  import opened PrintWorkers
  import opened Lifecycle
  import J = Jobs

  function RegistryOf(s: Sys): J.Registry {
    J.Registry(s.nextId, s.jobs)
  }

  /** What the step is to the registry, and its clock reading; nothing for most. */
  function OpOf(s: Sys, a: Action): Option<(J.Op, int)> {
    match a
    case CreateJob(printer, owner, now) => Some((J.Create(printer, owner), now))
    case CancelJob(id, now) => Some((J.Update(id, J.Cancel), now))
    case Work(w, outcome, now) =>
      if CanWork(s, w) && EffectOf(s, w, outcome).OnJob?
      then Some((J.Update(s.jobs[s.workers[w].slot].id, EffectOf(s, w, outcome).jobWrite), now)) else None
    case _ => None
  }

  /** A step creates the job it says, with the next id; or writes by an id; or leaves the jobs alone. */
  lemma StepIsOp(s: Sys, a: Action)
    ensures var op := OpOf(s, a);
            RegistryOf(Next(s, a)) == if op.Some? then J.Step(RegistryOf(s), op.value.0, op.value.1) else RegistryOf(s)
    ensures a.CreateJob? ==>
              Next(s, a).jobs == s.jobs + [J.Job(s.nextId, a.printer, a.owner, J.Pending, {}, "", a.now, None, false)]
  {
  }

  /** The step's entry in the history, if it has one. */
  function Written(s: Sys, a: Action): seq<(J.Op, int)> {
    var op := OpOf(s, a);
    if op.Some? then [op.value] else []
  }

  /** The creations and writes of a run, in order, with their clock readings. */
  function History(s: Sys, run: seq<Action>): seq<(J.Op, int)> {
    if run == [] then []
    else
      var before := run[..|run| - 1];
      History(s, before) + Written(Lifecycle.After(s, before), run[|run| - 1])
  }

  function OpsOf(h: seq<(J.Op, int)>): (ops: seq<J.Op>)
    ensures |ops| == |h| && forall k :: 0 <= k < |h| ==> ops[k] == h[k].0
  {
    seq(|h|, k requires 0 <= k < |h| => h[k].0)
  }

  ghost function ClockOf(h: seq<(J.Op, int)>): nat -> int {
    (k: nat) => if k < |h| then h[k].1 else 0
  }

  /** Only the readings of the operations matter. */
  lemma {:induction false} SameReadings(ops: seq<J.Op>, a: nat -> int, b: nat -> int)
    requires forall k: nat :: k < |ops| ==> a(k) == b(k)
    ensures J.After(ops, a) == J.After(ops, b)
  {
    if ops != [] { SameReadings(ops[..|ops| - 1], a, b); }
  }

  /** The registry after a history. */
  ghost function Replay(h: seq<(J.Op, int)>): J.Registry {
    J.After(OpsOf(h), ClockOf(h))
  }

  lemma ReplaySnoc(h: seq<(J.Op, int)>, op: (J.Op, int))
    ensures Replay(h + [op]) == J.Step(Replay(h), op.0, op.1)
  {
    var all := h + [op];
    assert OpsOf(all)[..|h|] == OpsOf(h);
    SameReadings(OpsOf(h), ClockOf(all), ClockOf(h));
  }

  lemma ReplayNext(s: Sys, h: seq<(J.Op, int)>, a: Action)
    requires RegistryOf(s) == Replay(h)
    ensures RegistryOf(Next(s, a)) == Replay(h + Written(s, a))
  {
    var op := OpOf(s, a);
    StepIsOp(s, a);
    if op.Some? {
      ReplaySnoc(h, op.value);
    } else {
      assert h + [] == h;
    }
  }

  /** After every run the jobs are those of the registry after the run's history. */
  lemma {:induction false} RunIsHistory(s: Sys, run: seq<Action>)
    requires Init(s)
    ensures RegistryOf(Lifecycle.After(s, run)) == J.After(OpsOf(History(s, run)), ClockOf(History(s, run)))
  {
    if run != [] {
      var before := run[..|run| - 1];
      RunIsHistory(s, before);
      ReplayNext(Lifecycle.After(s, before), History(s, before), run[|run| - 1]);
    } else {
      assert OpsOf([]) == [];
    }
  }

  /** So in every run: the n-th job created carries the n-th id, a printer's listing is its creations in
      order, and creation and completion times are the clock readings of what set them. */
  lemma JobsOfRun(s: Sys, run: seq<Action>, printer: string, t: nat)
    requires Init(s) && t < |Lifecycle.After(s, run).jobs|
    ensures var s', ops, clock := Lifecycle.After(s, run), OpsOf(History(s, run)), ClockOf(History(s, run));
            && s'.jobs == J.After(ops, clock).jobs && J.CreatedInOrder(RegistryOf(s'), J.Creations(ops))
            && J.CompletedBy(ops, clock, |ops|, t, s'.jobs[t].completedAt)
            && (exists k: nat :: J.CreatesAt(ops, clock, k, t) && s'.jobs[t].createdAt == clock(k))
            && (forall op :: op in J.Creations(ops) ==> op.Create?)
            && var p := J.PositionsFor(J.Creations(ops), printer, 0);
               var l := J.Listing(s'.jobs, printer);
               |l| == |p| && forall k :: 0 <= k < |p| ==> p[k] < |s'.jobs| && l[k] == s'.jobs[p[k]]
  {
    var ops, clock := OpsOf(History(s, run)), ClockOf(History(s, run));
    RunIsHistory(s, run);
    J.JobsAreCreations(ops, clock);
    J.CompletionExactly(ops, clock, t);
    J.CreationTime(ops, clock, t);
    J.ListingIsCreations(ops, clock, printer);
  }
}
