/** What the poller's pass leaves of every printer and advert, whatever runs between its steps, and the
    pass alone as the case in which nothing does. */
module LifecyclePass {
  import opened Common
  import opened PrintWorkers
  import opened Lifecycle
  import opened LifecyclePrinters
  import P = Printers
  import S = Status

  /** The answer given to the poll of `name` in the run; none if there was none. */
  function AnswerTo(s: Sys, run: seq<Action>, name: string): Option<P.PollStatus> {
    if run == [] then None
    else
      var before, a := run[..|run| - 1], run[|run| - 1];
      if AnswersFor(Lifecycle.After(s, before), a, name) then a.answer else AnswerTo(s, before, name)
  }

  ghost function AnswersOf(s: Sys, run: seq<Action>): S.Answers {
    name => AnswerTo(s, run, name)
  }

  /** The pass does not end in the run. */
  ghost predicate WithinPass(run: seq<Action>) {
    forall a :: a in run ==> !a.PollEnd?
  }

  /** No worker's write and no media load reaches printer `p` in the run. */
  ghost predicate Spared(s: Sys, run: seq<Action>, p: nat) {
    run == [] ||
      var s1, a := Lifecycle.After(s, run[..|run| - 1]), run[|run| - 1];
      && Spared(s, run[..|run| - 1], p)
      && !WorkReaches(s1, a, p) && !(a.LoadMedia? && P.Named(s1.printers, a.printer) == p)
  }

  // ---- the queue ----------------------------------------------------------------------------------

  predicate InQueue(s: Sys, name: string) {
    s.poller.Polling? && exists i :: 0 <= i < |s.poller.queue| && s.poller.queue[i].name == name
  }

  /** The queue of a pass has lost its answered front. */
  ghost predicate Shorter(s: Sys, s': Sys) {
    && s.poller.Polling? && s'.poller.Polling? && |s'.poller.queue| <= |s.poller.queue|
    && s'.poller.queue == s.poller.queue[|s.poller.queue| - |s'.poller.queue|..]
  }

  lemma StepShortens(s: Sys, a: Action)
    requires s.poller.Polling? && !a.PollEnd?
    ensures var s' := Next(s, a);
            && s'.poller.Polling?
            && s'.poller.queue == if a.PollAnswer? && s.poller.queue != [] then s.poller.queue[1..] else s.poller.queue
  {
  }

  lemma TailOfQueue(s: Sys, s': Sys, name: string)
    requires s.poller.Polling? && s'.poller.Polling? && s.poller.queue != [] && s'.poller.queue == s.poller.queue[1..]
    requires S.DistinctConfigs(s.poller.queue)
    ensures S.DistinctConfigs(s'.poller.queue)
    ensures InQueue(s', name) <==> InQueue(s, name) && s.poller.queue[0].name != name
  {
    var q, q' := s.poller.queue, s'.poller.queue;
    forall i | 0 <= i < |q'| ensures q'[i] == q[i + 1] {}
    if InQueue(s, name) && q[0].name != name {
      var i :| 0 <= i < |q| && q[i].name == name;
      assert q'[i - 1].name == name;
    }
  }

  /** The queue so far: distinct, no longer than it was, and without `name` once that is answered. */
  ghost predicate OnceSoFar(s: Sys, s1: Sys, answered: bool, name: string) {
    && Shorter(s, s1) && S.DistinctConfigs(s1.poller.queue)
    && (InQueue(s1, name) ==> InQueue(s, name))
    && (answered ==> InQueue(s, name) && !InQueue(s1, name))
  }

  lemma SameQueueOnce(s: Sys, s1: Sys, s2: Sys, answered: bool, name: string)
    requires OnceSoFar(s, s1, answered, name) && s2.poller.Polling? && s2.poller.queue == s1.poller.queue
    ensures OnceSoFar(s, s2, answered, name)
  {
  }

  lemma TailOnce(s: Sys, s1: Sys, s2: Sys, answered: bool, some: bool, name: string)
    requires OnceSoFar(s, s1, answered, name) && s1.poller.queue != []
    requires s2.poller.Polling? && s2.poller.queue == s1.poller.queue[1..]
    ensures OnceSoFar(s, s2, if s1.poller.queue[0].name == name then some else answered, name)
  {
    TailOfQueue(s1, s2, name);
    if s1.poller.queue[0].name == name { assert InQueue(s1, name); }
  }

  lemma OnceStep(s: Sys, s1: Sys, a: Action, answered: bool, name: string)
    requires OnceSoFar(s, s1, answered, name) && !a.PollEnd?
    ensures OnceSoFar(s, Next(s1, a), if AnswersFor(s1, a, name) then a.answer.Some? else answered, name)
  {
    StepShortens(s1, a);
    if a.PollAnswer? && s1.poller.queue != [] {
      TailOnce(s, s1, Next(s1, a), answered, a.answer.Some?, name);
    } else {
      SameQueueOnce(s, s1, Next(s1, a), answered, name);
    }
  }

  /** In a pass whose queue names each printer once, an answer takes its printer out of the queue for
      the rest of the pass; only queued printers are answered. */
  lemma {:induction false} AnsweredOnce(s: Sys, run: seq<Action>, name: string)
    requires s.poller.Polling? && S.DistinctConfigs(s.poller.queue) && WithinPass(run)
    ensures OnceSoFar(s, Lifecycle.After(s, run), AnswerTo(s, run, name).Some?, name)
  {
    if run != [] {
      var before, a := run[..|run| - 1], run[|run| - 1];
      assert a in run;
      AnsweredOnce(s, before, name);
      OnceStep(s, Lifecycle.After(s, before), a, AnswerTo(s, before, name).Some?, name);
    }
  }

  // ---- printers -----------------------------------------------------------------------------------

  function PolledBy(p: P.Printer, answer: Option<P.PollStatus>): P.Printer {
    if answer.Some? then P.Polled(p, answer.value).0 else p
  }

  /** At every moment of a pass, a printer that no worker's write and no media load has reached since is
      what its answer makes of it, or, not answered, what it was, queued or not; whatever else has run. */
  lemma {:induction false} PassPointwise(s: Sys, run: seq<Action>, p: nat)
    requires s.poller.Polling? && S.DistinctConfigs(s.poller.queue) && WithinPass(run)
    requires FirstOf(s.printers, p) && Spared(s, run, p)
    ensures var s' := Lifecycle.After(s, run);
            && FirstOf(s'.printers, p) && s'.printers[p].config.name == s.printers[p].config.name
            && s'.printers[p] == PolledBy(s.printers[p], AnswerTo(s, run, s.printers[p].config.name))
  {
    if run != [] {
      var before, a, name := run[..|run| - 1], run[|run| - 1], s.printers[p].config.name;
      var s1 := Lifecycle.After(s, before);
      PassPointwise(s, before, p);
      AnsweredOnce(s, before, name);
      StepAt(s1, a, p);
      if AnswersFor(s1, a, name) {
        assert InQueue(s1, name);
      }
    }
  }

  /** The state just after the poller has taken its snapshot. */
  ghost predicate JustSnapped(s: Sys) {
    s.poller.Polling? && s.poller.queue == P.Pollable(s.printers) && !s.poller.changed
  }

  lemma SnapshotDistinct(s: Sys)
    requires JustSnapped(s) && P.DistinctNames(s.printers)
    ensures S.DistinctConfigs(s.poller.queue)
    ensures forall p :: 0 <= p < |s.printers| ==> FirstOf(s.printers, p)
    ensures forall p :: 0 <= p < |s.printers| && InQueue(s, s.printers[p].config.name) ==> s.printers[p].state != P.Processing
  {
    S.PollableDistinct(s.printers);
    forall p | 0 <= p < |s.printers| ensures FirstOf(s.printers, p) {
      P.NamedDistinct(s.printers, p);
    }
    forall p | 0 <= p < |s.printers| && InQueue(s, s.printers[p].config.name) ensures s.printers[p].state != P.Processing {
      var i :| 0 <= i < |s.poller.queue| && s.poller.queue[i].name == s.printers[p].config.name;
      P.PollableMembers(s.printers, s.poller.queue[i]);
    }
  }

  lemma QueueInOrder(s: Sys)
    requires JustSnapped(s)
    ensures var at := P.NotPrinting(s.printers, 0);
            |s.poller.queue| == |at| && forall k :: 0 <= k < |at| ==> s.poller.queue[k] == s.printers[at[k]].config
  {
    P.PollableInOrder(s.printers, 0);
    assert s.printers[0..] == s.printers;
  }

  lemma QueueHolds(s: Sys, p: nat)
    requires JustSnapped(s) && p < |s.printers| && s.printers[p].state != P.Processing
    ensures InQueue(s, s.printers[p].config.name)
  {
    P.PollableMembers(s.printers, s.printers[p].config);
    var k :| 0 <= k < |s.poller.queue| && s.poller.queue[k] == s.printers[p].config;
  }

  /** The snapshot queues, in registry order and once each, the configuration of exactly the printers that
      are not printing, idle or stopped, and changes nothing else. */
  lemma SnapshotExactly(s: Sys)
    requires s.poller.Resting?
    ensures var s1 := Next(s, PollSnapshot); var at := P.NotPrinting(s.printers, 0);
            && JustSnapped(s1) && s1 == s.(poller := Polling(s1.poller.queue, false, {}))
            && |s1.poller.queue| == |at| && forall k :: 0 <= k < |at| ==> s1.poller.queue[k] == s.printers[at[k]].config
  {
    QueueInOrder(Next(s, PollSnapshot));
  }

  /** With distinct names, a printer's name is queued exactly if it is not printing. */
  lemma QueuedExactly(s: Sys, p: nat)
    requires JustSnapped(s) && P.DistinctNames(s.printers) && p < |s.printers|
    ensures InQueue(s, s.printers[p].config.name) <==> s.printers[p].state != P.Processing
  {
    SnapshotDistinct(s);
    if s.printers[p].state != P.Processing { QueueHolds(s, p); }
  }

  /** Since the snapshot, with distinct names: every printer spared is at every moment as the pointwise
      description of a pass with the answers so far. */
  lemma SinceSnapshot(s: Sys, run: seq<Action>, p: nat)
    requires JustSnapped(s) && P.DistinctNames(s.printers) && WithinPass(run)
    requires p < |s.printers| && Spared(s, run, p)
    ensures p < |Lifecycle.After(s, run).printers|
    ensures Lifecycle.After(s, run).printers[p] == S.PolledOnce(s.printers[p], AnswersOf(s, run))
  {
    SnapshotDistinct(s);
    PassPointwise(s, run, p);
    AnsweredOnce(s, run, s.printers[p].config.name);
  }

  ghost predicate AllSpared(s: Sys, run: seq<Action>) {
    forall p :: 0 <= p < |s.printers| ==> Spared(s, run, p)
  }

  /** What the poller reports so far: a media change in the answer to some printer. */
  ghost predicate ReportsSoFar(s: Sys, run: seq<Action>) {
    var s' := Lifecycle.After(s, run);
    s'.poller.Polling? && (s'.poller.changed <==> S.AnyMediaChanges(s.printers, AnswersOf(s, run)))
  }

  lemma SparedBefore(s: Sys, run: seq<Action>)
    requires run != [] && AllSpared(s, run) && WithinPass(run)
    ensures AllSpared(s, run[..|run| - 1]) && WithinPass(run[..|run| - 1]) && !run[|run| - 1].PollEnd?
  {
    var before := run[..|run| - 1];
    forall p | 0 <= p < |s.printers| ensures Spared(s, before, p) {
      assert Spared(s, run, p);
    }
    assert run[|run| - 1] in run;
  }

  lemma NextReport(s: Sys, before: seq<Action>, a: Action)
    requires JustSnapped(s) && P.DistinctNames(s.printers) && WithinPass(before) && AllSpared(s, before)
    requires ReportsSoFar(s, before) && !a.PollEnd?
    ensures ReportsSoFar(s, before + [a])
  {
    if a.PollAnswer? && Lifecycle.After(s, before).poller.queue != [] {
      ReportStep(s, before, a);
    } else {
      SameReport(s, before, a);
    }
  }

  lemma {:induction false} PassReports(s: Sys, run: seq<Action>)
    requires JustSnapped(s) && P.DistinctNames(s.printers) && WithinPass(run) && AllSpared(s, run)
    ensures ReportsSoFar(s, run)
  {
    if run != [] {
      var before, a := run[..|run| - 1], run[|run| - 1];
      SparedBefore(s, run);
      PassReports(s, before);
      NextReport(s, before, a);
      assert before + [a] == run;
    }
  }

  lemma AnswerToSnoc(s: Sys, before: seq<Action>, a: Action, name: string)
    ensures AnswerTo(s, before + [a], name)
         == if AnswersFor(Lifecycle.After(s, before), a, name) then a.answer else AnswerTo(s, before, name)
  {
    assert (before + [a])[..|before|] == before;
  }

  lemma NoPollStep(s: Sys, a: Action)
    requires s.poller.Polling? && !a.PollEnd? && !(a.PollAnswer? && s.poller.queue != [])
    ensures Next(s, a).poller.Polling? && Next(s, a).poller.changed == s.poller.changed
  {
  }

  lemma SameReport(s: Sys, before: seq<Action>, a: Action)
    requires var s1 := Lifecycle.After(s, before); s1.poller.Polling? && !a.PollEnd? && !(a.PollAnswer? && s1.poller.queue != [])
    ensures var s1, s' := Lifecycle.After(s, before), Lifecycle.After(s, before + [a]);
            s'.poller.Polling? && s'.poller.changed == s1.poller.changed
    ensures S.AnyMediaChanges(s.printers, AnswersOf(s, before + [a])) <==> S.AnyMediaChanges(s.printers, AnswersOf(s, before))
  {
    AfterSnoc(s, before, a);
    NoPollStep(Lifecycle.After(s, before), a);
    forall name ensures AnswersOf(s, before + [a])(name) == AnswersOf(s, before)(name) {
      AnswerToSnoc(s, before, a, name);
    }
    S.SameAnswers(s.printers, AnswersOf(s, before), AnswersOf(s, before + [a]));
  }

  /** One answer: it reports a change exactly if the pointwise description has one for its printer. */
  lemma ReportStep(s: Sys, before: seq<Action>, a: Action)
    requires JustSnapped(s) && P.DistinctNames(s.printers) && WithinPass(before) && AllSpared(s, before)
    requires var s1 := Lifecycle.After(s, before);
             && s1.poller.Polling? && a.PollAnswer? && s1.poller.queue != []
             && (s1.poller.changed <==> S.AnyMediaChanges(s.printers, AnswersOf(s, before)))
    ensures var s' := Lifecycle.After(s, before + [a]);
            s'.poller.Polling? && (s'.poller.changed <==> S.AnyMediaChanges(s.printers, AnswersOf(s, before + [a])))
  {
    var s1, run := Lifecycle.After(s, before), before + [a];
    var name := s1.poller.queue[0].name;
    AfterSnoc(s, before, a);
    SnapshotDistinct(s);
    AnsweredOnce(s, before, name);
    assert InQueue(s1, name);
    var i := QueuedPrinter(s, name);
    PassPointwise(s, before, i);
    assert run[..|run| - 1] == before;
    forall p | 0 <= p < |s.printers| && p != i
      ensures S.MediaChanges(s.printers[p], AnswersOf(s, run)) <==> S.MediaChanges(s.printers[p], AnswersOf(s, before))
    {
    }
    assert !S.MediaChanges(s.printers[i], AnswersOf(s, before));
    if S.AnyMediaChanges(s.printers, AnswersOf(s, before)) {
      var p :| 0 <= p < |s.printers| && S.MediaChanges(s.printers[p], AnswersOf(s, before));
      assert S.MediaChanges(s.printers[p], AnswersOf(s, run));
    }
    if S.AnyMediaChanges(s.printers, AnswersOf(s, run)) && !S.MediaChanges(s.printers[i], AnswersOf(s, run)) {
      var p :| 0 <= p < |s.printers| && S.MediaChanges(s.printers[p], AnswersOf(s, run));
      assert S.MediaChanges(s.printers[p], AnswersOf(s, before));
    }
  }

  lemma QueuedPrinter(s: Sys, name: string) returns (i: nat)
    requires JustSnapped(s) && P.DistinctNames(s.printers) && InQueue(s, name)
    ensures i < |s.printers| && s.printers[i].config.name == name && P.Named(s.printers, name) == i
    ensures s.printers[i].state != P.Processing
    ensures forall p :: 0 <= p < |s.printers| && p != i ==> s.printers[p].config.name != name
  {
    var k :| 0 <= k < |s.poller.queue| && s.poller.queue[k].name == name;
    P.PollableMembers(s.printers, s.poller.queue[k]);
    i :| 0 <= i < |s.printers| && s.printers[i].config == s.poller.queue[k] && s.printers[i].state != P.Processing;
    P.NamedDistinct(s.printers, i);
  }

  lemma AloneSinceSnapshot(s: Sys, run: seq<Action>)
    requires JustSnapped(s) && P.DistinctNames(s.printers) && WithinPass(run) && AllSpared(s, run)
    ensures var s' := Lifecycle.After(s, run);
            && s'.printers == S.PollPass(s.printers, AnswersOf(s, run))
            && s'.poller.Polling? && (s'.poller.changed <==> S.AnyMediaChanges(s.printers, AnswersOf(s, run)))
  {
    RunKeepsNames(s, run);
    assert |P.Names(Lifecycle.After(s, run).printers)| == |P.Names(s.printers)|;
    forall p | 0 <= p < |s.printers|
      ensures Lifecycle.After(s, run).printers[p] == S.PolledOnce(s.printers[p], AnswersOf(s, run))
    {
      SinceSnapshot(s, run, p);
    }
    PassReports(s, run);
  }

  /** A run that begins with the snapshot, with distinct names: every printer spared since is at every
      moment of the pass as the pointwise description has it, with the answers so far. */
  lemma PassMeetsDescription(s: Sys, rest: seq<Action>, p: nat)
    requires s.poller.Resting? && P.DistinctNames(s.printers) && WithinPass(rest)
    requires p < |s.printers| && Spared(Next(s, PollSnapshot), rest, p)
    ensures var s' := Lifecycle.After(s, [PollSnapshot] + rest);
            p < |s'.printers| && s'.printers[p] == S.PolledOnce(s.printers[p], AnswersOf(Next(s, PollSnapshot), rest))
  {
    SnapshotExactly(s);
    AfterCons(s, PollSnapshot, rest);
    SinceSnapshot(Next(s, PollSnapshot), rest, p);
  }

  /** Step `k` of the run is the answer, or the missing answer, to the poll of `name`. */
  ghost predicate AskedAt(s: Sys, run: seq<Action>, k: nat, name: string) {
    k < |run| && AnswersFor(Lifecycle.After(s, run[..k]), run[k], name)
  }

  lemma LeavesAsked(s: Sys, a: Action, name: string)
    requires s.poller.Polling? && S.DistinctConfigs(s.poller.queue) && !a.PollEnd?
    requires InQueue(s, name) && !InQueue(Next(s, a), name)
    ensures AnswersFor(s, a, name)
  {
    StepShortens(s, a);
    if a.PollAnswer? && s.poller.queue != [] {
      TailOfQueue(s, Next(s, a), name);
    }
  }

  /** A name leaves the queue only by the step that asks for it. */
  lemma {:induction false} LeavesQueueAsked(s: Sys, run: seq<Action>, m: nat, name: string) returns (k: nat)
    requires s.poller.Polling? && S.DistinctConfigs(s.poller.queue) && WithinPass(run) && m <= |run|
    requires InQueue(s, name) && !InQueue(Lifecycle.After(s, run[..m]), name)
    ensures AskedAt(s, run, k, name)
    decreases m
  {
    assert run[..0] == [];
    assert m > 0;
    k := m - 1;
    MomentStep(s, run, k);
    AnsweredOnce(s, run[..k], name);
    if InQueue(Lifecycle.After(s, run[..k]), name) {
      LeavesAsked(Lifecycle.After(s, run[..k]), run[k], name);
    } else {
      k := LeavesQueueAsked(s, run, k, name);
    }
  }

  /** Once the queue is empty every printer that was not printing at the snapshot, idle or stopped, has
      been asked. */
  lemma PassAsksAll(s: Sys, rest: seq<Action>, p: nat)
    requires s.poller.Resting? && P.DistinctNames(s.printers) && WithinPass(rest)
    requires p < |s.printers| && s.printers[p].state != P.Processing
    requires Lifecycle.After(s, [PollSnapshot] + rest).poller.Polling? && Lifecycle.After(s, [PollSnapshot] + rest).poller.queue == []
    ensures exists k: nat :: AskedAt(Next(s, PollSnapshot), rest, k, s.printers[p].config.name)
  {
    SnapshotExactly(s);
    SnapshotDistinct(Next(s, PollSnapshot));
    QueuedExactly(Next(s, PollSnapshot), p);
    AfterCons(s, PollSnapshot, rest);
    assert rest[..|rest|] == rest;
    var k := LeavesQueueAsked(Next(s, PollSnapshot), rest, |rest|, s.printers[p].config.name);
  }

  lemma EndPass(s: Sys)
    requires s.poller.Polling? && s.poller.queue == []
    ensures Next(s, PollEnd) == s.(poller := if s.poller.changed then PollOwes else Resting)
  {
  }

  /** A pass alone: with every printer spared, the transition system's pass is the pointwise pass, the
      one `poll_once` makes by itself; ended, it owes a save exactly if some answer brought a roll that was
      not the default or not ready with its size. */
  lemma PassAlone(s: Sys, rest: seq<Action>)
    requires s.poller.Resting? && P.DistinctNames(s.printers) && WithinPass(rest) && AllSpared(Next(s, PollSnapshot), rest)
    ensures var s' := Lifecycle.After(s, [PollSnapshot] + rest); var answers := AnswersOf(Next(s, PollSnapshot), rest);
            && s'.printers == S.PollPass(s.printers, answers) && s'.poller.Polling?
            && (s'.poller.changed <==> exists p :: 0 <= p < |s.printers| && S.RollChanges(s.printers[p], answers))
            && (s'.poller.queue == [] ==> Next(s', PollEnd) == s'.(poller := if s'.poller.changed then PollOwes else Resting))
  {
    SnapshotExactly(s);
    AfterCons(s, PollSnapshot, rest);
    AloneSinceSnapshot(Next(s, PollSnapshot), rest);
    var s' := Lifecycle.After(s, [PollSnapshot] + rest);
    if s'.poller.queue == [] { EndPass(s'); }
    S.AnyRollChanges(s.printers, AnswersOf(Next(s, PollSnapshot), rest));
  }

  // ---- adverts ------------------------------------------------------------------------------------

  /** The adverts after a step: only an answer of a poll touches them. */
  function AdvertStep(s: Sys, a: Action, adverts: set<string>): set<string> {
    if a.PollAnswer? && a.answer.Some? && s.poller.Polling? && s.poller.queue != [] then
      var name := s.poller.queue[0].name;
      if Offline in a.answer.value.reasons then adverts - {name}
      else if P.Named(s.printers, name) < |s.printers| then adverts + {name}
      else adverts
    else adverts
  }

  function AdvertsAfter(s: Sys, run: seq<Action>, adverts: set<string>): set<string> {
    if run == [] then adverts
    else AdvertStep(Lifecycle.After(s, run[..|run| - 1]), run[|run| - 1], AdvertsAfter(s, run[..|run| - 1], adverts))
  }

  /** What the answer, if any, makes of an advert. */
  predicate AdvertOf(s: Sys, answer: Option<P.PollStatus>, name: string, advertised: bool) {
    match answer
    case None => advertised
    case Some(status) => Offline !in status.reasons && (P.Named(s.printers, name) < |s.printers| || advertised)
  }

  lemma AdvertNext(s: Sys, s1: Sys, a: Action, answer: Option<P.PollStatus>, before: set<string>, adverts: set<string>, name: string)
    requires name in adverts <==> AdvertOf(s, answer, name, name in before)
    requires P.Names(s1.printers) == P.Names(s.printers) && (answer.Some? ==> !InQueue(s1, name))
    ensures name in AdvertStep(s1, a, adverts)
       <==> AdvertOf(s, if AnswersFor(s1, a, name) then a.answer else answer, name, name in before)
  {
    assert |P.Names(s1.printers)| == |P.Names(s.printers)|;
    if AnswersFor(s1, a, name) { assert InQueue(s1, name); }
  }

  /** At every moment of a pass, whatever has run: a name answered for is advertised exactly if the
      answer is not offline (and there is such a printer, or it was advertised), and any other name
      exactly if it was. */
  lemma {:induction false} AdvertsExactly(s: Sys, run: seq<Action>, adverts: set<string>, name: string)
    requires s.poller.Polling? && S.DistinctConfigs(s.poller.queue) && WithinPass(run)
    ensures name in AdvertsAfter(s, run, adverts) <==>
            match AnswerTo(s, run, name)
            case None => name in adverts
            case Some(status) =>
              Offline !in status.reasons && (P.Named(s.printers, name) < |s.printers| || name in adverts)
  {
    if run != [] {
      var before, a := run[..|run| - 1], run[|run| - 1];
      var s1 := Lifecycle.After(s, before);
      AdvertsExactly(s, before, adverts, name);
      AnsweredOnce(s, before, name);
      RunKeepsNames(s, before);
      AdvertNext(s, s1, a, AnswerTo(s, before, name), adverts, AdvertsAfter(s, before, adverts), name);
    }
  }
}
