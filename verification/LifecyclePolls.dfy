/** The poller's pass among everything else that runs: exactly when it disturbs printing, what it leaves
    of every printer, and what may undo it. */
module LifecyclePolls {
  import opened Common
  import opened PrintWorkers
  import opened Lifecycle
  import P = Printers

  // ---- the poller and printing printers -------------------------------------------------------

  /** A queued printer that is printing has been started on since the snapshot. */
  ghost predicate QueueFresh(s: Sys) {
    s.poller.Polling? ==> forall c :: c in s.poller.queue ==>
      var i := P.Named(s.printers, c.name);
      i < |s.printers| && (s.printers[i].state == P.Processing ==> c.name in s.poller.started)
  }

  lemma SnapshotIsFresh(printers: seq<P.Printer>, c: P.Config)
    requires P.DistinctNames(printers) && c in P.Pollable(printers)
    ensures var i := P.Named(printers, c.name); i < |printers| && printers[i].state != P.Processing
  {
    P.PollableMembers(printers, c);
    var i :| 0 <= i < |printers| && printers[i].config == c && printers[i].state != P.Processing;
    P.NamedDistinct(printers, i);
  }

  lemma WorkKeepsQueueFresh(s: Sys, w: nat, outcome: JobOutcome, now: int)
    requires Inv(s) && QueueFresh(s) && w < |s.workers|
    ensures var s' := WorkStep(s, w, outcome, now); QueueFresh(s') && P.Names(s'.printers) == P.Names(s.printers)
  {
    var s', effect := WorkStep(s, w, outcome, now), EffectOf(s, w, outcome);
    WorkFrame(s, w, outcome, now);
    ActOnPrinter(s.workers[w], InputOf(s, w, outcome));
    if s.poller.Polling? {
      forall c | c in s'.poller.queue
        ensures var i := P.Named(s'.printers, c.name);
                i < |s'.printers| && (s'.printers[i].state == P.Processing ==> c.name in s'.poller.started)
      {
        var i := P.Named(s.printers, c.name);
        assert c in s.poller.queue;
        if effect.OnPrinter? && i == PrinterOf(s, w) {
          assert s.workers[w].printer == s.printers[i].config.name == c.name;
        }
      }
    }
  }

  /** A write that sets no printer to Processing. */
  lemma OtherWritesKeepFresh(s: Sys, s': Sys, name: string, write: P.PrinterWrite)
    requires QueueFresh(s) && (write.Poll? || write.LoadMedia?)
    requires s'.printers == P.Write(s.printers, name, write)
    requires s'.poller.Polling? ==>
               && s.poller.Polling? && s'.poller.started == s.poller.started
               && forall c :: c in s'.poller.queue ==> c in s.poller.queue
    ensures QueueFresh(s') && P.Names(s'.printers) == P.Names(s.printers)
  {
    P.WriteKeepsNames(s.printers, name, write);
  }

  lemma SnapshotKeepsFresh(s: Sys)
    requires P.DistinctNames(s.printers) && QueueFresh(s)
    ensures QueueFresh(Next(s, PollSnapshot))
  {
    if s.poller.Resting? {
      forall c | c in P.Pollable(s.printers)
        ensures var i := P.Named(s.printers, c.name); i < |s.printers| && s.printers[i].state != P.Processing
      {
        SnapshotIsFresh(s.printers, c);
      }
    }
  }

  lemma AnswerKeepsFresh(s: Sys, answer: Option<P.PollStatus>)
    requires QueueFresh(s) && s.poller.Polling? && s.poller.queue != []
    ensures QueueFresh(AnswerStep(s, answer)) && P.Names(AnswerStep(s, answer).printers) == P.Names(s.printers)
  {
    var name := s.poller.queue[0].name;
    if answer.Some? && P.Named(s.printers, name) < |s.printers| {
      OtherWritesKeepFresh(s, AnswerStep(s, answer), name, P.Poll(answer.value));
    }
  }

  lemma FreshFrame(s: Sys, s': Sys)
    requires QueueFresh(s) && s'.printers == s.printers && (s'.poller.Polling? ==> s'.poller == s.poller)
    ensures QueueFresh(s')
  {
  }

  lemma StepKeepsQueueFresh(s: Sys, a: Action)
    requires Inv(s) && QueueFresh(s) && P.DistinctNames(s.printers)
    ensures QueueFresh(Next(s, a)) && P.Names(Next(s, a).printers) == P.Names(s.printers)
  {
    if a.PollSnapshot? {
      SnapshotKeepsFresh(s);
    } else if a.Work? {
      if CanWork(s, a.w) { WorkKeepsQueueFresh(s, a.w, a.outcome, a.now); }
    } else if a.LoadMedia? {
      if P.Named(s.printers, a.printer) < |s.printers| { OtherWritesKeepFresh(s, Next(s, a), a.printer, P.LoadMedia(a.media)); }
    } else if a.PollAnswer? && s.poller.Polling? && s.poller.queue != [] {
      AnswerKeepsFresh(s, a.answer);
    } else {
      FreshFrame(s, Next(s, a));
    }
  }

  lemma DistinctByNames(a: seq<P.Printer>, b: seq<P.Printer>)
    requires P.Names(a) == P.Names(b) && P.DistinctNames(a)
    ensures P.DistinctNames(b)
  {
    forall i, j | 0 <= i < j < |b| ensures b[i].config.name != b[j].config.name {
      assert P.Names(a)[i] == P.Names(b)[i] && P.Names(a)[j] == P.Names(b)[j];
      assert a[i].config.name != a[j].config.name;
    }
  }

  lemma {:induction false} RunKeepsQueueFresh(s: Sys, run: seq<Action>)
    requires Inv(s) && QueueFresh(s) && P.DistinctNames(s.printers)
    ensures QueueFresh(Lifecycle.After(s, run)) && P.DistinctNames(Lifecycle.After(s, run).printers)
  {
    if run != [] {
      var s1 := Lifecycle.After(s, run[..|run| - 1]);
      RunKeepsQueueFresh(s, run[..|run| - 1]);
      RunKeepsInv(s, run[..|run| - 1]);
      StepKeepsQueueFresh(s1, run[|run| - 1]);
      DistinctByNames(s1.printers, Lifecycle.After(s, run).printers);
    }
  }

  /** With distinct names, a poll answer finds its printer printing only if a worker has started on
      it since the poller took its snapshot. */
  lemma PollDisturbsOnlyStarted(s0: Sys, run: seq<Action>)
    requires Init(s0) && P.DistinctNames(s0.printers)
    ensures var s := Lifecycle.After(s0, run);
            s.poller.Polling? && s.poller.queue != [] ==>
              var name := s.poller.queue[0].name; var i := P.Named(s.printers, name);
              i < |s.printers| && (s.printers[i].state == P.Processing ==> name in s.poller.started)
  {
    InitInv(s0);
    RunKeepsQueueFresh(s0, run);
  }

  /** A worker starts on the printer called `name`. */
  predicate StartsOn(s: Sys, a: Action, name: string) {
    a.Work? && CanWork(s, a.w) && s.workers[a.w].pc.Start? && s.workers[a.w].printer == name
  }

  predicate Printing(s: Sys, name: string) {
    var i := P.Named(s.printers, name);
    i < |s.printers| && s.printers[i].state == P.Processing
  }

  lemma WorkPrinting(s: Sys, w: nat, outcome: JobOutcome, now: int, name: string)
    requires Inv(s) && w < |s.workers|
    ensures var a := Work(w, outcome, now);
            && (Printing(Next(s, a), name) ==> Printing(s, name) || StartsOn(s, a, name))
            && (StartsOn(s, a, name) ==> Printing(Next(s, a), name))
  {
    WorkFrame(s, w, outcome, now);
    ActOnPrinter(s.workers[w], InputOf(s, w, outcome));
  }

  lemma OtherPrinting(s: Sys, s': Sys, printer: string, write: P.PrinterWrite, name: string)
    requires (write.Poll? || write.LoadMedia?) && s'.printers == P.Write(s.printers, printer, write)
    ensures Printing(s', name) ==> Printing(s, name)
  {
    P.WriteKeepsNames(s.printers, printer, write);
  }

  /** A printer comes to print by a worker's start and by nothing else. */
  lemma StepPrinting(s: Sys, a: Action, name: string)
    requires Inv(s)
    ensures Printing(Next(s, a), name) ==> Printing(s, name) || StartsOn(s, a, name)
    ensures StartsOn(s, a, name) ==> Printing(Next(s, a), name)
  {
    if a.Work? {
      if CanWork(s, a.w) { WorkPrinting(s, a.w, a.outcome, a.now, name); }
    } else if a.LoadMedia? {
      if P.Named(s.printers, a.printer) < |s.printers| {
        OtherPrinting(s, Next(s, a), a.printer, P.LoadMedia(a.media), name);
      }
    } else if a.PollAnswer? && s.poller.Polling? && s.poller.queue != [] && a.answer.Some?
              && P.Named(s.printers, s.poller.queue[0].name) < |s.printers| {
      OtherPrinting(s, Next(s, a), s.poller.queue[0].name, P.Poll(a.answer.value), name);
    }
  }

  /** The printer is printing after `k` steps of the run. */
  ghost predicate PrintsAt(s: Sys, run: seq<Action>, k: nat, name: string) {
    k <= |run| && Printing(Lifecycle.After(s, run[..k]), name)
  }

  /** The step of the run after `k` others is a worker's start on the printer. */
  ghost predicate StartsAt(s: Sys, run: seq<Action>, k: nat, name: string) {
    k < |run| && StartsOn(Lifecycle.After(s, run[..k]), run[k], name)
  }

  lemma LastStep(s: Sys, run: seq<Action>, name: string)
    requires Inv(s) && run != []
    ensures PrintsAt(s, run, |run|, name) ==> PrintsAt(s, run, |run| - 1, name) || StartsAt(s, run, |run| - 1, name)
    ensures StartsAt(s, run, |run| - 1, name) ==> PrintsAt(s, run, |run|, name)
  {
    RunKeepsInv(s, run[..|run| - 1]);
    StepPrinting(Lifecycle.After(s, run[..|run| - 1]), run[|run| - 1], name);
    assert run[..|run|] == run;
  }

  lemma {:induction false} PrintsOnlyStarted(s: Sys, run: seq<Action>, k: nat, name: string) returns (m: nat)
    requires Inv(s) && !Printing(s, name) && PrintsAt(s, run, k, name)
    ensures StartsAt(s, run, m, name)
    decreases k
  {
    assert run[..0] == [];
    assert k > 0;
    m := k - 1;
    var upTo := run[..k];
    assert upTo[..k] == upTo && upTo[..m] == run[..m];
    LastStep(s, upTo, name);
    if !StartsAt(s, run, m, name) {
      m := PrintsOnlyStarted(s, run, m, name);
    }
  }

  lemma StartedPrints(s: Sys, run: seq<Action>, k: nat, name: string)
    requires Inv(s) && StartsAt(s, run, k, name)
    ensures PrintsAt(s, run, k + 1, name)
  {
    var upTo := run[..k + 1];
    assert upTo[..k] == run[..k] && upTo[..k + 1] == upTo;
    LastStep(s, upTo, name);
  }

  /** A printer that is not printing prints at some moment of a run exactly if a worker starts on it
      in the run. */
  lemma PrintsExactly(s: Sys, run: seq<Action>, name: string)
    requires Inv(s) && !Printing(s, name)
    ensures (exists k: nat :: PrintsAt(s, run, k, name)) <==> (exists k: nat :: StartsAt(s, run, k, name))
  {
    if k: nat :| PrintsAt(s, run, k, name) {
      var m := PrintsOnlyStarted(s, run, k, name);
    }
    if k: nat :| StartsAt(s, run, k, name) {
      StartedPrints(s, run, k, name);
    }
  }

  /** The answer of the next queued printer takes it from printing. */
  ghost predicate Disturbs(s: Sys, status: P.PollStatus) {
    && s.poller.Polling? && s.poller.queue != [] && Printing(s, s.poller.queue[0].name)
    && !Printing(Next(s, PollAnswer(Some(status))), s.poller.queue[0].name)
  }

  lemma AnswerDisturbs(s: Sys, status: P.PollStatus)
    requires s.poller.Polling? && s.poller.queue != []
    ensures Disturbs(s, status) <==> Printing(s, s.poller.queue[0].name)
  {
    P.WriteKeepsNames(s.printers, s.poller.queue[0].name, P.Poll(status));
  }

  /** Whenever a worker starts on the printer whose answer comes next, any answer takes the printer
      from printing while the worker goes on. */
  lemma StartThenAnswerDisturbs(s: Sys, w: nat, outcome: JobOutcome, now: int, status: P.PollStatus)
    requires Inv(s) && s.poller.Polling? && s.poller.queue != []
    requires StartsOn(s, Work(w, outcome, now), s.poller.queue[0].name)
    ensures var s1 := Next(s, Work(w, outcome, now)); var s2 := Next(s1, PollAnswer(Some(status)));
            && Disturbs(s1, status) && w < |s2.workers| && s2.workers[w].pc.Started?
  {
    StepPrinting(s, Work(w, outcome, now), s.poller.queue[0].name);
    AnswerDisturbs(Next(s, Work(w, outcome, now)), status);
  }

  ghost predicate NoAnswer(run: seq<Action>) {
    forall a :: a in run ==> !a.PollAnswer?
  }

  lemma {:induction false} PollerWaits(s: Sys, run: seq<Action>)
    requires s.poller.Polling? && s.poller.queue != [] && NoAnswer(run)
    ensures var p := Lifecycle.After(s, run).poller; p.Polling? && p.queue == s.poller.queue
  {
    if run != [] {
      PollerWaits(s, run[..|run| - 1]);
      assert run[|run| - 1] in run;
    }
  }

  ghost predicate DisturbsAt(s: Sys, run: seq<Action>, k: nat, status: P.PollStatus) {
    k <= |run| && Disturbs(Lifecycle.After(s, run[..k]), status)
  }

  /** While the poller waits for a printer that is not printing, there is a moment at which the answer
      would take it from printing, exactly if a worker starts on the printer meanwhile. */
  lemma DisturbedExactly(s: Sys, run: seq<Action>, status: P.PollStatus)
    requires Inv(s) && s.poller.Polling? && s.poller.queue != [] && NoAnswer(run)
    requires !Printing(s, s.poller.queue[0].name)
    ensures (exists k: nat :: DisturbsAt(s, run, k, status)) <==> (exists k: nat :: StartsAt(s, run, k, s.poller.queue[0].name))
  {
    var name := s.poller.queue[0].name;
    forall k: nat ensures DisturbsAt(s, run, k, status) <==> PrintsAt(s, run, k, name) {
      if k <= |run| {
        PollerWaits(s, run[..k]);
        AnswerDisturbs(Lifecycle.After(s, run[..k]), status);
      }
    }
    PrintsExactly(s, run, name);
    if k: nat :| PrintsAt(s, run, k, name) {
      assert DisturbsAt(s, run, k, status);
    }
  }
}
