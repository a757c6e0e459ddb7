/** The saved file against the live configurations, over runs whose saves may overlap. */
module LifecycleSaves {
  import opened Common
  import opened PrintWorkers
  import opened Lifecycle
  import P = Printers

  /** Somebody has changed the configuration and not yet begun to save it. */
  ghost predicate Owes(s: Sys) {
    || (s.poller.Polling? && s.poller.changed)
    || s.poller.PollOwes?
    || exists h :: 0 <= h < |s.media| && s.media[h].MediaOwes?
  }

  datatype Saver = ByWorker(w: nat) | ByPoller | ByMedia(h: nat)

  /** The snapshot `x` has taken and not yet written. */
  function Pending(s: Sys, x: Saver): Option<seq<P.Config>> {
    match x
    case ByWorker(w) => if w < |s.workers| && s.workers[w].pc.Saving? then Some(s.workers[w].pc.snapshot) else None
    case ByPoller => if s.poller.PollSaving? then Some(s.poller.snapshot) else None
    case ByMedia(h) => if h < |s.media| && s.media[h].MediaSaving? then Some(s.media[h].snapshot) else None
  }

  datatype SaveEvent = Begins(x: Saver) | Ends(x: Saver) | NoSave

  /** What the step is to the file: a snapshot taken, a snapshot written, or nothing. */
  function EventOf(s: Sys, a: Action): SaveEvent {
    match a
    case Work(w, _, _) =>
      if !CanWork(s, w) then NoSave
      else if s.workers[w].pc.Persist? then Begins(ByWorker(w))
      else if s.workers[w].pc.Saving? then Ends(ByWorker(w))
      else NoSave
    case PollSave =>
      if s.poller.PollOwes? then Begins(ByPoller) else if s.poller.PollSaving? then Ends(ByPoller) else NoSave
    case MediaSave(h) =>
      if h >= |s.media| then NoSave
      else if s.media[h].MediaOwes? then Begins(ByMedia(h))
      else if s.media[h].MediaSaving? then Ends(ByMedia(h))
      else NoSave
    case _ => NoSave
  }

  // ---- one step ---------------------------------------------------------------------------------

  ghost predicate OthersSame(s: Sys, s': Sys, x: Saver) {
    forall y :: y != x ==> Pending(s', y) == Pending(s, y)
  }

  /** A step does to the file and the snapshots what its event says, and a step that begins no save
      leaves the configurations as they are unless it leaves a save owed. */
  ghost predicate SaveStep(s: Sys, event: SaveEvent, s': Sys) {
    match event
    case Begins(x) =>
      && s'.disk == s.disk && s'.printers == s.printers
      && Pending(s, x).None? && Pending(s', x) == Some(P.Configs(s.printers)) && OthersSame(s, s', x)
    case Ends(x) =>
      && Pending(s, x) == Some(s'.disk) && s'.printers == s.printers
      && Pending(s', x).None? && OthersSame(s, s', x) && (Owes(s) ==> Owes(s'))
    case NoSave =>
      && s'.disk == s.disk && (forall x :: Pending(s', x) == Pending(s, x))
      && (!Owes(s') ==> !Owes(s) && P.Configs(s'.printers) == P.Configs(s.printers))
  }

  lemma WriteConfigs(printers: seq<P.Printer>, name: string, write: P.PrinterWrite)
    requires var i := P.Named(printers, name); i < |printers| ==> P.Apply(printers[i], write).config == printers[i].config
    ensures P.Configs(P.Write(printers, name, write)) == P.Configs(printers)
  {
  }

  lemma OwesFrame(s: Sys, s': Sys)
    requires s'.media == s.media
    requires (s.poller.Polling? && s.poller.changed) || s.poller.PollOwes?
             <==> (s'.poller.Polling? && s'.poller.changed) || s'.poller.PollOwes?
    ensures Owes(s') <==> Owes(s)
  {
  }

  lemma ActSaves(w: Worker, input: Input)
    ensures var (w', effect) := Act(w, input);
            && (w'.pc.Saving? <==> w.pc.Persist?) && (w'.pc.Saving? ==> w'.pc.snapshot == input.live)
            && (effect.EndSave? <==> w.pc.Saving?) && (effect.EndSave? ==> effect.snapshot == w.pc.snapshot)
            && (effect.OnPrinter? ==>
                  !w.pc.Persist? && !w.pc.Saving? && (effect.printerWrite.SetState? || effect.printerWrite.SetReasons?))
  {
  }

  lemma WorkSaves(s: Sys, w: nat, outcome: JobOutcome, now: int)
    requires CanWork(s, w)
    ensures SaveStep(s, EventOf(s, Work(w, outcome, now)), WorkStep(s, w, outcome, now))
  {
    var s', input, effect := WorkStep(s, w, outcome, now), InputOf(s, w, outcome), EffectOf(s, w, outcome);
    ActSaves(s.workers[w], input);
    if effect.OnPrinter? { WriteConfigs(s.printers, s.workers[w].printer, effect.printerWrite); }
    assert s'.workers == s.workers[w := Act(s.workers[w], input).0];
    OwesFrame(s, s');
  }

  /** A poll answer that leaves no save owed has changed no configuration. */
  lemma AnswerSaves(s: Sys, answer: Option<P.PollStatus>)
    requires s.poller.Polling? && s.poller.queue != []
    ensures SaveStep(s, NoSave, AnswerStep(s, answer))
  {
    var s', name := AnswerStep(s, answer), s.poller.queue[0].name;
    var i := P.Named(s.printers, name);
    if answer.Some? && i < |s.printers| {
      P.PolledUnreported(s.printers[i], answer.value);
      if !s'.poller.changed { WriteConfigs(s.printers, name, P.Poll(answer.value)); }
    }
    assert s'.media == s.media;
  }

  lemma LoadSaves(s: Sys, printer: string, media: P.ReadyMedia)
    ensures SaveStep(s, NoSave, Next(s, LoadMedia(printer, media)))
  {
    var s' := Next(s, LoadMedia(printer, media));
    if s' != s {
      assert s'.media[|s.media|].MediaOwes?;
    }
  }

  lemma MediaSaves(s: Sys, h: nat)
    ensures SaveStep(s, EventOf(s, MediaSave(h)), Next(s, MediaSave(h)))
  {
    var s' := Next(s, MediaSave(h));
    if h < |s.media| && s.media[h].MediaSaving? {
      forall k | 0 <= k < |s.media| && s.media[k].MediaOwes? ensures s'.media[k].MediaOwes? {}
    }
  }

  lemma PollSaves(s: Sys)
    ensures SaveStep(s, EventOf(s, PollSave), Next(s, PollSave))
  {
  }

  predicate Quiet(a: Action) {
    a.CreateJob? || a.Spawn? || a.CancelJob? || a.PollSnapshot? || a.PollEnd?
  }

  lemma OthersSave(s: Sys, a: Action)
    requires Quiet(a)
    ensures SaveStep(s, NoSave, Next(s, a))
  {
    OwesFrame(s, Next(s, a));
  }

  lemma StepSaves(s: Sys, a: Action)
    ensures SaveStep(s, EventOf(s, a), Next(s, a))
  {
    if Quiet(a) {
      OthersSave(s, a);
    } else {
      match a
      case Work(w, outcome, now) => if CanWork(s, w) { WorkSaves(s, w, outcome, now); }
      case PollAnswer(answer) => if s.poller.Polling? && s.poller.queue != [] { AnswerSaves(s, answer); }
      case LoadMedia(printer, media) => LoadSaves(s, printer, media);
      case MediaSave(h) => MediaSaves(s, h);
      case PollSave => PollSaves(s);
    }
  }

  // ---- runs -------------------------------------------------------------------------------------

  /** A save is known by the moment of its snapshot: the number of actions before it. The file a run
      starts with counts as a save of moment 0. */
  function ConfigsAt(s0: Sys, run: seq<Action>, moment: nat): seq<P.Config>
    requires moment <= |run|
  {
    P.Configs(Lifecycle.After(s0, run[..moment]).printers)
  }

  /** Moment of the save begun last. */
  function LastBegun(s0: Sys, run: seq<Action>): (moment: nat)
    ensures moment <= |run|
  {
    if run == [] then 0
    else
      var before := run[..|run| - 1];
      if EventOf(Lifecycle.After(s0, before), run[|run| - 1]).Begins? then |before| else LastBegun(s0, before)
  }

  /** Moment of the save `x` has begun last. */
  function BegunBy(s0: Sys, run: seq<Action>, x: Saver): (moment: nat)
    ensures moment <= |run|
  {
    if run == [] then 0
    else
      var before := run[..|run| - 1];
      if EventOf(Lifecycle.After(s0, before), run[|run| - 1]) == Begins(x) then |before| else BegunBy(s0, before, x)
  }

  /** Moment of the save that has ended last. */
  function LastEnded(s0: Sys, run: seq<Action>): (moment: nat)
    ensures moment <= |run|
  {
    if run == [] then 0
    else
      var before := run[..|run| - 1];
      var event := EventOf(Lifecycle.After(s0, before), run[|run| - 1]);
      if event.Ends? then BegunBy(s0, before, event.x) else LastEnded(s0, before)
  }

  /** Every snapshot not yet written is of the moment its save began, the file of that of the save
      that ended last, and unless a save is owed the live configurations are those of the save begun last. */
  ghost predicate SavesOk(s0: Sys, run: seq<Action>) {
    var s := Lifecycle.After(s0, run);
    && (forall x :: Pending(s, x).Some? ==> Pending(s, x).value == ConfigsAt(s0, run, BegunBy(s0, run, x)))
    && s.disk == ConfigsAt(s0, run, LastEnded(s0, run))
    && (!Owes(s) ==> P.Configs(s.printers) == ConfigsAt(s0, run, LastBegun(s0, run)))
  }

  lemma EarlierMoment(s0: Sys, run: seq<Action>, moment: nat)
    requires run != [] && moment < |run|
    ensures ConfigsAt(s0, run, moment) == ConfigsAt(s0, run[..|run| - 1], moment)
  {
    assert run[..|run| - 1][..moment] == run[..moment];
  }

  lemma StepKeepsSaves(s0: Sys, run: seq<Action>)
    requires run != [] && SavesOk(s0, run[..|run| - 1])
    ensures SavesOk(s0, run)
  {
    var before, a := run[..|run| - 1], run[|run| - 1];
    var s, s' := Lifecycle.After(s0, before), Lifecycle.After(s0, run);
    StepSaves(s, a);
    assert before[..|before|] == before;
    EarlierMoment(s0, run, |before|);
    EarlierMoment(s0, run, LastEnded(s0, before));
    EarlierMoment(s0, run, LastBegun(s0, before));
    forall x | Pending(s', x).Some? ensures Pending(s', x).value == ConfigsAt(s0, run, BegunBy(s0, run, x)) {
      EarlierMoment(s0, run, BegunBy(s0, before, x));
    }
    if EventOf(s, a).Ends? {
      EarlierMoment(s0, run, BegunBy(s0, before, EventOf(s, a).x));
    }
  }

  lemma {:induction false} RunKeepsSaves(s0: Sys, run: seq<Action>)
    requires Init(s0)
    ensures SavesOk(s0, run)
  {
    if run == [] {
      assert run[..0] == [];
    } else {
      RunKeepsSaves(s0, run[..|run| - 1]);
      StepKeepsSaves(s0, run);
    }
  }

  /** However saves overlap: once nobody owes a save, the file holds the live configurations exactly if
      the save that ended last had the same snapshot as the one that began last; so surely if they are
      one save. */
  lemma SavedIsLive(s0: Sys, run: seq<Action>)
    requires Init(s0) && !Owes(Lifecycle.After(s0, run))
    ensures var s := Lifecycle.After(s0, run);
            && (s.disk == P.Configs(s.printers) <==>
                ConfigsAt(s0, run, LastEnded(s0, run)) == ConfigsAt(s0, run, LastBegun(s0, run)))
            && (LastEnded(s0, run) == LastBegun(s0, run) ==> s.disk == P.Configs(s.printers))
  {
    RunKeepsSaves(s0, run);
  }

  /** No save of the run began while another was under way. */
  ghost predicate OneAtATime(s0: Sys, run: seq<Action>) {
    forall k :: 0 <= k < |run| ==> CalmBegin(s0, run[..k], run[k])
  }

  ghost predicate CalmBegin(s0: Sys, before: seq<Action>, a: Action) {
    var s := Lifecycle.After(s0, before);
    EventOf(s, a).Begins? ==> forall x :: Pending(s, x).None?
  }

  /** Then a save under way is the one begun last, and with none under way that one has ended last. */
  ghost predicate InOrder(s0: Sys, run: seq<Action>) {
    var s := Lifecycle.After(s0, run);
    && (forall x :: Pending(s, x).Some? ==> BegunBy(s0, run, x) == LastBegun(s0, run) && forall y :: y != x ==> Pending(s, y).None?)
    && ((forall x :: Pending(s, x).None?) ==> LastEnded(s0, run) == LastBegun(s0, run))
  }

  lemma BeginInOrder(s0: Sys, run: seq<Action>, x: Saver)
    requires run != []
    requires var s := Lifecycle.After(s0, run[..|run| - 1]);
             EventOf(s, run[|run| - 1]) == Begins(x) && forall y :: Pending(s, y).None?
    ensures InOrder(s0, run)
  {
    StepSaves(Lifecycle.After(s0, run[..|run| - 1]), run[|run| - 1]);
  }

  lemma EndInOrder(s0: Sys, run: seq<Action>, x: Saver)
    requires run != [] && InOrder(s0, run[..|run| - 1])
    requires EventOf(Lifecycle.After(s0, run[..|run| - 1]), run[|run| - 1]) == Ends(x)
    ensures InOrder(s0, run)
  {
    StepSaves(Lifecycle.After(s0, run[..|run| - 1]), run[|run| - 1]);
  }

  lemma OtherInOrder(s0: Sys, run: seq<Action>)
    requires run != [] && InOrder(s0, run[..|run| - 1])
    requires EventOf(Lifecycle.After(s0, run[..|run| - 1]), run[|run| - 1]) == NoSave
    ensures InOrder(s0, run)
  {
    var before := run[..|run| - 1];
    var s, s' := Lifecycle.After(s0, before), Lifecycle.After(s0, run);
    StepSaves(s, run[|run| - 1]);
    forall x ensures Pending(s', x) == Pending(s, x) && BegunBy(s0, run, x) == BegunBy(s0, before, x) {}
  }

  lemma StepInOrder(s0: Sys, run: seq<Action>)
    requires run != [] && InOrder(s0, run[..|run| - 1]) && CalmBegin(s0, run[..|run| - 1], run[|run| - 1])
    ensures InOrder(s0, run)
  {
    var s, a := Lifecycle.After(s0, run[..|run| - 1]), run[|run| - 1];
    match EventOf(s, a)
    case Begins(x) => BeginInOrder(s0, run, x);
    case Ends(x) => EndInOrder(s0, run, x);
    case NoSave => OtherInOrder(s0, run);
  }

  lemma {:induction false} OneAtATimeInOrder(s0: Sys, run: seq<Action>)
    requires Init(s0) && OneAtATime(s0, run)
    ensures InOrder(s0, run)
  {
    if run != [] {
      var before := run[..|run| - 1];
      forall k | 0 <= k < |before| ensures CalmBegin(s0, before[..k], before[k]) {
        assert before[..k] == run[..k] && CalmBegin(s0, run[..k], run[k]);
      }
      OneAtATimeInOrder(s0, before);
      assert CalmBegin(s0, run[..|run| - 1], run[|run| - 1]);
      StepInOrder(s0, run);
    }
  }

  /** If saves have come one at a time, the file holds the live configurations whenever nobody owes a
      save or is in the middle of one. */
  lemma OneAtATimeIsLive(s0: Sys, run: seq<Action>)
    requires Init(s0) && OneAtATime(s0, run)
    requires var s := Lifecycle.After(s0, run); !Owes(s) && forall x :: Pending(s, x).None?
    ensures Lifecycle.After(s0, run).disk == P.Configs(Lifecycle.After(s0, run).printers)
  {
    OneAtATimeInOrder(s0, run);
    SavedIsLive(s0, run);
  }
}
