/** Printer records updated in place (src/printer.rs) and the status poller's pass over them
    (src/status.rs). */
module Status {
  import opened Common
  import opened Printers

  class PrinterRecord {
    var config: Config
    var state: PrinterState
    var reasons: Reasons
    var readyMedia: Option<ReadyMedia>
    var supplyPercent: Option<int>

    function View(): Printer
      reads this
    {
      Printer(config, state, reasons, readyMedia, supplyPercent)
    }

    constructor (config: Config)
      ensures View() == NewPrinter(config)
    {
      this.config := config;
      state, reasons, readyMedia, supplyPercent := Idle, {}, None, None;
    }

    method SetReadyMedia(media: ReadyMedia) returns (changed: bool)
      modifies this
      ensures (View(), changed) == Printers.SetReadyMedia(old(View()), media)
    {
      var wasDefault := config.mediaNames != [] && config.mediaNames[0] == media.name;
      if !wasDefault {
        var i := 0;
        while i < |config.mediaNames| && config.mediaNames[i] != media.name
          invariant i <= |config.mediaNames|
          invariant forall k :: 0 <= k < i ==> config.mediaNames[k] != media.name
        {
          i := i + 1;
        }
        PositionUnique(config.mediaNames, media.name, i);
        if i < |config.mediaNames| {
          config := config.(mediaNames := RemoveAt(config.mediaNames, i));
          if i < |config.mediaSizes| {
            config := config.(mediaSizes := RemoveAt(config.mediaSizes, i));
          }
        }
        config := config.(mediaNames := [media.name] + config.mediaNames);
        config := config.(mediaSizes := [media.size] + config.mediaSizes);
      }
      changed := !wasDefault || readyMedia.None? || readyMedia.value.size != media.size;
      readyMedia := Some(media);
    }
  }

  /** The lock section of one answer, on the record found. */
  method TakeAnswer(rec: PrinterRecord, status: PollStatus) returns (mediaChanged: bool)
    modifies rec
    ensures (rec.View(), mediaChanged) == Polled(old(rec.View()), status)
  {
    mediaChanged := false;
    if rec.reasons != status.reasons {
      rec.reasons := status.reasons;
    }
    var want := if Offline !in status.reasons then Idle else Stopped;
    if rec.state != want {
      rec.state := want;
    }
    if status.readyMedia.Some? {
      mediaChanged := rec.SetReadyMedia(status.readyMedia.value);
    }
    if status.supplyPercent.Some? {
      rec.supplyPercent := status.supplyPercent;
    }
  }

  /** The discovery adverts; publishing is taken to succeed. */
  class Advertiser {
    var names: set<string>

    predicate IsAdvertised(name: string)
      reads this
    {
      name in names
    }

    method Publish(name: string)
      modifies this
      ensures names == old(names) + {name}
    {
      names := names + {name};
    }

    method Withdraw(name: string)
      modifies this
      ensures names == old(names) - {name}
    {
      names := names - {name};
    }
  }

  ghost function Views(records: seq<PrinterRecord>): (v: seq<Printer>)
    reads records
    ensures |v| == |records| && forall i :: 0 <= i < |v| ==> v[i] == records[i].View()
  {
    seq(|records|, i requires 0 <= i < |records| reads records => records[i].View())
  }

  // ---- what one pass is to do --------------------------------------------------------------

  /** Answers of the devices in one pass, by printer name. */
  type Answers = string -> Option<PollStatus>

  predicate Answered(p: Printer, answers: Answers) {
    p.state != Processing && answers(p.config.name).Some?
  }

  /** A printer after a pass that nothing interferes with. */
  function PolledOnce(p: Printer, answers: Answers): Printer {
    if Answered(p, answers) then Polled(p, answers(p.config.name).value).0 else p
  }

  predicate MediaChanges(p: Printer, answers: Answers) {
    Answered(p, answers) && Polled(p, answers(p.config.name).value).1
  }

  lemma SameAnswers(printers: seq<Printer>, a: Answers, b: Answers)
    requires forall name :: a(name) == b(name)
    ensures AnyMediaChanges(printers, a) <==> AnyMediaChanges(printers, b)
  {
    forall i | 0 <= i < |printers| ensures MediaChanges(printers[i], a) <==> MediaChanges(printers[i], b) {}
  }

  /** The answer brings a roll that was not the default, or was not ready with its size. */
  predicate RollChanges(p: Printer, answers: Answers) {
    && p.state != Processing && answers(p.config.name).Some? && answers(p.config.name).value.readyMedia.Some?
    && var media := answers(p.config.name).value.readyMedia.value;
       || p.config.mediaNames == [] || p.config.mediaNames[0] != media.name
       || p.readyMedia.None? || p.readyMedia.value.size != media.size
  }

  lemma MediaChangesExactly(p: Printer, answers: Answers)
    ensures MediaChanges(p, answers) <==> RollChanges(p, answers)
  {
    if Answered(p, answers) { PolledMeans(p, answers(p.config.name).value); }
  }

  lemma AnyRollChanges(printers: seq<Printer>, answers: Answers)
    ensures AnyMediaChanges(printers, answers) <==> exists i :: 0 <= i < |printers| && RollChanges(printers[i], answers)
  {
    forall i | 0 <= i < |printers| ensures MediaChanges(printers[i], answers) <==> RollChanges(printers[i], answers) {
      MediaChangesExactly(printers[i], answers);
    }
  }

  function PollPass(printers: seq<Printer>, answers: Answers): (r: seq<Printer>)
    ensures |r| == |printers| && forall i :: 0 <= i < |r| ==> r[i] == PolledOnce(printers[i], answers)
  {
    seq(|printers|, i requires 0 <= i < |printers| => PolledOnce(printers[i], answers))
  }

  predicate AnyMediaChanges(printers: seq<Printer>, answers: Answers) {
    exists i :: 0 <= i < |printers| && MediaChanges(printers[i], answers)
  }

  ghost function PolledNames(printers: seq<Printer>): set<string> {
    set c | c in Pollable(printers) :: c.name
  }

  /** Whether `name` is advertised once the printers called `polled` have been reconciled. */
  predicate AdvertAfter(name: string, advertised: bool, polled: set<string>, answers: Answers) {
    if name in polled && answers(name).Some? then Offline !in answers(name).value.reasons else advertised
  }

  /** A printer of this name is polled and answers. */
  predicate Asked(printers: seq<Printer>, name: string, answers: Answers) {
    answers(name).Some? && exists i :: 0 <= i < |printers| && printers[i].config.name == name && printers[i].state != Processing
  }

  lemma AdvertExactly(printers: seq<Printer>, name: string, advertised: bool, answers: Answers)
    ensures AdvertAfter(name, advertised, PolledNames(printers), answers)
       <==> if Asked(printers, name, answers) then Offline !in answers(name).value.reasons else advertised
  {
    if name in PolledNames(printers) {
      var c :| c in Pollable(printers) && c.name == name;
      PollableMembers(printers, c);
    }
    forall i | 0 <= i < |printers| && printers[i].config.name == name && printers[i].state != Processing
      ensures name in PolledNames(printers)
    {
      PollableMembers(printers, printers[i].config);
    }
  }

  // ---- the pass ---------------------------------------------------------------------------------

  lemma PollableFirst(printers: seq<Printer>, i: nat, front: seq<Config>)
    requires i < |printers|
    ensures front + Pollable(printers[i..])
         == (if printers[i].state != Processing then front + [printers[i].config] else front) + Pollable(printers[i + 1..])
  {
    assert printers[i..][1..] == printers[i + 1..];
  }

  method Snapshot(records: seq<PrinterRecord>) returns (configs: seq<Config>)
    ensures configs == Pollable(Views(records))
  {
    configs := [];
    ghost var views := Views(records);
    assert views[0..] == views;
    for i := 0 to |records|
      invariant configs + Pollable(views[i..]) == Pollable(views)
    {
      PollableFirst(views, i, configs);
      if records[i].state != Processing {
        configs := configs + [records[i].config];
      }
    }
    assert views[|records|..] == [];
    assert configs + [] == configs;
  }

  method FindNamed(records: seq<PrinterRecord>, name: string) returns (i: nat)
    ensures i == Named(Views(records), name)
  {
    i := 0;
    ghost var names := Names(Views(records));
    while i < |records| && records[i].config.name != name
      invariant i <= |records| && name !in names[..i]
    {
      assert names[..i + 1] == names[..i] + [names[i]];
      i := i + 1;
    }
    forall k | 0 <= k < i ensures names[k] != name {
      assert names[k] in names[..i];
    }
    PositionUnique(names, name, i);
  }

  ghost predicate DistinctConfigs(configs: seq<Config>) {
    forall i, j :: 0 <= i < j < |configs| ==> configs[i].name != configs[j].name
  }

  lemma {:induction false} PollableDistinct(printers: seq<Printer>)
    requires DistinctNames(printers)
    ensures DistinctConfigs(Pollable(printers))
  {
    if printers != [] {
      PollableDistinct(printers[1..]);
      forall c | c in Pollable(printers[1..]) ensures c.name != printers[0].config.name {
        PollableMembers(printers[1..], c);
        var i :| 0 <= i < |printers[1..]| && printers[1..][i].config == c;
        assert printers[i + 1].config == c;
      }
    }
  }

  /** The printers after those called `done` have been polled. */
  ghost predicate PolledSoFar(now: seq<Printer>, before: seq<Printer>, done: set<string>, answers: Answers) {
    |now| == |before| && forall i :: 0 <= i < |now| ==>
      now[i] == if before[i].config.name in done then PolledOnce(before[i], answers) else before[i]
  }

  ghost predicate ChangedSoFar(before: seq<Printer>, done: set<string>, answers: Answers) {
    exists i :: 0 <= i < |before| && before[i].config.name in done && MediaChanges(before[i], answers)
  }

  lemma PolledName(p: Printer, answers: Answers)
    ensures PolledOnce(p, answers).config.name == p.config.name
  {
  }

  /** Polling the next queued configuration: it is found, once, and not yet polled. */
  lemma NextFound(now: seq<Printer>, before: seq<Printer>, configs: seq<Config>, k: nat, done: set<string>, answers: Answers)
    requires DistinctNames(before) && configs == Pollable(before) && k < |configs|
    requires done == (set j | 0 <= j < k :: configs[j].name) && PolledSoFar(now, before, done, answers)
    ensures var i := Named(now, configs[k].name);
            && i < |now| && now[i] == before[i] && before[i].state != Processing
            && configs[k].name !in done && before[i].config.name == configs[k].name
  {
    PollableMembers(before, configs[k]);
    var i :| 0 <= i < |before| && before[i].config == configs[k] && before[i].state != Processing;
    PollableDistinct(before);
    forall j | 0 <= j < |now| ensures now[j].config.name == before[j].config.name {
      PolledName(before[j], answers);
    }
    NamedDistinct(now, i);
  }

  lemma StepChanges(before: seq<Printer>, done: set<string>, i: nat, answers: Answers)
    requires DistinctNames(before) && i < |before|
    ensures ChangedSoFar(before, done + {before[i].config.name}, answers)
       <==> ChangedSoFar(before, done, answers) || MediaChanges(before[i], answers)
  {
    if ChangedSoFar(before, done + {before[i].config.name}, answers) && !ChangedSoFar(before, done, answers) {
      var j :| 0 <= j < |before| && before[j].config.name in done + {before[i].config.name} && MediaChanges(before[j], answers);
      assert j == i;
    }
  }

  /** The state of the pass once the first `k` queued printers have been polled. */
  ghost predicate PassAt(k: nat, before: seq<Printer>, now: seq<Printer>, done: set<string>, answers: Answers, changed: bool) {
    && k <= |Pollable(before)| && done == (set j | 0 <= j < k :: Pollable(before)[j].name)
    && PolledSoFar(now, before, done, answers) && (changed <==> ChangedSoFar(before, done, answers))
  }

  /** The write of a poll: only the printer found changes. */
  lemma StepPolls(now: seq<Printer>, before: seq<Printer>, done: set<string>, i: nat, answers: Answers)
    requires DistinctNames(before) && PolledSoFar(now, before, done, answers) && i < |before|
    requires now[i] == before[i] && before[i].state != Processing
    ensures var answer := answers(before[i].config.name);
            PolledSoFar(if answer.Some? then now[i := Polled(now[i], answer.value).0] else now, before,
                        done + {before[i].config.name}, answers)
  {
  }

  lemma PassStep(k: nat, before: seq<Printer>, now: seq<Printer>, done: set<string>, answers: Answers, changed: bool)
    requires DistinctNames(before) && PassAt(k, before, now, done, answers, changed) && k < |Pollable(before)|
    ensures var name := Pollable(before)[k].name; var answer := answers(name); var i := Named(now, name);
            && i < |now|
            && PassAt(k + 1, before, if answer.Some? then now[i := Polled(now[i], answer.value).0] else now,
                      done + {name}, answers, changed || (answer.Some? && Polled(now[i], answer.value).1))
  {
    var name := Pollable(before)[k].name;
    var i := Named(now, name);
    NextFound(now, before, Pollable(before), k, done, answers);
    StepPolls(now, before, done, i, answers);
    StepChanges(before, done, i, answers);
    assert (set j | 0 <= j < k + 1 :: Pollable(before)[j].name) == done + {name};
  }

  /** The adverts once the printers called `done` have been reconciled. */
  ghost predicate AdvertsAt(names: set<string>, before: set<string>, done: set<string>, answers: Answers) {
    forall name :: name in names <==> AdvertAfter(name, name in before, done, answers)
  }

  lemma AdvertStep(names: set<string>, before: set<string>, done: set<string>, answers: Answers, name: string)
    requires AdvertsAt(names, before, done, answers) && answers(name).Some?
    ensures AdvertsAt(if Offline !in answers(name).value.reasons then names + {name} else names - {name},
                      before, done + {name}, answers)
  {
  }

  lemma AllPolled(before: seq<Printer>, now: seq<Printer>, done: set<string>, answers: Answers, changed: bool)
    requires DistinctNames(before) && PassAt(|Pollable(before)|, before, now, done, answers, changed)
    ensures now == PollPass(before, answers) && done == PolledNames(before)
    ensures changed <==> AnyMediaChanges(before, answers)
  {
    forall i | 0 <= i < |before| ensures before[i].config.name in done <==> before[i].state != Processing {
      if before[i].state != Processing {
        PollableMembers(before, before[i].config);
      } else if before[i].config.name in done {
        var c :| c in Pollable(before) && c.name == before[i].config.name;
        PollableMembers(before, c);
      }
    }
  }

  /** The write of one poll: find the printer again by name and give it the answer. */
  method WriteAnswer(records: seq<PrinterRecord>, name: string, status: PollStatus) returns (changed: bool)
    requires forall i, j :: 0 <= i < j < |records| ==> records[i] != records[j]
    modifies records
    ensures var now := old(Views(records)); var i := Named(now, name);
            && Views(records) == (if i < |now| then now[i := Polled(now[i], status).0] else now)
            && changed == (i < |now| && Polled(now[i], status).1)
  {
    var i := FindNamed(records, name);
    changed := false;
    ghost var now := Views(records);
    if i < |records| {
      changed := TakeAnswer(records[i], status);
      assert Views(records) == now[i := Polled(now[i], status).0];
    }
  }

  /** The last step of one poll: the advert follows the answer. */
  method Reconcile(advertiser: Advertiser, name: string, reachable: bool)
    modifies advertiser
    ensures advertiser.names == if reachable then old(advertiser.names) + {name} else old(advertiser.names) - {name}
  {
    if reachable {
      if !advertiser.IsAdvertised(name) {
        advertiser.Publish(name);
      }
    } else if advertiser.IsAdvertised(name) {
      advertiser.Withdraw(name);
    }
  }

  /** The advert of an answered printer follows. */
  method FollowAnswer(advertiser: Advertiser, answers: Answers, name: string, ghost adverts: set<string>, ghost done: set<string>)
    requires answers(name).Some? && AdvertsAt(advertiser.names, adverts, done, answers)
    modifies advertiser
    ensures AdvertsAt(advertiser.names, adverts, done + {name}, answers)
  {
    AdvertStep(advertiser.names, adverts, done, answers, name);
    Reconcile(advertiser, name, Offline !in answers(name).value.reasons);
  }

  /** One turn of the pass. */
  method PollOne(records: seq<PrinterRecord>, answers: Answers, advertiser: Advertiser?, name: string, mediaChanged: bool,
                 ghost k: nat, ghost before: seq<Printer>, ghost adverts: set<string>, ghost done: set<string>)
    returns (mediaChanged': bool)
    requires forall i, j :: 0 <= i < j < |records| ==> records[i] != records[j]
    requires DistinctNames(before) && PassAt(k, before, Views(records), done, answers, mediaChanged)
    requires k < |Pollable(before)| && name == Pollable(before)[k].name
    requires advertiser != null ==> AdvertsAt(advertiser.names, adverts, done, answers)
    modifies records, advertiser
    ensures PassAt(k + 1, before, Views(records), done + {name}, answers, mediaChanged')
    ensures advertiser != null ==> AdvertsAt(advertiser.names, adverts, done + {name}, answers)
  {
    PassStep(k, before, Views(records), done, answers, mediaChanged);
    mediaChanged' := mediaChanged;
    var status := answers(name);
    if status.Some? {
      var changed := WriteAnswer(records, name, status.value);
      mediaChanged' := mediaChanged || changed;
      if advertiser != null {
        FollowAnswer(advertiser, answers, name, adverts, done);
      }
    }
  }

  /** `poll_once` by itself: no other actor writes a record between its lock sections. `advertiser` is
      null when adverts are off. */
  method PollOnce(records: seq<PrinterRecord>, answers: Answers, advertiser: Advertiser?) returns (mediaChanged: bool)
    requires forall i, j :: 0 <= i < j < |records| ==> records[i] != records[j]
    requires DistinctNames(Views(records))
    modifies records, advertiser
    ensures Views(records) == PollPass(old(Views(records)), answers)
    ensures mediaChanged == AnyMediaChanges(old(Views(records)), answers)
    ensures mediaChanged <==> exists i :: 0 <= i < |records| && RollChanges(old(Views(records))[i], answers)
    ensures advertiser != null ==> forall name :: name in advertiser.names <==>
      if Asked(old(Views(records)), name, answers) then Offline !in answers(name).value.reasons else name in old(advertiser.names)
  {
    mediaChanged := false;
    var configs := Snapshot(records);
    ghost var before := Views(records);
    ghost var adverts := if advertiser != null then advertiser.names else {};
    ghost var done: set<string> := {};
    for k := 0 to |configs|
      invariant PassAt(k, before, Views(records), done, answers, mediaChanged)
      invariant advertiser != null ==> AdvertsAt(advertiser.names, adverts, done, answers)
    {
      mediaChanged := PollOne(records, answers, advertiser, configs[k].name, mediaChanged, k, before, adverts, done);
      done := done + {configs[k].name};
    }
    AllPolled(before, Views(records), done, answers, mediaChanged);
    AnyRollChanges(before, answers);
    forall name { AdvertExactly(before, name, name in adverts, answers); }
  }

  // ---- what the pass means -----------------------------------------------------------------------

  /** An answering printer ends idle or, offline, stopped, with the answer's reasons; a roll given becomes
      ready and goes to the front of the table, a supply given is taken, and what the answer leaves out
      stays, as does the rest of the configuration. Any other printer is untouched. A media change is
      counted exactly for a roll that was not the default, or was not ready with its size. */
  lemma PolledOnceMeans(p: Printer, answers: Answers)
    ensures var q := PolledOnce(p, answers); var answer := answers(p.config.name);
            && (p.state == Processing || answer.None? ==> q == p)
            && (p.state != Processing && answer.Some? ==>
                  var given := answer.value.readyMedia;
                  && q.state == (if Offline in answer.value.reasons then Stopped else Idle)
                  && q.reasons == answer.value.reasons
                  && q.readyMedia == (if given.Some? then given else p.readyMedia)
                  && q.supplyPercent == (if answer.value.supplyPercent.Some? then answer.value.supplyPercent else p.supplyPercent)
                  && q.config == p.config.(mediaNames := q.config.mediaNames, mediaSizes := q.config.mediaSizes)
                  && TableOf(q.config) == (if given.Some? then TableOf(p.config).Load(given.value) else TableOf(p.config))
                  && (given.Some? ==> q.config.mediaNames != [] && q.config.mediaNames[0] == given.value.name))
    ensures MediaChanges(p, answers) <==> RollChanges(p, answers)
  {
    MediaChangesExactly(p, answers);
    if Answered(p, answers) { PolledMeans(p, answers(p.config.name).value); }
  }

  lemma PolledTwice(p: Printer, answers: Answers)
    ensures var q := PolledOnce(p, answers); PolledOnce(q, answers) == q && !MediaChanges(q, answers)
  {
    var q := PolledOnce(p, answers);
    if Answered(p, answers) && answers(p.config.name).value.readyMedia.Some? {
      assert TableOf(q.config).Default(answers(p.config.name).value.readyMedia.value.name);
    }
  }

  /** A second pass with the same answers changes no printer and no advert and reports nothing. */
  lemma SecondPassIsQuiet(printers: seq<Printer>, answers: Answers, name: string, advertised: bool)
    ensures var once := PollPass(printers, answers); var polled := PolledNames(once);
            && PollPass(once, answers) == once && !AnyMediaChanges(once, answers)
            && var after := AdvertAfter(name, advertised, PolledNames(printers), answers);
               AdvertAfter(name, after, polled, answers) == after
  {
    var once := PollPass(printers, answers);
    forall i | 0 <= i < |printers|
      ensures PolledOnce(once[i], answers) == once[i] && !MediaChanges(once[i], answers)
    {
      PolledTwice(printers[i], answers);
    }
    if name in PolledNames(once) {
      var c :| c in Pollable(once) && c.name == name;
      PollableMembers(once, c);
      var i :| 0 <= i < |once| && once[i].config == c && once[i].state != Processing;
      assert printers[i].config.name == name && printers[i].state != Processing;
      PollableMembers(printers, printers[i].config);
    }
  }
}
