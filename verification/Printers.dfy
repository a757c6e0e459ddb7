/** Printer configuration and runtime state (src/printer.rs), and what each lock section of the
    printer registry does to it. */
module Printers {
  import opened Common

  /** Width and length in hundredths of a millimetre. */
  datatype Size = Size(x: int, y: int)

  datatype ReadyMedia = ReadyMedia(name: string, size: Size, mediaType: string)

  datatype Config = Config(
    name: string, displayName: string, driverName: string, makeAndModel: string,
    deviceId: string, deviceUri: string, dpi: int, printheadWidthDots: nat,
    mediaNames: seq<string>, mediaSizes: seq<Size>, mediaSizeMin: Size, mediaSizeMax: Size,
    darkness: int, documentFormats: seq<string>)

  datatype PrinterState = Idle | Processing | Stopped

  datatype Printer = Printer(
    config: Config, state: PrinterState, reasons: Reasons,
    readyMedia: Option<ReadyMedia>, supplyPercent: Option<int>)

  function NewPrinter(config: Config): Printer {
    Printer(config, Idle, {}, None, None)
  }

  /** Index of the first occurrence of `name`, or the length of the list. */
  function Position(names: seq<string>, name: string): (i: nat)
    ensures i <= |names|
    ensures i < |names| ==> names[i] == name
    ensures forall k :: 0 <= k < i ==> names[k] != name
  {
    if names == [] || names[0] == name then 0 else 1 + Position(names[1..], name)
  }

  lemma PositionUnique(names: seq<string>, name: string, i: nat)
    requires i <= |names| && (forall k :: 0 <= k < i ==> names[k] != name) && (i < |names| ==> names[i] == name)
    ensures i == Position(names, name)
  {
  }

  function RemoveAt<T>(s: seq<T>, i: nat): (r: seq<T>)
    ensures i < |s| ==> |r| == |s| - 1
    ensures |r| <= |s| && forall k :: 0 <= k < i && k < |r| ==> r[k] == s[k]
    ensures forall k :: i <= k < |r| ==> k + 1 < |s| && r[k] == s[k + 1]
  {
    if i < |s| then s[..i] + s[i + 1..] else s
  }

  /** The media table: names with, index by index, the sizes of a prefix of them. */
  datatype Table = Table(names: seq<string>, sizes: seq<Size>) {
    predicate Default(name: string) {
      names != [] && names[0] == name
    }

    /** `media` moves to, or joins at, the front, unless it is there already. */
    function Load(media: ReadyMedia): Table {
      if Default(media.name) then this
      else
        var i := Position(names, media.name);
        Table([media.name] + RemoveAt(names, i),
              [media.size] + if i < |names| then RemoveAt(sizes, i) else sizes)
    }

    /** The size listed for `name`, if its index has one. */
    function SizeOf(name: string): Option<Size> {
      var i := Position(names, name);
      if i < |names| && i < |sizes| then Some(sizes[i]) else None
    }

    predicate Distinct() {
      forall i, j :: 0 <= i < j < |names| ==> names[i] != names[j]
    }
  }

  function TableOf(c: Config): Table {
    Table(c.mediaNames, c.mediaSizes)
  }

  function WithTable(c: Config, t: Table): Config {
    c.(mediaNames := t.names, mediaSizes := t.sizes)
  }

  /** `PrinterRecord::set_ready_media`: the record afterwards, and whether a caller should persist. */
  function SetReadyMedia(p: Printer, media: ReadyMedia): (Printer, bool) {
    var changed := !TableOf(p.config).Default(media.name)
                   || p.readyMedia.None? || p.readyMedia.value.size != media.size;
    (p.(config := WithTable(p.config, TableOf(p.config).Load(media)), readyMedia := Some(media)), changed)
  }

  /** A load, where `i` is the first place of the name, or past the last: nothing at the front; else the
      name comes to the front with the size, and leaves its old place in both lists, as far as each goes. */
  lemma LoadExactly(t: Table, media: ReadyMedia, i: nat)
    requires i <= |t.names| && (forall k :: 0 <= k < i ==> t.names[k] != media.name)
    requires i < |t.names| ==> t.names[i] == media.name
    ensures t.Load(media)
         == if i == 0 && t.names != [] then t
            else if i == |t.names| then Table([media.name] + t.names, [media.size] + t.sizes)
            else if i < |t.sizes|
            then Table([media.name] + (t.names[..i] + t.names[i + 1..]), [media.size] + (t.sizes[..i] + t.sizes[i + 1..]))
            else Table([media.name] + (t.names[..i] + t.names[i + 1..]), [media.size] + t.sizes)
  {
    PositionUnique(t.names, media.name, i);
  }

  /** The record has the media as ready, its table has loaded it, and the rest is as it was. A caller is
      to persist exactly if the media was not the default, or none was ready, or one of another size; the
      configuration changes exactly in the first case, so never unreported. */
  lemma UnreportedMeansUnchanged(p: Printer, media: ReadyMedia)
    ensures var (p', changed) := SetReadyMedia(p, media); var c := p.config;
            && p' == p.(config := c.(mediaNames := p'.config.mediaNames, mediaSizes := p'.config.mediaSizes), readyMedia := Some(media))
            && TableOf(p'.config) == TableOf(c).Load(media)
            && p'.config.mediaNames != [] && p'.config.mediaNames[0] == media.name
            && (p'.config == c <==> c.mediaNames != [] && c.mediaNames[0] == media.name)
            && (changed <==> || c.mediaNames == [] || c.mediaNames[0] != media.name
                             || p.readyMedia.None? || p.readyMedia.value.size != media.size)
            && (!changed ==> p'.config == c)
  {
    var t := TableOf(p.config);
    if !t.Default(media.name) {
      assert t.Load(media).names[0] == media.name;
    }
  }

  datatype PollStatus = PollStatus(reasons: Reasons, readyMedia: Option<ReadyMedia>, supplyPercent: Option<int>)

  /** The lock section of one poll answer (src/status.rs), and whether the media changed. */
  function Polled(p: Printer, status: PollStatus): (Printer, bool) {
    var p1 := p.(reasons := status.reasons,
                 state := if Offline in status.reasons then Stopped else Idle);
    var (p2, changed) := if status.readyMedia.Some? then SetReadyMedia(p1, status.readyMedia.value) else (p1, false);
    (if status.supplyPercent.Some? then p2.(supplyPercent := status.supplyPercent) else p2, changed)
  }

  /** An answer, field by field: reasons replaced, the state after them; media given are loaded and
      become ready, a supply given is taken, and what is left out stays. A change is reported exactly if
      media given were not the default, or none was ready, or of another size. */
  lemma PolledMeans(p: Printer, status: PollStatus)
    ensures var (q, changed) := Polled(p, status); var c, given := p.config, status.readyMedia;
            && q.reasons == status.reasons
            && q.state == (if Offline in status.reasons then Stopped else Idle)
            && q.supplyPercent == (if status.supplyPercent.Some? then status.supplyPercent else p.supplyPercent)
            && q.readyMedia == (if given.Some? then given else p.readyMedia)
            && q.config == c.(mediaNames := q.config.mediaNames, mediaSizes := q.config.mediaSizes)
            && TableOf(q.config) == (if given.Some? then TableOf(c).Load(given.value) else TableOf(c))
            && (given.Some? ==> q.config.mediaNames != [] && q.config.mediaNames[0] == given.value.name)
            && (changed <==>
                  && given.Some?
                  && (|| c.mediaNames == [] || c.mediaNames[0] != given.value.name
                      || p.readyMedia.None? || p.readyMedia.value.size != given.value.size))
  {
    if status.readyMedia.Some? {
      UnreportedMeansUnchanged(p.(reasons := status.reasons,
                                  state := if Offline in status.reasons then Stopped else Idle), status.readyMedia.value);
    }
  }

  lemma PolledUnreported(p: Printer, status: PollStatus)
    ensures var (p', changed) := Polled(p, status); !changed ==> p'.config == p.config
  {
    if status.readyMedia.Some? {
      UnreportedMeansUnchanged(p.(reasons := status.reasons,
                                  state := if Offline in status.reasons then Stopped else Idle), status.readyMedia.value);
    }
  }

  datatype PrinterWrite =
    | SetState(state: PrinterState)
    | SetReasons(reasons: Reasons)
    | Poll(status: PollStatus)
    | LoadMedia(media: ReadyMedia)

  function Apply(p: Printer, write: PrinterWrite): Printer {
    match write
    case SetState(state) => p.(state := state)
    case SetReasons(reasons) => p.(reasons := reasons)
    case Poll(status) => Polled(p, status).0
    case LoadMedia(media) => SetReadyMedia(p, media).0
  }

  /** A worker's writes touch one field. */
  lemma WritesOneField(p: Printer, state: PrinterState, reasons: Reasons)
    ensures var q := Apply(p, PrinterWrite.SetState(state));
            q == Printer(p.config, state, p.reasons, p.readyMedia, p.supplyPercent)
    ensures var q := Apply(p, SetReasons(reasons));
            q == Printer(p.config, p.state, reasons, p.readyMedia, p.supplyPercent)
  {
  }

  function Names(printers: seq<Printer>): (n: seq<string>)
    ensures |n| == |printers| && forall i :: 0 <= i < |n| ==> n[i] == printers[i].config.name
  {
    seq(|printers|, i requires 0 <= i < |printers| => printers[i].config.name)
  }

  function Configs(printers: seq<Printer>): (c: seq<Config>)
    ensures |c| == |printers| && forall i :: 0 <= i < |c| ==> c[i] == printers[i].config
  {
    seq(|printers|, i requires 0 <= i < |printers| => printers[i].config)
  }

  /** Index of the first printer called `name`, or the number of printers. */
  function Named(printers: seq<Printer>, name: string): (i: nat)
    ensures i <= |printers|
    ensures i < |printers| ==> printers[i].config.name == name
  {
    Position(Names(printers), name)
  }

  /** One lock section: find the first printer called `name` and write it; nothing if there is none. */
  function Write(printers: seq<Printer>, name: string, write: PrinterWrite): seq<Printer> {
    var i := Named(printers, name);
    if i < |printers| then printers[i := Apply(printers[i], write)] else printers
  }

  lemma WriteKeepsNames(printers: seq<Printer>, name: string, write: PrinterWrite)
    ensures Names(Write(printers, name, write)) == Names(printers)
  {
  }

  /** No two printers share a name. */
  ghost predicate DistinctNames(printers: seq<Printer>) {
    forall i, j :: 0 <= i < j < |printers| ==> printers[i].config.name != printers[j].config.name
  }

  lemma NamedDistinct(printers: seq<Printer>, i: nat)
    requires DistinctNames(printers) && i < |printers|
    ensures Named(printers, printers[i].config.name) == i
  {
    PositionUnique(Names(printers), printers[i].config.name, i);
  }

  /** The poller's snapshot: the configurations of the printers that are not printing. */
  function Pollable(printers: seq<Printer>): seq<Config> {
    if printers == [] then []
    else (if printers[0].state != Processing then [printers[0].config] else []) + Pollable(printers[1..])
  }

  lemma {:induction false} PollableMembers(printers: seq<Printer>, c: Config)
    ensures c in Pollable(printers) <==>
            exists i :: 0 <= i < |printers| && printers[i].config == c && printers[i].state != Processing
  {
    if printers != [] {
      PollableMembers(printers[1..], c);
      if i :| 0 <= i < |printers[1..]| && printers[1..][i].config == c && printers[1..][i].state != Processing {
        assert printers[i + 1].config == c;
      }
    }
  }

  /** Places, in registry order, of the printers that are not printing. */
  function NotPrinting(printers: seq<Printer>, from: nat): (at: seq<nat>)
    requires from <= |printers|
    ensures forall k :: 0 <= k < |at| ==> from <= at[k] < |printers| && printers[at[k]].state != Processing
    ensures forall k, l :: 0 <= k < l < |at| ==> at[k] < at[l]
    ensures forall i :: from <= i < |printers| && printers[i].state != Processing ==> i in at
    decreases |printers| - from
  {
    if from == |printers| then []
    else (if printers[from].state != Processing then [from] else []) + NotPrinting(printers, from + 1)
  }

  /** The snapshot holds the configurations of exactly these, once each and in this order. */
  lemma {:induction false} PollableInOrder(printers: seq<Printer>, from: nat)
    requires from <= |printers|
    ensures var q, at := Pollable(printers[from..]), NotPrinting(printers, from);
            |q| == |at| && forall k :: 0 <= k < |at| ==> q[k] == printers[at[k]].config
    decreases |printers| - from
  {
    if from < |printers| {
      PollableInOrder(printers, from + 1);
      assert printers[from..][1..] == printers[from + 1..];
    }
  }

  // ---- the table over a history of loads ------------------------------------------------

  function After(t: Table, loads: seq<ReadyMedia>): Table {
    if loads == [] then t else After(t, loads[..|loads| - 1]).Load(loads[|loads| - 1])
  }

  /** How recent `name` is: the number of its last load, or below 0 by its place in the original table. */
  function Recency(original: seq<string>, loads: seq<ReadyMedia>, name: string): int {
    if loads == [] then -1 - Position(original, name)
    else if loads[|loads| - 1].name == name then |loads| - 1
    else Recency(original, loads[..|loads| - 1], name)
  }

  predicate Loaded(loads: seq<ReadyMedia>, name: string) {
    exists k :: 0 <= k < |loads| && loads[k].name == name
  }

  /** `Recency` really is the number of the last load of `name`. */
  lemma {:induction false} RecencyIsLastLoad(original: seq<string>, loads: seq<ReadyMedia>, name: string)
    ensures var r := Recency(original, loads, name);
            if Loaded(loads, name)
            then 0 <= r < |loads| && loads[r].name == name && forall k :: r < k < |loads| ==> loads[k].name != name
            else r == -1 - Position(original, name)
  {
    if loads != [] {
      var before := loads[..|loads| - 1];
      RecencyIsLastLoad(original, before, name);
      if loads[|loads| - 1].name != name && Loaded(loads, name) {
        var k :| 0 <= k < |loads| && loads[k].name == name;
        assert before[k].name == name;
      }
    }
  }

  ghost predicate MostRecentFirst(t: Table, original: seq<string>, loads: seq<ReadyMedia>) {
    forall i, j :: 0 <= i < j < |t.names| ==>
      Recency(original, loads, t.names[i]) > Recency(original, loads, t.names[j])
  }

  lemma LoadMembers(t: Table, media: ReadyMedia, name: string)
    ensures name in t.Load(media).names <==> name in t.names || name == media.name
  {
    if !t.Default(media.name) {
      var i := Position(t.names, media.name);
      assert i < |t.names| ==> t.names == t.names[..i] + [t.names[i]] + t.names[i + 1..];
    }
  }

  /** After any loads the table holds the original and the loaded names once each, most recent
      first; the names never loaded come last, in their original order. */
  lemma {:induction false} TableHistory(t: Table, loads: seq<ReadyMedia>)
    requires t.Distinct()
    ensures After(t, loads).Distinct()
    ensures MostRecentFirst(After(t, loads), t.names, loads)
    ensures forall name :: name in After(t, loads).names <==> name in t.names || Loaded(loads, name)
  {
    if loads == [] {
      forall i | 0 <= i < |t.names| ensures Position(t.names, t.names[i]) == i {
        PositionUnique(t.names, t.names[i], i);
      }
    } else {
      var before, m := loads[..|loads| - 1], loads[|loads| - 1];
      var t1 := After(t, before);
      TableHistory(t, before);
      HistoryStep(t1, t.names, before, m);
      assert loads == before + [m];
      forall name ensures name in After(t, loads).names <==> name in t.names || Loaded(loads, name) {
        LoadMembers(t1, m, name);
        LoadedSnoc(before, m, name);
      }
    }
  }

  lemma LoadedSnoc(before: seq<ReadyMedia>, m: ReadyMedia, name: string)
    ensures Loaded(before + [m], name) <==> Loaded(before, name) || name == m.name
  {
    var loads := before + [m];
    assert loads[|before|] == m;
    if Loaded(before, name) {
      var k :| 0 <= k < |before| && before[k].name == name;
      assert loads[k].name == name;
    }
  }

  lemma LoadKeepsDistinct(t: Table, m: ReadyMedia)
    requires t.Distinct()
    ensures t.Load(m).Distinct()
    ensures forall j :: 0 < j < |t.Load(m).names| ==> t.Load(m).names[j] != m.name
  {
  }

  lemma RecencyBound(original: seq<string>, loads: seq<ReadyMedia>, name: string)
    ensures Recency(original, loads, name) < |loads|
  {
  }

  lemma RecencySnoc(original: seq<string>, before: seq<ReadyMedia>, m: ReadyMedia, name: string)
    ensures Recency(original, before + [m], name) == if name == m.name then |before| else Recency(original, before, name)
  {
    var loads := before + [m];
    assert loads[..|loads| - 1] == before && loads[|loads| - 1] == m;
  }

  /** Where the names behind the front of a loaded table were. */
  function Before(t: Table, m: ReadyMedia, k: nat): nat
    requires k > 0
  {
    if t.Default(m.name) || k > Position(t.names, m.name) then k else k - 1
  }

  lemma LoadedFrom(t: Table, m: ReadyMedia, k: nat)
    requires 0 < k < |t.Load(m).names|
    ensures Before(t, m, k) < |t.names| && t.Load(m).names[k] == t.names[Before(t, m, k)]
  {
  }

  lemma HistoryStep(t: Table, original: seq<string>, before: seq<ReadyMedia>, m: ReadyMedia)
    requires t.Distinct() && MostRecentFirst(t, original, before)
    ensures t.Load(m).Distinct() && MostRecentFirst(t.Load(m), original, before + [m])
  {
    var t' := t.Load(m);
    LoadKeepsDistinct(t, m);
    forall i, j | 0 <= i < j < |t'.names|
      ensures Recency(original, before + [m], t'.names[i]) > Recency(original, before + [m], t'.names[j])
    {
      RecencySnoc(original, before, m, t'.names[i]);
      RecencySnoc(original, before, m, t'.names[j]);
      LoadedFrom(t, m, j);
      if i == 0 {
        RecencyBound(original, before, t'.names[j]);
      } else {
        LoadedFrom(t, m, i);
        assert Before(t, m, i) < Before(t, m, j);
      }
    }
  }

  /** Where a load moves every other name. */
  lemma LoadMoves(t: Table, media: ReadyMedia, name: string) returns (i': nat)
    requires name != media.name && !t.Default(media.name)
    ensures var p, i := Position(t.names, media.name), Position(t.names, name);
            i' == if i < p || p == |t.names| then i + 1 else i
    ensures Position(t.Load(media).names, name) == i'
  {
    var t', p, i := t.Load(media), Position(t.names, media.name), Position(t.names, name);
    i' := if i < p || p == |t.names| then i + 1 else i;
    assert t'.names[0] != name;
    PositionUnique(t'.names, name, i');
  }

  /** A load keeps the listed size of every other name, however short the size list. */
  lemma LoadKeepsSizes(t: Table, media: ReadyMedia, name: string)
    requires name != media.name
    ensures t.Load(media).SizeOf(name) == t.SizeOf(name)
  {
    if !t.Default(media.name) {
      var i' := LoadMoves(t, media, name);
    }
  }

  /** The front of the size list is the size loaded, exactly unless a default of another (or no) size stays. */
  lemma LoadedSizeExact(t: Table, media: ReadyMedia)
    ensures var s := t.Load(media).sizes;
            (s != [] && s[0] == media.size) <==> (t.Default(media.name) ==> t.SizeOf(media.name) == Some(media.size))
  {
  }

  /** Where the last stretch of loads of one name begins. */
  function LastStretch(loads: seq<ReadyMedia>): (r: nat)
    requires loads != []
    ensures r < |loads| && forall i :: r <= i < |loads| ==> loads[i].name == loads[|loads| - 1].name
    ensures r > 0 ==> loads[r - 1].name != loads[|loads| - 1].name
  {
    var before := loads[..|loads| - 1];
    if before != [] && before[|before| - 1].name == loads[|loads| - 1].name then LastStretch(before) else |before|
  }

  /** Over any history: the roll loaded last is the default, with the size its last stretch of loads
      began with, or, where that stretch is the whole history of what was the default already, with the
      size listed for it then, if any. */
  lemma {:induction false} LoadedFrontExactly(t: Table, loads: seq<ReadyMedia>)
    requires loads != []
    ensures var t', name, r := After(t, loads), loads[|loads| - 1].name, LastStretch(loads);
            && t'.Default(name)
            && t'.SizeOf(name) == if r == 0 && t.Default(name) then t.SizeOf(name) else Some(loads[r].size)
  {
    var before := loads[..|loads| - 1];
    if before != [] {
      LoadedFrontExactly(t, before);
    }
  }

  /** Names never loaded keep their size over any history. */
  lemma {:induction false} HistoryKeepsSizes(t: Table, loads: seq<ReadyMedia>, name: string)
    requires !Loaded(loads, name)
    ensures After(t, loads).SizeOf(name) == t.SizeOf(name)
  {
    if loads != [] {
      var before, m := loads[..|loads| - 1], loads[|loads| - 1];
      assert loads == before + [m];
      LoadedSnoc(before, m, name);
      HistoryKeepsSizes(t, before, name);
      LoadKeepsSizes(After(t, before), m, name);
    }
  }

  /** When a name always comes with the same size, and a default listed at the start has it, every
      loaded name carries its size, and the loaded roll is what index 0 reports. */
  lemma {:induction false} LoadedNamesCarrySizes(t: Table, loads: seq<ReadyMedia>, size: string -> Size, name: string)
    requires forall m :: m in loads ==> m.size == size(m.name)
    requires t.names != [] ==> t.sizes != []
    requires forall n :: t.SizeOf(n).Some? ==> t.SizeOf(n).value == size(n)
    requires Loaded(loads, name)
    ensures After(t, loads).SizeOf(name) == Some(size(name))
    ensures var t' := After(t, loads); var last := loads[|loads| - 1];
            t'.names != [] && t'.sizes != [] && t'.names[0] == last.name && t'.sizes[0] == last.size
  {
    var before, m := loads[..|loads| - 1], loads[|loads| - 1];
    assert loads == before + [m];
    var t1 := After(t, before);
    FrontHasSize(t, before);
    if t1.Default(m.name) {
      if Loaded(before, m.name) {
        LoadedNamesCarrySizes(t, before, size, m.name);
      } else {
        HistoryKeepsSizes(t, before, m.name);
      }
    }
    LoadedSizeExact(t1, m);
    LoadedSnoc(before, m, name);
    if name != m.name {
      LoadedNamesCarrySizes(t, before, size, name);
      LoadKeepsSizes(t1, m, name);
    }
  }

  lemma {:induction false} FrontHasSize(t: Table, loads: seq<ReadyMedia>)
    requires t.names != [] ==> t.sizes != []
    ensures After(t, loads).names != [] ==> After(t, loads).sizes != []
  {
    if loads != [] {
      FrontHasSize(t, loads[..|loads| - 1]);
    }
  }

  /** Names and sizes stay aligned, and a size list no longer than the names stays so. */
  lemma LoadKeepsAlignment(t: Table, media: ReadyMedia)
    ensures |t.names| == |t.sizes| ==> |t.Load(media).names| == |t.Load(media).sizes|
    ensures |t.sizes| <= |t.names| ==> |t.Load(media).sizes| <= |t.Load(media).names|
  {
  }
}
