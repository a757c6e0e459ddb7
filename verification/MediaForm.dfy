/** The media form (src/server.rs): what a submission is answered, what it loads, and that what it
    loads is what the printer then reports. */
module MediaForms {
  import opened Common
  import opened Printers
  import opened Margins
  import opened Status
  import Calendar
  import Text = JobUris

  /** Width and length in millimetres. */
  datatype Form = Form(width: nat, height: nat)

  function FormSize(f: Form): Size {
    Size(f.width * 100, f.height * 100)
  }

  function FormName(f: Form): string {
    var d := Text.ToDecimal(f.width) + "x" + Text.ToDecimal(f.height) + "mm";
    "om_" + d + "_" + d
  }

  function FormMedia(f: Form): ReadyMedia {
    ReadyMedia(FormName(f), FormSize(f), "labels")
  }

  /** The bounds the form checks: as soon as both minima are set. */
  predicate Accepts(c: Config, size: Size) {
    Positive(c.mediaSizeMin) ==>
      && c.mediaSizeMin.x <= size.x <= c.mediaSizeMax.x
      && c.mediaSizeMin.y <= size.y <= c.mediaSizeMax.y
  }

  datatype Answer = NotFound | OutOfRange | Refused | Applied

  /** Whether the consumer, asked about the media, refuses it. */
  type Hook = ReadyMedia -> bool

  /** `media_apply_handler`: the answer, and the registry afterwards. While a consumer is asked other
      actors run; `meanwhile` is the registry they leave. */
  function Submit(printers: seq<Printer>, name: string, f: Form, hook: Option<Hook>, meanwhile: seq<Printer>): (Answer, seq<Printer>) {
    var i := Named(printers, name);
    if i == |printers| then (NotFound, printers)
    else if !Accepts(printers[i].config, FormSize(f)) then (OutOfRange, printers)
    else
      var now := if hook.Some? then meanwhile else printers;
      if hook.Some? && hook.value(FormMedia(f)) then (Refused, now)
      else if Named(now, name) == |now| then (NotFound, now)
      else (Applied, Write(now, name, PrinterWrite.LoadMedia(FormMedia(f))))
  }

  /** The first lock section, on a copy of the record found. */
  method Check(records: seq<PrinterRecord>, name: string, f: Form) returns (answer: Option<Answer>)
    ensures var printers := Views(records); var i := Named(printers, name);
            answer == if i == |printers| then Some(NotFound)
                      else if !Accepts(printers[i].config, FormSize(f)) then Some(OutOfRange) else None
  {
    var i := FindNamed(records, name);
    if i == |records| {
      return Some(NotFound);
    }
    var size := Size(f.width * 100, f.height * 100);
    var cfg := records[i].config;
    if cfg.mediaSizeMin.x > 0 && cfg.mediaSizeMin.y > 0
       && (size.x < cfg.mediaSizeMin.x || size.y < cfg.mediaSizeMin.y
           || size.x > cfg.mediaSizeMax.x || size.y > cfg.mediaSizeMax.y) {
      return Some(OutOfRange);
    }
    return None;
  }

  /** Other actors leave the records as `meanwhile`. */
  method OthersRun(records: seq<PrinterRecord>, meanwhile: seq<Printer>)
    requires forall i, j :: 0 <= i < j < |records| ==> records[i] != records[j]
    requires |meanwhile| == |records|
    modifies records
    ensures Views(records) == meanwhile
  {
    for i := 0 to |records|
      invariant forall k :: 0 <= k < i ==> records[k].View() == meanwhile[k]
    {
      var p := meanwhile[i];
      records[i].config, records[i].state, records[i].reasons := p.config, p.state, p.reasons;
      records[i].readyMedia, records[i].supplyPercent := p.readyMedia, p.supplyPercent;
    }
  }

  /** The lock section after the consumer has agreed: the printer is looked up again. */
  method Load(records: seq<PrinterRecord>, name: string, media: ReadyMedia) returns (found: bool)
    requires forall i, j :: 0 <= i < j < |records| ==> records[i] != records[j]
    modifies records
    ensures found == (Named(old(Views(records)), name) < |records|)
    ensures Views(records) == Write(old(Views(records)), name, PrinterWrite.LoadMedia(media))
  {
    var i := FindNamed(records, name);
    found := i < |records|;
    if found {
      ghost var before := Views(records);
      var _ := records[i].SetReadyMedia(media);
      assert Views(records) == before[i := Printers.SetReadyMedia(before[i], media).0];
    }
  }

  method Apply(records: seq<PrinterRecord>, name: string, f: Form, hook: Option<Hook>, meanwhile: seq<Printer>)
    returns (answer: Answer)
    requires forall i, j :: 0 <= i < j < |records| ==> records[i] != records[j]
    requires |meanwhile| == |records|
    modifies records
    ensures (answer, Views(records)) == Submit(old(Views(records)), name, f, hook, meanwhile)
  {
    var rejected := Check(records, name, f);
    if rejected.Some? {
      return rejected.value;
    }
    var media := FormMedia(f);
    if hook.Some? {
      OthersRun(records, meanwhile);
      if hook.value(media) {
        return Refused;
      }
    }
    var found := Load(records, name, media);
    return if found then Applied else NotFound;
  }

  /** Where the minima are set, the form takes exactly the sizes of the advertised range; where the
      maxima are left at zero or below the minima, no size at all. */
  lemma AcceptsExactly(c: Config, size: Size)
    ensures !(c.mediaSizeMin.x > 0 && c.mediaSizeMin.y > 0) ==> Accepts(c, size)
    ensures c.mediaSizeMin.x > 0 && c.mediaSizeMin.y > 0 ==> (Accepts(c, size) <==>
            && CustomRange(c).Some?
            && c.mediaSizeMin.x <= size.x <= c.mediaSizeMax.x && c.mediaSizeMin.y <= size.y <= c.mediaSizeMax.y)
  {
  }

  /** No size the form takes from an advertised range has a wider margin than the widest offered. */
  lemma FormMarginCovered(c: Config, size: Size)
    requires CustomRange(c).Some? && Accepts(c, size)
    ensures Supported(c) != [] && SideMargin(c, size.x) <= Supported(c)[|Supported(c)| - 1]
  {
    var s, widest := Supported(c), SideMargin(c, c.mediaSizeMax.x);
    MarginMonotone(c, size.x, c.mediaSizeMax.x);
    assert Widths(c)[|c.mediaSizes| + 1] == c.mediaSizeMax.x;
    WidthCovered(c, c.mediaSizeMax.x);
    SupportedExact(c);
    var i :| 0 <= i < |s| && s[i] == widest;
  }

  // ---- what is reported afterwards -----------------------------------------------------------

  /** `current_media_mm` */
  function CurrentMedia(p: Printer): (int, int) {
    var size := if p.readyMedia.Some? then p.readyMedia.value.size else DefaultSize(p.config);
    (Text.AsU32(Calendar.TruncDiv(size.x, 100)), Text.AsU32(Calendar.TruncDiv(size.y, 100)))
  }

  /** A load shows on its printer and touches no other. */
  lemma LoadShown(printers: seq<Printer>, name: string, f: Form)
    requires f.width * 100 < 0x8000_0000 && f.height * 100 < 0x8000_0000 && Named(printers, name) < |printers|
    ensures var printers' := Write(printers, name, PrinterWrite.LoadMedia(FormMedia(f))); var j := Named(printers, name);
            && |printers'| == |printers| && CurrentMedia(printers'[j]) == (f.width, f.height)
            && TableOf(printers'[j].config).Default(FormName(f))
            && forall k :: 0 <= k < |printers| && k != j ==> printers'[k] == printers[k]
  {
  }

  /** A form is applied exactly if its printer is there before and after the consumer is asked, takes
      the size and is not refused; it is then what the page shows, and no printer but its own is
      touched. A submission answered otherwise changes nothing. */
  lemma SubmitMeans(printers: seq<Printer>, name: string, f: Form, hook: Option<Hook>, meanwhile: seq<Printer>)
    requires f.width * 100 < 0x8000_0000 && f.height * 100 < 0x8000_0000
    ensures var (answer, printers') := Submit(printers, name, f, hook, meanwhile); var i := Named(printers, name);
            var asked := i < |printers| && Accepts(printers[i].config, FormSize(f));
            var now := if asked && hook.Some? then meanwhile else printers; var j := Named(now, name);
            && (answer.Applied? <==> asked && !(hook.Some? && hook.value(FormMedia(f))) && j < |now|)
            && (!answer.Applied? ==> printers' == now)
            && (answer.Applied? ==>
                  && |printers'| == |now| && CurrentMedia(printers'[j]) == (f.width, f.height)
                  && TableOf(printers'[j].config).Default(FormName(f))
                  && forall k :: 0 <= k < |now| && k != j ==> printers'[k] == now[k])
  {
    var now := if hook.Some? then meanwhile else printers;
    if Named(now, name) < |now| {
      LoadShown(now, name, f);
    }
  }

  /** Which answer a form gets, in the order the handler looks. */
  lemma SubmitAnswers(printers: seq<Printer>, name: string, f: Form, hook: Option<Hook>, meanwhile: seq<Printer>)
    ensures var answer := Submit(printers, name, f, hook, meanwhile).0;
            var known := exists i :: 0 <= i < |printers| && printers[i].config.name == name;
            var stays := exists i :: 0 <= i < |meanwhile| && meanwhile[i].config.name == name;
            var fits := Named(printers, name) < |printers| && Accepts(printers[Named(printers, name)].config, FormSize(f));
            var refused := hook.Some? && hook.value(FormMedia(f));
            && (answer == OutOfRange <==> known && !fits)
            && (answer == Refused <==> known && fits && refused)
            && (answer == NotFound <==> !known || (fits && !refused && hook.Some? && !stays))
  {
    NamedExactly(printers, name);
    NamedExactly(meanwhile, name);
  }

  lemma NamedExactly(printers: seq<Printer>, name: string)
    ensures Named(printers, name) < |printers| <==> exists i :: 0 <= i < |printers| && printers[i].config.name == name
  {
    forall i | 0 <= i < |printers| && printers[i].config.name == name ensures Named(printers, name) <= i {
      assert Names(printers)[i] == name;
    }
  }

  /** What the page shows: the ready media, else the first size listed, else 40 by 30 mm, in whole
      millimetres. */
  lemma PageShows(p: Printer)
    ensures var size := if p.readyMedia.Some? then p.readyMedia.value.size
                        else if p.config.mediaSizes != [] then p.config.mediaSizes[0] else Size(4000, 3000);
            0 <= size.x < 0x8000_0000 && 0 <= size.y < 0x8000_0000 ==> CurrentMedia(p) == (size.x / 100, size.y / 100)
  {
  }

  /** A form's media: the width comes first, in the name and in the size, which is in hundredths of a
      millimetre. */
  lemma FormMediaShape(f: Form)
    ensures var w, h := Text.ToDecimal(f.width), Text.ToDecimal(f.height);
            FormMedia(f) == ReadyMedia("om_" + (w + "x" + h + "mm") + "_" + (w + "x" + h + "mm"),
                                       Size(100 * f.width, 100 * f.height), "labels")
  {
  }

  lemma Cut(a: string, x: string, b: string, y: string, c: char)
    requires c !in a && c !in b && a + [c] + x == b + [c] + y
    ensures a == b && x == y
  {
    var t := a + [c] + x;
    assert t[|a|] == c && t[|b|] == c;
    assert forall i :: 0 <= i < |a| ==> t[i] == a[i];
    assert forall i :: 0 <= i < |b| ==> t[i] == b[i];
    assert a == t[..|a|] && b == t[..|b|];
    assert x == t[|a| + 1..] && y == t[|b| + 1..];
  }

  lemma NameParts(f: Form) returns (rest: string)
    ensures FormName(f)[3..] == Text.ToDecimal(f.width) + ['x'] + (Text.ToDecimal(f.height) + ['m'] + rest)
  {
    var w, h := Text.ToDecimal(f.width), Text.ToDecimal(f.height);
    rest := "m_" + (w + "x" + h + "mm");
  }

  /** A form's name tells its size. */
  lemma FormNameInjective(f: Form, g: Form)
    requires FormName(f) == FormName(g)
    ensures f == g
  {
    var x := NameParts(f);
    var y := NameParts(g);
    var fh, gh := Text.ToDecimal(f.height), Text.ToDecimal(g.height);
    Cut(Text.ToDecimal(f.width), fh + ['m'] + x, Text.ToDecimal(g.width), gh + ['m'] + y, 'x');
    Cut(fh, x, gh, y, 'm');
  }

  function Loads(forms: seq<Form>): (m: seq<ReadyMedia>)
    ensures |m| == |forms| && forall i :: 0 <= i < |m| ==> m[i] == FormMedia(forms[i])
  {
    seq(|forms|, i requires 0 <= i < |forms| => FormMedia(forms[i]))
  }

  /** Index 0 carries the form's name and size. */
  predicate InFront(t: Table, f: Form) {
    t.names != [] && t.names[0] == FormName(f) && t.sizes != [] && t.sizes[0] == FormSize(f)
  }

  predicate Reported(c: Config, f: Form) {
    InFront(TableOf(c), f)
  }

  function AfterForms(c: Config, forms: seq<Form>): Config {
    WithTable(c, After(TableOf(c), Loads(forms)))
  }

  ghost predicate AllAre(forms: seq<Form>, f: Form) {
    forall i :: 0 <= i < |forms| ==> forms[i] == f
  }

  /** After any forms, whatever the table they find: index 0 carries the last form's name and size,
      unless every form was the same and named the default the table had from the start, and that
      default was not listed with the form's size. */
  lemma FormsReportedExactly(c: Config, forms: seq<Form>)
    requires forms != []
    ensures var t, last := TableOf(c), forms[|forms| - 1];
            Reported(AfterForms(c, forms), last) <==>
              (AllAre(forms, last) && t.Default(FormName(last)) ==> t.SizeOf(FormName(last)) == Some(FormSize(last)))
    ensures TableOf(AfterForms(c, forms)).Default(FormName(forms[|forms| - 1]))
  {
    var loads, last := Loads(forms), forms[|forms| - 1];
    var r := LastStretch(loads);
    LoadedFrontExactly(TableOf(c), loads);
    forall i | r <= i < |forms| ensures forms[i] == last {
      assert loads[i].name == FormName(forms[i]);
      FormNameInjective(forms[i], last);
    }
    if r > 0 {
      assert loads[r - 1].name == FormName(forms[r - 1]);
    }
  }

  /** A form submitted under the default's name, where the default has no size of its own: the fallback
      stays the default size, and the margin of the loaded media is not offered. */
  lemma FormNotReported(c: Config, f: Form)
    requires c.dpi == 254 && c.printheadWidthDots == 100 && f.width == 30
    requires c.mediaNames == [FormName(f)] && c.mediaSizes == [] && c.mediaSizeMin == Size(0, 0)
    ensures AfterForms(c, [f]) == c && !Reported(c, f) && DefaultSize(c) == FALLBACK_SIZE
    ensures SideMargin(c, FormSize(f).x) == 1000 && Supported(c) == [0]
  {
    var t, loads := TableOf(c), Loads([f]);
    assert loads[..0] == [];
    assert After(t, loads) == After(t, []).Load(FormMedia(f)) == t;
    assert MarginsOf(c, Widths(c)) == [];
    assert Sort([0]) == [0] by { assert Sort([]) == []; }
  }

  /** Entries with a form's name are listed with its size, and a default has a size. */
  ghost predicate NamesTellSizes(t: Table) {
    && (t.names != [] ==> t.sizes != [])
    && forall f :: t.SizeOf(FormName(f)).Some? ==> t.SizeOf(FormName(f)).value == FormSize(f)
  }

  /** So on such a table index 0 always carries the last form's media, and its margin is offered. */
  lemma FormsAreReported(c: Config, forms: seq<Form>)
    requires forms != [] && NamesTellSizes(TableOf(c))
    ensures var c' := AfterForms(c, forms); var last := forms[|forms| - 1];
            Reported(c', last) && SideMargin(c', FormSize(last).x) in Supported(c')
  {
    var c', last := AfterForms(c, forms), forms[|forms| - 1];
    FormsReportedExactly(c, forms);
    assert Widths(c')[0] == FormSize(last).x;
    WidthCovered(c', FormSize(last).x);
  }

  /** Whoever loads a roll, poller or form: its margin is offered exactly if it was not the default
      already, or some width offered then has that margin (if there is no width, if it is 0). */
  lemma ReadyMarginExactly(p: Printer, media: ReadyMedia)
    ensures var c := SetReadyMedia(p, media).0.config; var m := SideMargin(c, media.size.x);
            m in Supported(c) <==>
              || !TableOf(p.config).Default(media.name)
              || (if Widths(p.config) == [] then m == 0 else exists w :: w in Widths(p.config) && SideMargin(p.config, w) == m)
  {
    var c := SetReadyMedia(p, media).0.config;
    if TableOf(p.config).Default(media.name) {
      assert c == p.config;
      SupportedExact(c);
    } else {
      assert Widths(c)[0] == media.size.x;
      WidthCovered(c, media.size.x);
    }
  }

  /** A roll that comes under the default's name with another size: reported as ready, not offered. */
  lemma ReadyMarginNotCovered(p: Printer, media: ReadyMedia)
    requires p.config.dpi == 254 && p.config.printheadWidthDots == 100
    requires p.config.mediaNames == ["roll"] && p.config.mediaSizes == [Size(1000, 3000)] && p.config.mediaSizeMin == Size(0, 0)
    requires media.name == "roll" && media.size == Size(3000, 3000)
    ensures var p' := SetReadyMedia(p, media).0;
            && p'.readyMedia == Some(media) && SideMargin(p'.config, 3000) == 1000 && Supported(p'.config) == [0]
  {
    var c := SetReadyMedia(p, media).0.config;
    assert c == p.config;
    assert MarginsOf(c, Widths(c)) == [0];
    assert Sort([0]) == [0] by { assert Sort([]) == []; }
  }
}
