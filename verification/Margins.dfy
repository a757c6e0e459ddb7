/** Media and margins: the entries and the side margins a printer advertises (src/attributes.rs), and
    the sizes its media form accepts and loads (src/server.rs). */
module Margins {
  import opened Common
  import opened Printers
  import Text = JobUris

  const FALLBACK_SIZE := Size(4000, 3000)

  /** Printhead width in hundredths of a millimetre. */
  function Head(c: Config): int
    requires c.dpi > 0
  {
    c.printheadWidthDots * 2540 / c.dpi
  }

  predicate HeadKnown(c: Config) {
    c.dpi > 0 && c.printheadWidthDots != 0
  }

  function Max(a: int, b: int): int {
    if a >= b then a else b
  }

  /** `side_margin_hmm` */
  function SideMargin(c: Config, width: int): int {
    if !HeadKnown(c) then 0 else Max(width - Head(c), 0) / 2
  }

  predicate Positive(s: Size) {
    s.x > 0 && s.y > 0
  }

  datatype Range = Range(min: Size, max: Size)

  /** `custom_media_range` */
  function CustomRange(c: Config): Option<Range> {
    if Positive(c.mediaSizeMin) && Positive(c.mediaSizeMax)
       && c.mediaSizeMax.x >= c.mediaSizeMin.x && c.mediaSizeMax.y >= c.mediaSizeMin.y
    then Some(Range(c.mediaSizeMin, c.mediaSizeMax)) else None
  }

  // ---- what is advertised --------------------------------------------------------------------

  /** An entry of `media-col-database`. */
  datatype Entry = Entry(name: string, size: Size, margin: int)

  function EntryOf(c: Config, name: string, size: Size): Entry {
    Entry(name, size, SideMargin(c, size.x))
  }

  function DefaultSize(c: Config): Size {
    if c.mediaSizes != [] then c.mediaSizes[0] else FALLBACK_SIZE
  }

  /** The size paired with name `i`: its own, or the default where the size list is too short. */
  function SizeAt(c: Config, i: nat): Size {
    if i < |c.mediaSizes| then c.mediaSizes[i] else DefaultSize(c)
  }

  function CustomName(bound: string, size: Size): string
    requires Positive(size)
  {
    var d := Text.ToDecimal(size.x / 100) + "x" + Text.ToDecimal(size.y / 100) + "mm";
    "custom_" + bound + "_" + d + "_" + d
  }

  /** `media-col-database`: every name with its own size, then the two ends of the custom range. */
  function Entries(c: Config): (e: seq<Entry>)
    ensures |e| == |c.mediaNames| + if CustomRange(c).Some? then 2 else 0
    ensures forall i :: 0 <= i < |c.mediaNames| ==> e[i] == EntryOf(c, c.mediaNames[i], SizeAt(c, i))
  {
    seq(|c.mediaNames|, i requires 0 <= i < |c.mediaNames| => EntryOf(c, c.mediaNames[i], SizeAt(c, i)))
    + if CustomRange(c).None? then []
      else [EntryOf(c, CustomName("min", c.mediaSizeMin), c.mediaSizeMin),
            EntryOf(c, CustomName("max", c.mediaSizeMax), c.mediaSizeMax)]
  }

  method Database(c: Config) returns (entries: seq<Entry>)
    ensures entries == Entries(c)
  {
    entries := [];
    for i := 0 to |c.mediaNames|
      invariant |entries| == i
      invariant forall k :: 0 <= k < i ==> entries[k] == EntryOf(c, c.mediaNames[k], SizeAt(c, k))
    {
      var size := if i < |c.mediaSizes| then c.mediaSizes[i] else DefaultSize(c);
      entries := entries + [EntryOf(c, c.mediaNames[i], size)];
    }
    var custom := CustomRange(c);
    if custom.Some? {
      entries := entries + [EntryOf(c, CustomName("min", custom.value.min), custom.value.min)];
      entries := entries + [EntryOf(c, CustomName("max", custom.value.max), custom.value.max)];
    }
  }

  /** The widths the margin set is made from. */
  function Widths(c: Config): (w: seq<int>)
    ensures |w| == |c.mediaSizes| + if CustomRange(c).Some? then 2 else 0
    ensures forall i :: 0 <= i < |c.mediaSizes| ==> w[i] == c.mediaSizes[i].x
    ensures CustomRange(c).Some? ==> w[|c.mediaSizes|] == c.mediaSizeMin.x && w[|c.mediaSizes| + 1] == c.mediaSizeMax.x
  {
    seq(|c.mediaSizes|, i requires 0 <= i < |c.mediaSizes| => c.mediaSizes[i].x)
    + if CustomRange(c).Some? then [c.mediaSizeMin.x, c.mediaSizeMax.x] else []
  }

  function MarginsOf(c: Config, widths: seq<int>): (m: seq<int>)
    ensures |m| == |widths| && forall i :: 0 <= i < |m| ==> m[i] == SideMargin(c, widths[i])
  {
    seq(|widths|, i requires 0 <= i < |widths| => SideMargin(c, widths[i]))
  }

  function Insert(x: int, s: seq<int>): seq<int> {
    if s == [] || x <= s[0] then [x] + s else [s[0]] + Insert(x, s[1..])
  }

  function Sort(s: seq<int>): seq<int> {
    if s == [] then [] else Insert(s[0], Sort(s[1..]))
  }

  /** `Vec::dedup`: drops an element equal to the one before it. */
  function Dedup(s: seq<int>): seq<int> {
    if |s| <= 1 then s else (if s[0] == s[1] then [] else [s[0]]) + Dedup(s[1..])
  }

  /** The value of `media-left-margin-supported` and `media-right-margin-supported`. */
  function Supported(c: Config): seq<int> {
    var margins := MarginsOf(c, Widths(c));
    Dedup(Sort(if margins == [] then [0] else margins))
  }

  method SideMargins(c: Config) returns (margins: seq<int>)
    ensures margins == Supported(c)
  {
    margins := [];
    for i := 0 to |c.mediaSizes|
      invariant |margins| == i
      invariant forall k :: 0 <= k < i ==> margins[k] == SideMargin(c, c.mediaSizes[k].x)
    {
      margins := margins + [SideMargin(c, c.mediaSizes[i].x)];
    }
    var custom := CustomRange(c);
    if custom.Some? {
      margins := margins + [SideMargin(c, custom.value.min.x)];
      margins := margins + [SideMargin(c, custom.value.max.x)];
    }
    assert margins == MarginsOf(c, Widths(c));
    if |margins| == 0 {
      margins := margins + [0];
      assert margins == [0];
    }
    margins := Sort(margins);
    margins := Dedup(margins);
  }

  // ---- the margin set -------------------------------------------------------------------------

  ghost predicate Increasing(s: seq<int>) {
    forall i, j :: 0 <= i < j < |s| ==> s[i] <= s[j]
  }

  ghost predicate StrictlyIncreasing(s: seq<int>) {
    forall i, j :: 0 <= i < j < |s| ==> s[i] < s[j]
  }

  lemma {:induction false} InsertSorts(x: int, s: seq<int>)
    requires Increasing(s)
    ensures Increasing(Insert(x, s))
    ensures forall y :: y in Insert(x, s) <==> y == x || y in s
  {
    if s != [] && x > s[0] {
      InsertSorts(x, s[1..]);
      var rest := Insert(x, s[1..]);
      forall j | 0 <= j < |rest| ensures s[0] <= rest[j] {
        assert rest[j] in rest;
      }
      assert forall y :: y in s <==> y == s[0] || y in s[1..];
    }
  }

  lemma {:induction false} SortSorts(s: seq<int>)
    ensures Increasing(Sort(s))
    ensures forall y :: y in Sort(s) <==> y in s
  {
    if s != [] {
      SortSorts(s[1..]);
      InsertSorts(s[0], Sort(s[1..]));
      assert forall y :: y in s <==> y == s[0] || y in s[1..];
    }
  }

  lemma {:induction false} DedupKeeps(s: seq<int>)
    requires Increasing(s)
    ensures StrictlyIncreasing(Dedup(s))
    ensures forall y :: y in Dedup(s) <==> y in s
    ensures s != [] ==> Dedup(s) != [] && Dedup(s)[0] == s[0]
  {
    if |s| > 1 {
      DedupKeeps(s[1..]);
      assert forall y :: y in s <==> y == s[0] || y in s[1..];
    }
  }

  /** The set is strictly increasing, and holds exactly the margins of the widths it is made from: of
      any width at all, or 0 when there is none. */
  lemma SupportedExact(c: Config)
    ensures StrictlyIncreasing(Supported(c)) && Supported(c) != []
    ensures forall m :: m in Supported(c) <==>
              if Widths(c) == [] then m == 0 else exists w :: w in Widths(c) && SideMargin(c, w) == m
  {
    var margins := MarginsOf(c, Widths(c));
    var all := if margins == [] then [0] else margins;
    SortSorts(all);
    DedupKeeps(Sort(all));
    assert all[0] in Sort(all);
    forall m ensures m in margins <==> exists w :: w in Widths(c) && SideMargin(c, w) == m {
      if w :| w in Widths(c) && SideMargin(c, w) == m {
        var i :| 0 <= i < |Widths(c)| && Widths(c)[i] == w;
        assert margins[i] == m;
      }
    }
  }

  /** Size by size: the margin of every size listed, named or not, of both ends of the custom range, and 0
      only besides where there is neither; nothing else. */
  lemma OfferedExactly(c: Config, m: int)
    ensures m in Supported(c) <==>
            || (exists i :: 0 <= i < |c.mediaSizes| && SideMargin(c, c.mediaSizes[i].x) == m)
            || (CustomRange(c).Some? && (m == SideMargin(c, c.mediaSizeMin.x) || m == SideMargin(c, c.mediaSizeMax.x)))
            || (c.mediaSizes == [] && CustomRange(c).None? && m == 0)
  {
    SupportedExact(c);
    var n := |c.mediaSizes|;
    if w :| w in Widths(c) && SideMargin(c, w) == m {
      var i :| 0 <= i < |Widths(c)| && Widths(c)[i] == w;
      assert i < n ==> SideMargin(c, c.mediaSizes[i].x) == m;
    }
    forall i | 0 <= i < n ensures c.mediaSizes[i].x in Widths(c) {
      assert Widths(c)[i] == c.mediaSizes[i].x;
    }
    if CustomRange(c).Some? {
      assert Widths(c)[n] == c.mediaSizeMin.x && Widths(c)[n + 1] == c.mediaSizeMax.x;
    }
  }

  /** The part of the sheet inside both margins is the head width, a unit more where the rest does
      not halve, or the whole of a narrower sheet. */
  lemma ImageableWidth(c: Config, width: int)
    ensures c.dpi > 0 && c.printheadWidthDots != 0 ==>
              var head := c.printheadWidthDots * 2540 / c.dpi;
              width - 2 * SideMargin(c, width) == if width <= head then width else head + (width - head) % 2
    ensures c.dpi <= 0 || c.printheadWidthDots == 0 ==> SideMargin(c, width) == 0
  {
  }

  lemma MarginMonotone(c: Config, width: int, wider: int)
    requires width <= wider
    ensures 0 <= SideMargin(c, width) <= SideMargin(c, wider)
  {
  }

  lemma WidthCovered(c: Config, width: int)
    requires width in Widths(c)
    ensures SideMargin(c, width) in Supported(c)
  {
    SupportedExact(c);
  }

  /** 0 is offered exactly if a width it is made from is fully printable, or there is none. */
  lemma ZeroExact(c: Config)
    ensures 0 in Supported(c) <==> Widths(c) == [] || exists w :: w in Widths(c) && (HeadKnown(c) ==> w <= Head(c) + 1)
  {
    SupportedExact(c);
    forall w ensures SideMargin(c, w) == 0 <==> (HeadKnown(c) ==> w <= Head(c) + 1) {}
  }

  // ---- every entry ---------------------------------------------------------------------------------

  /** Every listed name comes with its own size, or beyond the size list with the first, 40 by 30 mm if
      there is none; every entry carries the margin of its own width. */
  lemma ListedEntries(c: Config, i: nat)
    requires i < |c.mediaNames|
    ensures var e, n := Entries(c)[i], |c.mediaSizes|;
            && e.name == c.mediaNames[i] && e.margin == SideMargin(c, e.size.x)
            && e.size == if i < n then c.mediaSizes[i] else if n > 0 then c.mediaSizes[0] else Size(4000, 3000)
  {
  }

  /** Exactly where both custom bounds are positive and in order two entries follow: the smaller under its
      "min" name and the larger under its "max" name, each name telling its size in millimetres. */
  lemma CustomEntries(c: Config)
    ensures var n, e, min, max := |c.mediaNames|, Entries(c), c.mediaSizeMin, c.mediaSizeMax;
            if min.x > 0 && min.y > 0 && max.x > 0 && max.y > 0 && max.x >= min.x && max.y >= min.y then
              var a := Text.ToDecimal(min.x / 100) + "x" + Text.ToDecimal(min.y / 100) + "mm";
              var b := Text.ToDecimal(max.x / 100) + "x" + Text.ToDecimal(max.y / 100) + "mm";
              && |e| == n + 2
              && e[n] == Entry("custom_min_" + a + "_" + a, min, SideMargin(c, min.x))
              && e[n + 1] == Entry("custom_max_" + b + "_" + b, max, SideMargin(c, max.x))
            else |e| == n
  {
    var min, max := c.mediaSizeMin, c.mediaSizeMax;
    if CustomRange(c).Some? {
      assert "custom_" + "min" + "_" == "custom_min_" && "custom_" + "max" + "_" == "custom_max_";
    }
  }

  // ---- every entry's margin -----------------------------------------------------------------

  /** Padding with the fallback size does no harm. */
  predicate FallbackCovered(c: Config) {
    var m, custom := SideMargin(c, FALLBACK_SIZE.x), CustomRange(c);
    if custom.None? then m == 0
    else m == SideMargin(c, custom.value.min.x) || m == SideMargin(c, custom.value.max.x)
  }

  lemma EntryCovered(c: Config, i: nat)
    requires c.mediaSizes != [] || c.mediaNames == [] || FallbackCovered(c)
    requires i < |Entries(c)|
    ensures Entries(c)[i].margin in Supported(c)
  {
    var n, sizes := |c.mediaNames|, |c.mediaSizes|;
    if i >= n {
      WidthCovered(c, Widths(c)[sizes + i - n]);
    } else if sizes > 0 {
      WidthCovered(c, Widths(c)[if i < sizes then i else 0]);
    } else {
      SupportedExact(c);
    }
  }

  /** The set holds every entry's margin exactly if a size is listed, or no name is, or the margin of
      the fallback size happens to be in it. */
  lemma MarginsCoveredExactly(c: Config)
    ensures (forall e :: e in Entries(c) ==> e.margin in Supported(c))
       <==> c.mediaSizes != [] || c.mediaNames == [] || FallbackCovered(c)
  {
    var entries := Entries(c);
    if c.mediaSizes != [] || c.mediaNames == [] || FallbackCovered(c) {
      forall i | 0 <= i < |entries| ensures entries[i].margin in Supported(c) {
        EntryCovered(c, i);
      }
    } else {
      SupportedExact(c);
      assert entries[0] in entries && entries[0].margin == SideMargin(c, FALLBACK_SIZE.x);
    }
  }

  /** A name without a size of its own, a head narrower than the fallback size: the margin of the
      entry is not offered. */
  lemma MarginNotCovered(c: Config)
    requires c.dpi == 203 && c.printheadWidthDots == 200 && c.mediaNames == ["roll"] && c.mediaSizes == []
    requires c.mediaSizeMin == Size(0, 0)
    ensures Entries(c)[0].margin == 749 && Supported(c) == [0]
  {
    assert Head(c) == 2502;
    assert MarginsOf(c, Widths(c)) == [];
    assert Sort([0]) == [0] by { assert Sort([]) == []; }
  }
}
