/** The queue name proposed for a device (src/server.rs), against a machine that reads it once. */
module QueueNames {

  predicate LowerOrDigit(c: char) {
    'a' <= c <= 'z' || '0' <= c <= '9'
  }

  predicate Alphanumeric(c: char) {
    LowerOrDigit(c) || 'A' <= c <= 'Z'
  }

  function Lower(c: char): char {
    if 'A' <= c <= 'Z' then c - 'A' + 'a' else c
  }

  // ---- the pipeline: map, trim, split, filter, join ------------------------------------------

  function Mapped(s: string): string {
    if s == [] then [] else [if Alphanumeric(s[0]) then Lower(s[0]) else '_'] + Mapped(s[1..])
  }

  function TrimLeft(s: string): string {
    if s != [] && s[0] == '_' then TrimLeft(s[1..]) else s
  }

  function TrimRight(s: string): string {
    if s != [] && s[|s| - 1] == '_' then TrimRight(s[..|s| - 1]) else s
  }

  /** Pieces between underscores; never an empty list. */
  function Split(s: string): (r: seq<string>)
    ensures r != []
  {
    if s == [] then [""]
    else
      var rest := Split(s[1..]);
      if s[0] == '_' then [""] + rest else [[s[0]] + rest[0]] + rest[1..]
  }

  function NonEmpty(pieces: seq<string>): seq<string> {
    if pieces == [] then []
    else (if pieces[0] != "" then [pieces[0]] else []) + NonEmpty(pieces[1..])
  }

  function Join(pieces: seq<string>): string {
    if pieces == [] then ""
    else if |pieces| == 1 then pieces[0]
    else pieces[0] + "_" + Join(pieces[1..])
  }

  function Collapsed(source: string): string {
    Join(NonEmpty(Split(TrimRight(TrimLeft(Mapped(source))))))
  }

  /** `printer_name_from_uri` */
  function QueueName(uri: string, info: string): string {
    var collapsed := Collapsed(if info == "" then uri else info);
    if collapsed == "" then "printer" else collapsed
  }

  // ---- the machine ---------------------------------------------------------------------------

  /** Copies letters and digits in lower case; a run of anything else, once something has been
      written and something follows, is one underscore. */
  function OnePass(s: string, gap: bool, started: bool): string {
    if s == [] then ""
    else if Alphanumeric(s[0])
    then (if gap && started then "_" else "") + [Lower(s[0])] + OnePass(s[1..], false, true)
    else OnePass(s[1..], true, started)
  }

  // ---- they agree -------------------------------------------------------------------------------

  lemma {:induction false} SplitSnoc(s: string)
    ensures Split(s + "_") == Split(s) + [""]
  {
    if s == [] {
      assert s + "_" == "_";
      assert Split("_") == [""] + Split("_"[1..]);
    } else {
      SplitSnoc(s[1..]);
      assert (s + "_")[1..] == s[1..] + "_";
    }
  }

  lemma {:induction false} NonEmptySnoc(pieces: seq<string>)
    ensures NonEmpty(pieces + [""]) == NonEmpty(pieces)
  {
    if pieces == [] {
      assert pieces + [""] == [""];
    } else {
      NonEmptySnoc(pieces[1..]);
      assert (pieces + [""])[1..] == pieces[1..] + [""];
    }
  }

  lemma {:induction false} TrimmingIsIdle(s: string)
    ensures NonEmpty(Split(TrimLeft(s))) == NonEmpty(Split(s))
    ensures NonEmpty(Split(TrimRight(s))) == NonEmpty(Split(s))
  {
    if s != [] {
      if s[0] == '_' { TrimmingIsIdle(s[1..]); }
      if s[|s| - 1] == '_' {
        var before := s[..|s| - 1];
        TrimmingIsIdle(before);
        assert s == before + "_";
        SplitSnoc(before);
        NonEmptySnoc(Split(before));
      }
    }
  }

  function Underscored(words: seq<string>): string {
    if words == [] then "" else "_" + Join(words)
  }

  lemma JoinCons(word: string, words: seq<string>)
    ensures Join([word] + words) == word + Underscored(words)
  {
    assert ([word] + words)[1..] == words;
  }

  function WithHead(head: string, words: seq<string>): seq<string> {
    if head == "" then words else [head] + words
  }

  /** The machine on a text that starts inside a word with `head` and goes on with `words`: within the
      word, after a gap, and before the first word. */
  ghost predicate Joins(s: string, head: string, words: seq<string>) {
    && OnePass(s, false, true) == head + Underscored(words)
    && OnePass(s, true, true) == Underscored(WithHead(head, words))
    && OnePass(s, false, false) == Join(WithHead(head, words))
    && OnePass(s, true, false) == Join(WithHead(head, words))
  }

  lemma GapStep(s: string, head: string, words: seq<string>)
    requires s != [] && !Alphanumeric(s[0]) && Joins(s[1..], head, words)
    ensures Joins(s, "", WithHead(head, words))
  {
  }

  lemma Assoc(a: string, b: string, c: string)
    ensures a + (b + c) == (a + b) + c && "" + a == a
  {
  }

  lemma WordStep(s: string, head: string, words: seq<string>)
    requires s != [] && Alphanumeric(s[0]) && Joins(s[1..], head, words)
    ensures Joins(s, [Lower(s[0])] + head, words)
  {
    var c, tail := [Lower(s[0])], Underscored(words);
    JoinCons(c + head, words);
    Assoc(c, head, tail);
    Assoc("_", c, head + tail);
    Assoc("", c, head + tail);
  }

  lemma NonEmptyHead(pieces: seq<string>)
    requires pieces != []
    ensures NonEmpty(pieces) == WithHead(pieces[0], NonEmpty(pieces[1..]))
  {
  }

  lemma {:induction false} MachineJoins(s: string)
    ensures var pieces := Split(Mapped(s)); Joins(s, pieces[0], NonEmpty(pieces[1..]))
  {
    if s == [] {
      assert Split(Mapped(s)) == [""];
    } else {
      MachineJoins(s[1..]);
      assert Mapped(s)[1..] == Mapped(s[1..]);
      var below := Split(Mapped(s[1..]));
      NonEmptyHead(below);
      if Alphanumeric(s[0]) {
        WordStep(s, below[0], NonEmpty(below[1..]));
        assert ([[Lower(s[0])] + below[0]] + below[1..])[1..] == below[1..];
      } else {
        GapStep(s, below[0], NonEmpty(below[1..]));
        assert ([""] + below)[1..] == below;
      }
    }
  }

  /** Mapping, trimming, splitting, filtering and joining is one pass of the machine. */
  lemma CollapsedIsOnePass(source: string)
    ensures Collapsed(source) == OnePass(source, false, false)
  {
    TrimmingIsIdle(Mapped(source));
    TrimmingIsIdle(TrimLeft(Mapped(source)));
    MachineJoins(source);
    NonEmptyHead(Split(Mapped(source)));
  }

  /** The name comes from the description, or where that is empty from the URI, in one pass; it is
      "printer" where the pass writes nothing. */
  lemma QueueNameExactly(uri: string, info: string)
    ensures var written := OnePass(if info == "" then uri else info, false, false);
            QueueName(uri, info) == if written == "" then "printer" else written
  {
    CollapsedIsOnePass(if info == "" then uri else info);
  }

  // ---- what names look like -----------------------------------------------------------------------

  /** What may follow a letter or digit in a name. */
  predicate SlugTail(s: string) {
    s == [] || ((LowerOrDigit(s[0]) || (s[0] == '_' && |s| > 1 && LowerOrDigit(s[1]))) && SlugTail(s[1..]))
  }

  predicate Slug(s: string) {
    s != [] && LowerOrDigit(s[0]) && SlugTail(s[1..])
  }

  /** Said of the characters: only [a-z0-9_], and no underscore leads, trails or is doubled. */
  ghost predicate Clean(s: string) {
    && s != [] && s[0] != '_' && s[|s| - 1] != '_'
    && (forall i :: 0 <= i < |s| ==> LowerOrDigit(s[i]) || s[i] == '_')
    && (forall i :: 0 <= i < |s| - 1 ==> s[i] != '_' || s[i + 1] != '_')
  }

  lemma {:induction false} SlugTailIsClean(s: string)
    requires SlugTail(s)
    ensures forall i :: 0 <= i < |s| ==> LowerOrDigit(s[i]) || s[i] == '_'
    ensures forall i :: 0 <= i < |s| - 1 ==> s[i] != '_' || s[i + 1] != '_'
    ensures s != [] ==> s[|s| - 1] != '_'
  {
    if s != [] {
      var rest := s[1..];
      SlugTailIsClean(rest);
      forall i | 0 < i < |s| ensures s[i] == rest[i - 1] {}
    }
  }

  lemma SlugIsClean(s: string)
    requires Slug(s)
    ensures Clean(s)
  {
    SlugTailIsClean(s[1..]);
    forall i | 0 < i < |s| ensures s[i] == s[1..][i - 1] {}
  }

  lemma {:induction false} OnePassShape(s: string, gap: bool)
    ensures SlugTail(OnePass(s, gap, true))
    ensures OnePass(s, gap, false) == "" || Slug(OnePass(s, gap, false))
  {
    if s != [] {
      OnePassShape(s[1..], false);
      OnePassShape(s[1..], true);
      if Alphanumeric(s[0]) {
        var rest := OnePass(s[1..], false, true);
        assert ([Lower(s[0])] + rest)[1..] == rest;
        if gap { assert ("_" + [Lower(s[0])] + rest)[1..] == [Lower(s[0])] + rest; }
      }
    }
  }

  lemma {:induction false} OnePassKeepsSlugs(s: string)
    requires SlugTail(s)
    ensures OnePass(s, false, true) == s
    ensures s != [] && LowerOrDigit(s[0]) ==> OnePass(s, true, true) == "_" + s
  {
    if s != [] {
      OnePassKeepsSlugs(s[1..]);
    }
  }

  lemma PrinterIsSlug()
    ensures Slug("printer")
  {
    assert "printer"[1..] == "rinter" && "rinter"[1..] == "inter" && "inter"[1..] == "nter";
    assert "nter"[1..] == "ter" && "ter"[1..] == "er" && "er"[1..] == "r" && "r"[1..] == "";
    assert SlugTail("ter");
    assert SlugTail("inter");
  }

  lemma QueueNameIsSlug(uri: string, info: string)
    ensures Slug(QueueName(uri, info))
  {
    CollapsedIsOnePass(if info == "" then uri else info);
    OnePassShape(if info == "" then uri else info, false);
    PrinterIsSlug();
  }

  lemma SlugIsStable(s: string)
    requires Slug(s)
    ensures Collapsed(s) == s
  {
    CollapsedIsOnePass(s);
    OnePassKeepsSlugs(s[1..]);
  }

  /** A queue name is never empty and clean, and naming a device by it changes nothing. */
  lemma QueueNameStable(uri: string, info: string)
    ensures Clean(QueueName(uri, info))
    ensures forall uri' :: QueueName(uri', QueueName(uri, info)) == QueueName(uri, info)
  {
    QueueNameIsSlug(uri, info);
    SlugIsClean(QueueName(uri, info));
    SlugIsStable(QueueName(uri, info));
  }

  ghost predicate SameButCase(a: string, b: string) {
    |a| == |b| && forall i :: 0 <= i < |a| ==> Lower(a[i]) == Lower(b[i])
  }

  lemma {:induction false} OnePassIgnoresCase(a: string, b: string, gap: bool, started: bool)
    requires SameButCase(a, b)
    ensures OnePass(a, gap, started) == OnePass(b, gap, started)
  {
    if a != [] {
      assert Lower(a[0]) == Lower(b[0]);
      OnePassIgnoresCase(a[1..], b[1..], false, true);
      OnePassIgnoresCase(a[1..], b[1..], true, started);
    }
  }

  /** Letter case in the description does not matter, nor in the URI it falls back to. */
  lemma QueueNameIgnoresCase(uri: string, info: string, uri': string, info': string)
    requires SameButCase(uri, uri') && SameButCase(info, info')
    ensures QueueName(uri, info) == QueueName(uri', info')
  {
    var a, b := if info == "" then uri else info, if info' == "" then uri' else info';
    CollapsedIsOnePass(a);
    CollapsedIsOnePass(b);
    OnePassIgnoresCase(a, b, false, false);
  }
}
