/** The check that an IPP request opens with `attributes-charset` and `attributes-natural-language`
    (src/server.rs), against the encoding of section 3.1 of RFC 8010. */
module RawScan {
  import opened Common

  type byte = x: int | 0 <= x < 256

  /** The names wanted first and second. */
  datatype Wanted = Wanted(first: seq<byte>, second: seq<byte>)

  const CHARSET_THEN_LANGUAGE := Wanted(
    [97, 116, 116, 114, 105, 98, 117, 116, 101, 115, 45, 99, 104, 97, 114, 115, 101, 116],
    [97, 116, 116, 114, 105, 98, 117, 116, 101, 115, 45, 110, 97, 116, 117, 114, 97, 108, 45,
     108, 97, 110, 103, 117, 97, 103, 101])

  predicate ValidWanted(w: Wanted) {
    0 < |w.first| < 0x1_0000 && 0 < |w.second| < 0x1_0000
  }

  const OPERATION_ATTRIBUTES: byte := 1
  const LAST_DELIMITER: byte := 0x0f

  /** The big-endian number in the two bytes from `i` on. */
  function BigEndian(s: seq<byte>, i: nat): (n: nat)
    requires i + 2 <= |s|
  {
    256 * (s[i] as int) + s[i + 1]
  }

  predicate Ordered(names: seq<seq<byte>>, w: Wanted) {
    |names| >= 2 && names[0] == w.first && names[1] == w.second
  }

  /** What is left of `body` from index `i` on, which may lie past its end. */
  function Tail(body: seq<byte>, i: nat): seq<byte> {
    if i <= |body| then body[i..] else []
  }

  /** Where the name and the value of one turn end; none if a length or the name does not fit. */
  datatype Bounds = Bounds(name: nat, value: nat)

  function BoundsAt(body: seq<byte>, i: nat): (b: Option<Bounds>)
    ensures b.Some? ==> i + 3 <= b.value.name && b.value.name + 2 <= |body| && b.value.name + 2 <= b.value.value
  {
    if i + 3 > |body| then None
    else
      var name := i + 3 + BigEndian(body, i + 1);
      if name + 2 > |body| then None else Some(Bounds(name, name + 2 + BigEndian(body, name)))
  }

  /** A name, and what is left of the bytes after its value. */
  datatype Front = Front(name: seq<byte>, rest: seq<byte>)

  /** One turn of the scan on the bytes from a value tag on. A value that runs past the end leaves
      nothing; a name or a value length that does is malformed. */
  function Turn(s: seq<byte>): (f: Option<Front>)
    ensures f.Some? ==> |f.value.rest| < |s|
  {
    var b := BoundsAt(s, 0);
    if b.None? then None else Some(Front(s[3..b.value.name], Tail(s, b.value.value)))
  }

  function Add(names: seq<seq<byte>>, name: seq<byte>): seq<seq<byte>> {
    if |name| == 0 then names else names + [name]
  }

  /** The names the scan of `s` ends with, given those seen so far; none if it meets malformed bytes. */
  function ScanRest(s: seq<byte>, names: seq<seq<byte>>): Option<seq<seq<byte>>>
    decreases |s|
  {
    if |names| >= 2 || s == [] || s[0] <= LAST_DELIMITER then Some(names)
    else
      var f := Turn(s);
      if f.None? then None else ScanRest(f.value.rest, Add(names, f.value.name))
  }

  predicate Accepts(names: Option<seq<seq<byte>>>, w: Wanted) {
    names.Some? && Ordered(names.value, w)
  }

  function Scan(body: seq<byte>, w: Wanted): bool {
    |body| > 8 && body[8] == OPERATION_ATTRIBUTES && Accepts(ScanRest(body[9..], []), w)
  }

  /** `operation_attributes_well_ordered` */
  method OperationAttributesWellOrdered(body: seq<byte>) returns (ordered: bool)
    ensures ordered == Scan(body, CHARSET_THEN_LANGUAGE)
  {
    ordered := WellOrdered(body, CHARSET_THEN_LANGUAGE);
  }

  lemma TailNumber(body: seq<byte>, i: nat, j: nat)
    requires i + j + 2 <= |body|
    ensures BigEndian(body[i..], j) == BigEndian(body, i + j)
  {
  }

  lemma BoundsShift(body: seq<byte>, i: nat)
    requires i < |body|
    ensures var b, c := BoundsAt(body, i), BoundsAt(body[i..], 0);
            b.None? == c.None? && (b.Some? ==> b.value == Bounds(i + c.value.name, i + c.value.value))
  {
    if i + 3 <= |body| {
      TailNumber(body, i, 1);
      var name := 3 + BigEndian(body, i + 1);
      if i + name + 2 <= |body| {
        TailNumber(body, i, name);
      }
    }
  }

  /** A turn by index. */
  lemma TurnAt(body: seq<byte>, i: nat)
    requires i < |body|
    ensures var b := BoundsAt(body, i);
            Turn(body[i..]) == if b.None? then None else Some(Front(body[i + 3..b.value.name], Tail(body, b.value.value)))
  {
    BoundsShift(body, i);
    var c := BoundsAt(body[i..], 0);
    if c.Some? {
      assert body[i..][3..c.value.name] == body[i + 3..i + c.value.name];
      assert Tail(body[i..], c.value.value) == Tail(body, i + c.value.value);
    }
  }

  /** The scan by index. */
  function ScanFrom(body: seq<byte>, i: nat, names: seq<seq<byte>>): Option<seq<seq<byte>>>
    decreases |body| - i
  {
    if |names| >= 2 || i >= |body| || body[i] <= LAST_DELIMITER then Some(names)
    else
      var b := BoundsAt(body, i);
      if b.None? then None else ScanFrom(body, b.value.value, Add(names, body[i + 3..b.value.name]))
  }

  lemma RestTurn(s: seq<byte>, names: seq<seq<byte>>)
    requires s != [] && |names| < 2 && s[0] > LAST_DELIMITER
    ensures ScanRest(s, names) == if Turn(s).None? then None else ScanRest(Turn(s).value.rest, Add(names, Turn(s).value.name))
  {
  }

  lemma {:induction false} ScanByIndex(body: seq<byte>, i: nat, names: seq<seq<byte>>)
    ensures ScanFrom(body, i, names) == ScanRest(Tail(body, i), names)
    decreases |body| - i
  {
    if |names| < 2 && i < |body| && body[i] > LAST_DELIMITER {
      TurnAt(body, i);
      RestTurn(body[i..], names);
      var b := BoundsAt(body, i);
      if b.Some? {
        ScanByIndex(body, b.value.value, Add(names, body[i + 3..b.value.name]));
      }
    }
  }

  lemma ScanStep(body: seq<byte>, i: nat, names: seq<seq<byte>>)
    requires i < |body| && body[i] > LAST_DELIMITER && |names| < 2 && BoundsAt(body, i).Some?
    ensures var b := BoundsAt(body, i).value;
            ScanFrom(body, i, names) == ScanFrom(body, b.value, Add(names, body[i + 3..b.name]))
  {
  }

  /** The body of the loop after the tag: the name, and where its value ends; not ok if a length or
      the name does not fit. */
  method ReadTurn(body: seq<byte>, tag: nat) returns (ok: bool, name: seq<byte>, end: nat)
    requires tag < |body|
    ensures ok == BoundsAt(body, tag).Some?
    ensures ok ==> var b := BoundsAt(body, tag).value; name == body[tag + 3..b.name] && end == b.value
  {
    var i := tag + 1;
    if i + 2 > |body| {
      return false, [], i;
    }
    var nameLen := BigEndian(body, i);
    i := i + 2;
    if i + nameLen > |body| {
      return false, [], i;
    }
    name := body[i..i + nameLen];
    i := i + nameLen;
    if i + 2 > |body| {
      return false, [], i;
    }
    var valueLen := BigEndian(body, i);
    i := i + 2 + valueLen;
    return true, name, i;
  }

  method WellOrdered(body: seq<byte>, w: Wanted) returns (ordered: bool)
    ensures ordered == Scan(body, w)
  {
    if |body| <= 8 || body[8] != OPERATION_ATTRIBUTES {
      return false;
    }
    ScanByIndex(body, 9, []);
    var i: nat := 9;
    var names: seq<seq<byte>> := [];
    ghost var goal := ScanRest(body[9..], []);
    while i < |body| && |names| < 2
      invariant goal == ScanFrom(body, i, names)
      decreases |body| - i
    {
      if body[i] <= LAST_DELIMITER {
        break;
      }
      var ok, name, end := ReadTurn(body, i);
      if !ok {
        return false;
      }
      ScanStep(body, i, names);
      if |name| > 0 {
        names := names + [name];
      }
      i := end;
    }
    ordered := |names| >= 1 && names[0] == w.first && |names| >= 2 && names[1] == w.second;
  }

  lemma Assoc(a: seq<byte>, b: seq<byte>, c: seq<byte>)
    ensures a + (b + c) == (a + b) + c
  {
  }

  // ---- the encoding --------------------------------------------------------------------------

  datatype Value = Value(tag: byte, content: seq<byte>)

  /** An attribute: a name, a value and any number of additional values. */
  datatype Attribute = Attribute(name: seq<byte>, value: Value, more: seq<Value>)

  predicate ValidValue(v: Value) {
    v.tag >= 0x10 && |v.content| < 0x1_0000
  }

  predicate ValidAttribute(a: Attribute) {
    0 < |a.name| < 0x1_0000 && ValidValue(a.value) && forall v :: v in a.more ==> ValidValue(v)
  }

  function Length(n: nat): (r: seq<byte>)
    requires n < 0x1_0000
    ensures |r| == 2 && BigEndian(r, 0) == n
  {
    [n / 256, n % 256]
  }

  /** value-tag, name-length, name, value-length, value */
  function Field(name: seq<byte>, v: Value): seq<byte>
    requires |name| < 0x1_0000 && ValidValue(v)
  {
    [v.tag] + Length(|name|) + name + Length(|v.content|) + v.content
  }

  function Fields(values: seq<Value>): seq<byte>
    requires forall v :: v in values ==> ValidValue(v)
  {
    if values == [] then [] else Field([], values[0]) + Fields(values[1..])
  }

  function Encoded(a: Attribute): seq<byte>
    requires ValidAttribute(a)
  {
    Field(a.name, a.value) + Fields(a.more)
  }

  function EncodedAll(attributes: seq<Attribute>): seq<byte>
    requires forall a :: a in attributes ==> ValidAttribute(a)
  {
    if attributes == [] then [] else Encoded(attributes[0]) + EncodedAll(attributes[1..])
  }

  /** One field is one turn of the scan. */
  lemma TurnField(name: seq<byte>, v: Value, s: seq<byte>)
    requires |name| < 0x1_0000 && ValidValue(v)
    ensures (Field(name, v) + s)[0] == v.tag
    ensures Turn(Field(name, v) + s) == Some(Front(name, s))
  {
    var t, n, k := Field(name, v) + s, |name|, |v.content|;
    var ln, lk := Length(n), Length(k);
    assert t == [v.tag] + ln + (name + (lk + (v.content + s)));
    assert t[1] == ln[0] && t[2] == ln[1];
    assert t[3..] == name + (lk + (v.content + s));
    assert t[3 + n] == t[3..][n] && t[4 + n] == t[3..][n + 1];
    assert t[3..3 + n] == name;
    assert t[5 + n + k..] == s;
  }

  lemma ScanField(name: seq<byte>, v: Value, s: seq<byte>, names: seq<seq<byte>>)
    requires |name| < 0x1_0000 && ValidValue(v) && |names| < 2
    ensures ScanRest(Field(name, v) + s, names) == ScanRest(s, Add(names, name))
  {
    TurnField(name, v, s);
  }

  lemma {:induction false} ScanFields(values: seq<Value>, s: seq<byte>, names: seq<seq<byte>>)
    requires forall v :: v in values ==> ValidValue(v)
    ensures |names| < 2 ==> ScanRest(Fields(values) + s, names) == ScanRest(s, names)
  {
    if values == [] {
      assert Fields(values) + s == s;
    } else if |names| < 2 {
      ScanField([], values[0], Fields(values[1..]) + s, names);
      ScanFields(values[1..], s, names);
      Assoc(Field([], values[0]), Fields(values[1..]), s);
    }
  }

  lemma ScanAttribute(a: Attribute, s: seq<byte>, names: seq<seq<byte>>)
    requires ValidAttribute(a) && |names| < 2
    ensures ScanRest(Encoded(a) + s, names) == ScanRest(s, names + [a.name])
  {
    ScanField(a.name, a.value, Fields(a.more) + s, names);
    ScanFields(a.more, s, names + [a.name]);
    Assoc(Field(a.name, a.value), Fields(a.more), s);
  }

  /** The names of the first two attributes, as far as there are so many. */
  function FirstNames(names: seq<seq<byte>>, attributes: seq<Attribute>): seq<seq<byte>>
    decreases |attributes|
  {
    if |names| >= 2 || attributes == [] then names else FirstNames(names + [attributes[0].name], attributes[1..])
  }

  lemma {:induction false} ScanAll(attributes: seq<Attribute>, tail: seq<byte>, names: seq<seq<byte>>)
    requires forall a :: a in attributes ==> ValidAttribute(a)
    requires tail == [] || tail[0] <= LAST_DELIMITER
    ensures ScanRest(EncodedAll(attributes) + tail, names) == Some(FirstNames(names, attributes))
  {
    if attributes == [] {
      assert EncodedAll(attributes) + tail == tail;
    } else if |names| < 2 {
      ScanAttribute(attributes[0], EncodedAll(attributes[1..]) + tail, names);
      ScanAll(attributes[1..], tail, names + [attributes[0].name]);
      Assoc(Encoded(attributes[0]), EncodedAll(attributes[1..]), tail);
    }
  }

  lemma FirstTwo(attributes: seq<Attribute>, w: Wanted)
    ensures Ordered(FirstNames([], attributes), w)
       <==> |attributes| >= 2 && attributes[0].name == w.first && attributes[1].name == w.second
  {
    if attributes != [] {
      var names := [] + [attributes[0].name];
      assert FirstNames([], attributes) == FirstNames(names, attributes[1..]);
      if |attributes| > 1 {
        assert FirstNames(names, attributes[1..]) == FirstNames(names + [attributes[1].name], attributes[2..]);
      }
    }
  }

  /** On an encoded operation group, ended by a delimiter or by the end of the body, the scan is true
      exactly when the first two attributes are the two it wants. */
  lemma ScanEncoded(header: seq<byte>, attributes: seq<Attribute>, tail: seq<byte>, w: Wanted)
    requires |header| == 8 && forall a :: a in attributes ==> ValidAttribute(a)
    requires tail == [] || tail[0] <= 0x0f
    ensures Scan(header + [1] + (EncodedAll(attributes) + tail), w)
       <==> |attributes| >= 2 && attributes[0].name == w.first && attributes[1].name == w.second
  {
    var group := EncodedAll(attributes) + tail;
    var body := header + [OPERATION_ATTRIBUTES] + group;
    assert body[8] == OPERATION_ATTRIBUTES && body[9..] == group;
    ScanAll(attributes, tail, []);
    FirstTwo(attributes, w);
  }

  // ---- arbitrary bytes -----------------------------------------------------------------------

  /** How the group of a body the scan accepts begins. The scan also lets additional values pass that
      come before any attribute, and does not look at what follows the second value length. */
  datatype Opening = Opening(stray: seq<Value>, first: Value, more: seq<Value>, tag: byte, rest: seq<byte>)

  predicate ValidOpening(o: Opening) {
    && (forall v :: v in o.stray ==> ValidValue(v)) && ValidValue(o.first)
    && (forall v :: v in o.more ==> ValidValue(v)) && o.tag >= 0x10 && |o.rest| >= 2
  }

  /** A tag and a name with at least its value length. */
  function Named(tag: byte, name: seq<byte>, rest: seq<byte>): seq<byte>
    requires |name| < 0x1_0000
  {
    [tag] + Length(|name|) + name + rest
  }

  function OpeningBytes(o: Opening, w: Wanted): seq<byte>
    requires ValidOpening(o) && ValidWanted(w)
  {
    Fields(o.stray) + (Field(w.first, o.first) + (Fields(o.more) + Named(o.tag, w.second, o.rest)))
  }

  lemma TurnNamed(tag: byte, name: seq<byte>, rest: seq<byte>)
    requires |name| < 0x1_0000 && |rest| >= 2
    ensures var f := Turn(Named(tag, name, rest)); f.Some? && f.value.name == name
  {
    var s, n, ln := Named(tag, name, rest), |name|, Length(|name|);
    assert s == [tag] + ln + (name + rest);
    assert s[1] == ln[0] && s[2] == ln[1];
    assert s[3..3 + n] == name;
  }

  lemma OpeningAccepted(o: Opening, w: Wanted)
    requires ValidOpening(o) && ValidWanted(w)
    ensures Accepts(ScanRest(OpeningBytes(o, w), []), w)
  {
    var last := Named(o.tag, w.second, o.rest);
    ScanFields(o.stray, Field(w.first, o.first) + (Fields(o.more) + last), []);
    ScanField(w.first, o.first, Fields(o.more) + last, []);
    ScanFields(o.more, last, Add([], w.first));
    TurnNamed(o.tag, w.second, o.rest);
    assert last[0] == o.tag;
  }

  lemma ReadLength(s: seq<byte>, i: nat)
    requires i + 2 <= |s|
    ensures s[i..i + 2] == Length(BigEndian(s, i))
  {
  }

  lemma TurnReadsName(s: seq<byte>)
    requires s != [] && s[0] > LAST_DELIMITER && Turn(s).Some?
    ensures var f := Turn(s).value;
            && |f.name| < 0x1_0000 && |s| >= 5 + |f.name| && f.name == s[3..3 + |f.name|]
            && s == Named(s[0], f.name, s[3 + |f.name|..])
  {
    ReadLength(s, 1);
  }

  lemma ReadValue(s: seq<byte>, i: nat, k: nat)
    requires i + 2 + k <= |s| && k == BigEndian(s, i)
    ensures s[i..] == Length(k) + s[i + 2..i + 2 + k] + s[i + 2 + k..]
  {
    ReadLength(s, i);
  }

  /** What a turn has read: a whole field, or one whose value runs past the end. */
  lemma TurnReads(s: seq<byte>) returns (v: Value)
    requires s != [] && s[0] > LAST_DELIMITER && Turn(s).Some?
    ensures var f := Turn(s).value;
            && |f.name| < 0x1_0000 && |s| >= 5 + |f.name|
            && (f.rest != [] ==> ValidValue(v) && s == Field(f.name, v) + f.rest)
            && s == Named(s[0], f.name, s[3 + |f.name|..])
  {
    TurnReadsName(s);
    var f := Turn(s).value;
    var i := 3 + |f.name|;
    var k := BigEndian(s, i);
    v := Value(s[0], []);
    if i + 2 + k <= |s| {
      v := Value(s[0], s[i + 2..i + 2 + k]);
      ReadValue(s, i, k);
      Assoc([s[0]] + Length(|f.name|) + f.name, Length(k) + v.content, s[i + 2 + k..]);
      Assoc([s[0]] + Length(|f.name|) + f.name, Length(k), v.content);
    }
  }

  lemma FieldsCons(v: Value, values: seq<Value>)
    requires ValidValue(v) && forall u :: u in values ==> ValidValue(u)
    ensures Fields([v] + values) == Field([], v) + Fields(values)
  {
    assert ([v] + values)[1..] == values;
  }

  lemma SecondName(s: seq<byte>, names: seq<seq<byte>>, w: Wanted)
    requires s != [] && s[0] > LAST_DELIMITER && |names| == 1
    requires Turn(s).Some? && Turn(s).value.name != [] && Accepts(ScanRest(s, names), w)
    ensures names[0] == w.first && Turn(s).value.name == w.second
  {
    RestTurn(s, names);
    assert Add(names, Turn(s).value.name) == names + [Turn(s).value.name];
  }

  /** Accepted with the first name seen: more values, then the second name. */
  lemma {:induction false} AcceptedSecond(s: seq<byte>, names: seq<seq<byte>>, w: Wanted)
    returns (more: seq<Value>, tag: byte, rest: seq<byte>)
    requires ValidWanted(w) && Accepts(ScanRest(s, names), w) && |names| == 1
    ensures names[0] == w.first
    ensures (forall v :: v in more ==> ValidValue(v)) && tag > LAST_DELIMITER && |rest| >= 2
    ensures s == Fields(more) + Named(tag, w.second, rest)
    decreases |s|
  {
    var v := TurnReads(s);
    var f := Turn(s).value;
    if f.name != [] {
      more, tag, rest := [], s[0], s[3 + |f.name|..];
      SecondName(s, names, w);
      assert Fields(more) + Named(tag, w.second, rest) == Named(tag, w.second, rest);
    } else {
      more, tag, rest := AcceptedSecond(f.rest, names, w);
      FieldsCons(v, more);
      Assoc(Field([], v), Fields(more), Named(tag, w.second, rest));
      more := [v] + more;
    }
  }

  lemma StrayFirst(v: Value, o: Opening, w: Wanted)
    requires ValidWanted(w) && ValidOpening(o) && ValidValue(v)
    ensures ValidOpening(o.(stray := [v] + o.stray))
    ensures OpeningBytes(o.(stray := [v] + o.stray), w) == Field([], v) + OpeningBytes(o, w)
  {
    FieldsCons(v, o.stray);
    Assoc(Field([], v), Fields(o.stray), Field(w.first, o.first) + (Fields(o.more) + Named(o.tag, w.second, o.rest)));
  }

  lemma NoStray(v: Value, more: seq<Value>, tag: byte, rest: seq<byte>, w: Wanted)
    requires ValidWanted(w) && ValidOpening(Opening([], v, more, tag, rest))
    ensures OpeningBytes(Opening([], v, more, tag, rest), w)
         == Field(w.first, v) + (Fields(more) + Named(tag, w.second, rest))
  {
  }

  lemma {:induction false} AcceptedFirst(s: seq<byte>, w: Wanted) returns (o: Opening)
    requires ValidWanted(w) && Accepts(ScanRest(s, []), w)
    ensures ValidOpening(o) && s == OpeningBytes(o, w)
    decreases |s|
  {
    var v := TurnReads(s);
    var f := Turn(s).value;
    if f.name != [] {
      var more, tag, rest := AcceptedSecond(f.rest, Add([], f.name), w);
      o := Opening([], v, more, tag, rest);
      NoStray(v, more, tag, rest, w);
    } else {
      o := AcceptedFirst(f.rest, w);
      StrayFirst(v, o, w);
      o := o.(stray := [v] + o.stray);
    }
  }

  /** On arbitrary bytes, the scan is true of exactly the bodies that open as described. */
  lemma ScanExact(body: seq<byte>, w: Wanted)
    requires ValidWanted(w)
    ensures Scan(body, w) <==> |body| > 8 && body[8] == 1
                               && exists o :: ValidOpening(o) && OpeningBytes(o, w) == body[9..]
  {
    if Scan(body, w) {
      var o := AcceptedFirst(body[9..], w);
    }
    if |body| > 8 && body[8] == OPERATION_ATTRIBUTES {
      forall o | ValidOpening(o) && OpeningBytes(o, w) == body[9..] ensures Scan(body, w) {
        OpeningAccepted(o, w);
      }
    }
  }

  ghost predicate Spells(bytes: seq<byte>, text: string) {
    |bytes| == |text| && forall i :: 0 <= i < |text| ==> bytes[i] == text[i] as int
  }

  lemma WantedIsValid()
    ensures ValidWanted(CHARSET_THEN_LANGUAGE)
    ensures Spells(CHARSET_THEN_LANGUAGE.first, "attributes-charset")
    ensures Spells(CHARSET_THEN_LANGUAGE.second, "attributes-natural-language")
  {
  }

  /** More bytes never turn a true answer false. */
  lemma ScanMonotone(body: seq<byte>, extra: seq<byte>, w: Wanted)
    requires ValidWanted(w) && Scan(body, w)
    ensures Scan(body + extra, w)
  {
    var o := AcceptedFirst(body[9..], w);
    var o' := o.(rest := o.rest + extra);
    var last := Named(o.tag, w.second, o.rest);
    Assoc([o.tag] + Length(|w.second|) + w.second, o.rest, extra);
    Assoc(Fields(o.more), last, extra);
    Assoc(Field(w.first, o.first), Fields(o.more) + last, extra);
    Assoc(Fields(o.stray), Field(w.first, o.first) + (Fields(o.more) + last), extra);
    assert (body + extra)[9..] == body[9..] + extra;
    OpeningAccepted(o', w);
  }
}
