/** Job references: the `job-uri` and `job-id` written in a response (src/attributes.rs), and how a
    request that carries one is read (src/server.rs). */
module JobUris {
  import opened Common
  import Jobs

  const U32_SPAN: nat := 0x1_0000_0000

  // ---- decimal text --------------------------------------------------------------------------

  predicate Digit(c: char) {
    '0' <= c <= '9'
  }

  predicate Digits(s: string) {
    s != "" && forall c :: c in s ==> Digit(c)
  }

  function DigitValue(c: char): nat
    requires Digit(c)
  {
    c as int - '0' as int
  }

  /** The number that `s` writes. */
  function Value(s: string): nat
    requires forall c :: c in s ==> Digit(c)
  {
    if s == "" then 0 else 10 * Value(s[..|s| - 1]) + DigitValue(s[|s| - 1])
  }

  /** `{}` of an unsigned number. */
  function ToDecimal(n: nat): (s: string)
    ensures Digits(s) && Value(s) == n
    ensures |s| > 1 ==> s[0] != '0'
  {
    var last := ('0' as int + n % 10) as char;
    if n < 10 then [last] else ToDecimal(n / 10) + [last]
  }

  /** The digits of `str::parse::<u32>`, left to right; none once a step leaves 32 bits. */
  function Accumulate(s: string, n: nat): Option<nat> {
    if s == "" then Some(n)
    else if !Digit(s[0]) || 10 * n >= U32_SPAN || 10 * n + DigitValue(s[0]) >= U32_SPAN then None
    else Accumulate(s[1..], 10 * n + DigitValue(s[0]))
  }

  function Unsigned(s: string): string {
    if s != "" && s[0] == '+' then s[1..] else s
  }

  function ParseU32(s: string): Option<nat> {
    if Unsigned(s) == "" then None else Accumulate(Unsigned(s), 0)
  }

  function Power(n: nat): (p: nat)
    ensures p >= 1
  {
    if n == 0 then 1 else 10 * Power(n - 1)
  }

  lemma {:induction false} ValueCons(s: string)
    requires Digits(s)
    ensures Value(s) == DigitValue(s[0]) * Power(|s| - 1) + Value(s[1..])
  {
    if |s| > 1 {
      var front := s[..|s| - 1];
      ValueCons(front);
      assert s[1..][..|s[1..]| - 1] == front[1..];
      assert s[1..][|s[1..]| - 1] == s[|s| - 1];
    }
  }

  /** Overflow at any step is overflow of the whole number. */
  lemma {:induction false} AccumulateExact(s: string, n: nat)
    requires n < U32_SPAN
    ensures Accumulate(s, n).Some? <==> (forall c :: c in s ==> Digit(c)) && n * Power(|s|) + Value(s) < U32_SPAN
    ensures Accumulate(s, n).Some? ==> Accumulate(s, n).value == n * Power(|s|) + Value(s)
  {
    if s != "" && Digit(s[0]) {
      var d, p := DigitValue(s[0]), Power(|s| - 1);
      assert forall c :: c in s <==> c == s[0] || c in s[1..];
      assert n * Power(|s|) + d * p == (10 * n + d) * p;
      if 10 * n + d < U32_SPAN {
        AccumulateExact(s[1..], 10 * n + d);
      } else {
        assert (10 * n + d) * p >= U32_SPAN;
      }
      if Digits(s) {
        ValueCons(s);
      }
    }
  }

  /** A text is read as `n` exactly if, after at most one plus sign, it is digits that write `n` and
      `n` fits 32 bits. */
  lemma ParseExact(s: string, n: nat)
    ensures ParseU32(s) == Some(n) <==> Digits(Unsigned(s)) && Value(Unsigned(s)) == n && n < U32_SPAN
  {
    AccumulateExact(Unsigned(s), 0);
  }

  lemma ParseToDecimal(n: nat)
    ensures ParseU32(ToDecimal(n)) == if n < U32_SPAN then Some(n) else None
  {
    var s := ToDecimal(n);
    assert s[0] in s;
    assert Unsigned(s) == s;
    ParseExact(s, n);
    if k :| ParseU32(s) == Some(k) {
      ParseExact(s, k);
    }
  }

  // ---- references -----------------------------------------------------------------------------

  /** The integer cast of `job-id`, which the protocol carries as a signed 32-bit number, and back. */
  function AsI32(n: nat): int
    requires n < U32_SPAN
  {
    if n < 0x8000_0000 then n else n - U32_SPAN
  }

  function AsU32(n: int): nat {
    n % U32_SPAN
  }

  function JobUri(printerUri: string, id: nat): string {
    printerUri + "/job/" + ToDecimal(id)
  }

  /** `rsplit('/').next()` */
  function LastSegment(s: string): string {
    if s == "" || s[|s| - 1] == '/' then "" else LastSegment(s[..|s| - 1]) + [s[|s| - 1]]
  }

  datatype IppValue = Integer(n: int) | Uri(uri: string) | OtherValue

  datatype Attribute = Attribute(name: string, value: IppValue)

  /** The two references, as every response about a job writes them. */
  function References(printerUri: string, id: nat): seq<Attribute>
    requires id < U32_SPAN
  {
    [Attribute("job-uri", Uri(JobUri(printerUri, id))), Attribute("job-id", Integer(AsI32(id)))]
  }

  /** The attributes `extract_job_id` looks at. */
  predicate Refers(a: Attribute) {
    (a.name == "job-id" && a.value.Integer?) || (a.name == "job-uri" && a.value.Uri?)
  }

  /** `extract_job_id`, on the attributes in the order it walks them. */
  function ExtractJobId(attributes: seq<Attribute>): Option<nat> {
    if attributes == [] then None
    else
      var a := attributes[0];
      if a.name == "job-id" && a.value.Integer? then Some(AsU32(a.value.n))
      else if a.name == "job-uri" && a.value.Uri? then ParseU32(LastSegment(a.value.uri))
      else ExtractJobId(attributes[1..])
  }

  lemma {:induction false} LastSegmentOf(s: string, segment: string)
    requires '/' !in segment
    ensures LastSegment(s + "/" + segment) == segment
  {
    var t := s + "/" + segment;
    if segment != "" {
      var front := segment[..|segment| - 1];
      LastSegmentOf(s, front);
      assert t[..|t| - 1] == s + "/" + front;
    }
  }

  lemma JobUriRoundTrip(printerUri: string, id: nat)
    requires id < U32_SPAN
    ensures ParseU32(LastSegment(JobUri(printerUri, id))) == Some(id)
  {
    LastSegmentOf(printerUri + "/job", ToDecimal(id));
    assert printerUri + "/job" + "/" + ToDecimal(id) == JobUri(printerUri, id);
    ParseToDecimal(id);
  }

  lemma JobIdRoundTrip(id: nat)
    requires id < U32_SPAN
    ensures -0x8000_0000 <= AsI32(id) < 0x8000_0000 && AsU32(AsI32(id)) == id
  {
    if id >= 0x8000_0000 {
      assert (id - U32_SPAN) % U32_SPAN == id;
    }
  }

  lemma {:induction false} SkipsOthers(attributes: seq<Attribute>, k: nat)
    requires k <= |attributes| && forall i :: 0 <= i < k ==> !Refers(attributes[i])
    ensures ExtractJobId(attributes) == ExtractJobId(attributes[k..])
  {
    if k > 0 {
      SkipsOthers(attributes[1..], k - 1);
      assert attributes[1..][k - 1..] == attributes[k..];
    }
  }

  /** The first `job-id` integer or `job-uri` URI decides, whatever follows: the integer read as unsigned,
      or the number its last segment writes, even where that is none. Without either there is no answer. */
  lemma FirstReferenceDecides(attributes: seq<Attribute>, k: nat)
    requires k <= |attributes|
    requires forall i :: 0 <= i < k ==>
               && !(attributes[i].name == "job-id" && attributes[i].value.Integer?)
               && !(attributes[i].name == "job-uri" && attributes[i].value.Uri?)
    ensures k == |attributes| ==> ExtractJobId(attributes) == None
    ensures k < |attributes| && attributes[k].name == "job-id" && attributes[k].value.Integer? ==>
              ExtractJobId(attributes) == Some(AsU32(attributes[k].value.n))
    ensures k < |attributes| && attributes[k].name == "job-uri" && attributes[k].value.Uri? ==>
              ExtractJobId(attributes) == ParseU32(LastSegment(attributes[k].value.uri))
  {
    SkipsOthers(attributes, k);
  }

  /** The unsigned reading of a signed 32-bit number. */
  lemma AsU32Exact(n: int)
    requires -0x8000_0000 <= n < 0x8000_0000
    ensures AsU32(n) == if n >= 0 then n else n + 0x1_0000_0000
  {
    if n < 0 { assert (n + U32_SPAN) % U32_SPAN == n + U32_SPAN; }
  }

  /** The last segment is what follows the last slash, or all of a text without one. */
  lemma LastSegmentExact(s: string, segment: string)
    ensures LastSegment(s) == segment <==>
            && '/' !in segment
            && (s == segment || (|s| > |segment| && s == s[..|s| - |segment| - 1] + "/" + segment))
  {
    LastSegmentShape(s);
    if '/' !in segment {
      if s == segment { NoSlash(s); }
      if |s| > |segment| && s == s[..|s| - |segment| - 1] + "/" + segment {
        LastSegmentOf(s[..|s| - |segment| - 1], segment);
      }
    }
  }

  lemma {:induction false} NoSlash(s: string)
    requires '/' !in s
    ensures LastSegment(s) == s
  {
    if s != "" { NoSlash(s[..|s| - 1]); }
  }

  lemma {:induction false} LastSegmentShape(s: string)
    ensures var l := LastSegment(s);
            && '/' !in l && |l| <= |s|
            && (s == l || (|s| > |l| && s == s[..|s| - |l| - 1] + "/" + l))
  {
    if s != "" && s[|s| - 1] != '/' {
      LastSegmentShape(s[..|s| - 1]);
    }
  }

  /** A job's URI is the printer's, the word job, and the id. */
  lemma JobUriShape(printerUri: string, id: nat)
    ensures JobUri(printerUri, id) == printerUri + ("/job/" + ToDecimal(id))
    ensures id < U32_SPAN ==> References(printerUri, id)[0] == Attribute("job-uri", Uri(printerUri + "/job/" + ToDecimal(id)))
                              && References(printerUri, id)[1].name == "job-id"
  {
  }

  /** A request that repeats what a response wrote, either reference or both, among any other
      attributes and in any order, means the same job. */
  lemma {:induction false} ReferencesReadBack(attributes: seq<Attribute>, printerUri: string, id: nat)
    requires id < U32_SPAN
    requires forall a :: a in attributes && Refers(a) ==> a in References(printerUri, id)
    ensures ExtractJobId(attributes) == if exists a :: a in attributes && Refers(a) then Some(id) else None
  {
    if attributes != [] {
      var a := attributes[0];
      if Refers(a) {
        JobUriRoundTrip(printerUri, id);
        JobIdRoundTrip(id);
      } else {
        ReferencesReadBack(attributes[1..], printerUri, id);
        assert forall b :: b in attributes <==> b == a || b in attributes[1..];
      }
    }
  }

  /** Over any run of the registry, the references of the i-th job lead back to it, exactly as long
      as the ids have not started again before it. */
  lemma ReferencesFindTheJob(ops: seq<Jobs.Op>, clock: nat -> int, i: nat, attributes: seq<Attribute>, printerUri: string)
    requires i < |Jobs.After(ops, clock).jobs|
    requires forall a :: a in attributes && Refers(a) ==> a in References(printerUri, Jobs.IdOf(i))
    requires exists a :: a in attributes && Refers(a)
    ensures ExtractJobId(attributes).Some?
    ensures Jobs.IndexOf(Jobs.After(ops, clock).jobs, ExtractJobId(attributes).value) == i <==> i < Jobs.ID_SPAN
  {
    Jobs.JobsAreCreations(ops, clock);
    ReferencesReadBack(attributes, printerUri, Jobs.IdOf(i));
    Jobs.LookupExact(Jobs.After(ops, clock).jobs, i);
  }
}
