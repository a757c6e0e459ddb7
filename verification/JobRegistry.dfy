/** The registry object of src/job.rs, updated in place and proved against `Jobs`. */
module JobRegistries {
  import opened Common
  import opened Jobs

  /** The `Arc<AtomicBool>` a job record shares with its clones. */
  class CancelFlag {
    var raised: bool

    constructor ()
      ensures !raised
    {
      raised := false;
    }
  }

  /** A record; copying it shares the flag. */
  datatype JobRecord = JobRecord(
    id: nat, printerName: string, owner: string, state: JobState, reasons: Reasons, message: string,
    createdAt: int, completedAt: Option<int>, cancelFlag: CancelFlag)
  {
    function View(): Job
      reads cancelFlag
    {
      Job(id, printerName, owner, state, reasons, message, createdAt, completedAt, cancelFlag.raised)
    }
  }

  ghost function Flags(records: seq<JobRecord>): set<CancelFlag> {
    set r | r in records :: r.cancelFlag
  }

  ghost function Views(records: seq<JobRecord>): (v: seq<Job>)
    reads Flags(records)
    ensures |v| == |records| && forall i :: 0 <= i < |v| ==> v[i] == records[i].View()
  {
    seq(|records|, i requires 0 <= i < |records| reads Flags(records) =>
      assert records[i] in records; records[i].View())
  }

  class JobRegistry {
    var nextId: nat
    var jobs: seq<JobRecord>

    /** No two records share a flag. */
    ghost predicate Valid()
      reads this
    {
      forall i, j :: 0 <= i < j < |jobs| ==> jobs[i].cancelFlag != jobs[j].cancelFlag
    }

    ghost function Contents(): Registry
      reads this, Flags(jobs)
    {
      Registry(nextId, Views(jobs))
    }

    constructor ()
      ensures Valid() && Contents() == EMPTY && jobs == []
    {
      nextId := 1;
      jobs := [];
    }

    /** The returned copy shares its flag with the new record, and with no older one. */
    method Create(printerName: string, owner: string, now: int) returns (rec: JobRecord)
      requires Valid()
      modifies this
      ensures Valid() && Contents() == Step(old(Contents()), Op.Create(printerName, owner), now)
      ensures jobs == old(jobs) + [rec] && fresh(rec.cancelFlag) && !rec.cancelFlag.raised
      ensures rec == JobRecord(old(nextId), printerName, owner, Pending, {}, "", now, None, rec.cancelFlag)
    {
      var id := nextId;
      nextId := NextId(nextId);
      var flag := new CancelFlag();
      rec := JobRecord(id, printerName, owner, Pending, {}, "", now, None, flag);
      jobs := jobs + [rec];
      assert Views(jobs) == old(Views(jobs)) + [rec.View()];
    }

    /** Linear search for the first record with `id`. */
    method Find(id: nat) returns (i: nat)
      ensures i == IndexOf(Views(jobs), id)
    {
      i := 0;
      ghost var all := Views(jobs);
      while i < |jobs| && jobs[i].id != id
        invariant i <= |jobs|
        invariant forall k :: 0 <= k < i ==> jobs[k].id != id
      {
        i := i + 1;
      }
      FirstIsIndexOf(all, id, i);
    }

    method Get(id: nat) returns (r: Option<JobRecord>)
      ensures var i := IndexOf(Views(jobs), id);
              r == if i < |jobs| then Some(jobs[i]) else None
    {
      var i := Find(id);
      r := if i < |jobs| then Some(jobs[i]) else None;
    }

    method JobsForPrinter(printerName: string) returns (r: seq<JobRecord>)
      ensures Views(r) == Listing(Views(jobs), printerName)
      ensures forall j :: j in r ==> j in jobs
    {
      r := [];
      ghost var all, listed: seq<Job> := Views(jobs), [];
      assert all[0..] == all;
      for i := 0 to |jobs|
        invariant |r| == |listed| && forall k :: 0 <= k < |r| ==> r[k] in jobs && r[k].View() == listed[k]
        invariant listed + Listing(all[i..], printerName) == Listing(all, printerName)
      {
        ListingFirst(all, i, printerName, listed);
        if jobs[i].printerName == printerName {
          r, listed := r + [jobs[i]], listed + [all[i]];
        }
      }
      assert Views(r) == listed && all == Views(jobs);
      assert listed + Listing(all[|jobs|..], printerName) == listed;
    }

    method SetState(id: nat, state: JobState, now: int)
      requires Valid()
      modifies this
      ensures Valid() && Contents() == Step(old(Contents()), Update(id, JobWrite.SetState(state)), now)
      ensures Flags(jobs) == old(Flags(jobs))
    {
      var i := Find(id);
      if i < |jobs| {
        var j := jobs[i].(state := state);
        if state.Terminal() && j.completedAt.None? {
          j := j.(completedAt := Some(now));
        }
        Replace(i, j);
      }
    }

    method SetFailure(id: nat, reasons: Reasons, message: string, now: int)
      requires Valid()
      modifies this
      ensures Valid() && Contents() == Step(old(Contents()), Update(id, JobWrite.SetFailure(reasons, message)), now)
      ensures Flags(jobs) == old(Flags(jobs))
    {
      var i := Find(id);
      if i < |jobs| {
        Replace(i, jobs[i].(state := Aborted, reasons := reasons, message := message, completedAt := Some(now)));
      }
    }

    /** Overwrites record `i`, which keeps its flag. */
    method Replace(i: nat, j: JobRecord)
      requires Valid() && i < |jobs| && j.cancelFlag == jobs[i].cancelFlag
      modifies this
      ensures Valid() && nextId == old(nextId)
      ensures Flags(jobs) == old(Flags(jobs)) && jobs == old(jobs)[i := j]
      ensures Views(jobs) == old(Views(jobs))[i := j.View()]
    {
      ghost var before := jobs;
      jobs := jobs[i := j];
      forall f | f in Flags(before) ensures f in Flags(jobs) {
        var k :| 0 <= k < |before| && before[k].cancelFlag == f;
        assert jobs[k].cancelFlag == f;
      }
      forall f | f in Flags(jobs) ensures f in Flags(before) {
        var k :| 0 <= k < |jobs| && jobs[k].cancelFlag == f;
        assert before[k].cancelFlag == f;
      }
    }

    /** The answer is the new state of the job. A finished job, or none, leaves everything as it is; another
        is canceled, and its flag, no other, is raised for every copy of it. */
    method Cancel(id: nat, now: int) returns (r: Option<JobState>)
      requires Valid()
      modifies this, Flags(jobs)
      ensures Valid() && Contents() == Step(old(Contents()), Update(id, JobWrite.Cancel), now)
      ensures Flags(jobs) == old(Flags(jobs))
      ensures var i := IndexOf(Views(jobs), id);
              r == if i < |jobs| then Some(jobs[i].state) else None
      ensures var i := old(IndexOf(Views(jobs), id));
              if i == |old(jobs)| || old(jobs)[i].state in {Canceled, Aborted, Completed}
              then jobs == old(jobs) && Contents() == old(Contents())
              else jobs == old(jobs)[i := old(jobs)[i].(state := Canceled, completedAt := Some(now))]
                   && forall f :: f in Flags(jobs) ==> f.raised == (old(f.raised) || f == jobs[i].cancelFlag)
    {
      ghost var before := Views(jobs);
      var i := Find(id);
      if i == |jobs| { return None; }
      var j := jobs[i];
      if j.state.Terminal() { return Some(j.state); }
      CancelAt(i, now);
      SameIds(before, Views(jobs), id);
      r := Some(Canceled);
    }

    /** The two writes to an unfinished job. */
    method CancelAt(i: nat, now: int)
      requires Valid() && i < |jobs| && !jobs[i].state.Terminal()
      modifies this, jobs[i].cancelFlag
      ensures Valid() && nextId == old(nextId) && Flags(jobs) == old(Flags(jobs))
      ensures jobs == old(jobs)[i := old(jobs)[i].(state := Canceled, completedAt := Some(now))]
      ensures jobs[i].cancelFlag.raised
      ensures Views(jobs) == old(Views(jobs))[i := Apply(old(Views(jobs))[i], JobWrite.Cancel, now)]
    {
      ghost var before := Views(jobs);
      var j := jobs[i];
      assert j in jobs;
      j.cancelFlag.raised := true;
      assert Views(jobs) == before[i := before[i].(canceled := true)];
      Replace(i, j.(state := Canceled, completedAt := Some(now)));
    }

    /** Cancel-My-Jobs: a listing, then one `Cancel` per listed job (all at reading `now`). */
    method CancelMyJobs(printerName: string, now: int)
      requires Valid()
      modifies this, Flags(jobs)
      ensures Valid()
      ensures Contents() == Registry(old(nextId), CancelEach(old(Views(jobs)), Listing(old(Views(jobs)), printerName), now))
    {
      ghost var before := Views(jobs);
      var listed := JobsForPrinter(printerName);
      ghost var ids := Views(listed);
      for k := 0 to |listed|
        invariant Valid() && nextId == old(nextId) && Flags(jobs) == old(Flags(jobs))
        invariant forall i :: 0 <= i < |listed| ==> ids[i].id == listed[i].id
        invariant CancelEach(Views(jobs), ids[k..], now) == CancelEach(before, ids, now)
      {
        CancelFirst(Views(jobs), ids, k, now);
        var _ := Cancel(listed[k].id, now);
      }
    }
  }

  function CancelEach(jobs: seq<Job>, listed: seq<Job>, now: int): seq<Job>
    decreases |listed|
  {
    if listed == [] then jobs
    else CancelEach(Write(jobs, listed[0].id, Cancel, now), listed[1..], now)
  }

  lemma CancelFirst(jobs: seq<Job>, listed: seq<Job>, k: nat, now: int)
    requires k < |listed|
    ensures CancelEach(jobs, listed[k..], now) == CancelEach(Write(jobs, listed[k].id, Cancel, now), listed[k + 1..], now)
  {
    assert listed[k..][1..] == listed[k + 1..];
  }

  lemma FirstIsIndexOf(jobs: seq<Job>, id: nat, i: nat)
    requires i <= |jobs| && (forall k :: 0 <= k < i ==> jobs[k].id != id) && (i < |jobs| ==> jobs[i].id == id)
    ensures i == IndexOf(jobs, id)
  {
  }

  lemma SameIds(jobs: seq<Job>, jobs': seq<Job>, id: nat)
    requires |jobs| == |jobs'| && forall i :: 0 <= i < |jobs| ==> jobs[i].id == jobs'[i].id
    ensures IndexOf(jobs, id) == IndexOf(jobs', id)
  {
    FirstIsIndexOf(jobs', id, IndexOf(jobs, id));
  }

  lemma ListingFirst(jobs: seq<Job>, i: nat, printer: string, front: seq<Job>)
    requires i < |jobs|
    ensures front + Listing(jobs[i..], printer)
         == (if jobs[i].printer == printer then front + [jobs[i]] else front) + Listing(jobs[i + 1..], printer)
  {
    assert jobs[i..][1..] == jobs[i + 1..];
  }

  // ---- what Cancel-My-Jobs achieves --------------------------------------------------

  ghost predicate Listed(listed: seq<Job>, id: nat) {
    exists k :: 0 <= k < |listed| && listed[k].id == id
  }

  lemma CancelTwice(j: Job, now: int)
    ensures Apply(Apply(j, Cancel, now), Cancel, now) == Apply(j, Cancel, now)
  {
  }

  lemma ListedFirst(listed: seq<Job>, id: nat)
    requires listed != []
    ensures Listed(listed, id) <==> listed[0].id == id || Listed(listed[1..], id)
  {
    forall k | 0 <= k < |listed| - 1 ensures listed[1..][k] == listed[k + 1] {}
    if Listed(listed[1..], id) {
      var k :| 0 <= k < |listed[1..]| && listed[1..][k].id == id;
      assert listed[k + 1].id == id;
    }
  }

  /** A cancel by id reaches the first job of that id and no other. */
  lemma WriteReaches(jobs: seq<Job>, id: nat, now: int, i: nat)
    requires Numbered(jobs) && i < |jobs|
    ensures var jobs' := Write(jobs, id, Cancel, now);
            && |jobs'| == |jobs| && Numbered(jobs')
            && jobs'[i] == if jobs[i].id == id && i < ID_SPAN then Apply(jobs[i], Cancel, now) else jobs[i]
  {
    LookupExact(jobs, i);
  }

  /** Cancelling a list in turn cancels exactly the jobs whose ids are listed, of jobs with one id the
      first. */
  lemma {:induction false} CancelEachExact(jobs: seq<Job>, listed: seq<Job>, now: int, i: nat)
    requires Numbered(jobs) && i < |jobs|
    ensures |CancelEach(jobs, listed, now)| == |jobs|
    ensures CancelEach(jobs, listed, now)[i]
         == if i < ID_SPAN && Listed(listed, jobs[i].id) then Apply(jobs[i], Cancel, now) else jobs[i]
    decreases |listed|
  {
    if listed != [] {
      WriteReaches(jobs, listed[0].id, now, i);
      CancelEachExact(Write(jobs, listed[0].id, Cancel, now), listed[1..], now, i);
      ListedFirst(listed, jobs[i].id);
      CancelTwice(jobs[i], now);
    }
  }

  lemma {:induction false} ListingMembers(jobs: seq<Job>, printer: string, j: Job)
    ensures j in Listing(jobs, printer) <==> j in jobs && j.printer == printer
  {
    if jobs != [] {
      ListingMembers(jobs[1..], printer, j);
      assert jobs == [jobs[0]] + jobs[1..];
    }
  }

  /** A job of `printer` whose cancel goes to job `i`. */
  ghost predicate Reached(jobs: seq<Job>, printer: string, i: nat) {
    exists k :: 0 <= k < |jobs| && jobs[k].printer == printer && Target(k) == i
  }

  lemma SameId(jobs: seq<Job>, i: nat, k: nat)
    requires Numbered(jobs) && i < |jobs| && k < |jobs|
    ensures jobs[k].id == jobs[i].id <==> Target(k) == Target(i)
  {
  }

  lemma ListedIsReached(jobs: seq<Job>, printer: string, i: nat)
    requires Numbered(jobs) && i < |jobs| && i < ID_SPAN
    ensures Listed(Listing(jobs, printer), jobs[i].id) <==> Reached(jobs, printer, i)
  {
    var listed := Listing(jobs, printer);
    TargetBounds(i);
    if Listed(listed, jobs[i].id) {
      var k :| 0 <= k < |listed| && listed[k].id == jobs[i].id;
      ListingMembers(jobs, printer, listed[k]);
      var m :| 0 <= m < |jobs| && jobs[m] == listed[k];
      SameId(jobs, i, m);
    }
    if Reached(jobs, printer, i) {
      var m :| 0 <= m < |jobs| && jobs[m].printer == printer && Target(m) == i;
      ListingMembers(jobs, printer, jobs[m]);
      var k :| 0 <= k < |listed| && listed[k] == jobs[m];
      SameId(jobs, i, m);
    }
  }

  /** Cancel-My-Jobs for a printer cancels exactly the jobs that the ids of its jobs lead to. Until ids
      start again those are its own: each is finished afterwards, and no other job has changed. */
  lemma CancelMyJobsScope(jobs: seq<Job>, printer: string, now: int, i: nat)
    requires Numbered(jobs) && i < |jobs|
    ensures var after := CancelEach(jobs, Listing(jobs, printer), now);
            && |after| == |jobs|
            && after[i] == (if Reached(jobs, printer, i) then Apply(jobs[i], Cancel, now) else jobs[i])
            && (jobs[i].printer == printer ==> after[Target(i)].state.Terminal())
            && (|jobs| <= ID_SPAN ==> (Reached(jobs, printer, i) <==> jobs[i].printer == printer))
  {
    var listed, t := Listing(jobs, printer), Target(i);
    TargetBounds(i);
    CancelEachExact(jobs, listed, now, i);
    CancelEachExact(jobs, listed, now, t);
    ListedIsReached(jobs, printer, t);
    if i < ID_SPAN {
      ListedIsReached(jobs, printer, i);
    }
    if |jobs| <= ID_SPAN {
      forall k | 0 <= k < |jobs| ensures Target(k) == k { TargetBounds(k); }
    }
  }
}
