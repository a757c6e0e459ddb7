/** The job registry (src/job.rs): what its writes do to the list of jobs. */
module Jobs {
  import opened Common

  datatype JobState = Pending | Held | Processing | ProcessingStopped | Canceled | Aborted | Completed {
    predicate Terminal() {
      Canceled? || Aborted? || Completed?
    }

    /** Started and not finished: the states a job must not be left in. */
    predicate Active() {
      Processing? || ProcessingStopped?
    }
  }

  /** A job as the registry's readers see it; `canceled` is the value of its cancel flag. */
  datatype Job = Job(
    id: nat, printer: string, owner: string, state: JobState, reasons: Reasons, message: string,
    createdAt: int, completedAt: Option<int>, canceled: bool)

  /** What a lock section of the registry does to one job. */
  datatype JobWrite = SetState(state: JobState) | SetFailure(reasons: Reasons, message: string) | Cancel

  /** `now` is the clock reading of the lock section. */
  function Apply(j: Job, write: JobWrite, now: int): Job {
    match write
    case SetState(state) =>
      j.(state := state,
         completedAt := if state.Terminal() && j.completedAt.None? then Some(now) else j.completedAt)
    case SetFailure(reasons, message) =>
      j.(state := Aborted, reasons := reasons, message := message, completedAt := Some(now))
    case Cancel =>
      if j.state.Terminal() then j
      else j.(canceled := true, state := Canceled, completedAt := Some(now))
  }

  /** The three writes, field by field. */
  lemma AppliesExactly(j: Job, state: JobState, reasons: Reasons, message: string, now: int)
    ensures Apply(j, SetState(state), now)
         == Job(j.id, j.printer, j.owner, state, j.reasons, j.message, j.createdAt,
                if state in {Canceled, Aborted, Completed} && j.completedAt == None then Some(now) else j.completedAt, j.canceled)
    ensures Apply(j, SetFailure(reasons, message), now)
         == Job(j.id, j.printer, j.owner, Aborted, reasons, message, j.createdAt, Some(now), j.canceled)
    ensures Apply(j, Cancel, now)
         == if j.state in {Canceled, Aborted, Completed} then j
            else Job(j.id, j.printer, j.owner, Canceled, j.reasons, j.message, j.createdAt, Some(now), true)
  {
  }

  /** Index of the first job with `id`, or the number of jobs. */
  function IndexOf(jobs: seq<Job>, id: nat): (i: nat)
    ensures i <= |jobs|
    ensures i < |jobs| ==> jobs[i].id == id
    ensures forall k :: 0 <= k < i ==> jobs[k].id != id
  {
    if jobs == [] || jobs[0].id == id then 0 else 1 + IndexOf(jobs[1..], id)
  }

  /** One lock section: find the first job with `id` and write it; nothing if there is none. */
  function Write(jobs: seq<Job>, id: nat, write: JobWrite, now: int): seq<Job> {
    var i := IndexOf(jobs, id);
    if i < |jobs| then jobs[i := Apply(jobs[i], write, now)] else jobs
  }

  function Listing(jobs: seq<Job>, printer: string): seq<Job> {
    if jobs == [] then []
    else (if jobs[0].printer == printer then [jobs[0]] else []) + Listing(jobs[1..], printer)
  }

  function NewJob(id: nat, printer: string, owner: string, now: int): Job {
    Job(id, printer, owner, Pending, {}, "", now, None, false)
  }

  /** A cancel of a finished job, or of none, leaves every job as it is. */
  lemma CancelOfFinished(jobs: seq<Job>, id: nat, now: int)
    requires IndexOf(jobs, id) < |jobs| ==> jobs[IndexOf(jobs, id)].state in {Canceled, Aborted, Completed}
    ensures Write(jobs, id, Cancel, now) == jobs
  {
  }

  // ---- ids -----------------------------------------------------------------------

  /** Ids run from 1 to `u32::MAX`, then start again. */
  const ID_SPAN: nat := 0xFFFF_FFFF

  /** `next_id.wrapping_add(1).max(1)` */
  function NextId(id: nat): nat {
    var wrapped := (id + 1) % 0x1_0000_0000;
    if wrapped < 1 then 1 else wrapped
  }

  /** Id of the job created after `n` others. */
  function IdOf(n: nat): (id: nat)
    ensures 1 <= id < 0x1_0000_0000
  {
    n % ID_SPAN + 1
  }

  lemma IdOfStep(n: nat)
    ensures NextId(IdOf(n)) == IdOf(n + 1)
  {
    var q, r := n / ID_SPAN, n % ID_SPAN;
    assert n == ID_SPAN * q + r;
    if r + 1 < ID_SPAN {
      assert (n + 1) % ID_SPAN == r + 1;
    } else {
      assert n + 1 == ID_SPAN * (q + 1);
      assert (n + 1) % ID_SPAN == 0;
    }
  }

  /** The ids are the ones `create` hands out, in order. */
  ghost predicate Numbered(jobs: seq<Job>) {
    forall i :: 0 <= i < |jobs| ==> jobs[i].id == IdOf(i)
  }

  /** The job that writes through the id of job `i` go to. */
  function Target(i: nat): nat {
    i % ID_SPAN
  }

  lemma TargetBounds(i: nat)
    ensures Target(i) <= i && Target(i) < ID_SPAN
    ensures i < ID_SPAN <==> Target(i) == i
  {
  }

  lemma IndexOfNumbered(jobs: seq<Job>, i: nat)
    requires Numbered(jobs) && i < |jobs|
    ensures IndexOf(jobs, jobs[i].id) == Target(i)
  {
    var t, k := Target(i), IndexOf(jobs, jobs[i].id);
    TargetBounds(i);
    TargetBounds(t);
    assert jobs[t].id == Target(t) + 1 == jobs[i].id;
    TargetBounds(k);
    assert jobs[k].id == Target(k) + 1;
  }

  /** A job is found by its own id exactly as long as no id has been given out twice. */
  lemma LookupExact(jobs: seq<Job>, i: nat)
    requires Numbered(jobs) && i < |jobs|
    ensures IndexOf(jobs, jobs[i].id) == i <==> i < ID_SPAN
  {
    IndexOfNumbered(jobs, i);
    TargetBounds(i);
  }

  // ---- histories ----------------------------------------------------------------------

  datatype Op = Create(printer: string, owner: string) | Update(id: nat, write: JobWrite)

  datatype Registry = Registry(nextId: nat, jobs: seq<Job>)

  const EMPTY := Registry(1, [])

  function Step(r: Registry, op: Op, now: int): Registry {
    match op
    case Create(printer, owner) =>
      Registry(NextId(r.nextId), r.jobs + [NewJob(r.nextId, printer, owner, now)])
    case Update(id, write) => r.(jobs := Write(r.jobs, id, write, now))
  }

  /** The registry after `ops`, the k-th of them at clock reading `clock(k)`. */
  function After(ops: seq<Op>, clock: nat -> int): Registry {
    if ops == [] then EMPTY
    else Step(After(ops[..|ops| - 1], clock), ops[|ops| - 1], clock(|ops| - 1))
  }

  /** The creations among `ops`, in order. */
  function Creations(ops: seq<Op>): seq<Op> {
    if ops == [] then []
    else
      var last := ops[|ops| - 1];
      Creations(ops[..|ops| - 1]) + if last.Create? then [last] else []
  }

  ghost predicate CreatedBy(j: Job, op: Op) {
    op.Create? && j.printer == op.printer && j.owner == op.owner
  }

  /** The n-th job is the n-th creation and carries the n-th id. */
  ghost predicate CreatedInOrder(r: Registry, created: seq<Op>) {
    && r.nextId == IdOf(|r.jobs|) && Numbered(r.jobs) && |r.jobs| == |created|
    && forall i :: 0 <= i < |r.jobs| ==> CreatedBy(r.jobs[i], created[i])
  }

  lemma UpdateKeepsOrder(r: Registry, created: seq<Op>, id: nat, write: JobWrite, now: int)
    requires CreatedInOrder(r, created)
    ensures CreatedInOrder(Step(r, Update(id, write), now), created)
  {
  }

  lemma CreateKeepsOrder(r: Registry, created: seq<Op>, op: Op, now: int)
    requires CreatedInOrder(r, created) && op.Create?
    ensures CreatedInOrder(Step(r, op, now), created + [op])
  {
    IdOfStep(|r.jobs|);
  }

  /** Whatever the writes in between, creations and jobs stay in step. */
  lemma {:induction false} JobsAreCreations(ops: seq<Op>, clock: nat -> int)
    ensures CreatedInOrder(After(ops, clock), Creations(ops))
  {
    if ops != [] {
      var before, last, now := ops[..|ops| - 1], ops[|ops| - 1], clock(|ops| - 1);
      JobsAreCreations(before, clock);
      if last.Create? {
        CreateKeepsOrder(After(before, clock), Creations(before), last, now);
      } else {
        UpdateKeepsOrder(After(before, clock), Creations(before), last.id, last.write, now);
        assert Creations(ops) == Creations(before);
      }
    }
  }

  /** Positions, in creation order, of the creations for `printer`. */
  function PositionsFor(created: seq<Op>, printer: string, from: nat): (p: seq<nat>)
    requires from <= |created| && forall op :: op in created ==> op.Create?
    ensures forall k :: 0 <= k < |p| ==> from <= p[k] < |created| && created[p[k]].printer == printer
    ensures forall k, l :: 0 <= k < l < |p| ==> p[k] < p[l]
    ensures forall i :: from <= i < |created| && created[i].printer == printer ==> i in p
    decreases |created| - from
  {
    if from == |created| then []
    else (if created[from].printer == printer then [from] else []) + PositionsFor(created, printer, from + 1)
  }

  lemma {:induction false} ListingByPosition(jobs: seq<Job>, created: seq<Op>, printer: string, from: nat)
    requires |jobs| == |created| && from <= |jobs|
    requires forall i :: 0 <= i < |jobs| ==> CreatedBy(jobs[i], created[i])
    ensures forall op :: op in created ==> op.Create?
    ensures var p := PositionsFor(created, printer, from); var l := Listing(jobs[from..], printer);
            |l| == |p| && forall k :: 0 <= k < |p| ==> l[k] == jobs[p[k]]
    decreases |jobs| - from
  {
    if from < |jobs| {
      ListingByPosition(jobs, created, printer, from + 1);
      assert jobs[from..][1..] == jobs[from + 1..];
    }
  }

  /** A printer's listing is its creations, each once and in creation order. */
  lemma ListingIsCreations(ops: seq<Op>, clock: nat -> int, printer: string)
    ensures forall op :: op in Creations(ops) ==> op.Create?
    ensures var p := PositionsFor(Creations(ops), printer, 0);
            var jobs := After(ops, clock).jobs; var l := Listing(jobs, printer);
            && |l| == |p|
            && forall k :: 0 <= k < |p| ==> p[k] < |jobs| && l[k] == jobs[p[k]] && l[k].id == IdOf(p[k])
  {
    var jobs := After(ops, clock).jobs;
    JobsAreCreations(ops, clock);
    ListingByPosition(jobs, Creations(ops), printer, 0);
    assert jobs[0..] == jobs;
  }

  // ---- flags and times over histories ----------------------------------------------------------------

  function At(ops: seq<Op>, clock: nat -> int, k: nat): Registry
    requires k <= |ops|
  {
    After(ops[..k], clock)
  }

  /** The operation is a write that reaches job `t`. */
  predicate Reaches(r: Registry, op: Op, t: nat) {
    op.Update? && t < |r.jobs| && IndexOf(r.jobs, op.id) == t
  }

  /** It cancels job `t` while it is unfinished. */
  predicate Cancels(r: Registry, op: Op, t: nat) {
    Reaches(r, op, t) && op.write.Cancel? && r.jobs[t].state !in {Canceled, Aborted, Completed}
  }

  /** It sets the completion time of job `t`: a failure, a cancel while it is unfinished, or a first final
      state. */
  predicate Stamps(r: Registry, op: Op, t: nat) {
    && Reaches(r, op, t)
    && match op.write
       case SetState(state) => state in {Canceled, Aborted, Completed} && r.jobs[t].completedAt == None
       case SetFailure(_, _) => true
       case Cancel => r.jobs[t].state !in {Canceled, Aborted, Completed}
  }

  /** It creates job `t`. */
  predicate Creates(r: Registry, op: Op, t: nat) {
    op.Create? && |r.jobs| == t
  }

  lemma StepOnJob(r: Registry, op: Op, now: int, t: nat)
    requires t < |Step(r, op, now).jobs|
    ensures var j := Step(r, op, now).jobs[t];
            if t < |r.jobs| then
              && (j.canceled <==> r.jobs[t].canceled || Cancels(r, op, t))
              && j.completedAt == (if Stamps(r, op, t) then Some(now) else r.jobs[t].completedAt)
              && j.createdAt == r.jobs[t].createdAt
            else Creates(r, op, t) && !j.canceled && j.completedAt == None && j.createdAt == now
  {
  }

  lemma Moment(ops: seq<Op>, clock: nat -> int, k: nat)
    requires k < |ops|
    ensures At(ops, clock, k + 1) == Step(At(ops, clock, k), ops[k], clock(k))
    ensures |At(ops, clock, k).jobs| <= |At(ops, clock, k + 1).jobs|
  {
    assert ops[..k + 1][..k] == ops[..k];
  }

  /** Operation `k` cancels, stamps or creates job `t`. */
  ghost predicate CancelsAt(ops: seq<Op>, clock: nat -> int, k: nat, t: nat) {
    k < |ops| && Cancels(At(ops, clock, k), ops[k], t)
  }

  ghost predicate StampsAt(ops: seq<Op>, clock: nat -> int, k: nat, t: nat) {
    k < |ops| && Stamps(At(ops, clock, k), ops[k], t)
  }

  ghost predicate CreatesAt(ops: seq<Op>, clock: nat -> int, k: nat, t: nat) {
    k < |ops| && Creates(At(ops, clock, k), ops[k], t)
  }

  lemma {:induction false} NotYet(ops: seq<Op>, clock: nat -> int, n: nat, k: nat)
    requires k <= n <= |ops|
    ensures |At(ops, clock, k).jobs| <= |At(ops, clock, n).jobs|
    decreases n
  {
    if k < n {
      Moment(ops, clock, n - 1);
      NotYet(ops, clock, n - 1, k);
    }
  }

  ghost predicate CanceledBefore(ops: seq<Op>, clock: nat -> int, n: nat, t: nat) {
    exists k: nat :: k < n && CancelsAt(ops, clock, k, t)
  }

  lemma CanceledNext(ops: seq<Op>, clock: nat -> int, n: nat, t: nat)
    ensures CanceledBefore(ops, clock, n + 1, t) <==> CanceledBefore(ops, clock, n, t) || CancelsAt(ops, clock, n, t)
  {
  }

  lemma NotYetReached(ops: seq<Op>, clock: nat -> int, n: nat, t: nat)
    requires n <= |ops| && |At(ops, clock, n).jobs| <= t
    ensures forall k: nat :: k <= n ==> !CancelsAt(ops, clock, k, t) && !StampsAt(ops, clock, k, t)
  {
    forall k: nat | k <= n ensures !CancelsAt(ops, clock, k, t) && !StampsAt(ops, clock, k, t) {
      NotYet(ops, clock, n, k);
    }
  }

  lemma {:induction false} FlagAt(ops: seq<Op>, clock: nat -> int, n: nat, t: nat)
    requires n <= |ops| && t < |At(ops, clock, n).jobs|
    ensures At(ops, clock, n).jobs[t].canceled <==> CanceledBefore(ops, clock, n, t)
  {
    assert ops[..0] == [];
    assert n > 0;
    var r := At(ops, clock, n - 1);
    Moment(ops, clock, n - 1);
    StepOnJob(r, ops[n - 1], clock(n - 1), t);
    if t < |r.jobs| {
      FlagAt(ops, clock, n - 1, t);
      CanceledNext(ops, clock, n - 1, t);
    } else {
      NotYetReached(ops, clock, n - 1, t);
    }
  }

  /** A job's flag is raised exactly if some cancel has reached it while it was unfinished. */
  lemma FlagExactly(ops: seq<Op>, clock: nat -> int, t: nat)
    requires t < |After(ops, clock).jobs|
    ensures After(ops, clock).jobs[t].canceled <==> exists k: nat :: CancelsAt(ops, clock, k, t)
  {
    assert ops[..|ops|] == ops;
    FlagAt(ops, clock, |ops|, t);
  }

  /** The last stamp of job `t` before operation `n`. */
  ghost predicate LastStamp(ops: seq<Op>, clock: nat -> int, n: nat, k: nat, t: nat) {
    k < n && StampsAt(ops, clock, k, t) && forall m: nat :: k < m < n ==> !StampsAt(ops, clock, m, t)
  }

  ghost predicate CompletedBy(ops: seq<Op>, clock: nat -> int, n: nat, t: nat, time: Option<int>) {
    match time
    case None => forall k: nat :: k < n ==> !StampsAt(ops, clock, k, t)
    case Some(time) => exists k: nat :: LastStamp(ops, clock, n, k, t) && time == clock(k)
  }

  lemma CompletedNext(ops: seq<Op>, clock: nat -> int, n: nat, t: nat, time: Option<int>)
    requires CompletedBy(ops, clock, n, t, time)
    ensures CompletedBy(ops, clock, n + 1, t, if StampsAt(ops, clock, n, t) then Some(clock(n)) else time)
  {
    if StampsAt(ops, clock, n, t) {
      assert LastStamp(ops, clock, n + 1, n, t);
    } else if time.Some? {
      var k: nat :| LastStamp(ops, clock, n, k, t) && time.value == clock(k);
      assert LastStamp(ops, clock, n + 1, k, t);
    }
  }

  lemma {:induction false} CompletionAt(ops: seq<Op>, clock: nat -> int, n: nat, t: nat)
    requires n <= |ops| && t < |At(ops, clock, n).jobs|
    ensures CompletedBy(ops, clock, n, t, At(ops, clock, n).jobs[t].completedAt)
  {
    assert ops[..0] == [];
    assert n > 0;
    var r := At(ops, clock, n - 1);
    Moment(ops, clock, n - 1);
    StepOnJob(r, ops[n - 1], clock(n - 1), t);
    if t < |r.jobs| {
      CompletionAt(ops, clock, n - 1, t);
      CompletedNext(ops, clock, n - 1, t, r.jobs[t].completedAt);
    } else {
      NotYetReached(ops, clock, n - 1, t);
    }
  }

  /** A job's completion time is the clock reading of its last stamp, none if there was none. */
  lemma CompletionExactly(ops: seq<Op>, clock: nat -> int, t: nat)
    requires t < |After(ops, clock).jobs|
    ensures CompletedBy(ops, clock, |ops|, t, After(ops, clock).jobs[t].completedAt)
  {
    assert ops[..|ops|] == ops;
    CompletionAt(ops, clock, |ops|, t);
  }

  lemma {:induction false} CreatedAt(ops: seq<Op>, clock: nat -> int, n: nat, t: nat) returns (k: nat)
    requires n <= |ops| && t < |At(ops, clock, n).jobs|
    ensures CreatesAt(ops, clock, k, t) && At(ops, clock, n).jobs[t].createdAt == clock(k)
  {
    assert ops[..0] == [];
    assert n > 0;
    k := n - 1;
    Moment(ops, clock, k);
    StepOnJob(At(ops, clock, k), ops[k], clock(k), t);
    if t < |At(ops, clock, k).jobs| {
      k := CreatedAt(ops, clock, k, t);
    }
  }

  /** A job's creation time is the clock reading of its creation. */
  lemma CreationTime(ops: seq<Op>, clock: nat -> int, t: nat)
    requires t < |After(ops, clock).jobs|
    ensures exists k: nat :: CreatesAt(ops, clock, k, t) && After(ops, clock).jobs[t].createdAt == clock(k)
  {
    assert ops[..|ops|] == ops;
    var k := CreatedAt(ops, clock, |ops|, t);
  }
}
