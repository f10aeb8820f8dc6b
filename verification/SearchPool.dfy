/** Parallel search: one goroutine per job, at most four inside the critical section. */
module SearchPool {
  import opened Wrappers

  const MaxParallel := 4

  datatype Found = Found(datasource: string, entity: string, records: seq<string>)
  datatype SourceError = SourceError(datasource: string, entity: string, message: string)

  /** What an accessor is able to do for one entity. */
  datatype Target = Target(
    datasource: string, entity: string, searcher: bool, providerFirst: bool, shortcut: bool, fallbackGuard: bool)

  datatype Job = Job(target: Target, query: string)

  datatype Lookup = Miss | Hit(found: Found) | Broken(message: string)

  /** The calls a job makes, as functions of the job; `fallback` is asked about a provider error. */
  datatype Env = Env(
    hasStore: bool, mode: string,
    store: Job -> Lookup,
    provider: Job -> Result<Found, string>,
    fallback: (Target, string) -> bool)

  datatype Outcome = Failed(message: string) | Answered(found: Found)

  predicate Live(env: Env) {
    env.mode == "provider" || env.mode == "live"
  }

  function OrElse(l: Lookup, other: Outcome): Outcome {
    match l
    case Broken(message) => Failed(message)
    case Hit(found) => Answered(found)
    case Miss => other
  }

  function ProviderOutcome(env: Env, job: Job): Outcome {
    var t := job.target;
    if !t.searcher then Failed("search is not supported")
    else
      match env.provider(job)
      case Err(message) =>
        var fallback := !Live(env) && (t.fallbackGuard ==> env.fallback(t, message));
        if fallback && env.hasStore && t.shortcut then OrElse(env.store(job), Failed(message)) else Failed(message)
      case Ok(found) =>
        if t.providerFirst && found.records == [] && !Live(env) && env.hasStore && t.shortcut
        then OrElse(env.store(job), Answered(found)) else Answered(found)
  }

  /** The body of one goroutine. */
  function Work(env: Env, job: Job): Outcome {
    if env.hasStore && !job.target.providerFirst && job.target.shortcut && !Live(env)
    then OrElse(env.store(job), ProviderOutcome(env, job))
    else ProviderOutcome(env, job)
  }

  /** A slot of the shared results; the zero slot is what an unwritten slot holds. */
  datatype Slot = Slot(error: SourceError, found: Found)

  const NoFound := Found("", "", [])
  const ZeroSlot := Slot(SourceError("", "", ""), NoFound)

  function SlotOf(job: Job, o: Outcome): Slot {
    match o
    case Failed(message) => Slot(SourceError(job.target.datasource, job.target.entity, message), NoFound)
    case Answered(found) => ZeroSlot.(found := found)
  }

  function JobsOf(target: Target, queries: seq<string>): seq<Job> {
    seq(|queries|, i requires 0 <= i < |queries| => Job(target, queries[i]))
  }

  function Jobs(targets: seq<Target>, queries: seq<string>): seq<Job> {
    if targets == [] then []
    else Jobs(targets[..|targets| - 1], queries) + JobsOf(targets[|targets| - 1], queries)
  }

  method BuildJobs(targets: seq<Target>, queries: seq<string>) returns (jobs: seq<Job>)
    ensures jobs == Jobs(targets, queries)
  {
    jobs := [];
    for t := 0 to |targets|
      invariant jobs == Jobs(targets[..t], queries)
    {
      ghost var before := jobs;
      for q := 0 to |queries|
        invariant jobs == before + JobsOf(targets[t], queries[..q])
      {
        assert JobsOf(targets[t], queries[..q + 1]) == JobsOf(targets[t], queries[..q]) + [Job(targets[t], queries[q])];
        jobs := jobs + [Job(targets[t], queries[q])];
      }
      assert queries[..|queries|] == queries;
      assert targets[..t + 1][..t] == targets[..t];
    }
    assert targets[..|targets|] == targets;
  }

  /** Target-major, query-minor. */
  lemma {:induction false} JobAt(targets: seq<Target>, queries: seq<string>, t: nat, q: nat)
    requires t < |targets| && q < |queries|
    ensures |Jobs(targets, queries)| == |targets| * |queries|
    ensures t * |queries| + q < |targets| * |queries|
    ensures Jobs(targets, queries)[t * |queries| + q] == Job(targets[t], queries[q])
  {
    var n := |targets| - 1;
    JobCount(targets, queries);
    JobCount(targets[..n], queries);
    assert |targets| * |queries| == n * |queries| + |queries|;
    if t < n {
      JobAt(targets[..n], queries, t, q);
    }
  }

  lemma {:induction false} JobCount(targets: seq<Target>, queries: seq<string>)
    ensures |Jobs(targets, queries)| == |targets| * |queries|
  {
    if targets != [] {
      var n := |targets| - 1;
      JobCount(targets[..n], queries);
      assert |targets| * |queries| == n * |queries| + |queries|;
    }
  }

  datatype Output = Output(results: seq<Found>, errors: seq<SourceError>)

  function Collected(slots: seq<Slot>): Output {
    if slots == [] then Output([], [])
    else
      var last := slots[|slots| - 1];
      var out := Collected(slots[..|slots| - 1]);
      if last.error.message != "" then out.(errors := out.errors + [last.error])
      else out.(results := out.results + [last.found])
  }

  method Collect(slots: seq<Slot>) returns (out: Output)
    ensures out == Collected(slots)
  {
    out := Output([], []);
    for i := 0 to |slots|
      invariant out == Collected(slots[..i])
    {
      assert slots[..i + 1][..i] == slots[..i];
      if slots[i].error.message != "" {
        out := out.(errors := out.errors + [slots[i].error]);
      } else {
        out := out.(results := out.results + [slots[i].found]);
      }
    }
    assert slots[..|slots|] == slots;
  }

  /** The result of running the jobs one after the other. */
  function Sequential(env: Env, jobs: seq<Job>): seq<Slot> {
    seq(|jobs|, i requires 0 <= i < |jobs| => SlotOf(jobs[i], Work(env, jobs[i])))
  }

  datatype Pc = Spawned | Holding | Written | Released

  datatype System = System(pcs: seq<Pc>, sem: nat, slots: seq<Slot>)

  datatype Step = Acquire(i: nat) | Write(i: nat) | Release(i: nat)

  function Start(jobs: seq<Job>): System {
    System(seq(|jobs|, _ => Spawned), 0, seq(|jobs|, _ => ZeroSlot))
  }

  predicate CanStep(s: System, step: Step) {
    step.i < |s.pcs| && |s.slots| == |s.pcs| &&
    match step
    case Acquire(i) => s.pcs[i].Spawned? && s.sem < MaxParallel
    case Write(i) => s.pcs[i].Holding?
    case Release(i) => s.pcs[i].Written? && s.sem > 0
  }

  function After(env: Env, jobs: seq<Job>, s: System, step: Step): System
    requires CanStep(s, step) && |jobs| == |s.pcs|
  {
    match step
    case Acquire(i) => s.(pcs := s.pcs[i := Holding], sem := s.sem + 1)
    case Write(i) => s.(pcs := s.pcs[i := Written], slots := s.slots[i := SlotOf(jobs[i], Work(env, jobs[i]))])
    case Release(i) => s.(pcs := s.pcs[i := Released], sem := s.sem - 1)
  }

  /** A schedule is any sequence of enabled steps of any of the goroutines. */
  ghost predicate Schedule(env: Env, jobs: seq<Job>, trace: seq<System>, steps: seq<Step>) {
    && |trace| == |steps| + 1 && trace[0] == Start(jobs)
    && forall k :: 0 <= k < |steps| ==>
         CanStep(trace[k], steps[k]) && |jobs| == |trace[k].pcs|
         && trace[k + 1] == After(env, jobs, trace[k], steps[k])
  }

  predicate Inside(pc: Pc) {
    pc.Holding? || pc.Written?
  }

  function InsideCount(pcs: seq<Pc>): nat {
    if pcs == [] then 0 else InsideCount(pcs[1..]) + if Inside(pcs[0]) then 1 else 0
  }

  ghost predicate Inv(env: Env, jobs: seq<Job>, s: System) {
    && |s.pcs| == |s.slots| == |jobs|
    && s.sem == InsideCount(s.pcs) && s.sem <= MaxParallel
    && forall i :: 0 <= i < |jobs| ==>
         s.slots[i] == if s.pcs[i].Written? || s.pcs[i].Released? then SlotOf(jobs[i], Work(env, jobs[i])) else ZeroSlot
  }

  lemma {:induction false} CountUpdate(pcs: seq<Pc>, i: nat, pc: Pc)
    requires i < |pcs|
    ensures InsideCount(pcs[i := pc]) ==
            InsideCount(pcs) - (if Inside(pcs[i]) then 1 else 0) + (if Inside(pc) then 1 else 0)
  {
    if i > 0 {
      CountUpdate(pcs[1..], i - 1, pc);
      assert pcs[i := pc][1..] == pcs[1..][i - 1 := pc];
    } else {
      assert pcs[i := pc][1..] == pcs[1..];
    }
  }

  lemma {:induction false} NoneInside(pcs: seq<Pc>)
    ensures InsideCount(pcs) == 0 <==> forall i :: 0 <= i < |pcs| ==> !Inside(pcs[i])
  {
    if pcs != [] {
      NoneInside(pcs[1..]);
      assert forall i :: 1 <= i < |pcs| ==> pcs[i] == pcs[1..][i - 1];
    }
  }

  lemma StepKeepsInv(env: Env, jobs: seq<Job>, s: System, step: Step)
    requires Inv(env, jobs, s) && CanStep(s, step)
    ensures Inv(env, jobs, After(env, jobs, s, step))
  {
    hide Work;
    CountUpdate(s.pcs, step.i, After(env, jobs, s, step).pcs[step.i]);
  }

  lemma {:induction false} ScheduleInv(env: Env, jobs: seq<Job>, trace: seq<System>, steps: seq<Step>, k: nat)
    requires Schedule(env, jobs, trace, steps) && k < |trace|
    ensures Inv(env, jobs, trace[k]) && InsideCount(trace[k].pcs) <= 4
  {
    hide Work;
    if k == 0 {
      NoneInside(trace[0].pcs);
    } else {
      ScheduleInv(env, jobs, trace, steps, k - 1);
      StepKeepsInv(env, jobs, trace[k - 1], steps[k - 1]);
    }
  }

  predicate AllReleased(s: System) {
    forall i :: 0 <= i < |s.pcs| ==> s.pcs[i].Released?
  }

  /** No schedule deadlocks: until every goroutine is done, some goroutine can move. */
  lemma NoDeadlock(env: Env, jobs: seq<Job>, trace: seq<System>, steps: seq<Step>, k: nat)
    requires Schedule(env, jobs, trace, steps) && k < |trace| && !AllReleased(trace[k])
    ensures exists step :: CanStep(trace[k], step)
  {
    hide Work;
    var s := trace[k];
    ScheduleInv(env, jobs, trace, steps, k);
    NoneInside(s.pcs);
    if s.sem == 0 {
      var i :| 0 <= i < |s.pcs| && !s.pcs[i].Released?;
      assert !Inside(s.pcs[i]);
      assert CanStep(s, Acquire(i));
    } else {
      var i :| 0 <= i < |s.pcs| && Inside(s.pcs[i]);
      assert CanStep(s, if s.pcs[i].Holding? then Write(i) else Release(i));
    }
  }

  function Left(pcs: seq<Pc>): nat {
    if pcs == [] then 0
    else Left(pcs[1..]) + match pcs[0] case Spawned => 3 case Holding => 2 case Written => 1 case Released => 0
  }

  lemma {:induction false} LeftUpdate(pcs: seq<Pc>, i: nat, pc: Pc)
    requires i < |pcs|
    ensures Left(pcs[i := pc]) == Left(pcs) - Left([pcs[i]]) + Left([pc])
  {
    if i > 0 {
      LeftUpdate(pcs[1..], i - 1, pc);
      assert pcs[i := pc][1..] == pcs[1..][i - 1 := pc];
    } else {
      assert pcs[i := pc][1..] == pcs[1..];
    }
  }

  lemma {:induction false} LeftAtStart(pcs: seq<Pc>)
    requires forall i :: 0 <= i < |pcs| ==> pcs[i].Spawned?
    ensures Left(pcs) == 3 * |pcs|
  {
    if pcs != [] {
      LeftAtStart(pcs[1..]);
    }
  }

  /** Every schedule ends: after `k` steps exactly `3n - k` are left. */
  lemma {:induction false} ScheduleEnds(env: Env, jobs: seq<Job>, trace: seq<System>, steps: seq<Step>, k: nat)
    requires Schedule(env, jobs, trace, steps) && k < |trace|
    ensures Left(trace[k].pcs) == 3 * |jobs| - k
  {
    hide Work;
    if k == 0 {
      LeftAtStart(trace[0].pcs);
    } else {
      ScheduleEnds(env, jobs, trace, steps, k - 1);
      var s, step := trace[k - 1], steps[k - 1];
      LeftUpdate(s.pcs, step.i, trace[k].pcs[step.i]);
    }
  }

  /** Whatever the schedule, when all goroutines are done the output is the sequential one. */
  lemma ScheduleIndependent(env: Env, jobs: seq<Job>, trace: seq<System>, steps: seq<Step>)
    requires Schedule(env, jobs, trace, steps) && AllReleased(trace[|steps|])
    ensures trace[|steps|].slots == Sequential(env, jobs) && |steps| == 3 * |jobs|
  {
    hide Work;
    ScheduleInv(env, jobs, trace, steps, |steps|);
    ScheduleEnds(env, jobs, trace, steps, |steps|);
    NothingLeft(trace[|steps|].pcs);
  }

  lemma {:induction false} NothingLeft(pcs: seq<Pc>)
    requires forall i :: 0 <= i < |pcs| ==> pcs[i].Released?
    ensures Left(pcs) == 0
  {
    if pcs != [] {
      NothingLeft(pcs[1..]);
    }
  }

  /** One result or one error for each target and query. */
  lemma {:induction false} OneReplyEach(slots: seq<Slot>)
    ensures |Collected(slots).results| + |Collected(slots).errors| == |slots|
  {
    if slots != [] {
      OneReplyEach(slots[..|slots| - 1]);
    }
  }

  /** The whole operation: any schedule gives the sequential output, with one reply per target and query. */
  lemma ParallelSearch(env: Env, targets: seq<Target>, queries: seq<string>, trace: seq<System>, steps: seq<Step>)
    requires Schedule(env, Jobs(targets, queries), trace, steps) && AllReleased(trace[|steps|])
    ensures var out := Collected(trace[|steps|].slots);
      && out == Collected(Sequential(env, Jobs(targets, queries)))
      && |out.results| + |out.errors| == |targets| * |queries|
  {
    ScheduleIndependent(env, Jobs(targets, queries), trace, steps);
    OneReplyEach(trace[|steps|].slots);
    JobCount(targets, queries);
  }

  function FailedJobs(env: Env, jobs: seq<Job>): nat {
    if jobs == [] then 0
    else FailedJobs(env, jobs[..|jobs| - 1]) + if Work(env, jobs[|jobs| - 1]).Failed? then 1 else 0
  }

  predicate Silent(env: Env, job: Job) {
    Work(env, job) == Failed("")
  }

  /** Whether the index may answer in place of the provider, or after it. */
  predicate Indexed(env: Env, t: Target) {
    env.hasStore && t.shortcut && !Live(env)
  }

  /** The call that decides about the job fails with an empty message. */
  predicate QuietCall(env: Env, job: Job) {
    var t, store, provider := job.target, env.store(job), env.provider(job);
    if Indexed(env, t) && !t.providerFirst && !store.Miss? then store == Broken("")
    else if !t.searcher then false
    else if provider.Ok? then
      Indexed(env, t) && t.providerFirst && provider.value.records == [] && store == Broken("")
    else if Indexed(env, t) && (t.fallbackGuard ==> env.fallback(t, provider.error)) && !store.Miss? then
      store == Broken("")
    else provider.error == ""
  }

  lemma SilentIff(env: Env, job: Job)
    ensures Silent(env, job) <==> QuietCall(env, job)
  {
  }

  /** Accessors that never fail with an empty message have all their failures reported. */
  lemma SpeakingAccessorsReported(env: Env, jobs: seq<Job>)
    requires forall job <- jobs :: env.store(job) != Broken("") && env.provider(job) != Err("")
    ensures |Collected(Sequential(env, jobs)).errors| == FailedJobs(env, jobs)
  {
    hide Work, Sequential, Collected, FailedJobs;
    ErrorsReportedIff(env, jobs);
    forall i | 0 <= i < |jobs| ensures !Silent(env, jobs[i]) {
      SilentIff(env, jobs[i]);
      assert jobs[i] in jobs;
    }
  }

  /** A failure is reported as an error exactly when its message is not empty; a silent one becomes an empty result. */
  lemma {:induction false} ErrorsReportedIff(env: Env, jobs: seq<Job>)
    ensures |Collected(Sequential(env, jobs)).errors| <= FailedJobs(env, jobs)
    ensures |Collected(Sequential(env, jobs)).errors| == FailedJobs(env, jobs)
            <==> forall i :: 0 <= i < |jobs| ==> !Silent(env, jobs[i])
  {
    if jobs != [] {
      hide Work;
      var n := |jobs| - 1;
      ErrorsReportedIff(env, jobs[..n]);
      assert Sequential(env, jobs)[..n] == Sequential(env, jobs[..n]);
      assert forall i :: 0 <= i < n ==> jobs[..n][i] == jobs[i];
    }
  }

  /** A provider that fails without a message: its failure is listed among the results. */
  lemma SilentFailureExample()
    ensures var env := Env(false, "", _ => Miss, _ => Err(""), (_, _) => true);
      var jobs := [Job(Target("d", "e", true, false, false, false), "q")];
      FailedJobs(env, jobs) == 1 && Collected(Sequential(env, jobs)) == Output([NoFound], [])
  {
    var env := Env(false, "", _ => Miss, _ => Err(""), (_, _) => true);
    var jobs := [Job(Target("d", "e", true, false, false, false), "q")];
    assert jobs[..0] == [];
    assert Work(env, jobs[0]) == Failed("");
    assert Sequential(env, jobs) == [ZeroSlot.(error := SourceError("d", "e", ""))];
    assert [ZeroSlot.(error := SourceError("d", "e", ""))][..0] == [];
  }
}
