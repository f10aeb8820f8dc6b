/** What a search replies, in terms of the calls to the index and to the providers alone. */
module SearchReplies {
  import opened Wrappers
  import opened Filtering
  import opened SearchPool

  /** The index answers in place of the provider, or it is asked after the provider found nothing or failed. */
  predicate StoreDecides(env: Env, job: Job) {
    var t := job.target;
    && env.hasStore && t.shortcut && env.mode != "provider" && env.mode != "live"
    && env.store(job) != Miss
    && (t.providerFirst ==>
          t.searcher &&
          if env.provider(job).Ok? then env.provider(job).value.records == []
          else t.fallbackGuard ==> env.fallback(t, env.provider(job).error))
  }

  /** The reply is that of the call that decides, with its records or its message as they are. */
  predicate Replied(env: Env, job: Job, o: Outcome) {
    if StoreDecides(env, job) then
      match o
      case Answered(found) => env.store(job) == Hit(found)
      case Failed(message) => env.store(job) == Broken(message)
    else if !job.target.searcher then o == Failed("search is not supported")
    else
      match o
      case Answered(found) => env.provider(job) == Ok(found)
      case Failed(message) => env.provider(job) == Err(message)
  }

  /** Exactly one reply is right, and the goroutine computes it. */
  lemma RepliedIff(env: Env, job: Job, o: Outcome)
    ensures Replied(env, job, o) <==> Work(env, job) == o
  {
  }

  /** A failure with a message is an error. */
  predicate IsError(o: Outcome) {
    o.Failed? && o.message != ""
  }

  /** One reply for each target and query, target-major. */
  predicate RepliesTo(env: Env, targets: seq<Target>, queries: seq<string>, outcomes: seq<Outcome>) {
    && |outcomes| == |targets| * |queries|
    && forall t, q :: 0 <= t < |targets| && 0 <= q < |queries| ==> ReplyAt(env, targets[t], queries, outcomes, t, q)
  }

  predicate ReplyAt(env: Env, target: Target, queries: seq<string>, outcomes: seq<Outcome>, t: nat, q: nat)
    requires q < |queries|
  {
    t * |queries| + q < |outcomes| && Replied(env, Job(target, queries[q]), outcomes[t * |queries| + q])
  }

  function Errors(outcomes: seq<Outcome>): seq<bool> {
    seq(|outcomes|, i requires 0 <= i < |outcomes| => IsError(outcomes[i]))
  }

  function Answers(outcomes: seq<Outcome>): seq<bool> {
    seq(|outcomes|, i requires 0 <= i < |outcomes| => !IsError(outcomes[i]))
  }

  /** A reply stands at the index that counts the earlier replies of its kind, under its own target. */
  predicate Placed(out: Output, target: Target, outcomes: seq<Outcome>, i: nat)
    requires i < |outcomes|
  {
    var errors, answers := Trues(Errors(outcomes[..i])), Trues(Answers(outcomes[..i]));
    match outcomes[i]
    case Answered(found) => answers < |out.results| && out.results[answers] == found
    case Failed("") => answers < |out.results| && out.results[answers] == NoFound
    case Failed(message) =>
      errors < |out.errors| && out.errors[errors] == SourceError(target.datasource, target.entity, message)
  }

  predicate PlacedAt(out: Output, target: Target, queries: seq<string>, outcomes: seq<Outcome>, t: nat, q: nat) {
    t * |queries| + q < |outcomes| && Placed(out, target, outcomes, t * |queries| + q)
  }

  /** Every reply has its place, and there is nothing else. */
  predicate AllPlaced(out: Output, targets: seq<Target>, queries: seq<string>, outcomes: seq<Outcome>) {
    && |out.errors| == Trues(Errors(outcomes)) && |out.results| == Trues(Answers(outcomes))
    && forall t, q :: 0 <= t < |targets| && 0 <= q < |queries| ==> PlacedAt(out, targets[t], queries, outcomes, t, q)
  }

  function SlotsOf(jobs: seq<Job>, outcomes: seq<Outcome>): seq<Slot>
    requires |jobs| == |outcomes|
  {
    seq(|jobs|, i requires 0 <= i < |jobs| => SlotOf(jobs[i], outcomes[i]))
  }

  lemma TruesSnoc(outcomes: seq<Outcome>)
    requires outcomes != []
    ensures var n := |outcomes| - 1;
      && Trues(Errors(outcomes)) == Trues(Errors(outcomes[..n])) + (if IsError(outcomes[n]) then 1 else 0)
      && Trues(Answers(outcomes)) == Trues(Answers(outcomes[..n])) + (if IsError(outcomes[n]) then 0 else 1)
  {
    var n := |outcomes| - 1;
    assert Errors(outcomes)[..n] == Errors(outcomes[..n]) && Answers(outcomes)[..n] == Answers(outcomes[..n]);
  }

  lemma PlacedGrows(out: Output, out': Output, target: Target, outcomes: seq<Outcome>, n: nat, i: nat)
    requires i < n <= |outcomes| && out.results <= out'.results && out.errors <= out'.errors
    requires Placed(out, target, outcomes[..n], i)
    ensures Placed(out', target, outcomes, i)
  {
    assert outcomes[..n][..i] == outcomes[..i];
    hide Trues, Errors, Answers;
  }

  /** The reply that comes next is put last. */
  lemma PlacedLast(out: Output, job: Job, outcomes: seq<Outcome>, slots: seq<Slot>)
    requires outcomes != [] && |slots| == |outcomes| && slots[|slots| - 1] == SlotOf(job, outcomes[|outcomes| - 1])
    requires var n := |outcomes| - 1;
      out == Collected(slots[..n])
      && |out.errors| == Trues(Errors(outcomes[..n])) && |out.results| == Trues(Answers(outcomes[..n]))
    ensures var out' := Collected(slots);
      && Placed(out', job.target, outcomes, |outcomes| - 1)
      && out.results <= out'.results && out.errors <= out'.errors
      && |out'.errors| == |out.errors| + (if IsError(outcomes[|outcomes| - 1]) then 1 else 0)
      && |out'.results| == |out.results| + (if IsError(outcomes[|outcomes| - 1]) then 0 else 1)
  {
    hide Trues, Errors, Answers;
  }

  lemma {:induction false} CollectedPlaced(jobs: seq<Job>, outcomes: seq<Outcome>)
    requires |jobs| == |outcomes|
    ensures var out := Collected(SlotsOf(jobs, outcomes));
      && |out.errors| == Trues(Errors(outcomes)) && |out.results| == Trues(Answers(outcomes))
      && forall i :: 0 <= i < |outcomes| ==> Placed(out, jobs[i].target, outcomes, i)
  {
    hide Trues, Errors, Answers, Placed, IsError;
    if jobs != [] {
      var n := |jobs| - 1;
      var out, out' := Collected(SlotsOf(jobs[..n], outcomes[..n])), Collected(SlotsOf(jobs, outcomes));
      CollectedPlaced(jobs[..n], outcomes[..n]);
      assert SlotsOf(jobs, outcomes)[..n] == SlotsOf(jobs[..n], outcomes[..n]);
      TruesSnoc(outcomes);
      hide Collected;
      PlacedLast(out, jobs[n], outcomes, SlotsOf(jobs, outcomes));
      forall i | 0 <= i < n ensures Placed(out', jobs[i].target, outcomes, i) {
        assert Placed(out, jobs[..n][i].target, outcomes[..n], i);
        PlacedGrows(out, out', jobs[i].target, outcomes, n, i);
      }
    } else {
      NoReplies();
    }
  }

  lemma NoReplies()
    ensures Trues(Errors([])) == 0 == Trues(Answers([]))
  {
  }

  /**
   * Whatever the schedule, the output holds the reply to each target and query and nothing else: the answers and
   * the silent failures in the order of the jobs, the errors in that order too and under their own target.
   */
  lemma SearchOutput(env: Env, targets: seq<Target>, queries: seq<string>, trace: seq<System>, steps: seq<Step>,
                     outcomes: seq<Outcome>)
    requires Schedule(env, Jobs(targets, queries), trace, steps) && AllReleased(trace[|steps|])
    requires RepliesTo(env, targets, queries, outcomes)
    ensures AllPlaced(Collected(trace[|steps|].slots), targets, queries, outcomes)
  {
    hide *;
    var jobs := Jobs(targets, queries);
    ScheduleIndependent(env, jobs, trace, steps);
    OutcomesAreWork(env, targets, queries, outcomes);
    SequentialSlots(env, jobs, outcomes);
    SlotsPlaced(targets, queries, outcomes);
  }

  lemma SequentialSlots(env: Env, jobs: seq<Job>, outcomes: seq<Outcome>)
    requires |jobs| == |outcomes| && forall i :: 0 <= i < |outcomes| ==> outcomes[i] == Work(env, jobs[i])
    ensures SlotsOf(jobs, outcomes) == Sequential(env, jobs)
  {
    hide Work;
  }

  lemma SlotsPlaced(targets: seq<Target>, queries: seq<string>, outcomes: seq<Outcome>)
    requires |Jobs(targets, queries)| == |outcomes|
    ensures AllPlaced(Collected(SlotsOf(Jobs(targets, queries), outcomes)), targets, queries, outcomes)
  {
    hide Placed, Collected, Jobs, SlotsOf, Trues, Errors, Answers, PlacedAt;
    var jobs := Jobs(targets, queries);
    var out := Collected(SlotsOf(jobs, outcomes));
    CollectedPlaced(jobs, outcomes);
    forall t, q | 0 <= t < |targets| && 0 <= q < |queries| ensures PlacedAt(out, targets[t], queries, outcomes, t, q) {
      JobPlaced(targets, queries, outcomes, out, t, q);
    }
  }

  lemma JobPlaced(targets: seq<Target>, queries: seq<string>, outcomes: seq<Outcome>, out: Output, t: nat, q: nat)
    requires t < |targets| && q < |queries| && |Jobs(targets, queries)| == |outcomes|
    requires forall i :: 0 <= i < |outcomes| ==> Placed(out, Jobs(targets, queries)[i].target, outcomes, i)
    ensures PlacedAt(out, targets[t], queries, outcomes, t, q)
  {
    hide Placed, Jobs;
    JobAt(targets, queries, t, q);
    JobCount(targets, queries);
  }

  lemma OutcomesAreWork(env: Env, targets: seq<Target>, queries: seq<string>, outcomes: seq<Outcome>)
    requires RepliesTo(env, targets, queries, outcomes)
    ensures |Jobs(targets, queries)| == |outcomes|
    ensures forall i :: 0 <= i < |outcomes| ==> outcomes[i] == Work(env, Jobs(targets, queries)[i])
  {
    hide Work, Replied, Jobs;
    JobCount(targets, queries);
    var n := |queries|;
    forall i | 0 <= i < |outcomes| ensures outcomes[i] == Work(env, Jobs(targets, queries)[i]) {
      IndexSplit(i, |targets|, n);
      var t, q := i / n, i % n;
      JobAt(targets, queries, t, q);
      assert ReplyAt(env, targets[t], queries, outcomes, t, q);
      RepliedIff(env, Job(targets[t], queries[q]), outcomes[i]);
    }
  }

  lemma IndexSplit(i: nat, m: nat, n: nat)
    requires i < m * n
    ensures n > 0 && i / n < m && i % n < n && (i / n) * n + i % n == i
  {
    TimesGrows(i / n, m, n);
  }

  lemma TimesGrows(a: nat, b: nat, n: nat)
    ensures a >= b ==> a * n >= b * n
  {
  }
}
