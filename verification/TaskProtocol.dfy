/** The writers of one task stream: what a request appends, given the state it was computed from. */
module TaskRequests {
  import opened Wrappers
  import opened GoStrings
  import opened TaskTypes
  import opened TaskProjection
  import opened TaskModification
  import opened TaskInvariants
  import opened TaskTheorems
  import opened TaskEffects
  import opened TaskLosses
  import opened TaskQueries

  const Retries := 16
  const WatchThread := "watch_thread_id"
  const WatchBranch := "watch_branch_id"
  const WatchRun := "watch_run_id"
  const WatchReason := "task_run requested execution from this session"

  datatype Request =
    | ModifyRequest(reason: string, items: seq<Modification>)
    | WatchRequest(thread: string, branch: string, run: string)

  function Put(metadata: map<string, string>, key: string, value: string): map<string, string> {
    if value == "" then metadata else metadata[key := value]
  }

  function Watched(metadata: map<string, string>, r: Request): map<string, string>
    requires r.WatchRequest?
  {
    Put(Put(Put(metadata, WatchThread, r.thread), WatchBranch, r.branch), WatchRun, r.run)
  }

  /** The batch a request appends, computed from one loaded state; None when nothing is to be appended. */
  ghost function Batch(taskId: string, r: Request, s: State, draws: seq<string>): (b: Option<seq<Event>>)
    ensures b.Some? ==> b.value != []
  {
    if s.task.id == "" then None
    else
      match r
      case ModifyRequest(reason, items) =>
        var o := ModifyAll(taskId, reason, items, s, draws);
        if Blank(taskId) || o.failure.Some? || o.events == [] then None else Some(o.events)
      case WatchRequest(thread, _, _) =>
        var metadata := Watched(s.task.metadata, r);
        if thread == "" || s.task.id != taskId || metadata == s.task.metadata then None
        else Some([Revised(taskId, s.task.(metadata := metadata), WatchReason)])
  }

  /** Every batch appended to a sound task leaves it sound. */
  lemma BatchKeepsSound(taskId: string, r: Request, s: State, draws: seq<string>)
    requires Sound(s, taskId)
    ensures Batch(taskId, r, s, draws).Some? ==> Sound(Fold(s, Batch(taskId, r, s, draws).value), taskId)
  {
    match r
    case ModifyRequest(reason, items) =>
      BatchSound(taskId, reason, items, s, draws);
      BatchReplays(taskId, reason, items, s, draws);
    case WatchRequest(_, _, _) =>
      if Batch(taskId, r, s, draws).Some? {
        var ev := Batch(taskId, r, s, draws).value[0];
        FoldOne(s, ev);
        GuardedKeepsSound(s, taskId, ev);
      }
  }

  predicate HasReopen(items: seq<Modification>) {
    exists i :: 0 <= i < |items| && items[i].op.Reopen?
  }

  /** Within a batch, a terminal task becomes active only through an item that says `reopen`. */
  lemma {:induction false} ItemsReopen(taskId: string, reason: string, items: seq<Modification>, s: State, draws: seq<string>)
    requires Sound(s, taskId) && ModifyAll(taskId, reason, items, s, draws).failure.None?
    requires Terminal(s.task.status) && !Terminal(ModifyAll(taskId, reason, items, s, draws).state.task.status)
    ensures HasReopen(items)
  {
    hide Modify, Sound;
    if items != [] {
      var n := |items| - 1;
      var o := ModifyAll(taskId, reason, items[..n], s, draws);
      BatchSound(taskId, reason, items[..n], s, draws);
      if Terminal(o.state.task.status) {
        TaskTerminalIffReopen(taskId, reason, items[n], o.state, o.draws);
      } else {
        ItemsReopen(taskId, reason, items[..n], s, draws);
        var i :| 0 <= i < n && items[..n][i].op.Reopen?;
        assert items[i].op.Reopen?;
      }
    }
  }

  predicate MayReopenStep(items: seq<Modification>, x: string) {
    exists i :: 0 <= i < |items| && items[i].stepId == x && (items[i].op.ReopenStep? || RenamesStep(items[i], x))
  }

  /** Within a batch, a terminal step leaves its status only through `reopen_step` or a renaming `update_step`. */
  lemma {:induction false} ItemsReopenStep(taskId: string, reason: string, items: seq<Modification>, s: State,
                                           draws: seq<string>, e: string, x: string)
    requires Sound(s, taskId) && ModifyAll(taskId, reason, items, s, draws).failure.None?
    requires StepTerminal(StepStatusOf(s, e, x))
    requires !StepTerminal(StepStatusOf(ModifyAll(taskId, reason, items, s, draws).state, e, x))
    ensures MayReopenStep(items, x)
  {
    hide Modify, Sound, StepStatusOf;
    if items != [] {
      var n := |items| - 1;
      var o := ModifyAll(taskId, reason, items[..n], s, draws);
      BatchSound(taskId, reason, items[..n], s, draws);
      if StepTerminal(StepStatusOf(o.state, e, x)) {
        StepTerminalLostIff(taskId, reason, items[n], o.state, o.draws, e, x);
        assert items[n].stepId == x;
      } else {
        ItemsReopenStep(taskId, reason, items[..n], s, draws, e, x);
        var i :| 0 <= i < n && items[..n][i].stepId == x
                 && (items[..n][i].op.ReopenStep? || RenamesStep(items[..n][i], x));
        assert items[i].stepId == x;
      }
    }
  }

  lemma WatchKeepsStatuses(taskId: string, r: Request, s: State, draws: seq<string>)
    requires Sound(s, taskId) && r.WatchRequest? && Batch(taskId, r, s, draws).Some?
    ensures var s' := Fold(s, Batch(taskId, r, s, draws).value);
      && s'.task.status == s.task.status
      && forall e, x :: StepTerminal(StepStatusOf(s, e, x)) ==> StepStatusOf(s', e, x) == StepStatusOf(s, e, x)
  {
    hide UniqueIds, Apply;
    var ev := Batch(taskId, r, s, draws).value[0];
    FoldOne(s, ev);
    RevisedEffect(s, ev);
  }
}

/** Any number of clients on one stream: load, compute, append if nobody else appended in between. */
module TaskProtocol {
  import opened Wrappers
  import opened TaskTypes
  import opened TaskProjection
  import opened TaskQueries
  import opened TaskModification
  import opened TaskInvariants
  import opened TaskLosses
  import opened TaskTheorems
  import opened TaskRequests

  /** `seen` is the number of commits in the stream at the last load. */
  datatype Phase =
    | Idle
    | Loaded(base: nat, seen: nat, draws: seq<string>, batch: seq<Event>)
    | Committed | Refused | GaveUp

  datatype Client = Client(request: Request, phase: Phase, conflicts: nat, started: nat)

  /** A commit of one of the clients, or of a writer that follows no protocol but appends. */
  datatype Commit =
    | Own(client: nat, request: Request, draws: seq<string>, batch: seq<Event>)
    | Foreign(batch: seq<Event>)

  datatype System = System(taskId: string, log: seq<Event>, clients: seq<Client>, history: seq<Commit>)

  datatype Step = Load(i: nat, draws: seq<string>) | Append(i: nat) | Other(batch: seq<Event>)

  ghost function LoadedClient(sys: System, c: Client, draws: seq<string>): Client {
    var batch := Batch(sys.taskId, c.request, Project(sys.log), draws);
    c.(phase := if batch.None? then Refused else Loaded(|sys.log|, |sys.history|, draws, batch.value))
  }

  /** `AppendExpected`: the stream still ends where it was loaded, or the attempt is counted as a conflict. */
  function AfterConflict(c: Client): Client {
    c.(conflicts := c.conflicts + 1, phase := if c.conflicts + 1 >= Retries then GaveUp else Idle)
  }

  ghost predicate Next(sys: System, sys': System, step: Step) {
    match step
    case Load(i, draws) =>
      && i < |sys.clients| && sys.clients[i].phase.Idle?
      && sys' == sys.(clients := sys.clients[i := LoadedClient(sys, sys.clients[i], draws)])
    case Append(i) =>
      && i < |sys.clients| && sys.clients[i].phase.Loaded?
      && var c := sys.clients[i];
         if |sys.log| == c.phase.base then
           sys' == sys.(log := sys.log + c.phase.batch,
                        clients := sys.clients[i := c.(phase := Committed)],
                        history := sys.history + [Own(i, c.request, c.phase.draws, c.phase.batch)])
         else sys' == sys.(clients := sys.clients[i := AfterConflict(c)])
    case Other(batch) =>
      batch != [] && sys' == sys.(log := sys.log + batch, history := sys.history + [Foreign(batch)])
  }

  ghost predicate Init(sys: System) {
    && sys.history == []
    && forall i :: 0 <= i < |sys.clients| ==>
         sys.clients[i].phase.Idle? && sys.clients[i].conflicts == 0 && sys.clients[i].started == 0
  }

  ghost predicate Run(trace: seq<System>, steps: seq<Step>) {
    && |trace| == |steps| + 1 && Init(trace[0])
    && forall k :: 0 <= k < |steps| ==> Next(trace[k], trace[k + 1], steps[k])
  }

  /** One commit after a given log: a client recomputes its batch, whatever the commit recorded. */
  ghost function Extend(taskId: string, log: seq<Event>, c: Commit): seq<Event> {
    if c.Foreign? then log + c.batch
    else
      var batch := Batch(taskId, c.request, Project(log), c.draws);
      if batch.None? then log else log + batch.value
  }

  /** The commits executed one after the other, each computed from the log left by those before it. */
  ghost function Serial(taskId: string, log0: seq<Event>, history: seq<Commit>): seq<Event> {
    if history == [] then log0
    else Extend(taskId, Serial(taskId, log0, history[..|history| - 1]), history[|history| - 1])
  }

  predicate OwnedBy(c: Commit, i: int) {
    c.Own? && c.client == i
  }

  ghost predicate ClientInv(sys: System, log0: seq<Event>, i: nat)
    requires i < |sys.clients|
  {
    var c := sys.clients[i];
    && c.started <= |sys.history| && c.conflicts <= |sys.history| - c.started
    && (c.conflicts < Retries || c.phase.GaveUp?)
    && (c.phase.GaveUp? ==> c.conflicts == Retries)
    && (c.phase.Loaded? ==>
         && c.phase.seen <= |sys.history|
         && c.conflicts <= c.phase.seen - c.started
         && c.phase.base == |Serial(sys.taskId, log0, sys.history[..c.phase.seen])|
         && Batch(sys.taskId, c.request, Project(Serial(sys.taskId, log0, sys.history[..c.phase.seen])), c.phase.draws)
            == Some(c.phase.batch))
    && (c.phase.Committed? <==> exists k :: 0 <= k < |sys.history| && OwnedBy(sys.history[k], i))
  }

  ghost predicate CommitInv(sys: System, log0: seq<Event>, k: nat)
    requires k < |sys.history|
  {
    match sys.history[k]
    case Foreign(batch) => batch != []
    case Own(i, request, draws, batch) =>
      && i < |sys.clients| && request == sys.clients[i].request
      && Batch(sys.taskId, request, Project(Serial(sys.taskId, log0, sys.history[..k])), draws) == Some(batch)
      && (forall l :: 0 <= l < |sys.history| && l != k ==> !OwnedBy(sys.history[l], i))
  }

  ghost predicate Inv(sys: System, log0: seq<Event>) {
    && sys.log == Serial(sys.taskId, log0, sys.history)
    && (forall i :: 0 <= i < |sys.clients| ==> ClientInv(sys, log0, i))
    && (forall k :: 0 <= k < |sys.history| ==> CommitInv(sys, log0, k))
  }

  lemma SerialSnoc(taskId: string, log0: seq<Event>, history: seq<Commit>, c: Commit)
    ensures Serial(taskId, log0, history + [c]) == Extend(taskId, Serial(taskId, log0, history), c)
  {
    assert (history + [c])[..|history|] == history;
  }

  /** Logs only grow, and strictly so with each commit. */
  lemma {:induction false} SerialGrows(sys: System, log0: seq<Event>, k: nat, l: nat)
    requires k <= l <= |sys.history| && forall j :: 0 <= j < |sys.history| ==> CommitInv(sys, log0, j)
    ensures Serial(sys.taskId, log0, sys.history[..k]) <= Serial(sys.taskId, log0, sys.history[..l])
    ensures |Serial(sys.taskId, log0, sys.history[..l])| >= |Serial(sys.taskId, log0, sys.history[..k])| + (l - k)
    decreases l
  {
    hide Batch, Fold;
    if k < l {
      SerialGrows(sys, log0, k, l - 1);
      assert CommitInv(sys, log0, l - 1);
      assert sys.history[..l] == sys.history[..l - 1] + [sys.history[l - 1]];
      SerialSnoc(sys.taskId, log0, sys.history[..l - 1], sys.history[l - 1]);
    }
  }

  /** A client that did not move keeps its invariant when the stream gets a commit of somebody else. */
  lemma ClientKeeps(sys: System, sys': System, log0: seq<Event>, i: nat, c: Commit)
    requires i < |sys.clients| == |sys'.clients| && ClientInv(sys, log0, i) && sys'.clients[i] == sys.clients[i]
    requires sys'.history == sys.history + [c] && sys'.taskId == sys.taskId && !OwnedBy(c, i)
    ensures ClientInv(sys', log0, i)
  {
    var client := sys.clients[i];
    if client.phase.Loaded? {
      assert sys'.history[..client.phase.seen] == sys.history[..client.phase.seen];
    }
    if client.phase.Committed? {
      var k :| 0 <= k < |sys.history| && OwnedBy(sys.history[k], i);
      assert OwnedBy(sys'.history[k], i);
    }
  }

  lemma CommitKeeps(sys: System, sys': System, log0: seq<Event>, k: nat, c: Commit)
    requires k < |sys.history| && CommitInv(sys, log0, k)
    requires sys'.history == sys.history + [c] && sys'.taskId == sys.taskId && |sys'.clients| == |sys.clients|
    requires forall i :: 0 <= i < |sys.clients| ==> sys'.clients[i].request == sys.clients[i].request
    requires c.Own? ==> !OwnedBy(sys.history[k], c.client)
    ensures CommitInv(sys', log0, k)
  {
    assert sys'.history[..k] == sys.history[..k];
  }

  lemma OtherKeepsInv(sys: System, sys': System, log0: seq<Event>, batch: seq<Event>)
    requires Inv(sys, log0) && Next(sys, sys', Other(batch))
    ensures Inv(sys', log0)
  {
    SerialSnoc(sys.taskId, log0, sys.history, Foreign(batch));
    forall i | 0 <= i < |sys'.clients| ensures ClientInv(sys', log0, i) {
      ClientKeeps(sys, sys', log0, i, Foreign(batch));
    }
    forall k | 0 <= k < |sys'.history| ensures CommitInv(sys', log0, k) {
      if k < |sys.history| { CommitKeeps(sys, sys', log0, k, Foreign(batch)); }
    }
  }

  /** Steps that leave the stream alone only have to keep the moving client's invariant. */
  lemma QuietKeepsInv(sys: System, sys': System, log0: seq<Event>, i: nat)
    requires Inv(sys, log0) && i < |sys.clients| == |sys'.clients| && sys' == sys.(clients := sys'.clients)
    requires ClientInv(sys', log0, i)
    requires forall j :: 0 <= j < |sys.clients| && j != i ==> sys'.clients[j] == sys.clients[j]
    requires sys'.clients[i].request == sys.clients[i].request
    ensures Inv(sys', log0)
  {
    forall j | 0 <= j < |sys'.clients| ensures ClientInv(sys', log0, j) {
      assert ClientInv(sys, log0, j);
    }
    forall k | 0 <= k < |sys'.history| ensures CommitInv(sys', log0, k) {
      assert CommitInv(sys, log0, k);
    }
  }

  lemma LoadKeepsInv(sys: System, sys': System, log0: seq<Event>, i: nat, draws: seq<string>)
    requires Inv(sys, log0) && Next(sys, sys', Load(i, draws))
    ensures Inv(sys', log0)
  {
    assert ClientInv(sys, log0, i);
    assert sys.history[..|sys.history|] == sys.history;
    QuietKeepsInv(sys, sys', log0, i);
  }

  lemma ConflictKeepsInv(sys: System, sys': System, log0: seq<Event>, i: nat)
    requires Inv(sys, log0) && Next(sys, sys', Step.Append(i)) && |sys.log| != sys.clients[i].phase.base
    ensures Inv(sys', log0)
  {
    hide Batch;
    var c := sys.clients[i];
    assert ClientInv(sys, log0, i);
    assert sys.history[..|sys.history|] == sys.history;
    assert c.phase.seen < |sys.history|;
    QuietKeepsInv(sys, sys', log0, i);
  }

  lemma CommitKeepsInv(sys: System, sys': System, log0: seq<Event>, i: nat)
    requires Inv(sys, log0) && Next(sys, sys', Step.Append(i)) && |sys.log| == sys.clients[i].phase.base
    ensures Inv(sys', log0)
  {
    hide Batch, Fold;
    var c := sys.clients[i];
    var own := Own(i, c.request, c.phase.draws, c.phase.batch);
    assert ClientInv(sys, log0, i);
    SerialGrows(sys, log0, c.phase.seen, |sys.history|);
    assert sys.history[..|sys.history|] == sys.history;
    assert c.phase.seen == |sys.history|;
    SerialSnoc(sys.taskId, log0, sys.history, own);
    forall j | 0 <= j < |sys'.clients| ensures ClientInv(sys', log0, j) {
      if j != i {
        ClientKeeps(sys, sys', log0, j, own);
      } else {
        assert OwnedBy(sys'.history[|sys.history|], i);
      }
    }
    forall k | 0 <= k < |sys'.history| ensures CommitInv(sys', log0, k) {
      if k < |sys.history| {
        CommitKeeps(sys, sys', log0, k, own);
      } else {
        assert sys'.history[..k] == sys.history;
      }
    }
  }

  lemma NextKeepsInv(sys: System, sys': System, log0: seq<Event>, step: Step)
    requires Inv(sys, log0) && Next(sys, sys', step)
    ensures Inv(sys', log0)
  {
    match step
    case Load(i, draws) => LoadKeepsInv(sys, sys', log0, i, draws);
    case Append(i) =>
      if |sys.log| == sys.clients[i].phase.base {
        CommitKeepsInv(sys, sys', log0, i);
      } else {
        ConflictKeepsInv(sys, sys', log0, i);
      }
    case Other(batch) => OtherKeepsInv(sys, sys', log0, batch);
  }

  lemma {:induction false} RunKeepsInv(trace: seq<System>, steps: seq<Step>, k: nat)
    requires Run(trace, steps) && k < |trace|
    ensures Inv(trace[k], trace[0].log) && trace[k].taskId == trace[0].taskId
    ensures |trace[k].clients| == |trace[0].clients|
  {
    if k > 0 {
      RunKeepsInv(trace, steps, k - 1);
      NextKeepsInv(trace[k - 1], trace[k], trace[0].log, steps[k - 1]);
    }
  }

  /**
   * For every interleaving of any number of clients and foreign writers, the log is the one that the
   * committed requests leave when they run one after the other, each on the projection of that log.
   */
  lemma LogIsSerial(trace: seq<System>, steps: seq<Step>, k: nat)
    requires Run(trace, steps) && k < |trace|
    ensures trace[k].log == Serial(trace[0].taskId, trace[0].log, trace[k].history)
    ensures forall j :: 0 <= j < |trace[k].history| && trace[k].history[j].Own? ==>
      var c := trace[k].history[j];
      Batch(trace[0].taskId, c.request, Project(Serial(trace[0].taskId, trace[0].log, trace[k].history[..j])), c.draws)
        == Some(c.batch)
  {
    RunKeepsInv(trace, steps, k);
    forall j | 0 <= j < |trace[k].history| && trace[k].history[j].Own?
      ensures var c := trace[k].history[j];
        Batch(trace[0].taskId, c.request, Project(Serial(trace[0].taskId, trace[0].log, trace[k].history[..j])), c.draws)
          == Some(c.batch)
    {
      assert CommitInv(trace[k], trace[0].log, j);
    }
  }

  /** Nothing committed is ever lost or rewritten. */
  lemma {:induction false} CommitsPersist(trace: seq<System>, steps: seq<Step>, k: nat, l: nat)
    requires Run(trace, steps) && k <= l < |trace|
    ensures trace[k].log <= trace[l].log && trace[k].history <= trace[l].history
    decreases l
  {
    if k < l {
      CommitsPersist(trace, steps, k, l - 1);
      assert Next(trace[l - 1], trace[l], steps[l - 1]);
    }
  }

  /** A client commits at most once, and a client that does not report success has appended nothing. */
  lemma CommittedExactlyOnce(trace: seq<System>, steps: seq<Step>, k: nat, i: nat)
    requires Run(trace, steps) && k < |trace| && i < |trace[k].clients|
    ensures trace[k].clients[i].phase.Committed? <==> exists j :: 0 <= j < |trace[k].history| && OwnedBy(trace[k].history[j], i)
    ensures forall j, l :: 0 <= j < l < |trace[k].history| ==>
              !(OwnedBy(trace[k].history[j], i) && OwnedBy(trace[k].history[l], i))
  {
    RunKeepsInv(trace, steps, k);
    assert ClientInv(trace[k], trace[0].log, i);
    forall j, l | 0 <= j < l < |trace[k].history|
      ensures !(OwnedBy(trace[k].history[j], i) && OwnedBy(trace[k].history[l], i))
    {
      assert CommitInv(trace[k], trace[0].log, j);
    }
  }

  /** A client gives up only after sixteen conflicts, each caused by another writer's commit; it appended nothing. */
  lemma GivingUpMeansProgress(trace: seq<System>, steps: seq<Step>, k: nat, i: nat)
    requires Run(trace, steps) && k < |trace| && i < |trace[k].clients|
    ensures trace[k].clients[i].phase.GaveUp? ==>
      && |trace[k].history| >= 16
      && forall j :: 0 <= j < |trace[k].history| ==> !OwnedBy(trace[k].history[j], i)
  {
    RunKeepsInv(trace, steps, k);
    assert ClientInv(trace[k], trace[0].log, i);
  }

  /** Steps a client can still take. */
  function Remaining(c: Client): nat {
    if c.phase.Idle? && c.conflicts < Retries then 2 * (Retries - c.conflicts)
    else if c.phase.Loaded? && c.conflicts < Retries then 2 * (Retries - c.conflicts) - 1
    else 0
  }

  /** Each client finishes within 2 * 16 of its own steps, whatever the others do. */
  lemma ClientTerminates(trace: seq<System>, steps: seq<Step>, k: nat, i: nat)
    requires Run(trace, steps) && k < |steps| && i < |trace[k].clients|
    ensures |trace[k + 1].clients| == |trace[k].clients|
    ensures var before, after := Remaining(trace[k].clients[i]), Remaining(trace[k + 1].clients[i]);
      && before <= 2 * Retries
      && if (steps[k].Load? || steps[k].Append?) && steps[k].i == i then after < before else after == before
  {
    hide Batch;
    RunKeepsInv(trace, steps, k);
    assert ClientInv(trace[k], trace[0].log, i);
    assert Next(trace[k], trace[k + 1], steps[k]);
  }

  /** A step that does not break a sound task; for the clients of the protocol this is `ClientStepSound`. */
  ghost predicate KeepsSound(sys: System, step: Step) {
    step.Other? && Sound(Project(sys.log), sys.taskId) ==> Sound(Project(sys.log + step.batch), sys.taskId)
  }

  /** Foreign events that pass the checks of the modifications keep a sound task sound. */
  lemma GuardedForeignSound(sys: System, batch: seq<Event>)
    requires GuardedRun(Project(sys.log), batch, sys.taskId)
    ensures KeepsSound(sys, Other(batch))
  {
    hide Sound, GuardedRun;
    FoldConcat(EmptyState, sys.log, batch);
    if Sound(Project(sys.log), sys.taskId) {
      GuardedRunSound(Project(sys.log), batch, sys.taskId);
    }
  }

  lemma ClientStepSound(sys: System, sys': System, log0: seq<Event>, step: Step)
    requires Inv(sys, log0) && Next(sys, sys', step) && !step.Other? && Sound(Project(sys.log), sys.taskId)
    ensures Sound(Project(sys'.log), sys.taskId)
  {
    hide Sound, Fold, Batch, Inv;
    if step.Append? && |sys.log| == sys.clients[step.i].phase.base {
      var c := sys.clients[step.i];
      AppendedOnProjection(sys, log0, step.i);
      BatchKeepsSound(sys.taskId, c.request, Project(sys.log), c.phase.draws);
    }
  }

  /**
   * As long as foreign writers do not break a sound task, every reachable log projects to a sound task; the
   * modification and watcher clients never do.
   */
  lemma {:induction false} EveryRunSound(trace: seq<System>, steps: seq<Step>, k: nat)
    requires Run(trace, steps) && k < |trace| && Sound(Project(trace[0].log), trace[0].taskId)
    requires forall j :: 0 <= j < |steps| ==> KeepsSound(trace[j], steps[j])
    ensures Sound(Project(trace[k].log), trace[0].taskId)
  {
    hide Sound, Fold, Inv;
    if k > 0 {
      EveryRunSound(trace, steps, k - 1);
      RunKeepsInv(trace, steps, k - 1);
      assert KeepsSound(trace[k - 1], steps[k - 1]);
      assert Next(trace[k - 1], trace[k], steps[k - 1]);
      if !steps[k - 1].Other? {
        ClientStepSound(trace[k - 1], trace[k], trace[0].log, steps[k - 1]);
      }
    }
  }

  /** Over a whole concurrent run: a client that makes a terminal task active commits a `reopen` to do it. */
  lemma EveryRunReopens(trace: seq<System>, steps: seq<Step>, k: nat)
    requires Run(trace, steps) && k < |steps| && Sound(Project(trace[0].log), trace[0].taskId)
    requires forall j :: 0 <= j < |steps| ==> KeepsSound(trace[j], steps[j])
    requires Terminal(Project(trace[k].log).task.status) && !Terminal(Project(trace[k + 1].log).task.status)
    ensures steps[k].Other? || (steps[k].Append? && steps[k].i < |trace[k].clients|)
    ensures steps[k].Append? ==>
      trace[k].clients[steps[k].i].request.ModifyRequest? && HasReopen(trace[k].clients[steps[k].i].request.items)
  {
    hide Sound, Fold, Batch, Inv;
    assert Next(trace[k], trace[k + 1], steps[k]);
    RunKeepsInv(trace, steps, k);
    EveryRunSound(trace, steps, k);
    if steps[k].Append? {
      AppendedOnProjection(trace[k], trace[0].log, steps[k].i);
      ClientReopens(trace[k].taskId, trace[k].clients[steps[k].i], Project(trace[k].log));
    }
  }

  lemma ClientReopens(taskId: string, c: Client, s: State)
    requires Sound(s, taskId) && c.phase.Loaded? && Batch(taskId, c.request, s, c.phase.draws) == Some(c.phase.batch)
    requires Terminal(s.task.status) && !Terminal(Fold(s, c.phase.batch).task.status)
    ensures c.request.ModifyRequest? && HasReopen(c.request.items)
  {
    hide ModifyAll, Sound, Fold;
    match c.request
    case ModifyRequest(reason, items) =>
      BatchReplays(taskId, reason, items, s, c.phase.draws);
      ItemsReopen(taskId, reason, items, s, c.phase.draws);
    case WatchRequest(_, _, _) =>
      WatchKeepsStatuses(taskId, c.request, s, c.phase.draws);
  }

  /** A successful append adds the batch computed from exactly the projection of the log it extends. */
  lemma AppendedOnProjection(sys: System, log0: seq<Event>, i: nat)
    requires Inv(sys, log0) && i < |sys.clients| && sys.clients[i].phase.Loaded?
    requires |sys.log| == sys.clients[i].phase.base
    ensures var c := sys.clients[i];
      && Batch(sys.taskId, c.request, Project(sys.log), c.phase.draws) == Some(c.phase.batch)
      && Project(sys.log + c.phase.batch) == Fold(Project(sys.log), c.phase.batch)
  {
    hide Batch, ModifyAll, Fold;
    var c := sys.clients[i];
    assert ClientInv(sys, log0, i);
    SerialGrows(sys, log0, c.phase.seen, |sys.history|);
    assert sys.history[..|sys.history|] == sys.history;
    FoldConcat(EmptyState, sys.log, c.phase.batch);
  }

  /** The same for steps: a client undoes a terminal status by `reopen_step` or by renaming the step, only. */
  lemma EveryRunReopensStep(trace: seq<System>, steps: seq<Step>, k: nat, e: string, x: string)
    requires Run(trace, steps) && k < |steps| && Sound(Project(trace[0].log), trace[0].taskId)
    requires forall j :: 0 <= j < |steps| ==> KeepsSound(trace[j], steps[j])
    requires StepTerminal(StepStatusOf(Project(trace[k].log), e, x))
    requires !StepTerminal(StepStatusOf(Project(trace[k + 1].log), e, x))
    ensures steps[k].Other? || (steps[k].Append? && steps[k].i < |trace[k].clients|)
    ensures steps[k].Append? ==>
      trace[k].clients[steps[k].i].request.ModifyRequest?
      && MayReopenStep(trace[k].clients[steps[k].i].request.items, x)
  {
    hide Sound, Fold, Batch, Inv, StepStatusOf;
    assert Next(trace[k], trace[k + 1], steps[k]);
    RunKeepsInv(trace, steps, k);
    EveryRunSound(trace, steps, k);
    if steps[k].Append? {
      AppendedOnProjection(trace[k], trace[0].log, steps[k].i);
      ClientReopensStep(trace[k].taskId, trace[k].clients[steps[k].i], Project(trace[k].log), e, x);
    }
  }

  lemma ClientReopensStep(taskId: string, c: Client, s: State, e: string, x: string)
    requires Sound(s, taskId) && c.phase.Loaded? && Batch(taskId, c.request, s, c.phase.draws) == Some(c.phase.batch)
    requires StepTerminal(StepStatusOf(s, e, x)) && !StepTerminal(StepStatusOf(Fold(s, c.phase.batch), e, x))
    ensures c.request.ModifyRequest? && MayReopenStep(c.request.items, x)
  {
    hide ModifyAll, Sound, Fold, StepStatusOf;
    match c.request
    case ModifyRequest(reason, items) =>
      BatchReplays(taskId, reason, items, s, c.phase.draws);
      ItemsReopenStep(taskId, reason, items, s, c.phase.draws, e, x);
    case WatchRequest(_, _, _) =>
      WatchKeepsStatuses(taskId, c.request, s, c.phase.draws);
  }
}
