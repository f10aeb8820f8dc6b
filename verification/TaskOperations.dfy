/** The task operations in their imperative form, proved against the specification functions. */
module TaskOperations {
  import opened Wrappers
  import opened GoStrings
  import opened TaskTypes
  import opened TaskValidation
  import opened TaskProjection
  import opened TaskQueries
  import opened TaskModification
  import opened TaskInvariants
  import opened TaskTheorems
  import opened TaskEffects
  import opened TaskRequests

  lemma {:induction false} FirstWithIdAt(scoped: seq<ScopedArtifact>, id: string, i: nat)
    requires i < |scoped| && scoped[i].artifact.id == id
    requires forall k :: 0 <= k < i ==> scoped[k].artifact.id != id
    ensures FirstWithId(scoped, id) == Some(scoped[i])
  {
    if i > 0 {
      FirstWithIdAt(scoped[1..], id, i - 1);
    }
  }

  lemma {:induction false} ReplaceStepAt(steps: seq<Step>, id: string, step: Step, i: nat)
    requires i < |steps| && steps[i].id == id && forall k :: 0 <= k < i ==> steps[k].id != id
    ensures ReplaceStep(steps, id, step) == steps[i := step]
  {
    if i > 0 {
      ReplaceStepAt(steps[1..], id, step, i - 1);
      assert steps[i := step] == [steps[0]] + steps[1..][i - 1 := step];
    }
  }

  method FindArtifactScope(s: State, id: string) returns (found: Option<ScopedArtifact>)
    ensures found == FindArtifact(s, id)
  {
    var scoped := ScopedArtifacts(s);
    for i := 0 to |scoped|
      invariant forall k :: 0 <= k < i ==> scoped[k].artifact.id != id
    {
      if scoped[i].artifact.id == id {
        FirstWithIdAt(scoped, id, i);
        return Some(scoped[i]);
      }
    }
    found := None;
  }

  method IdExists(s: State, id: string) returns (exists_: bool)
    ensures exists_ == ArtifactIdExists(s, id)
  {
    if id == "" {
      return false;
    }
    var found := FindArtifactScope(s, id);
    exists_ := found.Some?;
  }

  /** `ensureArtifactID` for an artifact without an id. */
  method EnsureArtifactId(s: State, draws: seq<string>) returns (r: Option<(string, seq<string>)>)
    ensures r == DrawId(s, draws)
  {
    for i := 0 to |draws|
      invariant DrawId(s, draws) == DrawId(s, draws[i..])
    {
      var taken := IdExists(s, ArtifactPrefix + draws[i]);
      assert draws[i..][1..] == draws[i + 1..];
      if !taken {
        return Some((ArtifactPrefix + draws[i], draws[i + 1..]));
      }
    }
    r := None;
  }

  /** The assignments of `update_metadata`: what is not given stays. */
  method WithMetadata(t: Task, m: Modification) returns (next: Task)
    ensures next == UpdatedTask(t, m)
  {
    hide TrimSpace;
    var title, description, objective := t.title, t.description, t.objective;
    if m.title != "" {
      title := TrimSpace(m.title);
    }
    if m.description != "" {
      description := TrimSpace(m.description);
    }
    if m.objective != "" {
      objective := TrimSpace(m.objective);
    }
    var criteria, inputs, outputs, labels := t.criteria, t.inputs, t.outputs, t.labels;
    if m.criteria != [] {
      criteria := m.criteria;
    }
    if m.inputs != [] {
      inputs := m.inputs;
    }
    if m.outputs != [] {
      outputs := m.outputs;
    }
    if m.labels != [] {
      labels := m.labels;
    }
    var priority := t.priority;
    if m.priority != "" {
      priority := m.priority;
    }
    var details := WithDetails(t.details, m.details);
    var metadata := MergeMetadata(t.metadata, m.metadata);
    next := t.(title := title, description := description, objective := objective, criteria := criteria,
               inputs := inputs, outputs := outputs, labels := labels, priority := priority, details := details, metadata := metadata);
  }

  method WithDetails(d: Details, given: Details) returns (next: Details)
    ensures next == UpdatedDetails(d, given)
  {
    next := d;
    if given.scope != [] {
      next := next.(scope := given.scope);
    }
    if given.constraints != [] {
      next := next.(constraints := given.constraints);
    }
    if given.assignee != "" {
      next := next.(assignee := given.assignee);
    }
    if given.owner != "" {
      next := next.(owner := given.owner);
    }
    if given.workspaceId != "" {
      next := next.(workspaceId := given.workspaceId);
    }
    if given.projectId != "" {
      next := next.(projectId := given.projectId);
    }
    if given.workflowRef != "" {
      next := next.(workflowRef := given.workflowRef);
    }
  }

  method MergeMetadata(base: map<string, string>, add: map<string, string>) returns (r: map<string, string>)
    ensures r == base + add
  {
    r := base;
    var rest := add;
    while rest != map[]
      invariant rest.Keys <= add.Keys && forall k :: k in rest ==> rest[k] == add[k]
      invariant r + rest == base + add
      decreases rest.Keys
    {
      var k :| k in rest;
      assert (r + rest)[k] == rest[k];
      var r', rest' := r[k := rest[k]], rest - {k};
      assert r' + rest' == r + rest;
      r, rest := r', rest';
    }
    assert r + map[] == r;
  }

  /** The task under modification, as `applyModification` sees it through its pointer. */
  class Draft {
    var state: State

    constructor (s: State)
      ensures state == s
    {
      state := s;
    }

    method Emit(ev: Event) returns (events: seq<Event>)
      modifies this
      ensures state == Apply(old(state), ev) && events == [ev]
    {
      state := Apply(state, ev);
      events := [ev];
    }

    method Revise(taskId: string, proposed: Task, reason: string, draws: seq<string>)
      returns (events: seq<Event>, failure: Option<Failure>)
      modifies this
      ensures Outcome(state, events, draws, failure)
              == TaskModification.Revise(taskId, proposed, reason, old(state), draws)
    {
      var next := proposed;
      events, failure := [], None;
      if next.id == "" {
        next := next.(id := taskId);
      }
      if next.id != taskId {
        return events, Some(TaskIdMismatch);
      }
      var ok := Validate(next);
      if !ok {
        return events, Some(TaskInvalid);
      }
      events := Emit(Revised(taskId, next, reason));
    }

    method ReplaceStepById(id: string, step: Step) returns (steps: seq<Step>, found: bool)
      ensures found <==> StepExists(state.task.steps, id)
      ensures found ==> steps == ReplaceStep(state.task.steps, id, step)
    {
      steps := state.task.steps;
      for i := 0 to |steps|
        invariant steps == state.task.steps
        invariant forall k :: 0 <= k < i ==> steps[k].id != id
      {
        if steps[i].id == id {
          ReplaceStepAt(steps, id, step, i);
          steps := steps[i := step];
          return steps, true;
        }
      }
      found := false;
    }

    method DropStepById(id: string) returns (steps: seq<Step>, found: bool)
      ensures found <==> StepExists(state.task.steps, id)
      ensures steps == DropStep(state.task.steps, id)
    {
      steps, found := [], false;
      var all := state.task.steps;
      for i := 0 to |all|
        invariant steps == DropStep(all[..i], id)
        invariant found <==> exists k :: 0 <= k < i && all[k].id == id
      {
        assert all[..i + 1][..i] == all[..i];
        if all[i].id == id {
          found := true;
        } else {
          steps := steps + [all[i]];
        }
      }
      assert all[..|all|] == all;
    }

    method EditTask(taskId: string, reason: string, m: Modification, draws: seq<string>)
      returns (events: seq<Event>, rest: seq<string>, failure: Option<Failure>)
      requires Edits(m.op)
      modifies this
      ensures Outcome(state, events, rest, failure) == Edit(taskId, reason, m, old(state), draws)
    {
      var next := state.task;
      events, rest, failure := [], draws, None;
      match m.op {
        case UpdateMetadata =>
          next := WithMetadata(next, m);
        case AddAcceptanceCriterion =>
          if Blank(m.criterion) {
            return events, rest, Some(CriterionRequired);
          }
          next := next.(criteria := next.criteria + [TrimSpace(m.criterion)]);
        case AddOutput =>
          if !HasContent(m.output) {
            return events, rest, Some(ArtifactContentRequired);
          }
          var output := m.output;
          if output.id == "" {
            if draws == [] {
              return events, rest, Some(NoMoreDraws);
            }
            output, rest := output.(id := ArtifactPrefix + draws[0]), draws[1..];
          }
          next := next.(outputs := next.outputs + [output]);
        case AddStep =>
          if Blank(m.step.id) {
            return events, rest, Some(StepIdRequired);
          }
          next := next.(steps := next.steps + [m.step]);
        case UpdateStep =>
          if m.stepId == "" {
            return events, rest, Some(StepIdRequired);
          }
          var step := if m.step.id == "" then m.step.(id := m.stepId) else m.step;
          var steps, found := ReplaceStepById(m.stepId, step);
          if !found {
            return events, rest, Some(StepNotFound);
          }
          next := next.(steps := steps);
        case RemoveStep =>
          if m.stepId == "" {
            return events, rest, Some(StepIdRequired);
          }
          if StepHasState(state, m.stepId) {
            return events, rest, Some(StepHasExecutionState);
          }
          var steps, found := DropStepById(m.stepId);
          if !found {
            return events, rest, Some(StepNotFound);
          }
          next := next.(steps := steps);
      }
      events, failure := Revise(taskId, next, reason, rest);
    }

    method SetStepStatusOp(taskId: string, reason: string, m: Modification, draws: seq<string>)
      returns (events: seq<Event>, failure: Option<Failure>)
      requires m.op.SetStepStatus? || m.op.ReopenStep?
      modifies this
      ensures Outcome(state, events, draws, failure) == StepStatusOp(taskId, reason, m, old(state), draws)
    {
      events, failure := [], None;
      if m.stepId == "" {
        return events, Some(StepIdRequired);
      }
      if !StepExists(state.task.steps, m.stepId) {
        return events, Some(StepNotFound);
      }
      if m.op.SetStepStatus? && !ValidStepStatus(m.stepStatus) {
        return events, Some(StepStatusInvalid);
      }
      var executionId := m.executionId;
      if executionId == "" {
        executionId := state.current;
      }
      if executionId == "" {
        executionId := Manual;
      }
      var previous := NoStepStatus;
      if executionId in state.executions {
        previous := StepOf(state.executions[executionId], m.stepId).status;
      }
      var status, output := m.stepStatus, m.stepOutput;
      if m.op.SetStepStatus? {
        if StepTerminal(previous) && ActiveStepStatus(status) {
          return events, Some(StepTerminalUseReopen);
        }
      } else {
        if !StepTerminal(previous) {
          return events, Some(StepNotTerminal);
        }
        if status.NoStepStatus? {
          status := Waiting;
        }
        if !ActiveStepStatus(status) {
          return events, Some(ReopenStepStatusInvalid);
        }
        output := "";
      }
      events := Emit(StepStatusChanged(taskId, executionId, m.stepId, previous, status, reason, output));
    }

    method SetStatusOp(taskId: string, reason: string, m: Modification, draws: seq<string>)
      returns (events: seq<Event>, failure: Option<Failure>)
      requires m.op.SetStatus? || m.op.Reopen?
      modifies this
      ensures Outcome(state, events, draws, failure) == StatusOp(taskId, reason, m, old(state), draws)
    {
      var current, status := state.task.status, m.status;
      events, failure := [], None;
      if m.op.SetStatus? {
        if !ValidStatus(status) {
          return events, Some(StatusInvalid);
        }
        if current == status {
          return;
        }
        if Terminal(current) && ActiveTaskStatus(status) {
          return events, Some(TaskTerminalUseReopen);
        }
        if current.Running? && (status.Ready? || status.Draft?) {
          return events, Some(TaskRunning);
        }
      } else {
        if !Terminal(current) {
          return events, Some(TaskNotTerminal);
        }
        if status.NoStatus? {
          status := Ready;
        }
        if !ActiveTaskStatus(status) {
          return events, Some(ReopenStatusInvalid);
        }
      }
      events := Emit(StatusChanged(taskId, current, status, reason));
    }

    /** The shared tail of `add_artifact` and of the artifact loop in `complete`. */
    method AddNewArtifact(taskId: string, executionId: string, stepId: string, a: Artifact, draws: seq<string>)
      returns (events: seq<Event>, rest: seq<string>, failure: Option<Failure>)
      modifies this
      ensures Outcome(state, events, rest, failure)
              == AddArtifactTo(taskId, executionId, stepId, a, old(state), draws)
    {
      events, rest, failure := [], draws, None;
      if !HasContent(a) {
        return events, rest, Some(ArtifactContentRequired);
      }
      var artifact := a;
      if artifact.id != "" {
        var taken := IdExists(state, artifact.id);
        if taken {
          return events, rest, Some(ArtifactExists);
        }
      } else {
        var drawn := EnsureArtifactId(state, draws);
        if drawn.None? {
          return events, rest, Some(NoMoreDraws);
        }
        artifact, rest := artifact.(id := drawn.value.0), drawn.value.1;
      }
      events := Emit(ArtifactAdded(taskId, executionId, stepId, artifact));
    }

    method ChangeArtifact(taskId: string, reason: string, m: Modification, draws: seq<string>)
      returns (events: seq<Event>, rest: seq<string>, failure: Option<Failure>)
      requires m.op.AddArtifact? || m.op.UpdateArtifactOp? || m.op.RemoveArtifactOp?
      modifies this
      ensures Outcome(state, events, rest, failure) == ArtifactOp(taskId, reason, m, old(state), draws)
    {
      events, rest, failure := [], draws, None;
      if m.op.AddArtifact? {
        if m.stepId != "" && !StepExists(state.task.steps, m.stepId) {
          return events, rest, Some(StepNotFound);
        }
        var executionId := NormalizedExecution(state, m.executionId, m.stepId);
        events, rest, failure := AddNewArtifact(taskId, executionId, m.stepId, m.artifact, draws);
        return;
      }
      if m.artifactId == "" {
        return events, rest, Some(ArtifactIdRequired);
      }
      var scoped := FindArtifactScope(state, m.artifactId);
      if scoped.None? {
        return events, rest, Some(ArtifactNotFound);
      }
      var ScopedArtifact(executionId, stepId, _) := scoped.value;
      if m.executionId != "" && m.executionId != executionId {
        return events, rest, Some(WrongExecution);
      }
      if m.stepId != "" && m.stepId != stepId {
        return events, rest, Some(WrongStep);
      }
      if m.op.RemoveArtifactOp? {
        events := Emit(ArtifactRemoved(taskId, executionId, stepId, m.artifactId, reason));
        return;
      }
      if !HasContent(m.artifact) {
        return events, rest, Some(ArtifactContentRequired);
      }
      var artifact := m.artifact;
      if artifact.id == "" {
        artifact := artifact.(id := m.artifactId);
      } else if artifact.id != m.artifactId {
        var taken := IdExists(state, artifact.id);
        if taken {
          return events, rest, Some(ArtifactExists);
        }
      }
      events := Emit(ArtifactUpdated(taskId, executionId, stepId, m.artifactId, artifact));
    }

    method CompleteTask(taskId: string, reason: string, m: Modification, draws: seq<string>)
      returns (events: seq<Event>, rest: seq<string>, failure: Option<Failure>)
      modifies this
      ensures Outcome(state, events, rest, failure) == CompleteOp(taskId, reason, m, old(state), draws)
    {
      var artifacts := ArtifactList(m);
      events, rest, failure := [], draws, None;
      for i := 0 to |artifacts|
        invariant Outcome(state, events, rest, None) == AddAll(taskId, artifacts[..i], old(state), draws)
      {
        var added;
        assert artifacts[..i + 1][..i] == artifacts[..i];
        added, rest, failure := AddNewArtifact(taskId, "", "", artifacts[i], rest);
        if failure.Some? {
          AddAllStops(taskId, artifacts, i, old(state), draws);
          return [], rest, failure;
        }
        events := events + added;
      }
      assert artifacts[..|artifacts|] == artifacts;
      var validation := ValidateState(state);
      var allowed := CompletionAllowed(validation, m.forceOverrides);
      if !allowed {
        return [], rest, Some(NotCompletable);
      }
      failure := None;
      if !state.task.status.Completed? {
        var last := Emit(StatusChanged(taskId, state.task.status, Completed, reason));
        events := events + last;
      }
    }

    /** `applyModification`. */
    method ApplyModification(taskId: string, batchReason: string, m: Modification, draws: seq<string>)
      returns (events: seq<Event>, rest: seq<string>, failure: Option<Failure>)
      modifies this
      ensures Outcome(state, events, rest, failure) == Modify(taskId, batchReason, m, old(state), draws)
    {
      var reason := FirstNonBlank(m.reason, batchReason);
      rest := draws;
      match m.op {
        case Unsupported(_) => events, failure := [], Some(UnsupportedOp);
        case SetStepStatus => events, failure := SetStepStatusOp(taskId, reason, m, draws);
        case ReopenStep => events, failure := SetStepStatusOp(taskId, reason, m, draws);
        case SetStatus => events, failure := SetStatusOp(taskId, reason, m, draws);
        case Reopen => events, failure := SetStatusOp(taskId, reason, m, draws);
        case AddArtifact => events, rest, failure := ChangeArtifact(taskId, reason, m, draws);
        case UpdateArtifactOp => events, rest, failure := ChangeArtifact(taskId, reason, m, draws);
        case RemoveArtifactOp => events, rest, failure := ChangeArtifact(taskId, reason, m, draws);
        case Complete => events, rest, failure := CompleteTask(taskId, reason, m, draws);
        case _ => events, rest, failure := EditTask(taskId, reason, m, draws);
      }
    }
  }

  /** Once an artifact cannot be added, the rest of the list changes nothing more. */
  lemma {:induction false} AddAllStops(taskId: string, artifacts: seq<Artifact>, i: nat, s: State, draws: seq<string>)
    requires i < |artifacts| && AddAll(taskId, artifacts[..i + 1], s, draws).failure.Some?
    ensures AddAll(taskId, artifacts, s, draws) == AddAll(taskId, artifacts[..i + 1], s, draws)
    decreases |artifacts|
  {
    if i + 1 < |artifacts| {
      var init := artifacts[..|artifacts| - 1];
      assert init[..i + 1] == artifacts[..i + 1];
      AddAllStops(taskId, init, i, s, draws);
    } else {
      assert artifacts[..i + 1] == artifacts;
    }
  }
}

/** The task stream with optimistic concurrency, and the two operations that retry on it. */
module TaskStore {
  import opened Wrappers
  import opened GoStrings
  import opened TaskTypes
  import opened TaskValidation
  import opened StepGraph
  import opened TaskProjection
  import opened TaskQueries
  import opened TaskEffects
  import opened TaskModification
  import opened TaskInvariants
  import opened TaskTheorems
  import opened TaskRequests
  import opened TaskOperations

  datatype Reply =
    | Appended | Unchanged | Rejected(failure: Failure)
    | EmptyRequest | IdRequired | NotFound | WrongTask | Conflict

  function Flatten(batches: seq<seq<Event>>): seq<Event> {
    if batches == [] then [] else Flatten(batches[..|batches| - 1]) + batches[|batches| - 1]
  }

  lemma FlattenSnoc(batches: seq<seq<Event>>, k: nat)
    requires k < |batches|
    ensures Flatten(batches[..k + 1]) == Flatten(batches[..k]) + batches[k]
  {
    assert batches[..k + 1][..k] == batches[..k];
  }

  class Stream {
    var log: seq<Event>

    constructor ()
      ensures log == []
    {
      log := [];
    }

    /** `ProjectWithSequence`: the state and the position of the last record. */
    method ProjectWithSequence() returns (state: State, sequence: nat)
      ensures state == Project(log) && sequence == |log|
    {
      state, sequence := EmptyState, 0;
      for i := 0 to |log|
        invariant state == Project(log[..i]) && sequence == i
      {
        state := Apply(state, log[i]);
        sequence := i + 1;
        assert log[..i + 1][..i] == log[..i];
      }
      assert log[..|log|] == log;
    }

    /** `AppendExpected`: all or nothing. */
    method AppendExpected(expected: nat, events: seq<Event>) returns (conflict: bool)
      modifies this
      ensures conflict <==> events != [] && |old(log)| != expected
      ensures log == if conflict then old(log) else old(log) + events
    {
      if events == [] {
        return false;
      }
      conflict := |log| != expected;
      if !conflict {
        log := log + events;
      }
    }

    /** `Create` writes only into an empty stream; the first two events make a sound task. */
    method Create(task: Task) returns (reply: Reply)
      requires task.id != ""
      modifies this
      ensures reply.Appended? <==> ValidTask(task) && old(log) == []
      ensures log == if reply.Appended? then [CreateRequested(task.id), Created(task.id, task)] else old(log)
    {
      var ok := Validate(task);
      if !ok {
        return Rejected(TaskInvalid);
      }
      var conflict := AppendExpected(0, [CreateRequested(task.id), Created(task.id, task)]);
      reply := if conflict then Conflict else Appended;
    }

    /** One attempt of `task_modify`; `foreign` is what others append between its load and its append. */
    method ModifyOnce(taskId: string, reason: string, items: seq<Modification>, foreign: seq<Event>, draws: seq<string>)
      returns (reply: Reply, rest: seq<string>)
      modifies this
      ensures AttemptResult(reply, taskId, ModifyRequest(reason, items), old(log), log, foreign, draws)
      ensures reply.Rejected? ==>
        ModifyAll(taskId, reason, items, Project(old(log)), draws).failure == Some(reply.failure)
    {
      hide ModifyAll;
      rest := draws;
      if Blank(taskId) {
        return IdRequired, rest;
      }
      var state, sequence := ProjectWithSequence();
      if state.task.id == "" {
        return NotFound, rest;
      }
      var failure, events;
      rest, failure, events := ApplyItems(taskId, reason, items, state, draws);
      if failure.Some? {
        return Rejected(failure.value), rest;
      }
      if events == [] {
        return Unchanged, rest;
      }
      log := log + foreign;
      var conflict := AppendExpected(sequence, events);
      reply := if conflict then Conflict else Appended;
    }

    /** `task_modify`: `attempts` counts the attempts that met a conflict. */
    method ModifyTask(taskId: string, reason: string, items: seq<Modification>,
                      foreign: seq<seq<Event>>, draws: seq<string>)
      returns (reply: Reply, attempts: nat, loadedDraws: seq<string>)
      requires |foreign| == Retries
      modifies this
      ensures RetryResult(reply, attempts, taskId, ModifyRequest(reason, items), old(log), log, foreign, loadedDraws)
      ensures reply.Rejected? ==>
        ModifyAll(taskId, reason, items, Project(old(log) + Flatten(foreign[..attempts])), loadedDraws).failure
        == Some(reply.failure)
    {
      hide ModifyAll;
      attempts, loadedDraws := 0, draws;
      if items == [] {
        assert foreign[..0] == [] && old(log) + [] == old(log);
        EmptyBatch(taskId, reason, Project(log), draws);
        return EmptyRequest, attempts, loadedDraws;
      }
      var rest := draws;
      while attempts < Retries
        invariant attempts <= Retries
        invariant forall k :: 0 <= k < attempts ==> foreign[k] != []
        invariant log == old(log) + Flatten(foreign[..attempts])
      {
        loadedDraws := rest;
        FlattenSnoc(foreign, attempts);
        reply, rest := ModifyOnce(taskId, reason, items, foreign[attempts], loadedDraws);
        if !reply.Conflict? {
          return;
        }
        attempts := attempts + 1;
      }
      reply := Conflict;
    }

    /** One attempt of `recordTaskRunWatcher`. */
    method WatchOnce(taskId: string, thread: string, branch: string, run: string, foreign: seq<Event>)
      returns (reply: Reply)
      requires taskId != "" && thread != ""
      modifies this
      ensures AttemptResult(reply, taskId, WatchRequest(thread, branch, run), old(log), log, foreign, [])
    {
      var state, sequence := ProjectWithSequence();
      var task := state.task;
      if task.id == "" {
        return NotFound;
      }
      if task.id != taskId {
        return WrongTask;
      }
      var metadata, changed := Set(task.metadata, WatchThread, thread, false);
      if branch != "" {
        metadata, changed := Set(metadata, WatchBranch, branch, changed);
      }
      metadata, changed := Set(metadata, WatchRun, run, changed);
      WatchedChanges(task.metadata, metadata, WatchRequest(thread, branch, run));
      if !changed {
        return Unchanged;
      }
      log := log + foreign;
      var conflict := AppendExpected(sequence, [Revised(taskId, task.(metadata := metadata), WatchReason)]);
      reply := if conflict then Conflict else Appended;
    }

    /** `recordTaskRunWatcher`, with the same interference. */
    method RecordWatcher(taskId: string, thread: string, branch: string, run: string, foreign: seq<seq<Event>>)
      returns (reply: Reply, attempts: nat)
      requires |foreign| == Retries
      modifies this
      ensures taskId == "" || thread == "" ==> reply.Unchanged? && log == old(log)
      ensures taskId != "" && thread != "" ==>
        RetryResult(reply, attempts, taskId, WatchRequest(thread, branch, run), old(log), log, foreign, [])
    {
      attempts := 0;
      if taskId == "" || thread == "" {
        return Unchanged, attempts;
      }
      while attempts < Retries
        invariant attempts <= Retries
        invariant forall k :: 0 <= k < attempts ==> foreign[k] != []
        invariant log == old(log) + Flatten(foreign[..attempts])
      {
        FlattenSnoc(foreign, attempts);
        reply := WatchOnce(taskId, thread, branch, run, foreign[attempts]);
        if !reply.Conflict? {
          return;
        }
        attempts := attempts + 1;
      }
      reply := Conflict;
    }
  }

  lemma EmptyBatch(taskId: string, reason: string, s: State, draws: seq<string>)
    ensures Batch(taskId, ModifyRequest(reason, []), s, draws) == None
  {
  }

  /** A conflict happens exactly when others appended; success appends the batch of the loaded state. */
  ghost predicate AttemptResult(reply: Reply, taskId: string, r: Request, before: seq<Event>, after: seq<Event>,
                                foreign: seq<Event>, draws: seq<string>) {
    var batch := Batch(taskId, r, Project(before), draws);
    if reply.Appended? then foreign == [] && batch.Some? && after == before + batch.value
    else if reply.Conflict? then foreign != [] && batch.Some? && after == before + foreign
    else after == before && batch.None?
  }

  /**
   * After `attempts` conflicts the request is decided on the log that those conflicts left; it gives up
   * after sixteen of them, and then the log holds only what others appended.
   */
  ghost predicate RetryResult(reply: Reply, attempts: nat, taskId: string, r: Request,
                              before: seq<Event>, after: seq<Event>, foreign: seq<seq<Event>>, draws: seq<string>)
    requires |foreign| == Retries
  {
    && attempts <= 16
    && (reply.Conflict? <==> attempts == 16)
    && (forall k :: 0 <= k < attempts ==> foreign[k] != [])
    && var loaded := before + Flatten(foreign[..attempts]);
       if reply.Conflict? then after == loaded
       else AttemptResult(reply, taskId, r, loaded, after, foreign[attempts], draws)
  }

  /** The inner `set`: blank values and values already there change nothing. */
  method Set(metadata: map<string, string>, key: string, value: string, changedBefore: bool)
    returns (r: map<string, string>, changed: bool)
    ensures r == Put(metadata, key, value)
    ensures changed <==> changedBefore || r != metadata
  {
    r, changed := metadata, changedBefore;
    if value == "" || (key in metadata && metadata[key] == value) {
      return;
    }
    r, changed := metadata[key := value], true;
    assert key in r && r[key] == value;
  }

  /** The item loop of `modifyTask`. */
  method ApplyItems(taskId: string, reason: string, items: seq<Modification>, s: State, draws: seq<string>)
    returns (rest: seq<string>, failure: Option<Failure>, events: seq<Event>)
    ensures var o := ModifyAll(taskId, reason, items, s, draws);
      && failure == o.failure
      && (failure.None? ==> events == o.events && rest == o.draws)
  {
    var draft := new Draft(s);
    rest, failure, events := draws, None, [];
    for i := 0 to |items|
      invariant Outcome(draft.state, events, rest, None) == ModifyAll(taskId, reason, items[..i], s, draws)
    {
      assert items[..i + 1][..i] == items[..i];
      var more;
      more, rest, failure := draft.ApplyModification(taskId, reason, items[i], rest);
      if failure.Some? {
        FirstFailureStops(taskId, reason, items, i, s, draws);
        return;
      }
      events := events + more;
    }
    assert items[..|items|] == items;
    failure := None;
  }

  lemma {:induction false} FirstFailureStops(taskId: string, reason: string, items: seq<Modification>, i: nat,
                                             s: State, draws: seq<string>)
    requires i < |items| && ModifyAll(taskId, reason, items[..i + 1], s, draws).failure.Some?
    ensures ModifyAll(taskId, reason, items, s, draws) == ModifyAll(taskId, reason, items[..i + 1], s, draws)
    decreases |items|
  {
    if i + 1 < |items| {
      var init := items[..|items| - 1];
      assert init[..i + 1] == items[..i + 1];
      FirstFailureStops(taskId, reason, init, i, s, draws);
    } else {
      assert items[..i + 1] == items;
    }
  }

  /** The three assignments change the metadata exactly when one of them does: the keys are different. */
  lemma WatchedChanges(before: map<string, string>, after: map<string, string>, r: Request)
    requires r.WatchRequest? && after == Watched(before, r)
    ensures after == before <==>
      && Put(before, WatchThread, r.thread) == before
      && Put(Put(before, WatchThread, r.thread), WatchBranch, r.branch) == Put(before, WatchThread, r.thread)
      && after == Put(Put(before, WatchThread, r.thread), WatchBranch, r.branch)
  {
    var one := Put(before, WatchThread, r.thread);
    var two := Put(one, WatchBranch, r.branch);
    assert WatchThread != WatchBranch && WatchThread != WatchRun && WatchBranch != WatchRun by {
      assert WatchThread[6] == 't' && WatchBranch[6] == 'b' && WatchRun[6] == 'r';
    }
    if after == before {
      assert r.thread != "" ==> WatchThread in after && after[WatchThread] == r.thread;
      assert r.branch != "" ==> WatchBranch in after && after[WatchBranch] == r.branch;
      assert one == before;
      assert two == one;
    }
  }

  /** A freshly created task is sound, so every concurrent run that starts from it is. */
  lemma CreatedTaskSound(task: Task)
    requires ValidTask(task) && task.id != "" && ValidStatus(task.status) && task.artifacts == []
    ensures Sound(Project([CreateRequested(task.id), Created(task.id, task)]), task.id)
  {
    var log := [CreateRequested(task.id), Created(task.id, task)];
    assert log[..1] == [CreateRequested(task.id)] && log[..1][..0] == [];
    assert Project(log[..1]) == EmptyState by { assert Fold(EmptyState, []) == EmptyState; }
    var s := Project(log);
    assert s == EmptyState.(task := task);
    assert forall e, x :: ArtifactsAt(s, e, x) == [];
  }
}
