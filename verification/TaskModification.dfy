/** Artifacts by scope, and the completion checks (`scopedArtifacts`, `validateState`). */
module TaskQueries {
  import opened Wrappers
  import opened GoStrings
  import opened Sorting
  import opened TaskTypes
  import opened TaskProjection

  datatype ScopedArtifact = ScopedArtifact(executionId: string, stepId: string, artifact: Artifact)

  function Label(executionId: string, stepId: string, artifacts: seq<Artifact>): (r: seq<ScopedArtifact>)
    ensures |r| == |artifacts|
    ensures forall i :: 0 <= i < |r| ==> r[i] == ScopedArtifact(executionId, stepId, artifacts[i])
  {
    seq(|artifacts|, i requires 0 <= i < |artifacts| => ScopedArtifact(executionId, stepId, artifacts[i]))
  }

  function StepScopes(executionId: string, steps: map<string, StepExecution>, ids: seq<string>): seq<ScopedArtifact>
    requires forall x :: x in ids ==> x in steps
  {
    if ids == [] then []
    else StepScopes(executionId, steps, ids[..|ids| - 1])
         + Label(executionId, ids[|ids| - 1], steps[ids[|ids| - 1]].artifacts)
  }

  ghost function ExecutionScope(id: string, exec: Execution): seq<ScopedArtifact> {
    Label(id, "", exec.artifacts) + StepScopes(id, exec.steps, SortedKeys(exec.steps.Keys))
  }

  ghost function ExecutionScopes(executions: map<string, Execution>, ids: seq<string>): seq<ScopedArtifact>
    requires forall x :: x in ids ==> x in executions
  {
    if ids == [] then []
    else ExecutionScopes(executions, ids[..|ids| - 1])
         + ExecutionScope(ids[|ids| - 1], executions[ids[|ids| - 1]])
  }

  /** All artifacts: the task's, then per execution its own and its steps', ids in increasing order. */
  ghost function Scoped(s: State): seq<ScopedArtifact> {
    Label("", "", s.task.artifacts) + ExecutionScopes(s.executions, SortedKeys(s.executions.Keys))
  }

  lemma ExecutionScopesNext(executions: map<string, Execution>, ids: seq<string>, i: nat)
    requires i < |ids| && forall x :: x in ids ==> x in executions
    ensures ExecutionScopes(executions, ids[..i + 1])
            == ExecutionScopes(executions, ids[..i]) + ExecutionScope(ids[i], executions[ids[i]])
  {
    assert ids[..i + 1][..i] == ids[..i];
  }

  lemma StepScopesNext(e: string, steps: map<string, StepExecution>, ids: seq<string>, i: nat)
    requires i < |ids| && forall x :: x in ids ==> x in steps
    ensures StepScopes(e, steps, ids[..i + 1])
            == StepScopes(e, steps, ids[..i]) + Label(e, ids[i], steps[ids[i]].artifacts)
  {
    hide Label;
    assert ids[..i + 1][..i] == ids[..i];
  }

  method ExecutionArtifacts(id: string, exec: Execution) returns (out: seq<ScopedArtifact>)
    ensures out == ExecutionScope(id, exec)
  {
    hide SortedKeys, Label;
    var steps := [];
    var stepIds := SortKeys(exec.steps.Keys);
    for j := 0 to |stepIds|
      invariant steps == StepScopes(id, exec.steps, stepIds[..j])
    {
      StepScopesNext(id, exec.steps, stepIds, j);
      steps := steps + Label(id, stepIds[j], exec.steps[stepIds[j]].artifacts);
    }
    assert stepIds[..|stepIds|] == stepIds;
    out := Label(id, "", exec.artifacts) + steps;
  }

  method ScopedArtifacts(s: State) returns (out: seq<ScopedArtifact>)
    ensures out == Scoped(s)
  {
    var execIds := SortKeys(s.executions.Keys);
    var produced := [];
    for i := 0 to |execIds|
      invariant produced == ExecutionScopes(s.executions, execIds[..i])
    {
      var more := ExecutionArtifacts(execIds[i], s.executions[execIds[i]]);
      ExecutionScopesNext(s.executions, execIds, i);
      produced := produced + more;
    }
    assert execIds[..|execIds|] == execIds;
    out := Label("", "", s.task.artifacts) + produced;
  }

  function FirstWithId(scoped: seq<ScopedArtifact>, id: string): (r: Option<ScopedArtifact>)
    ensures r.None? <==> forall i :: 0 <= i < |scoped| ==> scoped[i].artifact.id != id
    ensures r.Some? ==> r.value in scoped && r.value.artifact.id == id
  {
    if scoped == [] then None
    else if scoped[0].artifact.id == id then Some(scoped[0])
    else FirstWithId(scoped[1..], id)
  }

  ghost function FindArtifact(s: State, id: string): Option<ScopedArtifact> {
    FirstWithId(Scoped(s), id)
  }

  ghost predicate ArtifactIdExists(s: State, id: string) {
    id != "" && FindArtifact(s, id).Some?
  }

  function StepStatusOf(s: State, executionId: string, stepId: string): StepStatus {
    if executionId in s.executions then StepOf(s.executions[executionId], stepId).status else NoStepStatus
  }

  predicate HasBlockedDependency(step: Step, exec: Execution) {
    exists d <- step.dependsOn ::
      var status := StepOf(exec, d).status; status.StepFailed? || status.StepCancelled? || status.Skipped?
  }

  predicate StepSettled(step: Step, exec: Execution) {
    var status := StepOf(exec, step.id).status;
    StepTerminal(status) || ((status.Waiting? || status.NoStepStatus?) && HasBlockedDependency(step, exec))
  }

  predicate AllStepsSettled(steps: seq<Step>, exec: Execution) {
    forall i :: 0 <= i < |steps| ==> StepSettled(steps[i], exec)
  }

  /** `AllStepsTerminal`: only the current execution is looked at. */
  predicate AllStepsTerminal(s: State) {
    && s.current in s.executions
    && s.task.steps != []
    && AllStepsSettled(s.task.steps, s.executions[s.current])
  }

  /** `strings.EqualFold`; folding is modelled on ASCII letters. */
  function Fold1(c: char): char {
    if 'A' <= c <= 'Z' then c - 'A' + 'a' else c
  }

  predicate EqualFold(a: string, b: string) {
    |a| == |b| && forall i :: 0 <= i < |a| ==> Fold1(a[i]) == Fold1(b[i])
  }

  predicate Satisfies(required: Artifact, produced: Artifact) {
    || (required.id != "" && produced.id == required.id)
    || (required.name != "" && EqualFold(produced.name, required.name))
  }

  predicate Satisfied(required: Artifact, produced: seq<ScopedArtifact>) {
    exists i :: 0 <= i < |produced| && Satisfies(required, produced[i].artifact)
  }

  datatype Check = Check(code: string, ok: bool, target: string)
  datatype Validation = Validation(checks: seq<Check>, completable: bool)

  function OutputChecks(outputs: seq<Artifact>, produced: seq<ScopedArtifact>): seq<Check> {
    if outputs == [] then []
    else
      var last := outputs[|outputs| - 1];
      OutputChecks(outputs[..|outputs| - 1], produced)
      + if last.required then [Check("required_output", Satisfied(last, produced), last.id)] else []
  }

  predicate AllOk(checks: seq<Check>) {
    forall i :: 0 <= i < |checks| ==> checks[i].ok
  }

  lemma AllOkSnoc(checks: seq<Check>, c: Check)
    ensures AllOk(checks + [c]) <==> AllOk(checks) && c.ok
  {
    assert (checks + [c])[|checks|] == c;
    assert forall i :: 0 <= i < |checks| ==> (checks + [c])[i] == checks[i];
  }

  ghost function ValidationOf(s: State): Validation {
    var outputs := OutputChecks(s.task.outputs, Scoped(s));
    var steps := if s.task.steps == [] then [] else [Check("steps_terminal", AllStepsTerminal(s), "")];
    var criteria := if s.task.criteria == [] then [] else [Check("acceptance_manual", true, "")];
    var checks := outputs + steps + criteria;
    Validation(if checks == [] then [Check("task_shape", true, "")] else checks, AllOk(outputs + steps))
  }

  method ValidateState(s: State) returns (v: Validation)
    ensures v == ValidationOf(s)
  {
    var produced := ScopedArtifacts(s);
    var checks: seq<Check> := [];
    var completable := true;
    for i := 0 to |s.task.outputs|
      invariant checks == OutputChecks(s.task.outputs[..i], produced)
      invariant completable == AllOk(checks)
    {
      var output := s.task.outputs[i];
      assert s.task.outputs[..i + 1][..i] == s.task.outputs[..i];
      if output.required {
        var ok := Satisfied(output, produced);
        if !ok {
          completable := false;
        }
        AllOkSnoc(checks, Check("required_output", ok, output.id));
        checks := checks + [Check("required_output", ok, output.id)];
      }
    }
    assert s.task.outputs[..|s.task.outputs|] == s.task.outputs;
    if |s.task.steps| > 0 {
      var ok := AllStepsTerminal(s);
      if !ok {
        completable := false;
      }
      AllOkSnoc(checks, Check("steps_terminal", ok, ""));
      checks := checks + [Check("steps_terminal", ok, "")];
    }
    assert checks == OutputChecks(s.task.outputs, produced)
                     + if s.task.steps == [] then [] else [Check("steps_terminal", AllStepsTerminal(s), "")];
    if |s.task.criteria| > 0 {
      checks := checks + [Check("acceptance_manual", true, "")];
    }
    if |checks| == 0 {
      checks := [Check("task_shape", true, "")];
    }
    v := Validation(checks, completable);
  }

  /** `completionAllowed`. */
  method CompletionAllowed(v: Validation, overrides: seq<string>) returns (allowed: bool)
    ensures allowed <==> Allowed(v, overrides)
  {
    if v.completable {
      return true;
    }
    var codes := {};
    for i := 0 to |overrides|
      invariant codes == TrimmedCodes(overrides[..i])
    {
      codes := codes + {TrimSpace(overrides[i])};
      assert overrides[..i + 1][..i] == overrides[..i];
    }
    assert overrides[..|overrides|] == overrides;
    for i := 0 to |v.checks|
      invariant forall k :: 0 <= k < i ==> v.checks[k].ok || v.checks[k].code in codes
    {
      if !v.checks[i].ok && v.checks[i].code !in codes {
        return false;
      }
    }
    return |codes| > 0;
  }

  function TrimmedCodes(overrides: seq<string>): set<string> {
    if overrides == [] then {}
    else TrimmedCodes(overrides[..|overrides| - 1]) + {TrimSpace(overrides[|overrides| - 1])}
  }

  predicate Overridden(checks: seq<Check>, overrides: seq<string>) {
    forall i :: 0 <= i < |checks| ==> checks[i].ok || checks[i].code in TrimmedCodes(overrides)
  }

  predicate Allowed(v: Validation, overrides: seq<string>) {
    v.completable || (Overridden(v.checks, overrides) && TrimmedCodes(overrides) != {})
  }

  /** On validator output, completion is allowed exactly when every failing check is overridden. */
  lemma AllowedIffFailingOverridden(s: State, overrides: seq<string>)
    ensures Allowed(ValidationOf(s), overrides) <==> Overridden(ValidationOf(s).checks, overrides)
    ensures Allowed(ValidationOf(s), []) <==> ValidationOf(s).completable
  {
    var v := ValidationOf(s);
    var outputs := OutputChecks(s.task.outputs, Scoped(s));
    var steps: seq<Check> := if s.task.steps == [] then [] else [Check("steps_terminal", AllStepsTerminal(s), "")];
    if v.completable {
      forall i | 0 <= i < |v.checks| ensures v.checks[i].ok {
        if i < |outputs + steps| && outputs + steps != [] {
          assert v.checks[i] == (outputs + steps)[i];
        }
      }
    } else {
      var i :| 0 <= i < |outputs + steps| && !(outputs + steps)[i].ok;
      assert v.checks[i] == (outputs + steps)[i];
    }
  }
}

/** The task_modify operations: what one item, and a batch of items, does to a task. */
module TaskModification {
  import opened Wrappers
  import opened GoStrings
  import opened TaskTypes
  import opened TaskValidation
  import opened TaskProjection
  import opened TaskQueries

  datatype Op =
    | UpdateMetadata | AddAcceptanceCriterion | AddOutput | AddStep | UpdateStep | RemoveStep
    | SetStepStatus | AddArtifact | UpdateArtifactOp | RemoveArtifactOp
    | SetStatus | Reopen | ReopenStep | Complete | Unsupported(name: string)

  datatype Modification = Modification(
    op: Op, reason: string,
    title: string, description: string, objective: string, criteria: seq<string>,
    inputs: seq<Artifact>, outputs: seq<Artifact>, labels: seq<string>, priority: string,
    details: Details, metadata: map<string, string>,
    criterion: string, output: Artifact, step: Step, stepId: string,
    stepStatus: StepStatus, stepOutput: string, executionId: string,
    artifactId: string, artifact: Artifact, artifacts: seq<Artifact>,
    status: Status, forceOverrides: seq<string>)

  datatype Failure =
    | CriterionRequired | ArtifactContentRequired | StepIdRequired | StepNotFound | StepHasExecutionState
    | StepStatusInvalid | StepTerminalUseReopen | StepNotTerminal | ReopenStepStatusInvalid
    | ArtifactExists | ArtifactIdRequired | ArtifactNotFound | WrongExecution | WrongStep
    | StatusInvalid | TaskTerminalUseReopen | TaskRunning | TaskNotTerminal | ReopenStatusInvalid
    | NotCompletable | TaskIdMismatch | TaskInvalid | UnsupportedOp | NoMoreDraws

  /** `draws` are the random ids still to be drawn; a failure may leave a partly changed state behind. */
  datatype Outcome = Outcome(state: State, events: seq<Event>, draws: seq<string>, failure: Option<Failure>)

  const ArtifactPrefix := "artifact_"

  function FirstNonBlank(a: string, b: string): string {
    if !Blank(a) then a else if !Blank(b) then b else ""
  }

  predicate HasContent(a: Artifact) {
    !(Blank(a.name) && Blank(a.description) && Blank(a.ref))
  }

  function Reject(s: State, draws: seq<string>, f: Failure): Outcome {
    Outcome(s, [], draws, Some(f))
  }

  function Emit(s: State, draws: seq<string>, e: Event): Outcome {
    Outcome(Apply(s, e), [e], draws, None)
  }

  /** A rejection emits nothing; otherwise at most one event, and the new state is its application. */
  ghost predicate OneEvent(s: State, o: Outcome) {
    if o.failure.Some? then o.events == []
    else if o.events == [] then o.state == s
    else |o.events| == 1 && o.state == Apply(s, o.events[0])
  }

  ghost function Revise(taskId: string, next: Task, reason: string, s: State, draws: seq<string>): (o: Outcome)
    ensures OneEvent(s, o)
  {
    var next' := next.(id := FirstTaskId(next.id, taskId));
    if next'.id != taskId then Reject(s, draws, TaskIdMismatch)
    else if !ValidTask(next') then Reject(s, draws, TaskInvalid)
    else Emit(s, draws, Revised(taskId, next', reason))
  }

  function UpdatedDetails(d: Details, given: Details): Details {
    Details(
      if given.scope != [] then given.scope else d.scope,
      if given.constraints != [] then given.constraints else d.constraints,
      if given.assignee != "" then given.assignee else d.assignee,
      if given.owner != "" then given.owner else d.owner,
      if given.workspaceId != "" then given.workspaceId else d.workspaceId,
      if given.projectId != "" then given.projectId else d.projectId,
      if given.workflowRef != "" then given.workflowRef else d.workflowRef)
  }

  function UpdatedTask(t: Task, m: Modification): Task {
    t.(title := if m.title != "" then TrimSpace(m.title) else t.title,
       description := if m.description != "" then TrimSpace(m.description) else t.description,
       objective := if m.objective != "" then TrimSpace(m.objective) else t.objective,
       criteria := if m.criteria != [] then m.criteria else t.criteria,
       inputs := if m.inputs != [] then m.inputs else t.inputs,
       outputs := if m.outputs != [] then m.outputs else t.outputs,
       labels := if m.labels != [] then m.labels else t.labels,
       priority := if m.priority != "" then m.priority else t.priority,
       details := UpdatedDetails(t.details, m.details),
       metadata := t.metadata + m.metadata)
  }

  /** The loop of `update_step`: the first step with the id is replaced. */
  function ReplaceStep(steps: seq<Step>, id: string, step: Step): (r: seq<Step>)
    ensures |r| == |steps|
  {
    if steps == [] then []
    else if steps[0].id == id then [step] + steps[1..]
    else [steps[0]] + ReplaceStep(steps[1..], id, step)
  }

  function DropStep(steps: seq<Step>, id: string): seq<Step> {
    if steps == [] then []
    else DropStep(steps[..|steps| - 1], id)
         + if steps[|steps| - 1].id == id then [] else [steps[|steps| - 1]]
  }

  predicate StepHasState(s: State, id: string) {
    exists e :: e in s.executions && id in s.executions[e].steps
  }

  predicate Edits(op: Op) {
    op.UpdateMetadata? || op.AddAcceptanceCriterion? || op.AddOutput? || op.AddStep? || op.UpdateStep? || op.RemoveStep?
  }

  /** The task an edit proposes: never another id, other artifacts, or another status. */
  function EditedTask(m: Modification, s: State, draws: seq<string>): (r: Result<(Task, seq<string>), Failure>)
    requires Edits(m.op)
    ensures r.Ok? ==> var next := r.value.0;
      next.id == s.task.id && next.artifacts == s.task.artifacts && next.status == s.task.status
  {
    var t := s.task;
    match m.op
    case UpdateMetadata => Ok((UpdatedTask(t, m), draws))
    case AddAcceptanceCriterion =>
      if Blank(m.criterion) then Err(CriterionRequired)
      else Ok((t.(criteria := t.criteria + [TrimSpace(m.criterion)]), draws))
    case AddOutput =>
      if !HasContent(m.output) then Err(ArtifactContentRequired)
      else if m.output.id != "" then Ok((t.(outputs := t.outputs + [m.output]), draws))
      else if draws == [] then Err(NoMoreDraws)
      else Ok((t.(outputs := t.outputs + [m.output.(id := ArtifactPrefix + draws[0])]), draws[1..]))
    case AddStep =>
      if Blank(m.step.id) then Err(StepIdRequired) else Ok((t.(steps := t.steps + [m.step]), draws))
    case UpdateStep =>
      if m.stepId == "" then Err(StepIdRequired)
      else if !StepExists(t.steps, m.stepId) then Err(StepNotFound)
      else
        var step := if m.step.id == "" then m.step.(id := m.stepId) else m.step;
        Ok((t.(steps := ReplaceStep(t.steps, m.stepId, step)), draws))
    case RemoveStep =>
      if m.stepId == "" then Err(StepIdRequired)
      else if StepHasState(s, m.stepId) then Err(StepHasExecutionState)
      else if !StepExists(t.steps, m.stepId) then Err(StepNotFound)
      else Ok((t.(steps := DropStep(t.steps, m.stepId)), draws))
  }

  /** The operations that replace the task. */
  ghost function Edit(taskId: string, reason: string, m: Modification, s: State, draws: seq<string>): (o: Outcome)
    requires Edits(m.op)
    ensures OneEvent(s, o)
    ensures o.failure.None? ==> EditedTask(m, s, draws).Ok?
    ensures o.failure.None? ==>
      var next := EditedTask(m, s, draws).value.0;
      o.events == [Revised(taskId, next.(id := FirstTaskId(next.id, taskId)), reason)]
  {
    match EditedTask(m, s, draws)
    case Err(f) => Reject(s, draws, f)
    case Ok((next, rest)) => Revise(taskId, next, reason, s, rest)
  }

  function DefaultExecution(s: State, executionId: string): string {
    if executionId != "" then executionId else if s.current != "" then s.current else Manual
  }

  /** `normalizeArtifactScope`: only a step scope gets a default execution. */
  function NormalizedExecution(s: State, executionId: string, stepId: string): string {
    if stepId == "" then executionId else DefaultExecution(s, executionId)
  }

  ghost function StepStatusOp(taskId: string, reason: string, m: Modification, s: State, draws: seq<string>): (o: Outcome)
    requires m.op.SetStepStatus? || m.op.ReopenStep?
    ensures OneEvent(s, o)
  {
    var executionId := DefaultExecution(s, m.executionId);
    var previous := StepStatusOf(s, executionId, m.stepId);
    if m.stepId == "" then Reject(s, draws, StepIdRequired)
    else if !StepExists(s.task.steps, m.stepId) then Reject(s, draws, StepNotFound)
    else if m.op.SetStepStatus? then
      if !ValidStepStatus(m.stepStatus) then Reject(s, draws, StepStatusInvalid)
      else if StepTerminal(previous) && ActiveStepStatus(m.stepStatus) then Reject(s, draws, StepTerminalUseReopen)
      else Emit(s, draws, StepStatusChanged(taskId, executionId, m.stepId, previous, m.stepStatus, reason, m.stepOutput))
    else
      var status := if m.stepStatus.NoStepStatus? then Waiting else m.stepStatus;
      if !StepTerminal(previous) then Reject(s, draws, StepNotTerminal)
      else if !ActiveStepStatus(status) then Reject(s, draws, ReopenStepStatusInvalid)
      else Emit(s, draws, StepStatusChanged(taskId, executionId, m.stepId, previous, status, reason, ""))
  }

  ghost function StatusOp(taskId: string, reason: string, m: Modification, s: State, draws: seq<string>): (o: Outcome)
    requires m.op.SetStatus? || m.op.Reopen?
    ensures OneEvent(s, o)
  {
    var status := s.task.status;
    if m.op.SetStatus? then
      if !ValidStatus(m.status) then Reject(s, draws, StatusInvalid)
      else if status == m.status then Outcome(s, [], draws, None)
      else if Terminal(status) && ActiveTaskStatus(m.status) then Reject(s, draws, TaskTerminalUseReopen)
      else if status.Running? && (m.status.Ready? || m.status.Draft?) then Reject(s, draws, TaskRunning)
      else Emit(s, draws, StatusChanged(taskId, status, m.status, reason))
    else
      var next := if m.status.NoStatus? then Ready else m.status;
      if !Terminal(status) then Reject(s, draws, TaskNotTerminal)
      else if !ActiveTaskStatus(next) then Reject(s, draws, ReopenStatusInvalid)
      else Emit(s, draws, StatusChanged(taskId, status, next, reason))
  }

  /** `ensureArtifactID`: draw until the id is not in use; None when the draws run out first. */
  ghost function DrawId(s: State, draws: seq<string>): (r: Option<(string, seq<string>)>)
    ensures r.Some? ==> r.value.0 != "" && !ArtifactIdExists(s, r.value.0)
  {
    if draws == [] then None
    else if ArtifactIdExists(s, ArtifactPrefix + draws[0]) then DrawId(s, draws[1..])
    else Some((ArtifactPrefix + draws[0], draws[1..]))
  }

  /** The checks and the id shared by `add_artifact` and `complete`. */
  ghost function NewArtifact(a: Artifact, s: State, draws: seq<string>): Result<(Artifact, seq<string>), Failure> {
    if !HasContent(a) then Err(ArtifactContentRequired)
    else if a.id != "" then
      if ArtifactIdExists(s, a.id) then Err(ArtifactExists) else Ok((a, draws))
    else
      match DrawId(s, draws)
      case None => Err(NoMoreDraws)
      case Some((id, rest)) => Ok((a.(id := id), rest))
  }

  ghost function AddArtifactTo(taskId: string, executionId: string, stepId: string, a: Artifact,
                               s: State, draws: seq<string>): (o: Outcome)
    ensures OneEvent(s, o)
  {
    match NewArtifact(a, s, draws)
    case Err(f) => Reject(s, draws, f)
    case Ok((artifact, rest)) => Emit(s, rest, ArtifactAdded(taskId, executionId, stepId, artifact))
  }

  ghost function ArtifactOp(taskId: string, reason: string, m: Modification, s: State, draws: seq<string>): (o: Outcome)
    requires m.op.AddArtifact? || m.op.UpdateArtifactOp? || m.op.RemoveArtifactOp?
    ensures OneEvent(s, o)
  {
    if m.op.AddArtifact? then
      if m.stepId != "" && !StepExists(s.task.steps, m.stepId) then Reject(s, draws, StepNotFound)
      else AddArtifactTo(taskId, NormalizedExecution(s, m.executionId, m.stepId), m.stepId, m.artifact, s, draws)
    else if m.artifactId == "" then Reject(s, draws, ArtifactIdRequired)
    else
      match FindArtifact(s, m.artifactId)
      case None => Reject(s, draws, ArtifactNotFound)
      case Some(ScopedArtifact(executionId, stepId, _)) =>
        if m.executionId != "" && m.executionId != executionId then Reject(s, draws, WrongExecution)
        else if m.stepId != "" && m.stepId != stepId then Reject(s, draws, WrongStep)
        else if m.op.RemoveArtifactOp? then
          Emit(s, draws, ArtifactRemoved(taskId, executionId, stepId, m.artifactId, reason))
        else if !HasContent(m.artifact) then Reject(s, draws, ArtifactContentRequired)
        else if m.artifact.id == "" then
          Emit(s, draws, ArtifactUpdated(taskId, executionId, stepId, m.artifactId, m.artifact.(id := m.artifactId)))
        else if m.artifact.id != m.artifactId && ArtifactIdExists(s, m.artifact.id) then
          Reject(s, draws, ArtifactExists)
        else Emit(s, draws, ArtifactUpdated(taskId, executionId, stepId, m.artifactId, m.artifact))
  }

  function ArtifactList(m: Modification): seq<Artifact> {
    if m.artifacts != [] then m.artifacts
    else if m.outputs != [] then m.outputs
    else if m.artifact.name != "" || m.artifact.description != "" || m.artifact.ref != "" || m.artifact.id != ""
    then [m.artifact]
    else []
  }

  /** The artifact loop of `complete`; it stops at the first artifact it cannot add. */
  ghost function AddAll(taskId: string, artifacts: seq<Artifact>, s: State, draws: seq<string>): Outcome {
    if artifacts == [] then Outcome(s, [], draws, None)
    else
      var o := AddAll(taskId, artifacts[..|artifacts| - 1], s, draws);
      if o.failure.Some? then o
      else
        var last := AddArtifactTo(taskId, "", "", artifacts[|artifacts| - 1], o.state, o.draws);
        last.(events := o.events + last.events)
  }

  ghost function CompleteOp(taskId: string, reason: string, m: Modification, s: State, draws: seq<string>): Outcome {
    var o := AddAll(taskId, ArtifactList(m), s, draws);
    if o.failure.Some? then o.(events := [])
    else if !Allowed(ValidationOf(o.state), m.forceOverrides) then Reject(o.state, o.draws, NotCompletable)
    else if o.state.task.status.Completed? then o
    else
      var done := Emit(o.state, o.draws, StatusChanged(taskId, o.state.task.status, Completed, reason));
      done.(events := o.events + done.events)
  }

  /** `applyModification`. */
  ghost function Modify(taskId: string, batchReason: string, m: Modification, s: State, draws: seq<string>): Outcome {
    var reason := FirstNonBlank(m.reason, batchReason);
    match m.op
    case Unsupported(_) => Reject(s, draws, UnsupportedOp)
    case SetStepStatus | ReopenStep => StepStatusOp(taskId, reason, m, s, draws)
    case SetStatus | Reopen => StatusOp(taskId, reason, m, s, draws)
    case AddArtifact | UpdateArtifactOp | RemoveArtifactOp => ArtifactOp(taskId, reason, m, s, draws)
    case Complete => CompleteOp(taskId, reason, m, s, draws)
    case _ => Edit(taskId, reason, m, s, draws)
  }

  /** The item loop of `modifyTask`: the first failing item rejects the batch. */
  ghost function ModifyAll(taskId: string, batchReason: string, items: seq<Modification>,
                           s: State, draws: seq<string>): Outcome {
    if items == [] then Outcome(s, [], draws, None)
    else
      var o := ModifyAll(taskId, batchReason, items[..|items| - 1], s, draws);
      if o.failure.Some? then o
      else
        var last := Modify(taskId, batchReason, items[|items| - 1], o.state, o.draws);
        last.(events := o.events + last.events)
  }
}
