/** The operations that edit the task, field by field. */
module TaskFields {
  import opened Wrappers
  import opened GoStrings
  import opened StepGraph
  import opened TaskTypes
  import opened TaskValidation
  import opened TaskProjection
  import opened TaskQueries
  import opened TaskEffects
  import opened TaskModification
  import opened TaskInvariants
  import opened TaskLosses
  import opened TaskMeaning

  /** What `update_metadata` can give. */
  datatype Field =
    | Title | Description | Objective | Criteria | Inputs | Outputs | Labels | Priority | Metadata
    | Scope | Constraints | Assignee | Owner | WorkspaceId | ProjectId | WorkflowRef

  predicate Gives(m: Modification, f: Field) {
    match f
    case Title => m.title != ""
    case Description => m.description != ""
    case Objective => m.objective != ""
    case Criteria => m.criteria != []
    case Inputs => m.inputs != []
    case Outputs => m.outputs != []
    case Labels => m.labels != []
    case Priority => m.priority != ""
    case Metadata => m.metadata != map[]
    case Scope => m.details.scope != []
    case Constraints => m.details.constraints != []
    case Assignee => m.details.assignee != ""
    case Owner => m.details.owner != ""
    case WorkspaceId => m.details.workspaceId != ""
    case ProjectId => m.details.projectId != ""
    case WorkflowRef => m.details.workflowRef != ""
  }

  predicate Same(t: Task, t': Task, f: Field) {
    match f
    case Title => t'.title == t.title
    case Description => t'.description == t.description
    case Objective => t'.objective == t.objective
    case Criteria => t'.criteria == t.criteria
    case Inputs => t'.inputs == t.inputs
    case Outputs => t'.outputs == t.outputs
    case Labels => t'.labels == t.labels
    case Priority => t'.priority == t.priority
    case Metadata => t'.metadata == t.metadata
    case Scope => t'.details.scope == t.details.scope
    case Constraints => t'.details.constraints == t.details.constraints
    case Assignee => t'.details.assignee == t.details.assignee
    case Owner => t'.details.owner == t.details.owner
    case WorkspaceId => t'.details.workspaceId == t.details.workspaceId
    case ProjectId => t'.details.projectId == t.details.projectId
    case WorkflowRef => t'.details.workflowRef == t.details.workflowRef
  }

  /** The field holds what the request gives for it; texts are trimmed, metadata is merged key by key. */
  ghost predicate Holds(m: Modification, t: Task, t': Task, f: Field) {
    match f
    case Title => t'.title == TrimSpace(m.title)
    case Description => t'.description == TrimSpace(m.description)
    case Objective => t'.objective == TrimSpace(m.objective)
    case Criteria => t'.criteria == m.criteria
    case Inputs => t'.inputs == m.inputs
    case Outputs => t'.outputs == m.outputs
    case Labels => t'.labels == m.labels
    case Priority => t'.priority == m.priority
    case Metadata =>
      forall k ::
        && (k in m.metadata ==> k in t'.metadata && t'.metadata[k] == m.metadata[k])
        && (k !in m.metadata ==> (k in t'.metadata <==> k in t.metadata))
        && (k !in m.metadata && k in t.metadata ==> k in t'.metadata && t'.metadata[k] == t.metadata[k])
    case Scope => t'.details.scope == m.details.scope
    case Constraints => t'.details.constraints == m.details.constraints
    case Assignee => t'.details.assignee == m.details.assignee
    case Owner => t'.details.owner == m.details.owner
    case WorkspaceId => t'.details.workspaceId == m.details.workspaceId
    case ProjectId => t'.details.projectId == m.details.projectId
    case WorkflowRef => t'.details.workflowRef == m.details.workflowRef
  }

  /** What no edit of the fields touches. */
  predicate SameRest(t: Task, t': Task) {
    && t'.id == t.id && t'.artifacts == t.artifacts && t'.status == t.status
    && t'.workflow == t.workflow && t'.steps == t.steps
  }

  /** Each field given holds what was given, each other one what it held, and nothing else changes. */
  lemma UpdateMetadataMeaning(taskId: string, batchReason: string, m: Modification, s: State, draws: seq<string>, f: Field)
    requires Sound(s, taskId) && m.op.UpdateMetadata?
    requires Modify(taskId, batchReason, m, s, draws).failure.None?
    ensures var t' := Modify(taskId, batchReason, m, s, draws).state.task;
      && SameRest(s.task, t')
      && if Gives(m, f) then Holds(m, s.task, t', f) else Same(s.task, t', f)
  {
    hide Modify, Sound, ValidTask, TrimSpace;
    EditMeaning(taskId, batchReason, m, s, draws);
  }

  /** The update is accepted unless it leaves neither title nor objective, or gives an unknown priority. */
  lemma UpdateMetadataAcceptedIff(taskId: string, batchReason: string, m: Modification, s: State, draws: seq<string>)
    requires Sound(s, taskId) && m.op.UpdateMetadata?
    ensures var title := if m.title != "" then m.title else s.task.title;
      var objective := if m.objective != "" then m.objective else s.task.objective;
      Modify(taskId, batchReason, m, s, draws).failure.None? <==>
        !(Blank(title) && Blank(objective)) && (m.priority != "" ==> ValidPriority(m.priority))
  {
    BlankTrimmed(m.title);
    BlankTrimmed(m.objective);
    hide Modify, TrimSpace, Blank, Acyclic, Deps, StepIdsDistinct, DependenciesKnown, Keyed, UniqueIds, StateDeclared;
    EditMeaning(taskId, batchReason, m, s, draws);
  }

  lemma BlankTrimmed(text: string)
    ensures Blank(TrimSpace(text)) <==> Blank(text)
  {
    TrimSpaceFixed(text);
    TrimSpaceFixed(TrimSpace(text));
    hide TrimSpace;
  }

  /** A request that gives one field changes that field only. */
  lemma OnlyFieldChanges(taskId: string, batchReason: string, m: Modification, s: State, draws: seq<string>, f: Field)
    requires Sound(s, taskId) && m.op.UpdateMetadata? && Gives(m, f) && forall g :: g != f ==> !Gives(m, g)
    requires Modify(taskId, batchReason, m, s, draws).failure.None?
    ensures var t' := Modify(taskId, batchReason, m, s, draws).state.task;
      && SameRest(s.task, t') && Holds(m, s.task, t', f)
      && forall g :: g != f ==> Same(s.task, t', g)
  {
    hide Modify, Sound, Holds, Same, Gives, SameRest;
    forall g ensures if Gives(m, g) then Holds(m, s.task, Modify(taskId, batchReason, m, s, draws).state.task, g)
                     else Same(s.task, Modify(taskId, batchReason, m, s, draws).state.task, g)
    {
      UpdateMetadataMeaning(taskId, batchReason, m, s, draws, g);
    }
    UpdateMetadataMeaning(taskId, batchReason, m, s, draws, f);
  }

  lemma SameIsEqual(t: Task, t': Task)
    requires SameRest(t, t') && forall f :: Same(t, t', f)
    ensures t' == t
  {
    SameParts(t, t');
    assert Same(t, t', Title) && Same(t, t', Description) && Same(t, t', Objective) && Same(t, t', Criteria);
    assert Same(t, t', Inputs) && Same(t, t', Outputs) && Same(t, t', Labels) && Same(t, t', Priority);
    assert Same(t, t', Metadata) && Same(t, t', Scope) && Same(t, t', Constraints) && Same(t, t', Assignee);
    assert Same(t, t', Owner) && Same(t, t', WorkspaceId) && Same(t, t', ProjectId) && Same(t, t', WorkflowRef);
    hide Same, SameRest;
  }

  lemma SameParts(t: Task, t': Task)
    ensures
      && SameRest(t, t')
      && Same(t, t', Title) && Same(t, t', Description) && Same(t, t', Objective) && Same(t, t', Criteria)
      && Same(t, t', Inputs) && Same(t, t', Outputs) && Same(t, t', Labels) && Same(t, t', Priority)
      && Same(t, t', Metadata) && Same(t, t', Scope) && Same(t, t', Constraints) && Same(t, t', Assignee)
      && Same(t, t', Owner) && Same(t, t', WorkspaceId) && Same(t, t', ProjectId) && Same(t, t', WorkflowRef)
      ==> t' == t
  {
  }

  /** A request that gives nothing is accepted and leaves the task as it is. */
  lemma EmptyUpdate(taskId: string, batchReason: string, m: Modification, s: State, draws: seq<string>)
    requires Sound(s, taskId) && m.op.UpdateMetadata? && forall f :: !Gives(m, f)
    requires Modify(taskId, batchReason, m, s, draws).failure.None?
    ensures Modify(taskId, batchReason, m, s, draws).state.task == s.task
  {
    hide Modify, Sound, Holds, Same, Gives, SameRest;
    forall f ensures Same(s.task, Modify(taskId, batchReason, m, s, draws).state.task, f) {
      UpdateMetadataMeaning(taskId, batchReason, m, s, draws, f);
    }
    UpdateMetadataMeaning(taskId, batchReason, m, s, draws, Title);
    SameIsEqual(s.task, Modify(taskId, batchReason, m, s, draws).state.task);
  }

  lemma ValidWithCriteria(t: Task, criteria: seq<string>, outputs: seq<Artifact>)
    requires ValidTask(t)
    ensures ValidTask(t.(criteria := criteria, outputs := outputs))
  {
    hide Acyclic, Deps, StepIdsDistinct, DependenciesKnown, Blank;
  }

  /** A criterion that is not blank is appended last, trimmed; nothing else changes. */
  lemma AddCriterionMeaning(taskId: string, batchReason: string, m: Modification, s: State, draws: seq<string>)
    requires Sound(s, taskId) && m.op.AddAcceptanceCriterion?
    ensures var o := Modify(taskId, batchReason, m, s, draws);
      && (o.failure.None? <==> !Blank(m.criterion))
      && (o.failure.None? ==>
            o.state.task == s.task.(criteria := s.task.criteria + [TrimSpace(m.criterion)]))
  {
    var criteria := s.task.criteria + [TrimSpace(m.criterion)];
    ValidWithCriteria(s.task, criteria, s.task.outputs);
    hide Modify, Sound, ValidTask, TrimSpace, Blank;
    EditMeaning(taskId, batchReason, m, s, draws);
  }

  /** An artifact says something in its name, its description or its reference. */
  predicate Described(a: Artifact) {
    TrimSpace(a.name) != "" || TrimSpace(a.description) != "" || TrimSpace(a.ref) != ""
  }

  lemma DescribedIff(a: Artifact)
    ensures HasContent(a) <==> Described(a)
  {
    hide TrimSpace;
  }

  /** A described output is appended last, under its own id or the next id drawn; nothing else changes. */
  lemma AddOutputMeaning(taskId: string, batchReason: string, m: Modification, s: State, draws: seq<string>)
    requires Sound(s, taskId) && m.op.AddOutput?
    ensures var o := Modify(taskId, batchReason, m, s, draws);
      var id := if m.output.id != "" then m.output.id else if draws != [] then "artifact_" + draws[0] else "";
      && (o.failure.None? <==> Described(m.output) && id != "")
      && (o.failure.None? ==>
            && o.state.task == s.task.(outputs := s.task.outputs + [m.output.(id := id)])
            && o.draws == if m.output.id != "" then draws else draws[1..])
  {
    var id := if m.output.id != "" then m.output.id else if draws != [] then "artifact_" + draws[0] else "";
    ValidWithCriteria(s.task, s.task.criteria, s.task.outputs + [m.output.(id := id)]);
    DescribedIff(m.output);
    hide Modify, Sound, ValidTask, HasContent, Described;
    EditMeaning(taskId, batchReason, m, s, draws);
    if Modify(taskId, batchReason, m, s, draws).failure.None? {
      RestOfDraws(taskId, batchReason, m, s, draws);
    }
  }

  lemma RestOfDraws(taskId: string, batchReason: string, m: Modification, s: State, draws: seq<string>)
    requires Edits(m.op) && Modify(taskId, batchReason, m, s, draws).failure.None?
    ensures EditedTask(m, s, draws).Ok? && Modify(taskId, batchReason, m, s, draws).draws == EditedTask(m, s, draws).value.1
  {
    hide EditedTask, ValidTask, Apply;
  }

  /** A step with an id is appended last, if the task stays valid with it. */
  lemma AddStepMeaning(taskId: string, batchReason: string, m: Modification, s: State, draws: seq<string>)
    requires Sound(s, taskId) && m.op.AddStep?
    ensures var o := Modify(taskId, batchReason, m, s, draws);
      var t' := s.task.(steps := s.task.steps + [m.step]);
      && (o.failure.None? <==> !Blank(m.step.id) && ValidTask(t'))
      && (o.failure.None? ==> o.state.task == t')
  {
    hide Modify, Sound, ValidTask, Blank;
    EditMeaning(taskId, batchReason, m, s, draws);
  }

  lemma {:induction false} ReplacedStep(steps: seq<Step>, id: string, step: Step, i: nat)
    requires i < |steps| && steps[i].id == id && forall k :: 0 <= k < i ==> steps[k].id != id
    ensures ReplaceStep(steps, id, step) == steps[i := step]
  {
    if i > 0 {
      ReplacedStep(steps[1..], id, step, i - 1);
      assert steps[i := step] == [steps[0]] + steps[1..][i - 1 := step];
    }
  }

  lemma {:induction false} DroppedStep(steps: seq<Step>, id: string, i: nat)
    requires i < |steps| && steps[i].id == id && forall k :: 0 <= k < |steps| && k != i ==> steps[k].id != id
    ensures DropStep(steps, id) == steps[..i] + steps[i + 1..]
  {
    var n := |steps| - 1;
    var init := steps[..n];
    if i == n {
      assert !StepExists(init, id);
      DropStepAbsent(init, id);
    } else {
      DroppedStep(init, id, i);
      assert steps[..i] + steps[i + 1..] == init[..i] + init[i + 1..] + [steps[n]];
    }
  }

  lemma DistinctStep(t: Task, i: nat)
    requires ValidTask(t) && i < |t.steps|
    ensures StepExists(t.steps, t.steps[i].id) && t.steps[i].id != ""
    ensures forall k :: 0 <= k < |t.steps| && k != i ==> t.steps[k].id != t.steps[i].id
  {
    NoEmptyStep(t);
    hide Acyclic, Deps, DependenciesKnown;
  }

  lemma SoundTask(s: State, taskId: string)
    requires Sound(s, taskId)
    ensures ValidTask(s.task)
  {
  }

  lemma ProposedUpdate(m: Modification, s: State, draws: seq<string>)
    requires m.op.UpdateStep? && m.stepId != "" && StepExists(s.task.steps, m.stepId)
    ensures var step := if m.step.id == "" then m.step.(id := m.stepId) else m.step;
      EditedTask(m, s, draws) == Ok((s.task.(steps := ReplaceStep(s.task.steps, m.stepId, step)), draws))
  {
    hide ReplaceStep, StepExists;
  }

  /** The step stands in the place of the one it updates; without an id of its own it keeps the old one. */
  lemma UpdateStepMeaning(taskId: string, batchReason: string, m: Modification, s: State, draws: seq<string>, i: nat)
    requires Sound(s, taskId) && m.op.UpdateStep? && i < |s.task.steps| && s.task.steps[i].id == m.stepId
    ensures var o := Modify(taskId, batchReason, m, s, draws);
      var step := if m.step.id == "" then m.step.(id := m.stepId) else m.step;
      var t' := s.task.(steps := s.task.steps[i := step]);
      && (o.failure.None? <==> ValidTask(t'))
      && (o.failure.None? ==> o.state.task == t')
  {
    SoundTask(s, taskId);
    hide Modify, Sound, ValidTask, EditedTask, ReplaceStep, StepExists;
    DistinctStep(s.task, i);
    ReplacedStep(s.task.steps, m.stepId, if m.step.id == "" then m.step.(id := m.stepId) else m.step, i);
    ProposedUpdate(m, s, draws);
    EditMeaning(taskId, batchReason, m, s, draws);
  }

  lemma ProposedRemoval(m: Modification, s: State, draws: seq<string>)
    requires m.op.RemoveStep? && m.stepId != "" && StepExists(s.task.steps, m.stepId)
    ensures EditedTask(m, s, draws) ==
      if StepHasState(s, m.stepId) then Err(StepHasExecutionState)
      else Ok((s.task.(steps := DropStep(s.task.steps, m.stepId)), draws))
  {
    hide DropStep, StepExists, StepHasState;
  }

  lemma StateSomewhere(s: State, x: string)
    ensures StepHasState(s, x) <==> exists e :: HasState(s, e, x)
  {
    if e :| HasState(s, e, x) {
      assert e in s.executions && x in s.executions[e].steps;
    }
    if StepHasState(s, x) {
      var e :| e in s.executions && x in s.executions[e].steps;
      assert HasState(s, e, x);
    }
  }

  /** The step is taken out, if no execution has state for it and the task stays valid without it. */
  lemma RemoveStepMeaning(taskId: string, batchReason: string, m: Modification, s: State, draws: seq<string>, i: nat)
    requires Sound(s, taskId) && m.op.RemoveStep? && i < |s.task.steps| && s.task.steps[i].id == m.stepId
    ensures var o := Modify(taskId, batchReason, m, s, draws);
      var t' := s.task.(steps := s.task.steps[..i] + s.task.steps[i + 1..]);
      && (o.failure.None? <==> (forall e :: !HasState(s, e, m.stepId)) && ValidTask(t'))
      && (o.failure.None? ==> o.state.task == t')
  {
    SoundTask(s, taskId);
    StateSomewhere(s, m.stepId);
    hide Modify, Sound, ValidTask, EditedTask, DropStep, StepExists, StepHasState, HasState;
    DistinctStep(s.task, i);
    DroppedStep(s.task.steps, m.stepId, i);
    ProposedRemoval(m, s, draws);
    EditMeaning(taskId, batchReason, m, s, draws);
  }

  /** A step that is not declared can be neither updated nor removed. */
  lemma AbsentStepRejected(taskId: string, batchReason: string, m: Modification, s: State, draws: seq<string>)
    requires Sound(s, taskId) && (m.op.UpdateStep? || m.op.RemoveStep?) && !StepExists(s.task.steps, m.stepId)
    ensures Modify(taskId, batchReason, m, s, draws).failure.Some?
  {
    hide Modify, Sound, ValidTask, StepExists;
    EditMeaning(taskId, batchReason, m, s, draws);
  }
}
