/** Why an operation is refused: each error, and exactly when it is given. */
module TaskFaults {
  import opened Wrappers
  import opened GoStrings
  import opened TaskTypes
  import opened TaskValidation
  import opened TaskProjection
  import opened TaskQueries
  import opened TaskEffects
  import opened TaskModification
  import opened TaskInvariants
  import opened TaskTheorems
  import opened TaskFields

  /** The request is refused with that error, and nothing else happens. */
  ghost predicate Refused(taskId: string, batchReason: string, m: Modification, s: State, draws: seq<string>, f: Failure) {
    Modify(taskId, batchReason, m, s, draws) == Outcome(s, [], draws, Some(f))
  }

  predicate Known(s: Status) {
    s.Draft? || s.Ready? || s.Running? || s.Blocked? || s.Interrupted? || s.Completed? || s.Failed? || s.Cancelled?
  }

  predicate Over(s: Status) {
    s.Completed? || s.Failed? || s.Cancelled?
  }

  predicate StatusFault(m: Modification, status: Status, f: Failure) {
    match f
    case StatusInvalid => m.op.SetStatus? && !Known(m.status)
    case TaskTerminalUseReopen => m.op.SetStatus? && Over(status) && Known(m.status) && !Over(m.status)
    case TaskRunning => m.op.SetStatus? && status == Running && m.status in {Ready, Draft}
    case TaskNotTerminal => m.op.Reopen? && !Over(status)
    case ReopenStatusInvalid => m.op.Reopen? && Over(status) && (Over(m.status) || m.status.OtherStatus?)
    case _ => false
  }

  lemma StatusRefused(taskId: string, batchReason: string, m: Modification, s: State, draws: seq<string>, f: Failure)
    requires m.op.SetStatus? || m.op.Reopen?
    ensures Refused(taskId, batchReason, m, s, draws, f) <==> StatusFault(m, s.task.status, f)
    ensures Modify(taskId, batchReason, m, s, draws).failure == Some(f) ==> Refused(taskId, batchReason, m, s, draws, f)
  {
    ModifyStatus(taskId, batchReason, m, s, draws);
    StatusOpRefused(taskId, FirstNonBlank(m.reason, batchReason), m, s, draws, f);
    hide Modify, StatusOp, StatusFault;
  }

  lemma ModifyStatus(taskId: string, batchReason: string, m: Modification, s: State, draws: seq<string>)
    requires m.op.SetStatus? || m.op.Reopen?
    ensures Modify(taskId, batchReason, m, s, draws) ==
            StatusOp(taskId, FirstNonBlank(m.reason, batchReason), m, s, draws)
  {
    hide StatusOp, FirstNonBlank;
  }

  lemma StatusOpRefused(taskId: string, reason: string, m: Modification, s: State, draws: seq<string>, f: Failure)
    requires m.op.SetStatus? || m.op.Reopen?
    ensures var o := StatusOp(taskId, reason, m, s, draws);
      && (o.failure == Some(f) <==> StatusFault(m, s.task.status, f))
      && (o.failure.Some? ==> o == Outcome(s, [], draws, o.failure))
  {
    hide Apply;
  }

  predicate StepOver(s: StepStatus) {
    s.StepCompleted? || s.StepFailed? || s.StepCancelled? || s.Skipped?
  }

  predicate StepFault(m: Modification, declared: bool, previous: StepStatus, f: Failure) {
    var next := m.stepStatus;
    match f
    case StepIdRequired => m.stepId == ""
    case StepNotFound => m.stepId != "" && !declared
    case StepStatusInvalid => m.stepId != "" && declared && m.op.SetStepStatus? && (next.NoStepStatus? || next.OtherStepStatus?)
    case StepTerminalUseReopen =>
      m.stepId != "" && declared && m.op.SetStepStatus? && StepOver(previous) && next in {Waiting, StepRunning, StepBlocked}
    case StepNotTerminal => m.stepId != "" && declared && m.op.ReopenStep? && !StepOver(previous)
    case ReopenStepStatusInvalid =>
      m.stepId != "" && declared && m.op.ReopenStep? && StepOver(previous) && (StepOver(next) || next.OtherStepStatus?)
    case _ => false
  }

  lemma StepStatusRefused(taskId: string, batchReason: string, m: Modification, s: State, draws: seq<string>, f: Failure)
    requires m.op.SetStepStatus? || m.op.ReopenStep?
    ensures Refused(taskId, batchReason, m, s, draws, f) <==>
      StepFault(m, exists i :: 0 <= i < |s.task.steps| && s.task.steps[i].id == m.stepId,
                StepStatusOf(s, DefaultExecution(s, m.executionId), m.stepId), f)
    ensures Modify(taskId, batchReason, m, s, draws).failure == Some(f) ==> Refused(taskId, batchReason, m, s, draws, f)
  {
    ModifyStepStatus(taskId, batchReason, m, s, draws);
    StepStatusOpRefused(taskId, FirstNonBlank(m.reason, batchReason), m, s, draws, f);
    hide Modify, StepStatusOp, StepFault, StepStatusOf;
  }

  lemma ModifyStepStatus(taskId: string, batchReason: string, m: Modification, s: State, draws: seq<string>)
    requires m.op.SetStepStatus? || m.op.ReopenStep?
    ensures Modify(taskId, batchReason, m, s, draws) ==
            StepStatusOp(taskId, FirstNonBlank(m.reason, batchReason), m, s, draws)
  {
    hide StepStatusOp, FirstNonBlank;
  }

  lemma StepStatusOpRefused(taskId: string, reason: string, m: Modification, s: State, draws: seq<string>, f: Failure)
    requires m.op.SetStepStatus? || m.op.ReopenStep?
    ensures var o := StepStatusOp(taskId, reason, m, s, draws);
      && (o.failure == Some(f) <==>
            StepFault(m, StepExists(s.task.steps, m.stepId), StepStatusOf(s, DefaultExecution(s, m.executionId), m.stepId), f))
      && (o.failure.Some? ==> o == Outcome(s, [], draws, o.failure))
  {
    hide Apply, StepStatusOf, StepExists;
  }

  /** Everything that is wrong with a request for an edit; an edit without fault still needs the task to be valid. */
  predicate EditFault(m: Modification, s: State, draws: seq<string>, f: Failure) {
    var named := exists i :: 0 <= i < |s.task.steps| && s.task.steps[i].id == m.stepId;
    var held := exists e :: e in s.executions && m.stepId in s.executions[e].steps;
    match f
    case CriterionRequired => m.op.AddAcceptanceCriterion? && TrimSpace(m.criterion) == ""
    case ArtifactContentRequired => m.op.AddOutput? && !Described(m.output)
    case NoMoreDraws => m.op.AddOutput? && Described(m.output) && m.output.id == "" && draws == []
    case StepIdRequired =>
      (m.op.AddStep? && TrimSpace(m.step.id) == "") || ((m.op.UpdateStep? || m.op.RemoveStep?) && m.stepId == "")
    case StepHasExecutionState => m.op.RemoveStep? && m.stepId != "" && held
    case StepNotFound => m.stepId != "" && !named && (m.op.UpdateStep? || (m.op.RemoveStep? && !held))
    case _ => false
  }

  lemma EditFaultIff(m: Modification, s: State, draws: seq<string>, f: Failure)
    requires Edits(m.op)
    ensures EditFault(m, s, draws, f) <==> EditedTask(m, s, draws) == Err(f)
  {
    DescribedIff(m.output);
    assert StepExists(s.task.steps, m.stepId) <==> exists i :: 0 <= i < |s.task.steps| && s.task.steps[i].id == m.stepId;
    hide TrimSpace, HasContent, Described, UpdatedTask, ReplaceStep, DropStep;
  }

  lemma ModifyEdit(taskId: string, batchReason: string, m: Modification, s: State, draws: seq<string>)
    requires Edits(m.op)
    ensures var o, r := Modify(taskId, batchReason, m, s, draws), EditedTask(m, s, draws);
      && (r.Err? ==> o == Outcome(s, [], draws, Some(r.error)))
      && (r.Ok? && o.failure.Some? ==> o.failure.value in {TaskInvalid, TaskIdMismatch})
      && (r.Ok? ==> (o.failure == Some(TaskIdMismatch) <==> s.task.id != "" && s.task.id != taskId))
  {
    hide ValidTask, Apply, EditedTask, FirstNonBlank;
  }

  lemma EditRefused(taskId: string, batchReason: string, m: Modification, s: State, draws: seq<string>, f: Failure)
    requires Edits(m.op) && f != TaskInvalid && f != TaskIdMismatch
    ensures Refused(taskId, batchReason, m, s, draws, f) <==> EditFault(m, s, draws, f)
    ensures Modify(taskId, batchReason, m, s, draws).failure == Some(f) ==> Refused(taskId, batchReason, m, s, draws, f)
  {
    hide Modify, EditedTask, EditFault;
    EditFaultIff(m, s, draws, f);
    ModifyEdit(taskId, batchReason, m, s, draws);
  }

  /** A request without fault is refused for the id when the task has another one. */
  lemma MismatchRefused(taskId: string, batchReason: string, m: Modification, s: State, draws: seq<string>)
    requires Edits(m.op)
    ensures Modify(taskId, batchReason, m, s, draws).failure == Some(TaskIdMismatch) <==>
      (forall f :: !EditFault(m, s, draws, f)) && s.task.id != "" && s.task.id != taskId
  {
    hide Modify, EditedTask, EditFault;
    ModifyEdit(taskId, batchReason, m, s, draws);
    forall f ensures EditFault(m, s, draws, f) <==> EditedTask(m, s, draws) == Err(f) {
      EditFaultIff(m, s, draws, f);
    }
    if EditedTask(m, s, draws).Err? {
      assert EditFault(m, s, draws, EditedTask(m, s, draws).error);
      NoMismatch(m, s, draws);
    }
  }

  lemma NoMismatch(m: Modification, s: State, draws: seq<string>)
    ensures !EditFault(m, s, draws, TaskIdMismatch) && !EditFault(m, s, draws, TaskInvalid)
  {
  }

  /** The id that an artifact is to have is taken. */
  ghost predicate Taken(s: State, id: string) {
    id != "" && exists e, x :: id in Ids(ArtifactsAt(s, e, x))
  }

  ghost predicate NewFault(a: Artifact, s: State, draws: seq<string>, f: Failure) {
    match f
    case ArtifactContentRequired => !Described(a)
    case ArtifactExists => Described(a) && Taken(s, a.id)
    case NoMoreDraws => Described(a) && a.id == "" && forall d <- draws :: Taken(s, "artifact_" + d)
    case _ => false
  }

  lemma TakenIff(s: State, id: string)
    requires Keyed(s)
    ensures Taken(s, id) <==> ArtifactIdExists(s, id)
  {
    hide FindArtifact, ArtifactsAt, Ids;
    if id != "" {
      IdExistsIffUsed(s, id);
    }
  }

  lemma {:induction false} DrawsTaken(s: State, draws: seq<string>)
    requires Keyed(s)
    ensures DrawId(s, draws).None? <==> forall d <- draws :: Taken(s, "artifact_" + d)
  {
    hide Taken, ArtifactIdExists, Keyed;
    if draws != [] {
      TakenIff(s, "artifact_" + draws[0]);
      DrawsTaken(s, draws[1..]);
      assert draws == [draws[0]] + draws[1..];
    }
  }

  lemma NewFaultIff(a: Artifact, s: State, draws: seq<string>, f: Failure)
    requires Keyed(s)
    ensures NewFault(a, s, draws, f) <==> NewArtifact(a, s, draws) == Err(f)
  {
    DescribedIff(a);
    TakenIff(s, a.id);
    DrawsTaken(s, draws);
    hide Described, HasContent, Taken, ArtifactIdExists, DrawId, Keyed;
  }

  /** Why `add_artifact` is refused. */
  lemma AddArtifactRefused(taskId: string, batchReason: string, m: Modification, s: State, draws: seq<string>, f: Failure)
    requires Sound(s, taskId) && m.op.AddArtifact?
    ensures var nowhere := m.stepId != "" && !StepExists(s.task.steps, m.stepId);
      Refused(taskId, batchReason, m, s, draws, f) <==>
        if nowhere then f == StepNotFound else NewFault(m.artifact, s, draws, f)
    ensures Modify(taskId, batchReason, m, s, draws).failure == Some(f) ==> Refused(taskId, batchReason, m, s, draws, f)
  {
    SoundKeyed(s, taskId);
    NewFaultIff(m.artifact, s, draws, f);
    AddRefused(taskId, batchReason, m, s, draws);
    hide Modify, NewFault, NewArtifact, StepExists, Sound;
  }

  lemma SoundKeyed(s: State, taskId: string)
    requires Sound(s, taskId)
    ensures Keyed(s)
  {
  }

  lemma AddRefused(taskId: string, batchReason: string, m: Modification, s: State, draws: seq<string>)
    requires m.op.AddArtifact?
    ensures var o, r := Modify(taskId, batchReason, m, s, draws), NewArtifact(m.artifact, s, draws);
      && (o.failure.Some? ==> o == Outcome(s, [], draws, o.failure))
      && o.failure ==
           if m.stepId != "" && !StepExists(s.task.steps, m.stepId) then Some(StepNotFound)
           else if r.Err? then Some(r.error) else None
  {
    hide NewArtifact, StepExists, Apply, FirstNonBlank, NormalizedExecution;
  }

  /** The scope that holds the artifact is the one asked for, as far as one is. */
  ghost predicate ArtifactFault(m: Modification, s: State, e: string, x: string, f: Failure) {
    match f
    case WrongExecution => m.executionId != "" && m.executionId != e
    case WrongStep => (m.executionId == "" || m.executionId == e) && m.stepId != "" && m.stepId != x
    case ArtifactContentRequired => Asked(m, e, x) && m.op.UpdateArtifactOp? && !Described(m.artifact)
    case ArtifactExists =>
      && Asked(m, e, x) && m.op.UpdateArtifactOp? && Described(m.artifact)
      && m.artifact.id != m.artifactId && Taken(s, m.artifact.id)
    case _ => false
  }

  predicate Asked(m: Modification, e: string, x: string) {
    (m.executionId == "" || m.executionId == e) && (m.stepId == "" || m.stepId == x)
  }

  /** Why `update_artifact` and `remove_artifact` are refused for an artifact that some scope holds. */
  lemma HeldArtifactRefused(taskId: string, batchReason: string, m: Modification, s: State, draws: seq<string>,
                            e: string, x: string, f: Failure)
    requires Sound(s, taskId) && (m.op.UpdateArtifactOp? || m.op.RemoveArtifactOp?)
    requires m.artifactId in Ids(ArtifactsAt(s, e, x))
    ensures Refused(taskId, batchReason, m, s, draws, f) <==> ArtifactFault(m, s, e, x, f)
    ensures Modify(taskId, batchReason, m, s, draws).failure == Some(f) ==> Refused(taskId, batchReason, m, s, draws, f)
  {
    SoundKeyed(s, taskId);
    FoundWhere(s, taskId, m.artifactId, e, x);
    DescribedIff(m.artifact);
    TakenIff(s, m.artifact.id);
    ChangeRefused(taskId, batchReason, m, s, draws, e, x, f);
    hide Modify, Sound, FindArtifact, ArtifactsAt, Ids, Described, HasContent, Taken, ArtifactIdExists, Keyed;
  }

  lemma FoundWhere(s: State, taskId: string, id: string, e: string, x: string)
    requires Sound(s, taskId) && id in Ids(ArtifactsAt(s, e, x))
    ensures id != "" && FindArtifact(s, id).Some?
    ensures FindArtifact(s, id).value.executionId == e && FindArtifact(s, id).value.stepId == x
  {
    hide ValidTask, FindArtifact, ArtifactsAt, Ids;
    HeldNamed(s, taskId, id, e, x);
    assert !Unused(s, id);
    IdExistsIffUsed(s, id);
  }

  lemma HeldNamed(s: State, taskId: string, id: string, e: string, x: string)
    requires Sound(s, taskId) && id in Ids(ArtifactsAt(s, e, x))
    ensures id != "" && Keyed(s)
    ensures forall e', x' :: id in Ids(ArtifactsAt(s, e', x')) ==> e' == e && x' == x
  {
    hide ValidTask, ArtifactsAt;
  }

  lemma ChangeRefused(taskId: string, batchReason: string, m: Modification, s: State, draws: seq<string>,
                      e: string, x: string, f: Failure)
    requires (m.op.UpdateArtifactOp? || m.op.RemoveArtifactOp?) && m.artifactId != "" && FindArtifact(s, m.artifactId).Some?
    requires FindArtifact(s, m.artifactId).value.executionId == e && FindArtifact(s, m.artifactId).value.stepId == x
    requires HasContent(m.artifact) == Described(m.artifact) && Taken(s, m.artifact.id) == ArtifactIdExists(s, m.artifact.id)
    ensures var o := Modify(taskId, batchReason, m, s, draws);
      && (o.failure == Some(f) <==> ArtifactFault(m, s, e, x, f))
      && (o.failure.Some? ==> o == Outcome(s, [], draws, o.failure))
  {
    EmptyTaken(s);
    hide FindArtifact, Described, HasContent, Taken, ArtifactIdExists, Apply, FirstNonBlank;
  }

  lemma EmptyTaken(s: State)
    ensures !Taken(s, "")
  {
  }
}
