/** What a modification can undo: terminal statuses, artifacts, and completability. */
module TaskLosses {
  import opened Wrappers
  import opened GoStrings
  import opened Sorting
  import opened StepGraph
  import opened TaskTypes
  import opened TaskValidation
  import opened TaskProjection
  import opened TaskQueries
  import opened TaskEffects
  import opened TaskModification
  import opened TaskInvariants
  import opened TaskTheorems

  lemma {:induction false} ReplaceStepExists(steps: seq<Step>, id: string, step: Step, x: string)
    requires StepExists(steps, id)
    requires forall i, j :: 0 <= i < j < |steps| ==> steps[i].id != steps[j].id
    ensures StepExists(ReplaceStep(steps, id, step), x) <==> (StepExists(steps, x) && x != id) || x == step.id
  {
    var rest := steps[1..];
    assert steps == [steps[0]] + rest;
    StepExistsCons(steps[0], rest, x);
    StepExistsCons(steps[0], rest, id);
    if steps[0].id == id {
      StepExistsCons(step, rest, x);
    } else {
      ReplaceStepExists(rest, id, step, x);
      StepExistsCons(steps[0], ReplaceStep(rest, id, step), x);
    }
  }

  lemma StepExistsCons(head: Step, rest: seq<Step>, x: string)
    ensures StepExists([head] + rest, x) <==> head.id == x || StepExists(rest, x)
  {
    assert ([head] + rest)[0] == head;
    assert forall i :: 0 <= i < |rest| ==> ([head] + rest)[i + 1] == rest[i];
  }

  lemma StepExistsSnoc(init: seq<Step>, last: Step, x: string)
    ensures StepExists(init + [last], x) <==> last.id == x || StepExists(init, x)
  {
    assert (init + [last])[|init|] == last;
    assert forall i :: 0 <= i < |init| ==> (init + [last])[i] == init[i];
  }

  lemma {:induction false} DropStepExists(steps: seq<Step>, id: string, x: string)
    ensures StepExists(DropStep(steps, id), x) <==> StepExists(steps, x) && x != id
  {
    if steps != [] {
      var n := |steps| - 1;
      assert steps == steps[..n] + [steps[n]];
      DropStepExists(steps[..n], id, x);
      StepExistsSnoc(steps[..n], steps[n], x);
      StepExistsSnoc(DropStep(steps[..n], id), steps[n], x);
      assert DropStep(steps[..n], id) + [] == DropStep(steps[..n], id);
    }
  }

  /** `update_step` that gives the step another id: the state kept under the old id is dropped. */
  predicate RenamesStep(m: Modification, x: string) {
    m.op.UpdateStep? && m.stepId == x && m.step.id != "" && m.step.id != x
  }

  /** A step that an edit no longer declares either was renamed or had no execution state. */
  lemma EditedSteps(m: Modification, s: State, draws: seq<string>, taskId: string, x: string)
    requires Sound(s, taskId) && Edits(m.op) && EditedTask(m, s, draws).Ok?
    requires StepExists(s.task.steps, x)
    ensures StepExists(EditedTask(m, s, draws).value.0.steps, x) <==>
            !RenamesStep(m, x) && !(m.op.RemoveStep? && m.stepId == x)
    ensures m.op.RemoveStep? ==> !StepHasState(s, m.stepId)
  {
    if m.op.AddStep? {
      StepExistsSnoc(s.task.steps, m.step, x);
    } else if m.op.UpdateStep? {
      ReplaceStepExists(s.task.steps, m.stepId, if m.step.id == "" then m.step.(id := m.stepId) else m.step, x);
    } else if m.op.RemoveStep? {
      DropStepExists(s.task.steps, m.stepId, x);
    }
  }

  lemma RenamesNamed(m: Modification, s: State, draws: seq<string>)
    requires Edits(m.op) && EditedTask(m, s, draws).Ok?
    ensures !RenamesStep(m, "")
  {
  }

  lemma EditEffect(taskId: string, reason: string, m: Modification, s: State, draws: seq<string>)
    requires Sound(s, taskId) && Edits(m.op)
    ensures var o := Edit(taskId, reason, m, s, draws);
      o.failure.None? ==>
        && o.state.task.status == s.task.status
        && (forall e, x :: ArtifactsAt(o.state, e, x) == if RenamesStep(m, x) then [] else ArtifactsAt(s, e, x))
        && (forall e, x :: StepTerminal(StepStatusOf(s, e, x)) ==>
              StepStatusOf(o.state, e, x) == if RenamesStep(m, x) then NoStepStatus else StepStatusOf(s, e, x))
  {
    hide ValidTask, UniqueIds, Apply, EditedTask, RenamesStep;
    var o := Edit(taskId, reason, m, s, draws);
    if o.failure.None? {
      NoEmptyStep(o.events[0].task);
      RenamesNamed(m, s, draws);
      RevisedEffect(s, o.events[0]);
      forall e, x | e in s.executions && x in s.executions[e].steps
        ensures StepExists(o.state.task.steps, x) <==> !RenamesStep(m, x)
      {
        EditedSteps(m, s, draws, taskId, x);
      }
    }
  }

  lemma {:induction false} AddAllEffect(taskId: string, artifacts: seq<Artifact>, s: State, draws: seq<string>)
    requires Sound(s, taskId)
    ensures var o := AddAll(taskId, artifacts, s, draws);
      o.failure.None? ==>
        && o.state.task == s.task.(artifacts := o.state.task.artifacts)
        && o.state.current == s.current && o.state.executions == s.executions
        && Ids(s.task.artifacts) <= Ids(o.state.task.artifacts)
  {
    hide ValidTask, UniqueIds, NewArtifact, Keyed, StateDeclared;
    if artifacts != [] {
      var n := |artifacts| - 1;
      AddAllEffect(taskId, artifacts[..n], s, draws);
      var o := AddAll(taskId, artifacts[..n], s, draws);
      if o.failure.None? {
        AddAllGuarded(taskId, artifacts[..n], s, draws);
        NewArtifactFits(artifacts[n], o.state, o.draws, "", "");
        if NewArtifact(artifacts[n], o.state, o.draws).Ok? {
          ChangedIds(o.state, "", "", Append(NewArtifact(artifacts[n], o.state, o.draws).value.0));
        }
      }
    }
  }

  /** A successful artifact operation changes the artifacts of one scope. */
  lemma ArtifactOpShape(taskId: string, reason: string, m: Modification, s: State, draws: seq<string>)
    returns (e: string, x: string, change: Change)
    requires Sound(s, taskId) && (m.op.AddArtifact? || m.op.UpdateArtifactOp? || m.op.RemoveArtifactOp?)
    requires ArtifactOp(taskId, reason, m, s, draws).failure.None?
    ensures ArtifactOp(taskId, reason, m, s, draws).state == ChangeArtifacts(s, e, x, change)
    ensures (e == "" ==> x == "") && Fits(s, e, x, change)
    ensures match m.op
            case AddArtifact => change.Append?
            case UpdateArtifactOp => change.Replace? && change.id == m.artifactId
              && change.replacement.id == (if m.artifact.id == "" then m.artifactId else m.artifact.id)
            case RemoveArtifactOp => change == Delete(m.artifactId)
  {
    hide ValidTask, UniqueIds, DrawId, HasContent, Scoped, FindArtifact, NewArtifact, ChangeArtifacts;
    ArtifactOpGuarded(taskId, reason, m, s, draws);
    assert Named(s, taskId) == s;
    var ev := ArtifactOp(taskId, reason, m, s, draws).events[0];
    e, x := ev.executionId, ev.stepId;
    if m.op.AddArtifact? {
      change := Append(ev.artifact);
    } else if m.op.UpdateArtifactOp? {
      change := Replace(m.artifactId, ev.artifact);
      ScopeOfId(s, e, x, m.artifactId);
    } else {
      change := Delete(m.artifactId);
      ScopeOfId(s, e, x, m.artifactId);
    }
  }

  lemma ArtifactOpStatuses(taskId: string, reason: string, m: Modification, s: State, draws: seq<string>)
    requires Sound(s, taskId) && (m.op.AddArtifact? || m.op.UpdateArtifactOp? || m.op.RemoveArtifactOp?)
    requires ArtifactOp(taskId, reason, m, s, draws).failure.None?
    ensures var s' := ArtifactOp(taskId, reason, m, s, draws).state;
      && s'.task.status == s.task.status
      && forall e, x :: StepStatusOf(s', e, x) == StepStatusOf(s, e, x)
  {
    var e, x, change := ArtifactOpShape(taskId, reason, m, s, draws);
    ChangeEffect(s, e, x, change);
  }

  lemma StatusOpTerminal(taskId: string, reason: string, m: Modification, s: State, draws: seq<string>)
    requires m.op.SetStatus? || m.op.Reopen?
    ensures var o := StatusOp(taskId, reason, m, s, draws);
      o.failure.None? ==>
        && (Terminal(s.task.status) && !Terminal(o.state.task.status) <==> m.op.Reopen?)
        && o.state.executions == s.executions && o.state.task.artifacts == s.task.artifacts
  {
  }

  lemma StepStatusOpEffect(taskId: string, reason: string, m: Modification, s: State, draws: seq<string>)
    requires Sound(s, taskId) && (m.op.SetStepStatus? || m.op.ReopenStep?)
    ensures var o := StepStatusOp(taskId, reason, m, s, draws);
      o.failure.None? ==>
        && o.state.task == s.task
        && (forall e, x :: ArtifactsAt(o.state, e, x) == ArtifactsAt(s, e, x))
        && (forall e, x :: StepTerminal(StepStatusOf(s, e, x)) ==>
              (!StepTerminal(StepStatusOf(o.state, e, x)) <==> ReopensStep(m, s, e, x)))
  {
    hide ValidTask, UniqueIds, Apply;
    var o := StepStatusOp(taskId, reason, m, s, draws);
    if o.failure.None? {
      StepStatusEffect(s, o.events[0]);
    }
  }

  lemma CompleteEffect(taskId: string, reason: string, m: Modification, s: State, draws: seq<string>)
    requires Sound(s, taskId)
    ensures var o := CompleteOp(taskId, reason, m, s, draws);
      o.failure.None? ==>
        && o.state.task.status.Completed?
        && o.state.executions == s.executions && Ids(s.task.artifacts) <= Ids(o.state.task.artifacts)
  {
    hide Sound, AddAll, ArtifactList, Allowed, ValidationOf, Ids;
    AddAllEffect(taskId, ArtifactList(m), s, draws);
  }

  predicate ReopensStep(m: Modification, s: State, e: string, x: string) {
    m.op.ReopenStep? && m.stepId == x && DefaultExecution(s, m.executionId) == e
  }

  /** A terminal task becomes active again by `reopen` and by nothing else. */
  lemma TaskTerminalIffReopen(taskId: string, batchReason: string, m: Modification, s: State, draws: seq<string>)
    requires Sound(s, taskId)
    requires Modify(taskId, batchReason, m, s, draws).failure.None?
    ensures var s' := Modify(taskId, batchReason, m, s, draws).state;
      Terminal(s.task.status) && !Terminal(s'.task.status) <==> m.op.Reopen?
  {
    hide Edit, ArtifactOp, StatusOp, StepStatusOp, CompleteOp, Sound;
    var reason := FirstNonBlank(m.reason, batchReason);
    match m.op
    case SetStatus | Reopen => StatusOpTerminal(taskId, reason, m, s, draws);
    case SetStepStatus | ReopenStep => StepStatusOpEffect(taskId, reason, m, s, draws);
    case AddArtifact | UpdateArtifactOp | RemoveArtifactOp => ArtifactOpStatuses(taskId, reason, m, s, draws);
    case Complete => CompleteEffect(taskId, reason, m, s, draws);
    case Unsupported(_) =>
    case _ => EditEffect(taskId, reason, m, s, draws);
  }

  /** A terminal step stays terminal unless it is reopened, or renamed by `update_step`. */
  lemma StepTerminalLostIff(taskId: string, batchReason: string, m: Modification, s: State, draws: seq<string>,
                            e: string, x: string)
    requires Sound(s, taskId) && StepTerminal(StepStatusOf(s, e, x))
    requires Modify(taskId, batchReason, m, s, draws).failure.None?
    ensures var s' := Modify(taskId, batchReason, m, s, draws).state;
      !StepTerminal(StepStatusOf(s', e, x)) <==> ReopensStep(m, s, e, x) || RenamesStep(m, x)
  {
    hide Edit, ArtifactOp, StatusOp, StepStatusOp, CompleteOp, Sound;
    var reason := FirstNonBlank(m.reason, batchReason);
    match m.op
    case SetStatus | Reopen => StatusOpTerminal(taskId, reason, m, s, draws);
    case SetStepStatus | ReopenStep => StepStatusOpEffect(taskId, reason, m, s, draws);
    case AddArtifact | UpdateArtifactOp | RemoveArtifactOp => ArtifactOpStatuses(taskId, reason, m, s, draws);
    case Complete => CompleteEffect(taskId, reason, m, s, draws);
    case Unsupported(_) =>
    case _ => EditEffect(taskId, reason, m, s, draws);
  }

  predicate ReplacesArtifact(m: Modification, id: string) {
    || (m.op.RemoveArtifactOp? && m.artifactId == id)
    || (m.op.UpdateArtifactOp? && m.artifactId == id && m.artifact.id != "" && m.artifact.id != id)
  }

  ghost predicate HeldBy(s: State, id: string, x: string) {
    exists e :: id in Ids(ArtifactsAt(s, e, x))
  }

  lemma ChangeLoss(s: State, e: string, x: string, change: Change, id: string)
    requires Keyed(s) && UniqueIds(s) && Fits(s, e, x, change) && (e == "" ==> x == "") && !Unused(s, id)
    ensures Unused(ChangeArtifacts(s, e, x, change), id) <==>
            || (change.Delete? && change.gone == id)
            || (change.Replace? && change.id == id && change.replacement.id != id)
  {
    var s' := ChangeArtifacts(s, e, x, change);
    ChangeEffect(s, e, x, change);
    ChangedIds(s, e, x, change);
    var e0, x0 :| id in Ids(ArtifactsAt(s, e0, x0));
    if id in ChangedIdSet(Ids(ArtifactsAt(s, e0, x0)), change) || e0 != e || x0 != x {
      assert id in Ids(ArtifactsAt(s', e0, x0));
    } else {
      forall e', x' ensures id !in Ids(ArtifactsAt(s', e', x')) {
        assert id in Ids(ArtifactsAt(s, e', x')) ==> e' == e && x' == x;
      }
    }
  }

  lemma ArtifactOpLoss(taskId: string, reason: string, m: Modification, s: State, draws: seq<string>, id: string)
    requires Sound(s, taskId) && (m.op.AddArtifact? || m.op.UpdateArtifactOp? || m.op.RemoveArtifactOp?)
    requires ArtifactOp(taskId, reason, m, s, draws).failure.None? && !Unused(s, id)
    ensures Unused(ArtifactOp(taskId, reason, m, s, draws).state, id) <==> ReplacesArtifact(m, id)
  {
    var e, x, change := ArtifactOpShape(taskId, reason, m, s, draws);
    ChangeLoss(s, e, x, change, id);
  }

  lemma EditLoss(taskId: string, reason: string, m: Modification, s: State, draws: seq<string>, id: string)
    requires Sound(s, taskId) && Edits(m.op) && !Unused(s, id)
    requires Edit(taskId, reason, m, s, draws).failure.None?
    ensures Unused(Edit(taskId, reason, m, s, draws).state, id) <==>
            exists x :: HeldBy(s, id, x) && RenamesStep(m, x)
  {
    hide ValidTask;
    EditEffect(taskId, reason, m, s, draws);
    var s' := Edit(taskId, reason, m, s, draws).state;
    var e0, x0 :| id in Ids(ArtifactsAt(s, e0, x0));
    assert HeldBy(s, id, x0);
    if RenamesStep(m, x0) {
      forall e, x ensures id !in Ids(ArtifactsAt(s', e, x)) {
        assert id in Ids(ArtifactsAt(s, e, x)) ==> e == e0 && x == x0;
      }
    } else {
      assert id in Ids(ArtifactsAt(s', e0, x0));
      forall x | HeldBy(s, id, x) ensures x == x0 {
        var e :| id in Ids(ArtifactsAt(s, e, x));
      }
    }
  }

  lemma SameArtifactsKept(s: State, s': State, id: string)
    requires !Unused(s, id)
    requires s'.executions == s.executions && Ids(s.task.artifacts) <= Ids(s'.task.artifacts)
    ensures !Unused(s', id)
  {
    var e0, x0 :| id in Ids(ArtifactsAt(s, e0, x0));
    assert id in Ids(ArtifactsAt(s', e0, x0));
  }

  lemma StatusOpsKeep(taskId: string, reason: string, m: Modification, s: State, draws: seq<string>, id: string)
    requires Sound(s, taskId) && !Unused(s, id)
    ensures m.op.SetStatus? || m.op.Reopen? ==>
      var o := StatusOp(taskId, reason, m, s, draws); o.failure.None? ==> !Unused(o.state, id)
    ensures m.op.SetStepStatus? || m.op.ReopenStep? ==>
      var o := StepStatusOp(taskId, reason, m, s, draws); o.failure.None? ==> !Unused(o.state, id)
    ensures var o := CompleteOp(taskId, reason, m, s, draws); o.failure.None? ==> !Unused(o.state, id)
  {
    var e, x :| id in Ids(ArtifactsAt(s, e, x));
    if m.op.SetStatus? || m.op.Reopen? {
      StatusOpTerminal(taskId, reason, m, s, draws);
      if StatusOp(taskId, reason, m, s, draws).failure.None? {
        SameArtifactsKept(s, StatusOp(taskId, reason, m, s, draws).state, id);
      }
    } else if m.op.SetStepStatus? || m.op.ReopenStep? {
      StepStatusOpEffect(taskId, reason, m, s, draws);
      var o := StepStatusOp(taskId, reason, m, s, draws);
      assert o.failure.None? ==> id in Ids(ArtifactsAt(o.state, e, x));
    }
    CompleteEffect(taskId, reason, m, s, draws);
    if CompleteOp(taskId, reason, m, s, draws).failure.None? {
      SameArtifactsKept(s, CompleteOp(taskId, reason, m, s, draws).state, id);
    }
  }

  ghost predicate Loses(m: Modification, s: State, id: string) {
    ReplacesArtifact(m, id) || exists x :: HeldBy(s, id, x) && RenamesStep(m, x)
  }

  /** An artifact id disappears by removal, by an update to another id, or with a renamed step that holds it. */
  lemma ArtifactLostIff(taskId: string, batchReason: string, m: Modification, s: State, draws: seq<string>, id: string)
    requires Sound(s, taskId) && !Unused(s, id)
    requires Modify(taskId, batchReason, m, s, draws).failure.None?
    ensures Unused(Modify(taskId, batchReason, m, s, draws).state, id) <==> Loses(m, s, id)
  {
    hide Edit, ArtifactOp, StatusOp, StepStatusOp, CompleteOp, Sound, Unused, OneEvent;
    var reason := FirstNonBlank(m.reason, batchReason);
    if Edits(m.op) {
      EditLoss(taskId, reason, m, s, draws, id);
    } else if m.op.AddArtifact? || m.op.UpdateArtifactOp? || m.op.RemoveArtifactOp? {
      ArtifactOpLoss(taskId, reason, m, s, draws, id);
    } else {
      StatusOpsKeep(taskId, reason, m, s, draws, id);
    }
  }

  lemma SatisfiedMonotone(required: Artifact, a: seq<ScopedArtifact>, b: seq<ScopedArtifact>)
    requires Satisfied(required, a) && forall m :: m in a ==> m in b
    ensures Satisfied(required, b)
  {
    var i :| 0 <= i < |a| && Satisfies(required, a[i].artifact);
    assert a[i] in b;
  }

  lemma {:induction false} OutputsMonotone(outputs: seq<Artifact>, a: seq<ScopedArtifact>, b: seq<ScopedArtifact>)
    requires AllOk(OutputChecks(outputs, a)) && forall m :: m in a ==> m in b
    ensures AllOk(OutputChecks(outputs, b))
  {
    if outputs != [] {
      var n := |outputs| - 1;
      var init := OutputChecks(outputs[..n], a);
      assert forall i :: 0 <= i < |init| ==> OutputChecks(outputs, a)[i] == init[i];
      if outputs[n].required {
        assert OutputChecks(outputs, a)[|init|].ok;
        SatisfiedMonotone(outputs[n], a, b);
      }
      OutputsMonotone(outputs[..n], a, b);
    }
  }

  ghost predicate OutputsProduced(s: State) {
    AllOk(OutputChecks(s.task.outputs, Scoped(s)))
  }

  lemma CompletableParts(s: State)
    ensures ValidationOf(s).completable <==> OutputsProduced(s) && (s.task.steps == [] || AllStepsTerminal(s))
  {
    if s.task.steps == [] {
      var outputs := OutputChecks(s.task.outputs, Scoped(s));
      assert outputs + [] == outputs;
    } else {
      AllOkSnoc(OutputChecks(s.task.outputs, Scoped(s)), Check("steps_terminal", AllStepsTerminal(s), ""));
    }
  }

  lemma AddedOutputs(s: State, e: string, x: string, a: Artifact)
    requires Keyed(s) && (e == "" ==> x == "") && OutputsProduced(s)
    ensures OutputsProduced(ChangeArtifacts(s, e, x, Append(a)))
  {
    var s' := ChangeArtifacts(s, e, x, Append(a));
    ChangeEffect(s, e, x, Append(a));
    forall m | m in Scoped(s) ensures m in Scoped(s') {
      ScopedMembers(s, m);
      ScopedMembers(s', m);
    }
    OutputsMonotone(s.task.outputs, Scoped(s), Scoped(s'));
  }

  lemma SettledByStatus(steps: seq<Step>, a: Execution, b: Execution)
    requires forall x :: StepOf(a, x).status == StepOf(b, x).status
    ensures AllStepsSettled(steps, a) <==> AllStepsSettled(steps, b)
  {
    forall i | 0 <= i < |steps| ensures StepSettled(steps[i], a) <==> StepSettled(steps[i], b) {
      assert HasBlockedDependency(steps[i], a) <==> HasBlockedDependency(steps[i], b);
    }
  }

  lemma NothingSettled(steps: seq<Step>, exec: Execution)
    requires steps != [] && forall x :: StepOf(exec, x).status.NoStepStatus?
    ensures !AllStepsSettled(steps, exec)
  {
    assert !StepSettled(steps[0], exec);
  }

  /**
   * Adding an artifact to an execution makes that execution the current one, so a completable task
   * stays completable exactly when the scope is the task, or the steps are settled in that execution.
   */
  lemma CompletableAfterAddIff(s: State, e: string, x: string, a: Artifact)
    requires Keyed(s) && (e == "" ==> x == "") && ValidationOf(s).completable
    ensures ValidationOf(ChangeArtifacts(s, e, x, Append(a))).completable <==>
      || e == "" || s.task.steps == []
      || (e in s.executions && AllStepsSettled(s.task.steps, s.executions[e]))
  {
    var s' := ChangeArtifacts(s, e, x, Append(a));
    CompletableParts(s);
    CompletableParts(s');
    AddedOutputs(s, e, x, a);
    if e != "" && s.task.steps != [] {
      ChangeEffect(s, e, x, Append(a));
      assert forall y :: StepOf(s'.executions[e], y).status == StepStatusOf(s', e, y);
      if e in s.executions {
        assert forall y :: StepOf(s.executions[e], y).status == StepStatusOf(s, e, y);
        SettledByStatus(s.task.steps, s.executions[e], s'.executions[e]);
      } else {
        assert forall y :: StepStatusOf(s, e, y).NoStepStatus?;
        NothingSettled(s.task.steps, s'.executions[e]);
      }
    }
  }
}
