/** What a modification does: replay, invariants, terminal states, and what it can lose. */
module TaskTheorems {
  import opened Wrappers
  import opened GoStrings
  import opened TaskTypes
  import opened TaskValidation
  import opened TaskProjection
  import opened TaskQueries
  import opened TaskEffects
  import opened TaskModification
  import opened TaskInvariants

  lemma FoldOne(s: State, ev: Event)
    ensures Fold(s, [ev]) == Apply(s, ev)
  {
    assert [ev][..0] == [];
  }

  lemma FoldSnoc(s: State, events: seq<Event>, ev: Event)
    ensures Fold(s, events + [ev]) == Apply(Fold(s, events), ev)
  {
    assert (events + [ev])[..|events|] == events;
  }

  lemma {:induction false} AddAllReplays(taskId: string, artifacts: seq<Artifact>, s: State, draws: seq<string>)
    ensures var o := AddAll(taskId, artifacts, s, draws);
            o.failure.None? ==> o.state == Fold(s, o.events)
  {
    if artifacts != [] {
      var n := |artifacts| - 1;
      AddAllReplays(taskId, artifacts[..n], s, draws);
      var o := AddAll(taskId, artifacts[..n], s, draws);
      if o.failure.None? {
        var last := AddArtifactTo(taskId, "", "", artifacts[n], o.state, o.draws);
        if last.failure.None? && last.events != [] {
          FoldSnoc(s, o.events, last.events[0]);
        }
      }
    }
  }

  lemma CompleteReplays(taskId: string, reason: string, m: Modification, s: State, draws: seq<string>)
    ensures var o := CompleteOp(taskId, reason, m, s, draws);
            o.failure.None? ==> o.state == Fold(s, o.events)
  {
    var added := AddAll(taskId, ArtifactList(m), s, draws);
    AddAllReplays(taskId, ArtifactList(m), s, draws);
    FoldSnoc(s, added.events, StatusChanged(taskId, added.state.task.status, Completed, reason));
    hide AddAll, ArtifactList, Allowed, ValidationOf, Apply, Fold;
  }

  /** The in-memory state after an item is the fold of the events it emitted. */
  lemma ModifyReplays(taskId: string, batchReason: string, m: Modification, s: State, draws: seq<string>)
    ensures var o := Modify(taskId, batchReason, m, s, draws);
            o.failure.None? ==> o.state == Fold(s, o.events)
  {
    hide Edit, ArtifactOp, StatusOp, StepStatusOp, CompleteOp, Apply, FirstNonBlank;
    var o := Modify(taskId, batchReason, m, s, draws);
    if m.op.Complete? {
      CompleteReplays(taskId, FirstNonBlank(m.reason, batchReason), m, s, draws);
    } else if o.failure.None? && o.events != [] {
      assert OneEvent(s, o);
      FoldOne(s, o.events[0]);
      assert o.events == [o.events[0]];
    }
  }

  /** A whole batch, over any loaded state: state and stored events never disagree. */
  lemma {:induction false} BatchReplays(taskId: string, batchReason: string, items: seq<Modification>,
                                        s: State, draws: seq<string>)
    ensures var o := ModifyAll(taskId, batchReason, items, s, draws);
            o.failure.None? ==> o.state == Fold(s, o.events)
  {
    if items != [] {
      var n := |items| - 1;
      BatchReplays(taskId, batchReason, items[..n], s, draws);
      var o := ModifyAll(taskId, batchReason, items[..n], s, draws);
      if o.failure.None? {
        ModifyReplays(taskId, batchReason, items[n], o.state, o.draws);
        FoldConcat(s, o.events, Modify(taskId, batchReason, items[n], o.state, o.draws).events);
      }
    }
  }

  /** Every event of the list is guarded in the state it is applied to. */
  ghost predicate GuardedRun(s: State, events: seq<Event>, taskId: string) {
    forall i :: 0 <= i < |events| ==> Guarded(Fold(s, events[..i]), events[i], taskId)
  }

  lemma {:induction false} GuardedRunSound(s: State, events: seq<Event>, taskId: string)
    requires Sound(s, taskId) && GuardedRun(s, events, taskId)
    ensures Sound(Fold(s, events), taskId)
  {
    if events != [] {
      var n := |events| - 1;
      assert forall i :: 0 <= i < n ==> events[..n][..i] == events[..i];
      GuardedRunSound(s, events[..n], taskId);
      GuardedKeepsSound(Fold(s, events[..n]), taskId, events[n]);
    }
  }

  lemma GuardedRunConcat(s: State, a: seq<Event>, b: seq<Event>, taskId: string)
    requires GuardedRun(s, a, taskId) && GuardedRun(Fold(s, a), b, taskId)
    ensures GuardedRun(s, a + b, taskId)
  {
    forall i | 0 <= i < |a + b| ensures Guarded(Fold(s, (a + b)[..i]), (a + b)[i], taskId) {
      if i < |a| {
        assert (a + b)[..i] == a[..i];
      } else {
        assert (a + b)[..i] == a + b[..i - |a|];
        FoldConcat(s, a, b[..i - |a|]);
      }
    }
  }

  lemma IdExistsIffUsed(s: State, id: string)
    requires Keyed(s) && id != ""
    ensures ArtifactIdExists(s, id) <==> !Unused(s, id)
    ensures FindArtifact(s, id).Some? ==>
      var found := FindArtifact(s, id).value; id in Ids(ArtifactsAt(s, found.executionId, found.stepId))
  {
    if FindArtifact(s, id).Some? {
      var found := FindArtifact(s, id).value;
      ScopedMembers(s, found);
      var artifacts := ArtifactsAt(s, found.executionId, found.stepId);
      var i :| 0 <= i < |artifacts| && artifacts[i] == found.artifact;
    }
    if !Unused(s, id) {
      var e, x :| id in Ids(ArtifactsAt(s, e, x));
      var artifacts := ArtifactsAt(s, e, x);
      var i :| 0 <= i < |artifacts| && artifacts[i].id == id;
      ScopedMembers(s, ScopedArtifact(e, x, artifacts[i]));
    }
  }

  lemma NewArtifactFits(a: Artifact, s: State, draws: seq<string>, e: string, x: string)
    requires Keyed(s)
    ensures NewArtifact(a, s, draws).Ok? ==> Fits(s, e, x, Append(NewArtifact(a, s, draws).value.0))
  {
    if NewArtifact(a, s, draws).Ok? {
      IdExistsIffUsed(s, NewArtifact(a, s, draws).value.0.id);
    }
  }

  lemma EmptyRun(s: State, taskId: string)
    ensures GuardedRun(s, [], taskId)
  {
  }

  lemma GuardedOne(s: State, o: Outcome, taskId: string)
    requires Sound(s, taskId) && OneEvent(s, o) && o.failure.None?
    requires o.events != [] ==> Guarded(s, o.events[0], taskId)
    ensures GuardedRun(s, o.events, taskId) && Sound(o.state, taskId)
  {
    if o.events != [] {
      assert o.events[..0] == [];
      GuardedKeepsSound(s, taskId, o.events[0]);
    }
  }

  lemma {:induction false} AddAllGuarded(taskId: string, artifacts: seq<Artifact>, s: State, draws: seq<string>)
    requires Sound(s, taskId)
    ensures var o := AddAll(taskId, artifacts, s, draws);
            o.failure.None? ==> GuardedRun(s, o.events, taskId) && Sound(o.state, taskId)
  {
    hide ValidTask, UniqueIds, StateDeclared, NewArtifact, Apply, Fits, GuardedRun;
    assert GuardedRun(s, [], taskId) by { EmptyRun(s, taskId); }
    if artifacts != [] {
      var n := |artifacts| - 1;
      AddAllGuarded(taskId, artifacts[..n], s, draws);
      AddAllReplays(taskId, artifacts[..n], s, draws);
      var o := AddAll(taskId, artifacts[..n], s, draws);
      if o.failure.None? {
        NewArtifactFits(artifacts[n], o.state, o.draws, "", "");
        var last := AddArtifactTo(taskId, "", "", artifacts[n], o.state, o.draws);
        if last.failure.None? {
          GuardedOne(o.state, last, taskId);
          GuardedRunConcat(s, o.events, last.events, taskId);
        }
      }
    }
  }

  lemma AddArtifactGuarded(taskId: string, m: Modification, s: State, draws: seq<string>)
    requires Sound(s, taskId) && (m.stepId == "" || StepExists(s.task.steps, m.stepId))
    ensures var o := AddArtifactTo(taskId, NormalizedExecution(s, m.executionId, m.stepId), m.stepId, m.artifact, s, draws);
            o.failure.None? ==> o.events != [] && o.events[0].ArtifactAdded? && Guarded(s, o.events[0], taskId)
  {
    hide ValidTask, UniqueIds, NewArtifact, Apply, Keyed, StateDeclared;
    NewArtifactFits(m.artifact, s, draws, NormalizedExecution(s, m.executionId, m.stepId), m.stepId);
  }

  lemma ArtifactOpGuarded(taskId: string, reason: string, m: Modification, s: State, draws: seq<string>)
    requires Sound(s, taskId) && (m.op.AddArtifact? || m.op.UpdateArtifactOp? || m.op.RemoveArtifactOp?)
    ensures var o := ArtifactOp(taskId, reason, m, s, draws);
            o.failure.None? ==> o.events != [] && Guarded(s, o.events[0], taskId)
  {
    hide ValidTask, UniqueIds, AddArtifactTo, HasContent, Apply, StateDeclared, FindArtifact, Keyed;
    if m.op.AddArtifact? {
      if m.stepId == "" || StepExists(s.task.steps, m.stepId) {
        AddArtifactGuarded(taskId, m, s, draws);
      }
    } else if m.artifactId != "" {
      IdExistsIffUsed(s, m.artifactId);
      if m.artifact.id != "" { IdExistsIffUsed(s, m.artifact.id); }
    }
  }

  lemma CompleteGuarded(taskId: string, reason: string, m: Modification, s: State, draws: seq<string>)
    requires Sound(s, taskId)
    ensures var o := CompleteOp(taskId, reason, m, s, draws);
            o.failure.None? ==> GuardedRun(s, o.events, taskId) && Sound(o.state, taskId)
  {
    var o := CompleteOp(taskId, reason, m, s, draws);
    var added := AddAll(taskId, ArtifactList(m), s, draws);
    AddAllReplays(taskId, ArtifactList(m), s, draws);
    AddAllGuarded(taskId, ArtifactList(m), s, draws);
    if o.failure.None? && !added.state.task.status.Completed? {
      var done := Emit(added.state, added.draws, StatusChanged(taskId, added.state.task.status, Completed, reason));
      GuardedOne(added.state, done, taskId);
      GuardedRunConcat(s, added.events, done.events, taskId);
    }
  }

  lemma EditGuarded(taskId: string, reason: string, m: Modification, s: State, draws: seq<string>)
    requires Sound(s, taskId) && Edits(m.op)
    ensures var o := Edit(taskId, reason, m, s, draws);
            o.failure.None? ==> o.events != [] && o.events[0].Revised? && Guarded(s, o.events[0], taskId)
  {
    hide ValidTask, UniqueIds, Apply;
  }

  lemma StatusOpsGuarded(taskId: string, reason: string, m: Modification, s: State, draws: seq<string>)
    requires Sound(s, taskId)
    ensures m.op.SetStatus? || m.op.Reopen? ==>
      var o := StatusOp(taskId, reason, m, s, draws);
      o.failure.None? && o.events != [] ==> Guarded(s, o.events[0], taskId)
    ensures m.op.SetStepStatus? || m.op.ReopenStep? ==>
      var o := StepStatusOp(taskId, reason, m, s, draws);
      o.failure.None? && o.events != [] ==> Guarded(s, o.events[0], taskId)
  {
    hide ValidTask, UniqueIds, Apply;
  }

  /** Each operation emits only guarded events. */
  lemma ModifyGuarded(taskId: string, batchReason: string, m: Modification, s: State, draws: seq<string>)
    requires Sound(s, taskId)
    ensures var o := Modify(taskId, batchReason, m, s, draws);
            o.failure.None? ==> GuardedRun(s, o.events, taskId) && Sound(o.state, taskId)
  {
    hide Edit, ArtifactOp, StatusOp, StepStatusOp, CompleteOp, Sound, Guarded;
    var reason := FirstNonBlank(m.reason, batchReason);
    var o := Modify(taskId, batchReason, m, s, draws);
    if m.op.Complete? {
      CompleteGuarded(taskId, reason, m, s, draws);
    } else if o.failure.None? {
      assert OneEvent(s, o);
      assert o.events != [] ==> Guarded(s, o.events[0], taskId) by {
        if Edits(m.op) {
          EditGuarded(taskId, reason, m, s, draws);
        } else if m.op.AddArtifact? || m.op.UpdateArtifactOp? || m.op.RemoveArtifactOp? {
          ArtifactOpGuarded(taskId, reason, m, s, draws);
        } else {
          StatusOpsGuarded(taskId, reason, m, s, draws);
        }
      }
      GuardedOne(s, o, taskId);
    }
  }

  /** A batch accepted on a sound task leaves a sound task: ids stay distinct, steps stay a DAG. */
  lemma {:induction false} BatchSound(taskId: string, batchReason: string, items: seq<Modification>,
                                      s: State, draws: seq<string>)
    requires Sound(s, taskId)
    ensures var o := ModifyAll(taskId, batchReason, items, s, draws);
            o.failure.None? ==> Sound(o.state, taskId)
  {
    if items != [] {
      var n := |items| - 1;
      BatchSound(taskId, batchReason, items[..n], s, draws);
      var o := ModifyAll(taskId, batchReason, items[..n], s, draws);
      if o.failure.None? {
        ModifyGuarded(taskId, batchReason, items[n], o.state, o.draws);
      }
    }
  }
}
