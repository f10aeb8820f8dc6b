/** What the stream records about an operation, and what completion asks for, said once more from outside. */
module TaskAccounts {
  import opened Wrappers
  import opened GoStrings
  import opened Sorting
  import opened TaskTypes
  import opened TaskProjection
  import opened TaskQueries
  import opened TaskEffects
  import opened TaskModification
  import opened TaskInvariants
  import opened TaskTheorems
  import opened TaskLosses
  import opened TaskMeaning
  import opened TaskFields
  import opened TaskRequests

  /** The item's own reason goes before the one of the batch; blank ones do not count. */
  predicate IsReason(reason: string, own: string, batch: string) {
    if TrimSpace(own) != "" then reason == own
    else if TrimSpace(batch) != "" then reason == batch
    else reason == ""
  }

  /** The event names the task, gives the reason, and says what the status was before. */
  predicate Records(ev: Event, taskId: string, own: string, batch: string, s: State) {
    match ev
    case Revised(id, _, reason) => id == taskId && IsReason(reason, own, batch)
    case StatusChanged(id, previous, _, reason) =>
      id == taskId && IsReason(reason, own, batch) && previous == s.task.status
    case ArtifactAdded(id, _, _, _) => id == taskId
    case ArtifactUpdated(id, _, _, _, _) => id == taskId
    case ArtifactRemoved(id, _, _, _, reason) => id == taskId && IsReason(reason, own, batch)
    case StepStatusChanged(id, e, x, previous, _, reason, _) =>
      id == taskId && IsReason(reason, own, batch) && previous == StepStatusOf(s, e, x)
    case _ => false
  }

  lemma ReasonChosen(own: string, batch: string)
    ensures IsReason(FirstNonBlank(own, batch), own, batch)
  {
    hide TrimSpace;
  }

  lemma StatusesRecorded(taskId: string, reason: string, m: Modification, s: State, draws: seq<string>, own: string, batch: string)
    requires IsReason(reason, own, batch)
    ensures m.op.SetStatus? || m.op.Reopen? ==>
      forall ev <- StatusOp(taskId, reason, m, s, draws).events :: Records(ev, taskId, own, batch, s)
    ensures m.op.SetStepStatus? || m.op.ReopenStep? ==>
      forall ev <- StepStatusOp(taskId, reason, m, s, draws).events :: Records(ev, taskId, own, batch, s)
  {
    hide IsReason, Apply, StepExists, StepStatusOf;
  }

  lemma ArtifactsRecorded(taskId: string, reason: string, m: Modification, s: State, draws: seq<string>, own: string, batch: string)
    requires IsReason(reason, own, batch) && (m.op.AddArtifact? || m.op.UpdateArtifactOp? || m.op.RemoveArtifactOp?)
    ensures forall ev <- ArtifactOp(taskId, reason, m, s, draws).events :: Records(ev, taskId, own, batch, s)
  {
    hide IsReason, Apply, StepExists, FindArtifact, NewArtifact, HasContent;
  }

  lemma {:induction false} AddedRecorded(taskId: string, list: seq<Artifact>, s: State, draws: seq<string>, own: string, batch: string)
    requires AddAll(taskId, list, s, draws).failure.None?
    ensures forall ev <- AddAll(taskId, list, s, draws).events :: Records(ev, taskId, own, batch, s)
    ensures AddAll(taskId, list, s, draws).state.task.status == s.task.status
  {
    hide IsReason, NewArtifact, StepStatusOf;
    if list != [] {
      AddedRecorded(taskId, list[..|list| - 1], s, draws, own, batch);
    }
  }

  lemma StatusRecorded(taskId: string, reason: string, s: State, own: string, batch: string)
    requires IsReason(reason, own, batch)
    ensures Records(StatusChanged(taskId, s.task.status, Completed, reason), taskId, own, batch, s)
  {
  }

  lemma CompletionRecorded(taskId: string, reason: string, m: Modification, s: State, draws: seq<string>, own: string, batch: string)
    requires IsReason(reason, own, batch) && CompleteOp(taskId, reason, m, s, draws).failure.None?
    ensures forall ev <- CompleteOp(taskId, reason, m, s, draws).events :: Records(ev, taskId, own, batch, s)
  {
    AddedRecorded(taskId, ArtifactList(m), s, draws, own, batch);
    StatusRecorded(taskId, reason, s, own, batch);
    hide IsReason, AddAll, ArtifactList, Apply, ValidationOf, Allowed, Records;
  }

  /** Every event of an accepted operation says whose task it is, why, and what was the case before. */
  lemma EventsRecord(taskId: string, batchReason: string, m: Modification, s: State, draws: seq<string>)
    requires Modify(taskId, batchReason, m, s, draws).failure.None?
    ensures forall ev <- Modify(taskId, batchReason, m, s, draws).events :: Records(ev, taskId, m.reason, batchReason, s)
  {
    var reason := FirstNonBlank(m.reason, batchReason);
    ReasonChosen(m.reason, batchReason);
    hide Edit, ArtifactOp, StatusOp, StepStatusOp, CompleteOp, IsReason, FirstNonBlank;
    if m.op.Complete? {
      CompletionRecorded(taskId, reason, m, s, draws, m.reason, batchReason);
    } else if m.op.AddArtifact? || m.op.UpdateArtifactOp? || m.op.RemoveArtifactOp? {
      ArtifactsRecorded(taskId, reason, m, s, draws, m.reason, batchReason);
    } else if !Edits(m.op) {
      StatusesRecorded(taskId, reason, m, s, draws, m.reason, batchReason);
    }
  }

  /** The execution asked for; without one the current execution, and without that the manual one. */
  predicate IsExecution(e: string, asked: string, s: State) {
    if asked != "" then e == asked else if s.current != "" then e == s.current else e == "manual"
  }

  /** A step status and a step's artifact go to that execution; an artifact for no step goes where it is asked to. */
  lemma ExecutionChosen(taskId: string, batchReason: string, m: Modification, s: State, draws: seq<string>)
    requires Modify(taskId, batchReason, m, s, draws).failure.None?
    ensures forall ev <- Modify(taskId, batchReason, m, s, draws).events ::
      && (ev.StepStatusChanged? ==> IsExecution(ev.executionId, m.executionId, s) && ev.stepId == m.stepId)
      && (ev.ArtifactAdded? && m.op.AddArtifact? ==>
            && ev.stepId == m.stepId
            && if m.stepId != "" then IsExecution(ev.executionId, m.executionId, s) else ev.executionId == m.executionId)
      && (ev.ArtifactAdded? && m.op.Complete? ==> ev.executionId == "" && ev.stepId == "")
  {
    hide Edit, Apply, StepExists, StepStatusOf, FindArtifact, NewArtifact, HasContent, FirstNonBlank, CompleteOp;
    if m.op.Complete? {
      CompletedInTask(taskId, FirstNonBlank(m.reason, batchReason), m, s, draws);
    }
  }

  lemma CompletedInTask(taskId: string, reason: string, m: Modification, s: State, draws: seq<string>)
    requires CompleteOp(taskId, reason, m, s, draws).failure.None?
    ensures forall ev <- CompleteOp(taskId, reason, m, s, draws).events ::
      !ev.StepStatusChanged? && (ev.ArtifactAdded? ==> ev.executionId == "" && ev.stepId == "")
  {
    AddedInTask(taskId, ArtifactList(m), s, draws);
    hide AddAll, ArtifactList, Apply, ValidationOf, Allowed;
  }

  lemma {:induction false} AddedInTask(taskId: string, list: seq<Artifact>, s: State, draws: seq<string>)
    requires AddAll(taskId, list, s, draws).failure.None?
    ensures forall ev <- AddAll(taskId, list, s, draws).events ::
      ev.ArtifactAdded? && ev.executionId == "" && ev.stepId == ""
  {
    hide NewArtifact, Apply;
    if list != [] {
      AddedInTask(taskId, list[..|list| - 1], s, draws);
    }
  }

  /** `complete` takes the artifacts it is given, otherwise the outputs, otherwise the single artifact if it says anything. */
  lemma CompleteTakes(m: Modification)
    ensures m.artifacts != [] ==> ArtifactList(m) == m.artifacts
    ensures m.artifacts == [] && m.outputs != [] ==> ArtifactList(m) == m.outputs
    ensures m.artifacts == [] && m.outputs == [] ==>
      ArtifactList(m) == if (m.artifact.name + m.artifact.description + m.artifact.ref + m.artifact.id) == ""
                         then [] else [m.artifact]
  {
  }

  lemma UnusedAfterAdding(s: State, added: seq<Artifact>, id: string)
    requires Keyed(s)
    ensures Unused(s.(task := s.task.(artifacts := s.task.artifacts + added)), id) <==>
            Unused(s, id) && id !in Ids(added)
  {
    var s' := s.(task := s.task.(artifacts := s.task.artifacts + added));
    IdsConcat(s.task.artifacts, added);
    assert ArtifactsAt(s', "", "") == s.task.artifacts + added && ArtifactsAt(s, "", "") == s.task.artifacts;
    assert forall e, x :: e != "" || x != "" ==> ArtifactsAt(s', e, x) == ArtifactsAt(s, e, x);
    hide ArtifactsAt, Ids, Keyed;
  }

  lemma IdsConcat(a: seq<Artifact>, b: seq<Artifact>)
    ensures Ids(a + b) == Ids(a) + Ids(b)
  {
    assert forall i :: 0 <= i < |a| ==> (a + b)[i] == a[i];
    assert forall i :: 0 <= i < |b| ==> (a + b)[|a| + i] == b[i];
  }

  /** Artifacts that bring their ids are all described, with ids that are new to the task and to each other. */
  ghost predicate AllNew(s: State, list: seq<Artifact>) {
    (forall i :: 0 <= i < |list| ==> Described(list[i]) && Unused(s, list[i].id)) && NoRepeats(list)
  }

  lemma AllNewSnoc(s: State, init: seq<Artifact>, last: Artifact)
    ensures AllNew(s, init + [last]) <==>
            AllNew(s, init) && Described(last) && Unused(s, last.id) && last.id !in Ids(init)
  {
    hide Described, Unused;
    var list := init + [last];
    assert list[|init|] == last && forall i :: 0 <= i < |init| ==> list[i] == init[i];
    if AllNew(s, list) {
      assert forall i :: 0 <= i < |init| ==> list[i].id != list[|init|].id;
    }
  }

  lemma AddOneAcceptedIff(taskId: string, a: Artifact, s: State, draws: seq<string>)
    requires Keyed(s) && Named(s, taskId) == s && a.id != ""
    ensures var o := AddArtifactTo(taskId, "", "", a, s, draws);
      && (o.failure.None? <==> Described(a) && Unused(s, a.id))
      && (o.failure.None? ==> o.state == s.(task := s.task.(artifacts := s.task.artifacts + [a])))
  {
    NewArtifactMeaning(a, s, draws);
    DescribedIff(a);
    hide Keyed, Unused, HasContent, Described, NewArtifact;
  }

  lemma {:induction false} AddAllAcceptedIff(taskId: string, list: seq<Artifact>, s: State, draws: seq<string>)
    requires Sound(s, taskId) && forall a <- list :: a.id != ""
    ensures var o := AddAll(taskId, list, s, draws);
      && (o.failure.None? <==> AllNew(s, list))
      && (o.failure.None? ==> o.state == s.(task := s.task.(artifacts := s.task.artifacts + list)))
  {
    if list == [] {
      assert s.task.artifacts + [] == s.task.artifacts;
    } else {
      hide Sound, Keyed, UniqueIds, Unused, AllNew, Described, AddArtifactTo, Ids, StepExists, OneEvent;
      var init, last := list[..|list| - 1], list[|list| - 1];
      assert list == init + [last];
      AddAllAcceptedIff(taskId, init, s, draws);
      AllNewSnoc(s, init, last);
      var o := AddAll(taskId, init, s, draws);
      if o.failure.None? {
        SoundParts(s, taskId);
        AddAllGuarded(taskId, init, s, draws);
        SoundParts(o.state, taskId);
        UnusedAfterAdding(s, init, last.id);
        AddOneAcceptedIff(taskId, last, o.state, o.draws);
        assert s.task.artifacts + init + [last] == s.task.artifacts + list;
      }
    }
  }

  lemma CompleteDecision(taskId: string, batchReason: string, m: Modification, s: State, draws: seq<string>)
    requires m.op.Complete?
    ensures var o := AddAll(taskId, ArtifactList(m), s, draws);
      Modify(taskId, batchReason, m, s, draws).failure.None? <==>
        o.failure.None? && Allowed(ValidationOf(o.state), m.forceOverrides)
  {
    hide AddAll, ArtifactList, Allowed, ValidationOf, Apply, FirstNonBlank, Edit, StatusOp, StepStatusOp, ArtifactOp;
  }

  /** When `complete` is accepted, for artifacts that bring their ids. */
  lemma CompleteAcceptedIff(taskId: string, batchReason: string, m: Modification, s: State, draws: seq<string>)
    requires Sound(s, taskId) && m.op.Complete? && forall a <- ArtifactList(m) :: a.id != ""
    ensures var s' := s.(task := s.task.(artifacts := s.task.artifacts + ArtifactList(m)));
      Modify(taskId, batchReason, m, s, draws).failure.None? <==>
        AllNew(s, ArtifactList(m)) && Overridden(ValidationOf(s').checks, m.forceOverrides)
  {
    hide Modify, Sound, AllNew, AddAll, ArtifactList, Allowed, Overridden, ValidationOf;
    var list := ArtifactList(m);
    CompleteDecision(taskId, batchReason, m, s, draws);
    AddAllAcceptedIff(taskId, list, s, draws);
    AllowedIffFailingOverridden(s.(task := s.task.(artifacts := s.task.artifacts + list)), m.forceOverrides);
  }

  predicate NamedAlike(a: string, b: string) {
    |a| == |b| && forall i :: 0 <= i < |a| ==>
      a[i] == b[i] || ('A' <= a[i] <= 'Z' && b[i] as int == a[i] as int + 32) || ('A' <= b[i] <= 'Z' && a[i] as int == b[i] as int + 32)
  }

  lemma NamedAlikeIff(a: string, b: string)
    ensures EqualFold(a, b) <==> NamedAlike(a, b)
  {
    forall i | 0 <= i < |a| && |a| == |b|
      ensures Fold1(a[i]) == Fold1(b[i]) <==>
        a[i] == b[i] || ('A' <= a[i] <= 'Z' && b[i] as int == a[i] as int + 32)
        || ('A' <= b[i] <= 'Z' && a[i] as int == b[i] as int + 32)
    {
      FoldedAlike(a[i], b[i]);
    }
    hide Fold1;
  }

  lemma FoldedAlike(c: char, d: char)
    ensures Fold1(c) == Fold1(d) <==>
      c == d || ('A' <= c <= 'Z' && d as int == c as int + 32) || ('A' <= d <= 'Z' && c as int == d as int + 32)
  {
  }

  /** An artifact stands for an output when it has the output's id, or its name in upper or lower case. */
  predicate StandsFor(a: Artifact, output: Artifact) {
    (output.id != "" && a.id == output.id) || (output.name != "" && NamedAlike(a.name, output.name))
  }

  /** Some artifact of the task, of an execution, or of a step stands for the output. */
  ghost predicate Produced(s: State, output: Artifact) {
    exists e, x, a :: StandsIn(s, e, x, a, output)
  }

  ghost predicate StandsIn(s: State, e: string, x: string, a: Artifact, output: Artifact) {
    a in ArtifactsAt(s, e, x) && StandsFor(a, output)
  }

  lemma ProducedIff(s: State, output: Artifact)
    requires Keyed(s)
    ensures Satisfied(output, Scoped(s)) <==> Produced(s, output)
  {
    hide Scoped, ArtifactsAt, Keyed, EqualFold, NamedAlike;
    if Satisfied(output, Scoped(s)) {
      var i :| 0 <= i < |Scoped(s)| && Satisfies(output, Scoped(s)[i].artifact);
      var m := Scoped(s)[i];
      ScopedMembers(s, m);
      NamedAlikeIff(m.artifact.name, output.name);
      assert StandsIn(s, m.executionId, m.stepId, m.artifact, output);
    }
    if Produced(s, output) {
      var e, x, a :| StandsIn(s, e, x, a, output);
      ScopedMembers(s, ScopedArtifact(e, x, a));
      NamedAlikeIff(a.name, output.name);
      var i :| 0 <= i < |Scoped(s)| && Scoped(s)[i] == ScopedArtifact(e, x, a);
      assert Satisfies(output, Scoped(s)[i].artifact);
    }
  }

  lemma {:induction false} OutputChecksOk(outputs: seq<Artifact>, produced: seq<ScopedArtifact>)
    ensures AllOk(OutputChecks(outputs, produced)) <==>
      forall i :: 0 <= i < |outputs| && outputs[i].required ==> Satisfied(outputs[i], produced)
    ensures forall c <- OutputChecks(outputs, produced) :: c.code == "required_output"
  {
    hide Satisfied;
    if outputs != [] {
      var n := |outputs| - 1;
      OutputChecksOk(outputs[..n], produced);
      assert forall i :: 0 <= i < n ==> outputs[..n][i] == outputs[i];
      AllOkSnoc(OutputChecks(outputs[..n], produced), Check("required_output", Satisfied(outputs[n], produced), outputs[n].id));
      assert OutputChecks(outputs[..n], produced) + [] == OutputChecks(outputs[..n], produced);
    }
  }

  ghost predicate AllRequiredProduced(s: State) {
    forall i :: 0 <= i < |s.task.outputs| && s.task.outputs[i].required ==> Produced(s, s.task.outputs[i])
  }

  /** A step is over, or it waits for one that will never be completed. */
  predicate Over(s: State, x: Step) {
    var status := StepStatusOf(s, s.current, x.id);
    || status.StepCompleted? || status.StepFailed? || status.StepCancelled? || status.Skipped?
    || ((status.Waiting? || status.NoStepStatus?)
        && exists d <- x.dependsOn ::
             var dependency := StepStatusOf(s, s.current, d);
             dependency.StepFailed? || dependency.StepCancelled? || dependency.Skipped?)
  }

  ghost predicate AllStepsOver(s: State) {
    s.current in s.executions && forall i :: 0 <= i < |s.task.steps| ==> Over(s, s.task.steps[i])
  }

  lemma StepsOverIff(s: State)
    requires s.task.steps != []
    ensures AllStepsTerminal(s) <==> AllStepsOver(s)
  {
    if s.current in s.executions {
      var exec := s.executions[s.current];
      forall i | 0 <= i < |s.task.steps| ensures StepSettled(s.task.steps[i], exec) <==> Over(s, s.task.steps[i]) {
        assert HasBlockedDependency(s.task.steps[i], exec) <==>
          exists d <- s.task.steps[i].dependsOn ::
            var dependency := StepStatusOf(s, s.current, d);
            dependency.StepFailed? || dependency.StepCancelled? || dependency.Skipped?;
      }
    }
  }

  lemma OutputsProducedIff(s: State)
    requires Keyed(s)
    ensures OutputsProduced(s) <==> AllRequiredProduced(s)
  {
    OutputChecksOk(s.task.outputs, Scoped(s));
    hide Scoped, Satisfied, Produced, Keyed, OutputChecks, AllOk;
    forall i | 0 <= i < |s.task.outputs|
      ensures Satisfied(s.task.outputs[i], Scoped(s)) <==> Produced(s, s.task.outputs[i])
    {
      ProducedIff(s, s.task.outputs[i]);
    }
  }

  /** A task is completable when all required outputs are produced and all steps of the current execution are over. */
  lemma CompletableIff(s: State)
    requires Keyed(s)
    ensures ValidationOf(s).completable <==> AllRequiredProduced(s) && (s.task.steps == [] || AllStepsOver(s))
  {
    CompletableParts(s);
    OutputsProducedIff(s);
    if s.task.steps != [] {
      StepsOverIff(s);
    }
    hide ValidationOf, OutputsProduced, AllRequiredProduced, AllStepsOver, AllStepsTerminal, Keyed;
  }

  /** The two conditions can be overridden one by one, and by no other code. */
  lemma OverridesMeaning(s: State, overrides: seq<string>)
    requires Keyed(s)
    ensures var codes := TrimmedCodes(overrides);
      Allowed(ValidationOf(s), overrides) <==>
        && ("required_output" in codes || AllRequiredProduced(s))
        && ("steps_terminal" in codes || s.task.steps == [] || AllStepsOver(s))
  {
    var v := ValidationOf(s);
    var outputs := OutputChecks(s.task.outputs, Scoped(s));
    AllowedIffFailingOverridden(s, overrides);
    OutputChecksOk(s.task.outputs, Scoped(s));
    OutputsProducedIff(s);
    if s.task.steps != [] {
      StepsOverIff(s);
    }
    hide Scoped, OutputChecks, AllRequiredProduced, AllStepsOver, AllStepsTerminal, Keyed, Allowed, TrimmedCodes;
    OverriddenParts(s, outputs, overrides);
  }

  lemma OverriddenParts(s: State, outputs: seq<Check>, overrides: seq<string>)
    requires outputs == OutputChecks(s.task.outputs, Scoped(s)) && forall c <- outputs :: c.code == "required_output"
    ensures Overridden(ValidationOf(s).checks, overrides) <==>
      && ("required_output" in TrimmedCodes(overrides) || AllOk(outputs))
      && ("steps_terminal" in TrimmedCodes(overrides) || s.task.steps == [] || AllStepsTerminal(s))
  {
    hide Scoped, OutputChecks, AllStepsTerminal, TrimmedCodes;
    var steps := if s.task.steps == [] then [] else [Check("steps_terminal", AllStepsTerminal(s), "")];
    var criteria := if s.task.criteria == [] then [] else [Check("acceptance_manual", true, "")];
    OverriddenConcat(outputs + steps, criteria, overrides);
    OverriddenConcat(outputs, steps, overrides);
    OneCode(outputs, "required_output", overrides);
    OneCode(steps, "steps_terminal", overrides);
    OneCode(criteria, "acceptance_manual", overrides);
    OneCode([Check("task_shape", true, "")], "task_shape", overrides);
    hide Overridden;
    assert AllOk(steps) <==> s.task.steps == [] || AllStepsTerminal(s);
  }

  lemma OneCode(checks: seq<Check>, code: string, overrides: seq<string>)
    requires forall c <- checks :: c.code == code
    ensures Overridden(checks, overrides) <==> code in TrimmedCodes(overrides) || AllOk(checks)
  {
    hide TrimmedCodes;
    if i :| 0 <= i < |checks| && !checks[i].ok {
      assert checks[i] in checks;
    }
    assert forall i :: 0 <= i < |checks| ==> checks[i] in checks;
  }

  lemma OverriddenConcat(a: seq<Check>, b: seq<Check>, overrides: seq<string>)
    ensures Overridden(a + b, overrides) <==> Overridden(a, overrides) && Overridden(b, overrides)
  {
    hide TrimmedCodes;
    assert forall i :: 0 <= i < |a| ==> (a + b)[i] == a[i];
    assert forall i :: 0 <= i < |b| ==> (a + b)[|a| + i] == b[i];
  }

  /** The keys of a watcher, with what is to be written under them. */
  function Given(thread: string, branch: string, run: string): map<string, string> {
    map["watch_thread_id" := thread, "watch_branch_id" := branch, "watch_run_id" := run]
  }

  /** Given values that are not blank are written; everything else stays. */
  predicate WrittenAt(before: map<string, string>, after: map<string, string>, given: map<string, string>, k: string) {
    if k in given && given[k] != "" then k in after && after[k] == given[k]
    else (k in after <==> k in before) && (k in before ==> k in after && after[k] == before[k])
  }

  lemma WatchedAt(before: map<string, string>, thread: string, branch: string, run: string, k: string)
    ensures WrittenAt(before, Watched(before, WatchRequest(thread, branch, run)), Given(thread, branch, run), k)
  {
    assert WatchThread[6] == 't' && WatchBranch[6] == 'b' && WatchRun[6] == 'r';
  }

  lemma WatchedSameIff(before: map<string, string>, after: map<string, string>, given: map<string, string>)
    requires forall k :: WrittenAt(before, after, given, k)
    ensures after == before <==> forall k <- given :: given[k] != "" ==> k in before && before[k] == given[k]
  {
    if forall k <- given :: given[k] != "" ==> k in before && before[k] == given[k] {
      forall k ensures (k in after <==> k in before) && (k in before ==> after[k] == before[k]) {
        assert WrittenAt(before, after, given, k);
      }
    } else {
      var k :| k in given && given[k] != "" && !(k in before && before[k] == given[k]);
      assert WrittenAt(before, after, given, k);
    }
  }

  /** The watcher's thread, branch and run are written under their own keys; blank ones and all else stay. */
  lemma WatchMeaning(taskId: string, thread: string, branch: string, run: string, s: State, draws: seq<string>)
    requires Sound(s, taskId) && Batch(taskId, WatchRequest(thread, branch, run), s, draws).Some?
    ensures var t' := Fold(s, Batch(taskId, WatchRequest(thread, branch, run), s, draws).value).task;
      && t' == s.task.(metadata := t'.metadata)
      && forall k :: WrittenAt(s.task.metadata, t'.metadata, Given(thread, branch, run), k)
  {
    var ev := Batch(taskId, WatchRequest(thread, branch, run), s, draws).value[0];
    FoldOne(s, ev);
    hide Sound, Keyed, UniqueIds, Given, Watched, WrittenAt, Fold;
    forall k {
      WatchedAt(s.task.metadata, thread, branch, run, k);
    }
  }

  /** The watcher appends nothing exactly when all it would write is there already. */
  lemma WatchSilentIff(taskId: string, thread: string, branch: string, run: string, s: State, draws: seq<string>)
    requires Sound(s, taskId) && thread != ""
    ensures Batch(taskId, WatchRequest(thread, branch, run), s, draws).None? <==>
      var given := Given(thread, branch, run);
      forall k <- given :: given[k] != "" ==> k in s.task.metadata && s.task.metadata[k] == given[k]
  {
    hide Given, Watched, WrittenAt;
    forall k {
      WatchedAt(s.task.metadata, thread, branch, run, k);
    }
    WatchedSameIff(s.task.metadata, Watched(s.task.metadata, WatchRequest(thread, branch, run)), Given(thread, branch, run));
  }
}
