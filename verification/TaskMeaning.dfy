/** What each operation accepts and leaves, in terms of statuses and artifacts by scope, without events. */
module TaskMeaning {
  import opened Wrappers
  import opened GoStrings
  import opened StepGraph
  import opened TaskTypes
  import opened TaskValidation
  import opened TaskProjection
  import opened TaskQueries
  import opened TaskEffects
  import opened TaskModification
  import opened TaskInvariants
  import opened TaskTheorems
  import opened TaskLosses

  predicate MayBecome(a: Status, b: Status) {
    && ValidStatus(b)
    && (a == b || !(Terminal(a) && ActiveTaskStatus(b)))
    && !(a.Running? && (b.Ready? || b.Draft?))
  }

  /** `set_status` changes the status to the given one, and nothing else; it is silent when nothing changes. */
  lemma SetStatusMeaning(taskId: string, batchReason: string, m: Modification, s: State, draws: seq<string>)
    requires Sound(s, taskId) && m.op.SetStatus?
    ensures var o := Modify(taskId, batchReason, m, s, draws);
      && (o.failure.None? <==> MayBecome(s.task.status, m.status))
      && (o.failure.None? ==>
            && o.state == s.(task := s.task.(status := m.status)) && o.draws == draws
            && (o.events == [] <==> s.task.status == m.status))
  {
    hide ValidTask, UniqueIds;
  }

  function ReopenTarget(m: Modification): Status {
    if m.status.NoStatus? then Ready else m.status
  }

  /** `reopen` takes a terminal task to the active status asked for, `ready` by default. */
  lemma ReopenMeaning(taskId: string, batchReason: string, m: Modification, s: State, draws: seq<string>)
    requires Sound(s, taskId) && m.op.Reopen?
    ensures var o := Modify(taskId, batchReason, m, s, draws);
      && (o.failure.None? <==> Terminal(s.task.status) && ActiveTaskStatus(ReopenTarget(m)))
      && (o.failure.None? ==> o.state == s.(task := s.task.(status := ReopenTarget(m))) && |o.events| == 1)
  {
    hide ValidTask, UniqueIds;
  }

  function StepTarget(m: Modification): StepStatus {
    if m.op.ReopenStep? && m.stepStatus.NoStepStatus? then Waiting else m.stepStatus
  }

  predicate StepMayBecome(op: Op, a: StepStatus, b: StepStatus) {
    if op.ReopenStep? then StepTerminal(a) && ActiveStepStatus(b)
    else ValidStepStatus(b) && !(StepTerminal(a) && ActiveStepStatus(b))
  }

  lemma SoundParts(s: State, taskId: string)
    requires Sound(s, taskId)
    ensures Keyed(s) && UniqueIds(s) && s.task.id == taskId && Named(s, taskId) == s && !StepExists(s.task.steps, "")
  {
    NoEmptyStep(s.task);
  }

  function StepEvent(taskId: string, reason: string, m: Modification, s: State): Event {
    var execution := DefaultExecution(s, m.executionId);
    StepStatusChanged(taskId, execution, m.stepId, StepStatusOf(s, execution, m.stepId), StepTarget(m), reason,
                      if m.op.ReopenStep? then "" else m.stepOutput)
  }

  lemma StepStatusEmits(taskId: string, reason: string, m: Modification, s: State, draws: seq<string>)
    requires Sound(s, taskId) && (m.op.SetStepStatus? || m.op.ReopenStep?)
    ensures var o := StepStatusOp(taskId, reason, m, s, draws);
      && (o.failure.None? <==>
            StepExists(s.task.steps, m.stepId)
            && StepMayBecome(m.op, StepStatusOf(s, DefaultExecution(s, m.executionId), m.stepId), StepTarget(m)))
      && (o.failure.None? ==> o.state == Apply(s, StepEvent(taskId, reason, m, s)))
  {
    SoundParts(s, taskId);
    hide Sound, Keyed, UniqueIds, Named, Apply, StepExists, StepStatusOf, DefaultExecution;
  }

  lemma ModifyStepStatus(taskId: string, batchReason: string, m: Modification, s: State, draws: seq<string>)
    requires m.op.SetStepStatus? || m.op.ReopenStep?
    ensures Modify(taskId, batchReason, m, s, draws)
            == StepStatusOp(taskId, FirstNonBlank(m.reason, batchReason), m, s, draws)
  {
    hide StepStatusOp;
  }

  lemma StepOutput(s: State, ev: Event)
    requires ev.StepStatusChanged? && ev.executionId != "" && Keyed(s)
    ensures var s' := Apply(s, ev);
      && s'.current == ev.executionId && ev.executionId in s'.executions
      && var was := if ev.executionId in s.executions then StepOf(s.executions[ev.executionId], ev.stepId) else EmptyStep;
         StepOf(s'.executions[ev.executionId], ev.stepId) ==
         was.(stepId := ev.stepId, status := ev.nextStep,
              output := if StepTerminal(ev.nextStep) then ev.output else "",
              error := if StepTerminal(ev.nextStep) then was.error else "")
  {
  }

  /**
   * `set_step_status` and `reopen_step` change the status of one declared step in one execution, which
   * becomes the current one. A terminal status brings its output; any other one clears output and error.
   */
  lemma StepStatusMeaning(taskId: string, batchReason: string, m: Modification, s: State, draws: seq<string>)
    requires Sound(s, taskId) && (m.op.SetStepStatus? || m.op.ReopenStep?)
    ensures var o := Modify(taskId, batchReason, m, s, draws);
      var execution := DefaultExecution(s, m.executionId);
      && (o.failure.None? <==>
            StepExists(s.task.steps, m.stepId)
            && StepMayBecome(m.op, StepStatusOf(s, execution, m.stepId), StepTarget(m)))
      && (o.failure.None? ==>
            && o.state.task == s.task && o.state.current == execution && execution in o.state.executions
            && (forall e, x :: ArtifactsAt(o.state, e, x) == ArtifactsAt(s, e, x))
            && (forall e, x :: StepStatusOf(o.state, e, x) ==
                  if e == execution && x == m.stepId then StepTarget(m) else StepStatusOf(s, e, x))
            && var was := if execution in s.executions then StepOf(s.executions[execution], m.stepId) else EmptyStep;
               StepOf(o.state.executions[execution], m.stepId) ==
               was.(stepId := m.stepId, status := StepTarget(m),
                    output := if StepTerminal(StepTarget(m)) then m.stepOutput else "",
                    error := if StepTerminal(StepTarget(m)) then was.error else ""))
  {
    SoundParts(s, taskId);
    StepStatusEmits(taskId, FirstNonBlank(m.reason, batchReason), m, s, draws);
    ModifyStepStatus(taskId, batchReason, m, s, draws);
    hide Sound, Apply, StepExists, StepStatusOf, ArtifactsAt, Modify, StepStatusOp, Keyed, UniqueIds, FirstNonBlank;
    if Modify(taskId, batchReason, m, s, draws).failure.None? {
      var ev := StepEvent(taskId, FirstNonBlank(m.reason, batchReason), m, s);
      StepStatusEffect(s, ev);
      StepOutput(s, ev);
    }
  }

  /** Two states that differ at most in the artifacts of one scope and in the current execution. */
  ghost predicate OnlyScope(s: State, s': State, execution: string, step: string) {
    && s'.task == s.task.(artifacts := s'.task.artifacts)
    && (forall e, x :: e != execution || x != step ==> ArtifactsAt(s', e, x) == ArtifactsAt(s, e, x))
    && (forall e, x :: StepStatusOf(s', e, x) == StepStatusOf(s, e, x))
  }

  predicate Carries(ev: Event, taskId: string, e: string, x: string, change: Change) {
    match change
    case Append(a) => ev == ArtifactAdded(taskId, e, x, a)
    case Replace(id, a) => ev == ArtifactUpdated(taskId, e, x, id, a)
    case Delete(id) => ev.ArtifactRemoved? && ev == ArtifactRemoved(taskId, e, x, id, ev.reason)
  }

  lemma ChangedScope(s: State, taskId: string, ev: Event, e: string, x: string, change: Change)
    requires Keyed(s) && Named(s, taskId) == s && (e == "" ==> x == "") && Carries(ev, taskId, e, x, change)
    ensures OnlyScope(s, Apply(s, ev), e, x)
    ensures ArtifactsAt(Apply(s, ev), e, x) == Changed(ArtifactsAt(s, e, x), change)
  {
    assert Apply(s, ev) == ChangeArtifacts(s, e, x, change) by {
      hide ChangeArtifacts, Keyed;
    }
    ChangeEffect(s, e, x, change);
  }

  lemma AddedApplied(s: State, taskId: string, e: string, x: string)
    requires Named(s, taskId) == s
    ensures forall a :: Apply(s, ArtifactAdded(taskId, e, x, a)) == ChangeArtifacts(s, e, x, Append(a))
  {
    hide ChangeArtifacts;
  }

  /** Adding an artifact makes it the last of its scope; `completable` is decided by that scope's execution. */
  lemma AddArtifactChange(taskId: string, reason: string, m: Modification, s: State, draws: seq<string>)
      returns (a: Artifact)
    requires Sound(s, taskId) && m.op.AddArtifact? && ArtifactOp(taskId, reason, m, s, draws).failure.None?
    ensures ArtifactOp(taskId, reason, m, s, draws).state
            == ChangeArtifacts(s, NormalizedExecution(s, m.executionId, m.stepId), m.stepId, Append(a))
  {
    SoundParts(s, taskId);
    hide Sound, NewArtifact, StepExists, Keyed, UniqueIds, FindArtifact, ArtifactIdExists, HasContent, Apply,
         ChangeArtifacts;
    AddedApplied(s, taskId, NormalizedExecution(s, m.executionId, m.stepId), m.stepId);
    a := ArtifactOp(taskId, reason, m, s, draws).events[0].artifact;
  }

  /**
   * After an accepted `add_artifact` a completable task stays completable exactly when the artifact goes to
   * the task, or there are no steps, or all steps are settled in the execution it goes to.
   */
  lemma CompletableAfterModifyIff(taskId: string, batchReason: string, m: Modification, s: State, draws: seq<string>)
    requires Sound(s, taskId) && m.op.AddArtifact? && ValidationOf(s).completable
    requires Modify(taskId, batchReason, m, s, draws).failure.None?
    ensures var e := NormalizedExecution(s, m.executionId, m.stepId);
      ValidationOf(Modify(taskId, batchReason, m, s, draws).state).completable <==>
        || e == "" || s.task.steps == []
        || (e in s.executions && AllStepsSettled(s.task.steps, s.executions[e]))
  {
    SoundParts(s, taskId);
    hide Sound, ArtifactOp, ValidationOf, ChangeArtifacts, AllStepsSettled, Keyed;
    var a := AddArtifactChange(taskId, FirstNonBlank(m.reason, batchReason), m, s, draws);
    CompletableAfterAddIff(s, NormalizedExecution(s, m.executionId, m.stepId), m.stepId, a);
  }

  /** The id `add_artifact` and `complete` give to an artifact, if they can. */
  ghost function GivenId(a: Artifact, s: State, draws: seq<string>): Option<string> {
    if a.id != "" then Some(a.id)
    else
      match DrawId(s, draws)
      case None => None
      case Some((id, _)) => Some(id)
  }

  lemma NewArtifactMeaning(a: Artifact, s: State, draws: seq<string>)
    requires Keyed(s)
    ensures NewArtifact(a, s, draws).Ok? <==>
            HasContent(a) && GivenId(a, s, draws).Some? && Unused(s, GivenId(a, s, draws).value)
    ensures NewArtifact(a, s, draws).Ok? ==>
            NewArtifact(a, s, draws).value.0 == a.(id := GivenId(a, s, draws).value)
  {
    hide HasContent, Unused, FindArtifact;
    if GivenId(a, s, draws).Some? {
      IdExistsIffUsed(s, GivenId(a, s, draws).value);
    }
  }

  /** `add_artifact` appends to one scope an artifact whose id nothing else in the task has. */
  lemma AddArtifactMeaning(taskId: string, batchReason: string, m: Modification, s: State, draws: seq<string>)
    requires Sound(s, taskId) && m.op.AddArtifact?
    ensures var o := Modify(taskId, batchReason, m, s, draws);
      var execution, id := NormalizedExecution(s, m.executionId, m.stepId), GivenId(m.artifact, s, draws);
      && (o.failure.None? <==>
            && (m.stepId == "" || StepExists(s.task.steps, m.stepId))
            && HasContent(m.artifact) && id.Some? && Unused(s, id.value))
      && (o.failure.None? ==>
            && OnlyScope(s, o.state, execution, m.stepId)
            && ArtifactsAt(o.state, execution, m.stepId)
               == ArtifactsAt(s, execution, m.stepId) + [m.artifact.(id := id.value)])
  {
    SoundParts(s, taskId);
    NewArtifactMeaning(m.artifact, s, draws);
    hide Sound, HasContent, DrawId, Unused, NewArtifact, GivenId, StepExists, Apply, Keyed, UniqueIds,
         ArtifactsAt, OnlyScope, Edit, StatusOp, StepStatusOp, CompleteOp;
    var o := Modify(taskId, batchReason, m, s, draws);
    if o.failure.None? {
      var execution := NormalizedExecution(s, m.executionId, m.stepId);
      var a := m.artifact.(id := GivenId(m.artifact, s, draws).value);
      ChangedScope(s, taskId, ArtifactAdded(taskId, execution, m.stepId, a), execution, m.stepId, Append(a));
    }
  }

  lemma {:induction false} ReplacedAt(artifacts: seq<Artifact>, id: string, a: Artifact, i: nat)
    requires NoRepeats(artifacts) && i < |artifacts| && artifacts[i].id == id && a.id != ""
    ensures UpdateArtifact(artifacts, id, a) == artifacts[i := a]
  {
    if i > 0 {
      assert artifacts[0].id != artifacts[i].id;
      ReplacedAt(artifacts[1..], id, a, i - 1);
    }
  }

  lemma {:induction false} DeletedAt(artifacts: seq<Artifact>, id: string, i: nat)
    requires NoRepeats(artifacts) && i < |artifacts| && artifacts[i].id == id
    ensures RemoveArtifact(artifacts, id) == artifacts[..i] + artifacts[i + 1..]
  {
    var rest := artifacts[1..];
    if i > 0 {
      assert artifacts[0].id != artifacts[i].id;
      DeletedAt(rest, id, i - 1);
      assert artifacts[..i] + artifacts[i + 1..] == [artifacts[0]] + (rest[..i - 1] + rest[i..]);
    } else {
      assert forall k :: 0 <= k < |rest| ==> rest[k].id == artifacts[k + 1].id;
      DeletedNone(rest, id);
      assert artifacts[..0] + rest == rest;
    }
  }

  lemma {:induction false} DeletedNone(artifacts: seq<Artifact>, id: string)
    requires forall k :: 0 <= k < |artifacts| ==> artifacts[k].id != id
    ensures RemoveArtifact(artifacts, id) == artifacts
  {
    if artifacts != [] {
      DeletedNone(artifacts[1..], id);
    }
  }

  lemma FoundScope(s: State, id: string, e: string, x: string)
    requires Keyed(s) && UniqueIds(s) && id in Ids(ArtifactsAt(s, e, x))
    ensures id != "" && FindArtifact(s, id).Some?
    ensures FindArtifact(s, id).value.executionId == e && FindArtifact(s, id).value.stepId == x
    ensures NoRepeats(ArtifactsAt(s, e, x)) && (e == "" ==> x == "")
  {
    assert e == "" ==> x == "";
    hide FindArtifact, ArtifactsAt;
    assert "" !in Ids(ArtifactsAt(s, e, x));
    assert !Unused(s, id);
    IdExistsIffUsed(s, id);
  }

  lemma FoundAt(s: State, id: string, e: string, x: string)
    requires Keyed(s) && UniqueIds(s) && id in Ids(ArtifactsAt(s, e, x))
    ensures id != "" && (e == "" ==> x == "") && FindArtifact(s, id).Some?
    ensures FindArtifact(s, id).value.executionId == e && FindArtifact(s, id).value.stepId == x
  {
    FoundScope(s, id, e, x);
  }

  lemma TakenIff(s: State, id: string)
    requires Keyed(s)
    ensures id != "" ==> (ArtifactIdExists(s, id) <==> !Unused(s, id))
  {
    if id != "" {
      IdExistsIffUsed(s, id);
    }
  }

  predicate Names(m: Modification, e: string, x: string) {
    (m.executionId == "" || m.executionId == e) && (m.stepId == "" || m.stepId == x)
  }

  lemma ModifyArtifact(taskId: string, batchReason: string, m: Modification, s: State, draws: seq<string>)
    requires m.op.UpdateArtifactOp? || m.op.RemoveArtifactOp?
    ensures Modify(taskId, batchReason, m, s, draws)
            == ArtifactOp(taskId, FirstNonBlank(m.reason, batchReason), m, s, draws)
  {
    hide ArtifactOp;
  }

  lemma UpdateEmits(taskId: string, reason: string, m: Modification, s: State, draws: seq<string>,
                    e: string, x: string)
    requires Sound(s, taskId) && m.op.UpdateArtifactOp? && m.artifactId in Ids(ArtifactsAt(s, e, x))
    ensures var o := ArtifactOp(taskId, reason, m, s, draws);
      var id := if m.artifact.id == "" then m.artifactId else m.artifact.id;
      && (o.failure.None? <==>
            Names(m, e, x) && HasContent(m.artifact) && (id == m.artifactId || Unused(s, id)))
      && (o.failure.None? ==>
            o.state == Apply(s, ArtifactUpdated(taskId, e, x, m.artifactId, m.artifact.(id := id))))
  {
    SoundParts(s, taskId);
    FoundAt(s, m.artifactId, e, x);
    TakenIff(s, m.artifact.id);
    hide Sound, HasContent, Unused, FindArtifact, ArtifactIdExists, Apply, ArtifactsAt, UniqueIds, Keyed, Ids,
         AddArtifactTo, StepExists;
  }

  lemma ReplacedInScope(s: State, taskId: string, e: string, x: string, i: nat, a: Artifact)
    requires Keyed(s) && UniqueIds(s) && Named(s, taskId) == s && a.id != "" && i < |ArtifactsAt(s, e, x)|
    ensures var s' := Apply(s, ArtifactUpdated(taskId, e, x, ArtifactsAt(s, e, x)[i].id, a));
      OnlyScope(s, s', e, x) && ArtifactsAt(s', e, x) == ArtifactsAt(s, e, x)[i := a]
  {
    var id := ArtifactsAt(s, e, x)[i].id;
    FoundScope(s, id, e, x);
    hide Apply, ArtifactsAt, UniqueIds, Keyed, OnlyScope;
    ReplacedAt(ArtifactsAt(s, e, x), id, a, i);
    ChangedScope(s, taskId, ArtifactUpdated(taskId, e, x, id, a), e, x, Replace(id, a));
  }

  lemma RemovedFromScope(s: State, taskId: string, e: string, x: string, i: nat, reason: string)
    requires Keyed(s) && UniqueIds(s) && Named(s, taskId) == s && i < |ArtifactsAt(s, e, x)|
    ensures var s' := Apply(s, ArtifactRemoved(taskId, e, x, ArtifactsAt(s, e, x)[i].id, reason));
      OnlyScope(s, s', e, x)
      && ArtifactsAt(s', e, x) == ArtifactsAt(s, e, x)[..i] + ArtifactsAt(s, e, x)[i + 1..]
  {
    var id := ArtifactsAt(s, e, x)[i].id;
    FoundScope(s, id, e, x);
    hide Apply, ArtifactsAt, UniqueIds, Keyed, OnlyScope;
    DeletedAt(ArtifactsAt(s, e, x), id, i);
    ChangedScope(s, taskId, ArtifactRemoved(taskId, e, x, id, reason), e, x, Delete(id));
  }

  /** `update_artifact` replaces, in its place, the one artifact with the id; a new id must be free. */
  lemma UpdateArtifactMeaning(taskId: string, batchReason: string, m: Modification, s: State, draws: seq<string>,
                              e: string, x: string, i: nat)
    requires Sound(s, taskId) && m.op.UpdateArtifactOp?
    requires i < |ArtifactsAt(s, e, x)| && ArtifactsAt(s, e, x)[i].id == m.artifactId
    ensures var o := Modify(taskId, batchReason, m, s, draws);
      var id := if m.artifact.id == "" then m.artifactId else m.artifact.id;
      && (o.failure.None? <==>
            Names(m, e, x) && HasContent(m.artifact) && (id == m.artifactId || Unused(s, id)))
      && (o.failure.None? ==>
            && OnlyScope(s, o.state, e, x)
            && ArtifactsAt(o.state, e, x) == ArtifactsAt(s, e, x)[i := m.artifact.(id := id)])
  {
    SoundParts(s, taskId);
    ModifyArtifact(taskId, batchReason, m, s, draws);
    UpdateEmits(taskId, FirstNonBlank(m.reason, batchReason), m, s, draws, e, x);
    FoundAt(s, m.artifactId, e, x);
    hide Sound, HasContent, Unused, Modify, ArtifactOp, Apply, FirstNonBlank, ArtifactsAt, UniqueIds, Keyed, OnlyScope,
         Names, FindArtifact, Ids;
    if Modify(taskId, batchReason, m, s, draws).failure.None? {
      var a := m.artifact.(id := if m.artifact.id == "" then m.artifactId else m.artifact.id);
      ReplacedInScope(s, taskId, e, x, i, a);
    }
  }

  lemma RemoveEmits(taskId: string, reason: string, m: Modification, s: State, draws: seq<string>,
                    e: string, x: string)
    requires Sound(s, taskId) && m.op.RemoveArtifactOp? && m.artifactId in Ids(ArtifactsAt(s, e, x))
    ensures var o := ArtifactOp(taskId, reason, m, s, draws);
      && (o.failure.None? <==> Names(m, e, x))
      && (o.failure.None? ==>
            o.state == Apply(s, ArtifactRemoved(taskId, e, x, m.artifactId, reason)))
  {
    SoundParts(s, taskId);
    FoundAt(s, m.artifactId, e, x);
    hide Sound, FindArtifact, Apply, ArtifactsAt, UniqueIds, Keyed, Ids, HasContent, AddArtifactTo, StepExists;
  }

  /** `remove_artifact` takes out the one artifact with the id. */
  lemma RemoveArtifactMeaning(taskId: string, batchReason: string, m: Modification, s: State, draws: seq<string>,
                              e: string, x: string, i: nat)
    requires Sound(s, taskId) && m.op.RemoveArtifactOp?
    requires i < |ArtifactsAt(s, e, x)| && ArtifactsAt(s, e, x)[i].id == m.artifactId
    ensures var o := Modify(taskId, batchReason, m, s, draws);
      && (o.failure.None? <==> Names(m, e, x))
      && (o.failure.None? ==>
            && OnlyScope(s, o.state, e, x)
            && ArtifactsAt(o.state, e, x) == ArtifactsAt(s, e, x)[..i] + ArtifactsAt(s, e, x)[i + 1..])
  {
    SoundParts(s, taskId);
    ModifyArtifact(taskId, batchReason, m, s, draws);
    RemoveEmits(taskId, FirstNonBlank(m.reason, batchReason), m, s, draws, e, x);
    hide Sound, Modify, ArtifactOp, Apply, FirstNonBlank, ArtifactsAt, UniqueIds, Keyed, OnlyScope, Names, Ids;
    if Modify(taskId, batchReason, m, s, draws).failure.None? {
      RemovedFromScope(s, taskId, e, x, i, FirstNonBlank(m.reason, batchReason));
    }
  }

  /** Updating or removing an artifact that no scope has is rejected. */
  lemma AbsentArtifactRejected(taskId: string, batchReason: string, m: Modification, s: State, draws: seq<string>)
    requires Sound(s, taskId) && (m.op.UpdateArtifactOp? || m.op.RemoveArtifactOp?) && Unused(s, m.artifactId)
    ensures Modify(taskId, batchReason, m, s, draws)
            == Reject(s, draws, if m.artifactId == "" then ArtifactIdRequired else ArtifactNotFound)
  {
    hide ValidTask, UniqueIds, FindArtifact, Unused, HasContent;
    if m.artifactId != "" {
      IdExistsIffUsed(s, m.artifactId);
    }
  }

  predicate GivenIds(given: seq<Artifact>, list: seq<Artifact>) {
    && |given| == |list|
    && forall i :: 0 <= i < |list| ==>
         given[i] == list[i].(id := given[i].id) && (list[i].id != "" ==> given[i].id == list[i].id)
  }

  lemma AddOneMeaning(taskId: string, a: Artifact, s: State, draws: seq<string>) returns (given: Artifact)
    requires Keyed(s) && Named(s, taskId) == s && AddArtifactTo(taskId, "", "", a, s, draws).failure.None?
    ensures AddArtifactTo(taskId, "", "", a, s, draws).state
            == s.(task := s.task.(artifacts := s.task.artifacts + [given]))
    ensures given == a.(id := given.id) && (a.id != "" ==> given == a)
  {
    NewArtifactMeaning(a, s, draws);
    hide Keyed, NewArtifact, HasContent, Unused, DrawId;
    given := NewArtifact(a, s, draws).value.0;
  }

  lemma {:induction false} AddAllMeaning(taskId: string, list: seq<Artifact>, s: State, draws: seq<string>)
      returns (given: seq<Artifact>)
    requires Sound(s, taskId) && AddAll(taskId, list, s, draws).failure.None?
    ensures var s' := AddAll(taskId, list, s, draws).state;
      && s' == s.(task := s.task.(artifacts := s.task.artifacts + given)) && GivenIds(given, list)
  {
    hide Sound, AddArtifactTo, OneEvent, Keyed, UniqueIds;
    if list == [] {
      given := [];
      assert s.task.artifacts + [] == s.task.artifacts;
    } else {
      var n := |list| - 1;
      var init := AddAllMeaning(taskId, list[..n], s, draws);
      AddAllGuarded(taskId, list[..n], s, draws);
      var o := AddAll(taskId, list[..n], s, draws);
      SoundParts(o.state, taskId);
      var last := AddOneMeaning(taskId, list[n], o.state, o.draws);
      given := init + [last];
      assert s.task.artifacts + given == s.task.artifacts + init + [last];
    }
  }

  lemma CompleteShape(taskId: string, batchReason: string, m: Modification, s: State, draws: seq<string>)
    requires m.op.Complete? && Modify(taskId, batchReason, m, s, draws).failure.None?
    ensures var added := AddAll(taskId, ArtifactList(m), s, draws);
      && added.failure.None? && Allowed(ValidationOf(added.state), m.forceOverrides)
      && Modify(taskId, batchReason, m, s, draws).state ==
         if added.state.task.status.Completed? then added.state
         else Apply(added.state, StatusChanged(taskId, added.state.task.status, Completed,
                                               FirstNonBlank(m.reason, batchReason)))
  {
    hide AddAll, ArtifactList, Allowed, ValidationOf, Apply, FirstNonBlank, Edit, StatusOp, StepStatusOp, ArtifactOp;
  }

  /**
   * A successful `complete` appends the listed artifacts to the task, ids filled in, and completes it; with
   * them every failing check is overridden.
   */
  lemma CompleteMeaning(taskId: string, batchReason: string, m: Modification, s: State, draws: seq<string>)
      returns (given: seq<Artifact>)
    requires Sound(s, taskId) && m.op.Complete?
    requires Modify(taskId, batchReason, m, s, draws).failure.None?
    ensures var s' := Modify(taskId, batchReason, m, s, draws).state;
      && s' == s.(task := s.task.(artifacts := s.task.artifacts + given, status := Completed))
      && GivenIds(given, ArtifactList(m))
      && Overridden(ValidationOf(s').checks, m.forceOverrides)
  {
    SoundParts(s, taskId);
    CompleteShape(taskId, batchReason, m, s, draws);
    hide Modify, Sound, Keyed, UniqueIds, Overridden, Scoped, ValidationOf, Allowed, Apply, AddAll, ArtifactList,
         GivenIds, StepExists, FirstNonBlank;
    given := AddAllMeaning(taskId, ArtifactList(m), s, draws);
    var added := AddAll(taskId, ArtifactList(m), s, draws).state;
    StatusSet(added, taskId, FirstNonBlank(m.reason, batchReason), Completed);
    AllowedIffFailingOverridden(added, m.forceOverrides);
    SameValidation(added, added.(task := added.task.(status := Completed)));
  }

  lemma StatusSet(s: State, taskId: string, reason: string, status: Status)
    requires s.task.id == taskId
    ensures Apply(s, StatusChanged(taskId, s.task.status, status, reason)) == s.(task := s.task.(status := status))
  {
  }

  /** The validation does not look at the status. */
  lemma SameValidation(s: State, s': State)
    requires s' == s.(task := s.task.(status := s'.task.status))
    ensures ValidationOf(s') == ValidationOf(s)
  {
    hide ExecutionScopes;
    assert Scoped(s') == Scoped(s);
  }

  /** An edit is accepted exactly when it proposes a task and that task is valid; then it is the task. */
  lemma EditMeaning(taskId: string, batchReason: string, m: Modification, s: State, draws: seq<string>)
    requires Sound(s, taskId) && Edits(m.op)
    ensures var o := Modify(taskId, batchReason, m, s, draws);
      var edited := EditedTask(m, s, draws);
      && (o.failure.None? <==> edited.Ok? && ValidTask(edited.value.0))
      && (o.failure.None? ==>
            && o.state.task == edited.value.0 && o.state.current == s.current
            && o.state.executions.Keys == s.executions.Keys)
  {
    SoundParts(s, taskId);
    hide Sound, ValidTask, UniqueIds, Apply, EditedTask, ArtifactsAt, StepStatusOf, Keyed,
         StepStatusOp, StatusOp, ArtifactOp, CompleteOp;
    var o := Modify(taskId, batchReason, m, s, draws);
    if o.failure.None? {
      NoEmptyStep(o.events[0].task);
      RevisedEffect(s, o.events[0]);
    }
  }

  lemma {:induction false} DropStepAbsent(steps: seq<Step>, id: string)
    requires !StepExists(steps, id)
    ensures DropStep(steps, id) == steps
  {
    if steps != [] {
      var n := |steps| - 1;
      assert steps == steps[..n] + [steps[n]];
      StepExistsSnoc(steps[..n], steps[n], id);
      DropStepAbsent(steps[..n], id);
    }
  }

  lemma AddedStepState(taskId: string, reason: string, add: Modification, s: State, draws: seq<string>)
    requires Sound(s, taskId) && add.op.AddStep? && Modify(taskId, reason, add, s, draws).failure.None?
    ensures var s' := Modify(taskId, reason, add, s, draws).state;
      && Sound(s', taskId)
      && s'.task == s.task.(steps := s.task.steps + [add.step]) && !StepExists(s.task.steps, add.step.id)
      && add.step.id != "" && s'.executions.Keys == s.executions.Keys
      && forall e :: e in s'.executions ==> add.step.id in s'.executions[e].steps
  {
    hide ValidTask, UniqueIds, Apply, StateDeclared;
    var added := Modify(taskId, reason, add, s, draws);
    EditMeaning(taskId, reason, add, s, draws);
    EditGuarded(taskId, FirstNonBlank(add.reason, reason), add, s, draws);
    GuardedOne(s, added, taskId);
    NoEmptyStep(added.state.task);
    NewStepDistinct(s.task, add.step);
    StepExistsSnoc(s.task.steps, add.step, add.step.id);
    RevisedEffect(s, added.events[0]);
    forall e | e in added.state.executions ensures add.step.id in added.state.executions[e].steps {
      assert !StepStatusOf(added.state, e, add.step.id).NoStepStatus?;
    }
  }

  /**
   * Taking a step back right after adding it: a revision gives every declared step a state in every
   * execution, so `remove_step` accepts the new step exactly when there is no execution, and then restores
   * the task.
   */
  lemma AddedStepRemovableIff(taskId: string, reason: string, add: Modification, remove: Modification,
                              s: State, draws: seq<string>)
    requires Sound(s, taskId) && add.op.AddStep? && remove.op.RemoveStep? && remove.stepId == add.step.id
    requires Modify(taskId, reason, add, s, draws).failure.None?
    ensures var o := Modify(taskId, reason, remove, Modify(taskId, reason, add, s, draws).state, draws);
      && (o.failure.None? <==> s.executions == map[])
      && (o.failure.None? ==> o.state.task == s.task)
  {
    AddedStepState(taskId, reason, add, s, draws);
    var s' := Modify(taskId, reason, add, s, draws).state;
    EditMeaning(taskId, reason, remove, s', draws);
    StepTakenBack(remove, s, s', add.step, draws);
    assert ValidTask(s.task);
    hide Sound, ValidTask, Modify, EditedTask, StepExists;
    if e :| e in s.executions {
      assert e in s'.executions;
    } else {
      assert s.executions == map[] && s'.executions.Keys == {};
    }
  }

  lemma StepTakenBack(remove: Modification, s: State, s': State, step: Step, draws: seq<string>)
    requires remove.op.RemoveStep? && remove.stepId == step.id != "" && !StepExists(s.task.steps, step.id)
    requires s'.task == s.task.(steps := s.task.steps + [step])
    ensures EditedTask(remove, s', draws) ==
            if StepHasState(s', step.id) then Err(StepHasExecutionState) else Ok((s.task, draws))
  {
    StepExistsSnoc(s.task.steps, step, step.id);
    DropLastStep(s.task.steps, step);
    hide DropStep, StepExists, StepHasState;
  }

  lemma DropLastStep(steps: seq<Step>, step: Step)
    requires !StepExists(steps, step.id)
    ensures DropStep(steps + [step], step.id) == steps
  {
    DropStepAbsent(steps, step.id);
    assert (steps + [step])[..|steps|] == steps;
    assert steps + [] == steps;
  }

  predicate HasState(s: State, e: string, x: string) {
    e in s.executions && x in s.executions[e].steps
  }

  lemma RevisionKeepsState(s: State, ev: Event, e: string, x: string)
    requires ev.Revised? && HasState(s, e, x)
    ensures HasState(Apply(s, ev), e, x) <==> StepExists(ev.task.steps, x)
  {
    ReconcileStepsEffect(ev.task.steps, s.executions[e].steps, x);
  }

  lemma OtherEventKeepsState(s: State, ev: Event, e: string, x: string)
    requires !ev.Revised? && HasState(s, e, x) && Keyed(s)
    ensures HasState(Apply(s, ev), e, x)
  {
  }

  lemma EditKeepsState(taskId: string, reason: string, m: Modification, s: State, draws: seq<string>, e: string, x: string)
    requires Sound(s, taskId) && Edits(m.op) && HasState(s, e, x)
    requires Edit(taskId, reason, m, s, draws).failure.None?
    ensures HasState(Edit(taskId, reason, m, s, draws).state, e, x) <==> !RenamesStep(m, x)
  {
    EditedSteps(m, s, draws, taskId, x);
    assert StepHasState(s, x);
    hide Sound, Apply, EditedTask, RenamesStep;
    RevisionKeepsState(s, Edit(taskId, reason, m, s, draws).events[0], e, x);
  }

  /** A step keeps its state in an execution through every operation but the `update_step` that renames it. */
  lemma StateLostIff(taskId: string, batchReason: string, m: Modification, s: State, draws: seq<string>,
                     e: string, x: string)
    requires Sound(s, taskId) && HasState(s, e, x)
    requires Modify(taskId, batchReason, m, s, draws).failure.None?
    ensures HasState(Modify(taskId, batchReason, m, s, draws).state, e, x) <==> !RenamesStep(m, x)
  {
    SoundParts(s, taskId);
    hide Edit, ArtifactOp, StatusOp, StepStatusOp, CompleteOp, Sound, HasState, Apply, Keyed;
    var reason := FirstNonBlank(m.reason, batchReason);
    if m.op.Complete? {
      CompleteKeepsState(taskId, reason, m, s, draws, e, x);
    } else if Edits(m.op) {
      EditKeepsState(taskId, reason, m, s, draws, e, x);
    } else {
      var o := Modify(taskId, batchReason, m, s, draws);
      assert OneEvent(s, o);
      if o.events != [] {
        NotRevised(taskId, batchReason, m, s, draws);
        OtherEventKeepsState(s, o.events[0], e, x);
      }
    }
  }

  lemma CompleteKeepsState(taskId: string, reason: string, m: Modification, s: State, draws: seq<string>,
                           e: string, x: string)
    requires Sound(s, taskId) && HasState(s, e, x) && CompleteOp(taskId, reason, m, s, draws).failure.None?
    ensures HasState(CompleteOp(taskId, reason, m, s, draws).state, e, x)
  {
    CompleteEffect(taskId, reason, m, s, draws);
  }

  lemma NotRevised(taskId: string, batchReason: string, m: Modification, s: State, draws: seq<string>)
    requires !Edits(m.op) && !m.op.Complete?
    ensures var o := Modify(taskId, batchReason, m, s, draws); o.events != [] ==> !o.events[0].Revised?
  {
    hide Apply, FindArtifact, NewArtifact, StepExists, HasContent;
  }

  /**
   * No batch without a renaming `update_step` takes away a step that has state in some execution: the step
   * stays declared, and a `remove_step` of it makes the batch fail.
   */
  lemma {:induction false} BatchKeepsStep(taskId: string, reason: string, items: seq<Modification>, s: State,
                                          draws: seq<string>, e: string, x: string)
    requires Sound(s, taskId) && HasState(s, e, x)
    requires forall m <- items :: !RenamesStep(m, x)
    ensures var o := ModifyAll(taskId, reason, items, s, draws);
      o.failure.None? ==>
        && HasState(o.state, e, x) && StepExists(o.state.task.steps, x)
        && forall m <- items :: !(m.op.RemoveStep? && m.stepId == x)
  {
    hide Modify, Sound, RenamesStep, StepExists, HasState;
    if items == [] {
      DeclaredStep(s, taskId, e, x);
    } else {
      var n := |items| - 1;
      BatchKeepsStep(taskId, reason, items[..n], s, draws, e, x);
      var o := ModifyAll(taskId, reason, items[..n], s, draws);
      if o.failure.None? && Modify(taskId, reason, items[n], o.state, o.draws).failure.None? {
        BatchSound(taskId, reason, items[..n], s, draws);
        StateLostIff(taskId, reason, items[n], o.state, o.draws, e, x);
        RemoveRejected(taskId, reason, items[n], o.state, o.draws, e, x);
        BatchSound(taskId, reason, items, s, draws);
        DeclaredStep(ModifyAll(taskId, reason, items, s, draws).state, taskId, e, x);
        assert items == items[..n] + [items[n]];
      }
    }
  }

  lemma DeclaredStep(s: State, taskId: string, e: string, x: string)
    requires Sound(s, taskId) && HasState(s, e, x)
    ensures StepExists(s.task.steps, x)
  {
  }

  lemma RemoveRejected(taskId: string, reason: string, m: Modification, s: State, draws: seq<string>, e: string, x: string)
    requires HasState(s, e, x)
    ensures m.op.RemoveStep? && m.stepId == x ==> Modify(taskId, reason, m, s, draws).failure.Some?
  {
    assert StepHasState(s, x);
    hide HasState, StepHasState, DropStep, StepExists, Revise, ArtifactOp, StatusOp, StepStatusOp, CompleteOp;
  }

  lemma NewStepDistinct(t: Task, step: Step)
    requires ValidTask(t.(steps := t.steps + [step]))
    ensures !StepExists(t.steps, step.id)
  {
    var all := t.steps + [step];
    assert forall i :: 0 <= i < |t.steps| ==> all[i] == t.steps[i];
    assert all[|t.steps|] == step;
  }
}
