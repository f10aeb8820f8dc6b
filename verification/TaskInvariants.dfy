/** What each event does to the artifacts and step statuses, scope by scope. */
module TaskEffects {
  import opened Wrappers
  import opened GoStrings
  import opened Sorting
  import opened TaskTypes
  import opened TaskProjection
  import opened TaskQueries

  function StepArtifactsOf(exec: Execution, stepId: string): seq<Artifact> {
    if stepId in exec.steps then exec.steps[stepId].artifacts else []
  }

  /** The artifacts of one scope; empty strings stand for "no execution" and "no step". */
  function ArtifactsAt(s: State, executionId: string, stepId: string): seq<Artifact> {
    if executionId == "" then (if stepId == "" then s.task.artifacts else [])
    else if executionId !in s.executions then []
    else if stepId == "" then s.executions[executionId].artifacts
    else StepArtifactsOf(s.executions[executionId], stepId)
  }

  ghost predicate Keyed(s: State) {
    forall e :: e in s.executions ==> e != "" && s.executions[e].id == e && "" !in s.executions[e].steps
  }

  lemma ChangeAt(s: State, executionId: string, stepId: string, change: Change, e: string, x: string)
    requires Keyed(s) && (executionId == "" ==> stepId == "")
    ensures var s' := ChangeArtifacts(s, executionId, stepId, change);
            && ArtifactsAt(s', e, x) ==
               (if e == executionId && x == stepId then Changed(ArtifactsAt(s, e, x), change) else ArtifactsAt(s, e, x))
            && StepStatusOf(s', e, x) == StepStatusOf(s, e, x)
  {
    hide Changed;
  }

  lemma ChangeEffect(s: State, executionId: string, stepId: string, change: Change)
    requires Keyed(s) && (executionId == "" ==> stepId == "")
    ensures var s' := ChangeArtifacts(s, executionId, stepId, change);
            && Keyed(s')
            && s'.task == s.task.(artifacts := s'.task.artifacts)
            && (forall e, x :: ArtifactsAt(s', e, x) ==
                 if e == executionId && x == stepId then Changed(ArtifactsAt(s, e, x), change)
                 else ArtifactsAt(s, e, x))
            && (forall e, x :: StepStatusOf(s', e, x) == StepStatusOf(s, e, x))
  {
    hide Changed, ArtifactsAt, StepStatusOf;
    forall e, x {
      ChangeAt(s, executionId, stepId, change, e, x);
    }
  }

  lemma {:induction false} ReconcileStepsEffect(steps: seq<Step>, existing: map<string, StepExecution>, x: string)
    ensures x in ReconcileSteps(steps, existing) <==> StepExists(steps, x)
    ensures x in ReconcileSteps(steps, existing) ==>
      var r := ReconcileSteps(steps, existing)[x];
      var was := if x in existing then existing[x] else EmptyStep;
      && r.status == (if was.status.NoStepStatus? then Waiting else was.status)
      && r.artifacts == was.artifacts && r.output == was.output && r.error == was.error
      && (was.assignee != "" ==> r.assignee == was.assignee) && (was.profile != "" ==> r.profile == was.profile)
      && exists step <- steps :: step.id == x
           && (was.assignee == "" ==> r.assignee == step.assignee) && (was.profile == "" ==> r.profile == step.profile)
  {
    if steps != [] {
      var n := |steps| - 1;
      ReconcileStepsEffect(steps[..n], existing, x);
      assert StepExists(steps[..n], x) ==> StepExists(steps, x);
      assert steps[n].id == x ==> StepExists(steps, x);
      assert steps[n] in steps;
    }
  }

  lemma RevisedAt(s: State, ev: Event, e: string, x: string)
    requires Keyed(s) && ev.Revised? && !StepExists(ev.task.steps, "")
    ensures var s' := Apply(s, ev);
            && ArtifactsAt(s', e, x) ==
               (if e == "" then (if x == "" then ev.task.artifacts else [])
                else if x == "" || StepExists(ev.task.steps, x) then ArtifactsAt(s, e, x) else [])
            && StepStatusOf(s', e, x) ==
               (if e !in s.executions || !StepExists(ev.task.steps, x) then NoStepStatus
                else if StepStatusOf(s, e, x).NoStepStatus? then Waiting else StepStatusOf(s, e, x))
  {
    if e in s.executions {
      ReconcileStepsEffect(ev.task.steps, s.executions[e].steps, x);
    }
  }

  /** A revision keeps the state of the steps it declares and drops the state of all others. */
  lemma RevisedEffect(s: State, ev: Event)
    requires Keyed(s) && ev.Revised? && !StepExists(ev.task.steps, "")
    requires ev.task.id != "" && (ev.task.status.NoStatus? ==> s.task.status.NoStatus?)
    ensures var s' := Apply(s, ev);
            && Keyed(s') && s'.task == ev.task && s'.current == s.current && s'.executions.Keys == s.executions.Keys
            && (forall e, x :: ArtifactsAt(s', e, x) ==
                 if e == "" then (if x == "" then ev.task.artifacts else [])
                 else if x == "" || StepExists(ev.task.steps, x) then ArtifactsAt(s, e, x) else [])
            && (forall e, x :: StepStatusOf(s', e, x) ==
                 if e !in s.executions || !StepExists(ev.task.steps, x) then NoStepStatus
                 else if StepStatusOf(s, e, x).NoStepStatus? then Waiting else StepStatusOf(s, e, x))
  {
    forall e | e in s.executions ensures "" !in ReconcileSteps(ev.task.steps, s.executions[e].steps) {
      ReconcileStepsEffect(ev.task.steps, s.executions[e].steps, "");
    }
    forall e, x { RevisedAt(s, ev, e, x); }
  }

  lemma StepStatusEffect(s: State, ev: Event)
    requires Keyed(s) && ev.StepStatusChanged? && ev.executionId != "" && ev.stepId != ""
    ensures var s' := Apply(s, ev);
            && Keyed(s') && s'.task == s.task
            && (forall e, x :: ArtifactsAt(s', e, x) == ArtifactsAt(s, e, x))
            && (forall e, x :: StepStatusOf(s', e, x) ==
                 if e == ev.executionId && x == ev.stepId then ev.nextStep else StepStatusOf(s, e, x))
  {
  }

  lemma {:induction false} StepScopesMembers(e: string, steps: map<string, StepExecution>, ids: seq<string>,
                                             m: ScopedArtifact)
    requires forall x :: x in ids ==> x in steps
    ensures m in StepScopes(e, steps, ids) <==>
            m.executionId == e && m.stepId in ids && m.artifact in steps[m.stepId].artifacts
  {
    if ids != [] {
      var n := |ids| - 1;
      StepScopesMembers(e, steps, ids[..n], m);
      assert ids == ids[..n] + [ids[n]];
      assert forall a :: ScopedArtifact(e, ids[n], a) in Label(e, ids[n], steps[ids[n]].artifacts)
                         <==> a in steps[ids[n]].artifacts by {
        LabelMembers(e, ids[n], steps[ids[n]].artifacts);
      }
    }
  }

  lemma LabelMembers(e: string, x: string, artifacts: seq<Artifact>)
    ensures forall m :: m in Label(e, x, artifacts) <==>
                        m.executionId == e && m.stepId == x && m.artifact in artifacts
  {
    forall m: ScopedArtifact | m.executionId == e && m.stepId == x && m.artifact in artifacts
      ensures m in Label(e, x, artifacts)
    {
      var i :| 0 <= i < |artifacts| && artifacts[i] == m.artifact;
      assert Label(e, x, artifacts)[i] == m;
    }
  }

  lemma {:induction false} ExecutionScopesMembers(executions: map<string, Execution>, ids: seq<string>, m: ScopedArtifact)
    requires forall x :: x in ids ==> x in executions
    requires forall x :: x in ids ==> "" !in executions[x].steps
    ensures m in ExecutionScopes(executions, ids) <==>
            && m.executionId in ids
            && m.artifact in (if m.stepId == "" then executions[m.executionId].artifacts
                              else StepArtifactsOf(executions[m.executionId], m.stepId))
  {
    if ids != [] {
      var n := |ids| - 1;
      var exec := executions[ids[n]];
      ExecutionScopesMembers(executions, ids[..n], m);
      assert ids == ids[..n] + [ids[n]];
      hide Label, StepScopes, SortedKeys;
      LabelMembers(ids[n], "", exec.artifacts);
      StepScopesMembers(ids[n], exec.steps, SortedKeys(exec.steps.Keys), m);
    }
  }

  /** The flat artifact list holds exactly the artifacts of all scopes. */
  lemma ScopedMembers(s: State, m: ScopedArtifact)
    requires Keyed(s)
    ensures m in Scoped(s) <==> m.artifact in ArtifactsAt(s, m.executionId, m.stepId)
  {
    LabelMembers("", "", s.task.artifacts);
    ExecutionScopesMembers(s.executions, SortedKeys(s.executions.Keys), m);
  }
}

/** What every run of modifications keeps. */
module TaskInvariants {
  import opened Wrappers
  import opened GoStrings
  import opened StepGraph
  import opened TaskTypes
  import opened TaskValidation
  import opened TaskProjection
  import opened TaskQueries
  import opened TaskEffects
  import opened TaskModification

  function Ids(artifacts: seq<Artifact>): set<string> {
    set i | 0 <= i < |artifacts| :: artifacts[i].id
  }

  predicate NoRepeats(artifacts: seq<Artifact>) {
    forall i, j :: 0 <= i < j < |artifacts| ==> artifacts[i].id != artifacts[j].id
  }

  /** All artifact ids, over the task, its executions and their steps, are non-empty and distinct. */
  ghost predicate UniqueIds(s: State) {
    && (forall e, x :: NoRepeats(ArtifactsAt(s, e, x)) && "" !in Ids(ArtifactsAt(s, e, x)))
    && (forall e1, x1, e2, x2, id :: id in Ids(ArtifactsAt(s, e1, x1)) && id in Ids(ArtifactsAt(s, e2, x2))
          ==> e1 == e2 && x1 == x2)
  }

  ghost predicate Unused(s: State, id: string) {
    forall e, x :: id !in Ids(ArtifactsAt(s, e, x))
  }

  /** Execution state exists only for declared steps. */
  ghost predicate StateDeclared(s: State) {
    forall e, x :: e in s.executions && x in s.executions[e].steps ==> StepExists(s.task.steps, x)
  }

  ghost predicate Sound(s: State, taskId: string) {
    && taskId != "" && s.task.id == taskId
    && ValidTask(s.task) && ValidStatus(s.task.status)
    && Keyed(s) && StateDeclared(s) && UniqueIds(s)
    && (s.current != "" ==> s.current in s.executions)
  }

  /** The change finds its target, and brings in no id that is empty or taken. */
  ghost predicate Fits(s: State, e: string, x: string, change: Change) {
    match change
    case Append(a) => a.id != "" && Unused(s, a.id)
    case Replace(id, a) => id in Ids(ArtifactsAt(s, e, x)) && a.id != "" && (a.id == id || Unused(s, a.id))
    case Delete(id) => id in Ids(ArtifactsAt(s, e, x))
  }

  function ChangedIdSet(ids: set<string>, change: Change): set<string> {
    match change
    case Append(a) => ids + {a.id}
    case Replace(id, a) => ids - {id} + {a.id}
    case Delete(id) => ids - {id}
  }

  lemma ChangedIds(s: State, e: string, x: string, change: Change)
    requires UniqueIds(s) && Fits(s, e, x, change)
    ensures var r := Changed(ArtifactsAt(s, e, x), change);
            Ids(r) == ChangedIdSet(Ids(ArtifactsAt(s, e, x)), change) && NoRepeats(r)
  {
    var artifacts := ArtifactsAt(s, e, x);
    match change
    case Append(a) =>
      var r := artifacts + [a];
      assert r[|artifacts|] == a;
      assert forall i :: 0 <= i < |artifacts| ==> r[i] == artifacts[i];
      assert Ids(r) == Ids(artifacts) + {a.id};
    case Replace(id, a) => ReplacedIds(artifacts, id, a);
    case Delete(id) => DeletedIds(artifacts, id);
  }

  lemma IdsCons(a: Artifact, rest: seq<Artifact>)
    ensures Ids([a] + rest) == {a.id} + Ids(rest)
    ensures NoRepeats([a] + rest) <==> NoRepeats(rest) && a.id !in Ids(rest)
  {
    var all := [a] + rest;
    assert all[0] == a;
    assert forall i :: 0 <= i < |rest| ==> all[i + 1] == rest[i];
  }

  lemma {:induction false} ReplacedIds(artifacts: seq<Artifact>, id: string, a: Artifact)
    requires NoRepeats(artifacts) && id in Ids(artifacts) && a.id != "" && a.id !in Ids(artifacts) - {id}
    ensures Ids(UpdateArtifact(artifacts, id, a)) == Ids(artifacts) - {id} + {a.id}
    ensures NoRepeats(UpdateArtifact(artifacts, id, a))
  {
    var rest := artifacts[1..];
    assert artifacts == [artifacts[0]] + rest;
    IdsCons(artifacts[0], rest);
    if artifacts[0].id == id {
      IdsCons(a, rest);
    } else {
      ReplacedIds(rest, id, a);
      IdsCons(artifacts[0], UpdateArtifact(rest, id, a));
    }
  }

  lemma {:induction false} DeletedIds(artifacts: seq<Artifact>, id: string)
    requires NoRepeats(artifacts)
    ensures Ids(RemoveArtifact(artifacts, id)) == Ids(artifacts) - {id}
    ensures NoRepeats(RemoveArtifact(artifacts, id))
  {
    if artifacts != [] {
      var rest := artifacts[1..];
      assert artifacts == [artifacts[0]] + rest;
      IdsCons(artifacts[0], rest);
      DeletedIds(rest, id);
      IdsCons(artifacts[0], RemoveArtifact(rest, id));
    }
  }

  /** The discipline of the modifications: what they check before they emit an event. */
  ghost predicate Guarded(s: State, ev: Event, taskId: string) {
    match ev
    case CreateRequested(_) => true
    case Created(_, _) => false
    case Revised(_, task, _) =>
      task.id == taskId && ValidTask(task) && task.artifacts == s.task.artifacts && task.status == s.task.status
    case StatusChanged(_, _, next, _) => ValidStatus(next)
    case ArtifactAdded(_, e, x, a) =>
      (e == "" ==> x == "") && (x != "" ==> StepExists(s.task.steps, x)) && Fits(s, e, x, Append(a))
    case ArtifactUpdated(_, e, x, id, a) => Fits(s, e, x, Replace(id, a))
    case ArtifactRemoved(_, e, x, id, _) => Fits(s, e, x, Delete(id))
    case StepStatusChanged(_, e, x, _, _, _, _) => e != "" && x != "" && StepExists(s.task.steps, x)
  }

  lemma ChangeUnique(s: State, s': State, e: string, x: string, change: Change)
    requires UniqueIds(s) && Fits(s, e, x, change)
    requires forall e', x' :: ArtifactsAt(s', e', x') ==
               if e' == e && x' == x then Changed(ArtifactsAt(s, e, x), change) else ArtifactsAt(s, e', x')
    ensures UniqueIds(s')
  {
    ChangedIds(s, e, x, change);
    forall e', x' ensures NoRepeats(ArtifactsAt(s', e', x')) && "" !in Ids(ArtifactsAt(s', e', x')) {
      assert NoRepeats(ArtifactsAt(s, e', x')) && "" !in Ids(ArtifactsAt(s, e', x'));
    }
    forall e1, x1, e2, x2, id | id in Ids(ArtifactsAt(s', e1, x1)) && id in Ids(ArtifactsAt(s', e2, x2))
      ensures e1 == e2 && x1 == x2
    {
      assert id in Ids(ArtifactsAt(s, e1, x1)) || (e1 == e && x1 == x);
      assert id in Ids(ArtifactsAt(s, e2, x2)) || (e2 == e && x2 == x);
    }
  }

  lemma RestrictedUnique(s: State, s': State)
    requires UniqueIds(s)
    requires forall e, x :: ArtifactsAt(s', e, x) == ArtifactsAt(s, e, x) || ArtifactsAt(s', e, x) == []
    ensures UniqueIds(s')
  {
    forall e, x ensures NoRepeats(ArtifactsAt(s', e, x)) && "" !in Ids(ArtifactsAt(s', e, x)) {
      assert NoRepeats(ArtifactsAt(s, e, x)) && "" !in Ids(ArtifactsAt(s, e, x));
    }
    forall e1, x1, e2, x2, id | id in Ids(ArtifactsAt(s', e1, x1)) && id in Ids(ArtifactsAt(s', e2, x2))
      ensures e1 == e2 && x1 == x2
    {
      assert id in Ids(ArtifactsAt(s, e1, x1)) && id in Ids(ArtifactsAt(s, e2, x2));
    }
  }

  lemma ValidWithArtifacts(t: Task, artifacts: seq<Artifact>)
    requires ValidTask(t)
    ensures ValidTask(t.(artifacts := artifacts))
  {
    hide Acyclic, Deps, StepIdsDistinct, DependenciesKnown, Blank;
  }

  lemma ChangeKeepsDeclared(s: State, e: string, x: string, change: Change)
    requires Keyed(s) && StateDeclared(s) && (e == "" ==> x == "") && (x != "" ==> StepExists(s.task.steps, x))
    ensures var s' := ChangeArtifacts(s, e, x, change);
      StateDeclared(s') && (s'.current == "" || s'.current in s'.executions || s'.current == s.current)
      && s.executions.Keys <= s'.executions.Keys
  {
    hide Changed, StepExists;
  }

  lemma ChangeSound(s: State, taskId: string, e: string, x: string, change: Change)
    requires Sound(s, taskId) && Fits(s, e, x, change)
    requires (e == "" ==> x == "") && (x != "" ==> StepExists(s.task.steps, x))
    ensures Sound(ChangeArtifacts(s, e, x, change), taskId)
  {
    ChangeEffect(s, e, x, change);
    var s' := ChangeArtifacts(s, e, x, change);
    ChangeUnique(s, s', e, x, change);
    ValidWithArtifacts(s.task, s'.task.artifacts);
    ChangeKeepsDeclared(s, e, x, change);
    hide ValidTask, UniqueIds, StateDeclared, Keyed, ChangeArtifacts, Fits, StepExists, ArtifactsAt;
  }

  lemma RevisedDeclared(s: State, ev: Event)
    requires ev.Revised? && ev.task.id != "" && (ev.task.status.NoStatus? ==> s.task.status.NoStatus?)
    ensures StateDeclared(Apply(s, ev))
  {
    var s' := Apply(s, ev);
    hide ReconcileSteps;
    forall e, x | e in s'.executions && x in s'.executions[e].steps ensures StepExists(s'.task.steps, x) {
      ReconcileStepsEffect(ev.task.steps, s.executions[e].steps, x);
    }
  }

  lemma NoEmptyStep(t: Task)
    requires ValidTask(t)
    ensures !StepExists(t.steps, "")
  {
    hide Acyclic, DependenciesKnown;
    assert Blank("");
  }

  lemma RevisedSound(s: State, taskId: string, ev: Event)
    requires Sound(s, taskId) && ev.Revised? && Guarded(s, ev, taskId)
    ensures Sound(Apply(s, ev), taskId)
  {
    assert ArtifactsAt(s, "", "") == s.task.artifacts;
    hide ValidTask, Apply, UniqueIds, StateDeclared, Keyed, ArtifactsAt, StepStatusOf, StepExists;
    NoEmptyStep(ev.task);
    RevisedEffect(s, ev);
    RestrictedUnique(s, Apply(s, ev));
    RevisedDeclared(s, ev);
  }

  /** Where an id is found, its scope is one that the projector can address. */
  lemma ScopeOfId(s: State, e: string, x: string, id: string)
    requires Keyed(s) && StateDeclared(s) && id in Ids(ArtifactsAt(s, e, x))
    ensures (e == "" ==> x == "") && (x != "" ==> StepExists(s.task.steps, x))
  {
  }

  lemma StatusSound(s: State, taskId: string, ev: Event)
    requires Sound(s, taskId) && ev.StatusChanged? && Guarded(s, ev, taskId)
    ensures Sound(Apply(s, ev), taskId)
  {
    RestrictedUnique(s, Apply(s, ev));
  }

  /** A guarded event keeps every invariant. */
  lemma GuardedKeepsSound(s: State, taskId: string, ev: Event)
    requires Sound(s, taskId) && Guarded(s, ev, taskId)
    ensures Sound(Apply(s, ev), taskId)
  {
    hide ValidTask, UniqueIds;
    match ev
    case CreateRequested(_) =>
    case Revised(_, _, _) => RevisedSound(s, taskId, ev);
    case StatusChanged(_, _, _, _) => StatusSound(s, taskId, ev);
    case ArtifactAdded(_, e, x, a) => ChangeSound(s, taskId, e, x, Append(a));
    case ArtifactUpdated(_, e, x, id, a) =>
      ScopeOfId(s, e, x, id);
      ChangeSound(s, taskId, e, x, Replace(id, a));
    case ArtifactRemoved(_, e, x, id, _) =>
      ScopeOfId(s, e, x, id);
      ChangeSound(s, taskId, e, x, Delete(id));
    case StepStatusChanged(_, e, x, _, _, _, _) =>
      StepStatusEffect(s, ev);
      RestrictedUnique(s, Apply(s, ev));
  }
}
