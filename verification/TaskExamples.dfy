/** Concrete runs on which plausible promises fail. */
module TaskExamples {
  import opened Wrappers
  import opened GoStrings
  import opened Sorting
  import opened StepGraph
  import opened TaskTypes
  import opened TaskValidation
  import opened TaskProjection
  import opened TaskQueries
  import opened TaskEffects
  import opened TaskModification
  import opened TaskInvariants
  import opened TaskTheorems
  import opened TaskLosses
  import opened TaskMeaning

  const NoArtifact := Artifact("", "", "", "", false, "")
  const StepA := Step("a", [], "", "", "")
  const StepB := StepA.(id := "b")

  const NoChange := Modification(
    Unsupported(""), "", "", "", "", [], [], [], [], "", NoDetails, map[], "", NoArtifact, StepA, "",
    NoStepStatus, "", "", "", NoArtifact, [], NoStatus, [])

  /** One declared step, completed in the manual execution. */
  const DoneStep := EmptyStep.(stepId := "a", status := StepCompleted)
  const DoneTask := EmptyTask.(id := "t", title := "t", status := Ready, steps := [StepA])
  const DoneState := State(DoneTask, Manual, map[Manual := Execution(Manual, "t", map["a" := DoneStep], [])])

  const RenameAway := NoChange.(op := UpdateStep, stepId := "a", step := StepB)
  const RenameBack := NoChange.(op := UpdateStep, stepId := "b", step := StepA)
  const NoteElsewhere := NoChange.(op := AddArtifact, executionId := "other",
                                   artifact := NoArtifact.(id := "n", name := "note"))

  const Note := NoArtifact.(id := "n", name := "note")
  const AddB := NoChange.(op := AddStep, step := StepB)
  const RemoveB := NoChange.(op := RemoveStep, stepId := "b")

  /** The same with a note among the artifacts of the step. */
  const NotedState := DoneState.(executions :=
    map[Manual := Execution(Manual, "t", map["a" := DoneStep.(artifacts := [Note])], [])])

  /** The events that lead there. */
  const DoneLog := [CreateRequested("t"), Created("t", DoneTask),
                    StepStatusChanged("t", Manual, "a", NoStepStatus, StepCompleted, "", "")]
  const NoteAdded := ArtifactAdded("t", Manual, "a", Note)

  lemma FoldThree(s: State, a: Event, b: Event, c: Event)
    ensures Fold(s, [a, b, c]) == Apply(Apply(Apply(s, a), b), c)
  {
    hide Apply, Fold;
    FoldOne(s, a);
    FoldSnoc(s, [a], b);
    FoldSnoc(s, [a, b], c);
    assert [a] + [b] == [a, b] && [a, b] + [c] == [a, b, c];
  }

  lemma DoneApplied()
    ensures Apply(Apply(Apply(EmptyState, DoneLog[0]), DoneLog[1]), DoneLog[2]) == DoneState
  {
  }

  lemma NoteApplied()
    ensures Apply(DoneState, NoteAdded) == NotedState
  {
    var noted := DoneStep.(artifacts := [Note]);
    assert Changed([], Append(Note)) == [Note];
    assert map["a" := DoneStep]["a" := noted] == map["a" := noted];
    var exec := Execution(Manual, "t", map["a" := noted], []);
    assert DoneState.executions[Manual := exec] == map[Manual := exec];
  }

  lemma StatesReached()
    ensures Project(DoneLog) == DoneState && Project(DoneLog + [NoteAdded]) == NotedState
  {
    hide Apply, Fold;
    FoldThree(EmptyState, DoneLog[0], DoneLog[1], DoneLog[2]);
    DoneApplied();
    FoldSnoc(EmptyState, DoneLog, NoteAdded);
    NoteApplied();
  }

  lemma SingleStepValid(step: Step)
    requires step == StepA || step == StepB
    ensures ValidTask(DoneTask.(steps := [step]))
  {
    TrimSpaceFixed("t");
    TrimSpaceFixed(step.id);
    var g := Deps([step]);
    assert [step][..0] == [];
    assert g == map[step.id := []];
    forall p ensures !IsCycle(g, p) {
      if |p| >= 2 {
        assert !Edge(g, p[0], p[1]);
      }
    }
  }

  lemma DoneStateSound()
    ensures Sound(DoneState, "t")
  {
    SingleStepValid(StepA);
    assert StepExists([StepA], "a") by { assert [StepA][0].id == "a"; }
    assert forall e, x :: ArtifactsAt(DoneState, e, x) == [];
  }

  lemma RenameEmits(s: State, m: Modification, draws: seq<string>)
    requires m == RenameAway || m == RenameBack
    requires s.task == DoneTask.(steps := [if m == RenameAway then StepA else StepB])
    ensures var o := Modify("t", "", m, s, draws);
      && o.failure.None? && o.events == [Revised("t", DoneTask.(steps := [m.step]), "")]
      && o.state == Apply(s, o.events[0])
  {
    SingleStepValid(m.step);
    hide ValidTask, Apply;
    assert StepExists(s.task.steps, m.stepId) by { assert s.task.steps[0].id == m.stepId; }
    assert ReplaceStep(s.task.steps, m.stepId, m.step) == [m.step];
    assert EditedTask(m, s, draws) == Ok((DoneTask.(steps := [m.step]), draws));
    assert FirstNonBlank("", "") == "";
  }

  lemma RenameOnce(s: State, m: Modification, draws: seq<string>)
    requires m == RenameAway || m == RenameBack
    requires Sound(s, "t") && s.task == DoneTask.(steps := [if m == RenameAway then StepA else StepB])
    ensures var o := Modify("t", "", m, s, draws);
      && o.failure.None? && Sound(o.state, "t") && o.state.task == DoneTask.(steps := [m.step])
      && o.state.executions.Keys == s.executions.Keys
      && (forall e :: StepStatusOf(o.state, e, m.stepId).NoStepStatus?)
      && (forall e :: e in s.executions && StepStatusOf(s, e, m.step.id).NoStepStatus?
           ==> StepStatusOf(o.state, e, m.step.id).Waiting?)
  {
    hide Modify, ValidTask, UniqueIds, StateDeclared, Apply, GuardedRun, StepStatusOf, ArtifactsAt;
    RenameEmits(s, m, draws);
    ModifyGuarded("t", "", m, s, draws);
    var o := Modify("t", "", m, s, draws);
    assert StepExists([m.step], m.step.id) by { assert [m.step][0].id == m.step.id; }
    RevisedEffect(s, o.events[0]);
  }

  lemma TwoItems(m1: Modification, m2: Modification, s: State, draws: seq<string>)
    requires Modify("t", "", m1, s, draws).failure.None?
    ensures var o1 := Modify("t", "", m1, s, draws);
            var o2 := Modify("t", "", m2, o1.state, o1.draws);
            var o := ModifyAll("t", "", [m1, m2], s, draws);
            o.state == o2.state && o.failure == o2.failure
  {
    assert [m1, m2][..1] == [m1] && [m1][..0] == [];
    assert ModifyAll("t", "", [], s, draws) == Outcome(s, [], draws, None);
    var o1 := Modify("t", "", m1, s, draws);
    assert ModifyAll("t", "", [m1], s, draws) == o1.(events := [] + o1.events);
  }

  /** Renaming a completed step away and back makes it wait again without `reopen_step`. */
  lemma TerminalStepBypassed(draws: seq<string>)
    ensures StepTerminal(StepStatusOf(DoneState, Manual, "a"))
    ensures var o := ModifyAll("t", "", [RenameAway, RenameBack], DoneState, draws);
      o.failure.None? && StepStatusOf(o.state, Manual, "a").Waiting?
  {
    DoneStateSound();
    RenameOnce(DoneState, RenameAway, draws);
    var first := Modify("t", "", RenameAway, DoneState, draws);
    RenameOnce(first.state, RenameBack, first.draws);
    TwoItems(RenameAway, RenameBack, DoneState, draws);
  }

  lemma DoneStateCompletable()
    ensures ValidationOf(DoneState).completable
  {
    CompletableParts(DoneState);
    assert OutputChecks([], Scoped(DoneState)) == [];
  }

  lemma AddAccepted(m: Modification, s: State, draws: seq<string>)
    requires m.op.AddArtifact? && m.stepId == "" && m.artifact.id != ""
    requires HasContent(m.artifact) && !ArtifactIdExists(s, m.artifact.id)
    ensures Modify("t", "", m, s, draws) == Emit(s, draws, ArtifactAdded("t", m.executionId, "", m.artifact))
  {
    assert NewArtifact(m.artifact, s, draws) == Ok((m.artifact, draws));
  }

  lemma NoArtifacts(s: State, id: string)
    requires Keyed(s) && forall e, x :: ArtifactsAt(s, e, x) == []
    ensures !ArtifactIdExists(s, id)
  {
    if id != "" {
      IdExistsIffUsed(s, id);
    }
  }

  lemma NoteAccepted(draws: seq<string>)
    ensures Modify("t", "", NoteElsewhere, DoneState, draws)
            == Emit(DoneState, draws, ArtifactAdded("t", "other", "", NoteElsewhere.artifact))
  {
    assert HasContent(NoteElsewhere.artifact) by { TrimSpaceFixed("note"); }
    assert !ArtifactIdExists(DoneState, "n") by { NoArtifacts(DoneState, "n"); }
    AddAccepted(NoteElsewhere, DoneState, draws);
  }

  /** A completable task with steps stops being completable when a new execution gets an artifact. */
  lemma LostElsewhere(s: State, e: string, a: Artifact)
    requires Keyed(s) && s.task.id != "" && ValidationOf(s).completable && s.task.steps != []
    requires e != "" && e !in s.executions
    ensures !ValidationOf(Apply(s, ArtifactAdded(s.task.id, e, "", a))).completable
  {
    hide ValidationOf;
    assert Named(s, s.task.id) == s;
    CompletableAfterAddIff(s, e, "", a);
  }

  /** An artifact noted in another execution makes a completable task not completable. */
  lemma CompletabilityLost(draws: seq<string>)
    ensures ValidationOf(DoneState).completable
    ensures var o := Modify("t", "", NoteElsewhere, DoneState, draws);
      o.failure.None? && !ValidationOf(o.state).completable
  {
    DoneStateCompletable();
    NoteAccepted(draws);
    LostElsewhere(DoneState, "other", NoteElsewhere.artifact);
  }

  lemma NoEdgesAcyclic(g: Graph)
    requires forall x :: x in g ==> g[x] == []
    ensures Acyclic(g)
  {
    forall p ensures !IsCycle(g, p) {
      if |p| >= 2 {
        assert !Edge(g, p[0], p[1]);
      }
    }
  }

  lemma TwoStepsValid()
    ensures ValidTask(DoneTask.(steps := [StepA, StepB]))
  {
    var steps := [StepA, StepB];
    TrimSpaceFixed("t");
    TrimSpaceFixed("a");
    TrimSpaceFixed("b");
    assert steps[..1] == [StepA] && [StepA][..0] == [];
    assert Deps(steps) == map["a" := [], "b" := []];
    NoEdgesAcyclic(Deps(steps));
  }

  /** A step added while there is an execution is refused when it is to be removed again. */
  lemma StepNotRemovable(draws: seq<string>)
    ensures Modify("t", "", AddB, DoneState, draws).failure.None?
    ensures Modify("t", "", RemoveB, Modify("t", "", AddB, DoneState, draws).state, draws).failure.Some?
  {
    DoneStateSound();
    TwoStepsValid();
    assert !Blank("b") by { TrimSpaceFixed("b"); }
    assert [StepA] + [StepB] == [StepA, StepB];
    assert EditedTask(AddB, DoneState, draws) == Ok((DoneTask.(steps := [StepA, StepB]), draws));
    hide Modify, Sound, ValidTask, EditedTask;
    EditMeaning("t", "", AddB, DoneState, draws);
    AddedStepRemovableIff("t", "", AddB, RemoveB, DoneState, draws);
  }

  lemma OneArtifact(s: State, a: Artifact, e: string, x: string)
    requires a.id != "" && forall e', x' :: ArtifactsAt(s, e', x') == if e' == e && x' == x then [a] else []
    ensures UniqueIds(s) && a.id in Ids(ArtifactsAt(s, e, x))
  {
    assert [a][0] == a;
    assert Ids([a]) == {a.id} && Ids([]) == {};
    hide ArtifactsAt;
  }

  lemma NotedAt(e: string, x: string)
    ensures ArtifactsAt(NotedState, e, x) == if e == Manual && x == "a" then [Note] else []
  {
  }

  lemma NotedUnique()
    ensures UniqueIds(NotedState) && HeldBy(NotedState, "n", "a")
  {
    forall e, x ensures ArtifactsAt(NotedState, e, x) == if e == Manual && x == "a" then [Note] else [] {
      NotedAt(e, x);
    }
    hide UniqueIds, Ids, ArtifactsAt;
    OneArtifact(NotedState, Note, Manual, "a");
  }

  lemma NotedStateSound()
    ensures Sound(NotedState, "t") && HeldBy(NotedState, "n", "a")
  {
    SingleStepValid(StepA);
    assert StepExists([StepA], "a") by { assert [StepA][0].id == "a"; }
    hide ValidTask, StepExists, UniqueIds, Ids, HeldBy, ArtifactsAt;
    NotedUnique();
  }

  /** Renaming a step takes its artifacts with it. */
  lemma ArtifactLost(draws: seq<string>)
    ensures !Unused(NotedState, "n")
    ensures var o := Modify("t", "", RenameAway, NotedState, draws);
      o.failure.None? && Unused(o.state, "n")
  {
    NotedStateSound();
    RenameEmits(NotedState, RenameAway, draws);
    hide Modify, Sound, ArtifactsAt;
    var e :| "n" in Ids(ArtifactsAt(NotedState, e, "a"));
    ArtifactLostIff("t", "", RenameAway, NotedState, draws, "n");
    assert RenamesStep(RenameAway, "a");
  }
}
