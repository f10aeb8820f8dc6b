/** The durable task, its executions, and the events that change them (core/task). */
module TaskTypes {
  datatype Status =
    | NoStatus | Draft | Ready | Running | Blocked
    | Completed | Failed | Cancelled | Interrupted
    | OtherStatus(name: string)

  datatype StepStatus =
    | NoStepStatus | Waiting | StepRunning | StepBlocked | Skipped
    | StepCompleted | StepFailed | StepCancelled
    | OtherStepStatus(name: string)

  /** `payload` stands for the kind, schema, value and metadata, which no rule inspects. */
  datatype Artifact = Artifact(
    id: string, name: string, description: string, ref: string, required: bool, payload: string)

  /** `content` stands for the descriptive fields of a step. */
  datatype Step = Step(
    id: string, dependsOn: seq<string>, assignee: string, profile: string, content: string)

  /** The fields that are only passed on. */
  datatype Details = Details(
    scope: seq<string>, constraints: seq<string>, assignee: string, owner: string,
    workspaceId: string, projectId: string, workflowRef: string)

  /** An embedded workflow; `wellFormed` stands for the outcome of its own validation. */
  datatype Workflow = NoWorkflow | Embedded(content: string, wellFormed: bool)

  datatype Task = Task(
    id: string, title: string, description: string, objective: string,
    criteria: seq<string>, inputs: seq<Artifact>, outputs: seq<Artifact>, artifacts: seq<Artifact>,
    status: Status, priority: string, details: Details, workflow: Workflow,
    steps: seq<Step>, labels: seq<string>, metadata: map<string, string>)

  datatype StepExecution = StepExecution(
    stepId: string, status: StepStatus, assignee: string, profile: string,
    output: string, error: string, artifacts: seq<Artifact>)

  datatype Execution = Execution(
    id: string, taskId: string, steps: map<string, StepExecution>, artifacts: seq<Artifact>)

  datatype State = State(task: Task, current: string, executions: map<string, Execution>)

  datatype Event =
    | CreateRequested(taskId: string)
    | Created(taskId: string, task: Task)
    | Revised(taskId: string, task: Task, reason: string)
    | StatusChanged(taskId: string, previous: Status, next: Status, reason: string)
    | ArtifactAdded(taskId: string, executionId: string, stepId: string, artifact: Artifact)
    | ArtifactUpdated(taskId: string, executionId: string, stepId: string, artifactId: string, artifact: Artifact)
    | ArtifactRemoved(taskId: string, executionId: string, stepId: string, artifactId: string, reason: string)
    | StepStatusChanged(taskId: string, executionId: string, stepId: string,
                        previousStep: StepStatus, nextStep: StepStatus, reason: string, output: string)

  predicate ValidStatus(s: Status) {
    !s.NoStatus? && !s.OtherStatus?
  }

  predicate ValidStepStatus(s: StepStatus) {
    !s.NoStepStatus? && !s.OtherStepStatus?
  }

  predicate Terminal(s: Status) {
    s.Completed? || s.Failed? || s.Cancelled?
  }

  predicate StepTerminal(s: StepStatus) {
    s.StepCompleted? || s.StepFailed? || s.StepCancelled? || s.Skipped?
  }

  predicate ActiveTaskStatus(s: Status) {
    s.Draft? || s.Ready? || s.Running? || s.Blocked? || s.Interrupted?
  }

  predicate ActiveStepStatus(s: StepStatus) {
    s.Waiting? || s.StepRunning? || s.StepBlocked?
  }

  predicate ValidPriority(p: string) {
    p in {"low", "normal", "high", "urgent"}
  }

  predicate StepExists(steps: seq<Step>, id: string) {
    exists i :: 0 <= i < |steps| && steps[i].id == id
  }
}

/** Step dependencies: the depth-first search of `validateAcyclic` decides acyclicity. */
module StepGraph {
  import opened TaskTypes

  type Graph = map<string, seq<string>>

  function Deps(steps: seq<Step>): (g: Graph)
    ensures forall x :: x in g <==> StepExists(steps, x)
  {
    if steps == [] then map[]
    else
      var n := |steps| - 1;
      var g := Deps(steps[..n])[steps[n].id := steps[n].dependsOn];
      assert forall x :: StepExists(steps[..n], x) ==> StepExists(steps, x);
      assert StepExists(steps, steps[n].id);
      g
  }

  predicate Edge(g: Graph, a: string, b: string) {
    a in g && b in g[a]
  }

  ghost predicate IsPath(g: Graph, p: seq<string>) {
    forall i :: 0 <= i < |p| - 1 ==> Edge(g, p[i], p[i + 1])
  }

  ghost predicate IsCycle(g: Graph, p: seq<string>) {
    |p| >= 2 && IsPath(g, p) && p[0] == p[|p| - 1]
  }

  ghost predicate Acyclic(g: Graph) {
    forall p :: !IsCycle(g, p)
  }

  /** Every node listed comes after all of its dependencies. */
  ghost predicate Topological(g: Graph, order: seq<string>) {
    forall i, d :: 0 <= i < |order| && Edge(g, order[i], d) ==> d in order[..i]
  }

  lemma {:induction false} PathDescends(g: Graph, order: seq<string>, p: seq<string>, i: nat) returns (j: nat)
    requires Topological(g, order) && IsPath(g, p) && p != []
    requires i < |order| && order[i] == p[0]
    ensures j <= i - (|p| - 1) && order[j] == p[|p| - 1]
    decreases |p|
  {
    j := i;
    if |p| > 1 {
      assert Edge(g, p[0], p[1]);
      var k :| 0 <= k < i && order[k] == p[1];
      j := PathDescends(g, order, p[1..], k);
    }
  }

  lemma {:induction false} NoCycleFrom(g: Graph, order: seq<string>, p: seq<string>, i: nat)
    requires Topological(g, order) && IsCycle(g, p)
    requires i < |order| && order[i] == p[0]
    ensures false
  {
    var j := PathDescends(g, order, p, i);
    NoCycleFrom(g, order, p, j);
  }

  /** A graph whose nodes can all be listed after their dependencies has no cycle. */
  lemma TopologicalAcyclic(g: Graph, order: seq<string>)
    requires Topological(g, order) && forall x :: x in g ==> x in order
    ensures Acyclic(g)
  {
    forall p ensures !IsCycle(g, p) {
      if IsCycle(g, p) {
        assert Edge(g, p[0], p[1]);
        var i :| 0 <= i < |order| && order[i] == p[0];
        NoCycleFrom(g, order, p, i);
      }
    }
  }

  /** The recursive `visit`: `visiting` is the call stack and `visited` the nodes already finished. */
  method Visit(g: Graph, id: string, visiting: set<string>, visited: set<string>,
               ghost stack: seq<string>, ghost order: seq<string>)
    returns (ok: bool, seen: set<string>, ghost finished: seq<string>)
    requires IsPath(g, stack + [id]) && forall x :: x in visiting <==> x in stack
    requires Topological(g, order) && forall x :: x in visited <==> x in order
    ensures ok ==> Topological(g, finished) && order <= finished && id in finished
    ensures ok ==> forall x :: x in seen <==> x in finished
    ensures !ok ==> !Acyclic(g)
    decreases g.Keys - visiting
  {
    finished := order;
    seen := visited;
    if id in visiting {
      ghost var k :| 0 <= k < |stack| && stack[k] == id;
      ghost var cycle := (stack + [id])[k..];
      assert IsCycle(g, cycle) by {
        forall i | 0 <= i < |cycle| - 1 ensures Edge(g, cycle[i], cycle[i + 1]) {
          assert Edge(g, (stack + [id])[k + i], (stack + [id])[k + i + 1]);
        }
      }
      return false, seen, finished;
    }
    if id in visited {
      return true, seen, finished;
    }
    var deps := if id in g then g[id] else [];
    for i := 0 to |deps|
      invariant Topological(g, finished) && order <= finished
      invariant forall x :: x in seen <==> x in finished
      invariant forall k :: 0 <= k < i ==> deps[k] in finished
    {
      assert Edge(g, id, deps[i]);
      if deps[i] == id {
        assert IsCycle(g, [id, id]);
        return false, seen, finished;
      }
      assert IsPath(g, stack + [id] + [deps[i]]);
      ok, seen, finished := Visit(g, deps[i], visiting + {id}, seen, stack + [id], finished);
      if !ok {
        return false, seen, finished;
      }
    }
    assert forall i, d :: 0 <= i < |finished + [id]| && Edge(g, (finished + [id])[i], d)
                          ==> d in (finished + [id])[..i] by {
      forall i, d | 0 <= i < |finished + [id]| && Edge(g, (finished + [id])[i], d)
        ensures d in (finished + [id])[..i]
      {
        assert (finished + [id])[..i] == finished[..i];
      }
    }
    return true, seen + {id}, finished + [id];
  }

  /** `validateAcyclic` accepts exactly the acyclic step lists. */
  method ValidateAcyclic(steps: seq<Step>) returns (ok: bool)
    ensures ok <==> Acyclic(Deps(steps))
  {
    var g := Deps(steps);
    var visited := {};
    ghost var order := [];
    for i := 0 to |steps|
      invariant Topological(g, order)
      invariant forall x :: x in visited <==> x in order
      invariant forall k :: 0 <= k < i ==> steps[k].id in order
    {
      ok, visited, order := Visit(g, steps[i].id, {}, visited, [], order);
      if !ok {
        return;
      }
    }
    TopologicalAcyclic(g, order);
    ok := true;
  }
}

/** `Task.Validate`. */
module TaskValidation {
  import opened GoStrings
  import opened TaskTypes
  import opened StepGraph

  ghost predicate StepIdsDistinct(steps: seq<Step>) {
    && (forall i :: 0 <= i < |steps| ==> !Blank(steps[i].id))
    && (forall i, j :: 0 <= i < j < |steps| ==> steps[i].id != steps[j].id)
  }

  ghost predicate DependenciesKnown(steps: seq<Step>) {
    forall i, d :: 0 <= i < |steps| && d in steps[i].dependsOn ==> StepExists(steps, d)
  }

  ghost predicate ValidTask(t: Task) {
    && !(Blank(t.title) && Blank(t.objective))
    && (t.status.NoStatus? || ValidStatus(t.status))
    && (t.priority == "" || ValidPriority(t.priority))
    && StepIdsDistinct(t.steps)
    && DependenciesKnown(t.steps)
    && Acyclic(Deps(t.steps))
    && (t.workflow.Embedded? ==> t.workflow.wellFormed)
  }

  method ValidateStepIds(steps: seq<Step>) returns (ok: bool, seen: set<string>)
    ensures ok <==> StepIdsDistinct(steps)
    ensures ok ==> forall x :: x in seen <==> StepExists(steps, x)
  {
    hide Blank;
    seen := {};
    for i := 0 to |steps|
      invariant forall k :: 0 <= k < i ==> !Blank(steps[k].id)
      invariant forall k, l :: 0 <= k < l < i ==> steps[k].id != steps[l].id
      invariant forall k :: 0 <= k < i ==> steps[k].id in seen
      invariant forall x :: x in seen ==> exists k :: 0 <= k < i && steps[k].id == x
    {
      if Blank(steps[i].id) || steps[i].id in seen {
        return false, seen;
      }
      seen := seen + {steps[i].id};
    }
    ok := true;
  }

  method ValidateDependencies(steps: seq<Step>, seen: set<string>) returns (ok: bool)
    requires forall x :: x in seen <==> StepExists(steps, x)
    ensures ok <==> DependenciesKnown(steps)
  {
    for i := 0 to |steps|
      invariant forall k, d :: 0 <= k < i && d in steps[k].dependsOn ==> StepExists(steps, d)
    {
      var deps := steps[i].dependsOn;
      for j := 0 to |deps|
        invariant forall k :: 0 <= k < j ==> StepExists(steps, deps[k])
      {
        if deps[j] !in seen {
          assert deps[j] in steps[i].dependsOn;
          return false;
        }
      }
    }
    ok := true;
  }

  method Validate(t: Task) returns (ok: bool)
    ensures ok <==> ValidTask(t)
  {
    if Blank(t.title) && Blank(t.objective) {
      return false;
    }
    if !t.status.NoStatus? && !ValidStatus(t.status) {
      return false;
    }
    if t.priority != "" && !ValidPriority(t.priority) {
      return false;
    }
    var seen;
    ok, seen := ValidateStepIds(t.steps);
    if ok {
      ok := ValidateDependencies(t.steps, seen);
    }
    if ok {
      ok := ValidateAcyclic(t.steps);
    }
    if ok && t.workflow.Embedded? {
      ok := t.workflow.wellFormed;
    }
  }
}

/** The projector: a task stream folded into its state (runtime/task). */
module TaskProjection {
  import opened TaskTypes

  const Manual := "manual"

  const NoDetails := Details([], [], "", "", "", "", "")
  const EmptyTask := Task("", "", "", "", [], [], [], [], NoStatus, "", NoDetails, NoWorkflow, [], [], map[])
  const EmptyState := State(EmptyTask, "", map[])
  const EmptyStep := StepExecution("", NoStepStatus, "", "", "", "", [])

  function FirstTaskId(a: string, b: string): string {
    if a != "" then a else b
  }

  function Named(s: State, taskId: string): State {
    s.(task := s.task.(id := FirstTaskId(s.task.id, taskId)))
  }

  function ExecutionOf(s: State, id: string): Execution {
    if id in s.executions then s.executions[id] else Execution(id, s.task.id, map[], [])
  }

  function StepOf(exec: Execution, id: string): StepExecution {
    if id in exec.steps then exec.steps[id] else EmptyStep
  }

  /** `setExecution`: the execution is stored under its own id. */
  function WithExecution(s: State, exec: Execution, current: string): State {
    s.(current := current, executions := s.executions[exec.id := exec])
  }

  function ReconcileStep(step: Step, existing: map<string, StepExecution>): StepExecution {
    var e := if step.id in existing then existing[step.id] else EmptyStep;
    e.(stepId := if e.stepId == "" then step.id else e.stepId,
       status := if e.status.NoStepStatus? then Waiting else e.status,
       assignee := if e.assignee == "" then step.assignee else e.assignee,
       profile := if e.profile == "" then step.profile else e.profile)
  }

  /** The step state that survives a revision: one entry per declared step, the rest is dropped. */
  function ReconcileSteps(steps: seq<Step>, existing: map<string, StepExecution>): map<string, StepExecution> {
    if steps == [] then map[]
    else
      var n := |steps| - 1;
      ReconcileSteps(steps[..n], existing)[steps[n].id := ReconcileStep(steps[n], existing)]
  }

  function Reconcile(s: State): State {
    s.(executions := map id | id in s.executions ::
         s.executions[id].(steps := ReconcileSteps(s.task.steps, s.executions[id].steps)))
  }

  /** The first artifact with the id is replaced; a replacement without an id keeps the old one. */
  function UpdateArtifact(artifacts: seq<Artifact>, id: string, artifact: Artifact): (r: seq<Artifact>)
    ensures |r| == |artifacts|
  {
    if artifacts == [] then []
    else if artifacts[0].id == id then
      [if artifact.id == "" then artifact.(id := id) else artifact] + artifacts[1..]
    else [artifacts[0]] + UpdateArtifact(artifacts[1..], id, artifact)
  }

  function RemoveArtifact(artifacts: seq<Artifact>, id: string): seq<Artifact> {
    if artifacts == [] then []
    else if artifacts[0].id == id then RemoveArtifact(artifacts[1..], id)
    else [artifacts[0]] + RemoveArtifact(artifacts[1..], id)
  }

  datatype Change = Append(added: Artifact) | Replace(id: string, replacement: Artifact) | Delete(gone: string)

  function Changed(artifacts: seq<Artifact>, change: Change): seq<Artifact> {
    match change
    case Append(a) => artifacts + [a]
    case Replace(id, a) => UpdateArtifact(artifacts, id, a)
    case Delete(id) => RemoveArtifact(artifacts, id)
  }

  /** Change the artifacts of one scope: the task, an execution, or a step of an execution. */
  function ChangeArtifacts(s: State, executionId: string, stepId: string, change: Change): State {
    if executionId != "" then
      var exec := ExecutionOf(s, executionId);
      if stepId != "" then
        var step := StepOf(exec, stepId);
        var step' := step.(stepId := stepId, artifacts := Changed(step.artifacts, change));
        WithExecution(s, exec.(steps := exec.steps[stepId := step']), executionId)
      else
        WithExecution(s, exec.(artifacts := Changed(exec.artifacts, change)), executionId)
    else
      s.(task := s.task.(artifacts := Changed(s.task.artifacts, change)))
  }

  function ApplyStepStatus(s: State, e: Event): State
    requires e.StepStatusChanged?
  {
    var executionId :=
      if e.executionId != "" then e.executionId else if s.current != "" then s.current else Manual;
    var found := ExecutionOf(s, executionId);
    var exec := found.(id := if found.id == "" then executionId else found.id,
                       taskId := if found.taskId == "" then e.taskId else found.taskId);
    var step := StepOf(exec, e.stepId).(stepId := e.stepId, status := e.nextStep);
    var step' :=
      if StepTerminal(e.nextStep) then step.(output := e.output) else step.(output := "", error := "");
    WithExecution(s, exec.(steps := exec.steps[e.stepId := step']), executionId)
  }

  /** One event; time stamps are not modelled. */
  function Apply(s: State, e: Event): State {
    match e
    case CreateRequested(_) => s
    case Created(taskId, task) =>
      s.(task := task.(id := FirstTaskId(task.id, taskId),
                       status := if task.status.NoStatus? then Draft else task.status))
    case Revised(taskId, task, _) =>
      Reconcile(s.(task := task.(id := FirstTaskId(task.id, taskId),
                                 status := if task.status.NoStatus? then s.task.status else task.status)))
    case StatusChanged(taskId, _, next, _) =>
      Named(s, taskId).(task := Named(s, taskId).task.(status := next))
    case ArtifactAdded(taskId, executionId, stepId, artifact) =>
      ChangeArtifacts(Named(s, taskId), executionId, stepId, Append(artifact))
    case ArtifactUpdated(taskId, executionId, stepId, artifactId, artifact) =>
      ChangeArtifacts(Named(s, taskId), executionId, stepId, Replace(artifactId, artifact))
    case ArtifactRemoved(taskId, executionId, stepId, artifactId, _) =>
      ChangeArtifacts(Named(s, taskId), executionId, stepId, Delete(artifactId))
    case StepStatusChanged(_, _, _, _, _, _, _) => ApplyStepStatus(s, e)
  }

  function Fold(s: State, events: seq<Event>): State {
    if events == [] then s else Apply(Fold(s, events[..|events| - 1]), events[|events| - 1])
  }

  function Project(log: seq<Event>): State {
    Fold(EmptyState, log)
  }

  lemma {:induction false} FoldConcat(s: State, a: seq<Event>, b: seq<Event>)
    ensures Fold(s, a + b) == Fold(Fold(s, a), b)
  {
    if b == [] {
      assert a + b == a;
    } else {
      var n := |b| - 1;
      FoldConcat(s, a, b[..n]);
      assert (a + b)[..|a + b| - 1] == a + b[..n];
    }
  }
}
