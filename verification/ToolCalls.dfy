/** Streamed tool calls: what one event does to the pending calls of an assembler. */
module ToolCalls {
  import opened Wrappers
  import opened GoStrings

  datatype Kind = Start | Delta | Done | OtherKind

  datatype StreamEvent = StreamEvent(
    kind: Kind, tool: string, callId: string, callType: string, index: int, arguments: string)

  datatype Json =
    | JNull | JBool(flag: bool) | JNumber(text: string) | JString(value: string)
    | JArray(items: seq<Json>) | JObject(fields: map<string, Json>)

  datatype Target = Target(isOperation: bool, operation: string)
  datatype Case = Case(action: string, target: Target)
  datatype Dispatch = Dispatch(actionField: string, cases: seq<Case>)
  datatype ToolSpec = ToolSpec(dispatch: Option<Dispatch>, target: Target)

  datatype Request = Request(operation: string, input: Json, callId: string, callType: string)

  datatype ToolError =
    | UnknownTool | BadArguments | NotAnOperation | NoActionField | InputNotObject | ActionRequired
    | UnknownAction | EmptyOperation

  /** A call under assembly, by value. */
  datatype Pending = Pending(id: string, callType: string, index: int, name: string, input: string, done: bool)

  type Calls = map<string, Pending>

  /** The projected tools and the JSON decoder; both stay fixed over a stream. */
  datatype Config = Config(tools: map<string, ToolSpec>, decode: string -> Option<Json>)

  function Key(e: StreamEvent): string {
    if e.callId != "" then e.callId else "index:" + Itoa(e.index)
  }

  predicate IsToolEvent(e: StreamEvent) {
    !e.kind.OtherKind?
  }

  function FirstCase(cases: seq<Case>, action: string): Option<Target> {
    if cases == [] then None
    else if cases[0].action == action then Some(cases[0].target)
    else FirstCase(cases[1..], action)
  }

  function DispatchTarget(d: Dispatch, input: Json): Result<Target, ToolError> {
    var field := TrimSpace(d.actionField);
    if field == "" then Err(NoActionField)
    else if !input.JObject? then Err(InputNotObject)
    else if field !in input.fields || !input.fields[field].JString? || Blank(input.fields[field].value) then
      Err(ActionRequired)
    else
      match FirstCase(d.cases, TrimSpace(input.fields[field].value))
      case None => Err(UnknownAction)
      case Some(target) => if target.isOperation then Ok(target) else Err(NotAnOperation)
  }

  function OperationTarget(spec: ToolSpec, input: Json): Result<Target, ToolError> {
    if spec.dispatch.Some? then DispatchTarget(spec.dispatch.value, input)
    else if spec.target.isOperation then Ok(spec.target)
    else Err(NotAnOperation)
  }

  function DecodeArguments(cfg: Config, raw: string): Option<Json> {
    if Blank(raw) then Some(JObject(map[])) else cfg.decode(raw)
  }

  /** `operationRequest`. */
  function RequestOf(cfg: Config, call: Pending): Result<Request, ToolError> {
    if call.name !in cfg.tools then Err(UnknownTool)
    else
      match DecodeArguments(cfg, call.input)
      case None => Err(BadArguments)
      case Some(input) =>
        match OperationTarget(cfg.tools[call.name], input)
        case Err(e) => Err(e)
        case Ok(target) =>
          if target.operation == "" then Err(EmptyOperation)
          else Ok(Request(target.operation, input, call.id, call.callType))
  }

  /** The pending call an event belongs to, created on first sight. */
  function CallFor(calls: Calls, e: StreamEvent): Pending {
    if Key(e) in calls then calls[Key(e)] else Pending(Key(e), "", e.index, "", "", false)
  }

  function Updated(call: Pending, e: StreamEvent): Pending {
    match e.kind
    case Start => call.(name := e.tool, index := e.index, callType := e.callType)
    case OtherKind => call
    case _ =>
      call.(name := if e.tool != "" then e.tool else call.name,
            callType := if e.callType != "" then e.callType else call.callType,
            input := call.input + e.arguments,
            done := call.done || e.kind.Done?)
  }

  /** What an event emits: only a Done event answers, with a request or an error. */
  function Answer(cfg: Config, calls: Calls, e: StreamEvent): Option<Result<Request, ToolError>> {
    if e.kind.Done? then Some(RequestOf(cfg, Updated(CallFor(calls, e), e))) else None
  }

  function Succeeds(cfg: Config, calls: Calls, e: StreamEvent): bool {
    e.kind.Done? && Answer(cfg, calls, e).value.Ok?
  }

  /** A completed call is forgotten; a call whose completion failed stays, marked done. */
  function After(cfg: Config, calls: Calls, e: StreamEvent): Calls {
    if !IsToolEvent(e) then calls
    else if Succeeds(cfg, calls, e) then calls - {Key(e)}
    else calls[Key(e) := Updated(CallFor(calls, e), e)]
  }

  function Run(cfg: Config, events: seq<StreamEvent>): Calls {
    if events == [] then map[]
    else After(cfg, Run(cfg, events[..|events| - 1]), events[|events| - 1])
  }

  /** The answers of a stream, in order, each with the call it belongs to. */
  function Answers(cfg: Config, events: seq<StreamEvent>): seq<(string, Result<Request, ToolError>)> {
    if events == [] then []
    else
      var n := |events| - 1;
      var answer := Answer(cfg, Run(cfg, events[..n]), events[n]);
      Answers(cfg, events[..n]) + if answer.Some? then [(Key(events[n]), answer.value)] else []
  }

  /** The events of one call. */
  function Sub(events: seq<StreamEvent>, id: string): seq<StreamEvent> {
    if events == [] then []
    else
      var n := |events| - 1;
      Sub(events[..n], id) + if IsToolEvent(events[n]) && Key(events[n]) == id then [events[n]] else []
  }

  function AnswersFor(answers: seq<(string, Result<Request, ToolError>)>, id: string): seq<Result<Request, ToolError>> {
    if answers == [] then []
    else
      var n := |answers| - 1;
      AnswersFor(answers[..n], id) + if answers[n].0 == id then [answers[n].1] else []
  }

  lemma RunSnoc(cfg: Config, events: seq<StreamEvent>, e: StreamEvent)
    ensures Run(cfg, events + [e]) == After(cfg, Run(cfg, events), e)
    ensures Answers(cfg, events + [e]) ==
      if e.kind.Done? then Answers(cfg, events) + [(Key(e), Answer(cfg, Run(cfg, events), e).value)]
      else Answers(cfg, events)
  {
    assert (events + [e])[..|events|] == events;
  }

  lemma AnswersForSnoc(cfg: Config, events: seq<StreamEvent>, e: StreamEvent, id: string)
    ensures AnswersFor(Answers(cfg, events + [e]), id) ==
      AnswersFor(Answers(cfg, events), id)
      + if e.kind.Done? && Key(e) == id then [Answer(cfg, Run(cfg, events), e).value] else []
  {
    hide Answer, Key;
    RunSnoc(cfg, events, e);
    var answers := Answers(cfg, events);
    if e.kind.Done? {
      var a := (Key(e), Answer(cfg, Run(cfg, events), e).value);
      assert (answers + [a])[..|answers|] == answers;
    } else {
      assert AnswersFor(answers, id) + [] == AnswersFor(answers, id);
    }
  }

  ghost predicate SameCall(a: Calls, b: Calls, id: string) {
    (id in a <==> id in b) && (id in a ==> a[id] == b[id])
  }

  lemma SameCallNext(cfg: Config, a: Calls, b: Calls, e: StreamEvent, id: string)
    requires SameCall(a, b, id)
    ensures IsToolEvent(e) && Key(e) == id ==> SameCall(After(cfg, a, e), After(cfg, b, e), id)
    ensures !(IsToolEvent(e) && Key(e) == id) ==> SameCall(After(cfg, a, e), b, id)
  {
    hide RequestOf, Updated;
  }

  lemma {:induction false} SameState(cfg: Config, events: seq<StreamEvent>, id: string)
    ensures SameCall(Run(cfg, events), Run(cfg, Sub(events, id)), id)
  {
    if events != [] {
      hide After, SameCall;
      var n := |events| - 1;
      var e := events[n];
      SameState(cfg, events[..n], id);
      SameCallNext(cfg, Run(cfg, events[..n]), Run(cfg, Sub(events[..n], id)), e, id);
      if IsToolEvent(e) && Key(e) == id {
        RunSnoc(cfg, Sub(events[..n], id), e);
      } else {
        assert Sub(events, id) == Sub(events[..n], id);
      }
    } else {
      assert Sub(events, id) == events;
    }
  }

  /**
   * Non-interference: whatever other calls and other events a stream interleaves, the pending state of
   * a call and everything emitted for it are those of its own events alone.
   */
  lemma {:induction false} NonInterference(cfg: Config, events: seq<StreamEvent>, id: string)
    ensures SameCall(Run(cfg, events), Run(cfg, Sub(events, id)), id)
    ensures AnswersFor(Answers(cfg, events), id) == AnswersFor(Answers(cfg, Sub(events, id)), id)
  {
    hide Answer, Answers, AnswersFor, Run, SameCall, Key;
    SameState(cfg, events, id);
    if events != [] {
      var n := |events| - 1;
      var e := events[n];
      NonInterference(cfg, events[..n], id);
      assert events == events[..n] + [e];
      AnswersForSnoc(cfg, events[..n], e, id);
      if IsToolEvent(e) && Key(e) == id {
        AnswersForSnoc(cfg, Sub(events[..n], id), e, id);
        if e.kind.Done? {
          SameAnswer(cfg, Run(cfg, events[..n]), Run(cfg, Sub(events[..n], id)), e);
        }
      } else {
        assert Sub(events, id) == Sub(events[..n], id);
      }
    } else {
      assert Sub(events, id) == events;
    }
  }

  lemma OtherEventIgnored(cfg: Config, calls: Calls, e: StreamEvent)
    requires !IsToolEvent(e)
    ensures After(cfg, calls, e) == calls && Answer(cfg, calls, e) == None
  {
  }

  /** One tool event, in the terms of the call it updates. */
  lemma ToolEventCases(cfg: Config, calls: Calls, e: StreamEvent)
    requires IsToolEvent(e)
    ensures var call := Updated(CallFor(calls, e), e);
      if e.kind.Done? && RequestOf(cfg, call).Ok? then After(cfg, calls, e) == calls - {Key(e)}
      else After(cfg, calls, e) == calls[Key(e) := call]
    ensures Answer(cfg, calls, e) ==
      if e.kind.Done? then Some(RequestOf(cfg, Updated(CallFor(calls, e), e))) else None
  {
  }

  lemma SameAnswer(cfg: Config, a: Calls, b: Calls, e: StreamEvent)
    requires SameCall(a, b, Key(e))
    ensures Answer(cfg, a, e) == Answer(cfg, b, e)
  {
  }

  /** One past the last event that completed the call; 0 when it never completed. */
  function LastCompleted(cfg: Config, events: seq<StreamEvent>, id: string): (k: nat)
    ensures k <= |events|
  {
    if events == [] then 0
    else
      var n := |events| - 1;
      if Key(events[n]) == id && Succeeds(cfg, Run(cfg, events[..n]), events[n]) then |events|
      else LastCompleted(cfg, events[..n], id)
  }

  /** The argument text a call received: Start events contribute none. */
  function ArgumentText(events: seq<StreamEvent>, id: string): string {
    if events == [] then ""
    else
      var e := events[|events| - 1];
      ArgumentText(events[..|events| - 1], id)
      + if (e.kind.Delta? || e.kind.Done?) && Key(e) == id then e.arguments else ""
  }

  function DoneCount(events: seq<StreamEvent>, id: string): nat {
    if events == [] then 0
    else
      var e := events[|events| - 1];
      DoneCount(events[..|events| - 1], id) + if e.kind.Done? && Key(e) == id then 1 else 0
  }

  lemma RecentSnoc(recent: seq<StreamEvent>, e: StreamEvent, id: string)
    ensures Sub(recent + [e], id) == Sub(recent, id) + if IsToolEvent(e) && Key(e) == id then [e] else []
    ensures ArgumentText(recent + [e], id)
            == ArgumentText(recent, id) + if (e.kind.Delta? || e.kind.Done?) && Key(e) == id then e.arguments else ""
    ensures DoneCount(recent + [e], id) == DoneCount(recent, id) + if e.kind.Done? && Key(e) == id then 1 else 0
  {
    assert (recent + [e])[..|recent|] == recent;
  }

  ghost predicate Describes(calls: Calls, recent: seq<StreamEvent>, id: string) {
    if Sub(recent, id) == [] then id !in calls && ArgumentText(recent, id) == "" && DoneCount(recent, id) == 0
    else
      && id in calls
      && calls[id].id == id
      && calls[id].input == ArgumentText(recent, id)
      && (calls[id].done <==> DoneCount(recent, id) > 0)
  }

  lemma DescribesNext(cfg: Config, calls: Calls, recent: seq<StreamEvent>, e: StreamEvent, id: string)
    requires Describes(calls, recent, id) && !(Key(e) == id && Succeeds(cfg, calls, e))
    ensures Describes(After(cfg, calls, e), recent + [e], id)
  {
    hide RequestOf, Sub, ArgumentText, DoneCount;
    RecentSnoc(recent, e, id);
    assert Sub(recent, id) + [] == Sub(recent, id) && ArgumentText(recent, id) + "" == ArgumentText(recent, id);
    if Key(e) == id && Sub(recent, id) == [] {
      assert "" + e.arguments == e.arguments;
    }
  }

  /**
   * The pending calls are exactly the calls with an event since they last completed. Their text is what
   * arrived since then, and they are marked done exactly when a completion failed since then.
   */
  lemma {:induction false} PendingSinceCompletion(cfg: Config, events: seq<StreamEvent>, id: string)
    ensures Describes(Run(cfg, events), events[LastCompleted(cfg, events, id)..], id)
  {
    if events != [] {
      hide RequestOf, Describes;
      var n := |events| - 1;
      var e := events[n];
      PendingSinceCompletion(cfg, events[..n], id);
      var k := LastCompleted(cfg, events[..n], id);
      if LastCompleted(cfg, events, id) != |events| {
        assert events[k..] == events[..n][k..] + [e];
        DescribesNext(cfg, Run(cfg, events[..n]), events[..n][k..], e, id);
      } else {
        Forgotten(Run(cfg, events), id);
      }
    }
    else { Forgotten(Run(cfg, events), id); }
  }

  lemma Forgotten(calls: Calls, id: string)
    ensures Describes(calls, [], id) <==> id !in calls
  {
  }

  /** What is decoded when a call completes: all text since its previous completion, this event's last. */
  lemma DecodedAtDone(cfg: Config, events: seq<StreamEvent>, e: StreamEvent)
    requires e.kind.Done?
    ensures var call := Updated(CallFor(Run(cfg, events), e), e);
      && call.id == Key(e)
      && call.input == ArgumentText(events[LastCompleted(cfg, events, Key(e))..], Key(e)) + e.arguments
      && Answer(cfg, Run(cfg, events), e) == Some(RequestOf(cfg, call))
  {
    PendingSinceCompletion(cfg, events, Key(e));
  }

  predicate AllSucceed(answers: seq<(string, Result<Request, ToolError>)>) {
    forall i :: 0 <= i < |answers| ==> answers[i].1.Ok?
  }

  function Dones(events: seq<StreamEvent>): nat {
    if events == [] then 0
    else Dones(events[..|events| - 1]) + if events[|events| - 1].kind.Done? then 1 else 0
  }

  /** Without failures each Done event is answered by one request, and no pending call is marked done. */
  lemma {:induction false} ExactlyOnce(cfg: Config, events: seq<StreamEvent>)
    requires AllSucceed(Answers(cfg, events))
    ensures |Answers(cfg, events)| == Dones(events)
    ensures forall id :: id in Run(cfg, events) ==> !Run(cfg, events)[id].done
  {
    if events != [] {
      hide RequestOf;
      var n := |events| - 1;
      RunSnoc(cfg, events[..n], events[n]);
      assert events == events[..n] + [events[n]];
      var before := Answers(cfg, events[..n]);
      assert forall i :: 0 <= i < |before| ==> Answers(cfg, events)[i] == before[i];
      if events[n].kind.Done? {
        assert Answers(cfg, events)[|before|].1.Ok?;
      }
      ExactlyOnce(cfg, events[..n]);
    }
  }
}

/** The assembler as an object: pending calls are records that events update in place. */
module ToolCallAssembler {
  import opened Wrappers
  import opened GoStrings
  import opened Sorting
  import opened ToolCalls

  class PendingToolCall {
    const id: string
    var callType: string
    var index: int
    var name: string
    var input: string
    var done: bool

    constructor (id: string, index: int)
      ensures this.id == id && Value() == Pending(id, "", index, "", "", false)
    {
      this.id, this.index := id, index;
      callType, name, input, done := "", "", "", false;
    }

    function Value(): Pending
      reads this
    {
      Pending(id, callType, index, name, input, done)
    }

    method Update(e: StreamEvent)
      requires IsToolEvent(e)
      modifies this
      ensures Value() == Updated(old(Value()), e)
    {
      if e.kind.Start? {
        name, index, callType := e.tool, e.index, e.callType;
        return;
      }
      if e.tool != "" {
        name := e.tool;
      }
      if e.callType != "" {
        callType := e.callType;
      }
      input := input + e.arguments;
      if e.kind.Done? {
        done := true;
      }
    }
  }

  function CompletedRequests(cfg: Config, calls: Calls, ids: seq<string>): Result<seq<Request>, ToolError>
    requires forall id :: id in ids ==> id in calls
  {
    if ids == [] then Ok([])
    else
      var n := |ids| - 1;
      match CompletedRequests(cfg, calls, ids[..n])
      case Err(e) => Err(e)
      case Ok(out) =>
        if !calls[ids[n]].done then Ok(out)
        else
          match RequestOf(cfg, calls[ids[n]])
          case Err(e) => Err(e)
          case Ok(req) => Ok(out + [req])
  }

  lemma NoneCompleted(cfg: Config, calls: Calls)
    ensures CompletedRequests(cfg, calls, []) == Ok([])
  {
  }

  lemma CompletedNext(cfg: Config, calls: Calls, ids: seq<string>, i: nat, out: seq<Request>)
    requires i < |ids| && forall id :: id in ids ==> id in calls
    requires CompletedRequests(cfg, calls, ids[..i]) == Ok(out)
    ensures CompletedRequests(cfg, calls, ids[..i + 1]) ==
      if !calls[ids[i]].done then Ok(out)
      else
        var req := RequestOf(cfg, calls[ids[i]]);
        if req.Err? then Err(req.error) else Ok(out + [req.value])
  {
    hide RequestOf;
    assert ids[..i + 1][..i] == ids[..i];
  }

  lemma {:induction false} FirstErrorStops(cfg: Config, calls: Calls, ids: seq<string>, i: nat)
    requires i < |ids| && forall id :: id in ids ==> id in calls
    requires CompletedRequests(cfg, calls, ids[..i + 1]).Err?
    ensures CompletedRequests(cfg, calls, ids) == CompletedRequests(cfg, calls, ids[..i + 1])
    decreases |ids|
  {
    if i + 1 < |ids| {
      var init := ids[..|ids| - 1];
      assert init[..i + 1] == ids[..i + 1];
      FirstErrorStops(cfg, calls, init, i);
    } else {
      assert ids[..i + 1] == ids;
    }
  }

  /** After a stream without failed completions, `Complete` has nothing left to return. */
  lemma {:induction false} NothingLeftToComplete(cfg: Config, events: seq<StreamEvent>, ids: seq<string>)
    requires AllSucceed(Answers(cfg, events)) && forall id :: id in ids ==> id in Run(cfg, events)
    ensures CompletedRequests(cfg, Run(cfg, events), ids) == Ok([])
  {
    if ids != [] {
      NothingLeftToComplete(cfg, events, ids[..|ids| - 1]);
      ExactlyOnce(cfg, events);
    }
  }

  lemma Replaced(calls: Calls, id: string, call: Pending)
    ensures calls[id := call] - {id} == calls - {id}
  {
  }

  /** The pair `Apply` returns, as an answer: an error, one request, or nothing. */
  function Reply(out: seq<Request>, failure: Option<ToolError>): Option<Result<Request, ToolError>> {
    if failure.Some? then Some(Err(failure.value)) else if out != [] then Some(Ok(out[0])) else None
  }

  class Assembler {
    const cfg: Config
    var calls: map<string, PendingToolCall>
    ghost var records: set<PendingToolCall>

    /** Records are filed under their own id, so different ids never share a record. */
    ghost predicate Valid()
      reads this, records
    {
      forall id :: id in calls ==> calls[id] in records && calls[id].id == id
    }

    function View(): Calls
      requires Valid()
      reads this, records
    {
      map id | id in calls :: calls[id].Value()
    }

    constructor (cfg: Config)
      ensures Valid() && View() == map[] && this.cfg == cfg && records == {}
    {
      this.cfg := cfg;
      calls := map[];
      records := {};
    }

    /** `call`: the record of the event's call, created on first sight. */
    method Call(e: StreamEvent) returns (call: PendingToolCall)
      requires Valid()
      modifies this
      ensures Valid() && fresh(records - old(records))
      ensures call in records && call.id == Key(e)
      ensures call.Value() == CallFor(old(View()), e)
      ensures View() == old(View())[Key(e) := call.Value()] && Key(e) in calls && calls[Key(e)] == call
    {
      var id := e.callId;
      if id == "" {
        id := "index:" + Itoa(e.index);
      }
      if id in calls {
        call := calls[id];
        return;
      }
      call := new PendingToolCall(id, e.index);
      calls := calls[id := call];
      records := records + {call};
    }

    /** The record of one call changes; all other calls keep theirs. */
    method Update(call: PendingToolCall, e: StreamEvent)
      requires Valid() && IsToolEvent(e) && call in records
      requires call.id in calls && calls[call.id] == call
      modifies call
      ensures Valid() && View() == old(View())[call.id := Updated(old(call.Value()), e)]
      ensures call.Value() == Updated(old(call.Value()), e)
    {
      call.Update(e);
    }

    method Forget(id: string)
      requires Valid()
      modifies this
      ensures Valid() && View() == old(View()) - {id} && records == old(records)
    {
      calls := calls - {id};
    }

    /** The end of `Apply` on a Done event: the request of the call, which is then forgotten. */
    method Finish(call: PendingToolCall) returns (out: seq<Request>, failure: Option<ToolError>)
      requires Valid() && call in records && call.id in calls && calls[call.id] == call
      modifies this
      ensures Valid() && records == old(records)
      ensures Reply(out, failure) == Some(RequestOf(cfg, old(call.Value()))) && |out| <= 1
      ensures View() == if failure.Some? then old(View()) else old(View()) - {call.id}
    {
      hide RequestOf;
      out, failure := [], None;
      var req := RequestOf(cfg, call.Value());
      if req.Err? {
        failure := Some(req.error);
      } else {
        Forget(call.id);
        out := [req.value];
      }
    }

    /** The beginning of `Apply`: the record of the event's call takes in the event. */
    method Take(e: StreamEvent) returns (call: PendingToolCall)
      requires Valid() && IsToolEvent(e)
      modifies this, records
      ensures Valid() && fresh(records - old(records))
      ensures call in records && call.id == Key(e) && Key(e) in calls && calls[Key(e)] == call
      ensures call.Value() == Updated(CallFor(old(View()), e), e)
      ensures View() == old(View())[Key(e) := call.Value()]
    {
      hide Itoa, Updated, CallFor;
      ghost var before := View();
      call := Call(e);
      Update(call, e);
      assert before[Key(e) := CallFor(before, e)][Key(e) := call.Value()] == before[Key(e) := call.Value()];
    }

    /** `Apply`. */
    method Apply(e: StreamEvent) returns (out: seq<Request>, failure: Option<ToolError>)
      requires Valid()
      modifies this, records
      ensures Valid() && fresh(records - old(records))
      ensures View() == After(cfg, old(View()), e)
      ensures Answer(cfg, old(View()), e) == Reply(out, failure) && |out| <= 1
    {
      hide RequestOf, Itoa, Updated, CallFor, After, Answer, View;
      out, failure := [], None;
      ghost var before := View();
      if e.kind.OtherKind? {
        OtherEventIgnored(cfg, before, e);
        return;
      }
      ToolEventCases(cfg, before, e);
      var call := Take(e);
      if e.kind.Done? {
        Replaced(before, Key(e), call.Value());
        out, failure := Finish(call);
      }
    }

    /** `Complete`: the calls already marked done, in the order of their ids. */
    method Complete() returns (r: Result<seq<Request>, ToolError>)
      requires Valid()
      ensures r == CompletedRequests(cfg, View(), SortedKeys(View().Keys))
    {
      r := CompleteCalls(cfg, View());
    }
  }

  /** An assembler fed a whole stream: its pending calls are those of the run, its replies the answers. */
  method Assemble(cfg: Config, events: seq<StreamEvent>)
      returns (a: Assembler, answers: seq<(string, Result<Request, ToolError>)>)
    ensures fresh(a) && a.Valid() && a.cfg == cfg
    ensures a.View() == Run(cfg, events) && answers == Answers(cfg, events)
  {
    hide After, Answer, Key;
    a := new Assembler(cfg);
    answers := [];
    for i := 0 to |events|
      invariant fresh(a) && fresh(a.records) && a.Valid() && a.cfg == cfg
      invariant a.View() == Run(cfg, events[..i]) && answers == Answers(cfg, events[..i])
    {
      assert events[..i + 1][..i] == events[..i];
      var out, failure := a.Apply(events[i]);
      if failure.Some? {
        answers := answers + [(Key(events[i]), Err(failure.value))];
      } else if out != [] {
        answers := answers + [(Key(events[i]), Ok(out[0]))];
      }
    }
    assert events[..|events|] == events;
  }

  method CompleteCalls(cfg: Config, calls: Calls) returns (r: Result<seq<Request>, ToolError>)
    ensures r == CompletedRequests(cfg, calls, SortedKeys(calls.Keys))
  {
    hide RequestOf, CompletedRequests;
    var ids := SortKeys(calls.Keys);
    var out := [];
    assert ids[..0] == [];
    NoneCompleted(cfg, calls);
    for i := 0 to |ids|
      invariant CompletedRequests(cfg, calls, ids[..i]) == Ok(out)
    {
      CompletedNext(cfg, calls, ids, i, out);
      var call := calls[ids[i]];
      if call.done {
        var req := RequestOf(cfg, call);
        if req.Err? {
          FirstErrorStops(cfg, calls, ids, i);
          return Err(req.error);
        }
        out := out + [req.value];
      }
    }
    assert ids[..|ids|] == ids;
    r := Ok(out);
  }
}
