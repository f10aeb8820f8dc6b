/** What the requests of a stream hold, in terms of the events, the tools and the JSON decoder alone. */
module ToolRequests {
  import opened Wrappers
  import opened GoStrings
  import opened ToolCalls

  /** A Start says the tool, whatever it is; other events only when they name one. */
  predicate NamesTool(e: StreamEvent, id: string) {
    Key(e) == id && (e.kind.Start? || ((e.kind.Delta? || e.kind.Done?) && e.tool != ""))
  }

  predicate NamesType(e: StreamEvent, id: string) {
    Key(e) == id && (e.kind.Start? || ((e.kind.Delta? || e.kind.Done?) && e.callType != ""))
  }

  predicate ToolFrom(events: seq<StreamEvent>, id: string, tool: string, i: int) {
    && 0 <= i < |events| && NamesTool(events[i], id) && events[i].tool == tool
    && forall j :: i < j < |events| ==> !NamesTool(events[j], id)
  }

  predicate TypeFrom(events: seq<StreamEvent>, id: string, callType: string, i: int) {
    && 0 <= i < |events| && NamesType(events[i], id) && events[i].callType == callType
    && forall j :: i < j < |events| ==> !NamesType(events[j], id)
  }

  /** The last tool that the events of a call name; none is the empty one. */
  ghost predicate LastTool(events: seq<StreamEvent>, id: string, tool: string) {
    (exists i :: ToolFrom(events, id, tool, i))
    || (tool == "" && forall i :: 0 <= i < |events| ==> !NamesTool(events[i], id))
  }

  ghost predicate LastType(events: seq<StreamEvent>, id: string, callType: string) {
    (exists i :: TypeFrom(events, id, callType, i))
    || (callType == "" && forall i :: 0 <= i < |events| ==> !NamesType(events[i], id))
  }

  lemma LastToolSnoc(events: seq<StreamEvent>, e: StreamEvent, id: string, tool: string)
    requires LastTool(events, id, tool)
    ensures LastTool(events + [e], id, if NamesTool(e, id) then e.tool else tool)
  {
    hide NamesTool;
    var all, n := events + [e], |events|;
    assert all[n] == e && forall j :: 0 <= j < n ==> all[j] == events[j];
    if NamesTool(e, id) {
      assert ToolFrom(all, id, e.tool, n);
    } else if i :| ToolFrom(events, id, tool, i) {
      assert ToolFrom(all, id, tool, i);
    }
  }

  lemma LastTypeSnoc(events: seq<StreamEvent>, e: StreamEvent, id: string, callType: string)
    requires LastType(events, id, callType)
    ensures LastType(events + [e], id, if NamesType(e, id) then e.callType else callType)
  {
    hide NamesType;
    var all, n := events + [e], |events|;
    assert all[n] == e && forall j :: 0 <= j < n ==> all[j] == events[j];
    if NamesType(e, id) {
      assert TypeFrom(all, id, e.callType, n);
    } else if i :| TypeFrom(events, id, callType, i) {
      assert TypeFrom(all, id, callType, i);
    }
  }

  /** The last tool and the last type are determined by the events. */
  lemma LastUnique(events: seq<StreamEvent>, id: string, t1: string, t2: string)
    ensures LastTool(events, id, t1) && LastTool(events, id, t2) ==> t1 == t2
    ensures LastType(events, id, t1) && LastType(events, id, t2) ==> t1 == t2
  {
    hide NamesTool, NamesType;
    if i, j :| ToolFrom(events, id, t1, i) && ToolFrom(events, id, t2, j) {
      assert i == j;
    }
    if i, j :| TypeFrom(events, id, t1, i) && TypeFrom(events, id, t2, j) {
      assert i == j;
    }
  }

  function ToolOf(calls: Calls, id: string): string {
    if id in calls then calls[id].name else ""
  }

  function TypeOf(calls: Calls, id: string): string {
    if id in calls then calls[id].callType else ""
  }

  lemma NextNames(cfg: Config, calls: Calls, e: StreamEvent, id: string)
    requires !(Key(e) == id && Succeeds(cfg, calls, e))
    ensures ToolOf(After(cfg, calls, e), id) == if NamesTool(e, id) then e.tool else ToolOf(calls, id)
    ensures TypeOf(After(cfg, calls, e), id) == if NamesType(e, id) then e.callType else TypeOf(calls, id)
  {
    hide RequestOf;
  }

  /** The events since the call last completed. */
  function Recent(cfg: Config, events: seq<StreamEvent>, id: string): seq<StreamEvent> {
    events[LastCompleted(cfg, events, id)..]
  }

  /** A call last completed at the last Done event of its own that was answered with a request. */
  lemma {:induction false} LastCompletedIs(cfg: Config, events: seq<StreamEvent>, id: string)
    ensures var k := LastCompleted(cfg, events, id);
      && (k > 0 ==> Key(events[k - 1]) == id && Succeeds(cfg, Run(cfg, events[..k - 1]), events[k - 1]))
      && forall j :: k <= j < |events| ==> !(Key(events[j]) == id && Succeeds(cfg, Run(cfg, events[..j]), events[j]))
  {
    hide Succeeds, Key, Run;
    if events != [] {
      var n := |events| - 1;
      LastCompletedIs(cfg, events[..n], id);
      var k := LastCompleted(cfg, events, id);
      if k <= n {
        assert forall j :: 0 <= j < n ==> events[..n][..j] == events[..j] && events[..n][j] == events[j];
        assert k > 0 ==> events[..n][..k - 1] == events[..k - 1];
      }
    }
  }

  lemma {:induction false} NamesSinceCompletion(cfg: Config, events: seq<StreamEvent>, id: string)
    ensures LastTool(Recent(cfg, events, id), id, ToolOf(Run(cfg, events), id))
    ensures LastType(Recent(cfg, events, id), id, TypeOf(Run(cfg, events), id))
  {
    hide RequestOf, Succeeds, After, LastTool, LastType, Key, NamesTool, NamesType;
    NothingNamed(id);
    if events != [] {
      var n := |events| - 1;
      var e, before := events[n], Run(cfg, events[..n]);
      NamesSinceCompletion(cfg, events[..n], id);
      if LastCompleted(cfg, events, id) == |events| {
        Completed(cfg, before, e, id);
        assert Recent(cfg, events, id) == [];
      } else {
        var recent := Recent(cfg, events[..n], id);
        NextNames(cfg, before, e, id);
        LastToolSnoc(recent, e, id, ToolOf(before, id));
        LastTypeSnoc(recent, e, id, TypeOf(before, id));
        assert Recent(cfg, events, id) == recent + [e];
      }
    }
  }

  lemma NothingNamed(id: string)
    ensures LastTool([], id, "") && LastType([], id, "")
  {
  }

  lemma Completed(cfg: Config, calls: Calls, e: StreamEvent, id: string)
    ensures Key(e) == id && Succeeds(cfg, calls, e) ==> id !in After(cfg, calls, e)
  {
    hide RequestOf;
  }

  predicate FirstCaseAt(cases: seq<Case>, action: string, k: int) {
    0 <= k < |cases| && cases[k].action == action && forall j :: 0 <= j < k ==> cases[j].action != action
  }

  /** The action that an input names, if it does. */
  predicate NamesAction(input: Json, field: string) {
    && input.JObject? && field in input.fields && input.fields[field].JString?
    && TrimSpace(input.fields[field].value) != ""
  }

  /** An operation runs, anything else does not. */
  predicate Runs(target: Target, r: Result<Target, ToolError>) {
    r == if target.isOperation then Ok(target) else Err(NotAnOperation)
  }

  /** Which target an input reaches: the tool's own, or that of the first case for the action it names. */
  ghost predicate Reaches(spec: ToolSpec, input: Json, r: Result<Target, ToolError>) {
    if spec.dispatch.None? then Runs(spec.target, r)
    else
      var field, cases := TrimSpace(spec.dispatch.value.actionField), spec.dispatch.value.cases;
      if field == "" then r == Err(NoActionField)
      else if !input.JObject? then r == Err(InputNotObject)
      else if !NamesAction(input, field) then r == Err(ActionRequired)
      else
        var action := TrimSpace(input.fields[field].value);
        if forall k :: 0 <= k < |cases| ==> cases[k].action != action then r == Err(UnknownAction)
        else forall k :: FirstCaseAt(cases, action, k) ==> Runs(cases[k].target, r)
  }

  lemma {:induction false} FirstCaseFound(cases: seq<Case>, action: string)
    ensures if forall k :: 0 <= k < |cases| ==> cases[k].action != action then FirstCase(cases, action).None?
            else FirstCase(cases, action).Some?
                 && forall k :: FirstCaseAt(cases, action, k) ==> cases[k].target == FirstCase(cases, action).value
  {
    if cases != [] && cases[0].action != action {
      var rest := cases[1..];
      FirstCaseFound(rest, action);
      assert forall k :: 1 <= k < |cases| ==> cases[k] == rest[k - 1];
      forall k | FirstCaseAt(cases, action, k) ensures FirstCaseAt(rest, action, k - 1) {
      }
      if k :| 0 <= k < |cases| && cases[k].action == action {
        assert rest[k - 1].action == action;
      }
    }
  }

  lemma OperationReaches(spec: ToolSpec, input: Json)
    ensures Reaches(spec, input, OperationTarget(spec, input))
  {
    hide TrimSpace, FirstCase;
    if spec.dispatch.Some? {
      var field := TrimSpace(spec.dispatch.value.actionField);
      if NamesAction(input, field) {
        FirstCaseFound(spec.dispatch.value.cases, TrimSpace(input.fields[field].value));
      }
    }
  }

  /** The request for an operation, or what is wrong with the target. */
  predicate Requests(id: string, callType: string, input: Json, target: Result<Target, ToolError>,
                     reply: Result<Request, ToolError>) {
    if target.Err? then reply == Err(target.error)
    else if target.value.operation == "" then reply == Err(EmptyOperation)
    else
      && reply.Ok?
      && reply.value.operation == target.value.operation && reply.value.input == input
      && reply.value.callId == id && reply.value.callType == callType
  }

  lemma OneText(e: StreamEvent, id: string)
    ensures ArgumentText([e], id) == if (e.kind.Delta? || e.kind.Done?) && Key(e) == id then e.arguments else ""
  {
    assert [e][..0] == [];
  }

  /** The text of a call is that of its events, one after the other. */
  lemma {:induction false} TextConcat(a: seq<StreamEvent>, b: seq<StreamEvent>, id: string)
    ensures ArgumentText(a + b, id) == ArgumentText(a, id) + ArgumentText(b, id)
  {
    hide *;
    if b == [] {
      NoText(id);
      assert a + b == a && ArgumentText(a, id) + "" == ArgumentText(a, id);
    } else {
      var init, last := b[..|b| - 1], b[|b| - 1];
      TextConcat(a, init, id);
      TextSnoc(a + init, last, id);
      TextSnoc(init, last, id);
      assert a + b == a + init + [last] && b == init + [last];
    }
  }

  lemma NoText(id: string)
    ensures ArgumentText([], id) == ""
  {
  }

  lemma TextSnoc(a: seq<StreamEvent>, e: StreamEvent, id: string)
    ensures ArgumentText(a + [e], id) == ArgumentText(a, id) + ArgumentText([e], id)
  {
    hide Sub, DoneCount, Key;
    RecentSnoc(a, e, id);
    OneText(e, id);
  }

  /** What a call of a tool with a text is answered; a text of blanks stands for the empty object. */
  ghost predicate Replies(cfg: Config, id: string, callType: string, tool: string, text: string,
                          reply: Result<Request, ToolError>) {
    if tool !in cfg.tools then reply == Err(UnknownTool)
    else if TrimSpace(text) != "" && cfg.decode(text).None? then reply == Err(BadArguments)
    else
      var input := if TrimSpace(text) == "" then JObject(map[]) else cfg.decode(text).value;
      exists target :: Reaches(cfg.tools[tool], input, target) && Requests(id, callType, input, target, reply)
  }

  /** Every input reaches one target, or fails in one way. */
  lemma ReachesOne(spec: ToolSpec, input: Json)
    ensures exists r :: Reaches(spec, input, r)
    ensures forall r1, r2 :: Reaches(spec, input, r1) && Reaches(spec, input, r2) ==> r1 == r2
  {
    hide TrimSpace;
    OperationReaches(spec, input);
    if spec.dispatch.Some? {
      var field := TrimSpace(spec.dispatch.value.actionField);
      if NamesAction(input, field) {
        FirstCaseSomewhere(spec.dispatch.value.cases, TrimSpace(input.fields[field].value));
      }
    }
  }

  lemma {:induction false} FirstCaseSomewhere(cases: seq<Case>, action: string)
    ensures (forall k :: 0 <= k < |cases| ==> cases[k].action != action) || exists k :: FirstCaseAt(cases, action, k)
  {
    if cases != [] {
      if cases[0].action == action {
        assert FirstCaseAt(cases, action, 0);
      } else {
        FirstCaseSomewhere(cases[1..], action);
        if k :| FirstCaseAt(cases[1..], action, k) {
          assert FirstCaseAt(cases, action, k + 1);
        }
      }
    }
  }

  lemma RequestReplies(cfg: Config, call: Pending)
    ensures Replies(cfg, call.id, call.callType, call.name, call.input, RequestOf(cfg, call))
  {
    hide TrimSpace, OperationTarget, Reaches;
    if call.name in cfg.tools && DecodeArguments(cfg, call.input).Some? {
      var spec, input := cfg.tools[call.name], DecodeArguments(cfg, call.input).value;
      OperationReaches(spec, input);
      assert Requests(call.id, call.callType, input, OperationTarget(spec, input), RequestOf(cfg, call));
    }
  }

  /** The answer to a Done event, in terms of the events of its call since it last completed, itself included. */
  ghost predicate Answered(cfg: Config, recent: seq<StreamEvent>, id: string, reply: Result<Request, ToolError>) {
    exists tool, callType ::
      LastTool(recent, id, tool) && LastType(recent, id, callType)
      && Replies(cfg, id, callType, tool, ArgumentText(recent, id), reply)
  }

  lemma UpdatedNames(calls: Calls, e: StreamEvent)
    requires IsToolEvent(e)
    ensures var call := Updated(CallFor(calls, e), e);
      && call.name == (if NamesTool(e, Key(e)) then e.tool else ToolOf(calls, Key(e)))
      && call.callType == (if NamesType(e, Key(e)) then e.callType else TypeOf(calls, Key(e)))
  {
  }

  /** A Done event is answered by what its call has said since it last completed, and by nothing else. */
  lemma DoneAnswered(cfg: Config, events: seq<StreamEvent>, e: StreamEvent)
    requires e.kind.Done?
    ensures Answer(cfg, Run(cfg, events), e).Some?
    ensures Answered(cfg, Recent(cfg, events, Key(e)) + [e], Key(e), Answer(cfg, Run(cfg, events), e).value)
  {
    hide LastTool, LastType, Replies, Run, Updated, CallFor, RequestOf, Key, ToolOf, TypeOf, ArgumentText, NamesTool, NamesType;
    var id, calls := Key(e), Run(cfg, events);
    var recent := Recent(cfg, events, id);
    var call := Updated(CallFor(calls, e), e);
    DecodedAtDone(cfg, events, e);
    RequestReplies(cfg, call);
    UpdatedNames(calls, e);
    NamesSinceCompletion(cfg, events, id);
    LastToolSnoc(recent, e, id, ToolOf(calls, id));
    LastTypeSnoc(recent, e, id, TypeOf(calls, id));
    RecentSnoc(recent, e, id);
  }

  /** There is only one answer like that. */
  lemma AnsweredOnce(cfg: Config, recent: seq<StreamEvent>, id: string,
                     r1: Result<Request, ToolError>, r2: Result<Request, ToolError>)
    requires Answered(cfg, recent, id, r1) && Answered(cfg, recent, id, r2)
    ensures r1 == r2
  {
    hide LastTool, LastType, Reaches, ArgumentText, TrimSpace;
    var t1, c1 :| LastTool(recent, id, t1) && LastType(recent, id, c1)
                  && Replies(cfg, id, c1, t1, ArgumentText(recent, id), r1);
    var t2, c2 :| LastTool(recent, id, t2) && LastType(recent, id, c2)
                  && Replies(cfg, id, c2, t2, ArgumentText(recent, id), r2);
    LastUnique(recent, id, t1, t2);
    LastUnique(recent, id, c1, c2);
    var text := ArgumentText(recent, id);
    if t1 in cfg.tools && (TrimSpace(text) == "" || cfg.decode(text).Some?) {
      ReachesOne(cfg.tools[t1], if TrimSpace(text) == "" then JObject(map[]) else cfg.decode(text).value);
    }
  }

  /** The answer at position `i` of a stream belongs to the Done event `k`, before which there are `i` others. */
  ghost predicate AnswerOf(cfg: Config, events: seq<StreamEvent>, i: nat, k: int)
    requires i < |Answers(cfg, events)|
  {
    && 0 <= k < |events| && events[k].kind.Done? && Dones(events[..k]) == i
    && Answers(cfg, events)[i].0 == Key(events[k])
    && Answered(cfg, Recent(cfg, events[..k], Key(events[k])) + [events[k]], Key(events[k]), Answers(cfg, events)[i].1)
  }

  ghost predicate Accounted(cfg: Config, events: seq<StreamEvent>, i: nat)
    requires i < |Answers(cfg, events)|
  {
    exists k :: AnswerOf(cfg, events, i, k)
  }

  lemma StillAccounted(cfg: Config, init: seq<StreamEvent>, e: StreamEvent, i: nat)
    requires i < |Answers(cfg, init)| && Accounted(cfg, init, i)
    ensures i < |Answers(cfg, init + [e])| && Accounted(cfg, init + [e], i)
  {
    hide Answered, Recent, Key, Answer, Dones;
    RunSnoc(cfg, init, e);
    var events := init + [e];
    var k :| AnswerOf(cfg, init, i, k);
    assert events[..k] == init[..k] && events[k] == init[k];
    assert Answers(cfg, events)[i] == Answers(cfg, init)[i];
    assert AnswerOf(cfg, events, i, k);
  }

  lemma NewlyAccounted(cfg: Config, init: seq<StreamEvent>, e: StreamEvent)
    requires e.kind.Done? && |Answers(cfg, init)| == Dones(init)
    ensures |Answers(cfg, init + [e])| == Dones(init) + 1 && Accounted(cfg, init + [e], Dones(init))
  {
    hide Answered, Recent, Key, Answer, Dones;
    RunSnoc(cfg, init, e);
    DoneAnswered(cfg, init, e);
    assert (init + [e])[..|init|] == init;
    assert AnswerOf(cfg, init + [e], Dones(init), |init|);
  }

  /** A stream is answered once for each Done event, in order, each time by what was said since. */
  ghost predicate AllAccounted(cfg: Config, events: seq<StreamEvent>) {
    |Answers(cfg, events)| == Dones(events)
    && forall i :: 0 <= i < |Answers(cfg, events)| ==> Accounted(cfg, events, i)
  }

  lemma StillAllAccounted(cfg: Config, init: seq<StreamEvent>, e: StreamEvent)
    requires AllAccounted(cfg, init)
    ensures AllAccounted(cfg, init + [e])
  {
    hide Accounted, Answer, Answers, Run, Key, Dones;
    RunSnoc(cfg, init, e);
    DonesSnoc(init, e);
    if e.kind.Done? {
      NewlyAccounted(cfg, init, e);
    }
    forall i | 0 <= i < |Answers(cfg, init + [e])| ensures Accounted(cfg, init + [e], i) {
      if i < |Answers(cfg, init)| {
        StillAccounted(cfg, init, e, i);
      }
    }
  }

  lemma DonesSnoc(init: seq<StreamEvent>, e: StreamEvent)
    ensures Dones(init + [e]) == Dones(init) + if e.kind.Done? then 1 else 0
  {
    assert (init + [e])[..|init|] == init;
  }

  lemma {:induction false} AnswersMeaning(cfg: Config, events: seq<StreamEvent>)
    ensures AllAccounted(cfg, events)
  {
    if events != [] {
      AnswersMeaning(cfg, events[..|events| - 1]);
      StillAllAccounted(cfg, events[..|events| - 1], events[|events| - 1]);
      assert events == events[..|events| - 1] + [events[|events| - 1]];
      hide AllAccounted;
    }
  }

  /** Events belong to one call when they give the same id, or none and the same index, or one id names the other's index. */
  lemma SameCallIff(a: StreamEvent, b: StreamEvent)
    requires MinInt64 <= a.index <= MaxInt64 && MinInt64 <= b.index <= MaxInt64
    ensures Key(a) == Key(b) <==>
      if a.callId != "" && b.callId != "" then a.callId == b.callId
      else if a.callId != "" then a.callId == "index:" + Itoa(b.index)
      else if b.callId != "" then b.callId == "index:" + Itoa(a.index)
      else a.index == b.index
  {
    AtoiItoa(a.index);
    AtoiItoa(b.index);
    hide Itoa, Atoi;
    assert ("index:" + Itoa(a.index))[6..] == Itoa(a.index) && ("index:" + Itoa(b.index))[6..] == Itoa(b.index);
  }
}
