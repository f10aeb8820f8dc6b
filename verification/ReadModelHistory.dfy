/** The surface in terms of the events alone: what is active, and which reference each key holds. */
module ReadModelHistory {
  import opened GoStrings
  import opened Sorting
  import opened Wrappers

  import opened KeyedLists
  import opened ReadModel

  datatype NameList = ActivationSets | OperationSets | InlineContexts
  datatype RefList = Operations | Providers | Datasources | Skills | References

  function Names(s: Spec, w: NameList): set<string> {
    match w
    case ActivationSets => s.activationSets
    case OperationSets => s.operationSets
    case InlineContexts => s.inlineContexts
  }

  function GivenNames(l: Lists, w: NameList): seq<string> {
    match w
    case ActivationSets => l.activationSets
    case OperationSets => l.operationSets
    case InlineContexts => l.inlineContexts
  }

  function Refs(s: Spec, w: RefList): map<string, Ref> {
    match w
    case Operations => s.operations
    case Providers => s.providers
    case Datasources => s.datasources
    case Skills => s.skills
    case References => s.references
  }

  function GivenRefs(l: Lists, w: RefList): seq<Ref> {
    match w
    case Operations => l.operations
    case Providers => l.providers
    case Datasources => l.datasources
    case Skills => l.skills
    case References => l.references
  }

  function KeyingOf(w: RefList): Keying {
    if w.Operations? then ByName else if w.References? then ByPair else ByTrimmedName
  }

  lemma NextNames(s: Spec, e: Event, w: NameList)
    ensures Names(Next(s, e), w) ==
      if e.Prepared? then Names(s, w) + Trims(GivenNames(e.lists, w))
      else if e.Expired? then Names(s, w) - Trims(GivenNames(e.lists, w))
      else Names(s, w)
  {
    hide Trims, Put, Keys;
  }

  lemma NextRefs(s: Spec, e: Event, w: RefList)
    ensures Refs(Next(s, e), w) ==
      if e.Prepared? then Put(KeyingOf(w), Refs(s, w), GivenRefs(e.lists, w))
      else if e.Expired? then Refs(s, w) - Keys(KeyingOf(w), GivenRefs(e.lists, w))
      else Refs(s, w)
  {
    hide Trims, Put, Keys;
  }

  predicate Adds(e: Event, w: NameList, x: string) {
    e.Prepared? && x in Trims(GivenNames(e.lists, w))
  }

  predicate Drops(e: Event, w: NameList, x: string) {
    e.Expired? && x in Trims(GivenNames(e.lists, w))
  }

  predicate AddedAndKept(events: seq<Event>, w: NameList, x: string, i: int) {
    0 <= i < |events| && Adds(events[i], w, x) && forall j :: i < j < |events| ==> !Drops(events[j], w, x)
  }

  /** Some event prepared the name and no later event expired it. */
  ghost predicate Active(events: seq<Event>, w: NameList, x: string) {
    exists i :: AddedAndKept(events, w, x, i)
  }

  lemma KeptSnoc(init: seq<Event>, e: Event, w: NameList, x: string)
    ensures Active(init + [e], w, x) <==> Adds(e, w, x) || (!Drops(e, w, x) && Active(init, w, x))
  {
    hide Adds, Drops;
    var events, n := init + [e], |init|;
    assert events[n] == e && forall j :: 0 <= j < n ==> events[j] == init[j];
    if Adds(e, w, x) {
      assert AddedAndKept(events, w, x, n);
    }
    if i :| AddedAndKept(init, w, x, i) && !Drops(e, w, x) {
      assert AddedAndKept(events, w, x, i);
    }
    if i :| AddedAndKept(events, w, x, i) && !Adds(e, w, x) {
      assert i < n && AddedAndKept(init, w, x, i);
      assert !Drops(events[n], w, x);
    }
  }

  /** A name is on its list exactly when some event prepared it and no later event expired it. */
  lemma {:induction false} ActiveIff(events: seq<Event>, w: NameList, x: string)
    ensures x in Names(Run(events), w) <==> Active(events, w, x)
  {
    hide Trims, Names, GivenNames, Next, Active;
    if events == [] {
      NothingActive(w, x);
    } else {
      var n := |events| - 1;
      ActiveIff(events[..n], w, x);
      NextNames(Run(events[..n]), events[n], w);
      KeptSnoc(events[..n], events[n], w, x);
      assert events == events[..n] + [events[n]];
    }
  }

  lemma NothingActive(w: NameList, x: string)
    ensures x !in Names(Run([]), w) && !Active([], w, x)
  {
  }

  ghost predicate Writes(e: Event, w: RefList, key: string, r: Ref) {
    e.Prepared? && WritesLast(KeyingOf(w), GivenRefs(e.lists, w), key, r)
  }

  ghost predicate WritesLast(k: Keying, refs: seq<Ref>, key: string, r: Ref) {
    exists i :: LastWith(k, refs, key, i) && refs[i] == r
  }

  predicate Touches(e: Event, w: RefList, key: string) {
    (e.Prepared? || e.Expired?) && key in Keys(KeyingOf(w), GivenRefs(e.lists, w))
  }

  ghost predicate HeldFrom(events: seq<Event>, w: RefList, key: string, r: Ref, i: int) {
    0 <= i < |events| && Writes(events[i], w, key, r) && forall j :: i < j < |events| ==> !Touches(events[j], w, key)
  }

  /** Some event prepared the reference last under the key, and no later event names the key. */
  ghost predicate Held(events: seq<Event>, w: RefList, key: string, r: Ref) {
    exists i :: HeldFrom(events, w, key, r, i)
  }

  lemma {:induction false} LastExists(k: Keying, refs: seq<Ref>, key: string) returns (i: int)
    requires key in Keys(k, refs)
    ensures LastWith(k, refs, key, i)
  {
    hide Key;
    var n := |refs| - 1;
    if Key(k, refs[n]) == key {
      i := n;
    } else {
      assert exists j :: 0 <= j < n && Key(k, refs[..n][j]) == key by {
        var j :| 0 <= j < |refs| && Key(k, refs[j]) == key;
        assert refs[..n][j] == refs[j];
      }
      i := LastExists(k, refs[..n], key);
      assert forall j :: 0 <= j < n ==> refs[..n][j] == refs[j];
    }
  }

  /** What writing a list leaves under a key. */
  lemma PutHolds(k: Keying, m: map<string, Ref>, refs: seq<Ref>, key: string, r: Ref)
    requires !BlankKey(k, key)
    ensures key in Keys(k, refs) ==>
      (key in Put(k, m, refs) && Put(k, m, refs)[key] == r <==> WritesLast(k, refs, key, r))
    ensures key !in Keys(k, refs) ==>
      !WritesLast(k, refs, key, r)
      && (key in Put(k, m, refs) && Put(k, m, refs)[key] == r <==> key in m && m[key] == r)
  {
    hide Key, BlankKey, Put;
    if key in Keys(k, refs) {
      var i := LastExists(k, refs, key);
      PutLast(k, m, refs, key, i);
    } else {
      PutOthers(k, m, refs, key);
    }
  }

  lemma HeldSnoc(init: seq<Event>, e: Event, w: RefList, key: string, r: Ref)
    ensures Held(init + [e], w, key, r) <==>
            Writes(e, w, key, r) || (!Touches(e, w, key) && Held(init, w, key, r))
  {
    hide Writes, Touches;
    var events, n := init + [e], |init|;
    assert events[n] == e && forall j :: 0 <= j < n ==> events[j] == init[j];
    if Writes(e, w, key, r) {
      assert HeldFrom(events, w, key, r, n);
    }
    if i :| HeldFrom(init, w, key, r, i) && !Touches(e, w, key) {
      assert HeldFrom(events, w, key, r, i);
    }
    if i :| HeldFrom(events, w, key, r, i) && !Writes(e, w, key, r) {
      assert i < n && HeldFrom(init, w, key, r, i);
      assert !Touches(events[n], w, key);
    }
  }

  predicate Holds(m: map<string, Ref>, key: string, r: Ref) {
    key in m && m[key] == r
  }

  /** One event, on one key: written, dropped, or left alone. */
  lemma NextHolds(s: Spec, e: Event, w: RefList, key: string, r: Ref)
    requires !BlankKey(KeyingOf(w), key)
    ensures Holds(Refs(Next(s, e), w), key, r) <==>
            Writes(e, w, key, r) || (!Touches(e, w, key) && Holds(Refs(s, w), key, r))
  {
    NextRefs(s, e, w);
    if e.Prepared? {
      PutHolds(KeyingOf(w), Refs(s, w), GivenRefs(e.lists, w), key, r);
    }
    hide Put, Keys, Refs, GivenRefs, Next, BlankKey, KeyingOf, WritesLast;
  }

  lemma NothingHeld(w: RefList, key: string, r: Ref)
    ensures !Holds(Refs(Run([]), w), key, r) && !Held([], w, key, r)
  {
  }

  /** A key holds exactly the reference that an event prepared last under it, if no later event names the key. */
  lemma {:induction false} HeldIff(events: seq<Event>, w: RefList, key: string, r: Ref)
    requires !BlankKey(KeyingOf(w), key)
    ensures Holds(Refs(Run(events), w), key, r) <==> Held(events, w, key, r)
  {
    hide Next, Refs, Writes, Touches, Held, Holds, BlankKey, KeyingOf;
    if events == [] {
      NothingHeld(w, key, r);
    } else {
      var n := |events| - 1;
      HeldIff(events[..n], w, key, r);
      NextHolds(Run(events[..n]), events[n], w, key, r);
      HeldSnoc(events[..n], events[n], w, key, r);
      assert events == events[..n] + [events[n]];
    }
  }

  /** A list of names on the surface of a model is sorted and shows what the history of the model says. */
  lemma ShownNames(events: seq<Event>, m: Model, w: NameList)
    requires m.Valid() && m.spec == Run(events)
    ensures Ascending(GivenNames(m.active.lists, w), StrLess)
    ensures forall x :: x in GivenNames(m.active.lists, w) <==> Active(events, w, x)
  {
    assert GivenNames(m.active.lists, w) == SortedKeys(Names(Run(events), w));
    hide Names, GivenNames, Run, Active;
    forall x ensures x in SortedKeys(Names(Run(events), w)) <==> Active(events, w, x) {
      ActiveIff(events, w, x);
    }
  }

  /** Models with histories that prepare and expire a list alike show the same list. */
  lemma SameNamesShown(a: seq<Event>, b: seq<Event>, m: Model, n: Model, w: NameList)
    requires m.Valid() && m.spec == Run(a) && n.Valid() && n.spec == Run(b)
    requires forall x :: Active(a, w, x) <==> Active(b, w, x)
    ensures GivenNames(m.active.lists, w) == GivenNames(n.active.lists, w)
  {
    ShownNames(a, m, w);
    ShownNames(b, n, w);
    StringOrder();
    hide Active, GivenNames, Run;
    AscendingUnique(GivenNames(m.active.lists, w), GivenNames(n.active.lists, w), StrLess);
  }

  lemma HoldsKeyed(k: Keying, m: map<string, Ref>, r: Ref)
    requires Keyed(k, m)
    ensures r in Canon(m) <==> !BlankKey(k, Key(k, r)) && Holds(m, Key(k, r), r)
  {
    CanonShape(k, m);
    hide Key, BlankKey, Canon;
    if key :| key in m && m[key] == r {
      assert key == Key(k, r);
    }
  }

  lemma RefsRendered(s: Spec, w: RefList)
    requires WellKeyed(s)
    ensures GivenRefs(Rendered(s).lists, w) == Canon(Refs(s, w)) && Keyed(KeyingOf(w), Refs(s, w))
  {
    hide Canon, Keyed, Clean;
  }

  /** The reference has a key that is not blank, and the history says the key holds it. */
  ghost predicate Current(events: seq<Event>, w: RefList, r: Ref) {
    var key := Key(KeyingOf(w), r);
    !BlankKey(KeyingOf(w), key) && Held(events, w, key, r)
  }

  lemma CurrentIff(events: seq<Event>, w: RefList, r: Ref)
    requires Keyed(KeyingOf(w), Refs(Run(events), w))
    ensures r in Canon(Refs(Run(events), w)) <==> Current(events, w, r)
  {
    hide Run, Refs, KeyingOf, Canon, Held, Key, BlankKey, Holds, Keyed;
    HoldsKeyed(KeyingOf(w), Refs(Run(events), w), r);
    if !BlankKey(KeyingOf(w), Key(KeyingOf(w), r)) {
      HeldIff(events, w, Key(KeyingOf(w), r), r);
    }
  }

  predicate ByNames(refs: seq<Ref>) {
    forall i, j :: 0 <= i < j < |refs| ==> StrLess(refs[i].name, refs[j].name)
  }

  lemma ByNamesIff(refs: seq<Ref>)
    ensures ByNames(refs) <==> Ascending(refs, Before)
  {
    assert forall i, j :: 0 <= i < |refs| && 0 <= j < |refs| ==>
      (StrLess(refs[i].name, refs[j].name) <==> Before(refs[i], refs[j]));
    hide StrLess;
  }

  /** A list of references on the surface is sorted by name and shows what the history of the model says. */
  lemma ShownRefs(events: seq<Event>, m: Model, w: RefList)
    requires m.Valid() && m.spec == Run(events)
    ensures Ascending(GivenRefs(m.active.lists, w), Before)
    ensures ByNames(GivenRefs(m.active.lists, w))
    ensures forall r :: r in GivenRefs(m.active.lists, w) <==> Current(events, w, r)
  {
    RefsRendered(m.spec, w);
    ByNamesIff(GivenRefs(m.active.lists, w));
    hide ByNames, Run, Refs, GivenRefs, KeyingOf, Canon, Current, Keyed, Rendered, WellKeyed;
    CanonShape(KeyingOf(w), Refs(m.spec, w));
    forall r ensures r in Canon(Refs(m.spec, w)) <==> Current(events, w, r) {
      CurrentIff(events, w, r);
    }
  }

  /** Models with histories that write and drop a reference list alike show the same list. */
  lemma SameRefsShown(a: seq<Event>, b: seq<Event>, m: Model, n: Model, w: RefList)
    requires m.Valid() && m.spec == Run(a) && n.Valid() && n.spec == Run(b)
    requires forall r :: Current(a, w, r) <==> Current(b, w, r)
    ensures GivenRefs(m.active.lists, w) == GivenRefs(n.active.lists, w)
  {
    ShownRefs(a, m, w);
    ShownRefs(b, n, w);
    BeforeOrder();
    hide Current, GivenRefs, Run, Before;
    AscendingUnique(GivenRefs(m.active.lists, w), GivenRefs(n.active.lists, w), Before);
  }

  predicate Trimming(w: RefList) {
    w.Providers? || w.Datasources? || w.Skills?
  }

  /** Which references of a list are one and the same, and which count as none. */
  lemma SameKeyIff(w: RefList, a: Ref, b: Ref)
    ensures Key(KeyingOf(w), a) == Key(KeyingOf(w), b) <==>
            a.name == b.name || (Trimming(w) && TrimSpace(a.name) == TrimSpace(b.name))
    ensures BlankKey(KeyingOf(w), Key(KeyingOf(w), a)) <==>
            match w
            case Operations => a.name == ""
            case References => TrimSpace(a.name) == "\0"
            case _ => Blank(a.name)
  {
    hide TrimSpace;
  }

  predicate FocusedFrom(events: seq<Event>, focus: Focus, i: int) {
    && 0 <= i < |events| && events[i].FocusDetected? && events[i].focus == focus
    && forall j :: i < j < |events| ==> !events[j].FocusDetected?
  }

  lemma NextFocus(s: Spec, e: Event)
    ensures Next(s, e).focus == if e.FocusDetected? then Some(e.focus) else s.focus
  {
    hide Added, Dropped;
    AddedKeeps(s, if e.Prepared? || e.Expired? then e.lists else Lists([], [], [], [], [], [], [], []));
  }

  ghost predicate Focused(events: seq<Event>, focus: Focus) {
    exists i :: FocusedFrom(events, focus, i)
  }

  lemma FocusedSnoc(init: seq<Event>, e: Event, focus: Focus)
    ensures Focused(init + [e], focus) <==> if e.FocusDetected? then e.focus == focus else Focused(init, focus)
  {
    var events, n := init + [e], |init|;
    assert events[n] == e && forall j :: 0 <= j < n ==> events[j] == init[j];
    if e.FocusDetected? && e.focus == focus {
      assert FocusedFrom(events, focus, n);
    }
    if i :| FocusedFrom(init, focus, i) && !e.FocusDetected? {
      assert FocusedFrom(events, focus, i);
    }
    if i :| FocusedFrom(events, focus, i) && i < n {
      assert FocusedFrom(init, focus, i);
    }
  }

  /** The focus is the one detected last. */
  lemma {:induction false} FocusIff(events: seq<Event>, focus: Focus)
    ensures Run(events).focus == Some(focus) <==> Focused(events, focus)
  {
    hide Next;
    if events != [] {
      var n := |events| - 1;
      FocusIff(events[..n], focus);
      NextFocus(Run(events[..n]), events[n]);
      FocusedSnoc(events[..n], events[n], focus);
      assert events == events[..n] + [events[n]];
      hide Focused;
    }
  }

  predicate GivesLifetime(e: Event) {
    e.Prepared? && e.lifetime != ""
  }

  predicate LastsFrom(events: seq<Event>, lifetime: string, i: int) {
    && 0 <= i < |events| && GivesLifetime(events[i]) && events[i].lifetime == lifetime
    && forall j :: i < j < |events| ==>
         !GivesLifetime(events[j]) && !(events[j].Expired? && events[j].lifetime == lifetime)
  }

  ghost predicate Lasts(events: seq<Event>, lifetime: string) {
    exists i :: LastsFrom(events, lifetime, i)
  }

  lemma LastsSnoc(init: seq<Event>, e: Event, lifetime: string)
    ensures Lasts(init + [e], lifetime) <==>
      if GivesLifetime(e) then e.lifetime == lifetime
      else !(e.Expired? && e.lifetime == lifetime) && Lasts(init, lifetime)
  {
    var events, n := init + [e], |init|;
    assert events[n] == e && forall j :: 0 <= j < n ==> events[j] == init[j];
    hide GivesLifetime;
    if GivesLifetime(e) && e.lifetime == lifetime {
      assert LastsFrom(events, lifetime, n);
    }
    if i :| LastsFrom(init, lifetime, i) && !GivesLifetime(e) && !(e.Expired? && e.lifetime == lifetime) {
      assert LastsFrom(events, lifetime, i);
    }
    if i :| LastsFrom(events, lifetime, i) && i < n {
      assert LastsFrom(init, lifetime, i);
      assert !GivesLifetime(events[n]);
    }
  }

  /** The lifetime is the last one that an event prepared, unless a later event expired just that one. */
  lemma {:induction false} LifetimeIff(events: seq<Event>, lifetime: string)
    requires lifetime != ""
    ensures Run(events).lifetime == lifetime <==> Lasts(events, lifetime)
  {
    hide Added, Dropped, Lasts;
    if events == [] {
      NothingLasts(lifetime);
    } else {
      var n := |events| - 1;
      LifetimeIff(events[..n], lifetime);
      LastsSnoc(events[..n], events[n], lifetime);
      assert events == events[..n] + [events[n]];
    }
  }

  lemma NothingLasts(lifetime: string)
    ensures !Lasts([], lifetime)
  {
  }

  /** Traces and diagnostics of two streams one after the other are those of each. */
  lemma {:induction false} ReportsConcat(a: seq<Event>, b: seq<Event>)
    ensures Run(a + b).log == Run(a).log + Run(b).log
    ensures Run(a + b).diagnostics == Run(a).diagnostics + Run(b).diagnostics
  {
    hide Next;
    if b == [] {
      assert a + b == a;
      NothingReported();
    } else {
      var n := |b| - 1;
      ReportsConcat(a, b[..n]);
      assert (a + b)[..|a + b| - 1] == a + b[..n];
      ReportsSnoc(Run(a + b[..n]), b[n]);
      ReportsSnoc(Run(b[..n]), b[n]);
      var before, init := Run(a), Run(b[..n]);
      assert Run(a + b) == Next(Run(a + b[..n]), b[n]) && Run(b) == Next(init, b[n]);
      hide Run;
      Assoc(before.log, init.log, if b[n].Unrecognised? then [] else [b[n].entry]);
      Assoc(before.diagnostics, init.diagnostics, Told(b[n]));
    }
  }

  lemma NothingReported()
    ensures Run([]).log == [] && Run([]).diagnostics == []
  {
  }

  lemma Assoc<T>(a: seq<T>, b: seq<T>, c: seq<T>)
    ensures a + b + c == a + (b + c)
  {
  }

  /** The diagnostics that an event carries. */
  function Told(e: Event): seq<string> {
    match e
    case Resolved(found, skipped, _) => found + skipped
    case Prepared(_, _, diagnostics, _) => diagnostics
    case PrepareSkipped(diagnostic, _) => if diagnostic.Some? then [diagnostic.value] else []
    case _ => []
  }

  /** What one event adds to the traces and to the diagnostics. */
  lemma ReportsSnoc(s: Spec, e: Event)
    ensures Next(s, e).log == s.log + (if e.Unrecognised? then [] else [e.entry])
    ensures Next(s, e).diagnostics == s.diagnostics + Told(e)
  {
    hide Added, Dropped;
    assert s.diagnostics + [] == s.diagnostics && s.log + [] == s.log;
    AddedKeeps(s, if e.Prepared? || e.Expired? then e.lists else Lists([], [], [], [], [], [], [], []));
  }

  lemma AddedKeeps(s: Spec, l: Lists)
    ensures Added(s, l).log == s.log == Dropped(s, l).log
    ensures Added(s, l).diagnostics == s.diagnostics == Dropped(s, l).diagnostics
    ensures Added(s, l).focus == s.focus == Dropped(s, l).focus
  {
    hide Put, Keys, Trims;
  }

  /** The model shows the end of the trace: all of it, or the last 32 entries. */
  lemma ShownTrace(events: seq<Event>, m: Model)
    requires m.Valid() && m.spec == Run(events)
    ensures var n := |Entries(events)|;
      && |m.recent| == (if n > 32 then 32 else n)
      && m.recent == Entries(events)[n - |m.recent|..]
  {
    LogIsEntries(events);
    hide Entries, Run, WellKeyed, Rendered;
  }
}
