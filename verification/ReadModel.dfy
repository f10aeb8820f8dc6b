/** Lists of references: deduplicated by key, sorted by name, the last reference with a key winning. */
module KeyedLists {
  import opened GoStrings
  import opened Sorting

  /** `name` is the raw name (for reference targets: skill, a zero character, path). */
  datatype Ref = Ref(name: string, payload: string)

  /** How a list forms its keys: trimmed names, the name itself, or a pair of skill and path. */
  datatype Keying = ByTrimmedName | ByName | ByPair

  function Key(k: Keying, r: Ref): string {
    if k.ByTrimmedName? then TrimSpace(r.name) else r.name
  }

  predicate BlankKey(k: Keying, key: string) {
    if k.ByPair? then TrimSpace(key) == "\0" else key == ""
  }

  predicate Before(a: Ref, b: Ref) {
    StrLess(a.name, b.name)
  }

  lemma BeforeOrder()
    ensures StrictOrder(Before)
  {
    StringOrder();
  }

  /** The references as a map: each one overrides what its key held. */
  function Put(k: Keying, m: map<string, Ref>, refs: seq<Ref>): map<string, Ref> {
    if refs == [] then m
    else
      var r := refs[|refs| - 1];
      var m' := Put(k, m, refs[..|refs| - 1]);
      if BlankKey(k, Key(k, r)) then m' else m'[Key(k, r) := r]
  }

  predicate Keyed(k: Keying, m: map<string, Ref>) {
    forall key <- m :: Key(k, m[key]) == key && !BlankKey(k, key)
  }

  lemma {:induction false} PutKeyed(k: Keying, m: map<string, Ref>, refs: seq<Ref>)
    requires Keyed(k, m)
    ensures Keyed(k, Put(k, m, refs))
  {
    if refs != [] {
      PutKeyed(k, m, refs[..|refs| - 1]);
    }
  }

  predicate LastWith(k: Keying, refs: seq<Ref>, key: string, i: int) {
    0 <= i < |refs| && Key(k, refs[i]) == key && forall j :: i < j < |refs| ==> Key(k, refs[j]) != key
  }

  /** A key holds the last reference written to it. */
  lemma {:induction false} PutLast(k: Keying, m: map<string, Ref>, refs: seq<Ref>, key: string, i: nat)
    requires LastWith(k, refs, key, i) && !BlankKey(k, key)
    ensures key in Put(k, m, refs) && Put(k, m, refs)[key] == refs[i]
  {
    hide Key, BlankKey;
    var n := |refs| - 1;
    if i < n {
      assert Key(k, refs[n]) != key;
      PutLast(k, m, refs[..n], key, i);
    }
  }

  /** A key that is not written keeps what it held. */
  lemma {:induction false} PutOthers(k: Keying, m: map<string, Ref>, refs: seq<Ref>, key: string)
    requires forall i :: 0 <= i < |refs| ==> Key(k, refs[i]) != key
    ensures key in Put(k, m, refs) <==> key in m
    ensures key in m ==> Put(k, m, refs)[key] == m[key]
  {
    hide Key, BlankKey;
    if refs != [] {
      PutOthers(k, m, refs[..|refs| - 1], key);
    }
  }

  function Values(m: map<string, Ref>, ids: seq<string>): seq<Ref>
    requires forall x :: x in ids ==> x in m
  {
    seq(|ids|, i requires 0 <= i < |ids| => m[ids[i]])
  }

  /** The list that represents a map: its values, sorted by name. */
  ghost function Canon(m: map<string, Ref>): seq<Ref> {
    Sort(Values(m, SortedKeys(m.Keys)), Before)
  }

  lemma ValuesComparable(k: Keying, m: map<string, Ref>, ids: seq<string>)
    requires Keyed(k, m) && (forall x :: x in ids ==> x in m)
    requires NoDuplicates(ids)
    ensures Comparable(Values(m, ids), Before)
  {
    hide TrimSpace, BlankKey;
    var vs := Values(m, ids);
    forall i, j | 0 <= i < j < |vs| ensures Before(vs[i], vs[j]) || Before(vs[j], vs[i]) {
      assert Key(k, vs[i]) == ids[i] && Key(k, vs[j]) == ids[j];
      StrLessTotal(vs[i].name, vs[j].name);
    }
  }

  lemma ValuesMembers(m: map<string, Ref>, ids: seq<string>)
    requires forall x :: x in ids <==> x in m
    ensures forall r :: r in Values(m, ids) <==> exists key :: key in m && m[key] == r
  {
    forall r | exists key :: key in m && m[key] == r ensures r in Values(m, ids) {
      var key :| key in m && m[key] == r;
      var i :| 0 <= i < |ids| && ids[i] == key;
      assert Values(m, ids)[i] == r;
    }
  }

  lemma SortedKeysDistinct(keys: set<string>)
    ensures var ids := SortedKeys(keys);
      (forall x :: x in ids <==> x in keys) && NoDuplicates(ids)
  {
    var ids := SortedKeys(keys);
    forall i, j | 0 <= i < j < |ids| ensures ids[i] != ids[j] {
      StrLessIrreflexive(ids[i]);
    }
  }

  /** The list is strictly sorted and holds exactly the values of the map. */
  lemma CanonShape(k: Keying, m: map<string, Ref>)
    requires Keyed(k, m)
    ensures Ascending(Canon(m), Before)
    ensures forall r :: r in Canon(m) <==> exists key :: key in m && m[key] == r
  {
    hide SortedKeys, Key, Keyed;
    var ids := SortedKeys(m.Keys);
    SortedKeysDistinct(m.Keys);
    ValuesComparable(k, m, ids);
    ValuesMembers(m, ids);
    BeforeOrder();
    SortAscending(Values(m, ids), Before);
    SameElements(Canon(m), Values(m, ids));
  }

  /** Any other enumeration of the map sorts to the same list. */
  lemma CanonUnique(k: Keying, m: map<string, Ref>, ids: seq<string>)
    requires Keyed(k, m) && (forall x :: x in ids <==> x in m)
    requires NoDuplicates(ids)
    ensures Sort(Values(m, ids), Before) == Canon(m)
  {
    hide Key, Keyed, Canon;
    CanonShape(k, m);
    ValuesComparable(k, m, ids);
    ValuesMembers(m, ids);
    BeforeOrder();
    SortAscending(Values(m, ids), Before);
    SameElements(Sort(Values(m, ids), Before), Values(m, ids));
    AscendingUnique(Sort(Values(m, ids), Before), Canon(m), Before);
  }

  lemma {:induction false} PutDistinct(k: Keying, m: map<string, Ref>, refs: seq<Ref>)
    requires Keyed(k, m)
    requires forall r :: r in refs ==> Key(k, r) in m && m[Key(k, r)] == r
    ensures forall key :: key in Put(k, map[], refs) <==> key in Keys(k, refs)
    ensures forall key :: key in Put(k, map[], refs) ==> key in m && Put(k, map[], refs)[key] == m[key]
  {
    if refs != [] {
      var init, last := refs[..|refs| - 1], refs[|refs| - 1];
      assert refs == init + [last];
      assert last in refs && !BlankKey(k, Key(k, last));
      hide Key, BlankKey, Keys, Put;
      PutDistinct(k, m, init);
      PutSnoc(k, map[], init, last);
      KeysSnoc(k, init, last);
    } else {
      PutNothing(k);
    }
  }

  lemma PutNothing(k: Keying)
    ensures Put(k, map[], []) == map[] && Keys(k, []) == {}
  {
  }

  /** Reading a canonical list back gives its map. */
  lemma PutCanon(k: Keying, m: map<string, Ref>)
    requires Keyed(k, m)
    ensures Put(k, map[], Canon(m)) == m
  {
    hide Canon, Key, BlankKey, Put;
    CanonShape(k, m);
    var c := Canon(m);
    forall r | r in c ensures Key(k, r) in m && m[Key(k, r)] == r {
      var key :| key in m && m[key] == r;
    }
    PutDistinct(k, m, c);
    forall key | key in m ensures key in Put(k, map[], c) {
      assert m[key] in c;
      var i :| 0 <= i < |c| && c[i] == m[key];
      assert Key(k, c[i]) == key && key in Keys(k, c);
    }
  }

  /** The values of a map in whatever order its keys come, then sorted. */
  method SortedValues(k: Keying, m: map<string, Ref>) returns (out: seq<Ref>)
    requires Keyed(k, m)
    ensures out == Canon(m)
  {
    hide Key, Keyed, Canon;
    out := [];
    var todo := m.Keys;
    ghost var ids: seq<string> := [];
    while todo != {}
      invariant todo <= m.Keys
      invariant forall x :: x in ids <==> x in m.Keys - todo
      invariant NoDuplicates(ids)
      invariant out == Values(m, ids)
      decreases todo
    {
      var key :| key in todo;
      assert key !in ids;
      out := out + [m[key]];
      ids := ids + [key];
      todo := todo - {key};
    }
    CanonUnique(k, m, ids);
    out := Sort(out, Before);
  }

  /** The `merge…Refs` functions. */
  method Merge(k: Keying, base: seq<Ref>, add: seq<Ref>) returns (out: seq<Ref>)
    ensures out == Canon(Put(k, Put(k, map[], base), add))
  {
    hide Key, BlankKey, Canon;
    var seen: map<string, Ref> := map[];
    for i := 0 to |base|
      invariant seen == Put(k, map[], base[..i])
    {
      assert base[..i + 1][..i] == base[..i];
      var key := Key(k, base[i]);
      if !BlankKey(k, key) {
        seen := seen[key := base[i]];
      }
    }
    assert base[..|base|] == base;
    for i := 0 to |add|
      invariant seen == Put(k, Put(k, map[], base), add[..i])
    {
      assert add[..i + 1][..i] == add[..i];
      var key := Key(k, add[i]);
      if !BlankKey(k, key) {
        seen := seen[key := add[i]];
      }
    }
    assert add[..|add|] == add;
    PutKeyed(k, map[], base);
    PutKeyed(k, Put(k, map[], base), add);
    out := SortedValues(k, seen);
  }

  function Kept(k: Keying, refs: seq<Ref>, removed: set<string>): seq<Ref> {
    if refs == [] then []
    else
      var r := refs[|refs| - 1];
      Kept(k, refs[..|refs| - 1], removed)
      + if !BlankKey(k, Key(k, r)) && Key(k, r) !in removed then [r] else []
  }

  function Keys(k: Keying, refs: seq<Ref>): set<string> {
    set i | 0 <= i < |refs| :: Key(k, refs[i])
  }

  lemma PutSnoc(k: Keying, m: map<string, Ref>, refs: seq<Ref>, r: Ref)
    ensures Put(k, m, refs + [r]) ==
      if BlankKey(k, Key(k, r)) then Put(k, m, refs) else Put(k, m, refs)[Key(k, r) := r]
  {
    hide Key, BlankKey;
    assert (refs + [r])[..|refs|] == refs;
  }

  lemma PutRemoved(m: map<string, Ref>, key: string, r: Ref, removed: set<string>)
    ensures m[key := r] - removed == if key in removed then m - removed else (m - removed)[key := r]
  {
  }

  lemma {:induction false} PutKept(k: Keying, refs: seq<Ref>, removed: set<string>)
    ensures Put(k, map[], Kept(k, refs, removed)) == Put(k, map[], refs) - removed
  {
    if refs == [] {
      assert Put(k, map[], []) == map[];
    } else {
      var init, last := refs[..|refs| - 1], refs[|refs| - 1];
      PutKept(k, init, removed);
      assert refs == init + [last];
      PutSnoc(k, map[], init, last);
      PutSnoc(k, map[], Kept(k, init, removed), last);
      PutRemoved(Put(k, map[], init), Key(k, last), last, removed);
      assert Kept(k, init, removed) + [] == Kept(k, init, removed);
      hide Key, BlankKey, Put;
    }
  }

  /** The `remove…Refs` functions: filter, then merge into nothing. */
  method Remove(k: Keying, base: seq<Ref>, remove: seq<Ref>) returns (out: seq<Ref>)
    ensures out == Canon(Put(k, map[], base) - Keys(k, remove))
  {
    hide Key, BlankKey, Canon;
    var removed := {};
    for i := 0 to |remove|
      invariant removed == Keys(k, remove[..i])
    {
      assert remove[..i + 1] == remove[..i] + [remove[i]];
      KeysSnoc(k, remove[..i], remove[i]);
      removed := removed + {Key(k, remove[i])};
    }
    assert remove[..|remove|] == remove;
    var kept := [];
    for i := 0 to |base|
      invariant kept == Kept(k, base[..i], removed)
    {
      assert base[..i + 1][..i] == base[..i];
      if !BlankKey(k, Key(k, base[i])) && Key(k, base[i]) !in removed {
        kept := kept + [base[i]];
      }
    }
    assert base[..|base|] == base;
    PutKept(k, base, removed);
    out := Merge(k, [], kept);
  }

  lemma KeysSnoc(k: Keying, refs: seq<Ref>, r: Ref)
    ensures Keys(k, refs + [r]) == Keys(k, refs) + {Key(k, r)}
  {
    hide Key;
    var all := refs + [r];
    assert all[|refs|] == r;
    assert forall i :: 0 <= i < |refs| ==> all[i] == refs[i];
  }

  /** The non-blank trimmed strings of a list. */
  function Trims(values: seq<string>): set<string> {
    (set i | 0 <= i < |values| :: TrimSpace(values[i])) - {""}
  }

  lemma TrimsSnoc(values: seq<string>, v: string)
    ensures Trims(values + [v]) == if TrimSpace(v) == "" then Trims(values) else Trims(values) + {TrimSpace(v)}
  {
    hide TrimSpace;
    var all := values + [v];
    assert all[|values|] == v;
    assert forall i :: 0 <= i < |values| ==> all[i] == values[i];
  }

  /** `mergeStrings` followed by `sortedStrings`. */
  method MergeStrings(base: seq<string>, add: seq<string>) returns (out: seq<string>)
    ensures out == SortedKeys(Trims(base) + Trims(add))
  {
    hide TrimSpace, SortedKeys;
    var seen := {};
    for i := 0 to |base|
      invariant seen == Trims(base[..i])
    {
      assert base[..i + 1] == base[..i] + [base[i]];
      TrimsSnoc(base[..i], base[i]);
      if TrimSpace(base[i]) != "" {
        seen := seen + {TrimSpace(base[i])};
      }
    }
    assert base[..|base|] == base;
    for i := 0 to |add|
      invariant seen == Trims(base) + Trims(add[..i])
    {
      assert add[..i + 1] == add[..i] + [add[i]];
      TrimsSnoc(add[..i], add[i]);
      if TrimSpace(add[i]) != "" {
        seen := seen + {TrimSpace(add[i])};
      }
    }
    assert add[..|add|] == add;
    out := SortKeys(seen);
  }

  /** `removeStrings` on a list as `MergeStrings` leaves it. */
  method RemoveStrings(base: seq<string>, remove: seq<string>, ghost keys: set<string>) returns (out: seq<string>)
    requires base == SortedKeys(keys) && forall x <- keys :: x != "" && TrimSpace(x) == x
    ensures out == SortedKeys(keys - Trims(remove))
  {
    hide TrimSpace, SortedKeys;
    SortedKeysDistinct(keys);
    var removed := {};
    for i := 0 to |remove|
      invariant removed - {""} == Trims(remove[..i])
    {
      assert remove[..i + 1] == remove[..i] + [remove[i]];
      TrimsSnoc(remove[..i], remove[i]);
      removed := removed + {TrimSpace(remove[i])};
    }
    assert remove[..|remove|] == remove;
    out := [];
    for i := 0 to |base|
      invariant forall x :: x in out <==> x in base[..i] && x !in removed
      invariant NoDuplicates(out)
    {
      var value := TrimSpace(base[i]);
      assert base[i] in keys;
      if value != "" && value !in removed {
        assert forall j :: 0 <= j < i ==> base[j] != base[i];
        out := out + [value];
      }
    }
    assert base[..|base|] == base;
    SortDistinct(out, keys - Trims(remove));
    out := Sort(out, StrLess);
  }

  /** Sorting distinct strings gives the canonical list of their set. */
  lemma SortDistinct(values: seq<string>, keys: set<string>)
    requires NoDuplicates(values)
    requires forall x :: x in values <==> x in keys
    ensures Sort(values, StrLess) == SortedKeys(keys)
  {
    StringOrder();
    forall i, j | 0 <= i < j < |values| ensures StrLess(values[i], values[j]) || StrLess(values[j], values[i]) {
      StrLessTotal(values[i], values[j]);
    }
    SortAscending(values, StrLess);
    SameElements(Sort(values, StrLess), values);
    AscendingUnique(Sort(values, StrLess), SortedKeys(keys), StrLess);
  }
}

/** The prepared-surface read model: event by event it refines plain sets, maps and an unbounded log. */
module ReadModel {
  import opened Wrappers
  import opened GoStrings
  import opened Sorting
  import opened KeyedLists

  const TraceLimit := 32

  datatype Entry = Entry(event: string, summary: string, source: string)
  datatype Focus = Focus(objective: string, intents: seq<string>, subjects: seq<string>, source: string)

  /** The eight lists of a surface, or of an event about it. */
  datatype Lists = Lists(
    activationSets: seq<string>, operationSets: seq<string>, inlineContexts: seq<string>,
    operations: seq<Ref>, providers: seq<Ref>, datasources: seq<Ref>, skills: seq<Ref>, references: seq<Ref>)

  datatype ActiveSurface = ActiveSurface(lists: Lists, lifetime: string)

  /** Events carry the trace entry they leave; diagnostics are opaque texts. */
  datatype Event =
    | FocusDetected(focus: Focus, entry: Entry)
    | PrepareRequested(entry: Entry)
    | Resolved(found: seq<string>, skipped: seq<string>, entry: Entry)
    | Prepared(lists: Lists, lifetime: string, diagnostics: seq<string>, entry: Entry)
    | PrepareSkipped(diagnostic: Option<string>, entry: Entry)
    | Expired(lists: Lists, lifetime: string, entry: Entry)
    | Unrecognised

  /** The unbounded specification: key sets, last-written maps, and everything ever traced. */
  datatype Spec = Spec(
    activationSets: set<string>, operationSets: set<string>, inlineContexts: set<string>,
    operations: map<string, Ref>, providers: map<string, Ref>, datasources: map<string, Ref>,
    skills: map<string, Ref>, references: map<string, Ref>,
    lifetime: string, focus: Option<Focus>, log: seq<Entry>, diagnostics: seq<string>)

  const Nothing := Spec({}, {}, {}, map[], map[], map[], map[], map[], "", None, [], [])

  function Added(s: Spec, l: Lists): Spec {
    s.(activationSets := s.activationSets + Trims(l.activationSets),
       operationSets := s.operationSets + Trims(l.operationSets),
       inlineContexts := s.inlineContexts + Trims(l.inlineContexts),
       operations := Put(ByName, s.operations, l.operations),
       providers := Put(ByTrimmedName, s.providers, l.providers),
       datasources := Put(ByTrimmedName, s.datasources, l.datasources),
       skills := Put(ByTrimmedName, s.skills, l.skills),
       references := Put(ByPair, s.references, l.references))
  }

  function Dropped(s: Spec, l: Lists): Spec {
    s.(activationSets := s.activationSets - Trims(l.activationSets),
       operationSets := s.operationSets - Trims(l.operationSets),
       inlineContexts := s.inlineContexts - Trims(l.inlineContexts),
       operations := s.operations - Keys(ByName, l.operations),
       providers := s.providers - Keys(ByTrimmedName, l.providers),
       datasources := s.datasources - Keys(ByTrimmedName, l.datasources),
       skills := s.skills - Keys(ByTrimmedName, l.skills),
       references := s.references - Keys(ByPair, l.references))
  }

  function Traced(s: Spec, e: Event): Spec {
    if e.Unrecognised? then s else s.(log := s.log + [e.entry])
  }

  function Changed(s: Spec, e: Event): Spec {
    match e
    case FocusDetected(focus, _) => s.(focus := Some(focus))
    case PrepareRequested(_) => s
    case Resolved(found, skipped, _) => s.(diagnostics := s.diagnostics + found + skipped)
    case Prepared(lists, lifetime, diagnostics, _) =>
      Added(s, lists).(lifetime := if lifetime != "" then lifetime else s.lifetime,
                       diagnostics := s.diagnostics + diagnostics)
    case PrepareSkipped(diagnostic, _) =>
      if diagnostic.Some? then s.(diagnostics := s.diagnostics + [diagnostic.value]) else s
    case Expired(lists, lifetime, _) =>
      Dropped(s, lists).(lifetime := if lifetime != "" && lifetime == s.lifetime then "" else s.lifetime)
    case Unrecognised => s
  }

  function Next(s: Spec, e: Event): Spec {
    Traced(Changed(s, e), e)
  }

  function Run(events: seq<Event>): Spec {
    if events == [] then Nothing else Next(Run(events[..|events| - 1]), events[|events| - 1])
  }

  predicate Clean(names: set<string>) {
    forall x <- names :: x != "" && TrimSpace(x) == x
  }

  predicate WellKeyed(s: Spec) {
    && Clean(s.activationSets) && Clean(s.operationSets) && Clean(s.inlineContexts)
    && Keyed(ByName, s.operations) && Keyed(ByTrimmedName, s.providers)
    && Keyed(ByTrimmedName, s.datasources) && Keyed(ByTrimmedName, s.skills) && Keyed(ByPair, s.references)
  }

  /** The surface lists are a function of the sets and maps alone. */
  ghost function Rendered(s: Spec): ActiveSurface {
    ActiveSurface(
      Lists(SortedKeys(s.activationSets), SortedKeys(s.operationSets), SortedKeys(s.inlineContexts),
            Canon(s.operations), Canon(s.providers), Canon(s.datasources), Canon(s.skills), Canon(s.references)),
      s.lifetime)
  }

  function Last<T>(s: seq<T>, n: nat): seq<T> {
    if |s| > n then s[|s| - n..] else s
  }

  /** Trimming after every entry is as good as trimming once. */
  lemma LastSnoc<T>(s: seq<T>, x: T, n: nat)
    requires n > 0
    ensures Last(Last(s, n) + [x], n) == Last(s + [x], n)
  {
  }

  lemma TrimsClean(values: seq<string>)
    ensures Clean(Trims(values))
  {
    forall x | x in Trims(values) ensures TrimSpace(x) == x {
      var i :| 0 <= i < |values| && x == TrimSpace(values[i]);
      TrimSpaceFixed(values[i]);
      TrimSpaceFixed(x);
    }
  }

  lemma KeyedWithout(k: Keying, m: map<string, Ref>, keys: set<string>)
    requires Keyed(k, m)
    ensures Keyed(k, m - keys)
  {
  }

  lemma AddedWellKeyed(s: Spec, l: Lists)
    requires WellKeyed(s)
    ensures WellKeyed(Added(s, l))
  {
    hide TrimSpace, Keyed, Trims;
    TrimsClean(l.activationSets);
    TrimsClean(l.operationSets);
    TrimsClean(l.inlineContexts);
    PutKeyed(ByName, s.operations, l.operations);
    PutKeyed(ByTrimmedName, s.providers, l.providers);
    PutKeyed(ByTrimmedName, s.datasources, l.datasources);
    PutKeyed(ByTrimmedName, s.skills, l.skills);
    PutKeyed(ByPair, s.references, l.references);
  }

  lemma DroppedWellKeyed(s: Spec, l: Lists)
    requires WellKeyed(s)
    ensures WellKeyed(Dropped(s, l))
  {
    hide TrimSpace, Keyed, Trims, Keys;
    KeyedWithout(ByName, s.operations, Keys(ByName, l.operations));
    KeyedWithout(ByTrimmedName, s.providers, Keys(ByTrimmedName, l.providers));
    KeyedWithout(ByTrimmedName, s.datasources, Keys(ByTrimmedName, l.datasources));
    KeyedWithout(ByTrimmedName, s.skills, Keys(ByTrimmedName, l.skills));
    KeyedWithout(ByPair, s.references, Keys(ByPair, l.references));
  }

  lemma TrimsCanonical(names: set<string>)
    requires Clean(names)
    ensures Trims(SortedKeys(names)) == names
  {
    hide TrimSpace;
    var ids := SortedKeys(names);
    forall x | x in names ensures x in Trims(ids) {
      var i :| 0 <= i < |ids| && ids[i] == x;
      assert TrimSpace(ids[i]) == x;
    }
  }

  method MergeNames(base: seq<string>, add: seq<string>, ghost names: set<string>) returns (out: seq<string>)
    requires base == SortedKeys(names) && Clean(names)
    ensures out == SortedKeys(names + Trims(add))
  {
    TrimsCanonical(names);
    out := MergeStrings(base, add);
  }

  method MergeRefs(k: Keying, base: seq<Ref>, add: seq<Ref>, ghost m: map<string, Ref>) returns (out: seq<Ref>)
    requires base == Canon(m) && Keyed(k, m)
    ensures out == Canon(Put(k, m, add))
  {
    PutCanon(k, m);
    out := Merge(k, base, add);
  }

  method RemoveRefs(k: Keying, base: seq<Ref>, remove: seq<Ref>, ghost m: map<string, Ref>) returns (out: seq<Ref>)
    requires base == Canon(m) && Keyed(k, m)
    ensures out == Canon(m - Keys(k, remove))
  {
    PutCanon(k, m);
    out := Remove(k, base, remove);
  }

  class Model {
    var focus: Option<Focus>
    var active: ActiveSurface
    var recent: seq<Entry>
    var diagnostics: seq<string>
    ghost var spec: Spec

    ghost predicate Valid()
      reads this
    {
      && WellKeyed(spec)
      && active == Rendered(spec)
      && recent == Last(spec.log, TraceLimit)
      && diagnostics == spec.diagnostics && focus == spec.focus
    }

    constructor ()
      ensures Valid() && spec == Nothing
    {
      active := ActiveSurface(Lists([], [], [], [], [], [], [], []), "");
      focus, recent, diagnostics, spec := None, [], [], Nothing;
    }

    /** `appendTrace`: only the last 32 entries are kept. */
    method AppendTrace(entry: Entry)
      modifies this`recent
      ensures recent == Last(old(recent) + [entry], TraceLimit)
    {
      recent := recent + [entry];
      if |recent| > TraceLimit {
        recent := recent[|recent| - TraceLimit..];
      }
    }

    method ApplyPrepared(l: Lists, lifetime: string)
      requires WellKeyed(spec) && active == Rendered(spec)
      modifies this`active
      ensures active == Rendered(Added(spec, l).(lifetime := if lifetime != "" then lifetime else spec.lifetime))
    {
      hide Canon, Keyed, Clean, SortedKeys, Trims;
      var a := active.lists;
      var activationSets := MergeNames(a.activationSets, l.activationSets, spec.activationSets);
      var operations := MergeRefs(ByName, a.operations, l.operations, spec.operations);
      var operationSets := MergeNames(a.operationSets, l.operationSets, spec.operationSets);
      var providers := MergeRefs(ByTrimmedName, a.providers, l.providers, spec.providers);
      var datasources := MergeRefs(ByTrimmedName, a.datasources, l.datasources, spec.datasources);
      var skills := MergeRefs(ByTrimmedName, a.skills, l.skills, spec.skills);
      var references := MergeRefs(ByPair, a.references, l.references, spec.references);
      var inlineContexts := MergeNames(a.inlineContexts, l.inlineContexts, spec.inlineContexts);
      active := ActiveSurface(
        Lists(activationSets, operationSets, inlineContexts, operations, providers, datasources, skills, references),
        if lifetime != "" then lifetime else active.lifetime);
    }

    method ApplyExpired(l: Lists, lifetime: string)
      requires WellKeyed(spec) && active == Rendered(spec)
      modifies this`active
      ensures active == Rendered(Dropped(spec, l).(
        lifetime := if lifetime != "" && lifetime == spec.lifetime then "" else spec.lifetime))
    {
      hide Canon, Keyed, SortedKeys, Trims, Keys;
      var a := active.lists;
      var activationSets := RemoveStrings(a.activationSets, l.activationSets, spec.activationSets);
      var operations := RemoveRefs(ByName, a.operations, l.operations, spec.operations);
      var operationSets := RemoveStrings(a.operationSets, l.operationSets, spec.operationSets);
      var providers := RemoveRefs(ByTrimmedName, a.providers, l.providers, spec.providers);
      var datasources := RemoveRefs(ByTrimmedName, a.datasources, l.datasources, spec.datasources);
      var skills := RemoveRefs(ByTrimmedName, a.skills, l.skills, spec.skills);
      var references := RemoveRefs(ByPair, a.references, l.references, spec.references);
      var inlineContexts := RemoveStrings(a.inlineContexts, l.inlineContexts, spec.inlineContexts);
      active := ActiveSurface(
        Lists(activationSets, operationSets, inlineContexts, operations, providers, datasources, skills, references),
        if lifetime != "" && active.lifetime == lifetime then "" else active.lifetime);
    }

    /** `ApplyNamed`: the model keeps representing the specification state. */
    method ApplyNamed(e: Event)
      requires Valid()
      modifies this
      ensures Valid() && spec == Next(old(spec), e)
    {
      hide Rendered, Added, Dropped, WellKeyed;
      ghost var before := spec;
      match e {
        case FocusDetected(f, _) =>
          focus := Some(f);
        case PrepareRequested(_) =>
        case Resolved(found, skipped, _) =>
          diagnostics := diagnostics + found;
          diagnostics := diagnostics + skipped;
        case Prepared(lists, lifetime, found, _) =>
          AddedWellKeyed(spec, lists);
          ApplyPrepared(lists, lifetime);
          diagnostics := diagnostics + found;
        case PrepareSkipped(diagnostic, _) =>
          if diagnostic.Some? {
            diagnostics := diagnostics + [diagnostic.value];
          }
        case Expired(lists, lifetime, _) =>
          DroppedWellKeyed(spec, lists);
          ApplyExpired(lists, lifetime);
        case Unrecognised =>
          return;
      }
      AppendTrace(e.entry);
      LastSnoc(before.log, e.entry, TraceLimit);
      spec := Next(spec, e);
      ChangedParts(before, e);
    }
  }

  /** What an event leaves alone, and that rendering sees only the sets, the maps and the lifetime. */
  lemma ChangedParts(s: Spec, e: Event)
    requires WellKeyed(s)
    ensures WellKeyed(Next(s, e))
    ensures e.Prepared? ==> Rendered(Next(s, e)) == Rendered(Added(s, e.lists).(
      lifetime := if e.lifetime != "" then e.lifetime else s.lifetime))
    ensures e.Expired? ==> Rendered(Next(s, e)) == Rendered(Dropped(s, e.lists).(
      lifetime := if e.lifetime != "" && e.lifetime == s.lifetime then "" else s.lifetime))
    ensures !e.Prepared? && !e.Expired? ==> Rendered(Next(s, e)) == Rendered(s)
    ensures Changed(s, e).log == s.log
    ensures !e.FocusDetected? ==> Next(s, e).focus == s.focus
    ensures e.Prepared? ==> Next(s, e).diagnostics == s.diagnostics + e.diagnostics
    ensures e.Expired? || e.FocusDetected? || e.PrepareRequested? ==> Next(s, e).diagnostics == s.diagnostics
  {
    hide Canon, Keyed, Clean, SortedKeys, Trims, Put, Keys;
    if e.Prepared? {
      AddedWellKeyed(s, e.lists);
    } else if e.Expired? {
      DroppedWellKeyed(s, e.lists);
    }
  }

  /** One trace entry for each recognised event, in order. */
  function Entries(events: seq<Event>): seq<Entry> {
    if events == [] then []
    else Entries(events[..|events| - 1])
         + if events[|events| - 1].Unrecognised? then [] else [events[|events| - 1].entry]
  }

  lemma {:induction false} LogIsEntries(events: seq<Event>)
    ensures Run(events).log == Entries(events)
  {
    hide Trims, Put, Keys;
    if events != [] {
      LogIsEntries(events[..|events| - 1]);
    }
  }

  /** A model fed a whole stream shows the end of its run: the surface, and the last 32 trace entries. */
  method Replay(events: seq<Event>) returns (m: Model)
    ensures fresh(m) && m.Valid() && m.spec == Run(events)
    ensures m.active == Rendered(Run(events)) && m.recent == Last(Entries(events), TraceLimit)
  {
    hide Rendered, Next, WellKeyed;
    m := new Model();
    for i := 0 to |events|
      invariant fresh(m) && m.Valid() && m.spec == Run(events[..i])
    {
      m.ApplyNamed(events[i]);
      assert events[..i + 1][..i] == events[..i];
    }
    assert events[..|events|] == events;
    LogIsEntries(events);
  }
}
