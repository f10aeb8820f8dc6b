/** What prewarming keeps, in terms of the accessors and of the annotations alone. */
module PrewarmAccounts {
  import opened Wrappers
  import opened GoStrings
  import opened Sorting
  import opened Filtering
  import opened PrewarmTypes
  import opened Prewarm

  /** A maximal part without commas. */
  predicate CommaPart(s: string, i: int, j: int) {
    && 0 <= i <= j <= |s|
    && (i == 0 || s[i - 1] == ',') && (j == |s| || s[j] == ',')
    && forall k :: i <= k < j ==> s[k] != ','
  }

  predicate PartNamed(s: string, name: string, i: int, j: int) {
    CommaPart(s, i, j) && TrimSpace(s[i..j]) == name
  }

  ghost predicate NamedIn(s: string, name: string) {
    name != "" && exists i, j :: PartNamed(s, name, i, j)
  }

  lemma {:induction false} HeadIsPart(s: string)
    ensures CommaPart(s, 0, |Head(s)|) && s[..|Head(s)|] == Head(s)
    decreases |s|
  {
    if s != "" && s[0] != ',' {
      HeadIsPart(s[1..]);
      assert forall k :: 1 <= k < |s| ==> s[k] == s[1..][k - 1];
    }
  }

  /** Behind a comma, the parts are those of what follows it. */
  lemma LaterPart(s: string, at: int, i: int, j: int)
    requires 0 < at <= |s| && s[at - 1] == ',' && at <= i
    ensures CommaPart(s, i, j) <==> CommaPart(s[at..], i - at, j - at)
    ensures CommaPart(s, i, j) ==> s[i..j] == s[at..][i - at..j - at]
  {
    assert forall k :: at <= k < |s| ==> s[k] == s[at..][k - at];
  }

  /** Another part than the first one lies behind the first comma. */
  lemma FirstPart(s: string, at: int, i: int, j: int)
    requires 0 < at <= |s| && s[at - 1] == ',' && CommaPart(s, 0, at - 1) && CommaPart(s, i, j)
    ensures (i == 0 && j == at - 1) || at <= i
  {
  }

  lemma NamedSplit(s: string, at: int, name: string)
    requires 0 < at <= |s| && s[at - 1] == ',' && CommaPart(s, 0, at - 1) && name != ""
    ensures NamedIn(s, name) <==> TrimSpace(s[0..at - 1]) == name || NamedIn(s[at..], name)
  {
    hide TrimSpace, CommaPart;
    if i, j :| PartNamed(s, name, i, j) {
      FirstPart(s, at, i, j);
      if at <= i {
        LaterPart(s, at, i, j);
        assert PartNamed(s[at..], name, i - at, j - at);
      }
    }
    if i, j :| PartNamed(s[at..], name, i, j) {
      PartFromZero(s[at..], i, j);
      LaterPart(s, at, i + at, j + at);
      assert PartNamed(s, name, i + at, j + at);
    }
    if TrimSpace(s[0..at - 1]) == name {
      assert PartNamed(s, name, 0, at - 1);
    }
  }

  lemma PartFromZero(s: string, i: int, j: int)
    ensures CommaPart(s, i, j) ==> 0 <= i
  {
  }

  lemma NamedWhole(s: string, name: string)
    requires CommaPart(s, 0, |s|) && name != ""
    ensures NamedIn(s, name) <==> TrimSpace(s) == name
  {
    hide TrimSpace;
    assert s[0..|s|] == s;
    assert forall i, j :: CommaPart(s, i, j) ==> i == 0 && j == |s|;
    assert TrimSpace(s) == name ==> PartNamed(s, name, 0, |s|);
  }

  lemma PartsStep(s: string, name: string)
    ensures var h := |Head(s)|;
      name in Parts(s) <==> (name != "" && TrimSpace(Head(s)) == name) || (h < |s| && name in Parts(s[h + 1..]))
  {
    hide TrimSpace, Head;
  }

  lemma {:induction false} PartsNamed(s: string, name: string)
    ensures name in Parts(s) <==> NamedIn(s, name)
    decreases |s|
  {
    HeadIsPart(s);
    PartsStep(s, name);
    hide TrimSpace, Parts, Head, NamedIn, CommaPart;
    var h := |Head(s)|;
    assert s[0..h] == Head(s);
    if h == |s| {
      assert Head(s) == s;
      if name != "" {
        NamedWhole(s, name);
      }
    } else {
      PartsNamed(s[h + 1..], name);
      CommaAt(s, h);
      if name != "" {
        NamedSplit(s, h + 1, name);
      }
    }
    NamedNonEmpty(s, name);
    NamedNonEmpty(s[if h < |s| then h + 1 else 0..], name);
  }

  lemma CommaAt(s: string, h: int)
    requires CommaPart(s, 0, h) && h < |s|
    ensures s[h] == ','
  {
  }

  lemma NamedNonEmpty(s: string, name: string)
    ensures NamedIn(s, name) ==> name != ""
  {
  }

  /** The relations of a reference are the names between the commas of its annotation. */
  lemma RelationsNamed(r: Ref, name: string)
    ensures name in Relations(r) <==>
      "prewarm.relations" in r.annotations && NamedIn(TrimSpace(r.annotations["prewarm.relations"]), name)
  {
    hide TrimSpace, NamedIn;
    var raw := TrimSpace(Annotation(r, "prewarm.relations"));
    SameElements(Sort(Parts(raw), StrLess), Parts(raw));
    PartsNamed(raw, name);
    NothingNamed(name);
  }

  /** Relations are followed in the order of their names. */
  lemma RelationsSorted(r: Ref)
    ensures NonDescending(Relations(r), StrLess)
  {
    StringOrder();
    forall x, y ensures x == y || StrLess(x, y) || StrLess(y, x) {
      StrLessTotal(x, y);
    }
    hide StrLess, TrimSpace, Parts, Sort;
    SortNonDescending(Parts(TrimSpace(Annotation(r, "prewarm.relations"))), StrLess);
  }

  lemma NothingNamed(name: string)
    ensures TrimSpace("") == "" && !NamedIn("", name)
  {
    assert ""[0..0] == "";
  }

  predicate SameLetters(s: string, word: string) {
    |s| == |word| && forall i :: 0 <= i < |s| ==> s[i] == word[i] || ('A' <= s[i] <= 'Z' && s[i] - 'A' + 'a' == word[i])
  }

  /** An annotation is on when it is one of four words, in any case and with blanks around it. */
  lemma TruthyIff(value: string)
    ensures Truthy(value) <==> exists word :: word in {"1", "true", "yes", "on"} && SameLetters(TrimSpace(value), word)
  {
    hide TrimSpace;
    var s := TrimSpace(value);
    if Truthy(value) {
      assert SameLetters(s, Lower(s));
    }
    forall word | word in {"1", "true", "yes", "on"} && SameLetters(s, word) ensures Lower(s) == word {
      assert forall i :: 0 <= i < |word| ==> !('A' <= word[i] <= 'Z');
    }
  }

  predicate Says(r: Ref, key: string) {
    key in r.annotations && Truthy(r.annotations[key])
  }

  lemma EnabledSays(r: Ref)
    ensures Truthy(Annotation(r, "prewarm.get")) == Says(r, "prewarm.get")
    ensures Truthy(Annotation(r, "prewarm.search")) == Says(r, "prewarm.search")
    ensures Enabled(r) <==> Wanted(r)
  {
    assert !Truthy("") by {
      assert TrimSpace("") == "" && Lower("") == "";
    }
    hide Truthy;
  }

  predicate Wanted(r: Ref) {
    Says(r, "prewarm.get") || Says(r, "prewarm.search")
  }

  predicate Known(w: World, datasource: string, entity: string) {
    datasource != "" && entity != "" && w.hasEntity(datasource, entity)
  }

  predicate GetAnswers(w: World, q: Ref, x: Record) {
    q.id != "" && Says(q, "prewarm.get") && w.get(q) == Some(x)
  }

  predicate SearchAnswers(w: World, q: Ref, xs: seq<Record>) {
    q.query != "" && Says(q, "prewarm.search") && w.search(q) == Some(xs)
  }

  /** What a reference brings: the record with its id, or else what a search for its query finds. */
  ghost predicate Brings(w: World, q: Ref, x: Record) {
    && Known(w, q.datasource, q.entity)
    && (GetAnswers(w, q, x)
        || ((forall y :: !GetAnswers(w, q, y)) && exists xs :: SearchAnswers(w, q, xs) && x in xs))
  }

  lemma FetchBrings(w: World, q: Ref, x: Record)
    ensures x in Fetch(w, q) <==> Brings(w, q, x)
  {
    EnabledSays(q);
    hide Truthy, Says;
    if Known(w, q.datasource, q.entity) {
      if q.id != "" && Says(q, "prewarm.get") && w.get(q).Some? {
        assert GetAnswers(w, q, w.get(q).value);
      } else if q.query != "" && Says(q, "prewarm.search") && w.search(q).Some? {
        assert SearchAnswers(w, q, w.search(q).value);
      }
    }
  }

  function Or(a: string, b: string): string {
    if a != "" then a else b
  }

  /** A record with the key that `raw` has once its source filled the gaps. */
  ghost predicate Held(out: seq<Record>, raw: Record, source: Ref) {
    exists k :: 0 <= k < |out| && HeldAt(out[k], raw, source)
  }

  predicate HeldAt(r: Record, raw: Record, source: Ref) {
    RecordKey(r)
    == Or(raw.datasource, source.datasource) + "\0" + Or(raw.entity, source.entity) + "\0" + Or(raw.id, source.id)
  }

  lemma HeldKey(out: seq<Record>, raw: Record, source: Ref)
    ensures KeyOf(raw, source) in RecordKeys(out) <==> Held(out, raw, source)
  {
    assert forall k :: 0 <= k < |out| ==> (RecordKey(out[k]) == KeyOf(raw, source) <==> HeldAt(out[k], raw, source));
    hide RecordKey, KeyOf, HeldAt;
  }

  predicate SelfLink(r: Record, link: Ref) {
    link.datasource == r.datasource && link.entity == r.entity && link.id != "" && link.id == r.id
  }

  function Foreign(r: Record, links: seq<Ref>): seq<bool> {
    seq(|links|, i requires 0 <= i < |links| => !SelfLink(r, links[i]))
  }

  /** The record as it came, with gaps filled from its source and its links detected anew, in order and without itself. */
  ghost predicate KeptAs(w: World, raw: Record, source: Ref, r: Record) {
    && r.content == raw.content
    && r.datasource == Or(raw.datasource, source.datasource)
    && r.entity == Or(raw.entity, source.entity)
    && r.id == Or(raw.id, source.id)
    && var links := w.detect(r.(links := raw.links));
       Filtered(links, Foreign(r, links), r.links)
  }

  lemma ForeignSnoc(r: Record, links: seq<Ref>, link: Ref)
    ensures var b := !SelfLink(r, link);
      && Foreign(r, links + [link]) == Foreign(r, links) + [b]
      && WithoutSelf(r, links + [link]) == if b then WithoutSelf(r, links) + [link] else WithoutSelf(r, links)
  {
    assert (links + [link])[..|links|] == links;
    assert WithoutSelf(r, links) + [] == WithoutSelf(r, links);
  }

  lemma NothingFiltered<T>()
    ensures Filtered<T>([], [], [])
  {
  }

  lemma {:induction false} LinksFiltered(r: Record, links: seq<Ref>)
    ensures Filtered(links, Foreign(r, links), WithoutSelf(r, links))
  {
    hide Filtered, SelfLink;
    if links == [] {
      assert Foreign(r, links) == [] && links == [];
      NothingFiltered<Ref>();
    } else {
      hide Foreign, WithoutSelf;
      var init, last := links[..|links| - 1], links[|links| - 1];
      assert links == init + [last];
      LinksFiltered(r, init);
      ForeignSnoc(r, init, last);
      FilteredSnoc(init, Foreign(r, init), WithoutSelf(r, init), last, !SelfLink(r, last));
    }
  }

  lemma SameForeign(r: Record, s: Record, links: seq<Ref>)
    requires r.datasource == s.datasource && r.entity == s.entity && r.id == s.id
    ensures Foreign(r, links) == Foreign(s, links)
  {
  }

  /** The kept record is the only one of that shape. */
  lemma KeptIff(w: World, raw: Record, source: Ref, r: Record)
    ensures KeptAs(w, raw, source, r) <==> r == Kept(w, raw, source)
  {
    var f := Filled(raw, source);
    var links := w.detect(f);
    LinksFiltered(f, links);
    hide WithoutSelf, Filtered, Foreign;
    SameForeign(f, Kept(w, raw, source), links);
    assert Kept(w, raw, source).(links := raw.links) == f;
    if KeptAs(w, raw, source, r) {
      assert r.(links := raw.links) == f;
      SameForeign(f, r, links);
      FilteredOnce(links, Foreign(f, links), r.links, WithoutSelf(f, links));
    }
  }

  ghost predicate NamesRelation(source: Ref, name: string) {
    "prewarm.relations" in source.annotations && NamedIn(TrimSpace(source.annotations["prewarm.relations"]), name)
  }

  /** A relation that the source of a record names leads to other records. */
  ghost predicate Relates(w: World, r: Record, source: Ref, name: string, related: Related) {
    && NamesRelation(source, name) && Known(w, r.datasource, r.entity)
    && w.relation(r, name, Limit(source)) == Some(related)
  }

  function Plain(datasource: string, entity: string, id: string): Ref {
    Ref(datasource, entity, id, "", "", map[])
  }

  ghost predicate LeadsTo(w: World, r: Record, source: Ref, name: string, related: Related, x: Record, xSource: Ref) {
    && Relates(w, r, source, name, related) && x in related.records
    && xSource == Plain(related.datasource, related.entity, x.id)
  }

  lemma RelatedIff(w: World, r: Record, source: Ref, name: string, related: Related)
    ensures Relates(w, r, source, name, related) <==>
            name in Relations(source) && RelatedTo(w, r, name, Limit(source)) == Some(related)
  {
    hide Relations, Limit, NamedIn, TrimSpace;
    RelationsNamed(source, name);
  }

  /** Where a kept record comes from. */
  ghost predicate Accounted(w: World, out: seq<Record>, sources: seq<Ref>, fetched: seq<Ref>, k: int)
    requires |sources| == |out| && 0 <= k < |out|
  {
    exists raw :: KeptAs(w, raw, sources[k], out[k]) && Sourced(w, out, sources, fetched, raw, k)
  }

  ghost predicate Sourced(w: World, out: seq<Record>, sources: seq<Ref>, fetched: seq<Ref>, raw: Record, k: int)
    requires |sources| == |out| && 0 <= k < |out|
  {
    || (sources[k] in fetched && Brings(w, sources[k], raw))
    || exists i, name, related :: 0 <= i < k && LeadsTo(w, out[i], sources[i], name, related, raw, sources[k])
  }

  lemma OriginAccounted(w: World, v: View, k: nat)
    requires k < |v.records| == |v.sources| && OriginAt(w, v, k)
    ensures Accounted(w, v.records, v.sources, v.fetched, k)
  {
    hide Kept, KeptAs, Fetch, Brings, ComesFrom, LeadsTo;
    var raw :| v.records[k] == Kept(w, raw, v.sources[k])
               && Origin(w, v.records[..k], v.sources[..k], v.fetched, raw, v.sources[k]);
    KeptIff(w, raw, v.sources[k], v.records[k]);
    if v.sources[k] in v.fetched && raw in Fetch(w, v.sources[k]) {
      FetchBrings(w, v.sources[k], raw);
    } else {
      var i :| 0 <= i < k && ComesFrom(w, v.records[i], v.sources[i], raw, v.sources[k]);
      var name, related := Leads(w, v.records[i], v.sources[i], raw, v.sources[k]);
      assert LeadsTo(w, v.records[i], v.sources[i], name, related, raw, v.sources[k]);
    }
    assert Sourced(w, v.records, v.sources, v.fetched, raw, k);
  }

  lemma Leads(w: World, r: Record, source: Ref, raw: Record, rawSource: Ref) returns (name: string, related: Related)
    requires ComesFrom(w, r, source, raw, rawSource)
    ensures LeadsTo(w, r, source, name, related, raw, rawSource)
  {
    hide Relations, Limit, Relates, RelatedTo;
    name :| name in Relations(source) &&
      var to := RelatedTo(w, r, name, Limit(source));
      to.Some? && raw in to.value.records && rawSource == RelatedRef(to.value, raw);
    related := RelatedTo(w, r, name, Limit(source)).value;
    RelatedIff(w, r, source, name, related);
  }

  ghost predicate Honoured(w: World, out: seq<Record>, q: Ref) {
    forall x :: Brings(w, q, x) ==> Held(out, x, q)
  }

  ghost predicate RelationsHonoured(w: World, out: seq<Record>, r: Record, source: Ref) {
    forall name, related, x, xSource :: LeadsTo(w, r, source, name, related, x, xSource) ==> Held(out, x, xSource)
  }

  lemma ClosedHonoured(w: World, out: seq<Record>, q: Ref)
    requires FetchClosed(w, q, RecordKeys(out))
    ensures Honoured(w, out, q)
  {
    hide Brings, Held, Fetch, RecordKeys, KeyOf;
    forall x | Brings(w, q, x) ensures Held(out, x, q) {
      FetchBrings(w, q, x);
      HeldKey(out, x, q);
    }
  }

  lemma RelationsClosedHonoured(w: World, out: seq<Record>, r: Record, source: Ref)
    requires RelationsClosed(w, r, source, RecordKeys(out))
    ensures RelationsHonoured(w, out, r, source)
  {
    hide Relates, Held, RecordKeys, KeyOf, Relations, Limit, RelatedTo;
    forall name, related, x, xSource | LeadsTo(w, r, source, name, related, x, xSource) ensures Held(out, x, xSource) {
      RelatedIff(w, r, source, name, related);
      assert RelationClosed(w, r, name, Limit(source), RecordKeys(out));
      HeldKey(out, x, xSource);
    }
  }

  predicate FirstAt(refs: seq<Ref>, key: string, k: int) {
    0 <= k < |refs| && RefKey(refs[k]) == key && forall j :: 0 <= j < k ==> RefKey(refs[j]) != key
  }

  lemma {:induction false} FirstEnabledIff(refs: seq<Ref>, key: string)
    ensures FirstEnabled(refs, key) <==> exists k :: FirstAt(refs, key, k) && Wanted(refs[k])
  {
    hide RefKey, Enabled, Wanted;
    if refs != [] {
      EnabledSays(refs[0]);
      FirstEnabledIff(refs[1..], key);
      if k :| FirstAt(refs, key, k) && k > 0 && Wanted(refs[k]) {
        assert RefKey(refs[0]) != key;
        assert FirstAt(refs[1..], key, k - 1) && refs[1..][k - 1] == refs[k];
      }
      if RefKey(refs[0]) == key {
        assert FirstAt(refs, key, 0);
      } else if k :| FirstAt(refs[1..], key, k) && Wanted(refs[1..][k]) {
        assert FirstAt(refs, key, k + 1) && refs[k + 1] == refs[1..][k];
      }
    }
  }

  /** What was fetched: enabled references, each key once. */
  ghost predicate FetchedRightly(initial: seq<Ref>, out: seq<Record>, fetched: seq<Ref>) {
    && DistinctRefs(fetched)
    && forall q <- fetched :: Wanted(q) && (q in initial || LinkedFrom(out, q))
  }

  predicate HasKey(refs: seq<Ref>, key: string) {
    exists k :: 0 <= k < |refs| && RefKey(refs[k]) == key
  }

  /** A wanted reference is fetched, unless the first detected one with its key was not wanted. */
  ghost predicate Reached(initial: seq<Ref>, fetched: seq<Ref>, q: Ref) {
    HasKey(fetched, RefKey(q)) <==>
      !HasKey(initial, RefKey(q)) || exists k :: FirstAt(initial, RefKey(q), k) && Wanted(initial[k])
  }

  ghost predicate AllReached(initial: seq<Ref>, out: seq<Record>, fetched: seq<Ref>) {
    forall q :: Wanted(q) && (q in initial || LinkedFrom(out, q)) ==> Reached(initial, fetched, q)
  }

  /** The whole account of a run; below the cap nothing that a reference or a relation brings is missing. */
  ghost predicate Accounts(w: World, initial: seq<Ref>, out: seq<Record>, sources: seq<Ref>, fetched: seq<Ref>) {
    && |sources| == |out| <= 20 && DistinctRecords(out) && FetchedRightly(initial, out, fetched)
    && (forall k :: 0 <= k < |out| ==> Accounted(w, out, sources, fetched, k))
    && (|out| < 20 ==>
          && (forall q <- fetched :: Honoured(w, out, q))
          && (forall k :: 0 <= k < |out| ==> RelationsHonoured(w, out, out[k], sources[k]))
          && AllReached(initial, out, fetched))
  }

  lemma InvFetched(w: World, initial: seq<Ref>, v: View)
    requires Inv(w, initial, v)
    ensures FetchedRightly(initial, v.records, v.fetched)
  {
    hide OriginAt, QueueOk, RecordsOk, Enabled, Wanted, RefKey;
    forall q | q in v.fetched ensures Wanted(q) { EnabledSays(q); }
  }

  lemma InvReached(w: World, initial: seq<Ref>, v: View)
    requires Inv(w, initial, v) && OrderOk(initial, v) && v.queue == []
    ensures AllReached(initial, v.records, v.fetched)
  {
    hide Inv, OrderOk, Enabled, Wanted, RefKey, FirstEnabled, FirstAt, LinkedFrom;
    forall q | Wanted(q) && (q in initial || LinkedFrom(v.records, q)) ensures Reached(initial, v.fetched, q) {
      EnabledSays(q);
      FetchedIff(w, initial, v, q);
      FirstEnabledIff(initial, RefKey(q));
    }
  }

  lemma InvRecords(w: World, initial: seq<Ref>, v: View)
    requires Inv(w, initial, v)
    ensures |v.sources| == |v.records| <= 20 && DistinctRecords(v.records) && v.seenRecs == RecordKeys(v.records)
    ensures forall k :: 0 <= k < |v.records| ==> OriginAt(w, v, k)
  {
    hide OriginAt, RefsOk, QueueOk;
  }

  lemma InvAccounts(w: World, initial: seq<Ref>, v: View)
    requires Inv(w, initial, v) && OrderOk(initial, v)
    requires |v.records| < MaxRecords ==> v.queue == [] && ClosedFrom(w, v, 0)
    requires |v.records| < MaxRecords ==> forall q <- v.fetched :: FetchClosed(w, q, v.seenRecs)
    ensures Accounts(w, initial, v.records, v.sources, v.fetched)
  {
    hide Inv, OrderOk, OriginAt, Accounted, Honoured, RelationsHonoured, FetchClosed, RelationsClosed, RecordKeys;
    hide AllReached, FetchedRightly, DistinctRecords;
    InvRecords(w, initial, v);
    InvFetched(w, initial, v);
    forall k | 0 <= k < |v.records| ensures Accounted(w, v.records, v.sources, v.fetched, k) {
      OriginAccounted(w, v, k);
    }
    if |v.records| < 20 {
      forall q | q in v.fetched ensures Honoured(w, v.records, q) {
        ClosedHonoured(w, v.records, q);
      }
      forall k | 0 <= k < |v.records| ensures RelationsHonoured(w, v.records, v.records[k], v.sources[k]) {
        RelationsClosedHonoured(w, v.records, v.records[k], v.sources[k]);
      }
      InvReached(w, initial, v);
    }
  }

  /** Prewarming from detected references. */
  method PrewarmRecords(w: World, refs: seq<Ref>) returns (out: seq<Record>, ghost sources: seq<Ref>, ghost fetched: seq<Ref>)
    ensures Accounts(w, refs, out, sources, fetched)
  {
    hide Inv, OrderOk, Accounts, ClosedFrom, FetchClosed;
    var list := new Worklist(w, refs);
    out := list.Run();
    InvAccounts(w, refs, list.Now());
    sources, fetched := list.sources, list.fetched;
  }

  /** Records without NUL characters in their names have the same key exactly when they have the same name. */
  lemma RecordKeyIff(r: Record, s: Record)
    requires NulFree(r.datasource) && NulFree(r.entity) && NulFree(s.datasource) && NulFree(s.entity)
    ensures RecordKey(r) == RecordKey(s) <==> r.datasource == s.datasource && r.entity == s.entity && r.id == s.id
  {
    if RecordKey(r) == RecordKey(s) {
      assert RecordKey(r) == r.datasource + "\0" + (r.entity + "\0" + r.id);
      assert RecordKey(s) == s.datasource + "\0" + (s.entity + "\0" + s.id);
      FirstNul(r.datasource, r.entity + "\0" + r.id, s.datasource, s.entity + "\0" + s.id);
      FirstNul(r.entity, r.id, s.entity, s.id);
    }
  }

  predicate PlainNames(r: Ref) {
    NulFree(r.datasource) && NulFree(r.entity) && NulFree(r.id) && NulFree(r.query)
  }

  lemma RefKeyParts(r: Ref)
    ensures RefKey(r) == r.datasource + "\0" + (r.entity + "\0" + (r.id + "\0" + (r.query + "\0" + r.url)))
  {
  }

  /** The same for references: annotations do not belong to the key. */
  lemma RefKeyIff(r: Ref, s: Ref)
    requires PlainNames(r) && PlainNames(s)
    ensures RefKey(r) == RefKey(s) <==> r.(annotations := s.annotations) == s
  {
    RefKeyParts(r);
    RefKeyParts(s);
    hide NulFree, RefKey;
    if RefKey(r) == RefKey(s) {
      var r3, s3 := r.query + "\0" + r.url, s.query + "\0" + s.url;
      var r2, s2 := r.id + "\0" + r3, s.id + "\0" + s3;
      var r1, s1 := r.entity + "\0" + r2, s.entity + "\0" + s2;
      FirstNul(r.datasource, r1, s.datasource, s1);
      FirstNul(r.entity, r2, s.entity, s2);
      FirstNul(r.id, r3, s.id, s3);
      FirstNul(r.query, r.url, s.query, s.url);
    } else {
      RefKeyBlind(r, s.annotations);
    }
  }

  lemma RefKeyBlind(r: Ref, annotations: map<string, string>)
    ensures RefKey(r.(annotations := annotations)) == RefKey(r)
  {
  }

  function Lets(refs: seq<Ref>, seenRefs: set<string>): seq<bool> {
    seq(|refs|, i requires 0 <= i < |refs| => Wanted(refs[i]) && RefKey(refs[i]) !in seenRefs)
  }

  lemma LetsSnoc(refs: seq<Ref>, seenRefs: set<string>, r: Ref)
    ensures var b := Wanted(r) && RefKey(r) !in seenRefs;
      && Lets(refs + [r], seenRefs) == Lets(refs, seenRefs) + [b]
      && Admitted(refs + [r], seenRefs) == if b then Admitted(refs, seenRefs) + [r] else Admitted(refs, seenRefs)
  {
    EnabledSays(r);
    hide Wanted, RefKey, Enabled;
    assert (refs + [r])[..|refs|] == refs;
    assert Admitted(refs, seenRefs) + [] == Admitted(refs, seenRefs);
  }

  /** What is queued of the links of a record: the wanted ones that were not met yet, in order. */
  lemma {:induction false} AdmittedFiltered(refs: seq<Ref>, seenRefs: set<string>)
    ensures Filtered(refs, Lets(refs, seenRefs), Admitted(refs, seenRefs))
  {
    hide Filtered, Wanted, RefKey, Enabled;
    if refs == [] {
      assert Lets(refs, seenRefs) == [] && refs == [];
      NothingFiltered<Ref>();
    } else {
      hide Lets, Admitted;
      var init, last := refs[..|refs| - 1], refs[|refs| - 1];
      assert refs == init + [last];
      AdmittedFiltered(init, seenRefs);
      LetsSnoc(init, seenRefs, last);
      FilteredSnoc(init, Lets(init, seenRefs), Admitted(init, seenRefs), last, Wanted(last) && RefKey(last) !in seenRefs);
    }
  }
}
