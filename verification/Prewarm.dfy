/** References, records and annotations of the prewarm context. */
module PrewarmTypes {
  import opened Wrappers
  import opened GoStrings
  import opened Sorting

  const MaxRecords := 20
  const MaxRefs := 20
  const DefaultLimit := 10
  const MaxLimit := 20

  datatype Ref = Ref(
    datasource: string, entity: string, id: string, query: string, url: string, annotations: map<string, string>)

  datatype Record = Record(datasource: string, entity: string, id: string, content: string, links: seq<Ref>)

  datatype Related = Related(datasource: string, entity: string, records: seq<Record>)

  /** The accessors: None stands for an unsupported capability or an error. */
  datatype World = World(
    hasEntity: (string, string) -> bool,
    get: Ref -> Option<Record>,
    search: Ref -> Option<seq<Record>>,
    relation: (Record, string, int) -> Option<Related>,
    detect: Record -> seq<Ref>)

  function Lower(s: string): string {
    seq(|s|, i requires 0 <= i < |s| => if 'A' <= s[i] <= 'Z' then s[i] - 'A' + 'a' else s[i])
  }

  function Annotation(r: Ref, key: string): string {
    if key in r.annotations then r.annotations[key] else ""
  }

  predicate Truthy(value: string) {
    Lower(TrimSpace(value)) in {"1", "true", "yes", "on"}
  }

  predicate Enabled(r: Ref) {
    Truthy(Annotation(r, "prewarm.get")) || Truthy(Annotation(r, "prewarm.search"))
  }

  function RefKey(r: Ref): string {
    r.datasource + "\0" + r.entity + "\0" + r.id + "\0" + r.query + "\0" + r.url
  }

  function RecordKey(r: Record): string {
    r.datasource + "\0" + r.entity + "\0" + r.id
  }

  /** The trimmed, non-empty parts between commas. */
  function Parts(s: string): seq<string> {
    var here := if Blank(Head(s)) then [] else [TrimSpace(Head(s))];
    if |Head(s)| == |s| then here else here + Parts(s[|Head(s)| + 1..])
  }

  function Head(s: string): (r: string)
    ensures |r| <= |s|
  {
    if s == "" || s[0] == ',' then "" else [s[0]] + Head(s[1..])
  }

  function Relations(r: Ref): seq<string> {
    Sort(Parts(TrimSpace(Annotation(r, "prewarm.relations"))), StrLess)
  }

  function Limit(r: Ref): (n: int)
    ensures 1 <= n <= MaxLimit
  {
    var raw := TrimSpace(Annotation(r, "prewarm.limit"));
    match Atoi(raw)
    case Some(n) => if n <= 0 then DefaultLimit else if n > MaxLimit then MaxLimit else n
    case None => DefaultLimit
  }

  function Fetch(w: World, r: Ref): seq<Record> {
    if r.datasource == "" || r.entity == "" || !w.hasEntity(r.datasource, r.entity) then []
    else
      var got := if r.id != "" && Truthy(Annotation(r, "prewarm.get")) then w.get(r) else None;
      if got.Some? then [got.value]
      else
        var found := if r.query != "" && Truthy(Annotation(r, "prewarm.search")) then w.search(r) else None;
        if found.Some? then found.value else []
  }

  function Filled(raw: Record, source: Ref): Record {
    raw.(datasource := if raw.datasource == "" then source.datasource else raw.datasource,
         entity := if raw.entity == "" then source.entity else raw.entity,
         id := if raw.id == "" then source.id else raw.id)
  }

  function WithoutSelf(r: Record, links: seq<Ref>): (out: seq<Ref>)
    ensures |out| <= |links|
  {
    if links == [] then []
    else
      var last := links[|links| - 1];
      WithoutSelf(r, links[..|links| - 1])
      + if last.datasource == r.datasource && last.entity == r.entity && last.id != "" && last.id == r.id
        then [] else [last]
  }

  /** The record as it is kept: defaults from its source, links detected in it. */
  function Kept(w: World, raw: Record, source: Ref): Record {
    var r := Filled(raw, source);
    r.(links := WithoutSelf(r, w.detect(r)))
  }

  function KeyOf(raw: Record, source: Ref): string {
    RecordKey(Filled(raw, source))
  }

  /** The reference under which a related record is added; it carries no annotations. */
  function RelatedRef(related: Related, raw: Record): Ref {
    Ref(related.datasource, related.entity, raw.id, "", "", map[])
  }

  function RelatedTo(w: World, r: Record, relation: string, limit: int): Option<Related> {
    if r.datasource == "" || r.entity == "" || !w.hasEntity(r.datasource, r.entity) then None
    else w.relation(r, relation, limit)
  }

  /** A number in the annotation is the limit, up to 20; zero, negative numbers and other texts mean 10. */
  lemma LimitOfAnnotation(r: Ref, n: int)
    requires MinInt64 <= n <= MaxInt64
    ensures Annotation(r, "prewarm.limit") == Itoa(n) ==>
      Limit(r) == if n <= 0 then 10 else if n > 20 then 20 else n
    ensures Atoi(TrimSpace(Annotation(r, "prewarm.limit"))).None? ==> Limit(r) == 10
  {
    TrimSpaceFixed(Itoa(n));
    AtoiItoa(n);
    hide Itoa, Atoi, TrimSpace;
  }

  lemma RelatedRefPlain(related: Related, raw: Record)
    ensures Relations(RelatedRef(related, raw)) == []
  {
    assert Head("") == "";
  }
}

/** The worklist that fetches detected references, their relations, and the references found in them. */
module Prewarm {
  import opened Wrappers
  import opened GoStrings
  import opened Sorting
  import opened PrewarmTypes

  function RecordKeys(records: seq<Record>): set<string> {
    set i | 0 <= i < |records| :: RecordKey(records[i])
  }

  function RefKeys(refs: seq<Ref>): set<string> {
    set i | 0 <= i < |refs| :: RefKey(refs[i])
  }

  predicate DistinctRecords(records: seq<Record>) {
    forall i, j :: 0 <= i < j < |records| ==> RecordKey(records[i]) != RecordKey(records[j])
  }

  predicate DistinctRefs(refs: seq<Ref>) {
    forall i, j :: 0 <= i < j < |refs| ==> RefKey(refs[i]) != RefKey(refs[j])
  }

  predicate LinkedFrom(records: seq<Record>, r: Ref) {
    exists i :: 0 <= i < |records| && r in records[i].links
  }

  /** Where a record may come from: a fetched reference, or a relation of a record already kept. */
  ghost predicate Origin(w: World, records: seq<Record>, sources: seq<Ref>, fetched: seq<Ref>, raw: Record, source: Ref)
    requires |sources| == |records|
  {
    || (source in fetched && raw in Fetch(w, source))
    || (exists i :: 0 <= i < |records| && ComesFrom(w, records[i], sources[i], raw, source))
  }

  ghost predicate ComesFrom(w: World, r: Record, source: Ref, raw: Record, rawSource: Ref) {
    exists relation <- Relations(source) ::
      var related := RelatedTo(w, r, relation, Limit(source));
      related.Some? && raw in related.value.records && rawSource == RelatedRef(related.value, raw)
  }

  /** All records that the relations of a kept record name are kept as well. */
  ghost predicate RelationsClosed(w: World, r: Record, source: Ref, keys: set<string>) {
    forall relation <- Relations(source) :: RelationClosed(w, r, relation, Limit(source), keys)
  }

  ghost predicate RelationClosed(w: World, r: Record, relation: string, limit: int, keys: set<string>) {
    var related := RelatedTo(w, r, relation, limit);
    related.Some? ==> forall raw <- related.value.records :: KeyOf(raw, RelatedRef(related.value, raw)) in keys
  }

  ghost predicate FetchClosed(w: World, r: Ref, keys: set<string>) {
    forall raw <- Fetch(w, r) :: KeyOf(raw, r) in keys
  }

  ghost predicate HonoursMaxRefs(w: World) {
    forall r :: |w.detect(r)| <= MaxRefs
  }

  /** The worklist by value, with its history: the fetched references, the record sources, the pops. */
  datatype View = View(
    queue: seq<Ref>, seenRefs: set<string>, seenRecs: set<string>, records: seq<Record>,
    sources: seq<Ref>, fetched: seq<Ref>, popped: nat)

  predicate DisabledKey(initial: seq<Ref>, key: string) {
    exists i :: 0 <= i < |initial| && !Enabled(initial[i]) && RefKey(initial[i]) == key
  }

  predicate RecordsOk(v: View) {
    && |v.records| <= MaxRecords && |v.sources| == |v.records|
    && v.seenRecs == RecordKeys(v.records) && DistinctRecords(v.records)
  }

  predicate RefsOk(initial: seq<Ref>, v: View) {
    && RefKeys(v.fetched) <= v.seenRefs && DistinctRefs(v.fetched)
    && (forall key <- v.seenRefs :: key in RefKeys(v.fetched) || DisabledKey(initial, key))
    && (forall q <- v.fetched :: Enabled(q) && (q in initial || LinkedFrom(v.records, q)))
  }

  /** Every reference that was ever detected is still queued, or its key is marked. */
  ghost predicate QueueOk(initial: seq<Ref>, v: View) {
    && (forall q <- v.queue :: q in initial || (Enabled(q) && LinkedFrom(v.records, q)))
    && (forall q <- initial :: q in v.queue || RefKey(q) in v.seenRefs)
    && (forall q :: LinkedFrom(v.records, q) && Enabled(q) ==> q in v.queue || RefKey(q) in v.seenRefs)
  }

  ghost predicate OriginAt(w: World, v: View, i: nat)
    requires i < |v.records| == |v.sources|
  {
    exists raw :: v.records[i] == Kept(w, raw, v.sources[i])
                  && Origin(w, v.records[..i], v.sources[..i], v.fetched, raw, v.sources[i])
  }

  ghost predicate Inv(w: World, initial: seq<Ref>, v: View) {
    && RecordsOk(v) && RefsOk(initial, v) && QueueOk(initial, v)
    && (forall i :: 0 <= i < |v.records| ==> OriginAt(w, v, i))
    && (HonoursMaxRefs(w) ==> v.popped + |v.queue| <= |initial| + MaxRefs * |v.records|)
  }

  /** What adding records leaves alone, and what it only extends. */
  ghost predicate Grows(v: View, v': View) {
    && v.records <= v'.records && v.sources <= v'.sources && v.queue <= v'.queue && v.seenRecs <= v'.seenRecs
    && v'.fetched == v.fetched && v'.popped == v.popped && v'.seenRefs == v.seenRefs
    && (|v'.records| == |v.records| ==> v'.queue == v.queue)
  }

  /** The records from index `n` on, unless the cap stopped the work, have all their relations kept. */
  ghost predicate ClosedFrom(w: World, v: View, n: nat) {
    && |v.sources| == |v.records|
    && (|v.records| < MaxRecords ==>
          forall i :: n <= i < |v.records| ==> RelationsClosed(w, v.records[i], v.sources[i], v.seenRecs))
  }

  /** The references that `enqueue` lets in: enabled, and with a key that is not marked, in order. */
  function Admitted(refs: seq<Ref>, seenRefs: set<string>): seq<Ref> {
    if refs == [] then []
    else
      var last := refs[|refs| - 1];
      Admitted(refs[..|refs| - 1], seenRefs)
      + if Enabled(last) && RefKey(last) !in seenRefs then [last] else []
  }

  /** What the invariants need to know about `enqueue`. */
  ghost predicate Enqueued(before: seq<Ref>, after: seq<Ref>, refs: seq<Ref>, seenRefs: set<string>) {
    && before <= after && |after| <= |before| + |refs|
    && (forall q <- after :: q in before || (q in refs && Enabled(q)))
    && (forall q <- refs :: Enabled(q) ==> q in after || RefKey(q) in seenRefs)
  }

  lemma {:induction false} AdmittedEnqueued(before: seq<Ref>, refs: seq<Ref>, seenRefs: set<string>)
    ensures Enqueued(before, before + Admitted(refs, seenRefs), refs, seenRefs)
    ensures forall q <- Admitted(refs, seenRefs) :: Enabled(q) && RefKey(q) !in seenRefs
  {
    hide Enabled, RefKey;
    if refs != [] {
      var n := |refs| - 1;
      AdmittedEnqueued(before, refs[..n], seenRefs);
      assert refs == refs[..n] + [refs[n]];
    }
  }

  lemma RecordKeysSnoc(records: seq<Record>, r: Record)
    ensures RecordKeys(records + [r]) == RecordKeys(records) + {RecordKey(r)}
    ensures DistinctRecords(records) && RecordKey(r) !in RecordKeys(records) ==> DistinctRecords(records + [r])
  {
    var all := records + [r];
    assert all[|records|] == r;
    assert forall i :: 0 <= i < |records| ==> all[i] == records[i];
  }

  lemma RefKeysSnoc(refs: seq<Ref>, r: Ref)
    ensures RefKeys(refs + [r]) == RefKeys(refs) + {RefKey(r)}
    ensures DistinctRefs(refs) && RefKey(r) !in RefKeys(refs) ==> DistinctRefs(refs + [r])
  {
    var all := refs + [r];
    assert all[|refs|] == r;
    assert forall i :: 0 <= i < |refs| ==> all[i] == refs[i];
  }

  lemma LinkedSnoc(records: seq<Record>, r: Record)
    ensures forall q :: LinkedFrom(records + [r], q) <==> LinkedFrom(records, q) || q in r.links
  {
    var all := records + [r];
    assert all[|records|] == r;
    assert forall i :: 0 <= i < |records| ==> all[i] == records[i];
  }

  lemma OriginExtends(w: World, v: View, v': View, raw: Record, source: Ref)
    requires |v.sources| == |v.records| && |v'.sources| == |v'.records|
    requires v.records <= v'.records && v.sources <= v'.sources && forall q <- v.fetched :: q in v'.fetched
    requires Origin(w, v.records, v.sources, v.fetched, raw, source)
    ensures Origin(w, v'.records, v'.sources, v'.fetched, raw, source)
  {
    if i :| 0 <= i < |v.records| && ComesFrom(w, v.records[i], v.sources[i], raw, source) {
      assert ComesFrom(w, v'.records[i], v'.sources[i], raw, source);
    }
  }

  lemma OriginAtExtends(w: World, v: View, v': View, i: nat)
    requires i < |v.records| == |v.sources| && |v'.sources| == |v'.records|
    requires v.records <= v'.records && v.sources <= v'.sources && forall q <- v.fetched :: q in v'.fetched
    requires OriginAt(w, v, i)
    ensures OriginAt(w, v', i)
  {
    var raw :| v.records[i] == Kept(w, raw, v.sources[i])
               && Origin(w, v.records[..i], v.sources[..i], v.fetched, raw, v.sources[i]);
    assert v'.records[..i] == v.records[..i] && v'.sources[..i] == v.sources[..i];
    OriginExtends(w, v.(records := v.records[..i], sources := v.sources[..i]),
                  v'.(records := v'.records[..i], sources := v'.sources[..i]), raw, v.sources[i]);
  }

  function Stored(w: World, v: View, raw: Record, source: Ref, queue: seq<Ref>): View {
    var record := Kept(w, raw, source);
    v.(queue := queue, seenRecs := v.seenRecs + {RecordKey(record)},
       records := v.records + [record], sources := v.sources + [source])
  }

  /** Storing a new record with an origin, and queueing its links, keeps every invariant. */
  lemma StoredInv(w: World, initial: seq<Ref>, v: View, raw: Record, source: Ref, queue: seq<Ref>)
    requires Inv(w, initial, v) && |v.records| < MaxRecords && KeyOf(raw, source) !in v.seenRecs
    requires Origin(w, v.records, v.sources, v.fetched, raw, source)
    requires Enqueued(v.queue, queue, Kept(w, raw, source).links, v.seenRefs)
    ensures Inv(w, initial, Stored(w, v, raw, source, queue))
  {
    hide Enabled, RefKey, Kept, Origin, RecordKey, LinkedFrom, RecordKeys, RefKeys, DistinctRecords;
    var record := Kept(w, raw, source);
    var v' := Stored(w, v, raw, source, queue);
    KeptKey(w, raw, source);
    RecordKeysSnoc(v.records, record);
    LinkedSnoc(v.records, record);
    forall i | 0 <= i < |v'.records| ensures OriginAt(w, v', i) {
      if i < |v.records| {
        OriginAtExtends(w, v, v', i);
      } else {
        assert v'.records[..i] == v.records && v'.sources[..i] == v.sources;
        assert v'.records[i] == Kept(w, raw, v'.sources[i])
               && Origin(w, v'.records[..i], v'.sources[..i], v'.fetched, raw, v'.sources[i]);
      }
    }
  }

  lemma KeptKey(w: World, raw: Record, source: Ref)
    ensures RecordKey(Kept(w, raw, source)) == KeyOf(raw, source)
    ensures |Kept(w, raw, source).links| <= |w.detect(Filled(raw, source))|
  {
  }

  /** Taking a reference off the queue: its key is marked, and it is fetched when new and enabled. */
  function Popped(v: View, r: Ref): View
    requires v.queue != []
  {
    var isNew := RefKey(r) !in v.seenRefs;
    v.(queue := v.queue[1..], popped := v.popped + 1, seenRefs := v.seenRefs + {RefKey(r)},
       fetched := if isNew && Enabled(r) then v.fetched + [r] else v.fetched)
  }

  lemma PoppedInv(w: World, initial: seq<Ref>, v: View)
    requires Inv(w, initial, v) && v.queue != []
    ensures Inv(w, initial, Popped(v, v.queue[0]))
  {
    hide Enabled, RefKey, Kept, Origin, RecordKey, LinkedFrom, RecordKeys, RefKeys, DistinctRecords;
    var r := v.queue[0];
    var v' := Popped(v, r);
    RefKeysSnoc(v.fetched, r);
    assert r in initial && !Enabled(r) ==> DisabledKey(initial, RefKey(r));
    assert forall q :: q in v.queue ==> q == r || q in v.queue[1..];
    forall i | 0 <= i < |v'.records| ensures OriginAt(w, v', i) {
      OriginAtExtends(w, v, v', i);
    }
  }

  lemma RelationClosedGrows(w: World, r: Record, relation: string, limit: int, keys: set<string>, keys': set<string>)
    requires keys <= keys' && RelationClosed(w, r, relation, limit, keys)
    ensures RelationClosed(w, r, relation, limit, keys')
  {
  }

  /** Closure survives growth, and the closure of the new records extends it. */
  lemma ClosedGrows(w: World, v: View, v': View, n: nat)
    requires Grows(v, v') && n <= |v.records| && |v'.sources| == |v'.records|
    requires ClosedFrom(w, v, n) && ClosedFrom(w, v', |v.records|)
    ensures ClosedFrom(w, v', n)
  {
    hide RelationClosed, Relations, Limit;
    if |v'.records| < MaxRecords {
      forall i | n <= i < |v'.records| ensures RelationsClosed(w, v'.records[i], v'.sources[i], v'.seenRecs) {
        if i < |v.records| {
          forall relation | relation in Relations(v.sources[i])
            ensures RelationClosed(w, v.records[i], relation, Limit(v.sources[i]), v'.seenRecs)
          {
            RelationClosedGrows(w, v.records[i], relation, Limit(v.sources[i]), v.seenRecs, v'.seenRecs);
          }
        }
      }
    }
  }

  class Worklist {
    const world: World
    var queue: seq<Ref>
    var seenRefs: set<string>
    var seenRecs: set<string>
    var records: seq<Record>

    ghost const initial: seq<Ref>
    ghost var sources: seq<Ref>
    ghost var fetched: seq<Ref>
    ghost var popped: nat

    ghost function Now(): View
      reads this
    {
      View(queue, seenRefs, seenRecs, records, sources, fetched, popped)
    }

    ghost predicate Valid()
      reads this
    {
      Inv(world, initial, Now())
    }

    constructor (world: World, refs: seq<Ref>)
      ensures Valid() && this.world == world && initial == refs
      ensures Now() == View(refs, {}, {}, [], [], [], 0)
    {
      this.world, queue, initial := world, refs, refs;
      seenRefs, seenRecs, records := {}, {}, [];
      sources, fetched, popped := [], [], 0;
    }

    /** `markRef`; a key is never empty, for it holds the separators. */
    method MarkRef(r: Ref) returns (isNew: bool)
      modifies this`seenRefs
      ensures isNew <==> RefKey(r) !in old(seenRefs)
      ensures seenRefs == old(seenRefs) + {RefKey(r)}
    {
      var key := RefKey(r);
      if key == "" || key in seenRefs {
        return false;
      }
      seenRefs := seenRefs + {key};
      isNew := true;
    }

    method Enqueue(refs: seq<Ref>)
      modifies this`queue
      ensures queue == old(queue) + Admitted(refs, seenRefs)
      ensures Enqueued(old(queue), queue, refs, seenRefs)
    {
      hide Enabled, RefKey, Enqueued;
      AdmittedEnqueued(queue, refs, seenRefs);
      for i := 0 to |refs|
        invariant queue == old(queue) + Admitted(refs[..i], seenRefs)
      {
        assert refs[..i + 1][..i] == refs[..i];
        if Enabled(refs[i]) && RefKey(refs[i]) !in seenRefs {
          queue := queue + [refs[i]];
        }
      }
      assert refs[..|refs|] == refs;
    }

    /** The first half of `addRecord`: the record is stored and its links are queued. */
    method Keep(raw: Record, source: Ref) returns (record: Record)
      requires Valid() && |records| < MaxRecords && KeyOf(raw, source) !in seenRecs
      requires Origin(world, records, sources, fetched, raw, source)
      modifies this
      ensures Valid() && record == Kept(world, raw, source)
      ensures Grows(old(Now()), Now()) && KeyOf(raw, source) in seenRecs
      ensures records == old(records) + [record] && sources == old(sources) + [source]
    {
      hide Inv, Origin, Kept, Enqueued, KeyOf;
      ghost var before := Now();
      record := Kept(world, raw, source);
      KeptKey(world, raw, source);
      seenRecs := seenRecs + {RecordKey(record)};
      records := records + [record];
      sources := sources + [source];
      Enqueue(record.links);
      StoredInv(world, initial, before, raw, source, queue);
      EnqueuedExtends(before.queue, queue, record.links, seenRefs);
      assert Now() == Stored(world, before, raw, source, queue);
    }

    /** `addRecord`: a record with a new key is stored, then its source's relations are followed. */
    method AddRecord(raw: Record, source: Ref)
      requires Valid() && |records| < MaxRecords
      requires Origin(world, records, sources, fetched, raw, source)
      modifies this
      ensures Valid() && Grows(old(Now()), Now()) && KeyOf(raw, source) in seenRecs
      ensures ClosedFrom(world, Now(), |old(records)|)
      decreases |Relations(source)|, 1
    {
      hide Inv, Origin, Relations, Limit, RelationClosed, Kept, RefKey;
      ghost var before := Now();
      InvLengths(world, initial, before);
      var key := RecordKey(Filled(raw, source));
      if key == "" || key in seenRecs {
        return;
      }
      ghost var at := |records|;
      var record := Keep(raw, source);
      var relations := Relations(source);
      for i := 0 to |relations|
        invariant Valid() && Grows(before, Now()) && |records| > at && |sources| == |records|
        invariant key in seenRecs && records[at] == record && sources[at] == source
        invariant ClosedFrom(world, Now(), at + 1)
        invariant |records| < MaxRecords ==>
          forall k :: 0 <= k < i ==> RelationClosed(world, record, relations[k], Limit(source), seenRecs)
      {
        ghost var v := Now();
        AddRelationRecords(record, source, at, relations[i], Limit(source));
        ClosedGrows(world, v, Now(), at + 1);
        if |records| < MaxRecords {
          forall k | 0 <= k < i ensures RelationClosed(world, record, relations[k], Limit(source), seenRecs) {
            RelationClosedGrows(world, record, relations[k], Limit(source), v.seenRecs, seenRecs);
          }
        }
      }
    }

    /** `addRelationRecords`: related records carry no annotations, so the recursion ends one level down. */
    method AddRelationRecords(record: Record, ghost source: Ref, ghost at: nat, relation: string, limit: int)
      requires Valid() && at < |records| == |sources| && records[at] == record && sources[at] == source
      requires relation in Relations(source) && limit == Limit(source)
      modifies this
      ensures Valid() && Grows(old(Now()), Now()) && |sources| == |records|
      ensures ClosedFrom(world, Now(), |old(records)|)
      ensures |records| < MaxRecords ==> RelationClosed(world, record, relation, limit, seenRecs)
      decreases |Relations(source)|, 0
    {
      hide Inv, Relations, Limit, RelatedTo, RefKey, KeyOf;
      ghost var before := Now();
      var related := RelatedTo(world, record, relation, limit);
      if related.None? {
        return;
      }
      var all := related.value.records;
      for i := 0 to |all|
        invariant Valid() && Grows(before, Now()) && ClosedFrom(world, Now(), |before.records|)
        invariant forall k :: 0 <= k < i ==> KeyOf(all[k], RelatedRef(related.value, all[k])) in seenRecs
      {
        if |records| >= MaxRecords {
          return;
        }
        ghost var v := Now();
        RelatedRefPlain(related.value, all[i]);
        assert ComesFrom(world, records[at], sources[at], all[i], RelatedRef(related.value, all[i]));
        AddRecord(all[i], RelatedRef(related.value, all[i]));
        InvLengths(world, initial, Now());
        ClosedGrows(world, v, Now(), |before.records|);
      }
    }

    /** `run`. */
    method Run() returns (out: seq<Record>)
      requires Now() == View(initial, {}, {}, [], [], [], 0)
      modifies this
      ensures Valid() && OrderOk(initial, Now()) && out == records
      ensures |records| < MaxRecords ==> queue == [] && ClosedFrom(world, Now(), 0)
      ensures |records| < MaxRecords ==> forall q <- fetched :: FetchClosed(world, q, seenRecs)
    {
      hide Inv, OrderOk, FetchClosed, RelationsClosed, RefKey, Enabled, KeyOf;
      StartInv(world, initial);
      while |queue| > 0 && |records| < MaxRecords
        invariant Valid() && OrderOk(initial, Now()) && ClosedFrom(world, Now(), 0)
        invariant |records| <= MaxRecords
        invariant |records| < MaxRecords ==> forall q <- fetched :: FetchClosed(world, q, seenRecs)
        decreases MaxRecords - |records|, |queue|
      {
        ghost var before := Now();
        var r := queue[0];
        queue := queue[1..];
        popped := popped + 1;
        var isNew := MarkRef(r);
        if isNew && Enabled(r) {
          fetched := fetched + [r];
        }
        assert Now() == Popped(before, r);
        PoppedInv(world, initial, before);
        PoppedOrder(world, initial, before);
        if !isNew || !Enabled(r) {
          continue;
        }
        FetchRecords(r, before.fetched);
      }
      out := records;
    }

    method FetchRecords(r: Ref, ghost earlier: seq<Ref>)
      requires Valid() && OrderOk(initial, Now()) && ClosedFrom(world, Now(), 0) && |records| < MaxRecords
      requires fetched == earlier + [r] && forall q <- earlier :: FetchClosed(world, q, seenRecs)
      modifies this
      ensures Valid() && OrderOk(initial, Now()) && ClosedFrom(world, Now(), 0) && Grows(old(Now()), Now())
      ensures |records| <= MaxRecords
      ensures |records| < MaxRecords ==> forall q <- fetched :: FetchClosed(world, q, seenRecs)
    {
      hide Inv, OrderOk, RelationsClosed, RefKey, Enabled, KeyOf;
      ghost var before := Now();
      var found := Fetch(world, r);
      InvLengths(world, initial, Now());
      for i := 0 to |found|
        invariant Valid() && OrderOk(initial, Now()) && ClosedFrom(world, Now(), 0) && Grows(before, Now())
        invariant |records| <= MaxRecords
        invariant forall k :: 0 <= k < i ==> KeyOf(found[k], r) in seenRecs
      {
        if |records| >= MaxRecords {
          return;
        }
        ghost var v := Now();
        assert r in fetched && found[i] in Fetch(world, r);
        AddRecord(found[i], r);
        InvLengths(world, initial, Now());
        ClosedGrows(world, v, Now(), 0);
        OrderGrows(initial, v, Now());
      }
    }
  }

  /** Whether the first reference with the key is enabled; a later one with the same key is never looked at. */
  predicate FirstEnabled(refs: seq<Ref>, key: string) {
    refs != [] && if RefKey(refs[0]) == key then Enabled(refs[0]) else FirstEnabled(refs[1..], key)
  }

  /** The detected references are popped first and in order, so the first one with a key decides about it. */
  ghost predicate OrderOk(initial: seq<Ref>, v: View) {
    && (v.popped <= |initial| ==> initial[v.popped..] <= v.queue && v.seenRefs == RefKeys(initial[..v.popped]))
    && (forall i :: 0 <= i < |initial| && i < v.popped ==>
          && RefKey(initial[i]) in v.seenRefs
          && (RefKey(initial[i]) in RefKeys(v.fetched) <==> FirstEnabled(initial, RefKey(initial[i]))))
  }

  lemma StartInv(w: World, initial: seq<Ref>)
    ensures Inv(w, initial, View(initial, {}, {}, [], [], [], 0))
    ensures OrderOk(initial, View(initial, {}, {}, [], [], [], 0))
  {
    assert initial[0..] == initial;
  }

  lemma OrderGrows(initial: seq<Ref>, v: View, v': View)
    requires OrderOk(initial, v) && Grows(v, v')
    ensures OrderOk(initial, v')
  {
  }

  lemma {:induction false} FirstEnabledAt(refs: seq<Ref>, i: nat)
    requires i < |refs| && forall k :: 0 <= k < i ==> RefKey(refs[k]) != RefKey(refs[i])
    ensures FirstEnabled(refs, RefKey(refs[i])) <==> Enabled(refs[i])
  {
    hide RefKey, Enabled;
    if i > 0 {
      assert RefKey(refs[0]) != RefKey(refs[i]);
      assert forall k :: 0 <= k < i - 1 ==> refs[1..][k] == refs[k + 1];
      FirstEnabledAt(refs[1..], i - 1);
    }
  }

  lemma PoppedOrder(w: World, initial: seq<Ref>, v: View)
    requires Inv(w, initial, v) && OrderOk(initial, v) && v.queue != []
    ensures OrderOk(initial, Popped(v, v.queue[0]))
  {
    hide RefKey, Enabled, OriginAt, FirstEnabled, QueueOk, LinkedFrom;
    var r := v.queue[0];
    var v' := Popped(v, r);
    RefKeysSnoc(v.fetched, r);
    assert v.fetched + [] == v.fetched;
    if v.popped < |initial| {
      assert r == initial[v.popped];
      assert initial[v'.popped..] == initial[v.popped..][1..];
      RefKeysSnoc(initial[..v.popped], r);
      assert initial[..v'.popped] == initial[..v.popped] + [r];
      if RefKey(r) !in v.seenRefs {
        forall k | 0 <= k < v.popped ensures RefKey(initial[k]) != RefKey(r) {
          assert RefKey(initial[k]) in v.seenRefs;
        }
        FirstEnabledAt(initial, v.popped);
      } else {
        SeenEarlier(initial[..v.popped], RefKey(r));
        var k :| 0 <= k < v.popped && RefKey(initial[k]) == RefKey(r);
      }
    }
  }

  lemma SeenEarlier(refs: seq<Ref>, key: string)
    requires key in RefKeys(refs)
    ensures exists k :: 0 <= k < |refs| && RefKey(refs[k]) == key
  {
  }

  /**
   * When the queue has run empty, an enabled reference, detected or linked from a kept record, has its
   * key fetched exactly when no detected reference has that key, or the first one that has it is enabled.
   */
  lemma FetchedIff(w: World, initial: seq<Ref>, v: View, r: Ref)
    requires Inv(w, initial, v) && OrderOk(initial, v) && v.queue == []
    requires Enabled(r) && (r in initial || LinkedFrom(v.records, r))
    ensures RefKey(r) in RefKeys(v.fetched) <==>
            RefKey(r) !in RefKeys(initial) || FirstEnabled(initial, RefKey(r))
  {
    hide RefKey, Enabled, OriginAt, FirstEnabled;
    assert RefKey(r) in v.seenRefs;
    assert v.popped <= |initial| ==> initial[..v.popped] == initial;
    if RefKey(r) in RefKeys(initial) {
      SeenEarlier(initial, RefKey(r));
      var k :| 0 <= k < |initial| && RefKey(initial[k]) == RefKey(r);
      assert k < v.popped;
    }
  }

  /** With at most 20 links a record, at most |detected| + 400 references are ever popped. */
  lemma PopBound(w: World, initial: seq<Ref>, v: View)
    requires Inv(w, initial, v) && HonoursMaxRefs(w)
    ensures v.popped + |v.queue| <= |initial| + 400
  {
    hide RefKey, Enabled, OriginAt;
    assert MaxRefs * |v.records| <= MaxRefs * MaxRecords;
  }

  lemma InvLengths(w: World, initial: seq<Ref>, v: View)
    requires Inv(w, initial, v)
    ensures |v.sources| == |v.records| <= MaxRecords
  {
  }

  lemma EnqueuedExtends(before: seq<Ref>, after: seq<Ref>, refs: seq<Ref>, seenRefs: set<string>)
    requires Enqueued(before, after, refs, seenRefs)
    ensures before <= after
  {
  }

  const PlainRef := Ref("d", "e", "1", "", "", map[])
  const WantedRef := PlainRef.(annotations := map["prewarm.get" := "on"])
  const OneRecord := Record("d", "e", "1", "text", [])
  const OneWorld := World((_, _) => true, _ => Some(OneRecord), _ => None, (_, _, _) => None, _ => [])

  lemma ExampleRefs()
    ensures Enabled(WantedRef) && !Enabled(PlainRef) && RefKey(WantedRef) == RefKey(PlainRef)
    ensures Fetch(OneWorld, WantedRef) == [OneRecord]
  {
    TrimSpaceFixed("on");
    TrimSpaceFixed("");
    assert Lower("on") == "on" && Lower("") == "";
    assert Truthy("on") && !Truthy("");
    hide Truthy;
  }

  lemma NothingLinked(initial: seq<Ref>, v: View)
    requires Inv(OneWorld, initial, v)
    ensures forall q :: !LinkedFrom(v.records, q)
  {
    forall i | 0 <= i < |v.records| ensures v.records[i].links == [] {
      assert OriginAt(OneWorld, v, i);
    }
  }

  /** A reference detected without annotations hides the same reference with them; the other way round it does not. */
  method ShadowedExample() returns (hidden: seq<Record>, found: seq<Record>)
    ensures hidden == [] && found != []
  {
    hide Inv, OrderOk, Enabled, RefKey, KeyOf, FetchClosed, RelationsClosed, FirstEnabled;
    ExampleRefs();
    var first := new Worklist(OneWorld, [PlainRef, WantedRef]);
    hidden := first.Run();
    ShadowedHidden(first.Now());
    var second := new Worklist(OneWorld, [WantedRef, PlainRef]);
    found := second.Run();
    ShadowedFound(second.Now());
  }

  lemma HeadKey(refs: seq<Ref>)
    ensures refs != [] ==> RefKey(refs[0]) in RefKeys(refs)
  {
  }

  lemma FirstFromFetched(w: World, v: View)
    requires 0 < |v.records| == |v.sources| && OriginAt(w, v, 0)
    ensures v.sources[0] in v.fetched
  {
  }

  lemma ShadowedHidden(v: View)
    requires Inv(OneWorld, [PlainRef, WantedRef], v) && OrderOk([PlainRef, WantedRef], v)
    ensures v.records == []
  {
    var initial, key := [PlainRef, WantedRef], RefKey(PlainRef);
    ExampleRefs();
    NothingLinked(initial, v);
    assert FirstEnabled(initial, key) == Enabled(initial[0]);
    assert initial[..0] == [];
    hide Enabled, RefKey, OriginAt, FirstEnabled;
    assert key !in RefKeys(v.fetched) by {
      assert v.popped > 0 ==> (RefKey(initial[0]) in RefKeys(v.fetched) <==> FirstEnabled(initial, key));
    }
    HeadKey(v.fetched);
    assert v.fetched == [];
    if v.records != [] {
      FirstFromFetched(OneWorld, v);
    }
  }

  lemma WantedFetched(v: View)
    requires Inv(OneWorld, [WantedRef, PlainRef], v) && OrderOk([WantedRef, PlainRef], v) && v.queue == []
    ensures WantedRef in v.fetched
  {
    var initial := [WantedRef, PlainRef];
    ExampleRefs();
    NothingLinked(initial, v);
    assert FirstEnabled(initial, RefKey(WantedRef)) == Enabled(initial[0]);
    hide Enabled, RefKey, OriginAt, FirstEnabled;
    assert WantedRef == initial[0];
    FetchedIff(OneWorld, initial, v, WantedRef);
    SeenEarlier(v.fetched, RefKey(WantedRef));
    var k :| 0 <= k < |v.fetched| && RefKey(v.fetched[k]) == RefKey(WantedRef);
    assert v.fetched[k] in v.fetched;
  }

  lemma ShadowedFound(v: View)
    requires Inv(OneWorld, [WantedRef, PlainRef], v) && OrderOk([WantedRef, PlainRef], v)
    requires |v.records| < MaxRecords ==> v.queue == [] && forall q <- v.fetched :: FetchClosed(OneWorld, q, v.seenRecs)
    ensures v.records != []
  {
    ExampleRefs();
    hide Enabled, RefKey, OriginAt, OrderOk, KeyOf;
    if |v.records| < MaxRecords {
      WantedFetched(v);
      assert FetchClosed(OneWorld, WantedRef, v.seenRecs);
      assert OneRecord in Fetch(OneWorld, WantedRef);
      assert KeyOf(OneRecord, WantedRef) in RecordKeys(v.records);
    }
  }
}
