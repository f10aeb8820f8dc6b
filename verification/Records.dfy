/** Record ids of the session-history and usage datasources. */
module RecordIds {
  import opened Wrappers
  import opened GoStrings

  predicate OccursAt(s: string, sub: string, i: int) {
    0 <= i && i + |sub| <= |s| && s[i..i + |sub|] == sub
  }

  /** `strings.LastIndex`. */
  function LastIndex(s: string, sub: string, from: nat): (i: int)
    requires from + |sub| <= |s| + 1
    decreases from
  {
    if OccursAt(s, sub, from) then from
    else if from == 0 then -1
    else LastIndex(s, sub, from - 1)
  }

  lemma {:induction false} LastIndexIs(s: string, sub: string, from: nat, i: nat)
    requires from + |sub| <= |s| + 1 && i <= from && OccursAt(s, sub, i)
    requires forall j :: i < j ==> !OccursAt(s, sub, j)
    ensures LastIndex(s, sub, from) == i
    decreases from
  {
    hide OccursAt;
    if from > i {
      LastIndexIs(s, sub, from - 1, i);
    }
  }

  lemma DifferentEnd(s: string, sub: string, i: nat)
    requires sub != "" && i + |sub| <= |s| && s[i + |sub| - 1] != sub[|sub| - 1]
    ensures !OccursAt(s, sub, i)
  {
    assert s[i..i + |sub|][|sub| - 1] == s[i + |sub| - 1];
  }

  function Marker(entity: string): string {
    ":" + entity + ":"
  }

  function RecordId(thread: string, entity: string, sequence: int): string {
    thread + ":" + entity + ":" + Itoa(sequence)
  }

  /** `parseRecordID` for event records. */
  function ParseRecordId(id: string, entity: string): Option<(string, int)> {
    var marker := Marker(entity);
    if |marker| > |id| then None
    else
      var i := LastIndex(id, marker, |id| - |marker|);
      if i <= 0 || i + |marker| > |id| then None
      else
        match Atoi(id[i + |marker|..])
        case None => None
        case Some(sequence) => Some((id[..i], sequence))
  }

  /** Parsing undoes printing, even when the thread id or the entity itself contains markers. */
  lemma ParseRecordIdRoundTrip(thread: string, entity: string, sequence: int)
    requires thread != "" && MinInt64 <= sequence <= MaxInt64
    ensures ParseRecordId(RecordId(thread, entity, sequence), entity) == Some((thread, sequence))
  {
    hide Itoa, Atoi, LastIndex;
    var id, marker, digits := RecordId(thread, entity, sequence), Marker(entity), Itoa(sequence);
    ItoaDigits(sequence);
    AtoiItoa(sequence);
    assert id == thread + marker + digits;
    LastMarker(thread, marker, digits);
    assert id[|thread| + |marker|..] == digits && id[..|thread|] == thread;
  }

  /** A marker that ends in a colon, before a text without colons, is the last one. */
  lemma LastMarker(thread: string, marker: string, digits: string)
    requires marker != "" && marker[|marker| - 1] == ':' && ColonFree(digits)
    ensures var id := thread + marker + digits; LastIndex(id, marker, |id| - |marker|) == |thread|
  {
    var id := thread + marker + digits;
    forall j | |thread| < j ensures !OccursAt(id, marker, j) {
      var last := j + |marker| - 1;
      if last < |id| {
        assert id[last] == digits[last - |thread| - |marker|];
        DifferentEnd(id, marker, j);
      }
    }
    hide OccursAt, LastIndex;
    FoundMarker(thread, marker, digits);
    LastIndexIs(id, marker, |id| - |marker|, |thread|);
  }

  lemma FoundMarker(thread: string, marker: string, digits: string)
    ensures OccursAt(thread + marker + digits, marker, |thread|)
  {
    var id := thread + marker + digits;
    assert id[|thread|..|thread| + |marker|] == marker;
  }

  predicate ColonFree(s: string) {
    forall i :: 0 <= i < |s| ==> s[i] != ':'
  }

  lemma ItoaDigits(n: int)
    ensures Itoa(n) != "" && ColonFree(Itoa(n))
  {
    hide Itoa;
    assert forall i :: 0 <= i < |Itoa(n)| ==> Itoa(n)[i] == '-' || '0' <= Itoa(n)[i] <= '9';
  }

  lemma {:induction false} LastIndexOccurs(s: string, sub: string, from: nat)
    requires from + |sub| <= |s| + 1
    ensures LastIndex(s, sub, from) >= 0 ==> OccursAt(s, sub, LastIndex(s, sub, from))
    decreases from
  {
    hide OccursAt;
    if from > 0 && !OccursAt(s, sub, from) {
      LastIndexOccurs(s, sub, from - 1);
    }
  }

  lemma {:induction false} DecimalColonFree(s: string)
    requires DecimalValue(s).Some?
    ensures ColonFree(s)
  {
    if |s| > 1 {
      DecimalColonFree(s[..|s| - 1]);
    }
  }

  lemma AtoiColonFree(s: string)
    requires Atoi(s).Some?
    ensures ColonFree(s)
  {
    var signed := s != "" && (s[0] == '-' || s[0] == '+');
    DecimalColonFree(if signed then s[1..] else s);
    assert signed ==> forall i :: 1 <= i < |s| ==> s[i] == s[1..][i - 1];
    hide DecimalValue;
  }

  predicate IdText(id: string, thread: string, entity: string, number: string) {
    id == thread + ":" + entity + ":" + number
  }

  lemma TextParses(id: string, entity: string, thread: string, number: string)
    requires thread != "" && IdText(id, thread, entity, number) && Atoi(number).Some?
    ensures ParseRecordId(id, entity) == Some((thread, Atoi(number).value))
  {
    var marker := Marker(entity);
    AtoiColonFree(number);
    hide Atoi, LastIndex;
    assert id == thread + marker + number;
    LastMarker(thread, marker, number);
    assert id[|thread| + |marker|..] == number && id[..|thread|] == thread;
  }

  lemma AroundMarker(s: string, sub: string, i: int)
    requires OccursAt(s, sub, i)
    ensures s == s[..i] + sub + s[i + |sub|..]
  {
  }

  lemma MarkedText(thread: string, entity: string, number: string)
    ensures IdText(thread + Marker(entity) + number, thread, entity, number)
  {
  }

  lemma ParsedAt(id: string, entity: string) returns (i: int)
    requires ParseRecordId(id, entity).Some?
    ensures 0 < i && OccursAt(id, Marker(entity), i)
    ensures ParseRecordId(id, entity).value.0 == id[..i]
    ensures Atoi(id[i + |Marker(entity)|..]) == Some(ParseRecordId(id, entity).value.1)
  {
    var marker := Marker(entity);
    i := LastIndex(id, marker, |id| - |marker|);
    LastIndexOccurs(id, marker, |id| - |marker|);
    hide Atoi, LastIndex, Marker;
  }

  lemma ParsedText(id: string, entity: string) returns (number: string)
    requires ParseRecordId(id, entity).Some?
    ensures var (thread, sequence) := ParseRecordId(id, entity).value;
      thread != "" && IdText(id, thread, entity, number) && Atoi(number) == Some(sequence)
  {
    hide Atoi, IdText, Marker, ParseRecordId;
    var i := ParsedAt(id, entity);
    number := id[i + |Marker(entity)|..];
    AroundMarker(id, Marker(entity), i);
    MarkedText(id[..i], entity, number);
  }

  /** An id parses exactly when it is a thread, the entity and a number, with colons between them. */
  lemma ParseRecordIdIff(id: string, entity: string, thread: string, sequence: int)
    ensures ParseRecordId(id, entity) == Some((thread, sequence)) <==>
      thread != "" && exists number :: IdText(id, thread, entity, number) && Atoi(number) == Some(sequence)
  {
    hide *;
    if ParseRecordId(id, entity).Some? {
      var number := ParsedText(id, entity);
    }
    if number :| thread != "" && IdText(id, thread, entity, number) && Atoi(number) == Some(sequence) {
      TextParses(id, entity, thread, number);
    }
  }

  /** Different threads or sequences give different ids. */
  lemma RecordIdInjective(t1: string, s1: int, t2: string, s2: int, entity: string)
    requires t1 != "" && t2 != "" && MinInt64 <= s1 <= MaxInt64 && MinInt64 <= s2 <= MaxInt64
    requires RecordId(t1, entity, s1) == RecordId(t2, entity, s2)
    ensures t1 == t2 && s1 == s2
  {
    ParseRecordIdRoundTrip(t1, entity, s1);
    ParseRecordIdRoundTrip(t2, entity, s2);
  }

  /**
   * The entities whose events get a record id: those of the session history, with "" for events of no
   * other class, and the usage record.
   */
  const HistoryEntities: set<string> :=
    {"", "session.message", "session.operation", "session.model_call", "session.compaction",
     "session.continuation", "session.session_agent", "session.usage"}
  const UsageEntity := "usage.record"

  lemma EntitiesColonFree(entity: string)
    requires entity in HistoryEntities || entity == UsageEntity
    ensures ColonFree(entity)
  {
  }

  lemma ColonThenNone(a: string, x: string)
    requires ColonFree(x)
    ensures var s := a + ":" + x; s[|a|] == ':' && forall k :: |a| < k < |s| ==> s[k] != ':'
  {
    var s := a + ":" + x;
    forall k | |a| < k < |s| ensures s[k] != ':' {
      assert s[k] == x[k - |a| - 1];
    }
  }

  lemma LastColon(a: string, x: string, b: string, y: string)
    requires ColonFree(x) && ColonFree(y) && a + ":" + x == b + ":" + y
    ensures a == b && x == y
  {
    var s := a + ":" + x;
    ColonThenNone(a, x);
    ColonThenNone(b, y);
    assert |a| == |b|;
    assert a == s[..|a|] && b == s[..|b|] && x == s[|a| + 1..] && y == s[|b| + 1..];
  }

  /**
   * Over the entities that occur, an id determines the thread, the entity and the sequence, whatever the
   * thread is called.
   */
  lemma RecordIdDetermines(t1: string, e1: string, s1: int, t2: string, e2: string, s2: int)
    requires ColonFree(e1) && ColonFree(e2)
    requires MinInt64 <= s1 <= MaxInt64 && MinInt64 <= s2 <= MaxInt64
    ensures RecordId(t1, e1, s1) == RecordId(t2, e2, s2) <==> t1 == t2 && e1 == e2 && s1 == s2
  {
    if RecordId(t1, e1, s1) == RecordId(t2, e2, s2) {
      hide Itoa, Atoi;
      ItoaDigits(s1);
      ItoaDigits(s2);
      LastColon(t1 + ":" + e1, Itoa(s1), t2 + ":" + e2, Itoa(s2));
      LastColon(t1, e1, t2, e2);
      AtoiItoa(s1);
      AtoiItoa(s2);
    }
  }
}

/** Looking a record up by its id, and listing all records of all threads. */
module RecordStore {
  import opened Wrappers
  import opened GoStrings
  import opened Sorting
  import opened RecordIds

  datatype Stored = Stored(sequence: int, entity: string, time: int, body: string)
  datatype Snapshot = Snapshot(id: string, metadata: map<string, string>, events: seq<Stored>)

  /** `time` is the parsed time of the record. */
  datatype Record = Record(id: string, time: int, metadata: map<string, string>, body: string)

  function NonEmpty(metadata: map<string, string>): map<string, string> {
    map key | key in metadata && metadata[key] != "" :: metadata[key]
  }

  /** Session history writes the sequence over the thread's metadata; usage writes it below. */
  datatype Source = History | Usage

  function Metadata(src: Source, s: Snapshot, e: Stored): map<string, string> {
    var sequence := map["sequence" := Itoa(e.sequence)];
    if src.History? then map["thread_id" := s.id] + NonEmpty(s.metadata) + sequence
    else map["thread_id" := s.id] + sequence + NonEmpty(s.metadata)
  }

  function EventRecord(src: Source, s: Snapshot, e: Stored): Record {
    Record(RecordId(s.id, e.entity, e.sequence), e.time, Metadata(src, s, e), e.body)
  }

  /** `projectSnapshot` for an event entity. */
  function Projection(src: Source, s: Snapshot, entity: string): seq<Record> {
    ProjectEvents(src, s, s.events, entity)
  }

  function ProjectEvents(src: Source, s: Snapshot, events: seq<Stored>, entity: string): seq<Record> {
    if events == [] then []
    else (if events[0].entity == entity then [EventRecord(src, s, events[0])] else [])
         + ProjectEvents(src, s, events[1..], entity)
  }

  predicate Matches(r: Record, thread: string, sequence: int) {
    && "thread_id" in r.metadata && r.metadata["thread_id"] == thread
    && "sequence" in r.metadata && r.metadata["sequence"] == Itoa(sequence)
  }

  function FirstMatch(records: seq<Record>, thread: string, sequence: int): Option<Record> {
    if records == [] then None
    else if Matches(records[0], thread, sequence) then Some(records[0])
    else FirstMatch(records[1..], thread, sequence)
  }

  lemma {:induction false} FirstMatchAt(records: seq<Record>, thread: string, sequence: int, i: nat)
    requires i < |records| && Matches(records[i], thread, sequence)
    requires forall k :: 0 <= k < i ==> !Matches(records[k], thread, sequence)
    ensures FirstMatch(records, thread, sequence) == Some(records[i])
  {
    if i > 0 {
      FirstMatchAt(records[1..], thread, sequence, i - 1);
    }
  }

  lemma {:induction false} NoMatch(records: seq<Record>, thread: string, sequence: int)
    requires forall k :: 0 <= k < |records| ==> !Matches(records[k], thread, sequence)
    ensures FirstMatch(records, thread, sequence) == None
  {
    if records != [] {
      NoMatch(records[1..], thread, sequence);
    }
  }

  function Lookup(src: Source, threads: map<string, Snapshot>, id: string, entity: string): Option<Record> {
    match ParseRecordId(id, entity)
    case None => None
    case Some((thread, sequence)) =>
      if thread !in threads then None
      else FirstMatch(Projection(src, threads[thread], entity), thread, sequence)
  }

  /** `Get` for event entities. */
  method Get(src: Source, threads: map<string, Snapshot>, id: string, entity: string) returns (r: Option<Record>)
    ensures r == Lookup(src, threads, id, entity)
  {
    hide Matches, Itoa;
    var parsed := ParseRecordId(id, entity);
    if parsed.None? {
      return None;
    }
    var (thread, sequence) := parsed.value;
    if thread !in threads {
      return None;
    }
    var records := Projection(src, threads[thread], entity);
    for i := 0 to |records|
      invariant forall k :: 0 <= k < i ==> !Matches(records[k], thread, sequence)
    {
      if Matches(records[i], thread, sequence) {
        FirstMatchAt(records, thread, sequence, i);
        return Some(records[i]);
      }
    }
    NoMatch(records, thread, sequence);
    r := None;
  }

  predicate ValidEvents(events: seq<Stored>) {
    && (forall i :: 0 <= i < |events| ==> MinInt64 <= events[i].sequence <= MaxInt64)
    && (forall i, j :: 0 <= i < j < |events| ==> events[i].sequence != events[j].sequence)
  }

  /** The thread's own metadata does not say anything else under the key. */
  predicate KeepsKey(s: Snapshot, key: string, value: string) {
    key !in s.metadata || s.metadata[key] == "" || s.metadata[key] == value
  }

  lemma ItoaInjective(a: int, b: int)
    requires MinInt64 <= a <= MaxInt64 && MinInt64 <= b <= MaxInt64 && Itoa(a) == Itoa(b)
    ensures a == b
  {
    AtoiItoa(a);
    AtoiItoa(b);
  }

  lemma MatchesIff(src: Source, s: Snapshot, e: Stored, sequence: int)
    requires MinInt64 <= e.sequence <= MaxInt64 && MinInt64 <= sequence <= MaxInt64
    ensures Matches(EventRecord(src, s, e), s.id, sequence) <==>
      && KeepsKey(s, "thread_id", s.id)
      && if src.Usage? && "sequence" in s.metadata && s.metadata["sequence"] != ""
         then s.metadata["sequence"] == Itoa(sequence) else e.sequence == sequence
  {
    assert "thread_id"[0] != "sequence"[0];
    if Itoa(e.sequence) == Itoa(sequence) {
      ItoaInjective(e.sequence, sequence);
    }
    hide Itoa;
  }

  lemma {:induction false} ProjectionMembers(src: Source, s: Snapshot, events: seq<Stored>, entity: string, r: Record)
    ensures r in ProjectEvents(src, s, events, entity) <==>
      exists e :: e in events && e.entity == entity && r == EventRecord(src, s, e)
  {
    if events != [] {
      hide EventRecord;
      ProjectionMembers(src, s, events[1..], entity, r);
      assert events == [events[0]] + events[1..];
    }
  }

  lemma {:induction false} FirstMatchSome(records: seq<Record>, thread: string, sequence: int)
    requires exists r :: r in records && Matches(r, thread, sequence)
    ensures FirstMatch(records, thread, sequence).Some?
    ensures FirstMatch(records, thread, sequence).value in records
            && Matches(FirstMatch(records, thread, sequence).value, thread, sequence)
  {
    hide Matches;
    if !Matches(records[0], thread, sequence) {
      assert records == [records[0]] + records[1..];
      FirstMatchSome(records[1..], thread, sequence);
    }
  }

  /**
   * A session-history record is found under its own id exactly when the thread's metadata leaves
   * `thread_id` alone.
   */
  lemma HistoryGetIff(threads: map<string, Snapshot>, s: Snapshot, e: Stored)
    requires s.id != "" && s.id in threads && threads[s.id] == s && ValidEvents(s.events) && e in s.events
    ensures Lookup(History, threads, RecordId(s.id, e.entity, e.sequence), e.entity) ==
      if KeepsKey(s, "thread_id", s.id) then Some(EventRecord(History, s, e)) else None
  {
    hide Matches, EventRecord, KeepsKey, RecordId, ParseRecordId;
    ParseRecordIdRoundTrip(s.id, e.entity, e.sequence);
    var records := Projection(History, s, e.entity);
    forall r | r in records && Matches(r, s.id, e.sequence)
      ensures KeepsKey(s, "thread_id", s.id) && r == EventRecord(History, s, e)
    {
      ProjectionMembers(History, s, s.events, e.entity, r);
      var f :| f in s.events && f.entity == e.entity && r == EventRecord(History, s, f);
      MatchesIff(History, s, f, e.sequence);
    }
    if KeepsKey(s, "thread_id", s.id) {
      MatchesIff(History, s, e, e.sequence);
      ProjectionMembers(History, s, s.events, e.entity, EventRecord(History, s, e));
      FirstMatchSome(records, s.id, e.sequence);
    } else {
      NoMatch(records, s.id, e.sequence);
    }
  }

  predicate OverridesSequence(s: Snapshot) {
    "sequence" in s.metadata && s.metadata["sequence"] != ""
  }

  /**
   * Usage records also read `sequence` from the thread's metadata. When it is set there, every id with
   * that sequence finds the thread's first usage record, and every other id finds nothing.
   */
  lemma UsageGetIff(threads: map<string, Snapshot>, s: Snapshot, e: Stored)
    requires s.id != "" && s.id in threads && threads[s.id] == s && ValidEvents(s.events) && e in s.events
    ensures var records := Projection(Usage, s, e.entity);
      Lookup(Usage, threads, RecordId(s.id, e.entity, e.sequence), e.entity) ==
        if !KeepsKey(s, "thread_id", s.id) then None
        else if !OverridesSequence(s) then Some(EventRecord(Usage, s, e))
        else if s.metadata["sequence"] != Itoa(e.sequence) then None
        else if records == [] then None else Some(records[0])
  {
    hide Matches, EventRecord, KeepsKey, RecordId, ParseRecordId, Itoa;
    ParseRecordIdRoundTrip(s.id, e.entity, e.sequence);
    var records := Projection(Usage, s, e.entity);
    forall r | r in records
      ensures Matches(r, s.id, e.sequence) ==> KeepsKey(s, "thread_id", s.id)
      ensures KeepsKey(s, "thread_id", s.id) && OverridesSequence(s) ==>
        (Matches(r, s.id, e.sequence) <==> s.metadata["sequence"] == Itoa(e.sequence))
      ensures !OverridesSequence(s) && Matches(r, s.id, e.sequence) ==> r == EventRecord(Usage, s, e)
    {
      ProjectionMembers(Usage, s, s.events, e.entity, r);
      var f :| f in s.events && f.entity == e.entity && r == EventRecord(Usage, s, f);
      MatchesIff(Usage, s, f, e.sequence);
    }
    MatchesIff(Usage, s, e, e.sequence);
    ProjectionMembers(Usage, s, s.events, e.entity, EventRecord(Usage, s, e));
    assert records != [];
    assert records[0] in records;
    if exists r :: r in records && Matches(r, s.id, e.sequence) {
      FirstMatchSome(records, s.id, e.sequence);
      if OverridesSequence(s) {
        FirstMatchAt(records, s.id, e.sequence, 0);
      }
    } else {
      NoMatch(records, s.id, e.sequence);
    }
  }

  const FirstUsage := Stored(1, UsageEntity, 0, "first")
  const SecondUsage := Stored(2, UsageEntity, 0, "second")
  const Renumbered := Snapshot("t", map["sequence" := "2"], [FirstUsage, SecondUsage])
  const Message := Stored(1, "session.message", 0, "text")
  const Disguised := Snapshot("t", map["thread_id" := "u"], [Message])

  lemma DigitsOf()
    ensures Itoa(1) == "1" && Itoa(2) == "2"
  {
  }

  /** A thread whose metadata says another `thread_id`: its message is not found under its own id. */
  lemma HiddenMessage()
    ensures Lookup(History, map["t" := Disguised], RecordId("t", "session.message", 1), "session.message") == None
  {
    hide Lookup, RecordId;
    HistoryGetIff(map["t" := Disguised], Disguised, Message);
  }

  /**
   * A thread whose metadata says `sequence` 2: the id of the second usage record finds the first one, and
   * the id of the first one finds nothing.
   */
  lemma RedirectedUsage()
    ensures Lookup(Usage, map["t" := Renumbered], RecordId("t", UsageEntity, 2), UsageEntity)
            == Some(EventRecord(Usage, Renumbered, FirstUsage))
    ensures Lookup(Usage, map["t" := Renumbered], RecordId("t", UsageEntity, 1), UsageEntity) == None
  {
    DigitsOf();
    assert Projection(Usage, Renumbered, UsageEntity)[0] == EventRecord(Usage, Renumbered, FirstUsage);
    hide Lookup, RecordId, EventRecord, Itoa;
    UsageGetIff(map["t" := Renumbered], Renumbered, FirstUsage);
    UsageGetIff(map["t" := Renumbered], Renumbered, SecondUsage);
  }

  predicate MetadataIs(src: Source, s: Snapshot, e: Stored, m: map<string, string>, key: string) {
    var own := key in s.metadata && s.metadata[key] != "";
    if key == "sequence" && (src.History? || !own) then key in m && m[key] == Itoa(e.sequence)
    else if own then key in m && m[key] == s.metadata[key]
    else if key == "thread_id" then key in m && m[key] == s.id
    else key !in m
  }

  /** The record of an event: its id, time and body, and what each metadata key holds. */
  ghost predicate RecordOf(src: Source, s: Snapshot, e: Stored, r: Record) {
    && IdText(r.id, s.id, e.entity, Itoa(e.sequence)) && r.time == e.time && r.body == e.body
    && forall key :: MetadataIs(src, s, e, r.metadata, key)
  }

  lemma RecordOfIff(src: Source, s: Snapshot, e: Stored, r: Record)
    ensures RecordOf(src, s, e, r) <==> r == EventRecord(src, s, e)
  {
    hide Itoa;
    var own := Metadata(src, s, e);
    MetadataHolds(src, s, e);
    if RecordOf(src, s, e, r) {
      forall key ensures key in r.metadata <==> key in own
                 ensures key in r.metadata ==> r.metadata[key] == own[key]
      {
        assert MetadataIs(src, s, e, r.metadata, key) && MetadataIs(src, s, e, own, key);
      }
      assert r.metadata == own;
    }
  }

  lemma MetadataHolds(src: Source, s: Snapshot, e: Stored)
    ensures forall key :: MetadataIs(src, s, e, Metadata(src, s, e), key)
  {
    hide Itoa;
    assert "thread_id"[0] != "sequence"[0];
  }

  /** Newest first; equal times are ordered by id, largest first. */
  predicate Newer(a: Record, b: Record) {
    a.time > b.time || (a.time == b.time && StrLess(b.id, a.id))
  }

  lemma NewerOrder()
    ensures StrictOrder(Newer)
  {
    StringOrder();
  }

  function ProjectAll(src: Source, snapshots: seq<Snapshot>, entity: string): seq<Record> {
    if snapshots == [] then []
    else Projection(src, snapshots[0], entity) + ProjectAll(src, snapshots[1..], entity)
  }

  predicate ValidSnapshots(snapshots: seq<Snapshot>) {
    && (forall i :: 0 <= i < |snapshots| ==> snapshots[i].id != "" && ValidEvents(snapshots[i].events))
    && (forall i, j :: 0 <= i < j < |snapshots| ==> snapshots[i].id != snapshots[j].id)
  }

  predicate DistinctIds(records: seq<Record>) {
    forall i, j :: 0 <= i < j < |records| ==> records[i].id != records[j].id
  }

  lemma {:induction false} ProjectAllMembers(src: Source, snapshots: seq<Snapshot>, entity: string, r: Record)
    requires r in ProjectAll(src, snapshots, entity)
    ensures exists s, e :: s in snapshots && e in s.events && e.entity == entity && r == EventRecord(src, s, e)
  {
    hide EventRecord;
    if r in Projection(src, snapshots[0], entity) {
      ProjectionMembers(src, snapshots[0], snapshots[0].events, entity, r);
    } else {
      ProjectAllMembers(src, snapshots[1..], entity, r);
    }
  }

  lemma {:induction false} ProjectionDistinct(src: Source, s: Snapshot, events: seq<Stored>, entity: string)
    requires s.id != "" && ValidEvents(events)
    ensures DistinctIds(ProjectEvents(src, s, events, entity))
  {
    if events != [] {
      hide RecordId, Metadata;
      ProjectionDistinct(src, s, events[1..], entity);
      var rest := ProjectEvents(src, s, events[1..], entity);
      forall r | r in rest && events[0].entity == entity ensures r.id != EventRecord(src, s, events[0]).id {
        ProjectionMembers(src, s, events[1..], entity, r);
        var e :| e in events[1..] && e.entity == entity && r == EventRecord(src, s, e);
        if r.id == EventRecord(src, s, events[0]).id {
          RecordIdInjective(s.id, e.sequence, s.id, events[0].sequence, entity);
        }
      }
    }
  }

  /** Over all threads, record ids are distinct. */
  lemma {:induction false} ProjectAllDistinct(src: Source, snapshots: seq<Snapshot>, entity: string)
    requires ValidSnapshots(snapshots)
    ensures DistinctIds(ProjectAll(src, snapshots, entity))
  {
    if snapshots != [] {
      hide RecordId, Metadata, ProjectEvents, ValidEvents;
      var s := snapshots[0];
      var head, rest := Projection(src, s, entity), ProjectAll(src, snapshots[1..], entity);
      ProjectionDistinct(src, s, s.events, entity);
      ProjectAllDistinct(src, snapshots[1..], entity);
      forall a, b | a in head && b in rest ensures a.id != b.id {
        DifferentThreads(src, snapshots, entity, a, b);
      }
    }
  }

  lemma DifferentThreads(src: Source, snapshots: seq<Snapshot>, entity: string, a: Record, b: Record)
    requires ValidSnapshots(snapshots) && snapshots != []
    requires a in Projection(src, snapshots[0], entity) && b in ProjectAll(src, snapshots[1..], entity)
    ensures a.id != b.id
  {
    hide RecordId, Metadata;
    var s := snapshots[0];
    ProjectionMembers(src, s, s.events, entity, a);
    var e :| e in s.events && e.entity == entity && a == EventRecord(src, s, e);
    ProjectAllMembers(src, snapshots[1..], entity, b);
    var t, f :| t in snapshots[1..] && f in t.events && f.entity == entity && b == EventRecord(src, t, f);
    assert s.id != t.id && ValidEvents(t.events);
    if a.id == b.id {
      RecordIdInjective(s.id, e.sequence, t.id, f.sequence, entity);
    }
  }

  lemma DistinctComparable(records: seq<Record>)
    requires DistinctIds(records)
    ensures Comparable(records, Newer)
  {
    forall i, j | 0 <= i < j < |records| ensures Newer(records[i], records[j]) || Newer(records[j], records[i]) {
      StrLessTotal(records[i].id, records[j].id);
    }
  }

  lemma {:induction false} ProjectAllWithout(src: Source, snapshots: seq<Snapshot>, entity: string, i: nat)
    requires i < |snapshots|
    ensures multiset(ProjectAll(src, snapshots, entity)) ==
            multiset(Projection(src, snapshots[i], entity))
            + multiset(ProjectAll(src, snapshots[..i] + snapshots[i + 1..], entity))
  {
    hide Projection;
    if i == 0 {
      assert snapshots[..0] + snapshots[1..] == snapshots[1..];
    } else {
      ProjectAllWithout(src, snapshots[1..], entity, i - 1);
      var without := snapshots[..i] + snapshots[i + 1..];
      assert without[1..] == snapshots[1..][..i - 1] + snapshots[1..][i..];
    }
  }

  lemma Removed<T>(s: seq<T>, i: nat)
    requires i < |s|
    ensures multiset(s[..i] + s[i + 1..]) == multiset(s) - multiset{s[i]}
  {
    assert s == s[..i] + [s[i]] + s[i + 1..];
  }

  lemma {:induction false} ProjectAllPermuted(src: Source, a: seq<Snapshot>, b: seq<Snapshot>, entity: string)
    requires multiset(a) == multiset(b)
    ensures multiset(ProjectAll(src, a, entity)) == multiset(ProjectAll(src, b, entity))
  {
    if a == [] {
      assert |multiset(b)| == |b|;
    } else {
      hide ProjectAll, Projection;
      assert a[..0] + a[1..] == a[1..];
      var i := TakenOut(a, b);
      ProjectAllPermuted(src, a[1..], b[..i] + b[i + 1..], entity);
      ProjectAllWithout(src, a, entity, 0);
      ProjectAllWithout(src, b, entity, i);
    }
  }

  /** The first element of one list, taken out of the other. */
  lemma TakenOut<T>(a: seq<T>, b: seq<T>) returns (i: nat)
    requires a != [] && multiset(a) == multiset(b)
    ensures i < |b| && b[i] == a[0] && multiset(a[1..]) == multiset(b[..i] + b[i + 1..])
  {
    assert a[0] in multiset(b);
    i :| 0 <= i < |b| && b[i] == a[0];
    assert a[..0] + a[1..] == a[1..];
    Removed(a, 0);
    Removed(b, i);
  }

  /** The sorted records of all threads do not depend on the order in which the store lists the threads. */
  lemma ListingOrderIrrelevant(src: Source, a: seq<Snapshot>, b: seq<Snapshot>, entity: string)
    requires ValidSnapshots(a) && ValidSnapshots(b) && multiset(a) == multiset(b)
    ensures Sort(ProjectAll(src, a, entity), Newer) == Sort(ProjectAll(src, b, entity), Newer)
  {
    hide ProjectAll;
    ProjectAllDistinct(src, a, entity);
    ProjectAllDistinct(src, b, entity);
    DistinctComparable(ProjectAll(src, a, entity));
    DistinctComparable(ProjectAll(src, b, entity));
    ProjectAllPermuted(src, a, b, entity);
    NewerOrder();
    SortCanonical(ProjectAll(src, a, entity), ProjectAll(src, b, entity), Newer);
  }

  function Filtered(records: seq<Record>, keep: Record -> bool): (r: seq<Record>)
    ensures |r| <= |records|
  {
    if records == [] then []
    else Filtered(records[..|records| - 1], keep)
         + if keep(records[|records| - 1]) then [records[|records| - 1]] else []
  }

  /** The filter that appends into the slice it reads from: the write position never passes the read position. */
  method FilterInPlace(a: array<Record>, keep: Record -> bool) returns (n: nat)
    modifies a
    ensures n <= a.Length && a[..n] == Filtered(old(a[..]), keep)
  {
    n := 0;
    ghost var all := a[..];
    for i := 0 to a.Length
      invariant n <= i && a[..n] == Filtered(all[..i], keep)
      invariant forall k :: i <= k < a.Length ==> a[k] == all[k]
    {
      var record := a[i];
      assert all[..i + 1][..i] == all[..i];
      if keep(record) {
        a[n] := record;
        assert a[..n + 1] == a[..n] + [record];
        n := n + 1;
      }
    }
    assert all[..a.Length] == all;
  }
}
