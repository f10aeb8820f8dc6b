/** Cursor paging: the slice form and the reslicing form of one page function, and what a crawl collects. */
module Paging {
  import opened Wrappers
  import opened GoStrings
  import opened Sorting
  import opened RecordStore

  /** The listings that hand out cursors. */
  datatype Listing = UsageList | UsageCorpus | HistoryCorpus | CatalogList | StoredRelation

  datatype Page<T> = Page(records: seq<T>, total: nat, next: string, complete: bool)

  function PageLimit(listing: Listing, limit: int): (n: int)
    ensures n > 0
  {
    match listing
    case UsageList | UsageCorpus => if limit <= 0 then 25 else if limit > 250 then 250 else limit
    case HistoryCorpus => if limit <= 0 || limit > 100 then 100 else limit
    case CatalogList | StoredRelation => if limit <= 0 then 10 else limit
  }

  /** The sizes that a page has by default, and the largest ones. */
  lemma PageSizes(n: int)
    ensures 1 <= n <= 100 ==> forall listing :: PageLimit(listing, n) == n
    ensures n > 100 ==>
      PageLimit(CatalogList, n) == PageLimit(StoredRelation, n) == n && PageLimit(HistoryCorpus, n) == 100
    ensures n > 250 ==> PageLimit(UsageList, n) == PageLimit(UsageCorpus, n) == 250
    ensures n <= 0 ==> PageLimit(UsageList, n) == PageLimit(UsageCorpus, n) == 25
    ensures n <= 0 ==> PageLimit(HistoryCorpus, n) == 100 && PageLimit(CatalogList, n) == PageLimit(StoredRelation, n) == 10
  {
  }

  /** The catalog parses the cursor as it came; the other listings trim it first. */
  function PageOffset(listing: Listing, cursor: string): Option<nat> {
    if Blank(cursor) then Some(0)
    else
      match Atoi(if listing.CatalogList? then cursor else TrimSpace(cursor))
      case None => None
      case Some(n) => if n < 0 then None else Some(n)
  }

  function Least(a: int, b: int): int {
    if a < b then a else b
  }

  /** The page of `limit` records from `offset`, with a cursor for the rest. */
  function PageAt<T>(listing: Listing, records: seq<T>, offset: nat, limit: int): Page<T>
    requires limit > 0
  {
    var start := Least(offset, |records|);
    var end := Least(offset + limit, |records|);
    var total := match listing
      case UsageList | CatalogList => |records|
      case UsageCorpus | HistoryCorpus => 0
      case StoredRelation => end - start;
    Page(records[start..end], total, if end < |records| then Itoa(end) else "", end == |records|)
  }

  function Fetch<T>(listing: Listing, records: seq<T>, limit: int, cursor: string): Result<Page<T>, string> {
    match PageOffset(listing, cursor)
    case None => Err("invalid cursor")
    case Some(offset) => Ok(PageAt(listing, records, offset, PageLimit(listing, limit)))
  }

  /** The paging tail of the usage `List` and of both `Corpus` methods. */
  method SlicePage<T>(listing: Listing, records: seq<T>, limit: int, cursor: string)
      returns (r: Result<Page<T>, string>)
    requires listing.UsageList? || listing.UsageCorpus? || listing.HistoryCorpus?
    ensures r == Fetch(listing, records, limit, cursor)
  {
    hide Itoa, Atoi, TrimSpace;
    var offset := PageOffset(listing, cursor);
    if offset.None? {
      return Err("invalid cursor");
    }
    var size := PageLimit(listing, limit);
    var total := if listing.UsageList? then |records| else 0;
    if offset.value >= |records| {
      assert records[|records|..|records|] == [];
      return Ok(Page([], total, "", true));
    }
    var end := offset.value + size;
    if end > |records| {
      end := |records|;
    }
    var complete := end >= |records|;
    var next := "";
    if !complete {
      next := Itoa(end);
    }
    r := Ok(Page(records[offset.value..end], total, next, complete));
  }

  /** `paginateCatalogRecords` and the paging tail of `relationDataStore`. */
  method ReslicePage<T>(listing: Listing, all: seq<T>, limit: int, cursor: string)
      returns (r: Result<Page<T>, string>)
    requires listing.CatalogList? || listing.StoredRelation?
    ensures r == Fetch(listing, all, limit, cursor)
  {
    hide Itoa, Atoi, TrimSpace;
    var offset := PageOffset(listing, cursor);
    if offset.None? {
      return Err("invalid cursor");
    }
    var size := PageLimit(listing, limit);
    var records, next := all, "";
    if offset.value >= |records| {
      assert all[|all|..|all|] == [];
      return Ok(Page([], if listing.CatalogList? then |all| else 0, "", true));
    }
    records := records[offset.value..];
    if |records| > size {
      records := records[..size];
      next := Itoa(offset.value + size);
    }
    ghost var end := Least(offset.value + size, |all|);
    assert records == all[offset.value..end];
    r := Ok(Page(records, if listing.CatalogList? then |all| else |records|, next, next == ""));
    assert r.value == PageAt(listing, all, offset.value, size);
  }

  function Collected<T>(pages: seq<Page<T>>): seq<T> {
    if pages == [] then [] else pages[0].records + Collected(pages[1..])
  }

  function Totals<T>(pages: seq<Page<T>>): nat {
    if pages == [] then 0 else pages[0].total + Totals(pages[1..])
  }

  /** One call of a crawl: the records the listing computed for that call, and the limit asked for. */
  datatype Call<T> = Call(records: seq<T>, limit: int)

  /** Following `next` until a page is complete or the calls are used up. */
  function Crawl<T>(listing: Listing, calls: seq<Call<T>>, cursor: string): Result<seq<Page<T>>, string> {
    if calls == [] then Ok([])
    else
      match Fetch(listing, calls[0].records, calls[0].limit, cursor)
      case Err(e) => Err(e)
      case Ok(page) =>
        if page.complete then Ok([page])
        else
          match Crawl(listing, calls[1..], page.next)
          case Err(e) => Err(e)
          case Ok(rest) => Ok([page] + rest)
  }

  /** A printed number is a cursor unless it is negative. */
  lemma PrintedCursor(listing: Listing, n: int)
    requires MinInt64 <= n <= MaxInt64
    ensures PageOffset(listing, Itoa(n)) == if n < 0 then None else Some(n)
  {
    hide Itoa, Atoi, TrimSpace;
    TrimSpaceFixed(Itoa(n));
    AtoiItoa(n);
  }

  lemma EmptyOffset(listing: Listing)
    ensures PageOffset(listing, "") == Some(0)
  {
  }

  /** Every call sees the same records. */
  predicate SameRecords<T(==)>(calls: seq<Call<T>>, records: seq<T>) {
    forall i :: 0 <= i < |calls| ==> calls[i].records == records
  }

  /** What a crawl has collected: every page but a complete last one is full and hands out a cursor. */
  ghost predicate Pages<T>(listing: Listing, pages: seq<Page<T>>, calls: seq<Call<T>>) {
    && |pages| <= |calls|
    && forall i :: 0 <= i < |pages| ==>
         if pages[i].complete then i == |pages| - 1 && pages[i].next == ""
         else |pages[i].records| == PageLimit(listing, calls[i].limit) && pages[i].next != ""
  }

  lemma PageStep<T>(listing: Listing, records: seq<T>, offset: nat, limit: int)
    requires limit > 0 && offset <= |records|
    ensures var page := PageAt(listing, records, offset, limit);
      && (page.complete <==> |records| <= offset + limit)
      && (page.complete ==> page.records == records[offset..] && page.next == "")
      && (!page.complete ==>
            && |page.records| == limit && page.next == Itoa(offset + limit) != ""
            && records[offset..] == page.records + records[offset + limit..])
      && (listing.StoredRelation? ==> page.total == |page.records|)
  {
    hide Itoa;
  }

  predicate Finished<T>(pages: seq<Page<T>>) {
    pages != [] && pages[|pages| - 1].complete
  }

  /** `pages` begin to collect `left`, and are finished exactly when they have all of it. */
  ghost predicate Gathered<T>(listing: Listing, calls: seq<Call<T>>, left: seq<T>, pages: seq<Page<T>>) {
    && Pages(listing, pages, calls)
    && Collected(pages) <= left
    && (Finished(pages) <==> calls != [] && Collected(pages) == left)
    && (|calls| > |left| ==> Collected(pages) == left)
    && (listing.StoredRelation? ==> Totals(pages) == |Collected(pages)|)
  }

  lemma GatheredNothing<T>(listing: Listing, left: seq<T>)
    ensures Gathered(listing, [], left, [])
  {
  }

  lemma GatheredLast<T>(listing: Listing, calls: seq<Call<T>>, page: Page<T>)
    requires calls != [] && page.complete && page.next == ""
    requires listing.StoredRelation? ==> page.total == |page.records|
    ensures Gathered(listing, calls, page.records, [page])
  {
    assert Collected([page]) == page.records + [];
  }

  lemma GatheredMore<T>(listing: Listing, calls: seq<Call<T>>, page: Page<T>, left: seq<T>, rest: seq<Page<T>>)
    requires calls != [] && !page.complete && page.next != ""
    requires |page.records| == PageLimit(listing, calls[0].limit) && left != []
    requires listing.StoredRelation? ==> page.total == |page.records|
    requires Gathered(listing, calls[1..], left, rest)
    ensures Gathered(listing, calls, page.records + left, [page] + rest)
  {
    hide PageLimit;
    var pages := [page] + rest;
    assert pages[1..] == rest;
    assert Pages(listing, pages, calls) by {
      hide Collected, Totals;
      forall i | 0 < i < |pages| ensures pages[i] == rest[i - 1] && calls[i] == calls[1..][i - 1] {}
    }
    assert Finished(pages) <==> Finished(rest);
    assert Collected(pages) == page.records + Collected(rest);
    assert Collected(pages) == page.records + left <==> Collected(rest) == left by {
      assert (page.records + Collected(rest))[|page.records|..] == Collected(rest);
      assert (page.records + left)[|page.records|..] == left;
    }
  }

  lemma {:induction false} CrawlFrom<T>(listing: Listing, calls: seq<Call<T>>, records: seq<T>, cursor: string, offset: nat)
    requires SameRecords(calls, records) && offset <= |records| <= MaxInt64
    requires PageOffset(listing, cursor) == Some(offset)
    ensures Crawl(listing, calls, cursor).Ok?
    ensures Gathered(listing, calls, records[offset..], Crawl(listing, calls, cursor).value)
  {
    hide PageOffset, PageLimit, PageAt, Gathered;
    if calls == [] {
      GatheredNothing(listing, records[offset..]);
    } else {
      var size := PageLimit(listing, calls[0].limit);
      var page := PageAt(listing, records, offset, size);
      PageStep(listing, records, offset, size);
      if page.complete {
        GatheredLast(listing, calls, page);
      } else {
        PrintedCursor(listing, offset + size);
        CrawlFrom(listing, calls[1..], records, page.next, offset + size);
        GatheredMore(listing, calls, page, records[offset + size..], Crawl(listing, calls[1..], page.next).value);
      }
    }
  }

  /**
   * From the empty cursor, with any limit on each call, the pages collect the records exactly once and
   * in order; a page is complete exactly when everything has been collected, and one call more than
   * there are records always gets that far.
   */
  lemma CrawlCollects<T>(listing: Listing, calls: seq<Call<T>>, records: seq<T>)
    requires SameRecords(calls, records) && |records| <= MaxInt64
    ensures var crawl := Crawl(listing, calls, "");
      && crawl.Ok?
      && Pages(listing, crawl.value, calls)
      && Collected(crawl.value) <= records
      && (Finished(crawl.value) <==> calls != [] && Collected(crawl.value) == records)
      && (|calls| > |records| ==> Collected(crawl.value) == records)
  {
    hide Crawl, Collected, Totals, Pages, PageOffset;
    EmptyOffset(listing);
    assert records[0..] == records;
    CrawlFrom(listing, calls, records, "", 0);
  }

  /** The page of a stored relation covers everything. */
  predicate WholeRelation<T>(records: seq<T>, limit: int, cursor: string) {
    records == [] ||
    (PageOffset(StoredRelation, cursor) == Some(0) && |records| <= PageLimit(StoredRelation, limit))
  }

  /**
   * The total of a stored relation is the number of its records exactly when one page holds them all; the
   * total of a list is that number on every page.
   */
  lemma RelationTotalIff<T>(records: seq<T>, limit: int, cursor: string)
    requires PageOffset(StoredRelation, cursor).Some?
    ensures Fetch(StoredRelation, records, limit, cursor).value.total == |records|
            <==> WholeRelation(records, limit, cursor)
    ensures forall listing: Listing :: (listing.UsageList? || listing.CatalogList?)
              && Fetch(listing, records, limit, cursor).Ok?
              ==> Fetch(listing, records, limit, cursor).value.total == |records|
    ensures forall listing: Listing :: (listing.UsageCorpus? || listing.HistoryCorpus?)
              && Fetch(listing, records, limit, cursor).Ok?
              ==> Fetch(listing, records, limit, cursor).value.total == 0
  {
    hide PageOffset, Itoa;
  }

  /** Two related records, fetched one at a time: the total says one. */
  lemma RelationTotalExample()
    ensures Fetch(StoredRelation, ["a", "b"], 1, "") == Ok(Page(["a"], 1, "1", false))
    ensures Fetch(CatalogList, ["a", "b"], 1, "") == Ok(Page(["a"], 2, "1", false))
  {
    EmptyOffset(StoredRelation);
    EmptyOffset(CatalogList);
    assert Itoa(1) == "1";
    assert ["a", "b"][0..1] == ["a"];
  }

  /** Over a crawl, though, the totals of a stored relation add up to the number of its records. */
  lemma RelationTotalsAddUp<T>(calls: seq<Call<T>>, records: seq<T>)
    requires SameRecords(calls, records) && |records| < |calls| && |records| <= MaxInt64
    ensures var crawl := Crawl(StoredRelation, calls, "");
      crawl.Ok? && Totals(crawl.value) == |records|
  {
    hide Crawl, Collected, Totals, Pages, PageOffset;
    EmptyOffset(StoredRelation);
    assert records[0..] == records;
    CrawlFrom(StoredRelation, calls, records, "", 0);
  }

  /**
   * The catalog reads a cursor as the other listings do exactly when the cursor is trimmed, blank, or no
   * number for them either.
   */
  lemma CatalogCursorIff(listing: Listing, cursor: string)
    requires !listing.CatalogList?
    ensures PageOffset(CatalogList, cursor) == PageOffset(listing, cursor) <==>
            Trimmed(cursor) || Blank(cursor) || PageOffset(listing, cursor) == None
  {
    hide Atoi, TrimSpace;
    TrimSpaceFixed(cursor);
    if Atoi(cursor).Some? {
      AtoiTrimmed(cursor);
    }
  }

  /** As the caller trims, every cursor it is given means the same to all listings. */
  lemma CallerTrims(listing: Listing, cursor: string)
    ensures PageOffset(CatalogList, TrimSpace(cursor)) == PageOffset(listing, TrimSpace(cursor))
    ensures !listing.CatalogList? ==> PageOffset(listing, TrimSpace(cursor)) == PageOffset(listing, cursor)
  {
    TrimSpaceFixed(cursor);
    TrimSpaceFixed(TrimSpace(cursor));
    hide Atoi, TrimSpace;
  }

  /** Only trimmed strings are numbers. */
  lemma AtoiTrimmed(s: string)
    requires Atoi(s).Some?
    ensures Trimmed(s)
  {
    hide DecimalValue;
    DecimalEnds(if s != "" && (s[0] == '-' || s[0] == '+') then s[1..] else s);
  }

  lemma {:induction false} DecimalEnds(s: string)
    requires DecimalValue(s).Some?
    ensures s != "" && '0' <= s[0] <= '9' && '0' <= s[|s| - 1] <= '9'
  {
    if |s| > 1 {
      DecimalEnds(s[..|s| - 1]);
    }
  }

  /** The records one call of a thread-backed listing pages through. */
  function Listed(src: Source, snapshots: seq<Snapshot>, entity: string, keep: Record -> bool): seq<Record> {
    Sort(Filtered(ProjectAll(src, snapshots, entity), keep), Newer)
  }

  lemma {:induction false} FilteredCount(records: seq<Record>, keep: Record -> bool, r: Record)
    ensures multiset(Filtered(records, keep))[r] == if keep(r) then multiset(records)[r] else 0
  {
    if records != [] {
      var last := |records| - 1;
      FilteredCount(records[..last], keep, r);
      assert records == records[..last] + [records[last]];
    }
  }

  lemma {:induction false} FilteredDistinct(records: seq<Record>, keep: Record -> bool)
    requires DistinctIds(records)
    ensures DistinctIds(Filtered(records, keep))
  {
    if records != [] {
      var last := |records| - 1;
      FilteredDistinct(records[..last], keep);
      var head := Filtered(records[..last], keep);
      forall r | r in head ensures r.id != records[last].id {
        FilteredCount(records[..last], keep, r);
        assert r in multiset(head);
        assert r in multiset(records[..last]);
      }
    }
  }

  ghost predicate ListedFrom(src: Source, snapshots: seq<Snapshot>, entity: string, r: Record) {
    exists s, e :: s in snapshots && e in s.events && e.entity == entity && RecordOf(src, s, e, r)
  }

  /** What is listed: the records of all events of the entity, in all threads, that match. */
  lemma ListedIff(src: Source, snapshots: seq<Snapshot>, entity: string, keep: Record -> bool, r: Record)
    ensures r in Listed(src, snapshots, entity, keep) <==> keep(r) && ListedFrom(src, snapshots, entity, r)
  {
    hide ProjectAll, Newer, RecordOf, EventRecord;
    var all := ProjectAll(src, snapshots, entity);
    SameElements(Listed(src, snapshots, entity, keep), Filtered(all, keep));
    FilteredCount(all, keep, r);
    assert r in Filtered(all, keep) <==> r in multiset(Filtered(all, keep));
    assert r in all <==> r in multiset(all);
    if r in all {
      ProjectAllMembers(src, snapshots, entity, r);
      var s, e :| s in snapshots && e in s.events && e.entity == entity && r == EventRecord(src, s, e);
      RecordOfIff(src, s, e, r);
    }
    if s, e :| s in snapshots && e in s.events && e.entity == entity && RecordOf(src, s, e, r) {
      RecordOfIff(src, s, e, r);
      ProjectAllHas(src, snapshots, entity, s, e);
    }
  }

  lemma {:induction false} ProjectAllHas(src: Source, snapshots: seq<Snapshot>, entity: string, s: Snapshot, e: Stored)
    requires s in snapshots && e in s.events && e.entity == entity
    ensures EventRecord(src, s, e) in ProjectAll(src, snapshots, entity)
  {
    hide EventRecord;
    if s == snapshots[0] {
      ProjectionMembers(src, s, s.events, entity, EventRecord(src, s, e));
    } else {
      assert snapshots == [snapshots[0]] + snapshots[1..];
      ProjectAllHas(src, snapshots[1..], entity, s, e);
    }
  }

  /** Newest first; records of the same time by id, largest first. */
  lemma ListedNewest(src: Source, snapshots: seq<Snapshot>, entity: string, keep: Record -> bool, i: nat, j: nat)
    requires ValidSnapshots(snapshots) && i < j < |Listed(src, snapshots, entity, keep)|
    ensures var a, b := Listed(src, snapshots, entity, keep)[i], Listed(src, snapshots, entity, keep)[j];
      a.time >= b.time && (a.time == b.time ==> StrLess(b.id, a.id))
  {
    hide Listed, StrLess, ValidSnapshots;
    ListedCanonical(src, snapshots, snapshots, entity, keep);
    assert Newer(Listed(src, snapshots, entity, keep)[i], Listed(src, snapshots, entity, keep)[j]);
  }

  lemma ListedCanonical(src: Source, a: seq<Snapshot>, b: seq<Snapshot>, entity: string, keep: Record -> bool)
    requires ValidSnapshots(a) && ValidSnapshots(b) && multiset(a) == multiset(b)
    ensures Listed(src, a, entity, keep) == Listed(src, b, entity, keep)
    ensures Ascending(Listed(src, a, entity, keep), Newer)
  {
    hide ProjectAll, Filtered, Newer, ValidSnapshots;
    var x, y := ProjectAll(src, a, entity), ProjectAll(src, b, entity);
    ProjectAllDistinct(src, a, entity);
    ProjectAllDistinct(src, b, entity);
    FilteredDistinct(x, keep);
    FilteredDistinct(y, keep);
    DistinctComparable(Filtered(x, keep));
    DistinctComparable(Filtered(y, keep));
    ProjectAllPermuted(src, a, b, entity);
    forall r ensures multiset(Filtered(x, keep))[r] == multiset(Filtered(y, keep))[r] {
      FilteredCount(x, keep, r);
      FilteredCount(y, keep, r);
    }
    NewerOrder();
    SortAscending(Filtered(x, keep), Newer);
    SortCanonical(Filtered(x, keep), Filtered(y, keep), Newer);
  }

  /** A call of a thread-backed listing: the order in which the store listed the threads, and the limit. */
  datatype ThreadCall = ThreadCall(snapshots: seq<Snapshot>, limit: int)

  function Calls(src: Source, calls: seq<ThreadCall>, entity: string, keep: Record -> bool): seq<Call<Record>> {
    seq(|calls|, i requires 0 <= i < |calls| => Call(Listed(src, calls[i].snapshots, entity, keep), calls[i].limit))
  }

  /**
   * Even when the store lists the threads in a different order on every call, a crawl collects the
   * matching records of all threads, each once, newest first.
   */
  lemma CrawlThreads(listing: Listing, src: Source, calls: seq<ThreadCall>, snapshots: seq<Snapshot>,
                     entity: string, keep: Record -> bool)
    requires ValidSnapshots(snapshots) && |ProjectAll(src, snapshots, entity)| <= MaxInt64
    requires forall i :: 0 <= i < |calls| ==>
      ValidSnapshots(calls[i].snapshots) && multiset(calls[i].snapshots) == multiset(snapshots)
    requires |calls| > |ProjectAll(src, snapshots, entity)|
    ensures var crawl := Crawl(listing, Calls(src, calls, entity, keep), "");
      && crawl.Ok?
      && Ascending(Collected(crawl.value), Newer)
      && forall r :: multiset(Collected(crawl.value))[r] ==
           if keep(r) then multiset(ProjectAll(src, snapshots, entity))[r] else 0
  {
    var all, records := ProjectAll(src, snapshots, entity), Listed(src, snapshots, entity, keep);
    assert multiset(records) == multiset(Filtered(all, keep)) && |records| == |Filtered(all, keep)|;
    hide ProjectAll, Listed, Newer, Crawl, Collected, ValidSnapshots;
    forall i | 0 <= i < |calls| ensures Calls(src, calls, entity, keep)[i].records == records {
      ListedCanonical(src, calls[i].snapshots, snapshots, entity, keep);
    }
    ListedCanonical(src, snapshots, snapshots, entity, keep);
    forall r ensures multiset(records)[r] == if keep(r) then multiset(all)[r] else 0 {
      FilteredCount(all, keep, r);
    }
    CrawlCollects(listing, Calls(src, calls, entity, keep), records);
  }
}

/** Overlapping windows over a record's text. */
module TextChunks {
  import opened GoStrings

  datatype Part = Part(text: string, start: nat, end: nat)

  function Target(target: int): (t: int)
    ensures t > 0
  {
    if target <= 0 then 900 else target
  }

  function Overlap(target: int, overlap: int): (o: int)
    ensures 0 <= o < Target(target)
  {
    if overlap < 0 then 0
    else if overlap >= Target(target) then Target(target) / 5
    else overlap
  }

  /** The sizes that odd arguments fall back to. */
  lemma FallbackSizes()
    ensures Target(0) == Target(-1) == 900 && Target(1) == 1
    ensures Overlap(100, -1) == 0 && Overlap(100, 99) == 99 && Overlap(100, 100) == 20 && Overlap(0, 900) == 180
  {
  }

  /** The window of at most `target` characters from `start`, its text trimmed. */
  function Window(text: string, start: nat, target: int): Part
    requires start < |text| && target > 0
  {
    var end := if start + target > |text| then |text| else start + target;
    Part(TrimSpace(text[start..end]), start, end)
  }

  predicate IsWindow(text: string, part: Part, target: int)
    requires target > 0
  {
    part.start < |text| && part == Window(text, part.start, target)
  }

  predicate Follows(parts: seq<Part>, i: nat, overlap: int)
    requires i + 1 < |parts|
  {
    parts[i + 1].start == parts[i].end - overlap
  }

  /** Windows from the beginning of the text, each starting `overlap` before the end of the one before. */
  predicate Windows(text: string, parts: seq<Part>, target: int, overlap: int)
    requires target > 0
  {
    && (parts != [] ==> parts[0].start == 0)
    && (forall i :: 0 <= i < |parts| ==> IsWindow(text, parts[i], target))
    && (forall i :: 0 <= i < |parts| - 1 ==> Follows(parts, i, overlap))
    && (forall i :: 0 <= i < |parts| - 1 ==> parts[i].end < |text|)
  }

  /** The windows reach the end of the text with the last one, and only then. */
  predicate Chunked(text: string, parts: seq<Part>, target: int, overlap: int)
    requires target > 0
  {
    && Windows(text, parts, target, overlap)
    && (text == "" <==> parts == [])
    && (parts != [] ==> parts[|parts| - 1].end == |text|)
  }

  predicate Next(parts: seq<Part>, start: int, overlap: int) {
    start == if parts == [] then 0 else parts[|parts| - 1].end - overlap
  }

  lemma OneMoreWindow(text: string, parts: seq<Part>, start: nat, target: int, overlap: int)
    requires target > 0 && start < |text| && Windows(text, parts, target, overlap) && Next(parts, start, overlap)
    requires parts != [] ==> parts[|parts| - 1].end < |text|
    ensures Windows(text, parts + [Window(text, start, target)], target, overlap)
  {
    var part := Window(text, start, target);
    var more := parts + [part];
    assert IsWindow(text, part, target) && part.start == start;
    hide IsWindow, TrimSpace, Window, Follows;
    forall i | 0 <= i < |more| - 1 ensures Follows(more, i, overlap) && more[i].end < |text| {
      if i < |parts| - 1 {
        FollowsPrefix(parts, part, i, overlap);
      } else {
        FollowsLast(parts, part, overlap);
      }
    }
    forall i | 0 <= i < |more| ensures IsWindow(text, more[i], target) {
      assert i < |parts| ==> more[i] == parts[i];
    }
  }

  lemma FollowsPrefix(parts: seq<Part>, part: Part, i: nat, overlap: int)
    requires i + 1 < |parts| && Follows(parts, i, overlap)
    ensures Follows(parts + [part], i, overlap)
  {
  }

  lemma FollowsLast(parts: seq<Part>, part: Part, overlap: int)
    requires parts != [] && part.start == parts[|parts| - 1].end - overlap
    ensures Follows(parts + [part], |parts| - 1, overlap)
  {
  }

  lemma NoWindows(text: string, target: int, overlap: int)
    requires target > 0
    ensures Windows(text, [], target, overlap)
  {
  }

  lemma WindowIs(text: string, start: nat, end: nat, target: int)
    requires start < |text| && target > 0 && end == if start + target > |text| then |text| else start + target
    ensures Window(text, start, target) == Part(TrimSpace(text[start..end]), start, end)
  {
  }

  method BoundedTextChunks(raw: string, targetArg: int, overlapArg: int) returns (out: seq<Part>)
    ensures Chunked(TrimSpace(raw), out, Target(targetArg), Overlap(targetArg, overlapArg))
  {
    hide TrimSpace, Windows, Window;
    var text := TrimSpace(raw);
    out := [];
    NoWindows(text, Target(targetArg), Overlap(targetArg, overlapArg));
    if |text| == 0 {
      return;
    }
    var target, overlap := targetArg, overlapArg;
    if target <= 0 {
      target := 900;
    }
    if overlap < 0 {
      overlap := 0;
    }
    if overlap >= target {
      overlap := target / 5;
    }
    assert target == Target(targetArg) && overlap == Overlap(targetArg, overlapArg);
    var start := 0;
    while start < |text|
      invariant 0 <= start < |text|
      invariant Windows(text, out, target, overlap) && Next(out, start, overlap)
      invariant out != [] ==> out[|out| - 1].end < |text|
      decreases |text| - start
    {
      var end := start + target;
      if end > |text| {
        end := |text|;
      }
      OneMoreWindow(text, out, start, target, overlap);
      WindowIs(text, start, end, target);
      out := out + [Part(TrimSpace(text[start..end]), start, end)];
      if end == |text| {
        break;
      }
      start := end - overlap;
    }
  }

  lemma {:induction false} WindowStarts(text: string, parts: seq<Part>, target: int, overlap: int, i: nat)
    requires 0 <= overlap < target && Chunked(text, parts, target, overlap) && i < |parts|
    ensures parts[i].start == i * (target - overlap)
  {
    hide TrimSpace;
    if i > 0 {
      assert Follows(parts, i - 1, overlap) && IsWindow(text, parts[i - 1], target);
      WindowStarts(text, parts, target, overlap, i - 1);
      assert (i - 1) * (target - overlap) + (target - overlap) == i * (target - overlap);
    }
  }

  function CeilDiv(a: int, b: int): int
    requires b > 0
  {
    (a + b - 1) / b
  }

  lemma CeilDivIs(a: int, b: int, q: int)
    requires b > 0 && (q - 1) * b < a <= q * b
    ensures CeilDiv(a, b) == q
  {
    var x := a + b - 1;
    assert q * b <= x < q * b + b;
    var d, m := x / b, x % b;
    assert x == d * b + m;
    if d < q {
      ScaleLeq(d + 1, q, b);
    } else if d > q {
      ScaleLeq(q + 1, d, b);
    }
  }

  lemma ScaleLeq(x: int, y: int, b: int)
    requires x <= y && b > 0
    ensures x * b <= y * b
  {
  }

  /** The number of windows, for every text and every effective target and overlap. */
  lemma WindowCount(text: string, parts: seq<Part>, target: int, overlap: int)
    requires 0 <= overlap < target && Chunked(text, parts, target, overlap)
    ensures |parts| ==
      if |text| == 0 then 0
      else if |text| <= target then 1
      else 1 + CeilDiv(|text| - target, target - overlap)
  {
    hide TrimSpace, CeilDiv;
    if parts != [] {
      var step, last := target - overlap, |parts| - 1;
      WindowStarts(text, parts, target, overlap, last);
      if last > 0 {
        WindowStarts(text, parts, target, overlap, last - 1);
        CeilDivIs(|text| - target, step, last);
      }
    }
  }

  /** Window positions and texts depend only on the trimmed text and the effective sizes. */
  lemma ChunksUnique(text: string, a: seq<Part>, b: seq<Part>, target: int, overlap: int)
    requires 0 <= overlap < target && Chunked(text, a, target, overlap) && Chunked(text, b, target, overlap)
    ensures a == b
  {
    hide TrimSpace, CeilDiv;
    WindowCount(text, a, target, overlap);
    WindowCount(text, b, target, overlap);
    forall i | 0 <= i < |a| ensures a[i] == b[i] {
      WindowStarts(text, a, target, overlap, i);
      WindowStarts(text, b, target, overlap, i);
    }
  }

  predicate LongEnough(text: string, part: Part, overlap: nat) {
    part.start + overlap <= part.end <= |text|
  }

  predicate AllLongEnough(text: string, parts: seq<Part>, overlap: nat) {
    forall i :: 0 <= i < |parts| ==> LongEnough(text, parts[i], if i == 0 then 0 else overlap)
  }

  /** Putting the windows back together: all of the first, and of every other one what follows its overlap. */
  function Rebuilt(text: string, parts: seq<Part>, overlap: nat): string
    requires AllLongEnough(text, parts, overlap)
  {
    if parts == [] then ""
    else
      var last := parts[|parts| - 1];
      assert LongEnough(text, last, 0);
      Rebuilt(text, parts[..|parts| - 1], overlap)
        + text[last.start..last.end][if |parts| == 1 then 0 else overlap..]
  }

  lemma WindowsLongEnough(text: string, parts: seq<Part>, target: int, overlap: nat)
    requires overlap < target && Chunked(text, parts, target, overlap)
    ensures AllLongEnough(text, parts, overlap)
  {
    hide TrimSpace;
    forall i | 0 <= i < |parts| ensures LongEnough(text, parts[i], if i == 0 then 0 else overlap) {
      assert IsWindow(text, parts[i], target);
      if i > 0 {
        assert IsWindow(text, parts[i - 1], target) && Follows(parts, i - 1, overlap);
      }
    }
  }

  lemma Glue(text: string, start: nat, from: nat, end: nat)
    requires start <= from <= end <= |text|
    ensures text[..from] + text[start..end][from - start..] == text[..end]
  {
    assert text[start..end][from - start..] == text[from..end];
  }

  lemma {:induction false} RebuiltPrefix(text: string, parts: seq<Part>, target: int, overlap: nat, k: nat)
    requires overlap < target && Chunked(text, parts, target, overlap) && k <= |parts|
    requires AllLongEnough(text, parts, overlap)
    ensures AllLongEnough(text, parts[..k], overlap)
    ensures Rebuilt(text, parts[..k], overlap) == if k == 0 then "" else text[..parts[k - 1].end]
  {
    if k > 0 {
      RebuiltPrefix(text, parts, target, overlap, k - 1);
      var last, before := parts[k - 1], parts[..k - 1];
      assert parts[..k][..k - 1] == before && parts[..k][k - 1] == last;
      assert LongEnough(text, last, if k == 1 then 0 else overlap);
      if k > 1 {
        assert Follows(parts, k - 2, overlap);
      }
      hide Chunked, Windows, LongEnough;
      Glue(text, last.start, if k == 1 then 0 else parts[k - 2].end, last.end);
    }
  }

  /** Dropping the overlaps gives the text back. */
  lemma ChunksRebuild(text: string, parts: seq<Part>, target: int, overlap: nat)
    requires overlap < target && Chunked(text, parts, target, overlap)
    ensures AllLongEnough(text, parts, overlap)
    ensures Rebuilt(text, parts, overlap) == text
  {
    WindowsLongEnough(text, parts, target, overlap);
    hide TrimSpace;
    RebuiltPrefix(text, parts, target, overlap, |parts|);
    assert parts[..|parts|] == parts;
  }

  lemma {:induction false} Covering(text: string, parts: seq<Part>, target: int, overlap: nat, i: nat, k: nat)
      returns (j: nat)
    requires target > 0 && Chunked(text, parts, target, overlap) && k < |parts| && i < parts[k].end
    ensures j <= k && parts[j].start <= i < parts[j].end
  {
    if parts[k].start <= i {
      j := k;
    } else {
      assert Follows(parts, k - 1, overlap);
      j := Covering(text, parts, target, overlap, i, k - 1);
    }
  }

  /** Trimming cuts blanks only. */
  lemma {:induction false} TrimSpaceCut(s: string) returns (from: nat, to: nat)
    ensures from <= to <= |s| && TrimSpace(s) == s[from..to]
    ensures forall i :: 0 <= i < |s| && !IsSpace(s[i]) ==> from <= i < to
  {
    from := TrimLeftCut(s);
    var n := TrimRightCut(s[from..]);
    to := from + n;
    forall i | 0 <= i < |s| && !IsSpace(s[i]) ensures from <= i < to {
      if i >= from {
        assert s[from..][i - from] == s[i];
      }
    }
  }

  lemma {:induction false} TrimLeftCut(s: string) returns (from: nat)
    ensures from <= |s| && TrimLeft(s) == s[from..]
    ensures forall i :: 0 <= i < from ==> IsSpace(s[i])
  {
    if s != "" && IsSpace(s[0]) {
      var rest := TrimLeftCut(s[1..]);
      from := rest + 1;
      forall i | 0 <= i < from ensures IsSpace(s[i]) {
        assert i > 0 ==> s[i] == s[1..][i - 1];
      }
    } else {
      from := 0;
    }
  }

  lemma {:induction false} TrimRightCut(s: string) returns (to: nat)
    ensures to <= |s| && TrimRight(s) == s[..to]
    ensures forall i :: to <= i < |s| ==> IsSpace(s[i])
  {
    if s != "" && IsSpace(s[|s| - 1]) {
      to := TrimRightCut(s[..|s| - 1]);
    } else {
      to := |s|;
    }
  }

  predicate Shows(part: Part, text: string, from: nat, i: nat) {
    part.start <= from <= i < from + |part.text| <= part.end <= |text|
    && part.text == text[from..from + |part.text|]
  }

  lemma SliceOfSlice(text: string, start: nat, end: nat, from: nat, to: nat)
    requires start <= end <= |text| && from <= to <= end - start
    ensures text[start..end][from..to] == text[start + from..start + to]
  {
    var a, b := text[start..end][from..to], text[start + from..start + to];
    assert |a| == |b|;
    assert forall k :: 0 <= k < |a| ==> a[k] == b[k];
  }

  lemma WindowShows(text: string, part: Part, target: int, i: nat) returns (from: nat)
    requires target > 0 && IsWindow(text, part, target) && part.start <= i < part.end && !IsSpace(text[i])
    ensures Shows(part, text, from, i)
  {
    var raw := text[part.start..part.end];
    assert part.text == TrimSpace(raw);
    hide IsWindow, TrimSpace;
    var left, right := TrimSpaceCut(raw);
    assert raw[i - part.start] == text[i];
    SliceOfSlice(text, part.start, part.end, left, right);
    from := part.start + left;
  }

  /** Although every window is trimmed, each visible character of the text is in the text of some window. */
  lemma VisibleKept(text: string, parts: seq<Part>, target: int, overlap: nat, i: nat)
    requires target > 0 && Chunked(text, parts, target, overlap) && i < |text| && !IsSpace(text[i])
    ensures exists k: nat, from: nat :: k < |parts| && Shows(parts[k], text, from, i)
  {
    hide IsWindow, Shows;
    var k := Covering(text, parts, target, overlap, i, |parts| - 1);
    var from := WindowShows(text, parts[k], target, i);
  }
}
