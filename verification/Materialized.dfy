/** One record for each reference: the one with the most material in it. */
module Materialized {
  import opened Sorting
  import opened Wrappers
  import opened GoStrings

  datatype Ref = Ref(source: string, entity: string, view: string, id: string)
  datatype Record = Record(ref: Ref, relations: map<string, seq<string>>, fields: map<string, seq<string>>)

  function Key(r: Record): string {
    r.ref.source + "\0" + r.ref.entity + "\0" + r.ref.id
  }

  /** Records without NUL characters in their names are one and the same exactly when their names are. */
  lemma KeyIff(r: Record, s: Record)
    requires NulFree(r.ref.source) && NulFree(r.ref.entity) && NulFree(s.ref.source) && NulFree(s.ref.entity)
    ensures Key(r) == Key(s) <==> r.ref.source == s.ref.source && r.ref.entity == s.ref.entity && r.ref.id == s.ref.id
  {
    if Key(r) == Key(s) {
      var a, b := r.ref.entity + "\0" + r.ref.id, s.ref.entity + "\0" + s.ref.id;
      assert Key(r) == r.ref.source + "\0" + a && Key(s) == s.ref.source + "\0" + b;
      FirstNul(r.ref.source, a, s.ref.source, b);
      FirstNul(r.ref.entity, r.ref.id, s.ref.entity, s.ref.id);
    }
  }

  ghost function Total(m: map<string, seq<string>>): nat
    decreases m.Keys
  {
    if m == map[] then 0
    else
      var k :| k in m;
      |m[k]| + Total(m - {k})
  }

  /** A map may be summed in any order. */
  lemma {:induction false} TotalWithout(m: map<string, seq<string>>, k: string)
    requires k in m
    ensures Total(m) == |m[k]| + Total(m - {k})
    decreases m.Keys
  {
    var j :| j in m && Total(m) == |m[j]| + Total(m - {j});
    if j != k {
      TotalWithout(m - {j}, k);
      TotalWithout(m - {k}, j);
      assert m - {j} - {k} == m - {k} - {j};
    }
  }

  method SumLengths(m: map<string, seq<string>>) returns (n: nat)
    ensures n == Total(m)
  {
    n := 0;
    var rest := m;
    while rest != map[]
      invariant n + Total(rest) == Total(m)
      decreases rest.Keys
    {
      var k :| k in rest;
      TotalWithout(rest, k);
      n := n + |rest[k]|;
      rest := rest - {k};
    }
  }

  ghost function Score(r: Record): int {
    |r.relations| * 100 + Total(r.relations) * 10 + Total(r.fields) + if r.ref.view != r.ref.entity then 5 else 0
  }

  /** A relation is worth 100 and 10 for each of its values, a field value 1, a view of its own 5. */
  lemma ScoreSteps(r: Record, name: string, values: seq<string>, view: string)
    ensures name !in r.relations ==>
      Score(r.(relations := r.relations[name := values])) == Score(r) + 100 + 10 * |values|
    ensures name !in r.fields ==> Score(r.(fields := r.fields[name := values])) == Score(r) + |values|
    ensures r.ref.view == r.ref.entity && view != r.ref.entity ==>
      Score(r.(ref := r.ref.(view := view))) == Score(r) + 5
    ensures r == Record(r.ref, map[], map[]) && r.ref.view == r.ref.entity ==> Score(r) == 0
  {
    if name !in r.relations {
      TotalWithout(r.relations[name := values], name);
      assert r.relations[name := values] - {name} == r.relations;
      assert |r.relations[name := values]| == |r.relations| + 1;
    }
    if name !in r.fields {
      TotalWithout(r.fields[name := values], name);
      assert r.fields[name := values] - {name} == r.fields;
    }
  }

  /** `materializedRecordScore`. */
  method RecordScore(r: Record) returns (score: int)
    ensures score == Score(r)
  {
    score := |r.relations| * 100;
    var values := SumLengths(r.relations);
    score := score + values * 10;
    var fields := SumLengths(r.fields);
    score := score + fields;
    if r.ref.view != r.ref.entity {
      score := score + 5;
    }
  }

  /** The keys in the order of their first appearance. */
  function Order(records: seq<Record>): seq<string> {
    if records == [] then []
    else
      var before, key := Order(records[..|records| - 1]), Key(records[|records| - 1]);
      if key in before then before else before + [key]
  }

  ghost function Best(records: seq<Record>, key: string): Option<Record> {
    if records == [] then None
    else
      var before, last := Best(records[..|records| - 1], key), records[|records| - 1];
      if Key(last) != key then before
      else if before.Some? && Score(last) <= Score(before.value) then before
      else Some(last)
  }

  ghost predicate Picks(out: seq<Record>, records: seq<Record>) {
    && |out| == |Order(records)|
    && forall i :: 0 <= i < |out| ==> Best(records, Order(records)[i]) == Some(out[i])
  }

  /** `preferMaterializedRecords`. */
  method PreferMaterialized(records: seq<Record>) returns (out: seq<Record>)
    ensures Picks(out, records)
  {
    hide Score, Key;
    var byKey: map<string, Record>, order: seq<string> := map[], [];
    for i := 0 to |records|
      invariant order == Order(records[..i])
      invariant forall key :: key in byKey <==> key in order
      invariant forall key :: Best(records[..i], key) == if key in byKey then Some(byKey[key]) else None
    {
      var record, key := records[i], Key(records[i]);
      assert records[..i + 1][..i] == records[..i];
      if key !in byKey {
        order := order + [key];
        byKey := byKey[key := record];
        continue;
      }
      var score := RecordScore(record);
      var best := RecordScore(byKey[key]);
      if score > best {
        byKey := byKey[key := record];
      }
    }
    assert records[..|records|] == records;
    out := [];
    for i := 0 to |order|
      invariant |out| == i && forall k :: 0 <= k < i ==> order[k] in byKey && out[k] == byKey[order[k]]
    {
      out := out + [byKey[order[i]]];
    }
  }

  /** The first of the records with a key that no other record with that key outscores. */
  ghost predicate FirstMaximum(records: seq<Record>, key: string, k: int) {
    && 0 <= k < |records| && Key(records[k]) == key
    && forall j :: 0 <= j < |records| && Key(records[j]) == key ==>
         Score(records[j]) <= Score(records[k]) && (j < k ==> Score(records[j]) < Score(records[k]))
  }

  lemma MaximumSnoc(init: seq<Record>, last: Record, key: string, k: int)
    requires FirstMaximum(init, key, k)
    ensures FirstMaximum(init + [last], key, if Key(last) == key && Score(last) > Score(init[k]) then |init| else k)
  {
    hide Key, Score;
    var records := init + [last];
    assert records[|init|] == last && forall j :: 0 <= j < |init| ==> records[j] == init[j];
  }

  lemma MaximumAlone(init: seq<Record>, last: Record)
    requires forall j :: 0 <= j < |init| ==> Key(init[j]) != Key(last)
    ensures FirstMaximum(init + [last], Key(last), |init|)
  {
    hide Key, Score;
    var records := init + [last];
    assert records[|init|] == last && forall j :: 0 <= j < |init| ==> records[j] == init[j];
  }

  lemma {:induction false} BestIsFirstMaximum(records: seq<Record>, key: string)
    ensures Best(records, key).None? <==> forall j :: 0 <= j < |records| ==> Key(records[j]) != key
    ensures Best(records, key).Some? ==>
      exists k :: FirstMaximum(records, key, k) && Best(records, key).value == records[k]
  {
    if records != [] {
      var init, last := records[..|records| - 1], records[|records| - 1];
      BestIsFirstMaximum(init, key);
      assert records == init + [last];
      hide Key, Score;
      if Best(init, key).Some? {
        var k :| FirstMaximum(init, key, k) && Best(init, key).value == init[k];
        MaximumSnoc(init, last, key, k);
      } else if Key(last) == key {
        MaximumAlone(init, last);
      }
      assert forall j :: 0 <= j < |init| ==> records[j] == init[j];
    }
  }

  predicate FirstAt(records: seq<Record>, key: string, k: int) {
    0 <= k < |records| && Key(records[k]) == key && forall j :: 0 <= j < k ==> Key(records[j]) != key
  }

  lemma {:induction false} OrderMembers(records: seq<Record>, key: string)
    ensures key in Order(records) <==> exists k :: 0 <= k < |records| && Key(records[k]) == key
    ensures NoDuplicates(Order(records))
  {
    hide Key;
    if records != [] {
      var n := |records| - 1;
      OrderMembers(records[..n], key);
      assert forall k :: 0 <= k < n ==> records[..n][k] == records[k];
    }
  }

  /** Each key of the input once, ordered by where it first appears. */
  lemma {:induction false} OrderIsFirstAppearance(records: seq<Record>, i: nat, j: nat, a: int, b: int)
    requires i < j < |Order(records)|
    requires FirstAt(records, Order(records)[i], a) && FirstAt(records, Order(records)[j], b)
    ensures a < b
  {
    var n := |records| - 1;
    var init, key := records[..n], Key(records[n]);
    var before := Order(init);
    OrderMembers(init, key);
    hide Key;
    assert Order(records)[i] == before[i];
    OrderMembers(init, before[i]);
    assert a < n by {
      assert before[i] in before;
      var k :| 0 <= k < n && Key(init[k]) == before[i];
      assert records[k] == init[k];
    }
    if b < n {
      assert forall k :: 0 <= k < n ==> init[k] == records[k];
      assert Order(records)[j] in before by {
        OrderMembers(init, Order(records)[j]);
        assert Key(init[b]) == Order(records)[j];
      }
      OrderIsFirstAppearance(init, i, j, a, b);
    }
  }

  lemma {:induction false} OrderOfDistinct(records: seq<Record>)
    requires forall i, j :: 0 <= i < j < |records| ==> Key(records[i]) != Key(records[j])
    ensures |Order(records)| == |records|
    ensures forall i :: 0 <= i < |records| ==> Order(records)[i] == Key(records[i])
  {
    hide Key;
    if records != [] {
      var n := |records| - 1;
      OrderOfDistinct(records[..n]);
    }
  }

  /** Preferring twice is preferring once. */
  lemma PreferIdempotent(records: seq<Record>, out: seq<Record>, again: seq<Record>)
    requires Picks(out, records) && Picks(again, out)
    ensures again == out
  {
    hide Score, Key, Order, Best;
    OrderMembers(records, "");
    forall i | 0 <= i < |out| ensures Key(out[i]) == Order(records)[i] {
      BestIsFirstMaximum(records, Order(records)[i]);
    }
    OrderOfDistinct(out);
    forall i | 0 <= i < |out| ensures again[i] == out[i] {
      BestIsFirstMaximum(out, Order(out)[i]);
    }
  }
}
