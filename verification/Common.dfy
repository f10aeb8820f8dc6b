/** Optional values and results that carry an error instead of raising one. */
module Wrappers {
  datatype Option<+T> = None | Some(value: T)

  datatype Result<+T, +E> = Ok(value: T) | Err(error: E)
}

/** The Go string helpers the modelled code relies on. */
module GoStrings {
  import opened Wrappers

  /** `unicode.IsSpace`. */
  predicate IsSpace(c: char) {
    || '\t' <= c <= '\r' || c == ' ' || c == '\U{0085}' || c == '\U{00A0}' || c == '\U{1680}'
    || '\U{2000}' <= c <= '\U{200A}' || c == '\U{2028}' || c == '\U{2029}' || c == '\U{202F}'
    || c == '\U{205F}' || c == '\U{3000}'
  }

  function TrimLeft(s: string): string {
    if s != "" && IsSpace(s[0]) then TrimLeft(s[1..]) else s
  }

  function TrimRight(s: string): string {
    if s != "" && IsSpace(s[|s| - 1]) then TrimRight(s[..|s| - 1]) else s
  }

  /** `strings.TrimSpace`. */
  function TrimSpace(s: string): string {
    TrimRight(TrimLeft(s))
  }

  predicate Trimmed(s: string) {
    s == "" || (!IsSpace(s[0]) && !IsSpace(s[|s| - 1]))
  }

  lemma TrimRightKeeps(s: string)
    ensures TrimRight(s) <= s
    ensures TrimRight(s) == "" || !IsSpace(TrimRight(s)[|TrimRight(s)| - 1])
  {
  }

  lemma TrimLeftKeeps(s: string)
    ensures |TrimLeft(s)| <= |s|
    ensures TrimLeft(s) == "" || !IsSpace(TrimLeft(s)[0])
  {
  }

  /** Trimming leaves no blank at either end and changes exactly the strings that have one. */
  lemma TrimSpaceFixed(s: string)
    ensures Trimmed(TrimSpace(s))
    ensures TrimSpace(s) == s <==> Trimmed(s)
  {
    TrimLeftKeeps(s);
    TrimRightKeeps(TrimLeft(s));
  }

  predicate Blank(s: string) {
    TrimSpace(s) == ""
  }

  /** `a < b` on Go strings; for valid UTF-8 the byte order is the order of code points. */
  predicate StrLess(a: string, b: string) {
    if b == "" then false
    else if a == "" then true
    else if a[0] != b[0] then a[0] < b[0]
    else StrLess(a[1..], b[1..])
  }

  lemma StrLessIrreflexive(a: string)
    ensures !StrLess(a, a)
  {
  }

  lemma StrLessTransitive(a: string, b: string, c: string)
    requires StrLess(a, b) && StrLess(b, c)
    ensures StrLess(a, c)
  {
  }

  lemma StrLessTotal(a: string, b: string)
    ensures a == b || StrLess(a, b) || StrLess(b, a)
  {
    if a != "" && b != "" && a[0] == b[0] {
      StrLessTotal(a[1..], b[1..]);
      assert a == [a[0]] + a[1..] && b == [b[0]] + b[1..];
    }
  }

  /** The first `k` characters agree; then `a` ends, or its next character is smaller. */
  predicate LessAt(a: string, b: string, k: int) {
    && 0 <= k <= |a| && k < |b| && a[..k] == b[..k]
    && (k == |a| || a[k] < b[k])
  }

  lemma {:induction false} StrLessIff(a: string, b: string)
    ensures StrLess(a, b) <==> exists k :: LessAt(a, b, k)
  {
    if b != "" && a != "" && a[0] == b[0] {
      StrLessIff(a[1..], b[1..]);
      if k :| LessAt(a[1..], b[1..], k) {
        assert a[..k + 1] == [a[0]] + a[1..][..k] && b[..k + 1] == [b[0]] + b[1..][..k];
        assert LessAt(a, b, k + 1);
      }
      if k :| LessAt(a, b, k) {
        assert a[1..][..k - 1] == a[..k][1..] && b[1..][..k - 1] == b[..k][1..];
        assert LessAt(a[1..], b[1..], k - 1);
      }
    } else if b != "" {
      assert StrLess(a, b) ==> LessAt(a, b, 0);
      if k :| LessAt(a, b, k) {
        assert k > 0 ==> a[..k][0] == b[..k][0];
      }
    }
  }

  predicate NulFree(s: string) {
    forall i :: 0 <= i < |s| ==> s[i] != '\0'
  }

  lemma FirstNul(a: string, x: string, b: string, y: string)
    requires NulFree(a) && NulFree(b) && a + "\0" + x == b + "\0" + y
    ensures a == b && x == y
  {
    var s, t := a + "\0" + x, b + "\0" + y;
    assert s[|a|] == '\0' && t[|b|] == '\0';
    assert forall i :: 0 <= i < |a| ==> s[i] == a[i];
    assert forall i :: 0 <= i < |b| ==> t[i] == b[i];
    assert |a| == |b|;
    assert a == s[..|a|] && b == t[..|b|] && x == s[|a| + 1..] && y == t[|b| + 1..];
  }

  function Digit(n: nat): (c: char)
    requires n < 10
    ensures '0' <= c <= '9'
  {
    '0' + n as char
  }

  function Decimal(n: nat): (s: string)
    ensures s != "" && forall i :: 0 <= i < |s| ==> '0' <= s[i] <= '9'
  {
    if n < 10 then [Digit(n)] else Decimal(n / 10) + [Digit(n % 10)]
  }

  /** `strconv.Itoa` and `strconv.FormatInt` in base ten. */
  function Itoa(n: int): (s: string)
    ensures s != "" && forall i :: 0 <= i < |s| ==> s[i] == '-' || '0' <= s[i] <= '9'
  {
    if n < 0 then "-" + Decimal(-n) else Decimal(n)
  }

  function DecimalValue(s: string): Option<int> {
    if s == "" || !('0' <= s[|s| - 1] <= '9') then None
    else
      var last := s[|s| - 1] as nat - '0' as nat;
      if |s| == 1 then Some(last)
      else
        match DecimalValue(s[..|s| - 1])
        case None => None
        case Some(high) => Some(10 * high + last)
  }

  const MinInt64: int := -0x8000_0000_0000_0000
  const MaxInt64: int := 0x7FFF_FFFF_FFFF_FFFF

  /** `strconv.ParseInt(s, 10, 64)` and, on 64-bit platforms, `strconv.Atoi`. */
  function Atoi(s: string): Option<int> {
    var negative := s != "" && s[0] == '-';
    var digits := if s != "" && (s[0] == '-' || s[0] == '+') then s[1..] else s;
    match DecimalValue(digits)
    case None => None
    case Some(n) =>
      var value: int := if negative then -n else n;
      if MinInt64 <= value <= MaxInt64 then Some(value) else None
  }

  lemma {:induction false} DecimalRoundTrip(n: nat)
    ensures DecimalValue(Decimal(n)) == Some(n)
  {
    if n >= 10 {
      DecimalRoundTrip(n / 10);
      var s := Decimal(n);
      assert s[..|s| - 1] == Decimal(n / 10);
    }
  }

  /** Every 64-bit integer survives printing and parsing. */
  lemma {:induction false} AtoiItoa(n: int)
    requires MinInt64 <= n <= MaxInt64
    ensures Atoi(Itoa(n)) == Some(n)
  {
    hide Decimal, DecimalValue;
    if n < 0 {
      DecimalRoundTrip(-n);
      assert Itoa(n)[1..] == Decimal(-n);
    } else {
      DecimalRoundTrip(n);
      assert Decimal(n)[0] != '-' && Decimal(n)[0] != '+';
    }
  }
}

/** Stable insertion sort, standing for `sort.SliceStable`, `sort.Slice` and `sort.Strings`. */
module Sorting {
  import opened GoStrings

  function Insert<T>(x: T, s: seq<T>, before: (T, T) -> bool): (r: seq<T>)
    ensures multiset(r) == multiset(s) + multiset{x}
    ensures |r| == |s| + 1
  {
    if s != [] && before(s[0], x) then
      assert s == [s[0]] + s[1..];
      [s[0]] + Insert(x, s[1..], before)
    else [x] + s
  }

  function Sort<T>(s: seq<T>, before: (T, T) -> bool): (r: seq<T>)
    ensures multiset(r) == multiset(s)
    ensures |r| == |s|
  {
    if s == [] then []
    else
      assert s == [s[0]] + s[1..];
      Insert(s[0], Sort(s[1..], before), before)
  }

  ghost predicate StrictOrder<T(!new)>(before: (T, T) -> bool) {
    && (forall x :: !before(x, x))
    && (forall x, y, z :: before(x, y) && before(y, z) ==> before(x, z))
  }

  ghost predicate Ascending<T>(s: seq<T>, before: (T, T) -> bool) {
    forall i, j :: 0 <= i < j < |s| ==> before(s[i], s[j])
  }

  /** Any two different positions hold comparable elements. */
  ghost predicate Comparable<T>(s: seq<T>, before: (T, T) -> bool) {
    forall i, j :: 0 <= i < j < |s| ==> before(s[i], s[j]) || before(s[j], s[i])
  }

  predicate NoDuplicates(keys: seq<string>) {
    forall i, j :: 0 <= i < j < |keys| ==> keys[i] != keys[j]
  }

  lemma SameElements<T>(a: seq<T>, b: seq<T>)
    requires multiset(a) == multiset(b)
    ensures forall x :: x in a <==> x in b
  {
    assert forall x :: x in a <==> x in multiset(a);
    assert forall x :: x in b <==> x in multiset(b);
  }

  lemma {:induction false} InsertAscending<T(!new)>(x: T, s: seq<T>, before: (T, T) -> bool)
    requires StrictOrder(before) && Ascending(s, before)
    requires forall y :: y in s ==> before(x, y) || before(y, x)
    ensures Ascending(Insert(x, s, before), before)
  {
    if s != [] && before(s[0], x) {
      InsertAscending(x, s[1..], before);
      var rest := Insert(x, s[1..], before);
      forall y | y in rest ensures before(s[0], y) {
        assert y in multiset(rest);
        assert y == x || y in s[1..];
      }
    } else if s != [] {
      forall y | y in s ensures before(x, y) {
        assert before(x, s[0]);
      }
    }
  }

  /** Sorting pairwise comparable elements puts them in strict order. */
  lemma {:induction false} SortAscending<T(!new)>(s: seq<T>, before: (T, T) -> bool)
    requires StrictOrder(before) && Comparable(s, before)
    ensures Ascending(Sort(s, before), before)
  {
    if s != [] {
      var rest := s[1..];
      SortAscending(rest, before);
      SameElements(Sort(rest, before), rest);
      forall y | y in Sort(rest, before) ensures before(s[0], y) || before(y, s[0]) {
        var k :| 0 <= k < |rest| && rest[k] == y;
        assert s[k + 1] == y;
      }
      InsertAscending(s[0], Sort(rest, before), before);
    }
  }

  ghost predicate NonDescending<T>(s: seq<T>, before: (T, T) -> bool) {
    forall i, j :: 0 <= i < j < |s| ==> s[i] == s[j] || before(s[i], s[j])
  }

  /** Equal elements may repeat. */
  lemma {:induction false} SortNonDescending<T(!new)>(s: seq<T>, before: (T, T) -> bool)
    requires StrictOrder(before) && forall x, y :: x == y || before(x, y) || before(y, x)
    ensures NonDescending(Sort(s, before), before)
  {
    if s != [] {
      SortNonDescending(s[1..], before);
      InsertNonDescending(s[0], Sort(s[1..], before), before);
    }
  }

  lemma {:induction false} InsertNonDescending<T(!new)>(x: T, s: seq<T>, before: (T, T) -> bool)
    requires StrictOrder(before) && NonDescending(s, before)
    requires forall y, z :: y == z || before(y, z) || before(z, y)
    ensures NonDescending(Insert(x, s, before), before)
  {
    if s != [] && before(s[0], x) {
      var rest := Insert(x, s[1..], before);
      InsertNonDescending(x, s[1..], before);
      forall y | y in rest ensures s[0] == y || before(s[0], y) {
        assert y in multiset(rest);
        assert y == x || y in s[1..];
      }
    } else if s != [] {
      forall y | y in s ensures x == y || before(x, y) {
        assert x == s[0] || before(x, s[0]);
      }
    }
  }

  /** A strictly ordered list is determined by the elements it holds. */
  lemma {:induction false} AscendingUnique<T(!new)>(a: seq<T>, b: seq<T>, before: (T, T) -> bool)
    requires StrictOrder(before) && Ascending(a, before) && Ascending(b, before)
    requires forall x :: x in a <==> x in b
    ensures a == b
  {
    assert a == [] || a[0] in b;
    assert b == [] || b[0] in a;
    if a != [] {
      assert a[0] == b[0];
      forall x ensures x in a[1..] <==> x in b[1..] {
        assert x in a[1..] <==> x in a && x != a[0];
        assert x in b[1..] <==> x in b && x != b[0];
      }
      AscendingUnique(a[1..], b[1..], before);
      assert a == [a[0]] + a[1..] && b == [b[0]] + b[1..];
    }
  }

  /** Two lists of the same comparable elements sort to the same list, whatever order they came in. */
  lemma SortCanonical<T(!new)>(a: seq<T>, b: seq<T>, before: (T, T) -> bool)
    requires StrictOrder(before) && Comparable(a, before)
    requires multiset(a) == multiset(b)
    requires Comparable(b, before)
    ensures Sort(a, before) == Sort(b, before)
  {
    SortAscending(a, before);
    SortAscending(b, before);
    SameElements(Sort(a, before), Sort(b, before));
    AscendingUnique(Sort(a, before), Sort(b, before), before);
  }

  lemma StringOrder()
    ensures StrictOrder(StrLess)
  {
    forall x ensures !StrLess(x, x) { StrLessIrreflexive(x); }
    forall x, y, z | StrLess(x, y) && StrLess(y, z) ensures StrLess(x, z) { StrLessTransitive(x, y, z); }
  }

  /** The elements of a set in increasing order: the keys of a map after `sort.Strings`. */
  ghost function SortedKeys(s: set<string>): (r: seq<string>)
    ensures forall x :: x in r <==> x in s
    ensures Ascending(r, StrLess)
    decreases s
  {
    if s == {} then []
    else
      var x :| x in s;
      var rest := SortedKeys(s - {x});
      StringOrder();
      assert forall y :: y in rest ==> y in s - {x};
      assert forall y :: y in rest ==> StrLess(x, y) || StrLess(y, x) by {
        forall y | y in rest ensures StrLess(x, y) || StrLess(y, x) { StrLessTotal(x, y); }
      }
      InsertAscending(x, rest, StrLess);
      var r := Insert(x, rest, StrLess);
      assert forall y :: y in r <==> y in multiset(r);
      assert forall y :: y in rest <==> y in multiset(rest);
      r
  }

  /** Collecting the keys of a map in any order and sorting them gives the same list. */
  method SortKeys(keys: set<string>) returns (r: seq<string>)
    ensures r == SortedKeys(keys)
  {
    var todo := keys;
    r := [];
    StringOrder();
    while todo != {}
      invariant todo <= keys
      invariant Ascending(r, StrLess)
      invariant forall x :: x in r <==> x in keys - todo
      decreases todo
    {
      var x :| x in todo;
      forall y | y in r ensures StrLess(x, y) || StrLess(y, x) { StrLessTotal(x, y); }
      InsertAscending(x, r, StrLess);
      ghost var was := r;
      r := Insert(x, r, StrLess);
      assert forall y :: y in r <==> y in multiset(r);
      assert forall y :: y in was <==> y in multiset(was);
      todo := todo - {x};
    }
    AscendingUnique(r, SortedKeys(keys), StrLess);
  }
}

/** Which elements of a list are kept, and where each of them stands among those that are. */
module Filtering {
  function Trues(keep: seq<bool>): nat {
    if keep == [] then 0 else Trues(keep[..|keep| - 1]) + if keep[|keep| - 1] then 1 else 0
  }

  /** Element `i` stands at the index that counts the kept elements before it. */
  ghost predicate Filtered<T>(all: seq<T>, keep: seq<bool>, out: seq<T>) {
    && |keep| == |all| && |out| == Trues(keep)
    && forall i :: 0 <= i < |all| && keep[i] ==> Trues(keep[..i]) < |out| && out[Trues(keep[..i])] == all[i]
  }

  lemma FilteredSnoc<T>(all: seq<T>, keep: seq<bool>, out: seq<T>, x: T, b: bool)
    requires Filtered(all, keep, out)
    ensures Filtered(all + [x], keep + [b], if b then out + [x] else out)
  {
    var n := |all|;
    assert (keep + [b])[..n] == keep;
    assert forall i :: 0 <= i < n ==> (keep + [b])[..i] == keep[..i];
  }

  /** The kept elements determine the list. */
  lemma {:induction false} FilteredOnce<T>(all: seq<T>, keep: seq<bool>, a: seq<T>, b: seq<T>)
    requires Filtered(all, keep, a) && Filtered(all, keep, b)
    ensures a == b
  {
    forall k | 0 <= k < |a| ensures a[k] == b[k] {
      var i := KeptAt(keep, k);
    }
  }

  lemma {:induction false} KeptAt(keep: seq<bool>, k: nat) returns (i: nat)
    requires k < Trues(keep)
    ensures i < |keep| && keep[i] && Trues(keep[..i]) == k
  {
    var n := |keep| - 1;
    if k == Trues(keep[..n]) {
      i := n;
    } else {
      i := KeptAt(keep[..n], k);
      assert keep[..n][..i] == keep[..i];
    }
  }
}
