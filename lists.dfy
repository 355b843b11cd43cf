/**
 * The array operations the handlers lean on, as pure functions over
 * sequences: `findIndex` by id, `filter`, the stable `sort` with a
 * "most recent first" comparator, `slice(0, limit)`, and one-indexed page
 * slicing with its page count. Also the "ids are pairwise distinct"
 * predicate and the facts that sorting and removing keep it.
 */
module Lists {
  import opened Common
  import opened Ids

  // ---------------------------------------------------------------------
  // findIndex

  /** `findIndex(x => idOf(x) === id)`: the first index with that id, or -1. */
  function IndexOf<T>(s: seq<T>, id: string, idOf: T -> string): (i: int)
    ensures -1 <= i < |s|
    ensures i == -1 <==> forall k :: 0 <= k < |s| ==> idOf(s[k]) != id
    ensures 0 <= i ==> idOf(s[i]) == id && forall k :: 0 <= k < i ==> idOf(s[k]) != id
  {
    if s == [] then -1
    else if idOf(s[0]) == id then 0
    else
      var j := IndexOf(s[1..], id, idOf);
      if j == -1 then -1 else j + 1
  }

  // ---------------------------------------------------------------------
  // filter and slice(0, limit)

  /** `filter(x => p(x, q))`: the elements that pass, in their original order. */
  function Select<T, Q>(s: seq<T>, q: Q, p: (T, Q) -> bool): (r: seq<T>)
    ensures |r| <= |s|
    ensures forall k :: 0 <= k < |r| ==> r[k] in s && p(r[k], q)
    ensures forall k :: 0 <= k < |s| && p(s[k], q) ==> s[k] in r
  {
    if s == [] then []
    else
      var rest := Select(s[1..], q, p);
      var r := if p(s[0], q) then [s[0]] + rest else rest;
      assert forall x :: x in rest ==> x in s[1..];
      assert forall k :: 1 <= k < |s| ==> s[k] == s[1..][k - 1];
      r
  }

  /** Filtering a concatenation filters each part in place: the order of the input is kept. */
  lemma {:induction false} SelectAppend<T, Q>(a: seq<T>, b: seq<T>, q: Q, p: (T, Q) -> bool)
    ensures Select(a + b, q, p) == Select(a, q, p) + Select(b, q, p)
  {
    if a == [] {
      assert a + b == b;
    } else {
      assert (a + b)[0] == a[0];
      assert (a + b)[1..] == a[1..] + b;
      SelectAppend(a[1..], b, q, p);
    }
  }

  /** Each passing element is kept as often as it occurs, and no other element is kept. */
  lemma {:induction false} SelectCount<T, Q>(s: seq<T>, q: Q, p: (T, Q) -> bool)
    ensures forall x :: multiset(Select(s, q, p))[x] == if p(x, q) then multiset(s)[x] else 0
  {
    if s != [] {
      SelectCount(s[1..], q, p);
      assert s == [s[0]] + s[1..];
    }
  }

  /** If every element passes, filtering gives the sequence itself. */
  lemma {:induction false} SelectAll<T, Q>(s: seq<T>, q: Q, p: (T, Q) -> bool)
    requires forall k :: 0 <= k < |s| ==> p(s[k], q)
    ensures Select(s, q, p) == s
  {
    if s != [] {
      SelectAll(s[1..], q, p);
    }
  }

  /** `slice(0, limit)` when a limit is given; the whole sequence otherwise. */
  function Take<T>(s: seq<T>, limit: Option<nat>): (r: seq<T>)
    ensures |r| == if limit.Some? && limit.value < |s| then limit.value else |s|
    ensures r == s[..|r|]
  {
    if limit.Some? && limit.value < |s| then s[..limit.value] else s
  }

  // ---------------------------------------------------------------------
  // sort((a, b) => key(b) - key(a)), which ECMAScript requires to be stable

  /** Most recent first: keys never increase along the sequence. */
  predicate SortedDesc<T>(s: seq<T>, key: T -> int) {
    forall i, j :: 0 <= i < j < |s| ==> key(s[i]) >= key(s[j])
  }

  /** Puts `x` in front of the first element whose key is not larger. */
  function Insert<T>(x: T, t: seq<T>, key: T -> int): (r: seq<T>)
    ensures multiset(r) == multiset(t) + multiset{x}
    ensures |r| == |t| + 1
  {
    if t == [] || key(t[0]) <= key(x) then
      [x] + t
    else
      assert t == [t[0]] + t[1..];
      [t[0]] + Insert(x, t[1..], key)
  }

  lemma ConsSorted<T>(y: T, r: seq<T>, key: T -> int)
    requires SortedDesc(r, key)
    requires forall j :: 0 <= j < |r| ==> key(r[j]) <= key(y)
    ensures SortedDesc([y] + r, key)
  {
    var c := [y] + r;
    forall i, j | 0 <= i < j < |c| ensures key(c[i]) >= key(c[j]) {
      assert c[j] == r[j - 1];
      if i > 0 {
        assert c[i] == r[i - 1];
      }
    }
  }

  /** Inserting keeps every key under a common bound. */
  lemma InsertBounded<T>(x: T, t: seq<T>, key: T -> int, b: int)
    requires key(x) <= b
    requires forall j :: 0 <= j < |t| ==> key(t[j]) <= b
    ensures forall j :: 0 <= j < |Insert(x, t, key)| ==> key(Insert(x, t, key)[j]) <= b
  {
    var r := Insert(x, t, key);
    forall j | 0 <= j < |r| ensures key(r[j]) <= b {
      assert r[j] in multiset(r);
      if r[j] != x {
        assert r[j] in multiset(t);
        var m :| 0 <= m < |t| && t[m] == r[j];
      }
    }
  }

  /** Inserting into a sorted sequence keeps it sorted. */
  lemma {:induction false} InsertSorted<T>(x: T, t: seq<T>, key: T -> int)
    requires SortedDesc(t, key)
    ensures SortedDesc(Insert(x, t, key), key)
  {
    if t == [] || key(t[0]) <= key(x) {
      ConsSorted(x, t, key);
    } else {
      var rest := Insert(x, t[1..], key);
      InsertSorted(x, t[1..], key);
      InsertBounded(x, t[1..], key, key(t[0]));
      ConsSorted(t[0], rest, key);
    }
  }

  /** A stable sort by descending key (insertion sort). */
  function SortDesc<T>(s: seq<T>, key: T -> int): (r: seq<T>)
    ensures SortedDesc(r, key)
    ensures multiset(r) == multiset(s)
    ensures |r| == |s|
  {
    if s == [] then []
    else
      assert s == [s[0]] + s[1..];
      InsertSorted(s[0], SortDesc(s[1..], key), key);
      Insert(s[0], SortDesc(s[1..], key), key)
  }

  /** The elements whose key is `k`, in order. */
  function OfKey<T>(s: seq<T>, key: T -> int, k: int): seq<T> {
    if s == [] then []
    else (if key(s[0]) == k then [s[0]] else []) + OfKey(s[1..], key, k)
  }

  lemma OfKeyCons<T>(y: T, r: seq<T>, key: T -> int, k: int)
    ensures OfKey([y] + r, key, k) == (if key(y) == k then [y] else []) + OfKey(r, key, k)
  {
    assert ([y] + r)[1..] == r;
  }

  lemma SwapPastEmpty<T>(a: seq<T>, b: seq<T>, c: seq<T>)
    requires a == [] || b == []
    ensures a + (b + c) == b + (a + c)
  {
    if a == [] {
      assert a + (b + c) == b + c == b + (a + c);
    } else {
      assert a + (b + c) == a + c == b + (a + c);
    }
  }

  lemma {:induction false} InsertStable<T>(x: T, t: seq<T>, key: T -> int, k: int)
    ensures OfKey(Insert(x, t, key), key, k) == (if key(x) == k then [x] else []) + OfKey(t, key, k)
  {
    if t == [] || key(t[0]) <= key(x) {
      OfKeyCons(x, t, key, k);
    } else {
      // t[0] outranks x, so at most one of the two has key k
      var rest := Insert(x, t[1..], key);
      var head := if key(t[0]) == k then [t[0]] else [];
      var mid := if key(x) == k then [x] else [];
      calc {
        OfKey(Insert(x, t, key), key, k);
      == { assert Insert(x, t, key) == [t[0]] + rest; OfKeyCons(t[0], rest, key, k); }
        head + OfKey(rest, key, k);
      == { InsertStable(x, t[1..], key, k); }
        head + (mid + OfKey(t[1..], key, k));
      == { SwapPastEmpty(head, mid, OfKey(t[1..], key, k)); }
        mid + (head + OfKey(t[1..], key, k));
      == { assert t == [t[0]] + t[1..]; OfKeyCons(t[0], t[1..], key, k); }
        mid + OfKey(t, key, k);
      }
    }
  }

  /**
   * Sorting never reorders elements with equal keys. Together with the
   * contract of SortDesc (sorted, same elements) this fixes the result.
   */
  lemma {:induction false} SortStable<T>(s: seq<T>, key: T -> int, k: int)
    ensures OfKey(SortDesc(s, key), key, k) == OfKey(s, key, k)
  {
    if s != [] {
      SortStable(s[1..], key, k);
      InsertStable(s[0], SortDesc(s[1..], key), key, k);
    }
  }

  /** Sorting the filtered records neither adds nor loses a matching record. */
  lemma SortSelect<T, Q>(s: seq<T>, q: Q, p: (T, Q) -> bool, key: T -> int)
    ensures var r := SortDesc(Select(s, q, p), key);
      && (forall k :: 0 <= k < |r| ==> r[k] in s && p(r[k], q))
      && (forall k :: 0 <= k < |s| && p(s[k], q) ==> s[k] in r)
  {
    var all := Select(s, q, p);
    var r := SortDesc(all, key);
    forall k | 0 <= k < |r| ensures r[k] in s && p(r[k], q) {
      assert r[k] in multiset(all);
    }
    forall k | 0 <= k < |s| && p(s[k], q) ensures s[k] in r {
      assert s[k] in multiset(all);
    }
  }

  /** A sequence already in order is left as it is. */
  lemma {:induction false} SortSorted<T>(s: seq<T>, key: T -> int)
    requires SortedDesc(s, key)
    ensures SortDesc(s, key) == s
  {
    if s != [] {
      SortSorted(s[1..], key);
      assert SortDesc(s[1..], key) == s[1..];
    }
  }

  /** A head of a sorted sequence is sorted. */
  lemma SortedTake<T>(s: seq<T>, key: T -> int, limit: Option<nat>)
    requires SortedDesc(s, key)
    ensures SortedDesc(Take(s, limit), key)
  {
  }

  // ---------------------------------------------------------------------
  // ids

  predicate DistinctIds<T>(s: seq<T>, idOf: T -> string) {
    forall i, j :: 0 <= i < j < |s| ==> idOf(s[i]) != idOf(s[j])
  }

  lemma ConsDistinct<T>(x: T, t: seq<T>, idOf: T -> string)
    requires DistinctIds(t, idOf)
    requires forall y :: y in t ==> idOf(y) != idOf(x)
    ensures DistinctIds([x] + t, idOf)
  {
    var s := [x] + t;
    forall i, j | 0 <= i < j < |s| ensures idOf(s[i]) != idOf(s[j]) {
      if i == 0 {
        assert s[j] == t[j - 1];
      } else {
        assert s[i] == t[i - 1] && s[j] == t[j - 1];
      }
    }
  }

  lemma {:induction false} InsertDistinct<T>(x: T, t: seq<T>, key: T -> int, idOf: T -> string)
    requires DistinctIds(t, idOf)
    requires forall y :: y in t ==> idOf(y) != idOf(x)
    ensures DistinctIds(Insert(x, t, key), idOf)
  {
    if t == [] || key(t[0]) <= key(x) {
      ConsDistinct(x, t, idOf);
    } else {
      assert t == [t[0]] + t[1..];
      assert DistinctIds(t[1..], idOf) by {
        forall i, j | 0 <= i < j < |t| - 1 ensures idOf(t[1..][i]) != idOf(t[1..][j]) {
          assert t[1..][i] == t[i + 1] && t[1..][j] == t[j + 1];
        }
      }
      InsertDistinct(x, t[1..], key, idOf);
      var rest := Insert(x, t[1..], key);
      forall y | y in rest ensures idOf(y) != idOf(t[0]) {
        assert y in multiset(rest);
        if y != x {
          var j :| 0 <= j < |t[1..]| && t[1..][j] == y;
          assert t[j + 1] == y;
        }
      }
      ConsDistinct(t[0], rest, idOf);
    }
  }

  /** Sorting keeps ids distinct. */
  lemma {:induction false} SortDistinct<T>(s: seq<T>, key: T -> int, idOf: T -> string)
    requires DistinctIds(s, idOf)
    ensures DistinctIds(SortDesc(s, key), idOf)
  {
    if s != [] {
      assert DistinctIds(s[1..], idOf) by {
        forall i, j | 0 <= i < j < |s| - 1 ensures idOf(s[1..][i]) != idOf(s[1..][j]) {
          assert s[1..][i] == s[i + 1] && s[1..][j] == s[j + 1];
        }
      }
      SortDistinct(s[1..], key, idOf);
      var t := SortDesc(s[1..], key);
      forall y | y in t ensures idOf(y) != idOf(s[0]) {
        assert y in multiset(t);
        var j :| 0 <= j < |s[1..]| && s[1..][j] == y;
        assert s[j + 1] == y;
      }
      InsertDistinct(s[0], t, key, idOf);
    }
  }

  /** `splice(i, 1)`: drops the element at `i` and keeps the rest in order. */
  function RemoveAt<T>(s: seq<T>, i: nat): (r: seq<T>)
    requires i < |s|
    ensures |r| == |s| - 1
    ensures forall k :: 0 <= k < i ==> r[k] == s[k]
    ensures forall k :: i <= k < |r| ==> r[k] == s[k + 1]
    ensures multiset(r) + multiset{s[i]} == multiset(s)
  {
    assert s == s[..i] + [s[i]] + s[i + 1..];
    s[..i] + s[i + 1..]
  }

  /** Removing keeps ids distinct, and the removed id is then gone. */
  lemma RemoveDistinct<T>(s: seq<T>, i: nat, idOf: T -> string)
    requires i < |s| && DistinctIds(s, idOf)
    ensures DistinctIds(RemoveAt(s, i), idOf)
    ensures forall k :: 0 <= k < |s| - 1 ==> idOf(RemoveAt(s, i)[k]) != idOf(s[i])
  {
    var r := RemoveAt(s, i);
    forall a, b | 0 <= a < b < |r| ensures idOf(r[a]) != idOf(r[b]) {
      var a' := if a < i then a else a + 1;
      var b' := if b < i then b else b + 1;
      assert r[a] == s[a'] && r[b] == s[b'];
    }
    forall k | 0 <= k < |r| ensures idOf(r[k]) != idOf(s[i]) {
      var k' := if k < i then k else k + 1;
      assert r[k] == s[k'];
    }
  }

  /**
   * The id discipline of a store: ids are pairwise distinct and each one
   * was handed out by the store's counter, which now stands at `counter`.
   */
  ghost predicate IdsIssued<T>(s: seq<T>, idOf: T -> string, prefix: string, counter: nat) {
    && counter >= 1
    && DistinctIds(s, idOf)
    && forall k :: 0 <= k < |s| ==> idOf(s[k]) in IssuedIds(prefix, counter)
  }

  /** Appending a record that takes the counter's next id keeps the discipline. */
  lemma IssueNext<T>(s: seq<T>, x: T, idOf: T -> string, prefix: string, counter: nat)
    requires IdsIssued(s, idOf, prefix, counter)
    requires idOf(x) == FormatId(prefix, counter)
    ensures IdsIssued(s + [x], idOf, prefix, counter + 1)
  {
    FreshId(prefix, counter);
    var t := s + [x];
    forall i, j | 0 <= i < j < |t| ensures idOf(t[i]) != idOf(t[j]) {
      assert t[i] == s[i];
      if j < |s| {
        assert t[j] == s[j];
      }
    }
    forall k | 0 <= k < |t| ensures idOf(t[k]) in IssuedIds(prefix, counter + 1) {
      if k < |s| {
        assert t[k] == s[k];
      }
    }
  }

  /** Replacing a record by one with the same id keeps the discipline. */
  lemma IssuedUpdate<T>(s: seq<T>, i: nat, y: T, idOf: T -> string, prefix: string, counter: nat)
    requires i < |s| && IdsIssued(s, idOf, prefix, counter)
    requires idOf(y) == idOf(s[i])
    ensures IdsIssued(s[i := y], idOf, prefix, counter)
  {
  }

  /** Removing a record keeps the discipline, and its id is then absent. */
  lemma IssuedRemove<T>(s: seq<T>, i: nat, idOf: T -> string, prefix: string, counter: nat)
    requires i < |s| && IdsIssued(s, idOf, prefix, counter)
    ensures IdsIssued(RemoveAt(s, i), idOf, prefix, counter)
    ensures forall k :: 0 <= k < |s| - 1 ==> idOf(RemoveAt(s, i)[k]) != idOf(s[i])
  {
    RemoveDistinct(s, i, idOf);
  }

  /** Sorting keeps the discipline. */
  lemma IssuedSort<T>(s: seq<T>, key: T -> int, idOf: T -> string, prefix: string, counter: nat)
    requires IdsIssued(s, idOf, prefix, counter)
    ensures IdsIssued(SortDesc(s, key), idOf, prefix, counter)
  {
    SortDistinct(s, key, idOf);
    var t := SortDesc(s, key);
    forall k | 0 <= k < |t| ensures idOf(t[k]) in IssuedIds(prefix, counter) {
      assert t[k] in multiset(s);
    }
  }

  // ---------------------------------------------------------------------
  // pagination

  /** `Math.ceil(total / limit)`. */
  function TotalPages(total: nat, limit: nat): (pages: nat)
    requires limit >= 1
    ensures pages * limit >= total
    ensures pages == 0 || (pages - 1) * limit < total
  {
    var q := (total + limit - 1) / limit;
    var m := (total + limit - 1) % limit;
    assert total + limit - 1 == q * limit + m;
    assert q * limit - limit == (q - 1) * limit;
    q
  }

  /** `slice(start, start + limit)`, clipped to the end of `s`. */
  function Window<T>(s: seq<T>, start: nat, limit: nat): (r: seq<T>)
    ensures |r| == (if start >= |s| then 0 else if start + limit <= |s| then limit else |s| - start)
    ensures forall k :: 0 <= k < |r| ==> r[k] == s[start + k]
  {
    if start >= |s| then [] else if start + limit >= |s| then s[start..] else s[start..start + limit]
  }

  /** `slice((page - 1) * limit, (page - 1) * limit + limit)`. */
  function PageOf<T>(s: seq<T>, page: nat, limit: nat): (r: seq<T>)
    requires page >= 1 && limit >= 1
    ensures var start := (page - 1) * limit;
      && |r| == (if start >= |s| then 0 else if start + limit <= |s| then limit else |s| - start)
      && forall k :: 0 <= k < |r| ==> r[k] == s[start + k]
  {
    Window(s, (page - 1) * limit, limit)
  }

  /** A page is a run of consecutive elements, so it is sorted when the whole is. */
  lemma PageSorted<T>(s: seq<T>, page: nat, limit: nat, key: T -> int)
    requires page >= 1 && limit >= 1
    requires SortedDesc(s, key)
    ensures SortedDesc(PageOf(s, page, limit), key)
    ensures forall k :: 0 <= k < |PageOf(s, page, limit)| ==> PageOf(s, page, limit)[k] in s
  {
    var r := PageOf(s, page, limit);
    var start := (page - 1) * limit;
    forall i, j | 0 <= i < j < |r| ensures key(r[i]) >= key(r[j]) {
      assert r[i] == s[start + i] && r[j] == s[start + j];
    }
    forall k | 0 <= k < |r| ensures r[k] in s {
      assert r[k] == s[start + k];
    }
  }

  /** A page has entries exactly when its number is at most the page count. */
  lemma PageNonEmpty<T>(s: seq<T>, page: nat, limit: nat)
    requires page >= 1 && limit >= 1
    ensures |PageOf(s, page, limit)| > 0 <==> page <= TotalPages(|s|, limit)
  {
    var pages := TotalPages(|s|, limit);
    if page <= pages {
      MultiplyMonotone(page - 1, pages - 1, limit);
    } else {
      MultiplyMonotone(pages, page - 1, limit);
    }
  }

  lemma MultiplyMonotone(a: nat, b: nat, c: nat)
    requires a <= b
    ensures a * c <= b * c
  {
    assert b * c == a * c + (b - a) * c;
  }
}
