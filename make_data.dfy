/**
 * makeData.ts of the infinite-scrolling table: generated people with ids
 * 1..n, and `fetchData`, a stand-in backend that copies the rows, sorts the
 * copy by the first sort key, and returns one page with the total row count.
 * The generated fields other than the id come from faker and are a parameter
 * here; a column's sort key is an integer rank standing for JavaScript's `<`
 * on that field.
 */
module MakeData {
  import opened TableModel

  datatype Status = Relationship | Complicated | Single

  /** The faker-generated fields. */
  datatype Details = Details(
    firstName: string, lastName: string, age: int, visits: int, progress: int,
    createdAt: int, status: Status)

  datatype Person = Person(id: int, details: Details)

  datatype PersonApiResponse = PersonApiResponse(data: seq<Person>, totalRowCount: int)

  /** `[0, 1, ..., len - 1]`; empty when `len` is not positive. */
  function IndexRange(len: int): (r: seq<int>)
    ensures |r| == if len < 0 then 0 else len
    ensures forall i :: 0 <= i < |r| ==> r[i] == i
  {
    if len <= 0 then [] else IndexRange(len - 1) + [len - 1]
  }

  /** `range(len)`: the loop pushing `0, 1, ..., len - 1`. */
  method Range(len: int) returns (arr: seq<int>)
    ensures arr == IndexRange(len)
  {
    arr := [];
    var i := 0;
    while i < len
      invariant 0 <= i
      invariant len > 0 ==> i <= len
      invariant len <= 0 ==> i == 0
      invariant arr == IndexRange(i)
    {
      arr := arr + [i];
      i := i + 1;
    }
  }

  /** `newPerson(index)`: the id is `index + 1`; the rest is generated. */
  function NewPerson(index: int, fake: int -> Details): Person {
    Person(index + 1, fake(index))
  }

  /**
   * `makeData(...lens)`: one level only, of `lens[0]` people (none when no length
   * is given, as `range(undefined)` is empty); ids 1..n in order.
   */
  function MakeData(lens: seq<int>, fake: int -> Details): (r: seq<Person>)
    ensures |lens| == 0 ==> r == []
    ensures |lens| > 0 ==> |r| == if lens[0] < 0 then 0 else lens[0]
    ensures forall i :: 0 <= i < |r| ==> r[i].id == i + 1 && r[i].details == fake(i)
  {
    if |lens| == 0 then []
    else
      var ix := IndexRange(lens[0]);
      seq(|ix|, i requires 0 <= i < |ix| => NewPerson(ix[i], fake))
  }

  /** Only the first length counts. */
  lemma MakeDataUsesFirstLength(lens: seq<int>, fake: int -> Details)
    requires |lens| > 0
    ensures MakeData(lens, fake) == MakeData([lens[0]], fake)
  {
  }

  /** No two generated people share an id. */
  lemma MakeDataIdsDistinct(lens: seq<int>, fake: int -> Details, i: int, j: int)
    requires 0 <= i < j < |MakeData(lens, fake)|
    ensures MakeData(lens, fake)[i].id != MakeData(lens, fake)[j].id
  {
  }

  // ----- `Array.prototype.slice` -----

  /** A slice bound: a negative one counts from the end, and either is clamped to the length. */
  function ClampIndex(i: int, len: nat): (r: nat)
    ensures r <= len
  {
    if i < 0 then (if len + i < 0 then 0 else len + i) else if i > len then len else i
  }

  /** `s.slice(from, to)`. */
  function JsSlice<X>(s: seq<X>, from: int, to: int): seq<X> {
    var a := ClampIndex(from, |s|);
    var b := ClampIndex(to, |s|);
    if a < b then s[a..b] else []
  }

  /** For a page from `start >= 0`, the page holds `min(size, max(0, total - start))` rows. */
  lemma PageLength<X>(s: seq<X>, start: int, size: int)
    requires start >= 0 && size >= 0
    ensures |JsSlice(s, start, start + size)|
         == if size == 0 || start >= |s| then 0 else if size < |s| - start then size else |s| - start
  {
  }

  /** A page from `start >= 0` consists of the rows at `start`, `start + 1`, ... */
  lemma PageRows<X>(s: seq<X>, start: int, size: int, i: int)
    requires start >= 0 && 0 <= i < |JsSlice(s, start, start + size)|
    ensures JsSlice(s, start, start + size)[i] == s[start + i]
  {
  }

  /** Consecutive pages neither overlap nor leave a gap. */
  lemma PagesTile<X>(s: seq<X>, start: int, n: int, m: int)
    requires 0 <= start && 0 <= n && 0 <= m
    ensures JsSlice(s, start, start + n) + JsSlice(s, start + n, start + n + m) == JsSlice(s, start, start + n + m)
  {
    var len := |s|;
    var a := ClampIndex(start, len);
    var b := ClampIndex(start + n, len);
    var c := ClampIndex(start + n + m, len);
    assert a <= b <= c;
    if a < b && b < c {
      assert s[a..b] + s[b..c] == s[a..c];
    }
  }

  // ----- Sorting -----

  /** The comparator's order: ascending, or descending when `desc`. */
  predicate InOrder(x: int, y: int, desc: bool) {
    if desc then x >= y else x <= y
  }

  ghost predicate SortedBy(s: seq<Person>, key: Person -> int, desc: bool) {
    forall i, j :: 0 <= i < j < |s| ==> InOrder(key(s[i]), key(s[j]), desc)
  }

  /**
   * `dbData.sort(...)`: the comparator ranks by the key, descending when `desc`.
   * The order among rows with equal keys is not specified.
   */
  method SortRows(a: array<Person>, key: Person -> int, desc: bool)
    modifies a
    ensures SortedBy(a[..], key, desc)
    ensures multiset(a[..]) == multiset(old(a[..]))
  {
    var i := 0;
    while i < a.Length
      invariant 0 <= i <= a.Length
      invariant SortedBy(a[..i], key, desc)
      invariant multiset(a[..]) == multiset(old(a[..]))
    {
      InsertLast(a, i, key, desc);
      i := i + 1;
    }
  }

  /** Within `s[..i + 1]`, every pair not involving position `j` is in order. */
  ghost predicate SortedExcept(s: seq<Person>, j: int, i: int, key: Person -> int, desc: bool)
    requires i < |s|
  {
    forall p, q :: 0 <= p < q <= i && p != j && q != j ==> InOrder(key(s[p]), key(s[q]), desc)
  }

  /** The element at `j` is in order with everything after it up to `i`. */
  ghost predicate BeforeRest(s: seq<Person>, j: int, i: int, key: Person -> int, desc: bool)
    requires 0 <= j <= i < |s|
  {
    forall q :: j < q <= i ==> InOrder(key(s[j]), key(s[q]), desc)
  }

  /** `s` with positions `k` and `k + 1` exchanged. */
  function SwapNext<X>(s: seq<X>, k: nat): (r: seq<X>)
    requires k + 1 < |s|
    ensures multiset(r) == multiset(s)
  {
    var r := s[k := s[k + 1]][k + 1 := s[k]];
    assert r == s[..k] + [s[k + 1], s[k]] + s[k + 2..];
    assert s == s[..k] + [s[k], s[k + 1]] + s[k + 2..];
    r
  }

  /** One step of moving the element at `j` left past a larger (or, descending, smaller) one. */
  lemma SwapStep(s: seq<Person>, j: nat, i: nat, key: Person -> int, desc: bool)
    requires 0 < j <= i < |s|
    requires SortedExcept(s, j, i, key, desc) && BeforeRest(s, j, i, key, desc)
    requires !InOrder(key(s[j - 1]), key(s[j]), desc)
    ensures SortedExcept(SwapNext(s, j - 1), j - 1, i, key, desc)
    ensures BeforeRest(SwapNext(s, j - 1), j - 1, i, key, desc)
  {
  }

  /** The element has reached its place: the prefix up to `i` is sorted. */
  lemma InsertDone(s: seq<Person>, j: nat, i: nat, key: Person -> int, desc: bool)
    requires j <= i < |s|
    requires SortedExcept(s, j, i, key, desc) && BeforeRest(s, j, i, key, desc)
    requires j == 0 || InOrder(key(s[j - 1]), key(s[j]), desc)
    ensures SortedBy(s[..i + 1], key, desc)
  {
    forall p, q | 0 <= p < q <= i
      ensures InOrder(key(s[p]), key(s[q]), desc)
    {
      if q == j && p < j - 1 {
        assert InOrder(key(s[p]), key(s[j - 1]), desc);
      }
    }
  }

  /** Moves `a[i]` left into the sorted prefix `a[..i]`. */
  method InsertLast(a: array<Person>, i: nat, key: Person -> int, desc: bool)
    requires i < a.Length
    requires SortedBy(a[..i], key, desc)
    modifies a
    ensures SortedBy(a[..i + 1], key, desc)
    ensures multiset(a[..]) == multiset(old(a[..]))
  {
    var j := i;
    assert SortedExcept(a[..], j, i, key, desc) by {
      assert forall p :: 0 <= p < i ==> a[..i][p] == a[p];
    }
    while j > 0 && !InOrder(key(a[j - 1]), key(a[j]), desc)
      invariant 0 <= j <= i
      invariant SortedExcept(a[..], j, i, key, desc) && BeforeRest(a[..], j, i, key, desc)
      invariant multiset(a[..]) == multiset(old(a[..]))
    {
      ghost var s := a[..];
      SwapStep(s, j, i, key, desc);
      a[j - 1], a[j] := a[j], a[j - 1];
      assert a[..] == SwapNext(s, j - 1);
      j := j - 1;
    }
    InsertDone(a[..], j, i, key, desc);
  }

  /**
   * `fetchData(start, size, sorting)` over the rows `data`: a fresh copy, sorted
   * by `sorting[0]` when there is one, sliced; `data` itself is not reordered.
   * `ordered` is the sorted copy the page was cut from.
   */
  method FetchData(data: array<Person>, start: int, size: int, sorting: seq<ColumnSort>, rank: (string, Person) -> int)
    returns (resp: PersonApiResponse, ghost ordered: seq<Person>)
    ensures resp.totalRowCount == data.Length
    ensures multiset(ordered) == multiset(data[..])
    ensures sorting == [] ==> ordered == data[..]
    ensures sorting != [] ==> SortedBy(ordered, p => rank(sorting[0].id, p), sorting[0].desc)
    ensures resp.data == JsSlice(ordered, start, start + size)
  {
    var db := new Person[data.Length](i reads data requires 0 <= i < data.Length => data[i]);
    assert db[..] == data[..];
    if |sorting| > 0 {
      var sort := sorting[0];
      SortRows(db, p => rank(sort.id, p), sort.desc);
    }
    ordered := db[..];
    resp := PersonApiResponse(JsSlice(db[..], start, start + size), db.Length);
  }
}
