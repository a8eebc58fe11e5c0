/**
 * simpleFilter01.tsx: 200 named items, a `filter` signal, and the memo
 * `filteredData` keeping the items whose lower-cased name contains the
 * lower-cased filter. The page's `DebouncedInput` writes the typed text into
 * `filter` at once, and its timer hands `filter()` back to `setFilter`.
 * Lower-casing is ASCII only.
 */
module NameFilter {
  import opened Options
  import opened Debounce
  import opened DebouncedInputs

  datatype Item = Item(name: string)

  predicate IsUpper(c: char) {
    'A' <= c <= 'Z'
  }

  /** `toLowerCase` on one character, ASCII letters only. */
  function LowerChar(c: char): (r: char)
    ensures !IsUpper(r)
    ensures IsUpper(c) ==> r as int - c as int == 'a' as int - 'A' as int
    ensures !IsUpper(c) ==> r == c
  {
    if IsUpper(c) then (c as int - 'A' as int + 'a' as int) as char else c
  }

  /** `toLowerCase`. */
  function Lower(s: string): (r: string)
    ensures |r| == |s|
    ensures forall i :: 0 <= i < |s| ==> r[i] == LowerChar(s[i])
  {
    seq(|s|, i requires 0 <= i < |s| => LowerChar(s[i]))
  }

  /** Lower-casing twice is lower-casing once. */
  lemma LowerIdempotent(s: string)
    ensures Lower(Lower(s)) == Lower(s)
  {
  }

  /** `hay.includes(needle)`: the needle starts here, or somewhere further on. */
  predicate Includes(hay: string, needle: string)
    decreases |hay|
  {
    needle <= hay || (|hay| > 0 && Includes(hay[1..], needle))
  }

  /** The needle occurs at position `i`. */
  predicate WindowAt(hay: string, needle: string, i: int) {
    0 <= i <= |hay| - |needle| && hay[i..i + |needle|] == needle
  }

  lemma {:induction false} IncludesGivesWindow(hay: string, needle: string)
    requires Includes(hay, needle)
    ensures exists i :: WindowAt(hay, needle, i)
    decreases |hay|
  {
    if needle <= hay {
      assert hay[0..|needle|] == needle;
      assert WindowAt(hay, needle, 0);
    } else {
      IncludesGivesWindow(hay[1..], needle);
      var j :| WindowAt(hay[1..], needle, j);
      assert hay[1..][j..j + |needle|] == hay[j + 1..j + 1 + |needle|];
      assert WindowAt(hay, needle, j + 1);
    }
  }

  lemma {:induction false} WindowGivesIncludes(hay: string, needle: string, i: int)
    requires WindowAt(hay, needle, i)
    ensures Includes(hay, needle)
    decreases i
  {
    if i == 0 {
      assert hay[..|needle|] == needle;
    } else {
      assert hay[1..][i - 1..i - 1 + |needle|] == hay[i..i + |needle|];
      WindowGivesIncludes(hay[1..], needle, i - 1);
    }
  }

  /** `Includes` agrees with the window definition: the needle is some slice of the haystack. */
  lemma IncludesIffWindow(hay: string, needle: string)
    ensures Includes(hay, needle) <==> exists i :: WindowAt(hay, needle, i)
  {
    if Includes(hay, needle) {
      IncludesGivesWindow(hay, needle);
    }
    if exists i :: WindowAt(hay, needle, i) {
      var i :| WindowAt(hay, needle, i);
      WindowGivesIncludes(hay, needle, i);
    }
  }

  /** The empty filter is included in every name. */
  lemma IncludesEmpty(hay: string)
    ensures Includes(hay, "")
  {
  }

  /** The memo's test for one item. */
  predicate Matches(filter: string, item: Item) {
    Includes(Lower(item.name), Lower(filter))
  }

  /**
   * `filteredData()`: exactly the matching items, each as often as in `data`,
   * every one of them an item of `data`.
   */
  function FilteredData(data: seq<Item>, filter: string): (r: seq<Item>)
    ensures forall x :: x in r <==> x in data && Matches(filter, x)
    ensures forall x :: multiset(r)[x] == if Matches(filter, x) then multiset(data)[x] else 0
    ensures |r| <= |data|
    decreases |data|
  {
    if data == [] then []
    else
      var rest := FilteredData(data[1..], filter);
      assert data == [data[0]] + data[1..];
      if Matches(filter, data[0]) then [data[0]] + rest else rest
  }

  /** `a` is `b` with some elements left out, in the same order. */
  predicate Subsequence<X(==)>(a: seq<X>, b: seq<X>)
    decreases |b|
  {
    if a == [] then true
    else if b == [] then false
    else (a[0] == b[0] && Subsequence(a[1..], b[1..])) || Subsequence(a, b[1..])
  }

  /** `Array.prototype.filter` keeps the order: the result is a subsequence of `data`. */
  lemma {:induction false} FilteredIsSubsequence(data: seq<Item>, filter: string)
    ensures Subsequence(FilteredData(data, filter), data)
    decreases |data|
  {
    if data != [] {
      FilteredIsSubsequence(data[1..], filter);
      var rest := FilteredData(data[1..], filter);
      if Matches(filter, data[0]) {
        assert FilteredData(data, filter) == [data[0]] + rest;
        assert ([data[0]] + rest)[1..] == rest;
      } else if rest != [] {
        assert FilteredData(data, filter) == rest;
      }
    }
  }

  /** The empty filter keeps every item, in order. */
  lemma {:induction false} EmptyFilterKeepsAll(data: seq<Item>)
    ensures FilteredData(data, "") == data
    decreases |data|
  {
    if data != [] {
      IncludesEmpty(Lower(data[0].name));
      assert Lower("") == "";
      EmptyFilterKeepsAll(data[1..]);
      assert data == [data[0]] + data[1..];
    }
  }

  /** Filters that differ only in letter case give the same result. */
  lemma {:induction false} CaseInsensitive(data: seq<Item>, f: string, g: string)
    requires Lower(f) == Lower(g)
    ensures FilteredData(data, f) == FilteredData(data, g)
    decreases |data|
  {
    if data != [] {
      CaseInsensitive(data[1..], f, g);
    }
  }

  /** The page: the items and the input whose value signal is `filter`. */
  class SearchPage {
    const data: seq<Item>
    const input: DebouncedInput<string>

    /** What the table lists. */
    function Shown(): seq<Item>
      reads input
    {
      FilteredData(data, input.value)
    }

    ghost predicate Valid()
      reads input
    {
      input.cfg.guard == NoGuard
    }

    /** Mounting with `filter` = "": every item is listed. */
    constructor (cfg: Config, data: seq<Item>, now: int)
      requires cfg.guard == NoGuard
      ensures Valid()
      ensures this.data == data && input.State() == Create(cfg, "", now)
      ensures Shown() == data
      ensures fresh(input)
    {
      this.data := data;
      input := new DebouncedInput(cfg, "", now);
      EmptyFilterKeepsAll(data);
    }

    /** `setFilter(e.currentTarget.value)`: the list follows the text at once. */
    method Type(v: string)
      requires Valid()
      modifies input
      ensures Valid()
      ensures input.State() == OnRawInput(input.cfg, old(input.State()), v)
      ensures input.mounted && input.cfg.inputWrites ==> Shown() == FilteredData(data, v)
    {
      input.OnInput(v);
    }

    method Tick(dt: nat)
      requires Valid()
      modifies input
      ensures Valid()
      ensures input.State() == Advance(old(input.State()), dt)
      ensures Shown() == old(Shown())
    {
      input.Tick(dt);
    }

    /** A timer fires: `onChange(filter())` is `setFilter` of the value it already holds, so nothing changes. */
    method Fire(k: nat)
      requires Valid()
      modifies input
      ensures Valid()
      ensures input.State() == FireTimer(input.cfg, old(input.State()), k)
      ensures input.value == old(input.value)
      ensures Shown() == old(Shown())
    {
      var notified := input.Fire(k);
      if notified.Some? {
        assert notified.value == input.value;
        input.SetValue(notified.value);
      }
    }
  }
}
