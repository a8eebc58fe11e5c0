/**
 * The small rules the filter pages apply around the table: the effect that forces
 * sorting by "fullName", the updaters handed to `column.setFilterValue`, the
 * numeric range tuple of filter03a.tsx, the page-number input and the direct
 * (undebounced) text filter. The table library itself is not modelled: its state
 * is reduced to the two sequences these rules read and write.
 */
module TableModel {
  import opened Options
  import opened FilterValues

  datatype ColumnFilter<V> = ColumnFilter(id: string, value: V)
  datatype ColumnSort = ColumnSort(id: string, desc: bool)

  /** The part of the table's state the pages touch. */
  datatype TableState<V> = TableState(columnFilters: seq<ColumnFilter<V>>, sorting: seq<ColumnSort>)

  const FullName: string := "fullName"

  /**
   * The effect's condition: `columnFilters[0]?.id === "fullName"` and
   * `sorting[0]?.id !== "fullName"` (an empty sorting has no id, so it differs).
   */
  predicate NeedsFullNameSort<V>(s: TableState<V>) {
    && |s.columnFilters| > 0 && s.columnFilters[0].id == FullName
    && (|s.sorting| == 0 || s.sorting[0].id != FullName)
  }

  /**
   * The effect itself: when needed, `table.setSorting([{ id: "fullName", desc: false }])`.
   * Afterwards the condition no longer holds; the column filters are never touched;
   * the sorting is either kept or becomes exactly the one ascending fullName entry;
   * and the state changes if and only if the condition held.
   */
  function EnforceFullNameSort<V(==)>(s: TableState<V>): (r: TableState<V>)
    ensures !NeedsFullNameSort(r)
    ensures r.columnFilters == s.columnFilters
    ensures r.sorting == s.sorting || r.sorting == [ColumnSort(FullName, false)]
    ensures r == s <==> !NeedsFullNameSort(s)
  {
    if NeedsFullNameSort(s) then s.(sorting := [ColumnSort(FullName, false)]) else s
  }

  /** Running the effect again changes nothing. */
  lemma FullNameSortIdempotent<V>(s: TableState<V>)
    ensures EnforceFullNameSort(EnforceFullNameSort(s)) == EnforceFullNameSort(s)
  {
  }

  /** A sorting that already starts with fullName is kept whatever direction it has. */
  lemma FullNameSortKeepsExisting<V>(s: TableState<V>)
    requires |s.sorting| > 0 && s.sorting[0].id == FullName
    ensures EnforceFullNameSort(s) == s
  {
  }

  /**
   * What `column.setFilterValue` accepts: a value, or a function of the previous
   * filter value (`undefined` when the column has none).
   */
  datatype Updater<!V> = Assign(v: V) | Update(f: Option<V> -> V)

  /** The table library's functional update. */
  function ApplyUpdater<V>(u: Updater<V>, prev: Option<V>): V {
    match u
    case Assign(v) => v
    case Update(f) => f(prev)
  }

  /**
   * filter03d1.tsx hands the signal accessor `filterVal` itself to
   * `setFilterValue`; the accessor ignores its argument and returns the
   * signal's current value `current`.
   */
  function AccessorUpdater<V>(current: V): Updater<V> {
    Update((_: Option<V>) => current)
  }

  /** Passing the accessor stores the same value as passing `filterVal()`. */
  lemma AccessorActsAsValue<V>(current: V, prev: Option<V>)
    ensures ApplyUpdater(AccessorUpdater(current), prev) == ApplyUpdater(Assign(current), prev)
  {
  }

  /** The range filter value `[min, max]` of a numeric column; either end may be undefined. */
  datatype RangeFilter<E> = RangeFilter(min: Option<E>, max: Option<E>)

  /** `prev?.[0]` */
  function OldMin<E>(prev: Option<RangeFilter<E>>): Option<E> {
    if prev.Some? then prev.value.min else None
  }

  /** `prev?.[1]` */
  function OldMax<E>(prev: Option<RangeFilter<E>>): Option<E> {
    if prev.Some? then prev.value.max else None
  }

  /** The minimum input's updater: `(prev) => [value, prev?.[1]]`. */
  function SetMin<E>(value: E): Updater<RangeFilter<E>> {
    Update((prev: Option<RangeFilter<E>>) => RangeFilter(Some(value), OldMax(prev)))
  }

  /** The maximum input's updater: `(prev) => [prev?.[0], value]`. */
  function SetMax<E>(value: E): Updater<RangeFilter<E>> {
    Update((prev: Option<RangeFilter<E>>) => RangeFilter(OldMin(prev), Some(value)))
  }

  /** Setting the minimum stores it and keeps the previous maximum (undefined when there was no tuple). */
  lemma SetMinKeepsMax<E>(prev: Option<RangeFilter<E>>, value: E)
    ensures ApplyUpdater(SetMin(value), prev).min == Some(value)
    ensures ApplyUpdater(SetMin(value), prev).max == (if prev.Some? then prev.value.max else None)
  {
  }

  /** Setting the maximum stores it and keeps the previous minimum (undefined when there was no tuple). */
  lemma SetMaxKeepsMin<E>(prev: Option<RangeFilter<E>>, value: E)
    ensures ApplyUpdater(SetMax(value), prev).max == Some(value)
    ensures ApplyUpdater(SetMax(value), prev).min == (if prev.Some? then prev.value.min else None)
  {
  }

  /** The two inputs do not interfere: min and max updates commute. */
  lemma RangeUpdatesCommute<E>(prev: Option<RangeFilter<E>>, lo: E, hi: E)
    ensures ApplyUpdater(SetMax(hi), Some(ApplyUpdater(SetMin(lo), prev)))
         == ApplyUpdater(SetMin(lo), Some(ApplyUpdater(SetMax(hi), prev)))
    ensures ApplyUpdater(SetMax(hi), Some(ApplyUpdater(SetMin(lo), prev))) == RangeFilter(Some(lo), Some(hi))
  {
  }

  /** A later minimum replaces an earlier one. */
  lemma SetMinOverwrites<E>(prev: Option<RangeFilter<E>>, a: E, b: E)
    ensures ApplyUpdater(SetMin(b), Some(ApplyUpdater(SetMin(a), prev))) == ApplyUpdater(SetMin(b), prev)
  {
  }

  /** The minimum input shows `columnFilterValue?.[0] ?? ""`. */
  function MinShown(f: Option<RangeFilter<Val>>): Val {
    OldMin(f).GetOr(Str(""))
  }

  /** The maximum input shows `columnFilterValue?.[1] ?? ""`. */
  function MaxShown(f: Option<RangeFilter<Val>>): Val {
    OldMax(f).GetOr(Str(""))
  }

  /** After an update the input shows the value it handed over; the other input is unaffected. */
  lemma RangeShownRoundTrip(prev: Option<RangeFilter<Val>>, v: Val)
    ensures MinShown(Some(ApplyUpdater(SetMin(v), prev))) == v
    ensures MaxShown(Some(ApplyUpdater(SetMin(v), prev))) == MaxShown(prev)
    ensures MaxShown(Some(ApplyUpdater(SetMax(v), prev))) == v
    ensures MinShown(Some(ApplyUpdater(SetMax(v), prev))) == MinShown(prev)
  {
  }

  /**
   * "Go to page": an empty field gives page index 0, a number `n` gives `n - 1`
   * (no clamping here; `Some(0)` gives -1). Parsing the text is not modelled.
   */
  function PageIndexFromInput(input: Option<int>): int {
    match input
    case None => 0
    case Some(n) => n - 1
  }

  /** The page number shown for a page index: `pageIndex + 1`. */
  function PageShown(pageIndex: int): int {
    pageIndex + 1
  }

  /** Typing the shown page number goes back to the same page, and vice versa. */
  lemma PageNumberRoundTrip(pageIndex: int, n: int)
    ensures PageIndexFromInput(Some(PageShown(pageIndex))) == pageIndex
    ensures PageShown(PageIndexFromInput(Some(n))) == n
  {
  }

  /** The direct text filter: each `onInput` writes the raw text into the column at once. */
  function DirectTextInput(prev: Option<Val>, text: string): Option<Val> {
    Some(Str(text))
  }

  /** The text box shows `column.getFilterValue() ?? ""`. */
  function TextShown(f: Option<Val>): Val {
    f.GetOr(Str(""))
  }

  /** What was typed is what the box shows and what the read-out prints, with no delay. */
  lemma DirectTextRoundTrip(prev: Option<Val>, text: string)
    ensures TextShown(DirectTextInput(prev, text)) == Str(text)
    ensures NoFilterDisplay(DirectTextInput(prev, text)) == text
  {
  }
}
