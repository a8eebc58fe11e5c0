# SolidJS / TanStack Table playground: the debounced filters, their table rules, the paging backend and the counters

This project models, in Dafny, the logic this playground writes itself rather than hands to SolidJS, TanStack Table or TanStack Virtual. That logic falls into five parts.

- **The `DebouncedInput` copies.** The filter pages write out a debounced input several times. The copies differ in guard, delay, cancellation and tracking.
  - **Shared model.** All copies are one state machine on an explicit clock, in module `Debounce`. It holds the `value` prop, the value signal the element edits, the last debounced value, the pending timers as `(due, captured)` entries, the clock, the values handed to `onChange`, and whether the element is mounted. Its events are typing, a resync from the prop, a clock tick, a timer firing, and unmounting.
  - **Configurations.** Each copy's configuration is a constant in `DebounceCopies`.
  - **Classes.** `DebouncedInputs` and `SharedFilter` give the same machine as classes. Their fields are the signals. The `Filter` components own an input and write its emissions into the column's filter value. Every method is proved to move each input's channel exactly as the state machine's function does. In filter03d2.tsx the inputs share one value signal, so `SharedFilter.SharedFilterPage` exposes each input as a channel, `Input(i)`, and a keystroke into any input moves every one of them as a write.
  - **Guard variants:**
    1. emit the value captured at scheduling, if it differs from the debounced value (simpleDebounceTest.tsx, filterDb03.tsx);
    2. read the live value when firing, with the same test (filterDb02.tsx);
    3. emit the current value unconditionally (filter.tsx, filter00c.tsx, filter03a.tsx, filter03d1.tsx, filter03d2.tsx, filterDb01.tsx, simpleFilter01.tsx). filter.tsx defines its copy but never renders it: its `Filter` uses a plain input (filter.tsx:314-317), so that copy is modelled as written but is unused on its page.
- **The table-state rules the pages implement** (`TableModel`, `FilterValues`):
  - the effect that forces sorting by `fullName` when the first column filter is `fullName`;
  - the min/max updaters of the numeric range filter;
  - "Go to page" and the page number shown;
  - the direct text filter;
  - `getClassValue`;
  - the `"no filter"` read-out.
- **The name filter of simpleFilter01.tsx** (`NameFilter`): a case-insensitive substring filter. Lower-casing is ASCII.
- **The simulated backend of makeData.ts** (`MakeData`): `range`, the id numbering of `makeData`, and `fetchData`. `fetchData` takes a fresh copy of the rows, sorts the copy in place by the first sort key, slices one page and reports the total row count.
- **The counters of signal01.tsx and signal01a.tsx** (`Counter`).

## How the copies are configured

`Debounce.Config` records what distinguishes one copy from another:
- `guard`;
- `delay`;
- `tracksValue`: the timer effect re-runs when the value signal changes;
- `cleanup`: a cancelling closure runs on re-run and on unmount;
- `clearsFirst`: filter00c.tsx's own `clearTimeout` before rescheduling;
- `inputWrites`: whether the element's handler writes the signal;
- `resyncs`: whether an effect writes the `value` prop into the signal (filter.tsx, filter03a.tsx, filter03d1.tsx, filter03d2.tsx, filterDb01.tsx); the other copies ignore a new prop;
- `bindsProp`: whether the element's `value` attribute is bound to the destructured prop instead of the signal (filterDb01.tsx). Such a binding is a constant: SolidJS applies it once at mount and never again, so the box goes on showing whatever is typed.

Every configuration the model is built on is the one the code is evidently written for. The dependency array names the value signal, so a change re-runs the timer effect. The returned closure cancels the timer on re-run and on unmount. In SolidJS, neither holds:
- an effect re-runs only for signals read synchronously in its body;
- the second argument of `createEffect` is the initial value, not a dependency list;
- a returned closure becomes the next run's previous value and is never called.

`DebounceCopies.UnderSolid` gives each copy as SolidJS runs it. "## Findings" compares the two.

A write of the value a signal already holds notifies nothing. So these writes are no-ops:
- the resync effect's run at mount;
- simpleFilter01.tsx's `setFilter(filter())`;
- filter03d2.tsx's `setFilterValue(value)` echo.

Due timers may fire in any order. What is proved therefore also holds for the event loop's order.

Where the channel's intended design and the code disagree, the model follows the code. By the design, a reset that arrives while a timer is pending cancels it and emits nothing. In the copies with a resync effect (filter.tsx, filter03a.tsx, filter03d1.tsx, filter03d2.tsx, filterDb01.tsx), the resync is a write of the value signal. That write schedules a new timer, which later emits the resynced value (`Debounce.ResyncReschedulesEmission`, `DebounceCopies.FilterTsxResyncIsEmitted`).

## Model

| member | source | states |
|---|---|---|
| FilterValues.DigitsRoundTrip | src/routes/tables/filter01/filter.tsx:324-328 | the decimal text of a number reads back as the same number, so `String(n)` loses nothing |
| FilterValues.NoFilterShownWhen | src/routes/tables/filter01/filter.tsx:324-328 | the read-out is "no filter" exactly when the filter value is undefined or is the text "no filter"; a number never reads "no filter" |
| FilterValues.JoinLength | src/routes/tables/filter01/filter03a.tsx:259-260 | `join(" - ")` holds every part plus one three-character separator between each two neighbours |
| FilterValues.JoinSnoc | src/routes/tables/filter01/filter03a.tsx:259-260 | joining with one more part appends the separator and that part |
| FilterValues.ClassValueOfMinMax | src/routes/tables/filter01/filter03a.tsx:256-265 | for a faceted `[min, max]` array, `getClassValue` gives "min - max" |
| TableModel.EnforceFullNameSort | src/routes/tables/filterDebounce/filterDb03.tsx:100-106 | after the effect, the rule no longer applies; filters are untouched; sorting is kept or becomes exactly `[{fullName, asc}]`; the state changes if and only if the rule applied (the same effect is in every filter page) |
| TableModel.FullNameSortIdempotent | src/routes/tables/filter01/filter.tsx:165-171 | a second run of the effect changes nothing |
| TableModel.FullNameSortKeepsExisting | src/routes/tables/filter01/filter00c.tsx:228-234 | a sorting that already starts with fullName is kept, in whichever direction |
| TableModel.AccessorActsAsValue | src/routes/tables/filter01/filter03d1.tsx:242-247 | handing the accessor `filterVal` to `setFilterValue` stores the same value as handing over `filterVal()` |
| TableModel.SetMinKeepsMax | src/routes/tables/filter01/filter03a.tsx:541-542 | the minimum's updater stores the minimum and keeps the old maximum, which is undefined when there was no tuple |
| TableModel.SetMaxKeepsMin | src/routes/tables/filter01/filter03a.tsx:556-557 | the maximum's updater stores the maximum and keeps the old minimum, which is undefined when there was no tuple |
| TableModel.RangeUpdatesCommute | src/routes/tables/filter01/filter03a.tsx:541-557 | min and max updates commute, and together give `[lo, hi]` whatever was there |
| TableModel.SetMinOverwrites | src/routes/tables/filter01/filter03a.tsx:541-542 | a later minimum replaces an earlier one |
| TableModel.RangeShownRoundTrip | src/routes/tables/filter01/filter03a.tsx:540-557 | after an update, the updated input shows the value it handed over; the other input shows what it showed before |
| TableModel.PageNumberRoundTrip | src/routes/tables/filter01/filter03a.tsx:485-489 | typing the shown page number `pageIndex + 1` gives back `pageIndex`, and the reverse also holds |
| TableModel.DirectTextRoundTrip | src/routes/tables/filter01/filter.tsx:314-328 | text typed into the direct filter is at once what the box shows and what the read-out prints |
| Debounce.RawInputIsImmediate | src/routes/tables/filterDebounce/simpleDebounceTest.tsx:46-74 | typing sets the value at once and emits nothing; a tracked change schedules a timer `delay` later that captures the typed value; otherwise no timer is added |
| Debounce.IgnoredInputChangesNothing | src/routes/tables/filter01/filter03d1.tsx:217-220 | a change handler that only logs leaves the whole state unchanged |
| Debounce.PropBindingIgnoresTyping | src/routes/tables/filterDebounce/filterDb01.tsx:251-263 | a `value` attribute bound to the prop stays the mount-time prop and is never re-applied, whatever is typed; the typed text still reaches the value signal |
| Debounce.NoResyncIgnoresProp | src/routes/tables/filterDebounce/filterDb03.tsx:215-237 | a copy without a resync effect ignores a new `value` prop altogether |
| Debounce.MountResyncIsNoOp | src/routes/tables/filter01/filter.tsx:72-74 | the resync effect's run at mount writes the value already held, and changes nothing |
| Debounce.UnguardedFireEmitsValue | src/routes/tables/filter01/filter00c.tsx:103-106 | an unguarded firing timer emits exactly the current value, even an unchanged one, and changes no signal |
| Debounce.IgnoredInputKeepsAllEqual | src/routes/tables/filter01/filter03d1.tsx:185-220 | when the handler never writes and no resync comes, a state whose value, timers and emissions all hold `v` stays so |
| Debounce.IgnoredInputEmitsOnlyInitial | src/routes/tables/filter01/filter03d1.tsx:185-220 | in such a copy the value stays the initial one and every emission is the initial value |
| Debounce.StepKeepsGuardInv | src/routes/tables/filterDebounce/simpleDebounceTest.tsx:54-58 | every event of a guarded copy keeps emissions free of repeats and the debounced value equal to the last one |
| Debounce.RunKeepsGuardInv | src/routes/tables/filterDebounce/filterDb02.tsx:233-237 | the same over any sequence of events |
| Debounce.GuardedNeverRepeats | src/routes/tables/filterDebounce/filterDb03.tsx:228-231 | in a guarded copy, whether or not timers are ever cancelled: two successive emissions differ, the first differs from the initial value, and the debounced value is the last emission |
| Debounce.StepKeepsWithin | src/routes/tables/filterDebounce/simpleDebounceTest.tsx:51-57 | no event brings in a value other than the ones written |
| Debounce.RunKeepsWithin | src/routes/tables/filterDebounce/simpleDebounceTest.tsx:51-57 | the same over any sequence of events |
| Debounce.EmissionsWereWritten | src/routes/tables/filter01/filter.tsx:76-79 | every emission is the initial value or a value typed or resynced earlier |
| Debounce.UnmountedStaysSilent | src/routes/tables/filterDebounce/simpleDebounceTest.tsx:61-64 | an unmounted input with no timer never emits again and stays unmounted |
| Debounce.DisposeSilences | src/routes/tables/filterDebounce/simpleDebounceTest.tsx:9-16 | when the cleanup runs on unmount (toggling the input away), nothing is emitted afterwards |
| Debounce.StepKeepsCoalesced | src/routes/tables/filter01/filter00c.tsx:101-108 | in a copy that cancels before rescheduling, every event keeps at most one timer, holding the current value |
| Debounce.RunKeepsCoalesced | src/routes/tables/filter01/filter00c.tsx:101-108 | the same over any sequence of events |
| Debounce.AtMostOnePending | src/routes/tables/filter01/filter00c.tsx:99-108 | from mount on, at most one timer is ever pending, and it carries the current value |
| Debounce.FireIsNeverStale | src/routes/tables/filter01/filter00c.tsx:103-106 | in such a state a firing timer emits the current value or nothing |
| Debounce.RestoringEmitsNothing | src/routes/tables/filterDebounce/simpleDebounceTest.tsx:54-57 | typing and then restoring the debounced value emits nothing, whenever a timer fires |
| Debounce.ChangingBurstIsTight | src/routes/tables/filterDebounce/filterDb03.tsx:225-237 | a burst whose every keystroke changes the value, each followed by less than `delay`, never lets the value stand unchanged for `delay` |
| Debounce.TightPrefix | src/routes/tables/filterDebounce/filterDb03.tsx:225-237 | every prefix of a burst that never lets the value stand for `delay` has the same property |
| Debounce.BurstKeepsOneTimer | src/routes/tables/filterDebounce/filterDb03.tsx:225-237 | in a cancelling copy, each keystroke of such a burst leaves exactly one timer, capturing the current value and due `delay` after its last change |
| Debounce.BurstTypes | src/routes/tables/filterDebounce/filterDb03.tsx:243-245 | in any copy, a burst at any gaps leaves the value at its last keystroke and emits nothing |
| Debounce.BurstCoalesces | src/routes/tables/filterDebounce/filterDb03.tsx:225-237 | in a burst at any per-keystroke gaps, repeats allowed, in which the value never stands unchanged for `delay`: nothing is emitted, no timer is due at any moment of it, and one timer is left, capturing the last value, due `delay` after the last keystroke that changed the value |
| Debounce.BurstThenSilence | src/routes/tables/filterDebounce/filterDb03.tsx:225-237 | after such a burst, nothing is due until `delay` has passed since its last change; then the one timer emits the last value (a guarded copy only if it is new) and no timer is left |
| Debounce.UnguardedEmitsOnMount | src/routes/tables/filter01/filter.tsx:76-82 | an unguarded copy emits its initial value `delay` after mount, though nothing was typed |
| Debounce.GuardedSilentOnMount | src/routes/tables/filterDebounce/filterDb03.tsx:225-232 | a guarded copy's mount timer emits nothing |
| Debounce.ResyncReschedulesEmission | src/routes/tables/filter01/filter.tsx:72-82 | a resync after typing cancels the typed value's timer, writes the prop, and later emits the prop's value |
| Debounce.UncancelledCapturedEmitsEach | src/routes/tables/filterDebounce/simpleDebounceTest.tsx:46-65 | without cancellation, a captured-value copy emits both keystrokes of a burst, even when the second restores the initial value |
| Debounce.UncancelledLiveEmitsLast | src/routes/tables/filterDebounce/filterDb02.tsx:229-245 | a live-read copy, with or without cancellation: after a burst of any length and gaps during which no timer fired, any later firings, ticks and unmounting emit at most once, only the burst's last value, only if it is new; the first due timer to fire emits it |
| Debounce.LiveRunKeepsSettled | src/routes/tables/filterDebounce/filterDb02.tsx:232-237 | a guarded live-read copy holding `v` that has emitted nothing new or only `v` (if new) stays so under any events that write nothing: any timer it fires reads `v`, and the guard stops a second emission |
| Debounce.UnmountKeepsTimers | src/routes/tables/filterDebounce/simpleDebounceTest.tsx:61-64 | without a cleanup, unmounting leaves every timer in place and takes nothing from what it emits |
| Debounce.StepKeepsMountTimerOnly | src/routes/tables/filter01/filter.tsx:76-82 | when the effect tracks nothing, no event adds a timer, and at most one emission happens |
| Debounce.RunKeepsMountTimerOnly | src/routes/tables/filter01/filter.tsx:76-82 | the same over any sequence of events |
| Debounce.UntrackedEmitsAtMostOnce | src/routes/tables/filter01/filter.tsx:76-82 | an untracked copy emits at most once in its life, and only its mount timer ever exists |
| Debounce.UntrackedLateTypingIsLost | src/routes/tables/filter01/filter.tsx:76-82 | in an untracked copy, text typed after the mount timer fired reaches the signal and is never emitted |
| Debounce.UntrackedNothingPendingStaysSilent | src/routes/tables/filter01/filter.tsx:76-82 | an untracked copy with no timer never emits again |
| Debounce.TrackedLateTypingIsEmitted | src/routes/tables/filter01/filter.tsx:76-82 | in a tracked copy the same late keystroke is scheduled and emitted `delay` later |
| DebounceCopies.SimpleDebounceTestBurstEmitsOnce | src/routes/tables/filterDebounce/simpleDebounceTest.tsx:36-65 | with the 2000 ms default delay, a burst at any gaps in which the value never stands unchanged for 2000 ms has no timer due during it or for 2000 ms after its last change; then it emits its last value once, if it is new |
| DebounceCopies.SimpleDebounceTestRestoreIsSilent | src/routes/tables/filterDebounce/simpleDebounceTest.tsx:51-59 | typing then restoring the debounced value emits nothing |
| DebounceCopies.SimpleDebounceTestToggleSilences | src/routes/tables/filterDebounce/simpleDebounceTest.tsx:9-20 | toggling the input away silences it for good |
| DebounceCopies.SimpleDebounceTestUnderSolidEmitsEachKeystroke | src/routes/tables/filterDebounce/simpleDebounceTest.tsx:46-65 | as SolidJS runs it, typing "a" then "ab" emits both, and "a" then "" emits both |
| DebounceCopies.FilterDb03ThreeKeystrokes | src/routes/tables/filterDebounce/filterDb03.tsx:212-237 | "a", "ab", "abc" typed 100 ms apart: nothing is due before 700 ms, then exactly "abc" is emitted, and no timer is left |
| DebounceCopies.FilterDb03UnderSolidEmitsEachKeystroke | src/routes/tables/filterDebounce/filterDb03.tsx:225-237 | as SolidJS runs it, "a" then "ab" emits both |
| DebounceCopies.FilterDb02BurstEmitsLast | src/routes/tables/filterDebounce/filterDb02.tsx:216-245 | a burst at any gaps in which the value never stands unchanged for the 500 ms default has no timer due during it; 500 ms after its last change it emits once, its last value, if new |
| DebounceCopies.FilterDb02LiveReadCoalesces | src/routes/tables/filterDebounce/filterDb02.tsx:232-237 | because the value is read when firing, uncancelled timers emit any burst at most once, as its last value; "a", "ab" exactly once, as "ab" |
| DebounceCopies.FilterDb02UnderSolidEmitsOnlyFirstWindow | src/routes/tables/filterDebounce/filterDb02.tsx:229-245 | as SolidJS runs it, "a" typed within 500 ms of mount is emitted, and the input never emits more than once |
| DebounceCopies.Filter00cAtMostOnePending | src/routes/tables/filter01/filter00c.tsx:99-109 | the explicit `clearTimeout` keeps at most one timer, with the current value, also as SolidJS runs it |
| DebounceCopies.Filter00cEmitsOnMount | src/routes/tables/filter01/filter00c.tsx:91-106 | the unchanged initial value is emitted 3500 ms after mount |
| DebounceCopies.Filter00cBurstEmitsLast | src/routes/tables/filter01/filter00c.tsx:91-109 | a burst at any gaps in which the value never stands unchanged for 3500 ms has no timer due during it or for 3500 ms after its last change; then its last value is emitted |
| DebounceCopies.Filter00cUnmountSilences | src/routes/tables/filter01/filter00c.tsx:108 | with the cleanup running on unmount, nothing is ever emitted after it |
| DebounceCopies.Filter00cUnderSolidUnmountKeepsTimer | src/routes/tables/filter01/filter00c.tsx:101-108 | as SolidJS runs it, the mount timer still emits after unmount |
| DebounceCopies.FilterTsxResyncIsEmitted | src/routes/tables/filter01/filter.tsx:72-82 | a resync after typing: the typed value is never emitted; the prop's value is, 500 ms later |
| DebounceCopies.FilterTsxDeliversTyping | src/routes/tables/filter01/filter.tsx:59-82 | "" is emitted at 500 ms, and "a" typed afterwards is emitted 500 ms later |
| DebounceCopies.FilterTsxUnderSolidLateTypingIsLost | src/routes/tables/filter01/filter.tsx:76-82 | as SolidJS runs it, the same "a" reaches the signal but is never emitted, whatever follows |
| DebounceCopies.UntrackedCopiesUnderSolidEmitAtMostOnce | src/routes/tables/filter01/filter03a.tsx:106-116 | as SolidJS runs them, filter03a.tsx, filter03d2.tsx and filterDb01.tsx each emit at most once |
| DebounceCopies.TrackedCopiesDeliverTyping | src/routes/tables/filter01/filter03d2.tsx:187-194 | with tracking, filter03a.tsx, filter03d2.tsx and filterDb01.tsx emit a keystroke typed after mount |
| DebounceCopies.FilterDb01BindsProp | src/routes/tables/filterDebounce/filterDb01.tsx:254-262 | filterDb01.tsx's `value={initialValue}` stays the mount-time prop, never re-applied, while the typed text goes to the value signal |
| DebounceCopies.Filter03d1EmitsOnlyInitial | src/routes/tables/filter01/filter03d1.tsx:185-220 | typing changes nothing, and every emission is the initial value |
| DebouncedInputs.DebouncedInput.constructor | src/routes/tables/filterDebounce/simpleDebounceTest.tsx:41-42 | both signals start at the prop, one timer is scheduled, and nothing is emitted |
| DebouncedInputs.DebouncedInput.RunTimerEffect | src/routes/tables/filterDebounce/simpleDebounceTest.tsx:46-65 | the timer effect cancels where the code does, then schedules one timer capturing the value |
| DebouncedInputs.DebouncedInput.SetValue | src/routes/tables/filterDebounce/simpleDebounceTest.tsx:72 | a write that changes the signal re-runs a tracking timer effect; an equal write changes nothing |
| DebouncedInputs.DebouncedInput.OnInput | src/routes/tables/filterDebounce/filterDb02.tsx:251-254 | the change handler writes the typed text, where that copy's handler writes at all |
| DebouncedInputs.DebouncedInput.Resync | src/routes/tables/filter01/filter03a.tsx:102-104 | in a copy with a resync effect, a mounted input writes the new prop into the signal; otherwise nothing changes |
| DebouncedInputs.DebouncedInput.Tick | src/routes/tables/filterDebounce/simpleDebounceTest.tsx:52-59 | time passes; nothing else changes |
| DebouncedInputs.DebouncedInput.Fire | src/routes/tables/filterDebounce/filterDb02.tsx:232-237 | a due timer runs the copy's callback; `notified` is what reaches `onChange`; an unguarded copy notifies with the current value |
| DebouncedInputs.DebouncedInput.Dispose | src/routes/tables/filterDebounce/filterDb03.tsx:234-236 | unmounting runs the cleanup where there is one |
| DebouncedInputs.MirroredFilter.Mirror | src/routes/tables/filterDebounce/filterDb03.tsx:182-184 | `filterValue` and the input start at the column's filter value |
| DebouncedInputs.MirroredFilter.Blank | src/routes/tables/filter01/filter03d1.tsx:240-252 | the signal starts blank, and its effect at mount stores the blank in the column through the accessor |
| DebouncedInputs.MirroredFilter.ApplyFilter | src/routes/tables/filterDebounce/filterDb03.tsx:186-195 | `applyFilter` copies `filterValue` into the column |
| DebouncedInputs.MirroredFilter.Type | src/routes/tables/filterDebounce/filterDb03.tsx:243-245 | typing goes to the input and keeps the filter consistent |
| DebouncedInputs.MirroredFilter.Tick | src/routes/tables/filterDebounce/filterDb03.tsx:227-232 | time passes for the input |
| DebouncedInputs.MirroredFilter.Fire | src/routes/tables/filterDebounce/filterDb02.tsx:176-194 | after any firing, the column holds the last emission, or the start value before any |
| DebouncedInputs.MirroredFilter.Unmount | src/routes/tables/filterDebounce/filterDb02.tsx:240-243 | unmounting the input keeps the filter consistent |
| DebouncedInputs.GuardedColumnIsDebounced | src/routes/tables/filterDebounce/filterDb03.tsx:228-230 | with a guarded input, the column holds the input's debounced value |
| DebouncedInputs.DirectFilter.constructor | src/routes/tables/filter01/filter00c.tsx:462-464 | the input starts at `columnFilterValue ?? ""` and the column is untouched |
| DebouncedInputs.DirectFilter.Type | src/routes/tables/filter01/filter00c.tsx:115 | typing goes to the input's signal |
| DebouncedInputs.DirectFilter.Tick | src/routes/tables/filter01/filter00c.tsx:103-106 | time passes for the input |
| DebouncedInputs.DirectFilter.Fire | src/routes/tables/filter01/filter00c.tsx:465-468 | an emission is written straight into the column, which always holds the last emission |
| DebouncedInputs.Coerced | src/routes/tables/filter01/filter03a.tsx:107-113 | the emission is converted by `Number` exactly when the initial value was a number and the raw value is text |
| DebouncedInputs.CoercionIdempotent | src/routes/tables/filter01/filter03a.tsx:107-113 | converting an already converted value changes nothing |
| DebouncedInputs.RangeFilters.constructor | src/routes/tables/filter01/filter03a.tsx:535-557 | each input starts at its end of the tuple, or "" |
| DebouncedInputs.RangeFilters.TypeMin | src/routes/tables/filter01/filter03a.tsx:122 | typing into the minimum affects only the minimum input |
| DebouncedInputs.RangeFilters.TypeMax | src/routes/tables/filter01/filter03a.tsx:122 | typing into the maximum affects only the maximum input |
| DebouncedInputs.RangeFilters.Tick | src/routes/tables/filter01/filter03a.tsx:106-116 | both inputs share one clock |
| DebouncedInputs.RangeFilters.FireMin | src/routes/tables/filter01/filter03a.tsx:541-542 | the minimum's emission, converted, updates the minimum and leaves the maximum as it was |
| DebouncedInputs.RangeFilters.FireMax | src/routes/tables/filter01/filter03a.tsx:556-557 | the maximum's emission, converted, updates the maximum and leaves the minimum as it was |
| SharedFilter.EchoIsNoOp | src/routes/tables/filter01/filter03d2.tsx:260-261 | writing back the value the signal holds changes nothing |
| SharedFilter.SharedFilterPage.constructor | src/routes/tables/filter01/filter03d2.tsx:173-194 | n unguarded filters mount over one signal: every column holds it, and every input's channel is `Create` of the shared value |
| SharedFilter.SharedFilterPage.OnInput | src/routes/tables/filter01/filter03d2.tsx:199-229 | either handler of any input writes the shared signal: every input's channel moves as `Write` of the value, the typing input's as its change handler, and every column follows |
| SharedFilter.SharedFilterPage.Tick | src/routes/tables/filter01/filter03d2.tsx:187-191 | every input's channel moves as `Advance`; signal and columns unchanged |
| SharedFilter.SharedFilterPage.Fire | src/routes/tables/filter01/filter03d2.tsx:187-194 | the firing input's channel moves as `FireTimer`, the others not at all; it notifies with the shared value exactly when the timer is due, and writing that back changes no input |
| SharedFilter.SharedFilterPage.Unmount | src/routes/tables/filter01/filter03d2.tsx:193 | every input's channel moves as `OnDispose`; signal and columns unchanged |
| NameFilter.LowerChar | src/routes/tables/filter02/simpleFilter01.tsx:12 | ASCII `toLowerCase` of one character: never upper case, shifts only the capitals |
| NameFilter.LowerIdempotent | src/routes/tables/filter02/simpleFilter01.tsx:12 | lower-casing twice is lower-casing once |
| NameFilter.IncludesGivesWindow | src/routes/tables/filter02/simpleFilter01.tsx:12 | if `includes` holds, the needle is some slice of the name |
| NameFilter.WindowGivesIncludes | src/routes/tables/filter02/simpleFilter01.tsx:12 | if the needle is some slice of the name, `includes` holds |
| NameFilter.IncludesIffWindow | src/routes/tables/filter02/simpleFilter01.tsx:12 | `includes` holds if and only if the needle occurs at some position |
| NameFilter.IncludesEmpty | src/routes/tables/filter02/simpleFilter01.tsx:12 | the empty filter is included in every name |
| NameFilter.FilteredData | src/routes/tables/filter02/simpleFilter01.tsx:10-14 | an item is in the result if and only if it is in the data and matches; the result has each matching item as often as the data has it, and none that fail |
| NameFilter.FilteredIsSubsequence | src/routes/tables/filter02/simpleFilter01.tsx:11 | the result keeps the data's order: it is a subsequence of the data |
| NameFilter.EmptyFilterKeepsAll | src/routes/tables/filter02/simpleFilter01.tsx:10-14 | the empty filter keeps every item, in order |
| NameFilter.CaseInsensitive | src/routes/tables/filter02/simpleFilter01.tsx:12 | filters that differ only in letter case give the same result |
| NameFilter.SearchPage.constructor | src/routes/tables/filter02/simpleFilter01.tsx:5-14 | with the filter at "", every item is listed |
| NameFilter.SearchPage.Type | src/routes/tables/filter02/simpleFilter01.tsx:44 | typing writes the filter at once, and the list follows at once |
| NameFilter.SearchPage.Tick | src/routes/tables/filter02/simpleFilter01.tsx:30-36 | time passes; the list is unchanged |
| NameFilter.SearchPage.Fire | src/routes/tables/filter02/simpleFilter01.tsx:32-33 | a firing timer's `setFilter(filter())` leaves the filter and the list unchanged |
| MakeData.IndexRange | src/routes/tables/infiniteScrolling/makeData.ts:22-28 | `[0, ..., len - 1]`: length `len` (0 when len is not positive), element i is i |
| MakeData.Range | src/routes/tables/infiniteScrolling/makeData.ts:22-28 | the pushing loop builds exactly that sequence |
| MakeData.MakeData | src/routes/tables/infiniteScrolling/makeData.ts:30-32 | `lens[0]` people (none without a length); person i has id i + 1 and the generated fields for i |
| MakeData.MakeDataUsesFirstLength | src/routes/tables/infiniteScrolling/makeData.ts:47-57 | only the first length argument matters |
| MakeData.MakeDataIdsDistinct | src/routes/tables/infiniteScrolling/makeData.ts:30-32 | no two people share an id |
| MakeData.ClampIndex | src/routes/tables/infiniteScrolling/makeData.ts:81 | a slice bound lies within the array |
| MakeData.PageLength | src/routes/tables/infiniteScrolling/makeData.ts:81 | for start >= 0 and size >= 0, a page has `min(size, max(0, total - start))` rows |
| MakeData.PageRows | src/routes/tables/infiniteScrolling/makeData.ts:81 | row i of the page is row start + i of the ordered copy |
| MakeData.PagesTile | src/routes/tables/infiniteScrolling/makeData.ts:81 | consecutive pages neither overlap nor leave a gap |
| MakeData.SortRows | src/routes/tables/infiniteScrolling/makeData.ts:72-77 | the array ends sorted by the key (non-increasing when descending) and is a permutation of what it was |
| MakeData.InsertLast | src/routes/tables/infiniteScrolling/makeData.ts:72-77 | one insertion step extends the sorted prefix by one and keeps the multiset |
| MakeData.FetchData | src/routes/tables/infiniteScrolling/makeData.ts:63-86 | `totalRowCount` is the number of rows; the ordered copy is a permutation of the data, is the data itself when there is no sorting, and is sorted by `sorting[0]` otherwise; the page is its slice `[start, start + size)`; the data array is not changed |
| Counter.Delta | src/routes/signal01a.tsx:3-8 | a click moves the count by one: up for `+`, down for `-` |
| Counter.NetAppend | src/routes/trial/signal01.tsx:3-8 | the count after two runs of clicks is the sum of their counts |
| Counter.NetCountsClicks | src/routes/trial/signal01.tsx:3-8 | the count is the number of `+` clicks minus the number of `-` clicks, in any order |
| Counter.PlusMinusCancel | src/routes/trial/signal01.tsx:3-8 | increment then decrement, or decrement then increment, restores the count |
| Counter.NetBounded | src/routes/signal01a.tsx:3-8 | after n clicks the count lies in [-n, n], so it can go negative, and it has n's parity |
| Counter.CountSignal.constructor | src/routes/trial/signal01.tsx:2 | the count starts at 0 |
| Counter.CountSignal.Increment | src/routes/signal01a.tsx:3-5 | adds exactly one |
| Counter.CountSignal.Decrement | src/routes/signal01a.tsx:6-8 | subtracts exactly one, with no lower bound |
| Counter.CountSignal.Click | src/routes/signal01a.tsx:12-14 | each button changes the count by its `Delta` |

## Left out

- Rendering, JSX, styling and routing. The model keeps only what an element's `value` is bound to (`ValueBinding`), the listed items (`Shown`) and the read-outs.
- TanStack Table itself. Not modelled: row models, faceted values, header groups, pagination with its clamping in `setPageIndex`, and sort toggles. The library's removal of empty filter values is also left out. A column filter is a value the pages read and write.
- `fuzzyFilter` and `rankItem`: they are external matchers.
- Virtualization and infiniteScrolling.tsx: they are external measurements and a query client.
- The faker-generated fields of a person. They are a parameter `fake` of `MakeData.MakeData`, and only the ids are fixed. The 200 names of simpleFilter01.tsx are likewise the `data` parameter.
- MakeData.FetchData: the comparator never returns 0. A column's key is an integer rank standing for JavaScript's `<` on that field, and the model states sortedness and permutation only. It leaves the order among equal keys unspecified. The insertion sort stands in for the engine's `Array.prototype.sort`.
- MakeData.PageLength: stated for start >= 0 and size >= 0. `JsSlice` models negative bounds as JavaScript does.
- The module-level `data = makeData(1000)` is the `data` argument of `FetchData`, since the faker fields are a parameter.
- `Number(...)` on text is the parameter `number` of `Coerced` and `RangeFilters`. NaN, floating point and empty-string conversion are not modelled. The page input is an optional integer.
- `String(v)` is modelled for strings and integers only, not for floating-point numbers.
- Time is an explicit clock with `Tick` and `Fire` events. Real timers, the event loop and `console.log` are not modelled.
- Resync with a new prop: the copies destructure their props, so under SolidJS the resync effect runs only at mount, with the mount value (`Debounce.MountResyncIsNoOp`). `Resync` events with other values model what the code evidently intends, in the copies that have the effect (`resyncs`).
- The `oninput` prop that filterDb01.tsx and filter03d2.tsx pass down is not modelled. It is overridden by the element's own handler or forwarded through `...props`.
- filter00c.tsx's `onChange` calls `setTestFilterValue`, which is not in scope, after the column write. The model keeps the column write and leaves the failing call out.
- filter00c.tsx's range filter is inside a JSX comment. Only filter03a.tsx's range filter is modelled.
- Debounce.BurstCoalesces: a burst starts with a keystroke that changes the value; one that starts with a repeat of the held value is the same burst started later.
- Debounce.UncancelledLiveEmitsLast: no timer fires during the burst itself; firings between keystrokes are separate bursts.
- The global filter inputs, which are copies of the same `DebouncedInput`, are not modelled separately.
- Whether TanStack Table re-reads a signal accessor handed to `setFilterValue` (filter03d1.tsx) depends on the library. The model treats the accessor as a functional update returning the current value.

## Findings

| source | as written | input that shows it | evidently intended | confidence | as-written member | corrected member |
|---|---|---|---|---|---|---|
| src/routes/tables/filterDebounce/simpleDebounceTest.tsx:61-64 | the closure returned from `createEffect` is never called by SolidJS, so no timer is cancelled on re-run | type "a" then "ab" within 2000 ms: both "a" and "ab" are emitted; "a" then "" emits twice | a burst emits once, its last value, and only if new | not executed; relies on SolidJS's `createEffect` semantics | DebounceCopies.SimpleDebounceTestUnderSolidEmitsEachKeystroke | DebounceCopies.SimpleDebounceTestBurstEmitsOnce |
| src/routes/tables/filterDebounce/filterDb03.tsx:234-236 | the same returned closure, never called | type "a" then "ab" within 500 ms: both are emitted | "a", "ab", "abc" 100 ms apart emit exactly "abc" at 700 ms | not executed; relies on SolidJS's `createEffect` semantics | DebounceCopies.FilterDb03UnderSolidEmitsEachKeystroke | DebounceCopies.FilterDb03ThreeKeystrokes |
| src/routes/tables/filter01/filter00c.tsx:108 | the returned closure does not run on unmount | unmount right after mount: 3500 ms later the timer still calls `onChange` with the initial value | nothing is emitted after unmount | not executed; relies on SolidJS's `createEffect` semantics | DebounceCopies.Filter00cUnderSolidUnmountKeepsTimer | DebounceCopies.Filter00cUnmountSilences |
| src/routes/tables/filter01/filter.tsx:76-82 | the array after the effect is its initial value, not a dependency list; the body reads `filterValue` only inside the timer callback, so the effect never re-runs (latent: filter.tsx's own `Filter` renders a plain input at 314-317, not this component) | mount with "", wait 500 ms ("" is emitted), type "a": "a" is never emitted | a keystroke is emitted 500 ms after it is typed | not executed; relies on SolidJS's `createEffect` semantics | DebounceCopies.FilterTsxUnderSolidLateTypingIsLost | DebounceCopies.FilterTsxDeliversTyping |
| src/routes/tables/filterDebounce/filterDb02.tsx:229-245 | the effect reads nothing synchronously, so only the mount timer ever exists | type "a" more than 500 ms after mount: it is never emitted; the input emits at most once in its life | a burst emits once, its last value, 500 ms after the last keystroke | not executed; relies on SolidJS's `createEffect` semantics | DebounceCopies.FilterDb02UnderSolidEmitsOnlyFirstWindow | DebounceCopies.FilterDb02BurstEmitsLast |
| src/routes/tables/filter01/filter03a.tsx:106-116 | the same untracked timer effect, also in filter03d2.tsx:187-194 and filterDb01.tsx:236-245 | type anything after the mount timer has fired: it is never emitted; each input emits at most once | a keystroke typed after mount is emitted `delay` later | not executed; relies on SolidJS's `createEffect` semantics | DebounceCopies.UntrackedCopiesUnderSolidEmitAtMostOnce | DebounceCopies.TrackedCopiesDeliverTyping |
