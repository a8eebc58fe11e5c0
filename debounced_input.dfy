/**
 * A mounted `DebouncedInput` as an object whose signals are fields, and the
 * `Filter` components that own one and pass its emissions on to their column.
 * Each method is proved to take the object to the state the matching function
 * of `Debounce` gives, so everything proved there holds for these objects.
 */
module DebouncedInputs {
  import opened Options
  import opened FilterValues
  import opened Debounce
  import opened TableModel

  class DebouncedInput<T(==)> {
    const cfg: Config
    var prop: T
    var value: T
    var debounced: T
    var pending: seq<Timer<T>>
    var now: int
    var emitted: seq<T>
    var mounted: bool

    function State(): Channel<T>
      reads this
    {
      Channel(prop, value, debounced, pending, now, emitted, mounted)
    }

    /** What the element's `value` attribute is bound to. */
    function Binding(): T
      reads this
    {
      ValueBinding(cfg, State())
    }

    /** Mounting: the signals start at `initial`, and the timer effect runs once. */
    constructor (cfg: Config, initial: T, now: int)
      ensures this.cfg == cfg
      ensures State() == Create(cfg, initial, now)
    {
      this.cfg := cfg;
      prop := initial;
      value := initial;
      debounced := initial;
      this.now := now;
      emitted := [];
      mounted := true;
      pending := [Timer(now + cfg.delay, initial)];
    }

    /** A run of the timer effect: clear the previous timer where the code does, then `setTimeout`. */
    method RunTimerEffect()
      modifies this
      ensures State() == Schedule(cfg, old(State()))
    {
      if cfg.CancelsOnReschedule() {
        pending := [];
      }
      pending := pending + [Timer(now + cfg.delay, value)];
    }

    /** `setValue(v)`: a change notifies the timer effect if it tracks the signal. */
    method SetValue(v: T)
      modifies this
      ensures State() == Write(cfg, old(State()), v)
    {
      if v != value {
        value := v;
        if cfg.tracksValue {
          RunTimerEffect();
        }
      }
    }

    /** The element's change handler. */
    method OnInput(v: T)
      modifies this
      ensures State() == OnRawInput(cfg, old(State()), v)
    {
      if mounted && cfg.inputWrites {
        SetValue(v);
      }
    }

    /** The resync effect with the prop `v`, in a copy that has one. */
    method Resync(v: T)
      modifies this
      ensures State() == OnResync(cfg, old(State()), v)
    {
      if mounted && cfg.resyncs {
        prop := v;
        SetValue(v);
      }
    }

    method Tick(dt: nat)
      modifies this
      ensures State() == Advance(old(State()), dt)
    {
      now := now + dt;
    }

    /** Timer `k` fires if it is due; `notified` is what it passes to `onChange`, if anything. */
    method Fire(k: nat) returns (notified: Option<T>)
      modifies this
      ensures State() == FireTimer(cfg, old(State()), k)
      ensures notified.Some? ==> emitted == old(emitted) + [notified.value]
      ensures notified.None? ==> emitted == old(emitted)
      ensures cfg.guard == NoGuard ==> notified == if Due(old(State()), k) then Some(value) else None
    {
      notified := None;
      if k < |pending| && pending[k].due <= now {
        var t := pending[k];
        pending := pending[..k] + pending[k + 1..];
        match cfg.guard {
          case CapturedGuard =>
            if t.captured != debounced {
              debounced := t.captured;
              notified := Some(t.captured);
            }
          case LiveGuard =>
            if value != debounced {
              debounced := value;
              notified := Some(value);
            }
          case NoGuard =>
            notified := Some(value);
        }
        if notified.Some? {
          emitted := emitted + [notified.value];
        }
      }
    }

    /** Unmounting. */
    method Dispose()
      modifies this
      ensures State() == OnDispose(cfg, old(State()))
    {
      mounted := false;
      if cfg.cleanup {
        pending := [];
      }
    }
  }

  /**
   * The `Filter` of filterDb03.tsx, filterDb02.tsx and filterDb01.tsx (its own
   * `filterValue` signal, started from the column, mirrored into the column by
   * `applyFilter`), and of filter03d1.tsx (the signal starts blank and
   * `applyFilter` hands over the accessor, not its value).
   */
  class MirroredFilter<T(==)> {
    const throughAccessor: bool
    const input: DebouncedInput<T>
    ghost const start: T
    var filterValue: T
    var column: T

    /**
     * The column shows the signal; the signal holds the latest emission, or its
     * start value before any; a guarded input's debounced value follows the
     * emissions as `Debounce.GuardInv` says.
     */
    ghost predicate Valid()
      reads this, input
    {
      && column == filterValue
      && filterValue == Last([start] + input.emitted)
      && (input.cfg.guard != NoGuard ==> GuardInv(input.State(), start))
    }

    /** filterDb03.tsx, filterDb02.tsx, filterDb01.tsx: the signal starts at the column's value. */
    constructor Mirror(cfg: Config, columnValue: T, now: int)
      ensures Valid() && !throughAccessor
      ensures column == columnValue && filterValue == columnValue && start == columnValue
      ensures input.cfg == cfg && input.State() == Create(cfg, columnValue, now)
      ensures fresh(input)
    {
      throughAccessor := false;
      start := columnValue;
      filterValue := columnValue;
      input := new DebouncedInput(cfg, columnValue, now);
      column := columnValue;
    }

    /**
     * filter03d1.tsx: the signal starts at `blank` (""), and the effect at mount
     * stores it in the column through the accessor, replacing what was there.
     */
    constructor Blank(cfg: Config, columnValue: T, blank: T, now: int)
      ensures Valid() && throughAccessor
      ensures column == blank && filterValue == blank && start == blank
      ensures input.cfg == cfg && input.State() == Create(cfg, blank, now)
      ensures fresh(input)
    {
      throughAccessor := true;
      start := blank;
      filterValue := blank;
      input := new DebouncedInput(cfg, blank, now);
      column := ApplyUpdater(AccessorUpdater(blank), Some(columnValue));
    }

    /** `applyFilter`, run by its effect whenever the signal changes. */
    method ApplyFilter()
      modifies this
      ensures column == filterValue
      ensures filterValue == old(filterValue)
    {
      if throughAccessor {
        column := ApplyUpdater(AccessorUpdater(filterValue), Some(column));
      } else {
        column := ApplyUpdater(Assign(filterValue), Some(column));
      }
    }

    method Type(v: T)
      requires Valid()
      modifies input
      ensures Valid()
      ensures input.State() == OnRawInput(input.cfg, old(input.State()), v)
    {
      if input.cfg.guard != NoGuard {
        StepKeepsGuardInv(input.cfg, input.State(), Event.RawInput(v), start);
      }
      input.OnInput(v);
    }

    method Tick(dt: nat)
      requires Valid()
      modifies input
      ensures Valid()
      ensures input.State() == Advance(old(input.State()), dt)
    {
      input.Tick(dt);
    }

    /** A timer fires; an emission goes through `onChange` (`setFilterValue`) and `applyFilter`. */
    method Fire(k: nat)
      requires Valid()
      modifies this, input
      ensures Valid()
      ensures input.State() == FireTimer(input.cfg, old(input.State()), k)
      ensures column == Last([start] + input.emitted)
    {
      if input.cfg.guard != NoGuard {
        StepKeepsGuardInv(input.cfg, input.State(), Event.Fire(k), start);
      }
      var notified := input.Fire(k);
      if notified.Some? {
        filterValue := notified.value;
        ApplyFilter();
        assert [start] + input.emitted == [start] + old(input.emitted) + [notified.value];
      }
    }

    method Unmount()
      requires Valid()
      modifies input
      ensures Valid()
      ensures input.State() == OnDispose(input.cfg, old(input.State()))
    {
      input.Dispose();
    }
  }

  /** In a consistent filter with a guarded input, the column holds the input's debounced value. */
  lemma GuardedColumnIsDebounced<T>(f: MirroredFilter<T>)
    requires f.Valid() && f.input.cfg.guard != NoGuard
    ensures f.column == f.input.debounced
  {
  }

  /**
   * The text `Filter` of filter00c.tsx: the input starts at
   * `columnFilterValue ?? ""` and its `onChange` writes straight into the column.
   */
  class DirectFilter {
    const input: DebouncedInput<Val>
    ghost const start: Option<Val>
    var column: Option<Val>

    ghost predicate Valid()
      reads this, input
    {
      column == (if input.emitted == [] then start else Some(Last(input.emitted)))
    }

    constructor (cfg: Config, columnValue: Option<Val>, now: int)
      ensures Valid()
      ensures column == columnValue
      ensures input.cfg == cfg && input.State() == Create(cfg, TextShown(columnValue), now)
      ensures fresh(input)
    {
      start := columnValue;
      column := columnValue;
      input := new DebouncedInput(cfg, TextShown(columnValue), now);
    }

    method Type(v: Val)
      requires Valid()
      modifies input
      ensures Valid()
      ensures input.State() == OnRawInput(input.cfg, old(input.State()), v)
    {
      input.OnInput(v);
    }

    method Tick(dt: nat)
      requires Valid()
      modifies input
      ensures Valid()
      ensures input.State() == Advance(old(input.State()), dt)
    {
      input.Tick(dt);
    }

    /** A timer fires; `onChange` calls `column.setFilterValue(value)`. */
    method Fire(k: nat)
      requires Valid()
      modifies this, input
      ensures Valid()
      ensures input.State() == FireTimer(input.cfg, old(input.State()), k)
    {
      var notified := input.Fire(k);
      if notified.Some? {
        column := Some(ApplyUpdater(Assign(notified.value), column));
      }
    }
  }

  /**
   * `Number(raw)` applied in filter03a.tsx when the initial value was a number;
   * `number` stands for JavaScript's string-to-number conversion, which is not
   * modelled.
   */
  function Coerced(initial: Val, raw: Val, number: string -> Val): (r: Val)
    ensures initial.Str? ==> r == raw
    ensures initial.Num? && raw.Num? ==> r == raw
    ensures initial.Num? && raw.Str? ==> r == number(raw.s)
  {
    if initial.Str? then raw
    else match raw
      case Num(_) => raw
      case Str(s) => number(s)
  }

  /** Coercing a value that already is a number, or one that was text all along, changes nothing. */
  lemma CoercionIdempotent(initial: Val, raw: Val, number: string -> Val)
    requires forall s :: number(s).Num?
    ensures Coerced(initial, Coerced(initial, raw, number), number) == Coerced(initial, raw, number)
  {
  }

  /**
   * The numeric range filter of filter03a.tsx: two inputs showing `[min, max]`
   * of the column's tuple, each writing its own end through an updater that
   * keeps the other end. `coerces` is the `Number(...)` conversion of the copy's
   * timer; without it the updaters receive the raw emission.
   */
  class RangeFilters {
    const coerces: bool
    const number: string -> Val
    const minInput: DebouncedInput<Val>
    const maxInput: DebouncedInput<Val>
    const start: Option<RangeFilter<Val>>
    var column: Option<RangeFilter<Val>>

    /** What an input's emission becomes before it reaches the updater. */
    function Delivered(initial: Val, raw: Val): Val
      reads this
    {
      if coerces then Coerced(initial, raw, number) else raw
    }

    /** Each end of the tuple holds the latest emission of its own input, or its start value before any. */
    ghost predicate Valid()
      reads this, minInput, maxInput
    {
      && minInput != maxInput
      && OldMin(column) == (if minInput.emitted == [] then OldMin(start)
                            else Some(Delivered(MinShown(start), Last(minInput.emitted))))
      && OldMax(column) == (if maxInput.emitted == [] then OldMax(start)
                            else Some(Delivered(MaxShown(start), Last(maxInput.emitted))))
      && (column == None ==> minInput.emitted == [] && maxInput.emitted == [])
    }

    constructor (cfg: Config, coerces: bool, number: string -> Val, columnValue: Option<RangeFilter<Val>>, now: int)
      ensures Valid()
      ensures column == columnValue
      ensures minInput.State() == Create(cfg, MinShown(columnValue), now)
      ensures maxInput.State() == Create(cfg, MaxShown(columnValue), now)
      ensures fresh(minInput) && fresh(maxInput)
    {
      this.coerces := coerces;
      this.number := number;
      start := columnValue;
      column := columnValue;
      minInput := new DebouncedInput(cfg, MinShown(columnValue), now);
      maxInput := new DebouncedInput(cfg, MaxShown(columnValue), now);
    }

    method TypeMin(v: Val)
      requires Valid()
      modifies minInput
      ensures Valid()
      ensures minInput.State() == OnRawInput(minInput.cfg, old(minInput.State()), v)
    {
      minInput.OnInput(v);
    }

    method TypeMax(v: Val)
      requires Valid()
      modifies maxInput
      ensures Valid()
      ensures maxInput.State() == OnRawInput(maxInput.cfg, old(maxInput.State()), v)
    {
      maxInput.OnInput(v);
    }

    /** Both inputs run on the same clock. */
    method Tick(dt: nat)
      requires Valid()
      modifies minInput, maxInput
      ensures Valid()
      ensures minInput.State() == Advance(old(minInput.State()), dt)
      ensures maxInput.State() == Advance(old(maxInput.State()), dt)
    {
      minInput.Tick(dt);
      maxInput.Tick(dt);
    }

    /** The minimum input's timer fires: `setFilterValue((old) => [value, old?.[1]])`. */
    method FireMin(k: nat)
      requires Valid()
      modifies this, minInput
      ensures Valid()
      ensures minInput.State() == FireTimer(minInput.cfg, old(minInput.State()), k)
      ensures OldMax(column) == OldMax(old(column))
    {
      var notified := minInput.Fire(k);
      if notified.Some? {
        var v := Delivered(MinShown(start), notified.value);
        column := Some(ApplyUpdater(SetMin(v), column));
        SetMinKeepsMax(old(column), v);
      }
    }

    /** The maximum input's timer fires: `setFilterValue((old) => [old?.[0], value])`. */
    method FireMax(k: nat)
      requires Valid()
      modifies this, maxInput
      ensures Valid()
      ensures maxInput.State() == FireTimer(maxInput.cfg, old(maxInput.State()), k)
      ensures OldMin(column) == OldMin(old(column))
    {
      var notified := maxInput.Fire(k);
      if notified.Some? {
        var v := Delivered(MaxShown(start), notified.value);
        column := Some(ApplyUpdater(SetMax(v), column));
        SetMaxKeepsMin(old(column), v);
      }
    }
  }
}
