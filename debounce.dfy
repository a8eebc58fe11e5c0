/**
 * The debounced input channel that the filter pages write out several times
 * (`DebouncedInput`), as a state machine over an explicit integer clock.
 *
 * One channel holds the `value` prop it was created with (`prop`), the value
 * signal the element edits (`value`: `immediateValue`, `filterValue`,
 * `deBounceValue`), the last debounced value (`debounced`, used by the guarded
 * copies only), the pending timers as `(due, captured)` entries, the clock, the
 * values handed to `onChange` so far (`emitted`) and whether the element is
 * still mounted.
 *
 * A write that changes the value signal notifies its readers; a write of the
 * value it already holds notifies nothing. The timer effect re-runs only if it
 * read the value signal while it ran (SolidJS tracks synchronous reads only; the
 * array written after the effect is its initial value, not a dependency list).
 * A re-run schedules a new timer `delay` after now, capturing the value, and
 * cancels the previous one only where the code does: by a cleanup that runs on
 * re-run and unmount, or by filter00c.tsx's explicit `clearTimeout`. In SolidJS
 * the closure an effect returns is handed to its next run as the previous value
 * and is never called, so as written no copy has a cleanup (see `Config`).
 * A timer fires only once the clock has reached its due time; the model lets
 * due timers fire in any order, so what is proved holds for the order the
 * JavaScript event loop uses as well.
 */
module Debounce {

  /** How a firing timer decides whether to call `onChange`. */
  datatype Guard =
    | CapturedGuard  // emit the value captured at scheduling, if it differs from the debounced value
    | LiveGuard      // read the value signal when firing; emit it if it differs from the debounced value
    | NoGuard        // always emit the value signal as it is when firing

  /** What distinguishes one copy of `DebouncedInput` from another. */
  datatype Config = Config(
    guard: Guard,
    delay: nat,
    tracksValue: bool,  // the timer effect reads the value signal synchronously, so a change re-runs it
    cleanup: bool,      // a cleanup cancelling the timer runs when the effect re-runs and on unmount
    clearsFirst: bool,  // the effect clears the previous handle itself before rescheduling
    inputWrites: bool,  // the element's change handler writes the value signal
    resyncs: bool,      // an effect writes the `value` prop into the value signal
    bindsProp: bool)    // the element's `value` attribute is bound to the prop, not to the value signal
  {
    predicate CancelsOnReschedule() {
      cleanup || clearsFirst
    }
  }

  datatype Timer<T> = Timer(due: int, captured: T)

  datatype Channel<T> = Channel(
    prop: T,
    value: T,
    debounced: T,
    pending: seq<Timer<T>>,
    now: int,
    emitted: seq<T>,
    mounted: bool)

  /**
   * What the element's `value` attribute is bound to: the value signal, which
   * SolidJS re-applies on every change, or (filterDb01.tsx) the destructured
   * prop, a constant applied once at mount and never again, so that the box
   * goes on showing whatever is typed into it.
   */
  function ValueBinding<T>(cfg: Config, c: Channel<T>): T {
    if cfg.bindsProp then c.prop else c.value
  }

  /** The timer effect runs: cancel the previous timer if the code does, schedule a new one. */
  function Schedule<T>(cfg: Config, c: Channel<T>): Channel<T> {
    var kept := if cfg.CancelsOnReschedule() then [] else c.pending;
    c.(pending := kept + [Timer(c.now + cfg.delay, c.value)])
  }

  /** Mounting: both values start at `value`, and the effect runs once. */
  function Create<T>(cfg: Config, value: T, now: int): Channel<T> {
    Schedule(cfg, Channel(value, value, value, [], now, [], true))
  }

  /**
   * A write to the value signal. Only a change notifies, and only an effect that
   * read the signal while it ran is re-run.
   */
  function Write<T(==)>(cfg: Config, c: Channel<T>, v: T): Channel<T> {
    if v == c.value then c
    else if cfg.tracksValue then Schedule(cfg, c.(value := v))
    else c.(value := v)
  }

  /** The element's change handler, with the typed text. */
  function OnRawInput<T(==)>(cfg: Config, c: Channel<T>, v: T): Channel<T> {
    if c.mounted && cfg.inputWrites then Write(cfg, c, v) else c
  }

  /**
   * The resync effect `setValue(initialValue)` for a new `value` prop; a copy
   * without that effect ignores the new prop.
   */
  function OnResync<T(==)>(cfg: Config, c: Channel<T>, v: T): Channel<T> {
    if c.mounted && cfg.resyncs then Write(cfg, c.(prop := v), v) else c
  }

  /** The clock moves on by `dt` milliseconds. */
  function Advance<T>(c: Channel<T>, dt: nat): Channel<T> {
    c.(now := c.now + dt)
  }

  /** Timer `k` exists and its time has come. */
  predicate Due<T>(c: Channel<T>, k: nat) {
    k < |c.pending| && c.pending[k].due <= c.now
  }

  function RemoveAt<X>(s: seq<X>, k: nat): seq<X>
    requires k < |s|
  {
    s[..k] + s[k + 1..]
  }

  /** The timer callback's body. */
  function Deliver<T(==)>(cfg: Config, c: Channel<T>, t: Timer<T>): Channel<T> {
    match cfg.guard
    case CapturedGuard =>
      if t.captured != c.debounced
      then c.(debounced := t.captured, emitted := c.emitted + [t.captured])
      else c
    case LiveGuard =>
      if c.value != c.debounced
      then c.(debounced := c.value, emitted := c.emitted + [c.value])
      else c
    case NoGuard =>
      c.(emitted := c.emitted + [c.value])
  }

  /** Timer `k` fires if it is due; otherwise nothing happens. */
  function FireTimer<T(==)>(cfg: Config, c: Channel<T>, k: nat): Channel<T> {
    if Due(c, k) then Deliver(cfg, c.(pending := RemoveAt(c.pending, k)), c.pending[k]) else c
  }

  /** Unmounting: the cleanup closure, when it runs, cancels the pending timer. */
  function OnDispose<T>(cfg: Config, c: Channel<T>): Channel<T> {
    c.(mounted := false, pending := if cfg.cleanup then [] else c.pending)
  }

  datatype Event<T> = RawInput(v: T) | Resync(v: T) | Tick(dt: nat) | Fire(k: nat) | Dispose

  function Step<T(==)>(cfg: Config, c: Channel<T>, e: Event<T>): Channel<T> {
    match e
    case RawInput(v) => OnRawInput(cfg, c, v)
    case Resync(v) => OnResync(cfg, c, v)
    case Tick(dt) => Advance(c, dt)
    case Fire(k) => FireTimer(cfg, c, k)
    case Dispose => OnDispose(cfg, c)
  }

  function Run<T(==)>(cfg: Config, c: Channel<T>, es: seq<Event<T>>): Channel<T>
    decreases |es|
  {
    if es == [] then c else Run(cfg, Step(cfg, c, es[0]), es[1..])
  }

  // ----- Immediate effects of one event -----

  /** Typing sets the value at once and emits nothing; a change schedules a timer for `delay` later. */
  lemma RawInputIsImmediate<T>(cfg: Config, c: Channel<T>, v: T)
    requires c.mounted && cfg.inputWrites
    ensures OnRawInput(cfg, c, v).value == v
    ensures OnRawInput(cfg, c, v).emitted == c.emitted
    ensures OnRawInput(cfg, c, v).debounced == c.debounced
    ensures cfg.tracksValue && v != c.value ==> Last(OnRawInput(cfg, c, v).pending) == Timer(c.now + cfg.delay, v)
    ensures !cfg.tracksValue || v == c.value ==> OnRawInput(cfg, c, v).pending == c.pending
  {
  }

  /** A change handler that only logs leaves the channel as it was (filter03d1.tsx). */
  lemma IgnoredInputChangesNothing<T>(cfg: Config, c: Channel<T>, v: T)
    requires !cfg.inputWrites
    ensures OnRawInput(cfg, c, v) == c
  {
  }

  /**
   * A `value` attribute bound to the prop is the mount-time prop and is never
   * re-applied, whatever is typed (filterDb01.tsx); the typed text still reaches
   * the value signal.
   */
  lemma PropBindingIgnoresTyping<T>(cfg: Config, c: Channel<T>, v: T)
    requires cfg.bindsProp
    ensures ValueBinding(cfg, OnRawInput(cfg, c, v)) == ValueBinding(cfg, c) == c.prop
    ensures c.mounted && cfg.inputWrites ==> OnRawInput(cfg, c, v).value == v
  {
  }

  /** A copy without a resync effect ignores a new prop altogether. */
  lemma NoResyncIgnoresProp<T>(cfg: Config, c: Channel<T>, v: T)
    requires !cfg.resyncs
    ensures OnResync(cfg, c, v) == c
  {
  }

  /** The resync effect's run at mount writes the value the signal already holds: nothing happens. */
  lemma MountResyncIsNoOp<T>(cfg: Config, initial: T, now: int)
    ensures OnResync(cfg, Create(cfg, initial, now), initial) == Create(cfg, initial, now)
  {
  }

  /** An unguarded firing timer hands over exactly the value the signal holds, and changes no signal. */
  lemma UnguardedFireEmitsValue<T>(cfg: Config, c: Channel<T>, k: nat)
    requires cfg.guard == NoGuard && Due(c, k)
    ensures FireTimer(cfg, c, k).emitted == c.emitted + [c.value]
    ensures FireTimer(cfg, c, k).value == c.value && FireTimer(cfg, c, k).prop == c.prop
    ensures |FireTimer(cfg, c, k).pending| == |c.pending| - 1
  {
  }

  /** Everything the channel holds is `v`. */
  ghost predicate AllEqual<T>(c: Channel<T>, v: T) {
    && c.value == v
    && (forall t :: t in c.pending ==> t.captured == v)
    && (forall x :: x in c.emitted ==> x == v)
  }

  lemma {:induction false} IgnoredInputKeepsAllEqual<T>(cfg: Config, c: Channel<T>, es: seq<Event<T>>, v: T)
    requires !cfg.inputWrites && AllEqual(c, v)
    requires forall i :: 0 <= i < |es| ==> !es[i].Resync?
    ensures AllEqual(Run(cfg, c, es), v)
    decreases |es|
  {
    if es != [] {
      var c' := Step(cfg, c, es[0]);
      if es[0].Fire? && Due(c, es[0].k) {
        forall t | t in c'.pending ensures t.captured == v {
          RemoveAtWithin(c.pending, es[0].k, t);
        }
      }
      IgnoredInputKeepsAllEqual(cfg, c', es[1..], v);
    }
  }

  /**
   * When the element never writes the signal and no resync comes (filter03d1.tsx),
   * the value stays the initial one and every emission is the initial value.
   */
  lemma IgnoredInputEmitsOnlyInitial<T>(cfg: Config, initial: T, now: int, es: seq<Event<T>>)
    requires !cfg.inputWrites
    requires forall i :: 0 <= i < |es| ==> !es[i].Resync?
    ensures Run(cfg, Create(cfg, initial, now), es).value == initial
    ensures forall x :: x in Run(cfg, Create(cfg, initial, now), es).emitted ==> x == initial
  {
    IgnoredInputKeepsAllEqual(cfg, Create(cfg, initial, now), es, initial);
  }

  function Last<X>(s: seq<X>): X
    requires |s| > 0
  {
    s[|s| - 1]
  }

  // ----- Guarded copies: never the same value twice in a row -----

  predicate NoStutter<T(==)>(s: seq<T>) {
    forall i :: 0 < i < |s| ==> s[i] != s[i - 1]
  }

  /** The emissions, preceded by the initial value, never repeat, and the debounced value is the latest of them. */
  ghost predicate GuardInv<T>(c: Channel<T>, initial: T) {
    var h := [initial] + c.emitted;
    NoStutter(h) && Last(h) == c.debounced
  }

  lemma StepKeepsGuardInv<T>(cfg: Config, c: Channel<T>, e: Event<T>, initial: T)
    requires cfg.guard != NoGuard
    requires GuardInv(c, initial)
    ensures GuardInv(Step(cfg, c, e), initial)
  {
    if e.Fire? && Due(c, e.k) {
      var c' := c.(pending := RemoveAt(c.pending, e.k));
      var t := c.pending[e.k];
      var h := [initial] + c.emitted;
      var x := if cfg.guard == CapturedGuard then t.captured else c.value;
      if x != c.debounced {
        assert [initial] + (c.emitted + [x]) == h + [x];
      }
    }
  }

  lemma {:induction false} RunKeepsGuardInv<T>(cfg: Config, c: Channel<T>, es: seq<Event<T>>, initial: T)
    requires cfg.guard != NoGuard
    requires GuardInv(c, initial)
    ensures GuardInv(Run(cfg, c, es), initial)
    decreases |es|
  {
    if es != [] {
      StepKeepsGuardInv(cfg, c, es[0], initial);
      RunKeepsGuardInv(cfg, Step(cfg, c, es[0]), es[1..], initial);
    }
  }

  /**
   * Guarded copies (simpleDebounceTest.tsx, filterDb03.tsx, filterDb02.tsx):
   * whatever happens, and whether or not the cleanup closures ever run, two
   * successive emissions never carry the same value, the first differs from the
   * initial value, and the debounced value is always the last value emitted.
   */
  lemma GuardedNeverRepeats<T>(cfg: Config, initial: T, now: int, es: seq<Event<T>>)
    requires cfg.guard != NoGuard
    ensures NoStutter([initial] + Run(cfg, Create(cfg, initial, now), es).emitted)
    ensures Last([initial] + Run(cfg, Create(cfg, initial, now), es).emitted)
         == Run(cfg, Create(cfg, initial, now), es).debounced
  {
    assert GuardInv(Create(cfg, initial, now), initial);
    RunKeepsGuardInv(cfg, Create(cfg, initial, now), es, initial);
  }

  // ----- Every emitted value was once the input's value -----

  /** The values the events write. */
  ghost function WrittenValues<T>(es: seq<Event<T>>): set<T> {
    set i | 0 <= i < |es| && (es[i].RawInput? || es[i].Resync?) :: es[i].v
  }

  ghost predicate ValuesWithin<T>(c: Channel<T>, s: set<T>) {
    && c.prop in s && c.value in s && c.debounced in s
    && (forall t :: t in c.pending ==> t.captured in s)
    && (forall x :: x in c.emitted ==> x in s)
  }

  lemma RemoveAtWithin<X>(s: seq<X>, k: nat, x: X)
    requires k < |s| && x in RemoveAt(s, k)
    ensures x in s
  {
    if x in s[..k] {
      var i :| 0 <= i < k && s[..k][i] == x;
      assert s[i] == x;
    } else {
      assert x in s[k + 1..];
      var i :| 0 <= i < |s| - k - 1 && s[k + 1..][i] == x;
      assert s[k + 1 + i] == x;
    }
  }

  lemma StepKeepsWithin<T>(cfg: Config, c: Channel<T>, e: Event<T>, s: set<T>)
    requires ValuesWithin(c, s)
    requires (e.RawInput? || e.Resync?) ==> e.v in s
    ensures ValuesWithin(Step(cfg, c, e), s)
  {
    if e.Fire? && Due(c, e.k) {
      forall t | t in RemoveAt(c.pending, e.k) ensures t.captured in s {
        RemoveAtWithin(c.pending, e.k, t);
      }
      assert c.pending[e.k] in c.pending;
    }
  }

  lemma {:induction false} RunKeepsWithin<T>(cfg: Config, c: Channel<T>, es: seq<Event<T>>, s: set<T>)
    requires ValuesWithin(c, s)
    requires WrittenValues(es) <= s
    ensures ValuesWithin(Run(cfg, c, es), s)
    decreases |es|
  {
    if es != [] {
      if es[0].RawInput? || es[0].Resync? {
        assert es[0].v in WrittenValues(es);
      }
      StepKeepsWithin(cfg, c, es[0], s);
      forall x | x in WrittenValues(es[1..]) ensures x in s {
        var i :| 0 <= i < |es[1..]| && (es[1..][i].RawInput? || es[1..][i].Resync?) && es[1..][i].v == x;
        assert es[i + 1] == es[1..][i];
        assert x in WrittenValues(es);
      }
      RunKeepsWithin(cfg, Step(cfg, c, es[0]), es[1..], s);
    }
  }

  /** No copy invents a value: every emission is the initial value or one the events wrote. */
  lemma EmissionsWereWritten<T>(cfg: Config, initial: T, now: int, es: seq<Event<T>>)
    ensures forall x :: x in Run(cfg, Create(cfg, initial, now), es).emitted ==> x == initial || x in WrittenValues(es)
  {
    var s := {initial} + WrittenValues(es);
    assert ValuesWithin(Create(cfg, initial, now), s);
    RunKeepsWithin(cfg, Create(cfg, initial, now), es, s);
  }

  // ----- Unmounting -----

  lemma {:induction false} UnmountedStaysSilent<T>(cfg: Config, c: Channel<T>, es: seq<Event<T>>)
    requires !c.mounted && c.pending == []
    ensures Run(cfg, c, es).emitted == c.emitted
    ensures Run(cfg, c, es).pending == [] && !Run(cfg, c, es).mounted
    decreases |es|
  {
    if es != [] {
      UnmountedStaysSilent(cfg, Step(cfg, c, es[0]), es[1..]);
    }
  }

  /** When the cleanup closure runs on unmount, nothing is ever emitted afterwards, however long one waits. */
  lemma DisposeSilences<T>(cfg: Config, c: Channel<T>, es: seq<Event<T>>)
    requires cfg.cleanup
    ensures Run(cfg, OnDispose(cfg, c), es).emitted == c.emitted
  {
    UnmountedStaysSilent(cfg, OnDispose(cfg, c), es);
  }

  // ----- Copies that cancel on reschedule: one timer, never stale -----

  /** At most one timer is pending, and it holds the current value. */
  ghost predicate Coalesced<T>(c: Channel<T>) {
    |c.pending| <= 1 && forall t :: t in c.pending ==> t.captured == c.value
  }

  lemma StepKeepsCoalesced<T>(cfg: Config, c: Channel<T>, e: Event<T>)
    requires cfg.tracksValue && cfg.CancelsOnReschedule()
    requires Coalesced(c)
    ensures Coalesced(Step(cfg, c, e))
  {
  }

  lemma {:induction false} RunKeepsCoalesced<T>(cfg: Config, c: Channel<T>, es: seq<Event<T>>)
    requires cfg.tracksValue && cfg.CancelsOnReschedule()
    requires Coalesced(c)
    ensures Coalesced(Run(cfg, c, es))
    decreases |es|
  {
    if es != [] {
      StepKeepsCoalesced(cfg, c, es[0]);
      RunKeepsCoalesced(cfg, Step(cfg, c, es[0]), es[1..]);
    }
  }

  /**
   * When the previous timer is cancelled before a new one is stored, at most one
   * timer is ever pending, and it carries the value the input holds now.
   */
  lemma AtMostOnePending<T>(cfg: Config, initial: T, now: int, es: seq<Event<T>>)
    requires cfg.tracksValue && cfg.CancelsOnReschedule()
    ensures |Run(cfg, Create(cfg, initial, now), es).pending| <= 1
    ensures Coalesced(Run(cfg, Create(cfg, initial, now), es))
  {
    RunKeepsCoalesced(cfg, Create(cfg, initial, now), es);
  }

  /** In such a state a firing timer emits the current value or nothing: no stale notification. */
  lemma FireIsNeverStale<T>(cfg: Config, c: Channel<T>, k: nat)
    requires Coalesced(c)
    ensures FireTimer(cfg, c, k).emitted == c.emitted || FireTimer(cfg, c, k).emitted == c.emitted + [c.value]
  {
    if Due(c, k) {
      assert c.pending[k] in c.pending;
    }
  }

  /**
   * Typing something and then restoring the last debounced value emits nothing
   * in a guarded copy that cancels its previous timer.
   */
  lemma RestoringEmitsNothing<T>(cfg: Config, c: Channel<T>, x: T, dt: nat, k: nat)
    requires cfg.guard != NoGuard && cfg.tracksValue && cfg.CancelsOnReschedule() && cfg.inputWrites && c.mounted
    requires Coalesced(c)
    ensures FireTimer(cfg, Advance(OnRawInput(cfg, OnRawInput(cfg, c, x), c.debounced), dt), k).emitted == c.emitted
  {
    var c2 := Advance(OnRawInput(cfg, OnRawInput(cfg, c, x), c.debounced), dt);
    StepKeepsCoalesced(cfg, c, RawInput(x));
    StepKeepsCoalesced(cfg, OnRawInput(cfg, c, x), RawInput(c.debounced));
    assert c2.value == c.debounced;
    if Due(c2, k) {
      assert c2.pending[k] in c2.pending;
    }
  }

  // ----- Bursts -----

  /** A burst: keystroke `i` types `vs[i]`, then `gaps[i]` milliseconds pass. */
  function Burst<T(==)>(cfg: Config, c: Channel<T>, vs: seq<T>, gaps: seq<nat>): Channel<T>
    requires |gaps| == |vs|
    decreases |vs|
  {
    if vs == [] then c else Burst(cfg, Advance(OnRawInput(cfg, c, vs[0]), gaps[0]), vs[1..], gaps[1..])
  }

  /**
   * How long the value has stood unchanged at the end of a burst, when it had
   * stood at `prev` for `since` ms before it. A keystroke that changes the value
   * restarts the count; one that types the value already there does not, as its
   * write notifies nothing.
   */
  function SinceChange<T(==)>(prev: T, since: nat, vs: seq<T>, gaps: seq<nat>): nat
    requires |gaps| == |vs|
    decreases |vs|
  {
    if vs == [] then since
    else SinceChange(vs[0], (if vs[0] != prev then 0 else since) + gaps[0], vs[1..], gaps[1..])
  }

  /** At no moment of the burst has the value stood unchanged for `delay` ms. */
  predicate Tight<T(==)>(delay: nat, prev: T, since: nat, vs: seq<T>, gaps: seq<nat>)
    requires |gaps| == |vs|
    decreases |vs|
  {
    vs == [] ||
    var s := (if vs[0] != prev then 0 else since) + gaps[0];
    s < delay && Tight(delay, vs[0], s, vs[1..], gaps[1..])
  }

  lemma {:induction false} TightPrefix<T>(delay: nat, prev: T, since: nat, vs: seq<T>, gaps: seq<nat>, j: nat)
    requires |gaps| == |vs| && j <= |vs|
    requires Tight(delay, prev, since, vs, gaps)
    ensures Tight(delay, prev, since, vs[..j], gaps[..j])
    decreases j
  {
    if j > 0 {
      var s := (if vs[0] != prev then 0 else since) + gaps[0];
      TightPrefix(delay, vs[0], s, vs[1..], gaps[1..], j - 1);
      assert vs[..j][1..] == vs[1..][..j - 1];
      assert gaps[..j][1..] == gaps[1..][..j - 1];
    }
  }

  /** A burst whose every keystroke changes the value, each followed by less than `delay` ms, is tight. */
  lemma {:induction false} ChangingBurstIsTight<T>(delay: nat, prev: T, since: nat, vs: seq<T>, gaps: seq<nat>)
    requires |gaps| == |vs| && NoStutter([prev] + vs)
    requires forall i :: 0 <= i < |gaps| ==> gaps[i] < delay
    ensures Tight(delay, prev, since, vs, gaps)
    decreases |vs|
  {
    if vs != [] {
      var h := [prev] + vs;
      assert h[1] == vs[0] && h[0] == prev;
      assert [vs[0]] + vs[1..] == h[1..];
      forall i | 0 < i < |[vs[0]] + vs[1..]| ensures ([vs[0]] + vs[1..])[i] != ([vs[0]] + vs[1..])[i - 1] {
        assert h[i + 1] != h[i];
      }
      forall i | 0 <= i < |gaps[1..]| ensures gaps[1..][i] < delay {
        assert gaps[1..][i] == gaps[i + 1];
      }
      ChangingBurstIsTight(delay, vs[0], gaps[0], vs[1..], gaps[1..]);
    }
  }

  /** Whatever the copy and the gaps, a burst sets the value to its last keystroke and emits nothing. */
  lemma {:induction false} BurstTypes<T>(cfg: Config, c: Channel<T>, vs: seq<T>, gaps: seq<nat>)
    requires cfg.inputWrites && c.mounted && |gaps| == |vs| && vs != []
    ensures Burst(cfg, c, vs, gaps).value == Last(vs)
    ensures Burst(cfg, c, vs, gaps).emitted == c.emitted
    ensures Burst(cfg, c, vs, gaps).debounced == c.debounced
    ensures Burst(cfg, c, vs, gaps).prop == c.prop && Burst(cfg, c, vs, gaps).mounted
    decreases |vs|
  {
    if |vs| > 1 {
      BurstTypes(cfg, Advance(OnRawInput(cfg, c, vs[0]), gaps[0]), vs[1..], gaps[1..]);
      assert Last(vs[1..]) == Last(vs);
    }
  }

  /** A keystroke that changes the value, then a wait: one timer, set at the keystroke. */
  lemma ChangeThenWait<T>(cfg: Config, c: Channel<T>, v: T, gap: nat)
    requires cfg.tracksValue && cfg.CancelsOnReschedule() && cfg.inputWrites && c.mounted && v != c.value
    ensures Advance(OnRawInput(cfg, c, v), gap).pending == [Timer(c.now + cfg.delay, v)]
    ensures Advance(OnRawInput(cfg, c, v), gap).now == c.now + gap
    ensures Advance(OnRawInput(cfg, c, v), gap).value == v && Advance(OnRawInput(cfg, c, v), gap).mounted
  {
    assert OnRawInput(cfg, c, v) == Schedule(cfg, c.(value := v));
  }

  /**
   * A tight burst that starts with a change, or that continues one whose single
   * timer was set `since` ms ago for the current value, ends with a single timer,
   * set at its last change for its last value.
   */
  lemma {:induction false} BurstKeepsOneTimer<T>(cfg: Config, c: Channel<T>, vs: seq<T>, gaps: seq<nat>, since: nat)
    requires cfg.tracksValue && cfg.CancelsOnReschedule() && cfg.inputWrites && c.mounted
    requires |gaps| == |vs|
    requires (vs != [] && vs[0] != c.value) || (since < cfg.delay && c.pending == [Timer(c.now - since + cfg.delay, c.value)])
    requires Tight(cfg.delay, c.value, since, vs, gaps)
    ensures SinceChange(c.value, since, vs, gaps) < cfg.delay
    ensures Burst(cfg, c, vs, gaps).pending
         == [Timer(Burst(cfg, c, vs, gaps).now - SinceChange(c.value, since, vs, gaps) + cfg.delay,
                   Burst(cfg, c, vs, gaps).value)]
    decreases |vs|
  {
    if vs != [] {
      var s := (if vs[0] != c.value then 0 else since) + gaps[0];
      if vs[0] != c.value {
        ChangeThenWait(cfg, c, vs[0], gaps[0]);
      }
      BurstKeepsOneTimer(cfg, Advance(OnRawInput(cfg, c, vs[0]), gaps[0]), vs[1..], gaps[1..], s);
    }
  }

  /** The state at the end of a tight burst that starts with a change. */
  lemma BurstSettles<T>(cfg: Config, c: Channel<T>, vs: seq<T>, gaps: seq<nat>)
    requires cfg.tracksValue && cfg.CancelsOnReschedule() && cfg.inputWrites && c.mounted
    requires |gaps| == |vs| && vs != [] && vs[0] != c.value
    requires Tight(cfg.delay, c.value, 0, vs, gaps)
    ensures SinceChange(c.value, 0, vs, gaps) < cfg.delay
    ensures Burst(cfg, c, vs, gaps).pending
         == [Timer(Burst(cfg, c, vs, gaps).now - SinceChange(c.value, 0, vs, gaps) + cfg.delay, Last(vs))]
  {
    BurstKeepsOneTimer(cfg, c, vs, gaps, 0);
    BurstTypes(cfg, c, vs, gaps);
  }

  /**
   * A burst of keystrokes, at any gaps and possibly typing the value already
   * there, in which the value never stands unchanged for `delay` ms: it emits
   * nothing, and at no moment of it is a timer due, so a timer that fires
   * during it does nothing. At its end exactly one timer is left, capturing the
   * last value, due `delay` after the last keystroke that changed the value.
   * The burst starts with a keystroke that changes the value (one before it that
   * does not is only time passing).
   */
  lemma BurstCoalesces<T>(cfg: Config, c: Channel<T>, vs: seq<T>, gaps: seq<nat>)
    requires cfg.tracksValue && cfg.CancelsOnReschedule() && cfg.inputWrites && c.mounted
    requires |gaps| == |vs| && vs != [] && vs[0] != c.value
    requires Tight(cfg.delay, c.value, 0, vs, gaps)
    ensures Burst(cfg, c, vs, gaps).value == Last(vs)
    ensures Burst(cfg, c, vs, gaps).emitted == c.emitted
    ensures Burst(cfg, c, vs, gaps).debounced == c.debounced
    ensures Burst(cfg, c, vs, gaps).mounted
    ensures SinceChange(c.value, 0, vs, gaps) < cfg.delay
    ensures Burst(cfg, c, vs, gaps).pending
         == [Timer(Burst(cfg, c, vs, gaps).now - SinceChange(c.value, 0, vs, gaps) + cfg.delay, Last(vs))]
    ensures forall j, k :: 0 < j <= |vs| ==> !Due(Burst(cfg, c, vs[..j], gaps[..j]), k)
  {
    BurstTypes(cfg, c, vs, gaps);
    BurstSettles(cfg, c, vs, gaps);
    forall j, k | 0 < j <= |vs| ensures !Due(Burst(cfg, c, vs[..j], gaps[..j]), k) {
      TightPrefix(cfg.delay, c.value, 0, vs, gaps, j);
      BurstSettles(cfg, c, vs[..j], gaps[..j]);
    }
  }

  /**
   * After such a burst, silence: nothing is due until `delay` has passed since the
   * last change; then the one timer fires, emitting the last value (a guarded copy
   * only if it differs from the debounced value), and no timer is left.
   */
  lemma BurstThenSilence<T>(cfg: Config, c: Channel<T>, vs: seq<T>, gaps: seq<nat>)
    requires cfg.tracksValue && cfg.CancelsOnReschedule() && cfg.inputWrites && c.mounted
    requires |gaps| == |vs| && vs != [] && vs[0] != c.value
    requires Tight(cfg.delay, c.value, 0, vs, gaps)
    ensures SinceChange(c.value, 0, vs, gaps) < cfg.delay
    ensures var w := cfg.delay - SinceChange(c.value, 0, vs, gaps);
            forall d: nat, k: nat :: d < w ==> !Due(Advance(Burst(cfg, c, vs, gaps), d), k)
    ensures var w := cfg.delay - SinceChange(c.value, 0, vs, gaps);
            && Due(Advance(Burst(cfg, c, vs, gaps), w), 0)
            && FireTimer(cfg, Advance(Burst(cfg, c, vs, gaps), w), 0).pending == []
            && FireTimer(cfg, Advance(Burst(cfg, c, vs, gaps), w), 0).emitted
               == c.emitted + (if cfg.guard == NoGuard || Last(vs) != c.debounced then [Last(vs)] else [])
  {
    BurstCoalesces(cfg, c, vs, gaps);
  }

  // ----- Mount, resync, and what cancellation buys -----

  /** An unguarded copy emits its initial value once `delay` has passed, though nothing was typed. */
  lemma UnguardedEmitsOnMount<T>(cfg: Config, initial: T, now: int)
    requires cfg.guard == NoGuard
    ensures FireTimer(cfg, Advance(Create(cfg, initial, now), cfg.delay), 0).emitted == [initial]
  {
  }

  /** A guarded copy's first timer finds nothing new and emits nothing. */
  lemma GuardedSilentOnMount<T>(cfg: Config, initial: T, now: int)
    requires cfg.guard != NoGuard
    ensures FireTimer(cfg, Advance(Create(cfg, initial, now), cfg.delay), 0).emitted == []
  {
  }

  /**
   * In the unguarded copies with a resync effect, a resync that follows typing
   * cancels the timer for the typed value, writes the prop's value into the
   * signal and so schedules a timer that later emits the resynced value.
   */
  lemma ResyncReschedulesEmission<T>(cfg: Config, c: Channel<T>, v1: T, v2: T)
    requires cfg.guard == NoGuard && cfg.tracksValue && cfg.CancelsOnReschedule() && cfg.inputWrites && cfg.resyncs
    requires c.mounted && v1 != c.value && v2 != v1
    ensures Advance(OnResync(cfg, OnRawInput(cfg, c, v1), v2), cfg.delay).value == v2
    ensures Advance(OnResync(cfg, OnRawInput(cfg, c, v1), v2), cfg.delay).prop == v2
    ensures Advance(OnResync(cfg, OnRawInput(cfg, c, v1), v2), cfg.delay).pending == [Timer(c.now + cfg.delay, v2)]
    ensures FireTimer(cfg, Advance(OnResync(cfg, OnRawInput(cfg, c, v1), v2), cfg.delay), 0).emitted == c.emitted + [v2]
  {
  }

  // ----- Without cancellation; without tracking -----

  /**
   * A guarded copy that captures its value and cancels nothing emits every value
   * of a burst: typing `a` then `b` emits `a` and then `b`, even when `b` restores
   * the initial value.
   */
  lemma UncancelledCapturedEmitsEach<T>(cfg: Config, initial: T, now: int, a: T, b: T)
    requires cfg.guard == CapturedGuard && cfg.tracksValue && !cfg.CancelsOnReschedule() && cfg.inputWrites
    requires a != initial && b != a
    ensures Run(cfg, Create(cfg, initial, now), [RawInput(a), RawInput(b), Tick(cfg.delay), Fire(0), Fire(0), Fire(0)]).emitted
         == [a, b]
  {
    var es := [RawInput(a), RawInput(b), Tick(cfg.delay), Fire(0), Fire(0), Fire(0)];
    RunSix(cfg, Create(cfg, initial, now), es);
  }

  /**
   * A live-read copy after keystrokes that wrote `v`: so long as nothing is
   * written, the value stays `v`, and at most one emission is added to `e0`,
   * namely `v`, and only if `v` differs from the debounced value `d0`.
   */
  ghost predicate LiveSettled<T>(c: Channel<T>, e0: seq<T>, d0: T, v: T) {
    && c.value == v
    && ((c.emitted == e0 && c.debounced == d0) || (v != d0 && c.emitted == e0 + [v] && c.debounced == v))
  }

  lemma {:induction false} LiveRunKeepsSettled<T>(cfg: Config, c: Channel<T>, es: seq<Event<T>>, e0: seq<T>, d0: T, v: T)
    requires cfg.guard == LiveGuard && LiveSettled(c, e0, d0, v)
    requires forall i :: 0 <= i < |es| ==> !es[i].RawInput? && !es[i].Resync?
    ensures LiveSettled(Run(cfg, c, es), e0, d0, v)
    decreases |es|
  {
    if es != [] {
      LiveRunKeepsSettled(cfg, Step(cfg, c, es[0]), es[1..], e0, d0, v);
    }
  }

  /**
   * A guarded copy that reads the live value when firing, whether or not it
   * cancels timers: after a burst of any length and gaps, during which no timer
   * fired, whatever timer firings, ticks and unmounting follow emit at most once,
   * and only the burst's last value, and only if it is new; the first due timer
   * to fire emits it.
   */
  lemma UncancelledLiveEmitsLast<T>(cfg: Config, c: Channel<T>, vs: seq<T>, gaps: seq<nat>, es: seq<Event<T>>)
    requires cfg.guard == LiveGuard && cfg.inputWrites && c.mounted
    requires |gaps| == |vs| && vs != []
    requires forall i :: 0 <= i < |es| ==> !es[i].RawInput? && !es[i].Resync?
    ensures Run(cfg, Burst(cfg, c, vs, gaps), es).emitted == c.emitted
         || (Last(vs) != c.debounced && Run(cfg, Burst(cfg, c, vs, gaps), es).emitted == c.emitted + [Last(vs)])
    ensures forall k :: Due(Burst(cfg, c, vs, gaps), k) && Last(vs) != c.debounced ==>
              FireTimer(cfg, Burst(cfg, c, vs, gaps), k).emitted == c.emitted + [Last(vs)]
  {
    BurstTypes(cfg, c, vs, gaps);
    LiveRunKeepsSettled(cfg, Burst(cfg, c, vs, gaps), es, c.emitted, c.debounced, Last(vs));
  }

  /** Unrolls `Run` over six events. */
  lemma RunSix<T>(cfg: Config, c: Channel<T>, es: seq<Event<T>>)
    requires |es| == 6
    ensures Run(cfg, c, es)
         == Step(cfg, Step(cfg, Step(cfg, Step(cfg, Step(cfg, Step(cfg, c, es[0]), es[1]), es[2]), es[3]), es[4]), es[5])
  {
    var c1 := Step(cfg, c, es[0]);
    var c2 := Step(cfg, c1, es[1]);
    var c3 := Step(cfg, c2, es[2]);
    var c4 := Step(cfg, c3, es[3]);
    var c5 := Step(cfg, c4, es[4]);
    assert Run(cfg, c, es) == Run(cfg, c1, es[1..]);
    assert Run(cfg, c1, es[1..]) == Run(cfg, c2, es[2..]);
    assert Run(cfg, c2, es[2..]) == Run(cfg, c3, es[3..]);
    assert Run(cfg, c3, es[3..]) == Run(cfg, c4, es[4..]);
    assert Run(cfg, c4, es[4..]) == Run(cfg, c5, es[5..]);
  }

  /** Without a cleanup, unmounting takes nothing away from what a timer emits. */
  lemma UnmountKeepsTimers<T>(cfg: Config, c: Channel<T>, k: nat)
    requires !cfg.cleanup
    ensures OnDispose(cfg, c).pending == c.pending
    ensures FireTimer(cfg, OnDispose(cfg, c), k).emitted == FireTimer(cfg, c, k).emitted
  {
  }

  /** Only the timer scheduled at mount ever exists; once it has fired, nothing more is emitted. */
  ghost predicate MountTimerOnly<T>(c: Channel<T>, mountTimer: Timer<T>) {
    || (c.pending == [mountTimer] && c.emitted == [])
    || (c.pending == [] && |c.emitted| <= 1)
  }

  lemma StepKeepsMountTimerOnly<T>(cfg: Config, c: Channel<T>, e: Event<T>, t: Timer<T>)
    requires !cfg.tracksValue
    requires MountTimerOnly(c, t)
    ensures MountTimerOnly(Step(cfg, c, e), t)
  {
  }

  lemma {:induction false} RunKeepsMountTimerOnly<T>(cfg: Config, c: Channel<T>, es: seq<Event<T>>, t: Timer<T>)
    requires !cfg.tracksValue
    requires MountTimerOnly(c, t)
    ensures MountTimerOnly(Run(cfg, c, es), t)
    decreases |es|
  {
    if es != [] {
      StepKeepsMountTimerOnly(cfg, c, es[0], t);
      RunKeepsMountTimerOnly(cfg, Step(cfg, c, es[0]), es[1..], t);
    }
  }

  /**
   * A copy whose timer effect reads nothing synchronously schedules its one timer
   * at mount and never again: over its whole life it emits at most once.
   */
  lemma UntrackedEmitsAtMostOnce<T>(cfg: Config, initial: T, now: int, es: seq<Event<T>>)
    requires !cfg.tracksValue
    ensures |Run(cfg, Create(cfg, initial, now), es).emitted| <= 1
    ensures forall t :: t in Run(cfg, Create(cfg, initial, now), es).pending ==> t == Timer(now + cfg.delay, initial)
  {
    RunKeepsMountTimerOnly(cfg, Create(cfg, initial, now), es, Timer(now + cfg.delay, initial));
  }

  /**
   * In such a copy, text typed after the mount timer has fired is taken into the
   * value signal and never emitted, whatever follows.
   */
  lemma UntrackedLateTypingIsLost<T>(cfg: Config, initial: T, now: int, v: T, es: seq<Event<T>>)
    requires !cfg.tracksValue && cfg.inputWrites
    ensures Run(cfg, Create(cfg, initial, now), [Tick(cfg.delay), Fire(0), RawInput(v)]).value == v
    ensures Run(cfg, Run(cfg, Create(cfg, initial, now), [Tick(cfg.delay), Fire(0), RawInput(v)]), es).emitted
         == Run(cfg, Create(cfg, initial, now), [Tick(cfg.delay), Fire(0)]).emitted
  {
    var c0 := Create(cfg, initial, now);
    var c1 := Advance(c0, cfg.delay);
    var c2 := FireTimer(cfg, c1, 0);
    var c3 := OnRawInput(cfg, c2, v);
    var pre: seq<Event<T>> := [Tick(cfg.delay), Fire(0)];
    var evs: seq<Event<T>> := [Tick(cfg.delay), Fire(0), RawInput(v)];
    assert Run(cfg, c0, pre) == Run(cfg, c1, pre[1..]) == Run(cfg, c2, []);
    assert Run(cfg, c0, evs) == Run(cfg, c1, evs[1..]);
    assert Run(cfg, c1, evs[1..]) == Run(cfg, c2, evs[2..]);
    assert Run(cfg, c2, evs[2..]) == Run(cfg, c3, []);
    assert MountTimerOnly(c3, Timer(now + cfg.delay, initial));
    RunKeepsMountTimerOnly(cfg, c3, es, Timer(now + cfg.delay, initial));
    UntrackedNothingPendingStaysSilent(cfg, c3, es);
  }

  lemma {:induction false} UntrackedNothingPendingStaysSilent<T>(cfg: Config, c: Channel<T>, es: seq<Event<T>>)
    requires !cfg.tracksValue && c.pending == []
    ensures Run(cfg, c, es).emitted == c.emitted
    decreases |es|
  {
    if es != [] {
      UntrackedNothingPendingStaysSilent(cfg, Step(cfg, c, es[0]), es[1..]);
    }
  }

  /**
   * With the effect tracking the value, the same late keystroke is emitted
   * `delay` later (a guarded copy emits it because it differs from the initial
   * value the debounced value still holds).
   */
  lemma TrackedLateTypingIsEmitted<T>(cfg: Config, initial: T, now: int, v: T)
    requires cfg.tracksValue && cfg.inputWrites && v != initial
    ensures var c := Run(cfg, Create(cfg, initial, now), [Tick(cfg.delay), Fire(0), RawInput(v)]);
            && c.pending == [Timer(now + cfg.delay + cfg.delay, v)]
            && Due(Advance(c, cfg.delay), 0)
            && FireTimer(cfg, Advance(c, cfg.delay), 0).emitted
               == (if cfg.guard == NoGuard then [initial, v] else [v])
  {
    var c0 := Create(cfg, initial, now);
    var c1 := Advance(c0, cfg.delay);
    var c2 := FireTimer(cfg, c1, 0);
    var c3 := OnRawInput(cfg, c2, v);
    var evs: seq<Event<T>> := [Tick(cfg.delay), Fire(0), RawInput(v)];
    assert Run(cfg, c0, evs) == Run(cfg, c1, evs[1..]);
    assert Run(cfg, c1, evs[1..]) == Run(cfg, c2, evs[2..]);
    assert Run(cfg, c2, evs[2..]) == Run(cfg, c3, []);
  }
}
