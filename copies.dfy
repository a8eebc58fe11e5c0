/**
 * The copies of `DebouncedInput`, each as the configuration its code is written
 * for: the timer effect re-runs on every change of the value it names in its
 * dependency array, and the closure it returns cancels the timer on re-run and
 * on unmount. `UnderSolid` gives the same copy as SolidJS runs it, where an
 * effect re-runs only for signals read synchronously in its body and a returned
 * closure is never called; those versions appear only in the lemmas that show
 * the difference.
 */
module DebounceCopies {
  import opened Debounce

  // Config(guard, delay, tracksValue, cleanup, clearsFirst, inputWrites, resyncs, bindsProp)

  /** simpleDebounceTest.tsx: captured guard, 2000 ms, no resync effect. */
  const SimpleDebounceTest: Config := Config(CapturedGuard, 2000, true, true, false, true, false, false)

  /** filterDb03.tsx: the same guard, 500 ms, no resync effect. */
  const FilterDb03: Config := Config(CapturedGuard, 500, true, true, false, true, false, false)

  /** filterDb02.tsx: the guard reads the live value when firing, 500 ms, no resync effect. */
  const FilterDb02: Config := Config(LiveGuard, 500, true, true, false, true, false, false)

  /** filter00c.tsx: unguarded, 3500 ms, no resync effect; it also clears the old handle itself before rescheduling. */
  const Filter00c: Config := Config(NoGuard, 3500, true, true, true, true, false, false)

  /** filter.tsx: unguarded, 500 ms. */
  const FilterTsx: Config := Config(NoGuard, 500, true, true, false, true, true, false)

  /** filter03a.tsx: as filter.tsx (the coercion to a number is in `RangeFilters`). */
  const Filter03a: Config := Config(NoGuard, 500, true, true, false, true, true, false)

  /** filter03d1.tsx: as filter.tsx, but the change handler only logs. */
  const Filter03d1: Config := Config(NoGuard, 500, true, true, false, false, true, false)

  /** filter03d2.tsx: unguarded, 1000 ms, over the shared signal. */
  const Filter03d2: Config := Config(NoGuard, 1000, true, true, false, true, true, false)

  /** filterDb01.tsx: unguarded, 1000 ms; the element's `value` attribute is bound to the prop. */
  const FilterDb01: Config := Config(NoGuard, 1000, true, true, false, true, true, true)

  /** simpleFilter01.tsx: unguarded, 3000 ms, no resync effect. */
  const SimpleFilter01: Config := Config(NoGuard, 3000, true, true, false, true, false, false)

  /**
   * The copy as SolidJS runs it: no cleanup, and a re-run on change only if the
   * effect reads the value signal synchronously (`readsValue`).
   */
  function UnderSolid(cfg: Config, readsValue: bool): Config {
    cfg.(tracksValue := readsValue, cleanup := false)
  }

  // ----- simpleDebounceTest.tsx -----

  /**
   * A burst in which the value never stands unchanged for 2000 ms, at whatever
   * gaps: nothing is due until 2000 ms after its last change, and then it emits
   * once, its last value, if that is new.
   */
  lemma SimpleDebounceTestBurstEmitsOnce(c: Channel<string>, vs: seq<string>, gaps: seq<nat>)
    requires c.mounted && |gaps| == |vs| && vs != [] && vs[0] != c.value
    requires Tight(2000, c.value, 0, vs, gaps)
    ensures forall j, k :: 0 < j <= |vs| ==> !Due(Burst(SimpleDebounceTest, c, vs[..j], gaps[..j]), k)
    ensures SinceChange(c.value, 0, vs, gaps) < 2000
    ensures var w := 2000 - SinceChange(c.value, 0, vs, gaps);
            && (forall d: nat, k: nat :: d < w ==> !Due(Advance(Burst(SimpleDebounceTest, c, vs, gaps), d), k))
            && FireTimer(SimpleDebounceTest, Advance(Burst(SimpleDebounceTest, c, vs, gaps), w), 0).emitted
               == c.emitted + (if Last(vs) != c.debounced then [Last(vs)] else [])
  {
    BurstCoalesces(SimpleDebounceTest, c, vs, gaps);
    BurstThenSilence(SimpleDebounceTest, c, vs, gaps);
  }

  /** Typing and then restoring the debounced value emits nothing. */
  lemma SimpleDebounceTestRestoreIsSilent(c: Channel<string>, x: string, dt: nat, k: nat)
    requires c.mounted && Coalesced(c)
    ensures FireTimer(SimpleDebounceTest,
                      Advance(OnRawInput(SimpleDebounceTest, OnRawInput(SimpleDebounceTest, c, x), c.debounced), dt),
                      k).emitted == c.emitted
  {
    RestoringEmitsNothing(SimpleDebounceTest, c, x, dt, k);
  }

  /** Toggling the input away silences it for good. */
  lemma SimpleDebounceTestToggleSilences(c: Channel<string>, es: seq<Event<string>>)
    ensures Run(SimpleDebounceTest, OnDispose(SimpleDebounceTest, c), es).emitted == c.emitted
  {
    DisposeSilences(SimpleDebounceTest, c, es);
  }

  /**
   * Under SolidJS nothing cancels a timer: a two-keystroke burst emits both
   * keystrokes, the first one stale, and typing then restoring the initial
   * value emits twice.
   */
  lemma SimpleDebounceTestUnderSolidEmitsEachKeystroke()
    ensures var cfg := UnderSolid(SimpleDebounceTest, true);
            Run(cfg, Create(cfg, "", 0), [RawInput("a"), RawInput("ab"), Tick(2000), Fire(0), Fire(0), Fire(0)]).emitted
            == ["a", "ab"]
    ensures var cfg := UnderSolid(SimpleDebounceTest, true);
            Run(cfg, Create(cfg, "", 0), [RawInput("a"), RawInput(""), Tick(2000), Fire(0), Fire(0), Fire(0)]).emitted
            == ["a", ""]
  {
    UncancelledCapturedEmitsEach(UnderSolid(SimpleDebounceTest, true), "", 0, "a", "ab");
    UncancelledCapturedEmitsEach(UnderSolid(SimpleDebounceTest, true), "", 0, "a", "");
  }

  // ----- filterDb03.tsx -----

  /**
   * "a", "ab" and "abc" typed at 0, 100 and 200 ms: no timer is due before
   * 700 ms; at 700 ms exactly one notification, "abc", and no timer is left.
   */
  lemma FilterDb03ThreeKeystrokes()
    ensures var b := Burst(FilterDb03, Create(FilterDb03, "", 0), ["a", "ab", "abc"], [100, 100, 100]);
            && (forall d: nat, k: nat :: d < 400 ==> !Due(Advance(b, d), k))
            && Advance(b, 400).now == 700
            && FireTimer(FilterDb03, Advance(b, 400), 0).emitted == ["abc"]
            && FireTimer(FilterDb03, Advance(b, 400), 0).pending == []
  {
    var c := Create(FilterDb03, "", 0);
    var vs := ["a", "ab", "abc"];
    var gaps: seq<nat> := [100, 100, 100];
    assert vs[1..] == ["ab", "abc"] && gaps[1..] == [100, 100];
    assert vs[2..] == ["abc"] && gaps[2..] == [100];
    assert SinceChange(c.value, 0, vs, gaps) == 100;
    BurstThenSilence(FilterDb03, c, vs, gaps);
    var c1 := Advance(OnRawInput(FilterDb03, c, "a"), 100);
    var c2 := Advance(OnRawInput(FilterDb03, c1, "ab"), 100);
    var c3 := Advance(OnRawInput(FilterDb03, c2, "abc"), 100);
    assert Burst(FilterDb03, c, vs, gaps) == c3;
  }

  /** Under SolidJS the same burst emits every keystroke. */
  lemma FilterDb03UnderSolidEmitsEachKeystroke()
    ensures var cfg := UnderSolid(FilterDb03, true);
            Run(cfg, Create(cfg, "", 0), [RawInput("a"), RawInput("ab"), Tick(500), Fire(0), Fire(0), Fire(0)]).emitted
            == ["a", "ab"]
  {
    UncancelledCapturedEmitsEach(UnderSolid(FilterDb03, true), "", 0, "a", "ab");
  }

  // ----- filterDb02.tsx -----

  /**
   * A burst in which the value never stands unchanged for 500 ms emits once,
   * 500 ms after its last change, its last value, if that differs from the
   * debounced value.
   */
  lemma FilterDb02BurstEmitsLast(c: Channel<string>, vs: seq<string>, gaps: seq<nat>)
    requires c.mounted && |gaps| == |vs| && vs != [] && vs[0] != c.value
    requires Tight(500, c.value, 0, vs, gaps)
    ensures forall j, k :: 0 < j <= |vs| ==> !Due(Burst(FilterDb02, c, vs[..j], gaps[..j]), k)
    ensures SinceChange(c.value, 0, vs, gaps) < 500
    ensures var w := 500 - SinceChange(c.value, 0, vs, gaps);
            && (forall d: nat, k: nat :: d < w ==> !Due(Advance(Burst(FilterDb02, c, vs, gaps), d), k))
            && FireTimer(FilterDb02, Advance(Burst(FilterDb02, c, vs, gaps), w), 0).emitted
               == c.emitted + (if Last(vs) != c.debounced then [Last(vs)] else [])
  {
    BurstCoalesces(FilterDb02, c, vs, gaps);
    BurstThenSilence(FilterDb02, c, vs, gaps);
  }

  /**
   * Reading the live value makes even uncancelled timers emit a burst at most
   * once, its last value; for "a" then "ab" exactly once, as "ab".
   */
  lemma FilterDb02LiveReadCoalesces(c: Channel<string>, vs: seq<string>, gaps: seq<nat>, es: seq<Event<string>>)
    requires c.mounted && |gaps| == |vs| && vs != []
    requires forall i :: 0 <= i < |es| ==> !es[i].RawInput? && !es[i].Resync?
    ensures var cfg := FilterDb02.(cleanup := false);
            Run(cfg, Burst(cfg, c, vs, gaps), es).emitted == c.emitted
            || Run(cfg, Burst(cfg, c, vs, gaps), es).emitted == c.emitted + [Last(vs)]
    ensures var cfg := FilterDb02.(cleanup := false);
            Run(cfg, Create(cfg, "", 0), [RawInput("a"), RawInput("ab"), Tick(500), Fire(0), Fire(0), Fire(0)]).emitted
            == ["ab"]
  {
    var cfg := FilterDb02.(cleanup := false);
    UncancelledLiveEmitsLast(cfg, c, vs, gaps, es);
    RunSix(cfg, Create(cfg, "", 0), [RawInput("a"), RawInput("ab"), Tick(500), Fire(0), Fire(0), Fire(0)]);
  }

  /**
   * Under SolidJS the effect reads nothing, so only the mount timer exists:
   * typing within the first 500 ms is emitted once, and nothing ever after.
   */
  lemma FilterDb02UnderSolidEmitsOnlyFirstWindow(es: seq<Event<string>>)
    ensures var cfg := UnderSolid(FilterDb02, false);
            Run(cfg, Create(cfg, "", 0), [RawInput("a"), Tick(500), Fire(0)]).emitted == ["a"]
    ensures var cfg := UnderSolid(FilterDb02, false);
            |Run(cfg, Create(cfg, "", 0), es).emitted| <= 1
  {
    var cfg := UnderSolid(FilterDb02, false);
    var c0 := Create(cfg, "", 0);
    var evs: seq<Event<string>> := [RawInput("a"), Tick(500), Fire(0)];
    var c1 := Step(cfg, c0, evs[0]);
    var c2 := Step(cfg, c1, evs[1]);
    var c3 := Step(cfg, c2, evs[2]);
    assert Run(cfg, c0, evs) == Run(cfg, c1, evs[1..]);
    assert Run(cfg, c1, evs[1..]) == Run(cfg, c2, evs[2..]);
    assert Run(cfg, c2, evs[2..]) == Run(cfg, c3, []);
    UntrackedEmitsAtMostOnce(cfg, "", 0, es);
  }

  // ----- filter00c.tsx -----

  /** Clearing the old handle first keeps at most one timer, holding the current value, even under SolidJS. */
  lemma Filter00cAtMostOnePending(initial: string, now: int, es: seq<Event<string>>)
    ensures |Run(Filter00c, Create(Filter00c, initial, now), es).pending| <= 1
    ensures var cfg := UnderSolid(Filter00c, true);
            Coalesced(Run(cfg, Create(cfg, initial, now), es))
  {
    AtMostOnePending(Filter00c, initial, now, es);
    AtMostOnePending(UnderSolid(Filter00c, true), initial, now, es);
  }

  /** The mount timer emits the unchanged initial value after 3500 ms. */
  lemma Filter00cEmitsOnMount(initial: string)
    ensures FireTimer(Filter00c, Advance(Create(Filter00c, initial, 0), 3500), 0).emitted == [initial]
  {
    UnguardedEmitsOnMount(Filter00c, initial, 0);
  }

  /**
   * A burst in which the value never stands unchanged for 3500 ms: nothing is
   * due until 3500 ms after its last change; then its last value is emitted.
   */
  lemma Filter00cBurstEmitsLast(c: Channel<string>, vs: seq<string>, gaps: seq<nat>)
    requires c.mounted && |gaps| == |vs| && vs != [] && vs[0] != c.value
    requires Tight(3500, c.value, 0, vs, gaps)
    ensures forall j, k :: 0 < j <= |vs| ==> !Due(Burst(Filter00c, c, vs[..j], gaps[..j]), k)
    ensures SinceChange(c.value, 0, vs, gaps) < 3500
    ensures var w := 3500 - SinceChange(c.value, 0, vs, gaps);
            && (forall d: nat, k: nat :: d < w ==> !Due(Advance(Burst(Filter00c, c, vs, gaps), d), k))
            && FireTimer(Filter00c, Advance(Burst(Filter00c, c, vs, gaps), w), 0).emitted == c.emitted + [Last(vs)]
  {
    BurstCoalesces(Filter00c, c, vs, gaps);
    BurstThenSilence(Filter00c, c, vs, gaps);
  }

  /** Unmounting silences the input. */
  lemma Filter00cUnmountSilences(initial: string, es: seq<Event<string>>)
    ensures Run(Filter00c, OnDispose(Filter00c, Create(Filter00c, initial, 0)), es).emitted == []
  {
    DisposeSilences(Filter00c, Create(Filter00c, initial, 0), es);
  }

  /** Under SolidJS the returned closure is never called: the mount timer still fires after unmount. */
  lemma Filter00cUnderSolidUnmountKeepsTimer(initial: string)
    ensures var cfg := UnderSolid(Filter00c, true);
            FireTimer(cfg, Advance(OnDispose(cfg, Create(cfg, initial, 0)), 3500), 0).emitted == [initial]
  {
  }

  // ----- filter.tsx, filter03a.tsx, filter03d2.tsx, filterDb01.tsx -----

  /**
   * The resync effect run by a new prop after typing: the typed value is never
   * emitted; the prop's value is, 500 ms later.
   */
  lemma FilterTsxResyncIsEmitted(c: Channel<string>, typed: string, reset: string)
    requires c.mounted && typed != c.value && reset != typed
    ensures FireTimer(FilterTsx, Advance(OnResync(FilterTsx, OnRawInput(FilterTsx, c, typed), reset), 500), 0).emitted
         == c.emitted + [reset]
  {
    ResyncReschedulesEmission(FilterTsx, c, typed, reset);
  }

  /** A keystroke typed after the mount timer has fired is emitted 500 ms later. */
  lemma FilterTsxDeliversTyping()
    ensures var c := Run(FilterTsx, Create(FilterTsx, "", 0), [Tick(500), Fire(0), RawInput("a")]);
            FireTimer(FilterTsx, Advance(c, 500), 0).emitted == ["", "a"]
  {
    TrackedLateTypingIsEmitted(FilterTsx, "", 0, "a");
  }

  /**
   * Under SolidJS the effect reads the value only inside the callback: the
   * mount timer emits "" at 500 ms, and "a" typed afterwards is never emitted,
   * whatever follows.
   */
  lemma FilterTsxUnderSolidLateTypingIsLost(es: seq<Event<string>>)
    ensures var cfg := UnderSolid(FilterTsx, false);
            Run(cfg, Create(cfg, "", 0), [Tick(500), Fire(0), RawInput("a")]).value == "a"
    ensures var cfg := UnderSolid(FilterTsx, false);
            Run(cfg, Run(cfg, Create(cfg, "", 0), [Tick(500), Fire(0), RawInput("a")]), es).emitted == [""]
  {
    var cfg := UnderSolid(FilterTsx, false);
    UntrackedLateTypingIsLost(cfg, "", 0, "a", es);
    var c0 := Create(cfg, "", 0);
    var pre: seq<Event<string>> := [Tick(500), Fire(0)];
    assert Run(cfg, c0, pre) == Run(cfg, Advance(c0, 500), pre[1..]);
    assert Run(cfg, Advance(c0, 500), pre[1..]) == Run(cfg, FireTimer(cfg, Advance(c0, 500), 0), []);
  }

  /** The other copies whose effect reads the value only inside the callback emit at most once under SolidJS. */
  lemma UntrackedCopiesUnderSolidEmitAtMostOnce(initial: string, now: int, es: seq<Event<string>>)
    ensures var cfg := UnderSolid(Filter03a, false); |Run(cfg, Create(cfg, initial, now), es).emitted| <= 1
    ensures var cfg := UnderSolid(Filter03d2, false); |Run(cfg, Create(cfg, initial, now), es).emitted| <= 1
    ensures var cfg := UnderSolid(FilterDb01, false); |Run(cfg, Create(cfg, initial, now), es).emitted| <= 1
  {
    UntrackedEmitsAtMostOnce(UnderSolid(Filter03a, false), initial, now, es);
    UntrackedEmitsAtMostOnce(UnderSolid(Filter03d2, false), initial, now, es);
    UntrackedEmitsAtMostOnce(UnderSolid(FilterDb01, false), initial, now, es);
  }

  /** With the effect tracking the value, the same copies emit a keystroke typed after mount. */
  lemma TrackedCopiesDeliverTyping(v: string)
    requires v != ""
    ensures var c := Run(Filter03a, Create(Filter03a, "", 0), [Tick(500), Fire(0), RawInput(v)]);
            FireTimer(Filter03a, Advance(c, 500), 0).emitted == ["", v]
    ensures var c := Run(Filter03d2, Create(Filter03d2, "", 0), [Tick(1000), Fire(0), RawInput(v)]);
            FireTimer(Filter03d2, Advance(c, 1000), 0).emitted == ["", v]
    ensures var c := Run(FilterDb01, Create(FilterDb01, "", 0), [Tick(1000), Fire(0), RawInput(v)]);
            FireTimer(FilterDb01, Advance(c, 1000), 0).emitted == ["", v]
  {
    TrackedLateTypingIsEmitted(Filter03a, "", 0, v);
    TrackedLateTypingIsEmitted(Filter03d2, "", 0, v);
    TrackedLateTypingIsEmitted(FilterDb01, "", 0, v);
  }

  /**
   * filterDb01.tsx's `value={initialValue}` is the mount-time prop, never
   * re-applied; the typed text goes to the value signal.
   */
  lemma FilterDb01BindsProp(c: Channel<string>, v: string)
    requires c.mounted
    ensures ValueBinding(FilterDb01, OnRawInput(FilterDb01, c, v)) == c.prop
    ensures OnRawInput(FilterDb01, c, v).value == v
  {
    PropBindingIgnoresTyping(FilterDb01, c, v);
  }

  // ----- filter03d1.tsx -----

  /** Typing changes nothing; only the initial value is ever emitted. */
  lemma Filter03d1EmitsOnlyInitial(initial: string, now: int, es: seq<Event<string>>)
    requires forall i :: 0 <= i < |es| ==> !es[i].Resync?
    ensures Run(Filter03d1, Create(Filter03d1, initial, now), es).value == initial
    ensures forall x :: x in Run(Filter03d1, Create(Filter03d1, initial, now), es).emitted ==> x == initial
  {
    IgnoredInputEmitsOnlyInitial(Filter03d1, initial, now, es);
  }
}
