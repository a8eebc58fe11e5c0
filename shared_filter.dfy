/**
 * filter03d2.tsx: one module-level signal holds the filter text for every
 * column. Each `Filter` copies it into its column whenever it changes, and each
 * `DebouncedInput` writes the typed text into it and hands it back to
 * `setFilterValue` when its timer fires. Every input's value signal is the
 * shared signal, so input `i` is the `Debounce` channel `Input(i)` whose value
 * is the shared value; the inputs differ only in their timers and emissions.
 */
module SharedFilter {
  import opened Options
  import opened Debounce

  /** An echo of the value a signal holds changes nothing: the timers' `onChange` is a no-op. */
  lemma EchoIsNoOp<T>(cfg: Config, c: Channel<T>)
    ensures Write(cfg, c, c.value) == c
  {
  }

  /** The page: the shared signal, one column per `Filter`, and each input's timers and emissions on one clock. */
  class SharedFilterPage<T(==)> {
    const cfg: Config
    const initial: T
    var shared: T
    var columns: seq<T>
    var pending: seq<seq<Timer<T>>>
    var emitted: seq<seq<T>>
    var now: int
    var mounted: bool

    /** The copy is filter03d2.tsx's: unguarded, its handlers write the signal; every column holds the shared value. */
    ghost predicate Valid()
      reads this
    {
      && cfg.guard == NoGuard && cfg.inputWrites
      && |pending| == |columns| && |emitted| == |columns|
      && forall i :: 0 <= i < |columns| ==> columns[i] == shared
    }

    /** Input `i` as a channel: its value signal is the shared one, its prop the mount-time value. */
    function Input(i: nat): Channel<T>
      requires i < |pending| && i < |emitted|
      reads this
    {
      Channel(initial, shared, initial, pending[i], now, emitted[i], mounted)
    }

    /**
     * `n` filters mount: each column takes the shared value, each input's resync
     * writes back the value the signal holds (a no-op), and each input's timer
     * effect runs once.
     */
    constructor (cfg: Config, initial: T, n: nat, now: int)
      requires cfg.guard == NoGuard && cfg.inputWrites
      ensures Valid()
      ensures this.cfg == cfg && shared == initial && |columns| == n
      ensures forall i :: 0 <= i < n ==> Input(i) == Create(cfg, initial, now)
    {
      this.cfg := cfg;
      this.initial := initial;
      shared := initial;
      this.now := now;
      mounted := true;
      columns := seq(n, _ => initial);
      pending := seq(n, _ => [Timer(now + cfg.delay, initial)]);
      emitted := seq(n, _ => []);
    }

    /**
     * Input `i` receives `v` (its `onInput` or `onChange`): the shared signal takes
     * it, so every input moves as a write of `v` to its channel (each tracking
     * timer effect re-runs), and every column's effect copies it.
     */
    method OnInput(i: nat, v: T)
      requires Valid() && mounted && i < |columns|
      modifies this
      ensures Valid()
      ensures shared == v && |columns| == old(|columns|)
      ensures forall j :: 0 <= j < |columns| ==> Input(j) == Write(cfg, old(Input(j)), v)
      ensures Input(i) == OnRawInput(cfg, old(Input(i)), v)
    {
      if v != shared {
        shared := v;
        columns := seq(|columns|, _ => v);
        if cfg.tracksValue {
          var kept := if cfg.CancelsOnReschedule() then seq(|pending|, _ => []) else pending;
          var t := Timer(now + cfg.delay, v);
          pending := seq(|kept|, j requires 0 <= j < |kept| => kept[j] + [t]);
        }
      }
    }

    method Tick(dt: nat)
      requires Valid()
      modifies this
      ensures Valid()
      ensures shared == old(shared) && columns == old(columns)
      ensures forall j :: 0 <= j < |columns| ==> Input(j) == Advance(old(Input(j)), dt)
    {
      now := now + dt;
    }

    /**
     * Timer `k` of input `i` fires: it notifies with the shared value, and its
     * `onChange`, `setFilterValue` of the value the signal already holds, leaves
     * every input and column as it is.
     */
    method Fire(i: nat, k: nat) returns (notified: Option<T>)
      requires Valid() && i < |columns|
      modifies this
      ensures Valid()
      ensures shared == old(shared) && columns == old(columns)
      ensures Input(i) == FireTimer(cfg, old(Input(i)), k)
      ensures forall j :: 0 <= j < |columns| && j != i ==> Input(j) == old(Input(j))
      ensures notified == if Due(old(Input(i)), k) then Some(shared) else None
      ensures notified.Some? ==> forall j :: 0 <= j < |columns| ==> Write(cfg, Input(j), notified.value) == Input(j)
    {
      notified := None;
      if k < |pending[i]| && pending[i][k].due <= now {
        pending := pending[i := RemoveAt(pending[i], k)];
        emitted := emitted[i := emitted[i] + [shared]];
        notified := Some(shared);
      }
    }

    /** The page unmounts: every input's cleanup runs, where there is one. */
    method Unmount()
      requires Valid()
      modifies this
      ensures Valid()
      ensures !mounted && shared == old(shared) && columns == old(columns)
      ensures forall j :: 0 <= j < |columns| ==> Input(j) == OnDispose(cfg, old(Input(j)))
    {
      mounted := false;
      if cfg.cleanup {
        pending := seq(|pending|, _ => []);
      }
    }
  }
}
