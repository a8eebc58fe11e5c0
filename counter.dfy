/**
 * signal01.tsx and signal01a.tsx: a module-level `count` signal starting at 0,
 * `increment` and `decrement` click handlers, and the span showing `count()`.
 * The count is unbounded in both directions.
 */
module Counter {
  datatype Button = Minus | Plus

  /** What one click adds to the count. */
  function Delta(b: Button): (d: int)
    ensures d == 1 || d == -1
    ensures d == 1 <==> b == Plus
  {
    if b == Plus then 1 else -1
  }

  /** The count after clicking `clicks`, in order, from 0. */
  function Net(clicks: seq<Button>): int {
    if clicks == [] then 0 else Net(clicks[..|clicks| - 1]) + Delta(clicks[|clicks| - 1])
  }

  /** Clicks add up: the count after `a + b` is that after `a` plus that after `b`. */
  lemma {:induction false} NetAppend(a: seq<Button>, b: seq<Button>)
    ensures Net(a + b) == Net(a) + Net(b)
    decreases |b|
  {
    if b != [] {
      var b' := b[..|b| - 1];
      assert (a + b)[..|a + b| - 1] == a + b';
      NetAppend(a, b');
    } else {
      assert a + b == a;
    }
  }

  /** The count is the number of `+` clicks less the number of `-` clicks, in whatever order. */
  lemma {:induction false} NetCountsClicks(clicks: seq<Button>)
    ensures Net(clicks) == multiset(clicks)[Plus] as int - multiset(clicks)[Minus] as int
    decreases |clicks|
  {
    if clicks != [] {
      var init := clicks[..|clicks| - 1];
      assert clicks == init + [clicks[|clicks| - 1]];
      NetCountsClicks(init);
    }
  }

  /** A `+` and then a `-` (in either order) leave the count where it was. */
  lemma PlusMinusCancel(clicks: seq<Button>)
    ensures Net(clicks + [Plus, Minus]) == Net(clicks)
    ensures Net(clicks + [Minus, Plus]) == Net(clicks)
  {
    NetAppend(clicks, [Plus, Minus]);
    NetAppend(clicks, [Minus, Plus]);
    assert [Plus, Minus][..1] == [Plus];
    assert [Minus, Plus][..1] == [Minus];
  }

  /** The count's magnitude never exceeds the number of clicks, and has the clicks' parity. */
  lemma {:induction false} NetBounded(clicks: seq<Button>)
    ensures -|clicks| <= Net(clicks) <= |clicks|
    ensures (|clicks| - Net(clicks)) % 2 == 0
    decreases |clicks|
  {
    if clicks != [] {
      NetBounded(clicks[..|clicks| - 1]);
    }
  }

  /** The `count` signal. */
  class CountSignal {
    var count: int

    /** `createSignal(0)`. */
    constructor ()
      ensures count == 0
    {
      count := 0;
    }

    /** `increment`: `setCount(count() + 1)`. */
    method Increment()
      modifies this
      ensures count == old(count) + 1
    {
      count := count + 1;
    }

    /** `decrement`: `setCount(count() - 1)`; the count may go below zero. */
    method Decrement()
      modifies this
      ensures count == old(count) - 1
    {
      count := count - 1;
    }

    /** One click on the `-` or `+` button. */
    method Click(b: Button)
      modifies this
      ensures count == old(count) + Delta(b)
    {
      if b == Plus {
        Increment();
      } else {
        Decrement();
      }
    }
  }
}
