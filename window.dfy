/** The bounded history each consumer keeps at module level: a Python
    `deque(maxlen=N)` of temperatures, oldest first, whose `append` evicts the
    oldest entry when the deque is already full. The smoker uses N = 5, the
    food-A probe N = 20. */
module SlidingWindow {

  /** The most recent `n` elements of `xs` in arrival order (all of them when
      there are fewer). A deque with `maxlen = n` holding `s` holds
      `Newest(s + [x], n)` after `append(x)`. */
  function Newest(xs: seq<real>, n: nat): (r: seq<real>)
    ensures |r| == if |xs| <= n then |xs| else n
    ensures forall i :: 0 <= i < |r| ==> r[i] == xs[|xs| - |r| + i]
  {
    if |xs| <= n then xs else xs[|xs| - n..]
  }

  /** The window after appending each of `xs` in turn. */
  function PushAll(s: seq<real>, capacity: nat, xs: seq<real>): (r: seq<real>)
    decreases |xs|
  {
    if xs == [] then s else PushAll(Newest(s + [xs[0]], capacity), capacity, xs[1..])
  }

  /** Keeping the newest `n` of a window that already holds the newest `n`
      loses nothing. */
  lemma NewestOfNewest(a: seq<real>, b: seq<real>, n: nat)
    ensures Newest(Newest(a, n) + b, n) == Newest(a + b, n)
  {
    var m := Newest(a, n);
    assert m == a[|a| - |m|..];
    var k := |m| + |b|;
    if k > n {
      assert (m + b)[k - n..] == (a + b)[|a| + |b| - n..];
    } else {
      assert m + b == (a + b)[|a| + |b| - k..];
    }
  }

  /** FIFO eviction law: after any sequence of appends to a window of at most
      `capacity` values, the window holds at most `capacity` values, and they
      are the most recent ones in arrival order. */
  lemma {:induction false} PushAllKeepsNewest(s: seq<real>, capacity: nat, xs: seq<real>)
    requires |s| <= capacity
    ensures PushAll(s, capacity, xs) == Newest(s + xs, capacity)
    ensures |PushAll(s, capacity, xs)| <= capacity
    decreases |xs|
  {
    if xs == [] {
      assert s + xs == s;
    } else {
      var s' := Newest(s + [xs[0]], capacity);
      calc {
        PushAll(s, capacity, xs);
        PushAll(s', capacity, xs[1..]);
        { PushAllKeepsNewest(s', capacity, xs[1..]); }
        Newest(s' + xs[1..], capacity);
        { NewestOfNewest(s + [xs[0]], xs[1..], capacity); }
        Newest(s + [xs[0]] + xs[1..], capacity);
        { assert s + [xs[0]] + xs[1..] == s + xs; }
        Newest(s + xs, capacity);
      }
    }
  }

  /** A deque with a fixed `maxlen`, mutated in place by `Append`. */
  class Window {
    const capacity: nat
    var items: seq<real>

    ghost predicate Valid()
      reads this
    {
      0 < capacity && |items| <= capacity
    }

    /** `deque(maxlen=capacity)`: an empty window. */
    constructor (capacity: nat)
      requires 0 < capacity
      ensures Valid()
      ensures this.capacity == capacity && items == []
    {
      this.capacity := capacity;
      items := [];
    }

    /** `append(x)`: drop the oldest value if full, then add `x` at the end;
        the window then holds the newest `capacity` values. */
    method Append(x: real)
      requires Valid()
      modifies this
      ensures Valid()
      ensures items == Newest(old(items) + [x], capacity)
    {
      if |items| == capacity {
        items := items[1..];
      }
      items := items + [x];
    }
  }
}
