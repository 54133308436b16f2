/** The part of `collections.deque` the solver uses, on sequences whose
    index 0 is the deque's left end: `appendleft` and `extendleft` push on
    the left, `pop` takes from the right, so the deque is a FIFO queue. */
module Deque {

  function AppendLeft<T>(q: seq<T>, x: T): (q': seq<T>)
    ensures |q'| == |q| + 1 && q'[0] == x && q'[1..] == q
  {
    [x] + q
  }

  /** `extendleft(xs)`: `appendleft` of each element of xs in turn. */
  function ExtendLeft<T>(q: seq<T>, xs: seq<T>): seq<T>
    decreases |xs|
  {
    if xs == [] then q else ExtendLeft(AppendLeft(q, xs[0]), xs[1..])
  }

  function Reverse<T>(xs: seq<T>): (r: seq<T>)
    ensures |r| == |xs|
    ensures forall i :: 0 <= i < |xs| ==> r[i] == xs[|xs| - 1 - i]
  {
    if xs == [] then [] else Reverse(xs[1..]) + [xs[0]]
  }

  /** The element `pop()` returns: the right end. */
  function Last<T>(q: seq<T>): T
    requires q != []
  {
    q[|q| - 1]
  }

  /** The deque `pop()` leaves behind. */
  function Front<T>(q: seq<T>): (q': seq<T>)
    requires q != []
    ensures |q'| == |q| - 1 && q' + [Last(q)] == q
  {
    q[..|q| - 1]
  }

  /** The elements in the order repeated `pop()` calls return them. */
  function Drain<T>(q: seq<T>): (r: seq<T>)
    ensures |r| == |q|
    decreases |q|
  {
    if q == [] then [] else [Last(q)] + Drain(Front(q))
  }

  /** `extendleft` leaves the pushed elements on the left in reverse order,
      the most recent leftmost. */
  lemma {:induction false} ExtendLeftReverse<T>(q: seq<T>, xs: seq<T>)
    ensures ExtendLeft(q, xs) == Reverse(xs) + q
    decreases |xs|
  {
    if xs != [] {
      ExtendLeftReverse(AppendLeft(q, xs[0]), xs[1..]);
      assert Reverse(xs) == Reverse(xs[1..]) + [xs[0]];
    }
  }

  /** Pushing one more element after xs is `appendleft` of it. */
  lemma ExtendLeftSnoc<T>(q: seq<T>, xs: seq<T>, x: T)
    ensures ExtendLeft(q, xs + [x]) == AppendLeft(ExtendLeft(q, xs), x)
  {
    ExtendLeftReverse(q, xs + [x]);
    ExtendLeftReverse(q, xs);
    assert Reverse(xs + [x]) == [x] + Reverse(xs);
  }

  /** Draining a sequence returns it reversed. */
  lemma {:induction false} DrainReverse<T>(q: seq<T>)
    ensures Drain(q) == Reverse(q)
    decreases |q|
  {
    if q != [] {
      DrainReverse(Front(q));
    }
  }

  lemma ReverseConcat<T>(a: seq<T>, b: seq<T>)
    ensures Reverse(a + b) == Reverse(b) + Reverse(a)
  {
  }

  /** FIFO order: what was queued before comes out first, then the pushed
      elements in the order they were pushed. */
  lemma Fifo<T>(q: seq<T>, xs: seq<T>)
    ensures Drain(ExtendLeft(q, xs)) == Drain(q) + xs
  {
    ExtendLeftReverse(q, xs);
    DrainReverse(Reverse(xs) + q);
    DrainReverse(q);
    ReverseConcat(Reverse(xs), q);
    ReverseTwice(xs);
  }

  lemma ReverseTwice<T>(xs: seq<T>)
    ensures Reverse(Reverse(xs)) == xs
  {
  }

  /** In particular `pop()` after pushes onto an empty deque returns the
      first element pushed. */
  lemma PopOldest<T>(xs: seq<T>)
    requires xs != []
    ensures ExtendLeft([], xs) != [] && Last(ExtendLeft([], xs)) == xs[0]
  {
    ExtendLeftReverse([], xs);
  }
}
