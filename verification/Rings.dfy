// Ring buffers: a sequence of slots, a read position, and a number of elements.

module Rings {

  // The slot i places behind position r.
  function Slot(r: nat, i: nat, size: nat): (p: nat)
    requires r < size && i <= size
    ensures p < size
  {
    if r + i < size then r + i else r + i - size
  }

  // The n elements of a ring from position r on.
  function Contents<T>(b: seq<T>, r: nat, n: nat): (c: seq<T>)
    requires r < |b| && n <= |b|
    ensures |c| == n
  {
    seq(n, i requires 0 <= i < n => b[Slot(r, i, |b|)])
  }

  // The slot behind the last element extends the ring.
  lemma ContentsPush<T>(b: seq<T>, r: nat, n: nat, e: T)
    requires r < |b| && n < |b|
    ensures Contents(b[Slot(r, n, |b|) := e], r, n + 1) == Contents(b, r, n) + [e]
  {
  }

  // The first element leaves the ring when the read position moves on.
  lemma ContentsPop<T>(b: seq<T>, r: nat, n: nat)
    requires r < |b| && 0 < n <= |b|
    ensures Contents(b, Slot(r, 1, |b|), n - 1) == Contents(b, r, n)[1..] && Contents(b, r, n)[0] == b[r]
  {
  }

  // One step of either position, and where full and empty show.
  lemma Steps(r: nat, n: nat, size: nat)
    requires r < size && 1 < size && n < size
    ensures var w := Slot(r, n, size);
            && Slot(w, 1, size) == Slot(r, n + 1, size)
            && (w == r <==> n == 0)
            && (Slot(w, 1, size) == r <==> n == size - 1)
            && (n > 0 ==> Slot(Slot(r, 1, size), n - 1, size) == w)
            && Slot(w, 1, size) == Slot(Slot(r, 1, size), n, size)
  {
  }

  // A step written with a remainder.
  lemma StepIs(r: nat, size: nat)
    requires r < size
    ensures (r + 1) % size == Slot(r, 1, size)
  {
    if r + 1 == size { assert (r + 1) % size == 0; }
  }
}
