/** Copying into a buffer of fixed size. */
module Buffers {
  /** What copying `data` over a buffer from position `at` leaves there; what does not fit is dropped. */
  function Overlay<T>(was: seq<T>, at: nat, data: seq<T>): (r: seq<T>)
    requires at <= |was|
    ensures |r| == |was| && r[..at] == was[..at]
  {
    if at + |data| <= |was| then was[..at] + data + was[at + |data|..] else was[..at] + data[..|was| - at]
  }

  lemma OverlayTwice<T>(was: seq<T>, at: nat, a: seq<T>, b: seq<T>)
    requires at + |a| <= |was|
    ensures Overlay(Overlay(was, at, a), at + |a|, b) == Overlay(was, at, a + b)
  {
  }

  method Copy<T>(dst: array<T>, at: nat, data: seq<T>)
    requires at <= dst.Length
    modifies dst
    ensures dst[..] == Overlay(old(dst[..]), at, data)
  {
    var n := if at + |data| <= dst.Length then |data| else dst.Length - at;
    for i := 0 to n
      invariant dst[..at] == old(dst[..at])
      invariant dst[at..at + i] == data[..i]
      invariant dst[at + i..] == old(dst[at + i..])
    {
      dst[at + i] := data[i];
      assert dst[at..at + i + 1] == dst[at..at + i] + [data[i]];
    }
    assert dst[..] == dst[..at] + dst[at..at + n] + dst[at + n..];
  }
}
