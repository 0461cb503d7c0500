/** Bytes and big-endian numbers. */
module Bytes {
  type Byte = b: int | 0 <= b < 256

  function Power256(n: nat): (r: nat)
    ensures r > 0
  {
    if n == 0 then 1 else 256 * Power256(n - 1)
  }

  /** The last `n` base-256 digits of `v`, most significant first. */
  function BigEndian(v: nat, n: nat): (r: seq<Byte>)
    ensures |r| == n
  {
    if n == 0 then [] else BigEndian(v / 256, n - 1) + [v % 256]
  }

  function Value(b: seq<Byte>): (v: nat) {
    if b == [] then 0 else 256 * Value(b[..|b| - 1]) + b[|b| - 1]
  }

  lemma {:induction false} ValueOfBigEndian(v: nat, n: nat)
    requires v < Power256(n)
    ensures Value(BigEndian(v, n)) == v
  {
    if n > 0 {
      ValueOfBigEndian(v / 256, n - 1);
      assert BigEndian(v, n)[..n - 1] == BigEndian(v / 256, n - 1);
    }
  }

  lemma {:induction false} BigEndianOfValue(b: seq<Byte>)
    ensures Value(b) < Power256(|b|) && BigEndian(Value(b), |b|) == b
  {
    if b != [] {
      BigEndianOfValue(b[..|b| - 1]);
    }
  }

  lemma Shift(v: nat, bound: nat, n: nat)
    requires n > 0 && v < bound * Power256(n)
    ensures v / 256 < bound * Power256(n - 1)
  {
    var p := Power256(n - 1);
    assert bound * (256 * p) == 256 * (bound * p);
  }

  /** The first digit is what is left after dropping all the others. */
  lemma {:induction false} LeadingDigit(v: nat, n: nat, bound: nat)
    requires n > 0 && bound <= 256 && v < bound * Power256(n - 1)
    ensures BigEndian(v, n)[0] < bound
  {
    if n > 1 {
      Shift(v, bound, n - 1);
      LeadingDigit(v / 256, n - 1, bound);
      assert BigEndian(v, n)[0] == BigEndian(v / 256, n - 1)[0];
    } else {
      assert BigEndian(v, 1) == [] + [v % 256];
    }
  }
}
