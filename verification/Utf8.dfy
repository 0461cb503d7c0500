/** Well-formed UTF-8, section 4 of RFC 3629: no overlong forms, no surrogates, nothing above U+10FFFF. */
module Utf8 {
  import opened Bytes

  const RUNE_ERROR := 0xFFFD
  const MAX_RUNE := 0x10FFFF

  predicate Continuation(b: Byte) {
    0x80 <= b <= 0xBF
  }

  /** The length of the well-formed character at the start of `b`, or 0 if there is none. */
  function Lead(b: seq<Byte>): (n: nat)
    ensures n <= 4 && n <= |b|
  {
    if b == [] then 0
    else if b[0] < 0x80 then 1
    else if |b| < 2 then 0
    else if 0xC2 <= b[0] <= 0xDF then if Continuation(b[1]) then 2 else 0
    else if |b| < 3 || !SecondFits(b[0], b[1]) || !Continuation(b[2]) then 0
    else if b[0] < 0xF0 then 3
    else if |b| >= 4 && Continuation(b[3]) then 4
    else 0
  }

  /** The first two bytes of the three- and four-byte forms. */
  predicate SecondFits(first: Byte, second: Byte) {
    match first
    case 0xE0 => 0xA0 <= second <= 0xBF
    case 0xED => 0x80 <= second <= 0x9F
    case 0xF0 => 0x90 <= second <= 0xBF
    case 0xF4 => 0x80 <= second <= 0x8F
    case _ => (0xE1 <= first <= 0xEF || 0xF1 <= first <= 0xF3) && Continuation(second)
  }

  predicate Valid(b: seq<Byte>) {
    b == [] || (Lead(b) > 0 && Valid(b[Lead(b)..]))
  }

  /** A character does not depend on what follows it. */
  lemma LeadPrefix(b: seq<Byte>, k: nat)
    requires k <= |b|
    ensures Lead(b) > 0 && Lead(b) <= k ==> Lead(b[..k]) == Lead(b)
    ensures Lead(b[..k]) > 0 ==> Lead(b) == Lead(b[..k])
  {
  }

  lemma {:induction false} ValidConcat(a: seq<Byte>, b: seq<Byte>)
    requires Valid(a)
    ensures Valid(a + b) <==> Valid(b)
  {
    if a == [] {
      assert a + b == b;
    } else {
      var n := Lead(a);
      assert (a + b)[..|a|] == a;
      LeadPrefix(a + b, |a|);
      assert (a + b)[n..] == a[n..] + b;
      ValidConcat(a[n..], b);
    }
  }

  lemma {:induction false} AsciiValid(b: seq<Byte>)
    requires forall i :: 0 <= i < |b| ==> b[i] < 0x80
    ensures Valid(b)
  {
    if b != [] {
      AsciiValid(b[1..]);
    }
  }

  /** A byte below 0x80 is a character of its own and ends every character before it. */
  lemma {:induction false} ValidSplit(a: seq<Byte>, b: seq<Byte>)
    requires Valid(a + b) && b != [] && b[0] < 0x80
    ensures Valid(a) && Valid(b)
  {
    if a == [] {
      assert a + b == b;
    } else {
      var n := Lead(a + b);
      if n > |a| {
        LeadContinues(a + b, |a|);
        assert false;
      }
      LeadPrefix(a + b, |a|);
      assert (a + b)[..|a|] == a;
      assert (a + b)[n..] == a[n..] + b;
      ValidSplit(a[n..], b);
    }
  }

  /** Inside a character only continuation bytes occur. */
  lemma LeadContinues(b: seq<Byte>, i: nat)
    requires 0 < i < Lead(b)
    ensures Continuation(b[i])
  {
  }

  /** Every position is at most three bytes behind a character boundary. */
  lemma {:induction false} NearBoundary(b: seq<Byte>, k: nat) returns (j: nat)
    requires Valid(b) && k <= |b|
    ensures j <= k <= j + 3 && Valid(b[..j])
  {
    if b == [] || k < Lead(b) {
      j := 0;
    } else {
      var n := Lead(b);
      j := NearBoundary(b[n..], k - n);
      j := n + j;
      LeadPrefix(b, j);
      assert b[..j][n..] == b[n..][..j - n];
    }
  }

  /** Scalar values. */
  predicate IsScalar(r: int) {
    0 <= r < 0xD800 || 0xE000 <= r <= MAX_RUNE
  }

  /** The encoder replaces what is not a scalar value. */
  function EncodeRune(r: int): (b: seq<Byte>)
    ensures 1 <= |b| <= 4 && Lead(b) == |b|
    ensures |b| == 4 <==> 0x1_0000 <= r <= MAX_RUNE
    ensures |b| == 1 <==> 0 <= r < 0x80
  {
    if !IsScalar(r) then [0xEF, 0xBF, 0xBD]
    else if r < 0x80 then [r]
    else
      var low, r1 := r % 0x40, r / 0x40;
      if r < 0x800 then [0xC0 + r1, 0x80 + low]
      else
        var mid, r2 := r1 % 0x40, r1 / 0x40;
        if r < 0x1_0000 then [0xE0 + r2, 0x80 + mid, 0x80 + low]
        else [0xF0 + r2 / 0x40, 0x80 + r2 % 0x40, 0x80 + mid, 0x80 + low]
  }

  lemma EncodeRuneValid(r: int)
    ensures Valid(EncodeRune(r))
  {
  }

  /** The number a well-formed character stands for. */
  function Rune(b: seq<Byte>): (r: int)
    requires Lead(b) > 0
  {
    match Lead(b)
    case 1 => b[0]
    case 2 => Extend(b[0] - 0xC0, b[1])
    case 3 => Extend(Extend(b[0] - 0xE0, b[1]), b[2])
    case _ => Extend(Extend(Extend(b[0] - 0xF0, b[1]), b[2]), b[3])
  }

  /** Append the six low bits of a continuation byte. */
  function Extend(top: int, b: Byte): (r: int) {
    top * 0x40 + (b as int - 0x80)
  }

  /** The well-formed characters are exactly the encodings of the scalar values: what is read is what the encoder
      writes, so there are no overlong forms and no surrogates. */
  lemma RuneCanonical(b: seq<Byte>)
    requires Lead(b) > 0
    ensures IsScalar(Rune(b)) && EncodeRune(Rune(b)) == b[..Lead(b)]
  {
    if Lead(b) == 3 {
      CanonicalThree(b);
    } else if Lead(b) == 4 {
      CanonicalFour(b);
    } else {
      assert b[..1] == [b[0]] && (Lead(b) == 2 ==> b[..2] == [b[0], b[1]]);
    }
  }

  lemma CanonicalThree(b: seq<Byte>)
    requires Lead(b) == 3
    ensures IsScalar(Rune(b)) && EncodeRune(Rune(b)) == b[..3]
  {
    ThreeBytes(b[0] - 0xE0, b[1] - 0x80, b[2] - 0x80);
    assert 0x800 <= Rune(b) < 0x1_0000 && IsScalar(Rune(b));
    assert b[..3] == [b[0], b[1], b[2]];
    hide Lead, SecondFits, Rune;
  }

  lemma CanonicalFour(b: seq<Byte>)
    requires Lead(b) == 4
    ensures IsScalar(Rune(b)) && EncodeRune(Rune(b)) == b[..4]
  {
    FourBytes(b[0] - 0xF0, b[1] - 0x80, b[2] - 0x80, b[3] - 0x80);
    assert 0x1_0000 <= Rune(b) <= MAX_RUNE;
    assert b[..4] == [b[0], b[1], b[2], b[3]];
    hide Lead, SecondFits;
  }

  lemma ThreeBytes(top: int, mid: int, low: int)
    requires 0 <= top < 0x10 && 0 <= mid < 0x40 && 0 <= low < 0x40
    ensures var r := (top * 0x40 + mid) * 0x40 + low;
            r % 0x40 == low && r / 0x40 % 0x40 == mid && r / 0x40 / 0x40 == top
  {
  }

  lemma FourBytes(top: int, high: int, mid: int, low: int)
    requires 0 <= top < 8 && 0 <= high < 0x40 && 0 <= mid < 0x40 && 0 <= low < 0x40
    ensures var r := ((top * 0x40 + high) * 0x40 + mid) * 0x40 + low;
            && r % 0x40 == low && r / 0x40 % 0x40 == mid
            && r / 0x40 / 0x40 % 0x40 == high && r / 0x40 / 0x40 / 0x40 == top
  {
  }

  /** The encoder and the reading of characters agree on all scalar values. */
  lemma RuneRoundTrip(r: int)
    requires IsScalar(r)
    ensures Rune(EncodeRune(r)) == r
  {
    hide Lead;
    var b := EncodeRune(r);
  }
}
