/** Variable-length integers, section 16 of RFC 9000: the two high bits of the first byte give the length. */
module Varints {
  import opened Text
  import opened Bytes

  const LIMIT := 0x4000_0000_0000_0000

  type Varint = v: int | 0 <= v < LIMIT

  /** The length that the tag bits announce. */
  function Length(first: Byte): (n: nat)
    ensures n == 1 || n == 2 || n == 4 || n == 8
  {
    match first / 64
    case 0 => 1
    case 1 => 2
    case 2 => 4
    case _ => 8
  }

  /** The tag that announces a length. */
  function Tag(n: nat): (t: Byte)
    requires n == 1 || n == 2 || n == 4 || n == 8
    ensures t < 4
  {
    match n
    case 1 => 0
    case 2 => 1
    case 4 => 2
    case _ => 3
  }

  lemma TagLength(n: nat, low: Byte)
    requires (n == 1 || n == 2 || n == 4 || n == 8) && low < 64
    ensures Tag(n) * 64 + low < 256 && Length(Tag(n) * 64 + low) == n && (Tag(n) * 64 + low) % 64 == low
  {
  }

  function Size(v: Varint): (n: nat)
    ensures n == 1 || n == 2 || n == 4 || n == 8
  {
    if v < 0x40 then 1 else if v < 0x4000 then 2 else if v < 0x4000_0000 then 4 else 8
  }

  lemma Powers()
    ensures Power256(0) == 1 && Power256(1) == 0x100 && Power256(3) == 0x100_0000 && Power256(7) == 0x100_0000_0000_0000
    ensures Power256(2) == 0x1_0000 && Power256(4) == 0x1_0000_0000
    ensures Power256(8) == 0x1_0000_0000_0000_0000
  {
    assert Power256(5) == 256 * Power256(4);
    assert Power256(6) == 256 * Power256(5);
  }

  /** `v` in `n` bytes, the tag on top of the first one. */
  function EncodeIn(v: Varint, n: nat): (r: seq<Byte>)
    requires (n == 1 || n == 2 || n == 4 || n == 8) && v < 64 * Power256(n - 1)
    ensures |r| == n && Length(r[0]) == n
  {
    var digits := BigEndian(v, n);
    LeadingDigit(v, n, 64);
    TagLength(n, digits[0]);
    [Tag(n) * 64 + digits[0]] + digits[1..]
  }

  function Encode(v: Varint): (r: seq<Byte>)
    ensures 1 <= |r| <= 8 && |r| == Size(v) == Length(r[0])
  {
    Powers();
    EncodeIn(v, Size(v))
  }

  datatype Decoded = Decoded(value: Varint, size: nat)

  /** The number at the start of `b` and how many bytes it took. */
  function Decode(b: seq<Byte>): (r: Option<Decoded>)
    ensures r.Some? ==> b != [] && r.value.size == Length(b[0]) <= |b|
    ensures r.None? <==> b == [] || |b| < Length(b[0])
  {
    if b == [] || |b| < Length(b[0]) then None
    else
      var n := Length(b[0]);
      ValueBound([b[0] % 64] + b[1..n]);
      Some(Decoded(Value([b[0] % 64] + b[1..n]), n))
  }

  lemma {:induction false} ValueLead(b: seq<Byte>)
    requires b != []
    ensures Value(b) < (b[0] + 1) * Power256(|b| - 1)
  {
    if |b| > 1 {
      var front := b[..|b| - 1];
      ValueLead(front);
      assert Power256(|b| - 1) == 256 * Power256(|b| - 2);
      assert 256 * ((b[0] + 1) * Power256(|b| - 2)) == (b[0] + 1) * (256 * Power256(|b| - 2));
    } else {
      assert b[..0] == [];
    }
  }

  lemma ValueBound(b: seq<Byte>)
    requires (|b| == 1 || |b| == 2 || |b| == 4 || |b| == 8) && b[0] < 64
    ensures Value(b) < LIMIT && Value(b) < 64 * Power256(|b| - 1)
  {
    ValueLead(b);
    Powers();
    assert (b[0] + 1) * Power256(|b| - 1) <= 64 * Power256(|b| - 1);
  }

  /** Only the tag of the first byte and the digits matter. */
  lemma DecodeDigits(first: Byte, digits: seq<Byte>, rest: seq<Byte>)
    requires digits != [] && Length(first) == |digits| && first % 64 == digits[0]
    ensures var r := Decode([first] + digits[1..] + rest);
            r.Some? && r.value.value == Value(digits) && r.value.size == |digits|
  {
    hide Value, Length;
    var b := [first] + digits[1..] + rest;
    assert b[1..|digits|] == digits[1..];
    assert [b[0] % 64] + b[1..|digits|] == digits;
  }

  lemma DecodeEncodeIn(v: Varint, n: nat, rest: seq<Byte>)
    requires (n == 1 || n == 2 || n == 4 || n == 8) && v < 64 * Power256(n - 1)
    ensures Decode(EncodeIn(v, n) + rest) == Some(Decoded(v, n))
  {
    hide Tag, Length, Decode, Value, BigEndian;
    var digits := BigEndian(v, n);
    LeadingDigit(v, n, 64);
    TagLength(n, digits[0]);
    DecodeDigits(Tag(n) * 64 + digits[0], digits, rest);
    assert Power256(n) == 256 * Power256(n - 1);
    ValueOfBigEndian(v, n);
  }

  /** What was encoded is decoded, whatever follows it. */
  lemma RoundTrip(v: Varint, rest: seq<Byte>)
    ensures Decode(Encode(v) + rest) == Some(Decoded(v, |Encode(v)|))
  {
    Powers();
    DecodeEncodeIn(v, Size(v), rest);
  }

  /** Every decodable form of a number is at least as long as the encoder's. */
  lemma EncodeIsShortest(b: seq<Byte>)
    requires Decode(b).Some?
    ensures |Encode(Decode(b).value.value)| <= Decode(b).value.size
    ensures Decode(b).value.size == Size(Decode(b).value.value) ==>
              Encode(Decode(b).value.value) == b[..Decode(b).value.size]
  {
    var Decoded(v, n) := Decode(b).value;
    var digits := [b[0] % 64] + b[1..n];
    ValueBound(digits);
    Powers();
    if n == Size(v) {
      BigEndianOfValue(digits);
      assert b[..n] == [b[0]] + b[1..n];
      assert b[0] == b[0] / 64 * 64 + b[0] % 64;
      assert Tag(n) == b[0] / 64;
    }
  }

  // ---------------------------------------------------------------- reading from a stream

  /** A byte stream that will deliver `rest` and then end. */
  class Reader {
    var rest: seq<Byte>

    constructor (bytes: seq<Byte>)
      ensures rest == bytes
    {
      rest := bytes;
    }

    /** Exactly `n` bytes, or an error once the stream ends, which leaves it exhausted. */
    method ReadFull(n: nat) returns (r: Option<seq<Byte>>)
      modifies this
      ensures n <= |old(rest)| ==> r == Some(old(rest)[..n]) && rest == old(rest)[n..]
      ensures n > |old(rest)| ==> r == None && rest == []
    {
      if n <= |rest| {
        r := Some(rest[..n]);
        rest := rest[n..];
      } else {
        r := None;
        rest := [];
      }
    }

    /** One byte tells how many more to fetch; the number is decoded from all of them. */
    method ReadVarint() returns (r: Option<Varint>)
      modifies this
      ensures match Take(old(rest))
              case Some((v, left)) => r == Some(v) && rest == left
              case None => r == None && rest == []
    {
      var first := ReadFull(1);
      if first == None {
        return None;
      }
      var n := Length(first.value[0]);
      var buffer := first.value;
      if n > 1 {
        var more := ReadFull(n - 1);
        if more == None {
          return None;
        }
        buffer := buffer + more.value;
        assert buffer == old(rest)[..n];
      }
      DecodePrefix(old(rest), n);
      var d := Decode(buffer);
      return Some(d.value.value);
    }
  }

  /** The number at the start of `b` and what comes after it. */
  function Take(b: seq<Byte>): (r: Option<(Varint, seq<Byte>)>)
    ensures r.Some? ==> |r.value.1| < |b|
  {
    match Decode(b)
    case Some(d) => Some((d.value, b[d.size..]))
    case None => None
  }

  lemma DecodePrefix(b: seq<Byte>, n: nat)
    requires b != [] && n == Length(b[0]) <= |b|
    ensures Decode(b[..n]) == Decode(b)
  {
    assert b[..n][1..n] == b[1..n];
  }

  lemma TakeEncoded(v: Varint, rest: seq<Byte>)
    ensures Take(Encode(v) + rest) == Some((v, rest))
  {
    RoundTrip(v, rest);
  }
}
