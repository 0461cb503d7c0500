/** Decoding HTML entities in a byte string (extract/unescape.go). */
module Unescaping {
  import opened Text
  import opened Bytes
  import Utf8

  const AMP: Byte := 0x26
  const SEMICOLON: Byte := 0x3B
  const HASH: Byte := 0x23
  const MAX_ENTITY := 12

  // ---------------------------------------------------------------- named entities

  /** Relations, brackets and suits. */
  function NamedRelation(name: string): (r: Option<int>)
    ensures r.Some? ==> |name| >= 2 && 0 <= r.value < 0x1_0000 && Utf8.IsScalar(r.value)
  {
    if name == "there4" then Some(0x2234)
    else if name == "sim" then Some(0x223C)
    else if name == "cong" then Some(0x2245)
    else if name == "asymp" then Some(0x2248)
    else if name == "ne" then Some(0x2260)
    else if name == "equiv" then Some(0x2261)
    else if name == "le" then Some(0x2264)
    else if name == "ge" then Some(0x2265)
    else if name == "sub" then Some(0x2282)
    else if name == "sup" then Some(0x2283)
    else if name == "nsub" then Some(0x2284)
    else if name == "sube" then Some(0x2286)
    else if name == "supe" then Some(0x2287)
    else if name == "oplus" then Some(0x2295)
    else if name == "otimes" then Some(0x2297)
    else if name == "perp" then Some(0x22A5)
    else if name == "sdot" then Some(0x22C5)
    else if name == "lceil" then Some(0x2308)
    else if name == "rceil" then Some(0x2309)
    else if name == "lfloor" then Some(0x230A)
    else if name == "rfloor" then Some(0x230B)
    else if name == "lang" then Some(0x2329)
    else if name == "rang" then Some(0x232A)
    else if name == "loz" then Some(0x25CA)
    else if name == "spades" then Some(0x2660)
    else if name == "clubs" then Some(0x2663)
    else if name == "hearts" then Some(0x2665)
    else if name == "diams" then Some(0x2666)
    else None
  }

  /** Quantifiers, sets and operators. */
  function NamedOperator(name: string): (r: Option<int>)
    ensures r.Some? ==> |name| >= 2 && 0 <= r.value < 0x1_0000 && Utf8.IsScalar(r.value)
  {
    if name == "forall" then Some(0x2200)
    else if name == "part" then Some(0x2202)
    else if name == "exist" then Some(0x2203)
    else if name == "empty" then Some(0x2205)
    else if name == "nabla" then Some(0x2207)
    else if name == "isin" then Some(0x2208)
    else if name == "notin" then Some(0x2209)
    else if name == "ni" then Some(0x220B)
    else if name == "prod" then Some(0x220F)
    else if name == "sum" then Some(0x2211)
    else if name == "minus" then Some(0x2212)
    else if name == "lowast" then Some(0x2217)
    else if name == "radic" then Some(0x221A)
    else if name == "prop" then Some(0x221D)
    else if name == "infin" then Some(0x221E)
    else if name == "ang" then Some(0x2220)
    else if name == "and" then Some(0x2227)
    else if name == "or" then Some(0x2228)
    else if name == "cap" then Some(0x2229)
    else if name == "cup" then Some(0x222A)
    else if name == "int" then Some(0x222B)
    else NamedRelation(name)
  }

  /** Marks, letter-like symbols and arrows. */
  function NamedLetterlike(name: string): (r: Option<int>)
    ensures r.Some? ==> |name| >= 2 && 0 <= r.value < 0x1_0000 && Utf8.IsScalar(r.value)
  {
    if name == "Dagger" then Some(0x2021)
    else if name == "permil" then Some(0x2030)
    else if name == "lsaquo" then Some(0x2039)
    else if name == "rsaquo" then Some(0x203A)
    else if name == "bull" then Some(0x2022)
    else if name == "prime" then Some(0x2032)
    else if name == "Prime" then Some(0x2033)
    else if name == "oline" then Some(0x203E)
    else if name == "frasl" then Some(0x2044)
    else if name == "weierp" then Some(0x2118)
    else if name == "image" then Some(0x2111)
    else if name == "real" then Some(0x211C)
    else if name == "alefsym" then Some(0x2135)
    else if name == "larr" then Some(0x2190)
    else if name == "uarr" then Some(0x2191)
    else if name == "rarr" then Some(0x2192)
    else if name == "darr" then Some(0x2193)
    else if name == "harr" then Some(0x2194)
    else if name == "crarr" then Some(0x21B5)
    else if name == "lArr" then Some(0x21D0)
    else if name == "uArr" then Some(0x21D1)
    else if name == "rArr" then Some(0x21D2)
    else if name == "dArr" then Some(0x21D3)
    else if name == "hArr" then Some(0x21D4)
    else NamedOperator(name)
  }

  /** Markup characters, typography and common symbols. */
  function NamedSymbol(name: string): (r: Option<int>)
    ensures r.Some? ==> |name| >= 2 && 0 <= r.value < 0x1_0000 && Utf8.IsScalar(r.value)
  {
    if name == "quot" then Some(0x22)
    else if name == "amp" then Some(0x26)
    else if name == "apos" then Some(0x27)
    else if name == "lt" then Some(0x3c)
    else if name == "gt" then Some(0x3e)
    else if name == "nbsp" then Some(0x00A0)
    else if name == "copy" then Some(0x00A9)
    else if name == "reg" then Some(0x00AE)
    else if name == "trade" then Some(0x2122)
    else if name == "euro" then Some(0x20AC)
    else if name == "cent" then Some(0x00A2)
    else if name == "pound" then Some(0x00A3)
    else if name == "yen" then Some(0x00A5)
    else if name == "sect" then Some(0x00A7)
    else if name == "deg" then Some(0x00B0)
    else if name == "plusmn" then Some(0x00B1)
    else if name == "para" then Some(0x00B6)
    else if name == "middot" then Some(0x00B7)
    else if name == "times" then Some(0x00D7)
    else if name == "divide" then Some(0x00F7)
    else if name == "hellip" then Some(0x2026)
    else if name == "ndash" then Some(0x2013)
    else if name == "mdash" then Some(0x2014)
    else if name == "lsquo" then Some(0x2018)
    else if name == "rsquo" then Some(0x2019)
    else if name == "sbquo" then Some(0x201A)
    else if name == "ldquo" then Some(0x201C)
    else if name == "rdquo" then Some(0x201D)
    else if name == "bdquo" then Some(0x201E)
    else if name == "dagger" then Some(0x2020)
    else NamedLetterlike(name)
  }

  /** The bytes of a name as text. */
  function AsText(b: seq<Byte>): (r: string)
    ensures |r| == |b|
  {
    seq(|b|, i requires 0 <= i < |b| => b[i] as char)
  }

  // ---------------------------------------------------------------- numeric entities

  function DecimalDigit(c: Byte): (r: Option<int>)
    ensures r.Some? ==> 0 <= r.value < 10
  {
    if 0x30 <= c <= 0x39 then Some(c - 0x30) else None
  }

  function HexDigit(c: Byte): (r: Option<int>)
    ensures r.Some? ==> 0 <= r.value < 16
  {
    if 0x30 <= c <= 0x39 then Some(c - 0x30)
    else if 0x61 <= c <= 0x66 then Some(c - 0x61 + 10)
    else if 0x41 <= c <= 0x46 then Some(c - 0x41 + 10)
    else None
  }

  /** The number that all of `digits` stand for in the base of `digit`. */
  function Number(digits: seq<Byte>, digit: Byte -> Option<int>, base: nat): (r: Option<int>) {
    if digits == [] then Some(0)
    else
      match (Number(digits[..|digits| - 1], digit, base), digit(digits[|digits| - 1]))
      case (Some(n), Some(d)) => Some(n * base + d)
      case _ => None
  }

  /** Surrogates and numbers above the last code point are replaced. */
  function Scalar(n: int): (r: int)
    ensures Utf8.IsScalar(n) ==> r == n
    ensures n >= 0 ==> Utf8.IsScalar(r)
  {
    if n > Utf8.MAX_RUNE || 0xD800 <= n <= 0xDFFF then Utf8.RUNE_ERROR else n
  }

  function Numeric(num: seq<Byte>): (r: Option<int>) {
    if num == [] then None
    else if num[0] == 0x78 || num[0] == 0x58 then
      var digits := num[1..];
      if 1 <= |digits| <= 6 then
        match Number(digits, HexDigit, 16)
        case Some(n) => Some(Scalar(n))
        case None => None
      else None
    else if |num| > 7 then None
    else
      match Number(num, DecimalDigit, 10)
      case Some(n) => if n > Utf8.MAX_RUNE then None else Some(Scalar(n))
      case None => None
  }

  /** A longer number is at least as large and no more readable. */
  lemma {:induction false} NumberGrows(digits: seq<Byte>, digit: Byte -> Option<int>, base: nat, k: nat)
    requires k <= |digits| && base > 0
    requires forall c: Byte :: digit(c).Some? ==> digit(c).value >= 0
    ensures Number(digits, digit, base).Some? ==>
              Number(digits[..k], digit, base).Some?
              && 0 <= Number(digits[..k], digit, base).value <= Number(digits, digit, base).value
    decreases |digits|
  {
    if k == |digits| {
      assert digits[..k] == digits;
      if digits != [] {
        NumberGrows(digits[..k - 1], digit, base, 0);
      }
    } else {
      var front := digits[..|digits| - 1];
      assert front[..k] == digits[..k];
      NumberGrows(front, digit, base, k);
      if Number(digits, digit, base).Some? {
        var n := Number(front, digit, base).value;
        assert n * base >= n;
      }
    }
  }

  method ParseNumericEntity(num: seq<Byte>) returns (r: Option<int>)
    ensures r == Numeric(num)
  {
    if |num| == 0 {
      return None;
    }
    var val := 0;
    if num[0] == 0x78 || num[0] == 0x58 {
      var digits := num[1..];
      if |digits| == 0 || |digits| > 6 {
        return None;
      }
      for i := 0 to |digits|
        invariant Number(digits[..i], HexDigit, 16) == Some(val)
      {
        assert digits[..i + 1][..i] == digits[..i];
        var d := HexDigit(digits[i]);
        if d.None? {
          NumberGrows(digits, HexDigit, 16, i + 1);
          return None;
        }
        val := val * 16 + d.value;
      }
      assert digits[..|digits|] == digits;
    } else {
      if |num| > 7 {
        return None;
      }
      for i := 0 to |num|
        invariant Number(num[..i], DecimalDigit, 10) == Some(val) && val <= Utf8.MAX_RUNE
      {
        assert num[..i + 1][..i] == num[..i];
        var d := DecimalDigit(num[i]);
        NumberGrows(num, DecimalDigit, 10, i + 1);
        if d.None? {
          return None;
        }
        val := val * 10 + d.value;
        if val > Utf8.MAX_RUNE {
          return None;
        }
      }
      assert num[..|num|] == num;
    }
    if val > Utf8.MAX_RUNE || 0xD800 <= val <= 0xDFFF {
      return Some(Utf8.RUNE_ERROR);
    }
    return Some(val);
  }

  // ---------------------------------------------------------------- one entity

  function ParseEntity(entity: seq<Byte>): (r: Option<int>) {
    if entity == [] then None
    else if entity[0] == HASH then Numeric(entity[1..])
    else NamedSymbol(AsText(entity))
  }

  datatype Entity = Entity(rune: int, size: nat)

  /** The entity that starts at the ampersand in front, if there is one. */
  function EntityAt(src: seq<Byte>): (r: Option<Entity>)
    requires src != [] && src[0] == AMP
    ensures r.Some? ==> 2 <= r.value.size <= |src| && src[r.value.size - 1] == SEMICOLON
  {
    var semi := IndexOf(src, SEMICOLON);
    if semi < 0 || semi > MAX_ENTITY then None
    else
      match ParseEntity(src[1..semi])
      case Some(r) => Some(Entity(r, semi + 1))
      case None => None
  }

  // ---------------------------------------------------------------- the whole text

  /** Byte by byte: an entity is replaced, anything else is kept. */
  function Decoded(src: seq<Byte>): (r: seq<Byte>)
    decreases |src|
  {
    if src == [] then []
    else if src[0] != AMP then [src[0]] + Decoded(src[1..])
    else
      match EntityAt(src)
      case Some(e) => Utf8.EncodeRune(e.rune) + Decoded(src[e.size..])
      case None => [AMP] + Decoded(src[1..])
  }

  /** Text without an ampersand stays as it is. */
  lemma {:induction false} DecodedPlain(plain: seq<Byte>, rest: seq<Byte>)
    requires AMP !in plain
    ensures Decoded(plain + rest) == plain + Decoded(rest)
  {
    hide EntityAt, Utf8.EncodeRune;
    if plain == [] {
      assert plain + rest == rest;
    } else {
      assert (plain + rest)[1..] == plain[1..] + rest;
      DecodedPlain(plain[1..], rest);
    }
  }

  /** What one pass of the loop appends for the ampersand in front, and what it leaves. */
  lemma DecodedAmp(src: seq<Byte>)
    requires src != [] && src[0] == AMP
    ensures Decoded(src) ==
            match EntityAt(src)
            case Some(e) => Utf8.EncodeRune(e.rune) + Decoded(src[e.size..])
            case None => [AMP] + Decoded(src[1..])
  {
  }

  lemma DecodedEnd(src: seq<Byte>)
    requires AMP !in src
    ensures Decoded(src) == src
  {
    DecodedPlain(src, []);
    assert src + [] == src;
  }

  lemma Regroup(a: seq<Byte>, b: seq<Byte>, c: seq<Byte>)
    ensures a + (b + c) == a + b + c
  {
  }

  method AppendUnescape(dst: seq<Byte>, src: seq<Byte>) returns (r: seq<Byte>)
    ensures r == dst + Decoded(src)
  {
    hide EntityAt, Utf8.EncodeRune, Decoded, IndexOf;
    r := dst;
    var rest := src;
    while |rest| > 0
      invariant r + Decoded(rest) == dst + Decoded(src)
      decreases |rest|
    {
      var idx := IndexOf(rest, AMP);
      if idx < 0 {
        DecodedEnd(rest);
        return r + rest;
      }
      assert rest == rest[..idx] + rest[idx..];
      DecodedPlain(rest[..idx], rest[idx..]);
      Regroup(r, rest[..idx], Decoded(rest[idx..]));
      r := r + rest[..idx];
      rest := rest[idx..];
      DecodedAmp(rest);
      var e := NextEntity(rest);
      if e.Some? {
        Regroup(r, Utf8.EncodeRune(e.value.rune), Decoded(rest[e.value.size..]));
        r := r + Utf8.EncodeRune(e.value.rune);
        rest := rest[e.value.size..];
      } else {
        Regroup(r, [AMP], Decoded(rest[1..]));
        r := r + [AMP];
        rest := rest[1..];
      }
    }
    DecodedEnd(rest);
  }

  /** The part of the loop that looks for a semicolon and reads what is before it. */
  method NextEntity(src: seq<Byte>) returns (e: Option<Entity>)
    requires src != [] && src[0] == AMP
    ensures e == EntityAt(src)
  {
    var semi := IndexOf(src, SEMICOLON);
    if semi == -1 || semi > MAX_ENTITY {
      return None;
    }
    var entity := src[1..semi];
    var rune: Option<int> := None;
    if |entity| > 0 {
      if entity[0] == HASH {
        rune := ParseNumericEntity(entity[1..]);
      } else {
        rune := NamedSymbol(AsText(entity));
      }
    }
    return if rune.Some? then Some(Entity(rune.value, semi + 1)) else None;
  }

  /** The shortcut for text without an ampersand gives the same. */
  method Unescape(src: seq<Byte>) returns (r: seq<Byte>)
    ensures r == Decoded(src)
  {
    if IndexOf(src, AMP) == -1 {
      DecodedEnd(src);
      return src;
    }
    r := AppendUnescape([], src);
    assert [] + Decoded(src) == Decoded(src);
  }

  // ---------------------------------------------------------------- theorems

  lemma {:induction false} NumberBound(digits: seq<Byte>)
    ensures Number(digits, DecimalDigit, 10).Some? && |digits| == 1 ==>
              0 <= Number(digits, DecimalDigit, 10).value < 10
    ensures Number(digits, HexDigit, 16).Some? ==> Number(digits, HexDigit, 16).value >= 0
    ensures Number(digits, DecimalDigit, 10).Some? ==> Number(digits, DecimalDigit, 10).value >= 0
  {
    NumberGrows(digits, HexDigit, 16, 0);
    NumberGrows(digits, DecimalDigit, 10, 0);
    if |digits| == 1 {
      assert digits[..0] == [];
    }
  }

  /** What an entity stands for is always shorter than the entity. */
  lemma EntityShrinks(src: seq<Byte>)
    requires src != [] && src[0] == AMP && EntityAt(src).Some?
    ensures |Utf8.EncodeRune(EntityAt(src).value.rune)| < EntityAt(src).value.size
    ensures Utf8.IsScalar(EntityAt(src).value.rune)
    ensures Utf8.Rune(Utf8.EncodeRune(EntityAt(src).value.rune)) == EntityAt(src).value.rune
  {
    hide NamedSymbol, NamedLetterlike, NamedOperator, NamedRelation, Number, IndexOf;
    var semi := IndexOf(src, SEMICOLON);
    var entity := src[1..semi];
    if entity[0] == HASH {
      var num := entity[1..];
      NumberBound(num);
      NumberBound(num[1..]);
    }
    Utf8.RuneRoundTrip(EntityAt(src).value.rune);
  }

  predicate HasEntity(src: seq<Byte>) {
    exists i :: 0 <= i < |src| && EntityHere(src, i)
  }

  predicate EntityHere(src: seq<Byte>, i: nat)
    requires i < |src|
  {
    src[i] == AMP && EntityAt(src[i..]).Some?
  }

  /** Decoding never lengthens the text, and it keeps the length exactly when nothing is decoded, in which case it
      keeps the text. */
  lemma {:induction false} DecodedLength(src: seq<Byte>)
    ensures |Decoded(src)| <= |src|
    ensures |Decoded(src)| == |src| <==> Decoded(src) == src
    ensures |Decoded(src)| < |src| <==> HasEntity(src)
    decreases |src|
  {
    hide EntityAt, Utf8.EncodeRune;
    if src != [] {
      HasEntitySplit(src);
      if EntityHere(src, 0) {
        assert src[0..] == src;
        EntityShrinks(src);
        DecodedLength(src[EntityAt(src).value.size..]);
      } else {
        assert src[0..] == src;
        assert src == [src[0]] + src[1..];
        DecodedLength(src[1..]);
      }
    }
  }

  lemma HasEntitySplit(src: seq<Byte>)
    requires src != []
    ensures HasEntity(src) <==> EntityHere(src, 0) || HasEntity(src[1..])
  {
    hide EntityAt;
    forall i | 0 < i < |src|
      ensures EntityHere(src, i) <==> EntityHere(src[1..], i - 1)
    {
      assert src[i..] == src[1..][i - 1..];
    }
    if HasEntity(src[1..]) {
      var j :| 0 <= j < |src[1..]| && EntityHere(src[1..], j);
      assert EntityHere(src, j + 1);
    }
  }

  /** Well-formed text stays well-formed. */
  lemma {:induction false} DecodedValid(src: seq<Byte>)
    requires Utf8.Valid(src)
    ensures Utf8.Valid(Decoded(src))
    decreases |src|
  {
    hide EntityAt, Utf8.EncodeRune, Decoded, Utf8.Lead;
    if src == [] {
      DecodedEnd(src);
    } else {
      if src[0] != AMP {
        PlainValid(src);
        var n := Utf8.Lead(src);
        DecodedValid(src[n..]);
        DecodedPlain(src[..n], src[n..]);
        assert src == src[..n] + src[n..];
        Utf8.ValidConcat(src[..n], Decoded(src[n..]));
      } else if EntityAt(src).Some? {
        DecodedAmp(src);
        var e := EntityAt(src).value;
        AfterEntityValid(src);
        DecodedValid(src[e.size..]);
        Utf8.EncodeRuneValid(e.rune);
        Utf8.ValidConcat(Utf8.EncodeRune(e.rune), Decoded(src[e.size..]));
      } else {
        DecodedAmp(src);
        AmpValid();
        assert src == [AMP] + src[1..];
        Utf8.ValidConcat([AMP], src[1..]);
        DecodedValid(src[1..]);
        Utf8.ValidConcat([AMP], Decoded(src[1..]));
      }
    }
  }

  lemma AmpValid()
    ensures Utf8.Valid([AMP]) && Utf8.Valid([SEMICOLON])
  {
    assert [AMP][1..] == [] && [SEMICOLON][1..] == [];
  }

  /** A character that does not start with an ampersand holds none. */
  lemma PlainValid(src: seq<Byte>)
    requires Utf8.Valid(src) && src != [] && src[0] != AMP
    ensures var n := Utf8.Lead(src); n > 0 && Utf8.Valid(src[..n]) && AMP !in src[..n]
  {
    var n := Utf8.Lead(src);
    Utf8.LeadPrefix(src, n);
    assert src[..n][n..] == [];
    forall i | 0 < i < n
      ensures src[i] != AMP
    {
      Utf8.LeadContinues(src, i);
    }
  }

  lemma AfterEntityValid(src: seq<Byte>)
    requires Utf8.Valid(src) && src != [] && src[0] == AMP && EntityAt(src).Some?
    ensures Utf8.Valid(src[EntityAt(src).value.size..])
  {
    hide EntityAt, Utf8.Valid, Utf8.Lead;
    var k := EntityAt(src).value.size;
    assert src == src[..k - 1] + src[k - 1..];
    Utf8.ValidSplit(src[..k - 1], src[k - 1..]);
    AmpValid();
    assert src[k - 1..] == [SEMICOLON] + src[k..];
    Utf8.ValidConcat([SEMICOLON], src[k..]);
  }
}
