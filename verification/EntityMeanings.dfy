/** What every entity stands for: the names and their code points as data, numbers in both bases, and a writer that the
    decoder inverts (extract/unescape.go). */
module EntityMeanings {
  import opened Text
  import opened Bytes
  import opened Unescaping
  import Utf8

  // ---------------------------------------------------------------- the names

  /** Markup characters, typography and common symbols. */
  predicate Symbol(name: string, code: int) {
    || (name == "quot" && code == 0x22) || (name == "amp" && code == 0x26) || (name == "apos" && code == 0x27)
    || (name == "lt" && code == 0x3c) || (name == "gt" && code == 0x3e) || (name == "nbsp" && code == 0x00A0)
    || (name == "copy" && code == 0x00A9) || (name == "reg" && code == 0x00AE)
    || (name == "trade" && code == 0x2122) || (name == "euro" && code == 0x20AC)
    || (name == "cent" && code == 0x00A2) || (name == "pound" && code == 0x00A3)
    || (name == "yen" && code == 0x00A5) || (name == "sect" && code == 0x00A7) || (name == "deg" && code == 0x00B0)
    || (name == "plusmn" && code == 0x00B1) || (name == "para" && code == 0x00B6)
    || (name == "middot" && code == 0x00B7) || (name == "times" && code == 0x00D7)
    || (name == "divide" && code == 0x00F7) || (name == "hellip" && code == 0x2026)
    || (name == "ndash" && code == 0x2013) || (name == "mdash" && code == 0x2014)
    || (name == "lsquo" && code == 0x2018) || (name == "rsquo" && code == 0x2019)
    || (name == "sbquo" && code == 0x201A) || (name == "ldquo" && code == 0x201C)
    || (name == "rdquo" && code == 0x201D) || (name == "bdquo" && code == 0x201E)
    || (name == "dagger" && code == 0x2020)
  }

  /** Marks, letter-like symbols and arrows. */
  predicate Letterlike(name: string, code: int) {
    || (name == "Dagger" && code == 0x2021) || (name == "permil" && code == 0x2030)
    || (name == "lsaquo" && code == 0x2039) || (name == "rsaquo" && code == 0x203A)
    || (name == "bull" && code == 0x2022) || (name == "prime" && code == 0x2032)
    || (name == "Prime" && code == 0x2033) || (name == "oline" && code == 0x203E)
    || (name == "frasl" && code == 0x2044) || (name == "weierp" && code == 0x2118)
    || (name == "image" && code == 0x2111) || (name == "real" && code == 0x211C)
    || (name == "alefsym" && code == 0x2135) || (name == "larr" && code == 0x2190)
    || (name == "uarr" && code == 0x2191) || (name == "rarr" && code == 0x2192)
    || (name == "darr" && code == 0x2193) || (name == "harr" && code == 0x2194)
    || (name == "crarr" && code == 0x21B5) || (name == "lArr" && code == 0x21D0)
    || (name == "uArr" && code == 0x21D1) || (name == "rArr" && code == 0x21D2)
    || (name == "dArr" && code == 0x21D3) || (name == "hArr" && code == 0x21D4)
  }

  /** Quantifiers, sets and operators. */
  predicate Operator(name: string, code: int) {
    || (name == "forall" && code == 0x2200) || (name == "part" && code == 0x2202)
    || (name == "exist" && code == 0x2203) || (name == "empty" && code == 0x2205)
    || (name == "nabla" && code == 0x2207) || (name == "isin" && code == 0x2208)
    || (name == "notin" && code == 0x2209) || (name == "ni" && code == 0x220B) || (name == "prod" && code == 0x220F)
    || (name == "sum" && code == 0x2211) || (name == "minus" && code == 0x2212)
    || (name == "lowast" && code == 0x2217) || (name == "radic" && code == 0x221A)
    || (name == "prop" && code == 0x221D) || (name == "infin" && code == 0x221E)
    || (name == "ang" && code == 0x2220) || (name == "and" && code == 0x2227) || (name == "or" && code == 0x2228)
    || (name == "cap" && code == 0x2229) || (name == "cup" && code == 0x222A) || (name == "int" && code == 0x222B)
  }

  /** Relations, brackets and suits. */
  predicate Relation(name: string, code: int) {
    || (name == "there4" && code == 0x2234) || (name == "sim" && code == 0x223C)
    || (name == "cong" && code == 0x2245) || (name == "asymp" && code == 0x2248) || (name == "ne" && code == 0x2260)
    || (name == "equiv" && code == 0x2261) || (name == "le" && code == 0x2264) || (name == "ge" && code == 0x2265)
    || (name == "sub" && code == 0x2282) || (name == "sup" && code == 0x2283) || (name == "nsub" && code == 0x2284)
    || (name == "sube" && code == 0x2286) || (name == "supe" && code == 0x2287)
    || (name == "oplus" && code == 0x2295) || (name == "otimes" && code == 0x2297)
    || (name == "perp" && code == 0x22A5) || (name == "sdot" && code == 0x22C5)
    || (name == "lceil" && code == 0x2308) || (name == "rceil" && code == 0x2309)
    || (name == "lfloor" && code == 0x230A) || (name == "rfloor" && code == 0x230B)
    || (name == "lang" && code == 0x2329) || (name == "rang" && code == 0x232A) || (name == "loz" && code == 0x25CA)
    || (name == "spades" && code == 0x2660) || (name == "clubs" && code == 0x2663)
    || (name == "hearts" && code == 0x2665) || (name == "diams" && code == 0x2666)
  }

  predicate Named(name: string, code: int) {
    Symbol(name, code) || Letterlike(name, code) || Operator(name, code) || Relation(name, code)
  }

  // The names differ in their first four letters.

  function Letter(name: string, i: nat): (r: nat) {
    if i < |name| then name[i] as int else 0
  }

  function Key(name: string): (r: nat) {
    Letter(name, 0) + 0x100 * (Letter(name, 1) + 0x100 * (Letter(name, 2) + 0x100 * Letter(name, 3)))
  }

  lemma SymbolKeys0()
    ensures Key("quot") == 0x746f7571 && Key("amp") == 0x706d61 && Key("apos") == 0x736f7061
    ensures Key("lt") == 0x746c && Key("gt") == 0x7467 && Key("nbsp") == 0x7073626e
    ensures Key("copy") == 0x79706f63 && Key("reg") == 0x676572 && Key("trade") == 0x64617274
    ensures Key("euro") == 0x6f727565 && Key("cent") == 0x746e6563 && Key("pound") == 0x6e756f70
    ensures Key("yen") == 0x6e6579 && Key("sect") == 0x74636573 && Key("deg") == 0x676564
    ensures Key("plusmn") == 0x73756c70
  {
  }

  lemma SymbolKeys1()
    ensures Key("para") == 0x61726170 && Key("middot") == 0x6464696d && Key("times") == 0x656d6974
    ensures Key("divide") == 0x69766964 && Key("hellip") == 0x6c6c6568 && Key("ndash") == 0x7361646e
    ensures Key("mdash") == 0x7361646d && Key("lsquo") == 0x7571736c && Key("rsquo") == 0x75717372
    ensures Key("sbquo") == 0x75716273 && Key("ldquo") == 0x7571646c && Key("rdquo") == 0x75716472
    ensures Key("bdquo") == 0x75716462 && Key("dagger") == 0x67676164
  {
  }

  lemma LetterlikeKeys0()
    ensures Key("Dagger") == 0x67676144 && Key("permil") == 0x6d726570 && Key("lsaquo") == 0x7161736c
    ensures Key("rsaquo") == 0x71617372 && Key("bull") == 0x6c6c7562 && Key("prime") == 0x6d697270
    ensures Key("Prime") == 0x6d697250 && Key("oline") == 0x6e696c6f && Key("frasl") == 0x73617266
    ensures Key("weierp") == 0x65696577 && Key("image") == 0x67616d69 && Key("real") == 0x6c616572
    ensures Key("alefsym") == 0x66656c61 && Key("larr") == 0x7272616c && Key("uarr") == 0x72726175
    ensures Key("rarr") == 0x72726172
  {
  }

  lemma LetterlikeKeys1()
    ensures Key("darr") == 0x72726164 && Key("harr") == 0x72726168 && Key("crarr") == 0x72617263
    ensures Key("lArr") == 0x7272416c && Key("uArr") == 0x72724175 && Key("rArr") == 0x72724172
    ensures Key("dArr") == 0x72724164 && Key("hArr") == 0x72724168
  {
  }

  lemma OperatorKeys0()
    ensures Key("forall") == 0x61726f66 && Key("part") == 0x74726170 && Key("exist") == 0x73697865
    ensures Key("empty") == 0x74706d65 && Key("nabla") == 0x6c62616e && Key("isin") == 0x6e697369
    ensures Key("notin") == 0x69746f6e && Key("ni") == 0x696e && Key("prod") == 0x646f7270
    ensures Key("sum") == 0x6d7573 && Key("minus") == 0x756e696d && Key("lowast") == 0x61776f6c
    ensures Key("radic") == 0x69646172 && Key("prop") == 0x706f7270 && Key("infin") == 0x69666e69
    ensures Key("ang") == 0x676e61
  {
  }

  lemma OperatorKeys1()
    ensures Key("and") == 0x646e61 && Key("or") == 0x726f && Key("cap") == 0x706163
    ensures Key("cup") == 0x707563 && Key("int") == 0x746e69
  {
  }

  lemma RelationKeys0()
    ensures Key("there4") == 0x72656874 && Key("sim") == 0x6d6973 && Key("cong") == 0x676e6f63
    ensures Key("asymp") == 0x6d797361 && Key("ne") == 0x656e && Key("equiv") == 0x69757165
    ensures Key("le") == 0x656c && Key("ge") == 0x6567 && Key("sub") == 0x627573
    ensures Key("sup") == 0x707573 && Key("nsub") == 0x6275736e && Key("sube") == 0x65627573
    ensures Key("supe") == 0x65707573 && Key("oplus") == 0x756c706f && Key("otimes") == 0x6d69746f
    ensures Key("perp") == 0x70726570
  {
  }

  lemma RelationKeys1()
    ensures Key("sdot") == 0x746f6473 && Key("lceil") == 0x6965636c && Key("rceil") == 0x69656372
    ensures Key("lfloor") == 0x6f6c666c && Key("rfloor") == 0x6f6c6672 && Key("lang") == 0x676e616c
    ensures Key("rang") == 0x676e6172 && Key("loz") == 0x7a6f6c && Key("spades") == 0x64617073
    ensures Key("clubs") == 0x62756c63 && Key("hearts") == 0x72616568 && Key("diams") == 0x6d616964
  {
  }

  lemma SymbolOnce(name: string, code: int, other: int)
    requires Symbol(name, code) && Symbol(name, other)
    ensures code == other
  {
    hide Key;
    SymbolKeys0(); SymbolKeys1();
  }

  lemma SymbolFound(name: string, code: int)
    requires Symbol(name, code)
    ensures NamedSymbol(name) == Some(code)
  {
    SymbolHit(name, code);
    hide Symbol, NamedSymbol;
    SymbolOnce(name, code, NamedSymbol(name).value);
  }

  lemma SymbolHit(name: string, code: int)
    requires Symbol(name, code)
    ensures NamedSymbol(name).Some? && Symbol(name, NamedSymbol(name).value)
  {
    hide NamedLetterlike;
  }

  lemma SymbolOnly(name: string)
    ensures NamedSymbol(name) == NamedLetterlike(name)
            || (NamedSymbol(name).Some? && Symbol(name, NamedSymbol(name).value))
  {
    hide NamedLetterlike;
  }

  lemma LetterlikeNotSymbol(name: string, code: int, other: int)
    requires Letterlike(name, code)
    ensures !Symbol(name, other)
  {
    hide Key;
    SymbolKeys0(); SymbolKeys1();
    LetterlikeKeys0(); LetterlikeKeys1();
  }

  lemma LetterlikeOnce(name: string, code: int, other: int)
    requires Letterlike(name, code) && Letterlike(name, other)
    ensures code == other
  {
    hide Key;
    LetterlikeKeys0(); LetterlikeKeys1();
  }

  lemma LetterlikeFound(name: string, code: int)
    requires Letterlike(name, code)
    ensures NamedLetterlike(name) == Some(code)
  {
    LetterlikeHit(name, code);
    hide Letterlike, NamedLetterlike;
    LetterlikeOnce(name, code, NamedLetterlike(name).value);
  }

  lemma LetterlikeHit(name: string, code: int)
    requires Letterlike(name, code)
    ensures NamedLetterlike(name).Some? && Letterlike(name, NamedLetterlike(name).value)
  {
    hide NamedOperator;
  }

  lemma LetterlikeOnly(name: string)
    ensures NamedLetterlike(name) == NamedOperator(name)
            || (NamedLetterlike(name).Some? && Letterlike(name, NamedLetterlike(name).value))
  {
    hide NamedOperator;
  }

  lemma OperatorNotSymbol(name: string, code: int, other: int)
    requires Operator(name, code)
    ensures !Symbol(name, other)
  {
    hide Key;
    SymbolKeys0(); SymbolKeys1();
    OperatorKeys0(); OperatorKeys1();
  }

  lemma OperatorNotLetterlike(name: string, code: int, other: int)
    requires Operator(name, code)
    ensures !Letterlike(name, other)
  {
    hide Key;
    LetterlikeKeys0(); LetterlikeKeys1();
    OperatorKeys0(); OperatorKeys1();
  }

  lemma OperatorOnce(name: string, code: int, other: int)
    requires Operator(name, code) && Operator(name, other)
    ensures code == other
  {
    hide Key;
    OperatorKeys0(); OperatorKeys1();
  }

  lemma OperatorFound(name: string, code: int)
    requires Operator(name, code)
    ensures NamedOperator(name) == Some(code)
  {
    OperatorHit(name, code);
    hide Operator, NamedOperator;
    OperatorOnce(name, code, NamedOperator(name).value);
  }

  lemma OperatorHit(name: string, code: int)
    requires Operator(name, code)
    ensures NamedOperator(name).Some? && Operator(name, NamedOperator(name).value)
  {
    hide NamedRelation;
  }

  lemma OperatorOnly(name: string)
    ensures NamedOperator(name) == NamedRelation(name)
            || (NamedOperator(name).Some? && Operator(name, NamedOperator(name).value))
  {
    hide NamedRelation;
  }

  lemma RelationNotSymbol(name: string, code: int, other: int)
    requires Relation(name, code)
    ensures !Symbol(name, other)
  {
    hide Key;
    SymbolKeys0(); SymbolKeys1();
    RelationKeys0(); RelationKeys1();
  }

  lemma RelationNotLetterlike(name: string, code: int, other: int)
    requires Relation(name, code)
    ensures !Letterlike(name, other)
  {
    hide Key;
    LetterlikeKeys0(); LetterlikeKeys1();
    RelationKeys0(); RelationKeys1();
  }

  lemma RelationNotOperator(name: string, code: int, other: int)
    requires Relation(name, code)
    ensures !Operator(name, other)
  {
    hide Key;
    OperatorKeys0(); OperatorKeys1();
    RelationKeys0(); RelationKeys1();
  }

  lemma RelationOnce(name: string, code: int, other: int)
    requires Relation(name, code) && Relation(name, other)
    ensures code == other
  {
    hide Key;
    RelationKeys0(); RelationKeys1();
  }

  lemma RelationFound(name: string, code: int)
    requires Relation(name, code)
    ensures NamedRelation(name) == Some(code)
  {
    RelationHit(name, code);
    hide Relation, NamedRelation;
    RelationOnce(name, code, NamedRelation(name).value);
  }

  lemma RelationHit(name: string, code: int)
    requires Relation(name, code)
    ensures NamedRelation(name).Some? && Relation(name, NamedRelation(name).value)
  {
  }

  lemma RelationOnly(name: string)
    requires NamedRelation(name).Some?
    ensures Relation(name, NamedRelation(name).value)
  {
  }

  /** The names are exactly those of the tables, each with its code point. */
  lemma NamedExactly(name: string, code: int)
    ensures NamedSymbol(name) == Some(code) <==> Named(name, code)
  {
    hide Symbol, Letterlike, Operator, Relation, NamedSymbol, NamedLetterlike, NamedOperator, NamedRelation;
    SymbolOnly(name);
    LetterlikeOnly(name);
    OperatorOnly(name);
    if Symbol(name, code) {
      SymbolFound(name, code);
    } else if Letterlike(name, code) {
      NotSymbol(name, code);
      LetterlikeFound(name, code);
    } else if Operator(name, code) {
      NotSymbol(name, code);
      NotLetterlike(name, code);
      OperatorFound(name, code);
    } else if Relation(name, code) {
      NotSymbol(name, code);
      NotLetterlike(name, code);
      forall other ensures !Operator(name, other) { RelationNotOperator(name, code, other); }
      RelationFound(name, code);
    } else if NamedSymbol(name) == Some(code) {
      RelationOnly(name);
    }
  }

  lemma NotSymbol(name: string, code: int)
    requires Letterlike(name, code) || Operator(name, code) || Relation(name, code)
    ensures forall other :: !Symbol(name, other)
  {
    hide Symbol, Letterlike, Operator, Relation;
    forall other
      ensures !Symbol(name, other)
    {
      if Letterlike(name, code) {
        LetterlikeNotSymbol(name, code, other);
      } else if Operator(name, code) {
        OperatorNotSymbol(name, code, other);
      } else {
        RelationNotSymbol(name, code, other);
      }
    }
  }

  lemma NotLetterlike(name: string, code: int)
    requires Operator(name, code) || Relation(name, code)
    ensures forall other :: !Letterlike(name, other)
  {
    hide Letterlike, Operator, Relation;
    forall other
      ensures !Letterlike(name, other)
    {
      if Operator(name, code) {
        OperatorNotLetterlike(name, code, other);
      } else {
        RelationNotLetterlike(name, code, other);
      }
    }
  }

  /** Letters and digits only, short enough for the decoder. */
  predicate Word(name: string) {
    0 < |name| <= 11 && forall i :: 0 <= i < |name| ==> Plain(name[i])
  }

  predicate Plain(c: char) {
    '0' <= c <= '9' || 'A' <= c <= 'Z' || 'a' <= c <= 'z'
  }

  lemma SymbolWords(name: string, code: int)
    requires Symbol(name, code)
    ensures Word(name)
  {
  }

  lemma LetterlikeWords(name: string, code: int)
    requires Letterlike(name, code)
    ensures Word(name)
  {
  }

  lemma OperatorWords(name: string, code: int)
    requires Operator(name, code)
    ensures Word(name)
  {
  }

  lemma RelationWords(name: string, code: int)
    requires Relation(name, code)
    ensures Word(name)
  {
  }

  lemma NamesAreWords(name: string, code: int)
    requires Named(name, code)
    ensures Word(name)
  {
    hide Symbol, Letterlike, Operator, Relation, Word;
    if Symbol(name, code) {
      SymbolWords(name, code);
    } else if Letterlike(name, code) {
      LetterlikeWords(name, code);
    } else if Operator(name, code) {
      OperatorWords(name, code);
    } else {
      RelationWords(name, code);
    }
  }

  function AsBytes(name: string): (r: seq<Byte>)
    requires Word(name)
    ensures |r| == |name| && SEMICOLON !in r && r[0] != HASH && AsText(r) == name
  {
    seq(|name|, i requires 0 <= i < |name| => name[i] as int)
  }

  // ---------------------------------------------------------------- one entity in a text

  /** A body between the ampersand and the next semicolon that stands for a code point is replaced by its bytes. */
  lemma EntityDecodes(body: seq<Byte>, code: int, rest: seq<Byte>)
    requires SEMICOLON !in body && |body| <= 11 && ParseEntity(body) == Some(code)
    ensures Decoded([AMP] + body + [SEMICOLON] + rest) == Utf8.EncodeRune(code) + Decoded(rest)
  {
    hide ParseEntity, Utf8.EncodeRune;
    var src := [AMP] + body + [SEMICOLON] + rest;
    assert src[0] == AMP && src[1 + |body|] == SEMICOLON;
    assert IndexOf(src, SEMICOLON) == 1 + |body|;
    assert src[1..1 + |body|] == body;
    assert src[2 + |body|..] == rest;
  }

  /** An ampersand starts an entity exactly if a semicolon follows within twelve bytes and what lies between stands for
      a code point; otherwise it is kept. */
  lemma EntityAtIff(src: seq<Byte>)
    requires src != [] && src[0] == AMP
    ensures EntityAt(src).Some? <==> exists semi :: EntityEnds(src, semi)
    ensures EntityAt(src).None? ==> Decoded(src) == [AMP] + Decoded(src[1..])
  {
    DecodedAmp(src);
    hide ParseEntity, Utf8.EncodeRune, Decoded, IndexOf, EntityEnds;
    var found := IndexOf(src, SEMICOLON);
    if EntityAt(src).Some? {
      EndsAtFirst(src, found);
    }
    if semi :| EntityEnds(src, semi) {
      EndsAtFirst(src, semi);
    }
  }

  /** It ends at the first semicolon. */
  lemma EndsAtFirst(src: seq<Byte>, semi: int)
    requires src != [] && src[0] == AMP
    ensures EntityEnds(src, semi) <==>
              semi == IndexOf(src, SEMICOLON) && 0 < semi <= 12 && ParseEntity(src[1..semi]).Some?
  {
    hide ParseEntity, IndexOf;
    if 0 < semi < |src| {
      assert src[..semi] == [AMP] + src[1..semi];
      if src[semi] == SEMICOLON && SEMICOLON !in src[..semi] {
        IndexOfAt(src, SEMICOLON, semi);
      }
    }
  }

  predicate EntityEnds(src: seq<Byte>, semi: int) {
    && 0 < semi <= 12 && semi < |src| && src[semi] == SEMICOLON && SEMICOLON !in src[1..semi]
    && ParseEntity(src[1..semi]).Some?
  }

  /** Every name of the tables, between an ampersand and a semicolon, decodes to its code point. */
  lemma NamedEntityDecodes(name: string, code: int, rest: seq<Byte>)
    requires Named(name, code)
    ensures Word(name)
    ensures Decoded([AMP] + AsBytes(name) + [SEMICOLON] + rest) == Utf8.EncodeRune(code) + Decoded(rest)
  {
    hide Named, Word, NamedSymbol, Decoded, Utf8.EncodeRune;
    NamesAreWords(name, code);
    NamedExactly(name, code);
    WordLength(name);
    EntityDecodes(AsBytes(name), code, rest);
  }

  lemma WordLength(name: string)
    requires Word(name)
    ensures 0 < |name| <= 11
  {
  }

  // ---------------------------------------------------------------- numbers

  /** The decimal digits of a number. */
  function DecimalText(n: nat): (r: seq<Byte>)
    ensures r != [] && forall i :: 0 <= i < |r| ==> 0x30 <= r[i] <= 0x39
  {
    if n < 10 then [0x30 + n] else DecimalText(n / 10) + [0x30 + n % 10]
  }

  /** A hexadecimal digit, in upper or lower case. */
  function HexGlyph(d: nat, upper: bool): (c: Byte)
    requires d < 16
    ensures HexDigit(c) == Some(d) && c != SEMICOLON
  {
    if d < 10 then 0x30 + d else (if upper then 0x41 else 0x61) + d - 10
  }

  /** The hexadecimal digits of a number. */
  function HexText(n: nat, upper: bool): (r: seq<Byte>)
    ensures r != [] && SEMICOLON !in r
  {
    if n < 16 then [HexGlyph(n, upper)] else HexText(n / 16, upper) + [HexGlyph(n % 16, upper)]
  }

  function Power(base: nat, k: nat): (r: nat) {
    if k == 0 then 1 else base * Power(base, k - 1)
  }

  /** Reading the digits of a number gives the number, and a small number has few digits. */
  lemma {:induction false} DecimalReads(n: nat, k: nat)
    requires n < Power(10, k)
    ensures Number(DecimalText(n), DecimalDigit, 10) == Some(n) && (k > 0 ==> |DecimalText(n)| <= k)
  {
    var digits := DecimalText(n);
    if n < 10 {
      assert digits[..0] == [];
    } else {
      DecimalReads(n / 10, k - 1);
      assert digits[..|digits| - 1] == DecimalText(n / 10);
    }
  }

  lemma {:induction false} HexReads(n: nat, upper: bool, k: nat)
    requires n < Power(16, k)
    ensures Number(HexText(n, upper), HexDigit, 16) == Some(n) && (k > 0 ==> |HexText(n, upper)| <= k)
  {
    hide HexGlyph, HexDigit;
    var digits := HexText(n, upper);
    if n < 16 {
      assert digits[..0] == [];
    } else {
      HexReads(n / 16, upper, k - 1);
      assert digits[..|digits| - 1] == HexText(n / 16, upper);
    }
  }

  /** `&#` and the decimal digits of a scalar value decode to it. */
  lemma DecimalEntityDecodes(n: nat, rest: seq<Byte>)
    requires Utf8.IsScalar(n)
    ensures Decoded([AMP] + ([HASH] + DecimalText(n)) + [SEMICOLON] + rest) == Utf8.EncodeRune(n) + Decoded(rest)
  {
    var digits := DecimalText(n);
    assert Power(10, 7) == 10_000_000;
    DecimalReads(n, 7);
    hide Decoded, Utf8.EncodeRune, DecimalText, Number, Power;
    assert ([HASH] + digits)[1..] == digits;
    EntityDecodes([HASH] + digits, n, rest);
  }

  lemma HexBody(n: nat, x: Byte, digits: seq<Byte>, rest: seq<Byte>)
    requires Utf8.IsScalar(n) && (x == 0x78 || x == 0x58)
    requires 1 <= |digits| <= 6 && SEMICOLON !in digits && Number(digits, HexDigit, 16) == Some(n)
    ensures Decoded([AMP] + ([HASH, x] + digits) + [SEMICOLON] + rest) == Utf8.EncodeRune(n) + Decoded(rest)
  {
    hide Decoded, Utf8.EncodeRune, Number;
    assert ([HASH, x] + digits)[1..] == [x] + digits;
    assert ([x] + digits)[1..] == digits;
    EntityDecodes([HASH, x] + digits, n, rest);
  }

  /** `&#x` or `&#X` and the hexadecimal digits of a scalar value, in either letter case, decode to it. */
  lemma HexEntityDecodes(n: nat, x: Byte, upper: bool, rest: seq<Byte>)
    requires Utf8.IsScalar(n) && (x == 0x78 || x == 0x58)
    ensures Decoded([AMP] + ([HASH, x] + HexText(n, upper)) + [SEMICOLON] + rest) ==
            Utf8.EncodeRune(n) + Decoded(rest)
  {
    assert Power(16, 6) == 0x100_0000;
    HexReads(n, upper, 6);
    hide Decoded, Utf8.EncodeRune, HexText, Number, Power;
    HexBody(n, x, HexText(n, upper), rest);
  }

  // ---------------------------------------------------------------- a writer

  /** The name for a markup byte. */
  function MarkupName(b: Byte): (r: Option<string>)
    ensures r.Some? ==> Named(r.value, b)
  {
    match b
    case 0x26 => Some("amp")
    case 0x3C => Some("lt")
    case 0x3E => Some("gt")
    case 0x22 => Some("quot")
    case 0x27 => Some("apos")
    case _ => None
  }

  /** Markup bytes are replaced by their entities, other bytes are kept. */
  function Escaped(s: seq<Byte>): (r: seq<Byte>)
  {
    if s == [] then []
    else
      match MarkupName(s[0])
      case Some(name) => NamesAreWords(name, s[0]); [AMP] + AsBytes(name) + [SEMICOLON] + Escaped(s[1..])
      case None => [s[0]] + Escaped(s[1..])
  }

  /** Decoding gives back what was escaped, whatever the bytes. */
  lemma {:induction false} EscapedInverse(s: seq<Byte>)
    ensures Decoded(Escaped(s)) == s
  {
    if s != [] {
      hide Decoded, Named, Word;
      EscapedInverse(s[1..]);
      assert s == [s[0]] + s[1..];
      match MarkupName(s[0])
      case Some(name) => NamedEntityDecodes(name, s[0], Escaped(s[1..]));
      case None => DecodedPlain([s[0]], Escaped(s[1..]));
    } else {
      DecodedEnd([]);
    }
  }

  /** The escaped text holds no markup byte but the ampersands of its entities. */
  lemma {:induction false} EscapedPlain(s: seq<Byte>)
    ensures 0x3C !in Escaped(s) && 0x3E !in Escaped(s) && 0x22 !in Escaped(s) && 0x27 !in Escaped(s)
  {
    if s != [] {
      EscapedPlain(s[1..]);
      match MarkupName(s[0])
      case Some(name) =>
        hide Named;
        NamesAreWords(name, s[0]);
      case None =>
    }
  }
}
