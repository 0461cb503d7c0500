/** The string operations of Go's `strings` and `strconv` packages that the repository's hand-written
    printers and parsers are built from, with the laws the round-trip proofs need. */
module Text {

  datatype Option<+T> = None | Some(value: T)

  datatype Result<+T, +E> = Ok(value: T) | Err(error: E)

  /** Applies `f` to every element, stopping at the first error. */
  function Collect<A, B, E>(f: A -> Result<B, E>, xs: seq<A>): (r: Result<seq<B>, E>) {
    if xs == [] then Ok([])
    else
      match f(xs[0])
      case Err(e) => Err(e)
      case Ok(y) =>
        match Collect(f, xs[1..])
        case Err(e) => Err(e)
        case Ok(ys) => Ok([y] + ys)
  }

  lemma {:induction false} CollectAll<A, B, E>(f: A -> Result<B, E>, xs: seq<A>, ys: seq<B>)
    requires |xs| == |ys| && forall i :: 0 <= i < |xs| ==> f(xs[i]) == Ok(ys[i])
    ensures Collect(f, xs) == Ok(ys)
  {
    if xs != [] {
      CollectAll(f, xs[1..], ys[1..]);
      assert ys == [ys[0]] + ys[1..];
    }
  }

  lemma CollectTwo<A, B, E>(f: A -> Result<B, E>, a: A, b: A, y: B, z: B)
    requires f(a) == Ok(y) && f(b) == Ok(z)
    ensures Collect(f, [a, b]) == Ok([y, z])
  {
    var xs := [a, b];
    assert xs[1..][1..] == [];
    assert Collect(f, xs[1..][1..]) == Ok([]);
    assert xs[1..][0] == b;
    assert Collect(f, xs[1..]) == Ok([z] + []);
    assert [z] + [] == [z] && [y] + [z] == [y, z];
  }

  lemma {:induction false} CollectConcat<A, B, E>(f: A -> Result<B, E>, a: seq<A>, b: seq<A>)
    ensures Collect(f, a + b) ==
            if Collect(f, a).Err? then Collect(f, a)
            else if Collect(f, b).Err? then Collect(f, b)
            else Ok(Collect(f, a).value + Collect(f, b).value)
  {
    if a == [] {
      assert a + b == b;
      assert Collect(f, b).Ok? ==> [] + Collect(f, b).value == Collect(f, b).value;
    } else {
      assert (a + b)[1..] == a[1..] + b;
      CollectConcat(f, a[1..], b);
      if f(a[0]).Ok? && Collect(f, a[1..]).Ok? && Collect(f, b).Ok? {
        var y, ys, zs := f(a[0]).value, Collect(f, a[1..]).value, Collect(f, b).value;
        assert [y] + (ys + zs) == [y] + ys + zs;
      }
    }
  }

  lemma CollectOne<A, B, E>(f: A -> Result<B, E>, x: A)
    ensures Collect(f, [x]) == match f(x) case Err(e) => Err(e) case Ok(y) => Ok([y])
  {
    assert [x][1..] == [];
    if f(x).Ok? {
      var y := f(x).value;
      var none: seq<B> := [];
      assert Collect(f, [x][1..]) == Ok(none);
      assert [y] + none == [y];
    }
  }

  /** One more element. */
  lemma CollectNext<A, B, E>(f: A -> Result<B, E>, xs: seq<A>, i: nat)
    requires i < |xs| && Collect(f, xs[..i]).Ok?
    ensures Collect(f, xs[..i + 1]) ==
            match f(xs[i])
            case Err(e) => Err(e)
            case Ok(y) => Ok(Collect(f, xs[..i]).value + [y])
    ensures f(xs[i]).Err? ==> Collect(f, xs) == Err(f(xs[i]).error)
  {
    assert xs[..i + 1] == xs[..i] + [xs[i]];
    CollectConcat(f, xs[..i], [xs[i]]);
    CollectOne(f, xs[i]);
    assert xs == xs[..i + 1] + xs[i + 1..];
    CollectConcat(f, xs[..i + 1], xs[i + 1..]);
  }

  /** The last position at which `p` holds. */
  function LastIndex<T>(p: T -> bool, xs: seq<T>): (r: Option<nat>)
    ensures r.Some? ==> r.value < |xs| && p(xs[r.value])
    ensures r.Some? ==> forall j :: r.value < j < |xs| ==> !p(xs[j])
    ensures r.None? ==> forall j :: 0 <= j < |xs| ==> !p(xs[j])
  {
    if xs == [] then None
    else if p(xs[|xs| - 1]) then Some(|xs| - 1)
    else LastIndex(p, xs[..|xs| - 1])
  }

  lemma LastIndexAppend<T>(p: T -> bool, xs: seq<T>, x: T)
    ensures LastIndex(p, xs + [x]) == if p(x) then Some(|xs|) else LastIndex(p, xs)
  {
    assert (xs + [x])[..|xs|] == xs;
  }

  lemma {:induction false} CollectAt<A, B, E>(f: A -> Result<B, E>, xs: seq<A>)
    ensures Collect(f, xs).Ok? ==>
              && |Collect(f, xs).value| == |xs|
              && forall i :: 0 <= i < |xs| ==> f(xs[i]) == Ok(Collect(f, xs).value[i])
  {
    if xs != [] {
      CollectAt(f, xs[1..]);
    }
  }

  // ---------------------------------------------------------------- white space

  /** The Unicode White_Space set, as `unicode.IsSpace` decides it. */
  predicate IsSpace(c: char) {
    || '\t' <= c <= '\r' || c == ' '
    || c == '\U{85}' || c == '\U{A0}' || c == '\U{1680}' || '\U{2000}' <= c <= '\U{200A}'
    || c == '\U{2028}' || c == '\U{2029}' || c == '\U{202F}' || c == '\U{205F}' || c == '\U{3000}'
  }

  function TrimLeft(s: string): (r: string) {
    if s != [] && IsSpace(s[0]) then TrimLeft(s[1..]) else s
  }

  function TrimRight(s: string): (r: string) {
    if s != [] && IsSpace(s[|s| - 1]) then TrimRight(s[..|s| - 1]) else s
  }

  function TrimSpace(s: string): (r: string) {
    TrimRight(TrimLeft(s))
  }

  /** Neither end is white space. */
  predicate Trimmed(s: string) {
    s != [] ==> !IsSpace(s[0]) && !IsSpace(s[|s| - 1])
  }

  lemma {:induction false} TrimLeftProperties(s: string)
    ensures var r := TrimLeft(s); |r| <= |s| && r == s[|s| - |r|..] && (r != [] ==> !IsSpace(r[0]))
  {
    if s != [] && IsSpace(s[0]) {
      TrimLeftProperties(s[1..]);
    }
  }

  lemma {:induction false} TrimRightProperties(s: string)
    ensures var r := TrimRight(s); |r| <= |s| && r == s[..|r|] && (r != [] ==> !IsSpace(r[|r| - 1]))
  {
    if s != [] && IsSpace(s[|s| - 1]) {
      TrimRightProperties(s[..|s| - 1]);
    }
  }

  /** Trimming yields trimmed text, and changes nothing that is already trimmed. */
  lemma TrimSpaceProperties(s: string)
    ensures Trimmed(TrimSpace(s))
    ensures Trimmed(s) ==> TrimSpace(s) == s
  {
    TrimLeftProperties(s);
    TrimRightProperties(TrimLeft(s));
  }

  /** Trimming invents no character. */
  lemma TrimSpaceKeeps(s: string, c: char)
    requires c !in s
    ensures c !in TrimSpace(s)
  {
    TrimLeftProperties(s);
    TrimRightProperties(TrimLeft(s));
  }

  /** One leading space before trimmed text is all that trimming removes. */
  lemma TrimOneSpace(s: string)
    requires Trimmed(s)
    ensures TrimSpace([' '] + s) == s
  {
    assert ([' '] + s)[1..] == s;
    TrimSpaceProperties(s);
    TrimLeftProperties(s);
    assert TrimLeft(s) == s;
  }

  // ---------------------------------------------------------------- letter case

  /** Lower-casing of the ASCII letters; every other character is its own lower case. */
  function LowerChar(c: char): (r: char)
    ensures !('A' <= r <= 'Z')
    ensures r != c ==> 'A' <= c <= 'Z' && 'a' <= r <= 'z' && r as int - 'a' as int == c as int - 'A' as int
  {
    if 'A' <= c <= 'Z' then ((c as int) + 32) as char else c
  }

  function Lower(s: string): (r: string)
    ensures |r| == |s| && forall i :: 0 <= i < |s| ==> r[i] == LowerChar(s[i])
  {
    seq(|s|, i requires 0 <= i < |s| => LowerChar(s[i]))
  }

  lemma LowerIdempotent(s: string)
    ensures Lower(Lower(s)) == Lower(s)
  {
    assert forall i :: 0 <= i < |s| ==> Lower(Lower(s))[i] == Lower(s)[i];
  }

  /** Lower-casing neither creates nor removes a character that is not a letter. */
  lemma LowerKeeps(s: string, c: char)
    requires !('A' <= c <= 'Z') && !('a' <= c <= 'z')
    ensures c in Lower(s) <==> c in s
  {
    if c in s {
      var i :| 0 <= i < |s| && s[i] == c;
      assert Lower(s)[i] == c;
    }
  }

  lemma LowerTrimmed(s: string)
    requires Trimmed(s)
    ensures Trimmed(Lower(s))
  {
  }

  // ---------------------------------------------------------------- searching and splitting

  /** `strings.IndexByte`: the first occurrence, or -1. */
  function IndexOf<T(==)>(s: seq<T>, c: T): (r: int)
    ensures -1 <= r < |s|
    ensures r >= 0 ==> s[r] == c && c !in s[..r]
    ensures r < 0 <==> c !in s
  {
    if s == [] then -1
    else if s[0] == c then 0
    else
      var i := IndexOf(s[1..], c);
      if i < 0 then -1 else assert s[..i + 1] == [s[0]] + s[1..][..i]; i + 1
  }

  /** Any split point in front of which `c` does not occur is the one `IndexOf` finds. */
  lemma IndexOfAt<T>(s: seq<T>, c: T, i: nat)
    requires i < |s| && s[i] == c && c !in s[..i]
    ensures IndexOf(s, c) == i
  {
    assert s[i] in s;
  }

  lemma IndexOfAfter<T>(a: seq<T>, c: T, b: seq<T>)
    requires c !in a
    ensures IndexOf(a + [c] + b, c) == |a|
  {
    assert (a + [c] + b)[..|a|] == a;
    IndexOfAt(a + [c] + b, c, |a|);
  }

  /** `strings.Split` on a one-byte separator. */
  function Split(s: string, sep: char): (r: seq<string>)
    decreases |s|
  {
    var i := IndexOf(s, sep);
    if i < 0 then [s] else [s[..i]] + Split(s[i + 1..], sep)
  }

  lemma {:induction false} SplitPieces(s: string, sep: char)
    ensures forall p :: p in Split(s, sep) ==> sep !in p
    decreases |s|
  {
    var i := IndexOf(s, sep);
    if i >= 0 { SplitPieces(s[i + 1..], sep); }
  }

  /** A separator splits a text independently on both sides. */
  lemma {:induction false} SplitConcat(a: string, sep: char, b: string)
    ensures Split(a + [sep] + b, sep) == Split(a, sep) + Split(b, sep)
    decreases |a|
  {
    hide Split;
    if sep !in a {
      SplitPiece(a, sep, b);
      SplitNone(a, sep);
    } else {
      var x, y := CutAtFirst(a, sep);
      SplitPiece(x, sep, y);
      SplitPiece(x, sep, y + [sep] + b);
      SplitConcat(y, sep, b);
      Regroup(x + [sep], y, [sep], b);
      Regroup([x], Split(y, sep), [], Split(b, sep));
    }
  }

  lemma SplitNone(a: string, sep: char)
    requires sep !in a
    ensures Split(a, sep) == [a]
  {
    hide IndexOf;
  }

  lemma CutAtFirst(a: string, sep: char) returns (x: string, y: string)
    requires sep in a
    ensures a == x + [sep] + y && sep !in x
  {
    hide IndexOf;
    var i := IndexOf(a, sep);
    x, y := a[..i], a[i + 1..];
  }

  lemma Regroup<T>(x: seq<T>, y: seq<T>, m: seq<T>, b: seq<T>)
    ensures x + y + m + b == x + (y + m + b) && y + [] == y
  {
  }

  lemma SplitPiece(a: string, sep: char, b: string)
    requires sep !in a
    ensures Split(a + [sep] + b, sep) == [a] + Split(b, sep)
  {
    hide IndexOf;
    var s := a + [sep] + b;
    IndexOfAfter(a, sep, b);
    assert s[|a| + 1..] == b && s[..|a|] == a;
  }

  function Join(parts: seq<string>, sep: string): (r: string) {
    if parts == [] then "" else if |parts| == 1 then parts[0] else parts[0] + sep + Join(parts[1..], sep)
  }

  /** Appending a part appends the separator and the part. */
  lemma {:induction false} JoinAppend(parts: seq<string>, sep: string, last: string)
    requires parts != []
    ensures Join(parts + [last], sep) == Join(parts, sep) + sep + last
  {
    if |parts| == 1 {
      assert (parts + [last])[1..] == [last];
    } else {
      assert (parts + [last])[1..] == parts[1..] + [last];
      JoinAppend(parts[1..], sep, last);
    }
  }

  // ---------------------------------------------------------------- decimal numbers

  const MAX_INT64: int := 0x7FFF_FFFF_FFFF_FFFF
  const MIN_INT64: int := -0x8000_0000_0000_0000

  predicate IsDigit(c: char) { '0' <= c <= '9' }

  predicate AllDigits(s: string) {
    forall i :: 0 <= i < |s| ==> IsDigit(s[i])
  }

  function DigitValue(c: char): (r: nat)
    requires IsDigit(c)
  {
    c as int - '0' as int
  }

  /** Decimal digits of a natural number, without leading zeros. */
  function NatText(n: nat): (r: string)
    ensures r != [] && AllDigits(r)
  {
    if n < 10 then [(n + '0' as int) as char] else NatText(n / 10) + [(n % 10 + '0' as int) as char]
  }

  /** `strconv.FormatInt(n, 10)`. */
  function IntText(n: int): (r: string) {
    if n < 0 then "-" + NatText(-n) else NatText(n)
  }

  function NatValue(s: string): (r: nat)
    requires AllDigits(s)
  {
    if s == [] then 0 else NatValue(s[..|s| - 1]) * 10 + DigitValue(s[|s| - 1])
  }

  lemma {:induction false} NatTextValue(n: nat)
    ensures NatValue(NatText(n)) == n
  {
    if n >= 10 {
      var t := NatText(n);
      assert t[..|t| - 1] == NatText(n / 10);
      NatTextValue(n / 10);
    }
  }

  /** What `strconv.ParseInt(s, 10, 64)` returns: a value that is clamped on overflow, and whether it succeeded. */
  datatype Parsed = Parsed(value: int, ok: bool)

  function ParseInt(s: string): (r: Parsed)
    ensures MIN_INT64 <= r.value <= MAX_INT64
  {
    var signed := s != [] && (s[0] == '-' || s[0] == '+');
    var digits := if signed then s[1..] else s;
    if digits == [] || !AllDigits(digits) then Parsed(0, false)
    else
      var n: int := NatValue(digits);
      if signed && s[0] == '-' then
        if -n < MIN_INT64 then Parsed(MIN_INT64, false) else Parsed(-n, true)
      else
        if n > MAX_INT64 then Parsed(MAX_INT64, false) else Parsed(n, true)
  }

  /** Printing and parsing agree on every non-negative 64-bit number. */
  lemma ParseIntOfText(n: nat)
    requires n <= MAX_INT64
    ensures ParseInt(NatText(n)) == Parsed(n, true)
  {
    NatTextValue(n);
    assert IsDigit(NatText(n)[0]);
  }
}
