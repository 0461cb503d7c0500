/** The signature base (auth/httpsig/base.go, section 2.5 of RFC 9421): one line per covered component and a last
    line with the signature parameters. */
module SignatureBase {
  import opened Text
  import opened Components
  import opened SignatureParameters

  /** Base64, which the package takes from a library. */
  datatype Codec = Codec(encode: string -> string, decode: string -> Option<string>)

  /** Header fields under their lower-case names. */
  type Fields = map<string, seq<string>>

  /** What a signature can cover. `derived` holds the values of the `@` components (with the query parameter's
      name, where there is one); those that the message cannot supply are absent. */
  datatype Message = Message(
    derived: map<(string, string), string>, headers: Fields, trailers: Fields,
    isResponse: bool, related: Option<Message>)

  // ---------------------------------------------------------------- component values

  function ReplaceCrLf(s: string): (r: string) {
    if |s| >= 2 && s[0] == '\r' && s[1] == '\n' then [' '] + ReplaceCrLf(s[2..])
    else if s == [] then []
    else [s[0]] + ReplaceCrLf(s[1..])
  }

  /** Line breaks that are left become spaces. */
  function BlankBreaks(t: string): (r: string)
    ensures |r| == |t| && '\n' !in r && '\r' !in r
  {
    var r := seq(|t|, i requires 0 <= i < |t| => if t[i] == '\n' || t[i] == '\r' then ' ' else t[i]);
    assert forall i :: 0 <= i < |r| ==> r[i] != '\n' && r[i] != '\r';
    r
  }

  /** `cleanHeaderValue`: the ends are trimmed and every line break inside becomes a space. */
  function CleanHeaderValue(v: string): (r: string)
    ensures '\n' !in r && '\r' !in r
  {
    BlankBreaks(ReplaceCrLf(TrimSpace(v)))
  }

  function CleanAll(values: seq<string>): (r: seq<string>) {
    seq(|values|, i requires 0 <= i < |values| => CleanHeaderValue(values[i]))
  }

  function WrapAll(codec: Codec, values: seq<string>): (r: seq<string>) {
    seq(|values|, i requires 0 <= i < |values| => ":" + codec.encode(CleanHeaderValue(values[i])) + ":")
  }

  /** `extractDictionaryKey` over the comma-separated items. */
  function DictionaryKey(items: seq<string>, key: string): (r: Result<string, Error>) {
    if items == [] then Err(MissingComponent)
    else
      var item := TrimSpace(items[0]);
      var eq := IndexOf(item, '=');
      if item != "" && eq < 0 && Lower(item) == Lower(key) then Ok("?1")
      else if item != "" && eq >= 0 && Lower(TrimSpace(item[..eq])) == Lower(key) then Ok(TrimSpace(item[eq + 1..]))
      else DictionaryKey(items[1..], key)
  }

  function FieldValue(codec: Codec, fields: Fields, c: Component): (r: Result<string, Error>) {
    if c.name !in fields || fields[c.name] == [] then Err(MissingComponent)
    else if c.bs then Ok(Join(WrapAll(codec, fields[c.name]), ", "))
    else if c.key != "" then DictionaryKey(Split(Join(fields[c.name], ", "), ','), c.key)
    else Ok(Join(CleanAll(fields[c.name]), ", "))
  }

  predicate IsDerived(c: Component) {
    c.name != "" && c.name[0] == '@'
  }

  function DerivedValue(m: Message, c: Component): (r: Result<string, Error>) {
    var k := (c.name, if c.name == "@query-param" then c.nameParam else "");
    if k in m.derived then Ok(m.derived[k]) else Err(MissingComponent)
  }

  function ComponentValue(codec: Codec, m: Message, c: Component): (r: Result<string, Error>) {
    if IsDerived(c) then DerivedValue(m, c)
    else FieldValue(codec, if c.tr then m.trailers else m.headers, c)
  }

  /** The value from the message, or from the request it answers when the `req` flag is set. */
  function CoveredValue(codec: Codec, m: Message, c: Component): (r: Result<string, Error>) {
    if !c.req then ComponentValue(codec, m, c)
    else if !m.isResponse || m.related.None? then Err(MissingComponent)
    else ComponentValue(codec, m.related.value, c)
  }

  // ---------------------------------------------------------------- the base

  function Line(serialized: string, value: string): (r: string) {
    serialized + [':', ' '] + value + ['\n']
  }

  /** The lines of the covered components; `seen` are the identifiers already written. */
  function Lines(codec: Codec, m: Message, parsed: seq<Result<Component, Error>>, seen: set<string>)
    : (r: Result<string, Error>)
  {
    if parsed == [] then Ok([])
    else
      match parsed[0]
      case Err(e) => Err(e)
      case Ok(c) =>
        if c.serialized in seen then Err(DuplicateComponent)
        else
          match CoveredValue(codec, m, c)
          case Err(e) => Err(e)
          case Ok(v) =>
            match Lines(codec, m, parsed[1..], seen + {c.serialized})
            case Err(e) => Err(e)
            case Ok(rest) => Ok(Line(c.serialized, v) + rest)
  }

  function ParseAll(components: seq<string>): (r: seq<Result<Component, Error>>)
    ensures |r| == |components| && forall i :: 0 <= i < |components| ==> r[i] == Parse(components[i])
  {
    seq(|components|, i requires 0 <= i < |components| => Parse(components[i]))
  }

  predicate Ascii(s: string) {
    forall i :: 0 <= i < |s| ==> s[i] <= '\U{7F}'
  }

  const LAST_LINE := "\"@signature-params\": "

  function Finish(lines: Result<string, Error>, params: Result<string, Error>): (r: Result<string, Error>) {
    if lines.Err? then lines
    else if params.Err? then params
    else
      var base := lines.value + LAST_LINE + params.value;
      if Ascii(base) then Ok(base) else Err(InvalidField)
  }

  function Base(codec: Codec, m: Message, p: Params): (r: Result<string, Error>) {
    Finish(Lines(codec, m, ParseAll(p.components), {}), Serialize(p))
  }

  /** Writing the lines of a prefix first. */
  function Prepend(text: string, r: Result<string, Error>): (s: Result<string, Error>) {
    match r case Err(e) => Err(e) case Ok(t) => Ok(text + t)
  }

  lemma PrependTwice(a: string, b: string, r: Result<string, Error>)
    ensures Prepend(a, Prepend(b, r)) == Prepend(a + b, r)
  {
    if r.Ok? {
      assert a + (b + r.value) == a + b + r.value;
    }
  }

  lemma PrependNothing(r: Result<string, Error>)
    ensures Prepend([], r) == r
  {
    if r.Ok? {
      assert [] + r.value == r.value;
    }
  }

  lemma LinesFirst(
    codec: Codec, m: Message, parsed: seq<Result<Component, Error>>, seen: set<string>, c: Component, v: string)
    requires parsed != [] && parsed[0] == Ok(c) && c.serialized !in seen && CoveredValue(codec, m, c) == Ok(v)
    ensures Lines(codec, m, parsed, seen) ==
            Prepend(Line(c.serialized, v), Lines(codec, m, parsed[1..], seen + {c.serialized}))
  {
  }

  method WriteLines(codec: Codec, m: Message, parsed: seq<Result<Component, Error>>) returns (r: Result<string, Error>)
    ensures r == Lines(codec, m, parsed, {})
  {
    var seen: set<string> := {};
    var sb: string := [];
    assert parsed[0..] == parsed;
    PrependNothing(Lines(codec, m, parsed, {}));
    for i := 0 to |parsed|
      invariant Lines(codec, m, parsed, {}) == Prepend(sb, Lines(codec, m, parsed[i..], seen))
    {
      assert parsed[i..][1..] == parsed[i + 1..];
      if parsed[i].Err? {
        return Err(parsed[i].error);
      }
      var c := parsed[i].value;
      if c.serialized in seen {
        return Err(DuplicateComponent);
      }
      var val := CoveredValue(codec, m, c);
      if val.Err? {
        return Err(val.error);
      }
      LinesFirst(codec, m, parsed[i..], seen, c, val.value);
      PrependTwice(sb, Line(c.serialized, val.value), Lines(codec, m, parsed[i + 1..], seen + {c.serialized}));
      seen := seen + {c.serialized};
      sb := sb + Line(c.serialized, val.value);
    }
    return Ok(sb + []);
  }

  method BuildSignatureBase(codec: Codec, m: Message, p: Params) returns (r: Result<string, Error>)
    ensures r == Base(codec, m, p)
  {
    var lines := WriteLines(codec, m, ParseAll(p.components));
    var params := SerializeSignatureParams(p);
    r := CheckAscii(lines, params);
  }

  method CheckAscii(lines: Result<string, Error>, params: Result<string, Error>) returns (r: Result<string, Error>)
    ensures r == Finish(lines, params)
  {
    if lines.Err? {
      return lines;
    }
    if params.Err? {
      return params;
    }
    var base := lines.value + LAST_LINE + params.value;
    for i := 0 to |base|
      invariant forall j :: 0 <= j < i ==> base[j] <= '\U{7F}'
    {
      if base[i] > '\U{7F}' {
        return Err(InvalidField);
      }
    }
    return Ok(base);
  }

  // ---------------------------------------------------------------- what the base determines

  /** Two texts cut at their first line break agree on both sides. */
  lemma SplitLine(v: string, rest: string, w: string, other: string)
    requires '\n' !in v && '\n' !in w && v + ['\n'] + rest == w + ['\n'] + other
    ensures v == w && rest == other
  {
    IndexOfAfter(v, '\n', rest);
    IndexOfAfter(w, '\n', other);
    var s := v + ['\n'] + rest;
    assert v == s[..|v|] && w == s[..|w|] && rest == s[|v| + 1..] && other == s[|w| + 1..];
  }

  /** Covered values without line breaks, under identifiers that are all accepted. */
  predicate OneLineValues(codec: Codec, m: Message, parsed: seq<Result<Component, Error>>) {
    forall i :: 0 <= i < |parsed| && parsed[i].Ok? && CoveredValue(codec, m, parsed[i].value).Ok? ==>
      '\n' !in CoveredValue(codec, m, parsed[i].value).value
  }

  lemma {:induction false} JoinOneLine(parts: seq<string>)
    requires forall p :: p in parts ==> '\n' !in p
    ensures '\n' !in Join(parts, ", ")
  {
    if |parts| > 1 {
      JoinOneLine(parts[1..]);
    }
  }

  /** The item selects the key: a bare name, or a name in front of an equals sign, in any case. */
  predicate HasKey(item: string, key: string) {
    var t := TrimSpace(item);
    var eq := IndexOf(t, '=');
    t != "" && Lower(if eq < 0 then t else TrimSpace(t[..eq])) == Lower(key)
  }

  /** What an item that has the key stands for. */
  function ItemValue(item: string): (r: string) {
    var t := TrimSpace(item);
    var eq := IndexOf(t, '=');
    if eq < 0 then "?1" else TrimSpace(t[eq + 1..])
  }

  /** A dictionary key stands for the value of the first item that has it. */
  lemma {:induction false} DictionaryKeyIff(items: seq<string>, key: string, v: string)
    ensures DictionaryKey(items, key) == Ok(v) <==> FirstWithKey(items, key, v)
  {
    hide TrimSpace, IndexOf, Lower;
    if items != [] {
      var rest := items[1..];
      DictionaryKeyIff(rest, key, v);
      if HasKey(items[0], key) {
        if FirstWithKey(items, key, v) {
          var i :| 0 <= i < |items| && HasKey(items[i], key) && ItemValue(items[i]) == v
                && forall j :: 0 <= j < i ==> !HasKey(items[j], key);
          assert i == 0;
        }
      } else {
        KeySkips(items, key, v);
      }
    }
  }

  predicate FirstWithKey(items: seq<string>, key: string, v: string) {
    exists i :: 0 <= i < |items| && HasKey(items[i], key) && ItemValue(items[i]) == v
      && forall j :: 0 <= j < i ==> !HasKey(items[j], key)
  }

  lemma KeySkips(items: seq<string>, key: string, v: string)
    requires items != [] && !HasKey(items[0], key)
    ensures FirstWithKey(items, key, v) <==> FirstWithKey(items[1..], key, v)
  {
    hide HasKey, ItemValue;
    var rest := items[1..];
    if FirstWithKey(items, key, v) {
      var i :| 0 <= i < |items| && HasKey(items[i], key) && ItemValue(items[i]) == v
            && forall j :: 0 <= j < i ==> !HasKey(items[j], key);
      assert rest[i - 1] == items[i];
      assert forall j :: 0 <= j < i - 1 ==> rest[j] == items[j + 1];
    }
    if FirstWithKey(rest, key, v) {
      var i :| 0 <= i < |rest| && HasKey(rest[i], key) && ItemValue(rest[i]) == v
            && forall j :: 0 <= j < i ==> !HasKey(rest[j], key);
      assert items[i + 1] == rest[i];
      assert forall j :: 1 <= j < i + 1 ==> items[j] == rest[j - 1];
    }
  }

  lemma {:induction false} WrapOneLine(codec: Codec, values: seq<string>, v: string)
    requires forall x :: '\n' !in codec.encode(x)
    requires v in WrapAll(codec, values)
    ensures '\n' !in v
  {
    var i :| 0 <= i < |values| && WrapAll(codec, values)[i] == v;
    assert '\n' !in codec.encode(CleanHeaderValue(values[i]));
  }

  /** The value of a header component holds a line break exactly if a dictionary key is selected and the first item
      under it has one inside its value; whole headers and byte sequences never do, whatever the header holds. */
  lemma FieldOneLineIff(codec: Codec, fields: Fields, c: Component)
    requires c.bs ==> forall x :: '\n' !in codec.encode(x)
    requires FieldValue(codec, fields, c).Ok?
    ensures '\n' in FieldValue(codec, fields, c).value <==>
            !c.bs && c.key != "" &&
            exists v :: '\n' in v && FirstWithKey(Split(Join(fields[c.name], ", "), ','), c.key, v)
  {
    hide FirstWithKey;
    if c.bs {
      forall v | v in WrapAll(codec, fields[c.name])
        ensures '\n' !in v
      {
        WrapOneLine(codec, fields[c.name], v);
      }
      JoinOneLine(WrapAll(codec, fields[c.name]));
    } else if c.key == "" {
      JoinOneLine(CleanAll(fields[c.name]));
    } else {
      var items := Split(Join(fields[c.name], ", "), ',');
      forall v
        ensures DictionaryKey(items, c.key) == Ok(v) <==> FirstWithKey(items, c.key, v)
      {
        DictionaryKeyIff(items, c.key, v);
      }
    }
  }

  /** How many line breaks a text has. */
  function Breaks(s: string): (n: nat) {
    if s == [] then 0 else Breaks(s[1..]) + if s[0] == '\n' then 1 else 0
  }

  lemma {:induction false} BreaksConcat(a: string, b: string)
    ensures Breaks(a + b) == Breaks(a) + Breaks(b)
  {
    if a == [] {
      assert a + b == b;
    } else {
      assert (a + b)[1..] == a[1..] + b;
      BreaksConcat(a[1..], b);
    }
  }

  lemma {:induction false} BreaksNone(s: string)
    ensures Breaks(s) == 0 <==> '\n' !in s
  {
    if s != [] {
      BreaksNone(s[1..]);
    }
  }

  lemma BreaksLine(serialized: string, v: string)
    requires '\n' !in v
    ensures Breaks(Line(serialized, v)) == Breaks(serialized) + 1
  {
    BreaksConcat(serialized + [':', ' '] + v, ['\n']);
    BreaksConcat(serialized + [':', ' '], v);
    BreaksConcat(serialized, [':', ' ']);
    BreaksNone(v);
    BreaksNone([':', ' ']);
    assert Breaks(['\n']) == 1 + Breaks(['\n'][1..]);
  }

  /** With one-line values the number of line breaks depends on the identifiers alone. */
  lemma {:induction false} LinesBreaks(
    codec: Codec, m: Message, n: Message, parsed: seq<Result<Component, Error>>, seen: set<string>)
    requires OneLineValues(codec, m, parsed) && OneLineValues(codec, n, parsed)
    requires Lines(codec, m, parsed, seen).Ok? && Lines(codec, n, parsed, seen).Ok?
    ensures Breaks(Lines(codec, m, parsed, seen).value) == Breaks(Lines(codec, n, parsed, seen).value)
  {
    if parsed != [] {
      hide Breaks, Line;
      var c := parsed[0].value;
      var v, w := CoveredValue(codec, m, c).value, CoveredValue(codec, n, c).value;
      var more := seen + {c.serialized};
      LinesBreaks(codec, m, n, parsed[1..], more);
      BreaksLine(c.serialized, v);
      BreaksLine(c.serialized, w);
      BreaksConcat(Line(c.serialized, v), Lines(codec, m, parsed[1..], more).value);
      BreaksConcat(Line(c.serialized, w), Lines(codec, n, parsed[1..], more).value);
    }
  }

  /** A first value with line breaks is found from behind: what follows it has a known number of line breaks. */
  lemma LineInjectiveBehind(serialized: string, v: string, rest: string, w: string, other: string)
    requires Breaks(rest) == Breaks(other) && Line(serialized, v) + rest == Line(serialized, w) + other
    ensures v == w && rest == other
  {
    var s := Line(serialized, v) + rest;
    if |rest| < |other| {
      ShorterTail(Line(serialized, v), rest, Line(serialized, w), other);
    } else if |other| < |rest| {
      ShorterTail(Line(serialized, w), other, Line(serialized, v), rest);
    } else {
      var k := |s| - |rest|;
      assert s[k..] == rest && s[k..] == other;
      assert s[..k] == Line(serialized, v) && s[..k] == Line(serialized, w);
      var h := |serialized| + 2;
      assert Line(serialized, v)[h..k - 1] == v && Line(serialized, w)[h..k - 1] == w;
    }
  }

  lemma ShorterTail(a: string, rest: string, b: string, other: string)
    requires a != [] && a[|a| - 1] == '\n' && a + rest == b + other && |rest| < |other|
    ensures Breaks(rest) < Breaks(other)
  {
    var s := a + rest;
    var x := s[|b|..|a|];
    assert other == s[|b|..] && other == x + rest;
    BreaksConcat(x, rest);
    assert x[|x| - 1] == a[|a| - 1];
    BreaksNone(x);
  }

  /** Covered values without line breaks, but for the component at `j`. */
  predicate OneLineExcept(codec: Codec, m: Message, parsed: seq<Result<Component, Error>>, j: int) {
    forall i :: 0 <= i < |parsed| && i != j && parsed[i].Ok? && CoveredValue(codec, m, parsed[i].value).Ok? ==>
      '\n' !in CoveredValue(codec, m, parsed[i].value).value
  }

  lemma ExceptTail(codec: Codec, m: Message, parsed: seq<Result<Component, Error>>, j: int)
    requires parsed != [] && OneLineExcept(codec, m, parsed, j)
    ensures OneLineExcept(codec, m, parsed[1..], j - 1)
    ensures j == 0 ==> OneLineValues(codec, m, parsed[1..])
  {
    hide CoveredValue;
    forall i | 0 <= i < |parsed| - 1 && i != j - 1
      ensures parsed[1..][i].Ok? && CoveredValue(codec, m, parsed[1..][i].value).Ok? ==>
                '\n' !in CoveredValue(codec, m, parsed[1..][i].value).value
    {
      assert parsed[i + 1] == parsed[1..][i];
    }
  }

  lemma {:induction false} LinesInjectiveExcept(
    codec: Codec, m: Message, n: Message, parsed: seq<Result<Component, Error>>, seen: set<string>, j: int)
    requires OneLineExcept(codec, m, parsed, j) && OneLineExcept(codec, n, parsed, j)
    requires Lines(codec, m, parsed, seen).Ok? && Lines(codec, m, parsed, seen) == Lines(codec, n, parsed, seen)
    ensures forall i :: 0 <= i < |parsed| ==>
              parsed[i].Ok? && CoveredValue(codec, m, parsed[i].value) == CoveredValue(codec, n, parsed[i].value)
    decreases |parsed|
  {
    if parsed != [] {
      hide CoveredValue, Line;
      var c := parsed[0].value;
      var v, w := CoveredValue(codec, m, c).value, CoveredValue(codec, n, c).value;
      var more := seen + {c.serialized};
      var a, b := Lines(codec, m, parsed[1..], more).value, Lines(codec, n, parsed[1..], more).value;
      ExceptTail(codec, m, parsed, j);
      ExceptTail(codec, n, parsed, j);
      if j == 0 {
        LinesBreaks(codec, m, n, parsed[1..], more);
        LineInjectiveBehind(c.serialized, v, a, w, b);
      } else {
        LineInjective(c.serialized, v, a, w, b);
      }
      LinesInjectiveExcept(codec, m, n, parsed[1..], more, j - 1);
    }
  }

  lemma LineInjective(serialized: string, v: string, rest: string, w: string, other: string)
    requires '\n' !in v && '\n' !in w && Line(serialized, v) + rest == Line(serialized, w) + other
    ensures v == w && rest == other
  {
    var head := serialized + [':', ' '];
    var s := Line(serialized, v) + rest;
    assert s == head + (v + ['\n'] + rest) && s == head + (w + ['\n'] + other);
    assert s[|head|..] == v + ['\n'] + rest && s[|head|..] == w + ['\n'] + other;
    SplitLine(v, rest, w, other);
  }

  lemma FinishInjective(a: Result<string, Error>, b: Result<string, Error>, params: Result<string, Error>)
    requires Finish(a, params).Ok? && Finish(a, params) == Finish(b, params)
    ensures a == b && a.Ok?
  {
    var s := Finish(a, params).value;
    var n := |s| - |LAST_LINE| - |params.value|;
    assert s[..n] == a.value && s[..n] == b.value;
  }

  /** For fixed parameters, the base determines the value of every covered component, if at most one of them, the same
      in both messages, has line breaks. */
  lemma BaseInjective(codec: Codec, m: Message, n: Message, p: Params, j: int)
    requires OneLineExcept(codec, m, ParseAll(p.components), j) && OneLineExcept(codec, n, ParseAll(p.components), j)
    requires Base(codec, m, p).Ok? && Base(codec, m, p) == Base(codec, n, p)
    ensures var parsed := ParseAll(p.components);
            forall i :: 0 <= i < |parsed| ==>
              parsed[i].Ok? && CoveredValue(codec, m, parsed[i].value) == CoveredValue(codec, n, parsed[i].value)
  {
    var parsed := ParseAll(p.components);
    FinishInjective(Lines(codec, m, parsed, {}), Lines(codec, n, parsed, {}), Serialize(p));
    LinesInjectiveExcept(codec, m, n, parsed, {}, j);
  }

  // ---------------------------------------------------------------- where the base is not injective

  /** The component for dictionary key k in the header of this name. */
  function KeyComponent(name: string): (c: Component) {
    Meaning(name, [Assign("key", "k")])
  }

  /** A request whose headers a and b are dictionaries with the single key k. */
  function TwoHeaders(v: string, w: string): (m: Message) {
    Message(map[], map["a" := ["k=" + v], "b" := ["k=" + w]], map[], false, None)
  }

  lemma KeyComponentParses(name: string)
    requires name == "a" || name == "b"
    ensures Parse(KeyComponent(name).serialized) == Ok(KeyComponent(name))
  {
    var ps := [Assign("key", "k")];
    assert Lower("key") == "key" && Lower("a") == "a" && Lower("b") == "b";
    assert AllCanonical(ps);
    hide Parse, Lower, Canonical, ParamsText;
    WrittenParses(name, ps);
  }

  lemma KeyComponentShape(name: string)
    requires name == "a" || name == "b"
    ensures var c := KeyComponent(name);
            c.name == name && c.key == "k" && !c.bs && !c.req && !c.tr && !IsDerived(c) && ',' !in c.serialized
  {
    var ps := [Assign("key", "k")];
    assert LastValue(ps, "key") == "k";
    assert ps[1..] == [];
    assert ParamsText(ps) == [';'] + ("key" + ['='] + Quoted("k")) + [];
  }

  lemma KeyComponentsDiffer()
    ensures KeyComponent("a").serialized != KeyComponent("b").serialized
  {
    hide ParamsText;
    assert KeyComponent("a").serialized[1] == 'a' && KeyComponent("b").serialized[1] == 'b';
  }

  /** A text that a dictionary value can be: nothing to trim, and no comma to cut it. */
  predicate PlainValue(v: string) {
    v != "" && Trimmed(v) && ',' !in v
  }

  lemma SingleKey(v: string)
    requires PlainValue(v)
    ensures DictionaryKey(Split(Join(["k=" + v], ", "), ','), "k") == Ok(v)
  {
    var item := "k=" + v;
    assert Join([item], ", ") == item;
    assert Split(item, ',') == [item];
    assert item[0] == 'k' && item[1] == '=' && item[|item| - 1] == v[|v| - 1];
    TrimSpaceProperties(item);
    assert item[..1] == "k" && '=' !in item[..1];
    IndexOfAt(item, '=', 1);
    assert item[2..] == v;
    TrimSpaceProperties("k");
    TrimSpaceProperties(v);
  }

  lemma KeyValue(codec: Codec, m: Message, c: Component, v: string)
    requires c.key == "k" && !c.bs && !c.req && !c.tr && !IsDerived(c)
    requires c.name in m.headers && m.headers[c.name] == ["k=" + v] && PlainValue(v)
    ensures CoveredValue(codec, m, c) == Ok(v)
  {
    SingleKey(v);
    hide Split, Join, DictionaryKey, PlainValue;
  }

  lemma KeyValues(codec: Codec, v: string, w: string)
    requires PlainValue(v) && PlainValue(w)
    ensures CoveredValue(codec, TwoHeaders(v, w), KeyComponent("a")) == Ok(v)
    ensures CoveredValue(codec, TwoHeaders(v, w), KeyComponent("b")) == Ok(w)
  {
    KeyComponentShape("a");
    KeyComponentShape("b");
    hide KeyComponent, CoveredValue, PlainValue;
    KeyValue(codec, TwoHeaders(v, w), KeyComponent("a"), v);
    KeyValue(codec, TwoHeaders(v, w), KeyComponent("b"), w);
  }

  lemma TwoLines(codec: Codec, m: Message, c: Component, d: Component, v: string, w: string)
    requires c.serialized != d.serialized && CoveredValue(codec, m, c) == Ok(v) && CoveredValue(codec, m, d) == Ok(w)
    ensures Lines(codec, m, [Ok(c), Ok(d)], {}) == Ok(Line(c.serialized, v) + (Line(d.serialized, w) + []))
  {
    hide CoveredValue, Line;
    var parsed: seq<Result<Component, Error>> := [Ok(c), Ok(d)];
    assert parsed[1..] == [Ok(d)] && parsed[1..][1..] == [];
    assert Lines(codec, m, parsed[1..], {} + {c.serialized}) == Ok(Line(d.serialized, w) + []);
  }

  lemma KeyLines(codec: Codec, v: string, w: string)
    requires PlainValue(v) && PlainValue(w)
    ensures Lines(codec, TwoHeaders(v, w), [Ok(KeyComponent("a")), Ok(KeyComponent("b"))], {}) ==
            Ok(Line(KeyComponent("a").serialized, v) + (Line(KeyComponent("b").serialized, w) + []))
  {
    hide *;
    KeyComponentsDiffer();
    KeyValues(codec, v, w);
    TwoLines(codec, TwoHeaders(v, w), KeyComponent("a"), KeyComponent("b"), v, w);
  }

  /** The text between the two values in the base. */
  function Between(): (t: string) {
    ['\n'] + KeyComponent("b").serialized + [':', ' ']
  }

  /** The boundary between the two values can also be read at position `k` of `text`. */
  predicate Boundary(text: string, between: string, k: nat) {
    && k + |between| <= |text| && text[k..k + |between|] == between
    && PlainValue(text[..k]) && PlainValue(text[k + |between|..])
  }

  function KeyBase(codec: Codec, v: string, w: string): (r: Result<string, Error>) {
    Lines(codec, TwoHeaders(v, w), [Ok(KeyComponent("a")), Ok(KeyComponent("b"))], {})
  }

  lemma BetweenText()
    ensures Between() == ['\n'] + KeyComponent("b").serialized + [':', ' ']
  {
  }

  lemma KeyBaseText(codec: Codec, v: string, w: string)
    requires PlainValue(v) && PlainValue(w)
    ensures KeyBase(codec, v, w) ==
            Ok(KeyComponent("a").serialized + [':', ' '] + (v + Between() + w) + ['\n'])
  {
    KeyLines(codec, v, w);
    hide KeyComponent, Lines, TwoHeaders, PlainValue, Line;
    TwoLinesText(KeyComponent("a").serialized, KeyComponent("b").serialized, v, w);
  }

  lemma TwoLinesText(a: string, b: string, v: string, w: string)
    ensures Line(a, v) + (Line(b, w) + []) == a + [':', ' '] + (v + (['\n'] + b + [':', ' ']) + w) + ['\n']
  {
  }

  lemma SameKeyBase(codec: Codec, v: string, w: string, x: string, y: string)
    requires PlainValue(v) && PlainValue(w) && PlainValue(x) && PlainValue(y)
    ensures KeyBase(codec, v, w) == KeyBase(codec, x, y) <==> v + Between() + w == x + Between() + y
  {
    KeyBaseText(codec, v, w);
    KeyBaseText(codec, x, y);
    hide KeyBase, Between, PlainValue, KeyComponent;
    Enclosed(KeyComponent("a").serialized + [':', ' '], v + Between() + w, x + Between() + y, ['\n']);
  }

  lemma Enclosed(a: string, x: string, y: string, b: string)
    ensures a + x + b == a + y + b <==> x == y
  {
    var s, t := a + x + b, a + y + b;
    assert s[|a|..|s| - |b|] == x && t[|a|..|t| - |b|] == y;
  }

  /** Other values, with another first one, that have the same lines. */
  ghost predicate Collides(codec: Codec, v: string, w: string, x: string, y: string) {
    PlainValue(x) && PlainValue(y) && x != v && KeyBase(codec, x, y) == KeyBase(codec, v, w)
  }

  /** Two dictionary keys: other values with the same lines exist exactly if the text between the two values occurs once
      more, at a place where it can be read as the boundary. */
  lemma KeyCollisionIff(codec: Codec, v: string, w: string)
    requires PlainValue(v) && PlainValue(w)
    ensures (exists x, y :: Collides(codec, v, w, x, y)) <==>
            (exists k: nat :: k != |v| && Boundary(v + Between() + w, Between(), k))
  {
    hide Collides, Boundary, Between;
    var text := v + Between() + w;
    if k: nat :| k != |v| && Boundary(text, Between(), k) {
      CollisionAt(codec, v, w, k);
    }
    if x, y :| Collides(codec, v, w, x, y) {
      BoundaryOf(codec, v, w, x, y);
    }
  }

  lemma CollisionAt(codec: Codec, v: string, w: string, k: nat)
    requires PlainValue(v) && PlainValue(w) && k != |v| && Boundary(v + Between() + w, Between(), k)
    ensures exists x, y :: Collides(codec, v, w, x, y)
  {
    hide KeyBase, PlainValue;
    var t := Between();
    hide Between;
    var text := v + t + w;
    var x, y := text[..k], text[k + |t|..];
    assert text == text[..k] + text[k..k + |t|] + text[k + |t|..];
    SameKeyBase(codec, x, y, v, w);
    assert |x| != |v|;
    assert Collides(codec, v, w, x, y);
  }

  lemma BoundaryOf(codec: Codec, v: string, w: string, x: string, y: string)
    requires PlainValue(v) && PlainValue(w) && Collides(codec, v, w, x, y)
    ensures |x| != |v| && Boundary(v + Between() + w, Between(), |x|)
  {
    hide KeyBase, PlainValue;
    var t := Between();
    hide Between;
    SameKeyBase(codec, x, y, v, w);
    var text := v + t + w;
    assert text[..|x|] == x && text[..|v|] == v;
    assert text[|x|..|x| + |t|] == t && text[|x| + |t|..] == y;
  }

  lemma KeysParse(components: seq<string>)
    requires components == [KeyComponent("a").serialized, KeyComponent("b").serialized]
    ensures ParseAll(components) == [Ok(KeyComponent("a")), Ok(KeyComponent("b"))]
  {
    hide *;
    KeyComponentParses("a");
    KeyComponentParses("b");
    assert |ParseAll(components)| == 2;
  }

  /** A line break inside a value moves the boundary between two lines: the value of a dictionary key is not cleaned, so
      two messages that differ in both covered values have the same base. */
  lemma BaseCollision(codec: Codec, p: Params, x: string, y: string, z: string)
    requires PlainValue(x) && PlainValue(y) && PlainValue(z)
    requires p.components == [KeyComponent("a").serialized, KeyComponent("b").serialized]
    ensures var between := Between();
            var m, n := TwoHeaders(x + between + y, z), TwoHeaders(x, y + between + z);
            && Base(codec, m, p) == Base(codec, n, p)
            && CoveredValue(codec, m, KeyComponent("a")) != CoveredValue(codec, n, KeyComponent("a"))
            && CoveredValue(codec, m, KeyComponent("b")) != CoveredValue(codec, n, KeyComponent("b"))
  {
    hide *;
    var b := KeyComponent("b").serialized;
    var between := Between();
    BetweenText();
    KeyComponentShape("b");
    PlainAround(x, between, y);
    PlainAround(y, between, z);
    KeyLines(codec, x + between + y, z);
    KeyLines(codec, x, y + between + z);
    KeyValues(codec, x + between + y, z);
    KeyValues(codec, x, y + between + z);
    LinesCollide(KeyComponent("a").serialized, b, x, y, z);
    KeysParse(p.components);
    BaseOfLines(codec, TwoHeaders(x + between + y, z), p);
    BaseOfLines(codec, TwoHeaders(x, y + between + z), p);
  }

  lemma AsciiConcat(a: string, b: string)
    requires Ascii(a) && Ascii(b)
    ensures Ascii(a + b)
  {
  }

  lemma AsciiLine(serialized: string, v: string)
    requires Ascii(serialized) && Ascii(v)
    ensures Ascii(Line(serialized, v))
  {
  }

  lemma KeyComponentAscii(name: string)
    requires name == "a" || name == "b"
    ensures Ascii(KeyComponent(name).serialized)
  {
    var ps := [Assign("key", "k")];
    assert ps[1..] == [];
    assert ParamsText(ps) == [';'] + ("key" + ['='] + Quoted("k")) + [];
  }

  lemma SerializeTwo(p: Params, a: string, b: string)
    requires p.components == [a, b] && SerializedForm(a) == Ok(a) && SerializedForm(b) == Ok(b)
    ensures Serialize(p) == Ok(Written([a, b], p))
  {
    hide Parse, Written;
    CollectTwo(SerializedForm, a, b, a, b);
  }

  lemma KeySerialized(name: string)
    requires name == "a" || name == "b"
    ensures SerializedForm(KeyComponent(name).serialized) == Ok(KeyComponent(name).serialized)
  {
    KeyComponentParses(name);
    hide Parse, KeyComponent;
  }

  lemma FinishAscii(lines: string, params: string)
    requires Ascii(lines) && Ascii(params)
    ensures Finish(Ok(lines), Ok(params)).Ok?
  {
    assert Ascii(LAST_LINE);
    hide Ascii;
    AsciiConcat(lines, LAST_LINE);
    AsciiConcat(lines + LAST_LINE, params);
  }

  /** The colliding base is one that gets signed: it is there whenever values and parameters are ASCII. */
  lemma CollisionIsSigned(codec: Codec, p: Params, v: string, w: string)
    requires PlainValue(v) && PlainValue(w) && Ascii(v) && Ascii(w) && Ascii(Written(p.components, p))
    requires p.components == [KeyComponent("a").serialized, KeyComponent("b").serialized]
    ensures Base(codec, TwoHeaders(v, w), p).Ok?
  {
    hide *;
    var a, b := KeyComponent("a").serialized, KeyComponent("b").serialized;
    KeySerialized("a");
    KeySerialized("b");
    SerializeTwo(p, a, b);
    KeysParse(p.components);
    KeyLines(codec, v, w);
    KeyComponentAscii("a");
    KeyComponentAscii("b");
    AsciiLine(a, v);
    AsciiLine(b, w);
    NothingIsAscii();
    AsciiConcat(Line(b, w), []);
    AsciiConcat(Line(a, v), Line(b, w) + []);
    FinishAscii(Line(a, v) + (Line(b, w) + []), Written(p.components, p));
    BaseOfLines(codec, TwoHeaders(v, w), p);
  }

  lemma NothingIsAscii()
    ensures Ascii([])
  {
  }

  lemma BaseOfLines(codec: Codec, m: Message, p: Params)
    ensures Base(codec, m, p) == Finish(Lines(codec, m, ParseAll(p.components), {}), Serialize(p))
  {
  }

  lemma PlainAround(x: string, between: string, y: string)
    requires PlainValue(x) && PlainValue(y) && ',' !in between
    ensures PlainValue(x + between + y)
  {
    var t := x + between + y;
    assert t[0] == x[0] && t[|t| - 1] == y[|y| - 1];
  }

  lemma LinesCollide(a: string, b: string, x: string, y: string, z: string)
    ensures var between := ['\n'] + b + [':', ' '];
            Line(a, x + between + y) + (Line(b, z) + []) == Line(a, x) + (Line(b, y + between + z) + [])
  {
    var all := a + [':', ' '] + x + ['\n'] + b + [':', ' '] + y + ['\n'] + b + [':', ' '] + z + ['\n'];
    var between := ['\n'] + b + [':', ' '];
    assert Line(a, x + between + y) + (Line(b, z) + []) == all;
    assert Line(a, x) + (Line(b, y + between + z) + []) == all;
  }

  // ---------------------------------------------------------------- what the base does not depend on

  const SIGNATURE := "signature"
  const SIGNATURE_INPUT := "signature-input"

  /** The two messages differ at most in the two signature headers. */
  ghost predicate SameApartFromSignatures(m: Message, n: Message) {
    && m.derived == n.derived && m.trailers == n.trailers && m.isResponse == n.isResponse && m.related == n.related
    && forall k :: k != SIGNATURE && k != SIGNATURE_INPUT ==>
         (k in m.headers <==> k in n.headers) && (k in m.headers ==> m.headers[k] == n.headers[k])
  }

  /** The component is read from one of the message's own signature headers; with `req` it is read from the related
      request and with `tr` from the trailers. */
  predicate ReadsSignature(c: Component) {
    (c.name == SIGNATURE || c.name == SIGNATURE_INPUT) && !c.req && !c.tr
  }

  predicate LeavesSignaturesOut(parsed: seq<Result<Component, Error>>) {
    forall i :: 0 <= i < |parsed| && parsed[i].Ok? ==> !ReadsSignature(parsed[i].value)
  }

  lemma {:induction false} LinesUnaffected(
    codec: Codec, m: Message, n: Message, parsed: seq<Result<Component, Error>>, seen: set<string>)
    requires SameApartFromSignatures(m, n) && LeavesSignaturesOut(parsed)
    ensures Lines(codec, m, parsed, seen) == Lines(codec, n, parsed, seen)
  {
    if parsed != [] && parsed[0].Ok? {
      var c := parsed[0].value;
      assert CoveredValue(codec, m, c) == CoveredValue(codec, n, c);
      LinesUnaffected(codec, m, n, parsed[1..], seen + {c.serialized});
    }
  }
}
