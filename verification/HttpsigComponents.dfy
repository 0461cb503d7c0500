/** Component identifiers of HTTP message signatures (auth/httpsig/base.go, section 2 of RFC 9421):
    `"name";flag;key="value"`, read leniently and written in one normal form. */
module Components {
  import opened Text

  datatype Error =
    | MissingComponent
    | InvalidField
    | DuplicateComponent
    | MissingSignature
    | LabelMismatch
    | UnsupportedAlgorithm
    | SignatureExpired
    | SignatureInFuture
    | SignatureTooOld
    | KeyMismatch
    | InvalidSignature

  datatype Param = Flag(name: string) | Assign(name: string, value: string)

  /** The parsed identifier; `serialized` is the form that enters the signature base. */
  datatype Component = Component(
    name: string, key: string, nameParam: string,
    sf: bool, bs: bool, req: bool, tr: bool,
    serialized: string)

  // ---------------------------------------------------------------- one parameter

  /** Removes one pair of enclosing double quotes. */
  function StripQuotes(v: string): (r: string) {
    if |v| >= 2 && v[0] == '"' && v[|v| - 1] == '"' then v[1..|v| - 1] else v
  }

  /** A piece between two semicolons; blank pieces are skipped. */
  function ParseParam(piece: string): (r: Option<Param>) {
    var p := TrimSpace(piece);
    var eq := IndexOf(p, '=');
    if p == "" then None
    else if eq < 0 then Some(Flag(Lower(TrimSpace(p))))
    else Some(Assign(Lower(TrimSpace(p[..eq])), StripQuotes(TrimSpace(p[eq + 1..]))))
  }

  function Quoted(v: string): (r: string) {
    ['"'] + v + ['"']
  }

  function ParamText(p: Param): (r: string) {
    match p
    case Flag(n) => n
    case Assign(n, v) => n + ['='] + Quoted(v)
  }

  /** The parameters `ParseParam` can produce. */
  predicate Canonical(p: Param) {
    && Trimmed(p.name) && Lower(p.name) == p.name && ';' !in p.name && '=' !in p.name
    && (p.Flag? ==> p.name != "")
    && (p.Assign? ==> ';' !in p.value)
  }

  lemma ParseParamIsCanonical(piece: string)
    requires ';' !in piece
    ensures ParseParam(piece).Some? ==> Canonical(ParseParam(piece).value)
  {
    var p := TrimSpace(piece);
    TrimSpaceProperties(piece);
    TrimSpaceKeeps(piece, ';');
    var eq := IndexOf(p, '=');
    if eq < 0 {
      NameIsCanonical(p);
      TrimSpaceProperties(p);
    } else {
      NameIsCanonical(p[..eq]);
      TrimSpaceKeeps(p[eq + 1..], ';');
    }
  }

  lemma NameIsCanonical(n: string)
    requires ';' !in n && '=' !in n
    ensures var r := Lower(TrimSpace(n)); Trimmed(r) && Lower(r) == r && ';' !in r && '=' !in r
  {
    var t := TrimSpace(n);
    TrimSpaceProperties(n);
    TrimSpaceKeeps(n, ';');
    TrimSpaceKeeps(n, '=');
    LowerTrimmed(t);
    LowerIdempotent(t);
    LowerKeeps(t, ';');
    LowerKeeps(t, '=');
  }

  lemma QuotedValue(v: string)
    ensures StripQuotes(TrimSpace(Quoted(v))) == v
  {
    TrimSpaceProperties(Quoted(v));
    assert Quoted(v)[1..|v| + 1] == v;
  }

  /** An assignment is cut at its equals sign. */
  lemma AssignmentCut(n: string, v: string)
    requires '=' !in n
    ensures var t := n + ['='] + v; IndexOf(t, '=') == |n| && t[..|n|] == n && t[|n| + 1..] == v
  {
    IndexOfAfter(n, '=', v);
  }

  lemma AssignmentTrimmed(n: string, v: string)
    requires Trimmed(n)
    ensures Trimmed(n + ['='] + Quoted(v))
  {
    var t := n + ['='] + Quoted(v);
    assert t[0] == if n == [] then '=' else n[0];
    assert t[|t| - 1] == '"';
  }

  /** A canonical parameter survives being written and read. */
  lemma ParamRoundTrip(p: Param)
    requires Canonical(p)
    ensures ParseParam(ParamText(p)) == Some(p)
    ensures ';' !in ParamText(p) && Trimmed(ParamText(p)) && ParamText(p) != ""
  {
    hide IndexOf, TrimSpace, Lower, StripQuotes;
    TrimSpaceProperties(p.name);
    if p.Assign? {
      AssignmentCut(p.name, Quoted(p.value));
      AssignmentTrimmed(p.name, p.value);
      TrimSpaceProperties(ParamText(p));
      QuotedValue(p.value);
    }
  }

  // ---------------------------------------------------------------- a parameter list

  function ParseParams(pieces: seq<string>): (r: seq<Param>) {
    if pieces == [] then []
    else
      var rest := ParseParams(pieces[1..]);
      match ParseParam(pieces[0])
      case None => rest
      case Some(p) => [p] + rest
  }

  function ParamsText(ps: seq<Param>): (r: string) {
    if ps == [] then [] else [';'] + ParamText(ps[0]) + ParamsText(ps[1..])
  }

  predicate AllCanonical(ps: seq<Param>) {
    forall i :: 0 <= i < |ps| ==> Canonical(ps[i])
  }

  lemma {:induction false} ParseParamsConcat(a: seq<string>, b: seq<string>)
    ensures ParseParams(a + b) == ParseParams(a) + ParseParams(b)
  {
    if a == [] {
      assert a + b == b;
    } else {
      assert (a + b)[1..] == a[1..] + b;
      ParseParamsConcat(a[1..], b);
    }
  }

  lemma ParamsTextAppend(ps: seq<Param>, p: Param)
    ensures ParamsText(ps + [p]) == ParamsText(ps) + [';'] + ParamText(p)
  {
    if ps != [] {
      assert (ps + [p])[1..] == ps[1..] + [p];
    }
  }

  lemma {:induction false} ParseParamsAreCanonical(pieces: seq<string>)
    requires forall p :: p in pieces ==> ';' !in p
    ensures AllCanonical(ParseParams(pieces))
  {
    if pieces != [] {
      ParseParamIsCanonical(pieces[0]);
      ParseParamsAreCanonical(pieces[1..]);
    }
  }

  /** A blank first piece is skipped. */
  lemma SplitLeading(b: string)
    ensures ParseParams(Split([';'] + b, ';')) == ParseParams(Split(b, ';'))
  {
    SplitConcat([], ';', b);
    assert [] + [';'] + b == [';'] + b;
    assert Split([], ';') == [[]];
    assert ([[]] + Split(b, ';'))[1..] == Split(b, ';');
  }

  lemma SplitFirst(t: string, rest: string)
    requires ';' !in t && (rest == [] || rest[0] == ';')
    ensures ParseParams(Split(t + rest, ';')) == ParseParams([t]) + ParseParams(Split(rest, ';'))
  {
    assert Split(t, ';') == [t];
    if rest == [] {
      assert t + rest == t;
      assert Split([], ';') == [[]] && ParseParam([]) == None;
    } else {
      assert t + rest == t + [';'] + rest[1..] && rest == [';'] + rest[1..];
      SplitConcat(t, ';', rest[1..]);
      ParseParamsConcat([t], Split(rest[1..], ';'));
      SplitLeading(rest[1..]);
    }
  }

  /** Splitting written parameters at the semicolons and parsing every piece gives the list back. */
  lemma {:induction false} ParamsRoundTrip(ps: seq<Param>)
    requires AllCanonical(ps)
    ensures ParseParams(Split(ParamsText(ps), ';')) == ps
  {
    if ps == [] {
      assert Split([], ';') == [[]] && ParseParam([]) == None;
    } else {
      ParamsRoundTrip(ps[1..]);
      FirstParam(ps[0], ParamsText(ps[1..]));
      assert ps == [ps[0]] + ps[1..];
    }
  }

  lemma FirstParam(p: Param, rest: string)
    requires Canonical(p) && (rest == [] || rest[0] == ';')
    ensures ParseParams(Split([';'] + ParamText(p) + rest, ';')) == [p] + ParseParams(Split(rest, ';'))
  {
    var t := ParamText(p);
    ParamRoundTrip(p);
    assert ParseParams([t]) == [p];
    hide Split, ParseParams, ParseParam, ParamText, Canonical;
    assert [';'] + t + rest == [';'] + (t + rest);
    SplitLeading(t + rest);
    SplitFirst(t, rest);
  }

  lemma {:induction false} ParamsTextTrimmed(ps: seq<Param>)
    requires AllCanonical(ps)
    ensures Trimmed(ParamsText(ps))
  {
    if ps != [] {
      var t := ParamText(ps[0]);
      var rest := ParamsText(ps[1..]);
      ParamRoundTrip(ps[0]);
      ParamsTextTrimmed(ps[1..]);
      var all := [';'] + t + rest;
      assert all[|all| - 1] == if rest == [] then t[|t| - 1] else rest[|rest| - 1];
    }
  }

  // ---------------------------------------------------------------- identifiers

  /** The value of the last `name="value"` among the parameters, or the empty string. */
  function LastValue(ps: seq<Param>, name: string): (r: string) {
    if ps == [] then ""
    else
      var p := ps[|ps| - 1];
      if p.Assign? && p.name == name then p.value else LastValue(ps[..|ps| - 1], name)
  }

  /** What a name and its parameters mean. */
  function Meaning(name: string, ps: seq<Param>): (c: Component) {
    Component(name, LastValue(ps, "key"), LastValue(ps, "name"),
              Flag("sf") in ps, Flag("bs") in ps, Flag("req") in ps, Flag("tr") in ps,
              Quoted(name) + ParamsText(ps))
  }

  /** One more parameter sets at most one field and is written at the end. */
  function Apply(c: Component, p: Param): (r: Component) {
    Component(c.name,
              if p.Assign? && p.name == "key" then p.value else c.key,
              if p.Assign? && p.name == "name" then p.value else c.nameParam,
              c.sf || p == Flag("sf"), c.bs || p == Flag("bs"), c.req || p == Flag("req"), c.tr || p == Flag("tr"),
              c.serialized + [';'] + ParamText(p))
  }

  lemma MeaningAppend(name: string, ps: seq<Param>, p: Param)
    ensures Meaning(name, ps + [p]) == Apply(Meaning(name, ps), p)
  {
    SerializedAppend(name, ps, p);
    LastValueAppend(ps, p, "key");
    LastValueAppend(ps, p, "name");
    FlagAppend(ps, p, "sf");
    FlagAppend(ps, p, "bs");
    FlagAppend(ps, p, "req");
    FlagAppend(ps, p, "tr");
  }

  lemma SerializedAppend(name: string, ps: seq<Param>, p: Param)
    ensures Quoted(name) + ParamsText(ps + [p]) == Quoted(name) + ParamsText(ps) + [';'] + ParamText(p)
  {
    ParamsTextAppend(ps, p);
  }

  lemma LastValueAppend(ps: seq<Param>, p: Param, name: string)
    ensures LastValue(ps + [p], name) == if p.Assign? && p.name == name then p.value else LastValue(ps, name)
  {
    assert (ps + [p])[..|ps|] == ps;
  }

  lemma FlagAppend(ps: seq<Param>, p: Param, name: string)
    ensures Flag(name) in ps + [p] <==> Flag(name) in ps || p == Flag(name)
  {
  }

  /** The name and the parameter text of a trimmed non-empty identifier; None if a quote is left open. */
  function Cut(s: string): (r: Option<(string, string)>)
    requires s != ""
  {
    if s[0] == '"' then
      var end := IndexOf(s[1..], '"');
      if end < 0 then None else Some((s[1..end + 1], TrimSpace(s[end + 2..])))
    else
      var semi := IndexOf(s, ';');
      if semi < 0 then Some((s, "")) else Some((TrimSpace(s[..semi]), TrimSpace(s[semi..])))
  }

  function Parse(raw: string): (r: Result<Component, Error>) {
    var s := TrimSpace(raw);
    if s == "" then Err(MissingComponent)
    else
      match Cut(s)
      case None => Err(InvalidField)
      case Some((name, remainder)) =>
        var c := Meaning(Lower(name), ParseParams(Split(remainder, ';')));
        if c.bs && (c.sf || c.key != "") then Err(InvalidField) else Ok(c)
  }

  /** The name part and the parameters of a trimmed identifier. */
  method CutIdentifier(s: string) returns (r: Option<(string, string)>)
    requires s != ""
    ensures r == Cut(s)
  {
    hide TrimSpace, IndexOf;
    if s[0] == '"' {
      var endIdx := IndexOf(s[1..], '"');
      if endIdx == -1 {
        return None;
      }
      return Some((s[1..endIdx + 1], TrimSpace(s[endIdx + 2..])));
    }
    var semicolon := IndexOf(s, ';');
    if semicolon != -1 {
      return Some((TrimSpace(s[..semicolon]), TrimSpace(s[semicolon..])));
    }
    return Some((s, ""));
  }

  method ParseComponentIdentifier(raw: string) returns (r: Result<Component, Error>)
    ensures r == Parse(raw)
  {
    hide TrimSpace, Cut, Split, ParseParam, Lower, Apply;
    var s := TrimSpace(raw);
    if s == "" {
      return Err(MissingComponent);
    }
    var cut := CutIdentifier(s);
    if cut.None? {
      return Err(InvalidField);
    }
    var name := Lower(cut.value.0);
    var comp := Component(name, "", "", false, false, false, false, Quoted(name));
    var parts := Split(cut.value.1, ';');
    for i := 0 to |parts|
      invariant comp == Meaning(name, ParseParams(parts[..i]))
    {
      AnotherPiece(name, parts, i);
      var p := ParseParam(parts[i]);
      if p.Some? {
        comp := Apply(comp, p.value);
      }
    }
    assert parts[..|parts|] == parts;
    if comp.bs && (comp.sf || comp.key != "") {
      return Err(InvalidField);
    }
    return Ok(comp);
  }

  lemma AnotherPiece(name: string, parts: seq<string>, i: nat)
    requires i < |parts|
    ensures Meaning(name, ParseParams(parts[..i + 1])) ==
            match ParseParam(parts[i])
            case None => Meaning(name, ParseParams(parts[..i]))
            case Some(p) => Apply(Meaning(name, ParseParams(parts[..i])), p)
  {
    assert parts[..i + 1] == parts[..i] + [parts[i]];
    ParseParamsConcat(parts[..i], [parts[i]]);
    var p := ParseParam(parts[i]);
    if p.Some? {
      assert ParseParams([parts[i]]) == [p.value];
      MeaningAppend(name, ParseParams(parts[..i]), p.value);
    } else {
      assert ParseParams([parts[i]]) == [];
      assert ParseParams(parts[..i]) + [] == ParseParams(parts[..i]);
    }
  }

  // ---------------------------------------------------------------- the normal form

  /** The shape of every successfully parsed identifier. */
  lemma ParseShape(raw: string, c: Component) returns (ps: seq<Param>)
    requires Parse(raw) == Ok(c)
    ensures AllCanonical(ps) && c == Meaning(c.name, ps) && Lower(c.name) == c.name
  {
    var (name, remainder) := Cut(TrimSpace(raw)).value;
    ps := ParseParams(Split(remainder, ';'));
    SplitPieces(remainder, ';');
    ParseParamsAreCanonical(Split(remainder, ';'));
    LowerIdempotent(name);
  }

  lemma SerializedIsTrimmed(name: string, ps: seq<Param>)
    requires AllCanonical(ps)
    ensures var s := Quoted(name) + ParamsText(ps); Trimmed(s) && TrimSpace(s) == s
  {
    ParamsTextTrimmed(ps);
    var t := ParamsText(ps);
    var s := Quoted(name) + t;
    assert s[|s| - 1] == if t == [] then '"' else t[|t| - 1];
    TrimSpaceProperties(s);
  }

  /** Cutting a quoted name off what follows it. */
  lemma CutQuoted(name: string, t: string)
    requires '"' !in name && Trimmed(t)
    ensures Cut(Quoted(name) + t) == Some((name, t))
  {
    var s := Quoted(name) + t;
    assert s[1..] == name + ['"'] + t;
    IndexOfAfter(name, '"', t);
    assert s[1..|name| + 1] == name && s[|name| + 2..] == t;
    TrimSpaceProperties(t);
  }

  lemma CutAtFirstQuote(name: string, t: string)
    requires '"' in name
    ensures var cut := Cut(Quoted(name) + t); cut.Some? && |cut.value.0| < |name|
  {
    var s := Quoted(name) + t;
    var i := IndexOf(name, '"');
    assert s[1..] == name + ['"'] + t;
    assert s[1..][..i] == name[..i];
    IndexOfAt(s[1..], '"', i);
  }

  /** Reading a serialized identifier back gives the same component, exactly when its name has no quote. */
  lemma ReparseIff(raw: string, c: Component)
    requires Parse(raw) == Ok(c)
    ensures Parse(c.serialized) == Ok(c) <==> '"' !in c.name
  {
    var ps := ParseShape(raw, c);
    SerializedIsTrimmed(c.name, ps);
    if '"' !in c.name {
      ParamsTextTrimmed(ps);
      CutQuoted(c.name, ParamsText(ps));
      ParamsRoundTrip(ps);
    } else {
      CutAtFirstQuote(c.name, ParamsText(ps));
    }
  }

  /** A written identifier parses to what its name and its parameters mean. */
  lemma WrittenParses(name: string, ps: seq<Param>)
    requires '"' !in name && Lower(name) == name && AllCanonical(ps) && Flag("bs") !in ps
    ensures Parse(Quoted(name) + ParamsText(ps)) == Ok(Meaning(name, ps))
  {
    hide Parse;
    var s := Quoted(name) + ParamsText(ps);
    SerializedIsTrimmed(name, ps);
    ParamsTextTrimmed(ps);
    CutQuoted(name, ParamsText(ps));
    ParamsRoundTrip(ps);
    ParseOf(s);
  }

  // ---------------------------------------------------------------- what the serialized form determines

  /** A parsed name does not start with a quote, and it has no quote at all if it has a semicolon. */
  lemma NameShape(raw: string, c: Component)
    requires Parse(raw) == Ok(c)
    ensures c.name != "" ==> c.name[0] != '"'
    ensures ';' in c.name ==> '"' !in c.name
  {
    var s := TrimSpace(raw);
    var (name, remainder) := Cut(s).value;
    LowerKeeps(name, ';');
    LowerKeeps(name, '"');
    if s[0] != '"' {
      var semi := IndexOf(s, ';');
      if semi >= 0 {
        TrimSpaceProperties(raw);
        TrimSpaceKeeps(s[..semi], ';');
        FirstKept(s[..semi]);
      }
    }
  }

  /** Trimming text whose first character is not white space keeps that character. */
  lemma FirstKept(s: string)
    requires s != "" ==> !IsSpace(s[0])
    ensures TrimSpace(s) != "" ==> TrimSpace(s)[0] == s[0]
  {
    TrimRightProperties(s);
  }

  /** Two identifiers with the same serialized form have the same name, and so the same parameter text. */
  lemma SerializedDetermines(name: string, ps: seq<Param>, other: string, qs: seq<Param>)
    requires ';' in name ==> '"' !in name
    requires ';' in other ==> '"' !in other
    requires Quoted(name) + ParamsText(ps) == Quoted(other) + ParamsText(qs)
    ensures name == other && ParamsText(ps) == ParamsText(qs)
  {
    if |name| < |other| {
      ShorterName(name, ParamsText(ps), other, ParamsText(qs));
    } else if |other| < |name| {
      ShorterName(other, ParamsText(qs), name, ParamsText(ps));
    } else {
      var s := Quoted(name) + ParamsText(ps);
      assert name == s[1..|name| + 1] && other == s[1..|other| + 1];
      assert ParamsText(ps) == s[|name| + 2..] && ParamsText(qs) == s[|other| + 2..];
    }
  }

  /** The name cannot end earlier in one reading than in the other. */
  lemma ShorterName(name: string, t: string, other: string, u: string)
    requires ';' in other ==> '"' !in other
    requires t != "" ==> t[0] == ';'
    requires |name| < |other|
    ensures Quoted(name) + t != Quoted(other) + u
  {
    var s, r := Quoted(name) + t, Quoted(other) + u;
    assert s[|name| + 1] == '"' && r[|name| + 1] == other[|name|];
    if other[|name|] == '"' && t != "" {
      assert s[|name| + 2] == ';';
      assert r[|name| + 2] == if |name| + 1 < |other| then other[|name| + 1] else '"';
      assert s[|name| + 2] != r[|name| + 2];
    }
  }

  /** Any identifier can be given one more parameter: only its text changes. */
  lemma OneMoreParam(raw: string, c: Component)
    requires Parse(raw) == Ok(c)
    ensures Parse(TrimSpace(raw) + EXTRA) == Ok(Apply(c, Flag("zz")))
  {
    hide *;
    var s := TrimSpace(raw);
    var t := s + EXTRA;
    TrimSpaceProperties(raw);
    ParseOf(raw);
    ExtraTrimmed(s);
    CutMore(s, EXTRA);
    PiecesMore(Cut(s).value.1);
    MeaningAppend(Lower(Cut(s).value.0), ParseParams(Split(Cut(s).value.1, ';')), Flag("zz"));
    ParseOf(t);
    NotRead(c);
  }

  const EXTRA := ";zz"

  lemma ExtraTrimmed(s: string)
    requires s != "" && Trimmed(s)
    ensures EXTRA != "" && Trimmed(EXTRA) && EXTRA[0] == ';'
    ensures s + EXTRA != "" && TrimSpace(s + EXTRA) == s + EXTRA
  {
    var t := s + EXTRA;
    assert t[0] == s[0] && t[|t| - 1] == 'z';
    TrimSpaceProperties(t);
  }

  lemma PiecesMore(r: string)
    ensures ParseParams(Split(r + EXTRA, ';')) == ParseParams(Split(r, ';')) + [Flag("zz")]
  {
    hide Split, ParseParams;
    SplitConcat(r, ';', "zz");
    assert r + [';'] + "zz" == r + EXTRA;
    ParseParamsConcat(Split(r, ';'), Split("zz", ';'));
    ExtraPiece();
  }

  lemma ParseOf(raw: string)
    ensures Parse(raw).Ok? ==> TrimSpace(raw) != "" && Cut(TrimSpace(raw)).Some?
    ensures var s := TrimSpace(raw);
            s != "" && Cut(s).Some? ==>
              var c := Meaning(Lower(Cut(s).value.0), ParseParams(Split(Cut(s).value.1, ';')));
              Parse(raw) == if c.bs && (c.sf || c.key != "") then Err(InvalidField) else Ok(c)
  {
  }

  lemma NotRead(c: Component)
    ensures var d := Apply(c, Flag("zz")); d.bs == c.bs && d.sf == c.sf && d.key == c.key
  {
    assert "zz"[0] == 'z' && "bs"[0] == 'b' && "sf"[0] == 's';
  }

  lemma ExtraPiece()
    ensures ParseParams(Split("zz", ';')) == [Flag("zz")]
  {
    assert ';' !in "zz" && '=' !in "zz";
    TrimSpaceProperties("zz");
    assert Split("zz", ';') == ["zz"];
    assert Lower("zz") == "zz";
  }

  /** Cutting a trimmed identifier with a parameter added: the same name, and the parameter behind the others. */
  lemma CutMore(s: string, more: string)
    requires s != "" && Trimmed(s) && Cut(s).Some?
    requires more != "" && Trimmed(more) && more[0] == ';'
    ensures Cut(s + more) == Some((Cut(s).value.0, Cut(s).value.1 + more))
  {
    hide IndexOf, TrimSpace;
    if s[0] == '"' {
      QuotedMore(s, more);
    } else {
      PlainMore(s, more);
    }
  }

  lemma QuotedMore(s: string, more: string)
    requires s != "" && Trimmed(s) && s[0] == '"' && Cut(s).Some?
    requires more != "" && Trimmed(more)
    ensures Cut(s + more) == Some((Cut(s).value.0, Cut(s).value.1 + more))
  {
    hide IndexOf, TrimSpace;
    var t := s + more;
    var end := IndexOf(s[1..], '"');
    assert t[1..] == s[1..] + more;
    assert t[1..][..end] == s[1..][..end];
    IndexOfAt(t[1..], '"', end);
    assert t[1..end + 1] == s[1..end + 1];
    assert t[end + 2..] == s[end + 2..] + more;
    TrimBefore(s[end + 2..], more);
  }

  lemma PlainMore(s: string, more: string)
    requires s != "" && Trimmed(s) && s[0] != '"'
    requires more != "" && Trimmed(more) && more[0] == ';'
    ensures Cut(s + more) == Some((Cut(s).value.0, Cut(s).value.1 + more))
  {
    hide IndexOf, TrimSpace;
    var t := s + more;
    var semi := IndexOf(s, ';');
    if semi < 0 {
      assert t[..|s|] == s && t[|s|..] == more;
      IndexOfAt(t, ';', |s|);
      TrimSpaceProperties(s);
      TrimSpaceProperties(more);
      assert "" + more == more;
    } else {
      assert t[..semi] == s[..semi];
      IndexOfAt(t, ';', semi);
      assert t[semi..] == s[semi..] + more;
      TrimBefore(s[semi..], more);
    }
  }

  /** In front of trimmed text only the left end is trimmed. */
  lemma {:induction false} TrimBefore(x: string, y: string)
    requires y != "" && Trimmed(y) && (x != "" ==> !IsSpace(x[|x| - 1]))
    ensures TrimSpace(x + y) == TrimSpace(x) + y
  {
    if x == "" {
      assert x + y == y;
      TrimSpaceProperties(y);
    } else if IsSpace(x[0]) {
      assert (x + y)[1..] == x[1..] + y;
      TrimBefore(x[1..], y);
    } else {
      TrimSpaceProperties(x);
      TrimSpaceProperties(x + y);
    }
  }
}
