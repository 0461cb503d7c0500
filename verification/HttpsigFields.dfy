/** What the signature base says about a message (auth/httpsig/base.go): the value of a header component in terms of the
    header lines, where each component is read from, the exact text of the base and when there is one, and what equal
    bases say about the headers. */
module FieldValues {
  import opened Text
  import opened Components
  import opened SignatureParameters
  import opened Dictionary
  import opened SignatureBase
  import opened SignVerify

  // ---------------------------------------------------------------- one header value

  /** Nothing to trim and no line break. */
  predicate CleanText(v: string) {
    Trimmed(v) && '\r' !in v && '\n' !in v
  }

  lemma {:induction false} ReplacePlain(line: string, rest: string)
    requires '\r' !in line
    ensures ReplaceCrLf(line + rest) == line + ReplaceCrLf(rest)
  {
    if line == [] {
      assert line + rest == rest;
    } else {
      assert line[0] in line;
      assert (line + rest)[1..] == line[1..] + rest;
      ReplacePlain(line[1..], rest);
    }
  }

  lemma BlankConcat(a: string, b: string)
    ensures BlankBreaks(a + b) == BlankBreaks(a) + BlankBreaks(b)
  {
  }

  lemma BlankPlain(line: string)
    requires '\r' !in line && '\n' !in line
    ensures BlankBreaks(line) == line
  {
    assert forall i :: 0 <= i < |line| ==> line[i] in line;
  }

  /** A clean value is kept as it is. */
  lemma CleanKeepsClean(v: string)
    requires CleanText(v)
    ensures CleanHeaderValue(v) == v
  {
    TrimSpaceProperties(v);
    ReplacePlain(v, []);
    assert v + [] == v && ReplaceCrLf([]) == [];
    BlankPlain(v);
  }

  predicate IsBreak(b: string) {
    b == ['\r', '\n'] || b == ['\r'] || b == ['\n']
  }

  /** A value that goes over several lines, with the breaks between them. */
  function Folded(lines: seq<string>, breaks: seq<string>): (r: string)
    requires |lines| == |breaks| + 1
  {
    if breaks == [] then lines[0] else lines[0] + (breaks[0] + Folded(lines[1..], breaks[1..]))
  }

  /** The lines hold no break, and no two breaks in a row would be read as one. */
  predicate Readable(lines: seq<string>, breaks: seq<string>)
    requires |lines| == |breaks| + 1
  {
    && (forall i :: 0 <= i < |lines| ==> '\r' !in lines[i] && '\n' !in lines[i])
    && (forall i :: 0 <= i < |breaks| ==> IsBreak(breaks[i]))
    && (forall i :: 0 <= i < |breaks| - 1 ==> !(breaks[i] == ['\r'] && lines[i + 1] == [] && breaks[i + 1] == ['\n']))
  }

  lemma ReplaceBreak(b: string, rest: string)
    requires IsBreak(b) && (b == ['\r'] ==> rest == [] || rest[0] != '\n')
    ensures BlankBreaks(ReplaceCrLf(b + rest)) == [' '] + BlankBreaks(ReplaceCrLf(rest))
  {
    var c := BreakBecomesOne(b, rest);
    hide ReplaceCrLf;
    BlankConcat([c], ReplaceCrLf(rest));
    assert BlankBreaks([c]) == [' '] by {
      assert [c][1..] == [];
    }
  }

  /** A break is one carriage return or line feed once CRLF has been replaced. */
  lemma BreakBecomesOne(b: string, rest: string) returns (c: char)
    requires IsBreak(b) && (b == ['\r'] ==> rest == [] || rest[0] != '\n')
    ensures (c == '\r' || c == '\n' || c == ' ') && ReplaceCrLf(b + rest) == [c] + ReplaceCrLf(rest)
  {
    var s := b + rest;
    if b == ['\r', '\n'] {
      assert s[0] == '\r' && s[1] == '\n' && s[2..] == rest;
    } else {
      assert s[0] == b[0] && s[1..] == rest && (rest != [] ==> s[1] == rest[0]);
    }
    c := ReplaceCrLf(s)[0];
  }

  lemma FoldedStart(lines: seq<string>, breaks: seq<string>)
    requires |lines| == |breaks| + 1 && Readable(lines, breaks)
    ensures Folded(lines, breaks) != [] && Folded(lines, breaks)[0] == '\n' ==>
              lines[0] == [] && breaks != [] && breaks[0] == ['\n']
  {
    assert '\n' !in lines[0];
    assert breaks != [] ==> IsBreak(breaks[0]);
  }

  lemma {:induction false} FoldedCleaned(lines: seq<string>, breaks: seq<string>)
    requires |lines| == |breaks| + 1 && Readable(lines, breaks)
    ensures BlankBreaks(ReplaceCrLf(Folded(lines, breaks))) == Join(lines, [' '])
  {
    var rest := if breaks == [] then [] else breaks[0] + Folded(lines[1..], breaks[1..]);
    assert '\r' !in lines[0] && '\n' !in lines[0];
    assert Folded(lines, breaks) == lines[0] + rest;
    ReplacePlain(lines[0], rest);
    BlankConcat(lines[0], ReplaceCrLf(rest));
    BlankPlain(lines[0]);
    if breaks != [] {
      ReadableRest(lines, breaks);
      FoldedCleaned(lines[1..], breaks[1..]);
      FoldedStart(lines[1..], breaks[1..]);
      assert IsBreak(breaks[0]);
      assert breaks[0] == ['\r'] && |breaks| > 1 ==> !(lines[1] == [] && breaks[1] == ['\n']);
      ReplaceBreak(breaks[0], Folded(lines[1..], breaks[1..]));
      assert lines[0] + ([' '] + Join(lines[1..], [' '])) == lines[0] + [' '] + Join(lines[1..], [' ']);
    } else {
      assert lines[0] + [] == lines[0];
    }
  }

  lemma ReadableRest(lines: seq<string>, breaks: seq<string>)
    requires |lines| == |breaks| + 1 && Readable(lines, breaks) && breaks != []
    ensures Readable(lines[1..], breaks[1..])
  {
    forall i | 0 <= i < |breaks[1..]| - 1
      ensures !(breaks[1..][i] == ['\r'] && lines[1..][i + 1] == [] && breaks[1..][i + 1] == ['\n'])
    {
      assert breaks[1..][i] == breaks[i + 1] && breaks[1..][i + 1] == breaks[i + 2];
      assert lines[1..][i + 1] == lines[i + 2];
    }
  }

  /** Each line break inside a value, of whatever kind, becomes one space. */
  lemma FoldedValue(lines: seq<string>, breaks: seq<string>)
    requires |lines| == |breaks| + 1 && Readable(lines, breaks) && Trimmed(Folded(lines, breaks))
    ensures CleanHeaderValue(Folded(lines, breaks)) == Join(lines, [' '])
  {
    hide Folded, Readable;
    TrimSpaceProperties(Folded(lines, breaks));
    FoldedCleaned(lines, breaks);
  }

  // ---------------------------------------------------------------- one component

  /** A header component without parameters that change its value. */
  predicate Plain(c: Component) {
    !c.bs && c.key == ""
  }

  /** The value of a plain header is all its values in order, each cleaned, separated by a comma and a space. */
  lemma PlainFieldValue(codec: Codec, fields: Fields, c: Component, texts: seq<string>)
    requires Plain(c) && c.name in fields && |texts| == |fields[c.name]| > 0
    requires forall i :: 0 <= i < |texts| ==> CleanHeaderValue(fields[c.name][i]) == texts[i]
    ensures FieldValue(codec, fields, c) == Ok(Join(texts, ", "))
  {
    hide CleanHeaderValue;
    assert CleanAll(fields[c.name]) == texts;
  }

  /** With clean values that is the header as it is sent in one line. */
  lemma CleanFieldValue(codec: Codec, fields: Fields, c: Component)
    requires Plain(c) && c.name in fields && fields[c.name] != []
    requires forall i :: 0 <= i < |fields[c.name]| ==> CleanText(fields[c.name][i])
    ensures FieldValue(codec, fields, c) == Ok(Join(fields[c.name], ", "))
  {
    hide FieldValue, CleanText;
    forall i | 0 <= i < |fields[c.name]|
      ensures CleanHeaderValue(fields[c.name][i]) == fields[c.name][i]
    {
      CleanKeepsClean(fields[c.name][i]);
    }
    PlainFieldValue(codec, fields, c, fields[c.name]);
  }

  /** Two values: changing or dropping the second one shows. */
  lemma TwoValues(codec: Codec, c: Component)
    requires Plain(c) && c.name == "x-a"
    ensures FieldValue(codec, map["x-a" := ["a", "b"]], c) == Ok("a, b")
  {
    hide FieldValue;
    var fields := map["x-a" := ["a", "b"]];
    assert CleanText("a") && CleanText("b");
    CleanFieldValue(codec, fields, c);
    assert ["a", "b"][1..] == ["b"];
    assert "a" + ", " + "b" == "a, b";
  }

  /** The byte-sequence form encodes each cleaned value between colons. */
  lemma WrappedFieldValue(codec: Codec, fields: Fields, c: Component, wrapped: seq<string>)
    requires c.bs && c.name in fields && |wrapped| == |fields[c.name]| > 0
    requires forall i :: 0 <= i < |wrapped| ==>
               wrapped[i] == [':'] + codec.encode(CleanHeaderValue(fields[c.name][i])) + [':']
    ensures FieldValue(codec, fields, c) == Ok(Join(wrapped, ", "))
  {
    hide CleanHeaderValue;
    assert WrapAll(codec, fields[c.name]) == wrapped;
  }

  /** A header is missing exactly if it has no value. */
  lemma FieldMissingIff(codec: Codec, fields: Fields, c: Component)
    requires c.bs || c.key == ""
    ensures FieldValue(codec, fields, c).Err? <==> c.name !in fields || fields[c.name] == []
  {
  }

  /** Where a header component is read: from the message or, with `req`, from the request it answers, and from the
      headers or, with `tr`, from the trailers. */
  lemma ComponentSource(codec: Codec, m: Message, c: Component)
    requires !IsDerived(c)
    ensures !c.req && !c.tr ==> CoveredValue(codec, m, c) == FieldValue(codec, m.headers, c)
    ensures !c.req && c.tr ==> CoveredValue(codec, m, c) == FieldValue(codec, m.trailers, c)
    ensures c.req && m.isResponse && m.related.Some? && !c.tr ==>
              CoveredValue(codec, m, c) == FieldValue(codec, m.related.value.headers, c)
    ensures c.req && m.isResponse && m.related.Some? && c.tr ==>
              CoveredValue(codec, m, c) == FieldValue(codec, m.related.value.trailers, c)
    ensures c.req && (!m.isResponse || m.related.None?) ==> CoveredValue(codec, m, c).Err?
  {
    hide FieldValue;
  }

  /** A derived component stands for its own entry, and a query parameter for the one of its name. */
  lemma DerivedSource(codec: Codec, m: Message, c: Component, v: string)
    requires IsDerived(c) && !c.req
    ensures c.name != "@query-param" ==>
              (CoveredValue(codec, m, c) == Ok(v) <==> (c.name, "") in m.derived && m.derived[(c.name, "")] == v)
    ensures c.name == "@query-param" ==>
              (CoveredValue(codec, m, c) == Ok(v) <==>
               (c.name, c.nameParam) in m.derived && m.derived[(c.name, c.nameParam)] == v)
  {
  }

  // ---------------------------------------------------------------- the text of the base

  /** The covered components as they are written: no identifier fails, none is written twice, each has a value. */
  predicate Covers(codec: Codec, m: Message, parsed: seq<Result<Component, Error>>, values: seq<string>) {
    && |values| == |parsed|
    && (forall i :: 0 <= i < |parsed| ==> parsed[i].Ok? && CoveredValue(codec, m, parsed[i].value) == Ok(values[i]))
    && (forall i, j :: 0 <= i < j < |parsed| ==> parsed[i].value.serialized != parsed[j].value.serialized)
  }

  /** Identifier, colon, space, value and line break, component by component. */
  function LinesText(parsed: seq<Result<Component, Error>>, values: seq<string>): (r: string)
    requires |values| == |parsed| && forall i :: 0 <= i < |parsed| ==> parsed[i].Ok?
  {
    if parsed == [] then []
    else parsed[0].value.serialized + ": " + values[0] + "\n" + LinesText(parsed[1..], values[1..])
  }

  predicate Unseen(parsed: seq<Result<Component, Error>>, seen: set<string>) {
    forall i :: 0 <= i < |parsed| && parsed[i].Ok? ==> parsed[i].value.serialized !in seen
  }

  lemma CoversRest(
    codec: Codec, m: Message, parsed: seq<Result<Component, Error>>, values: seq<string>, seen: set<string>)
    requires parsed != [] && Covers(codec, m, parsed, values) && Unseen(parsed, seen)
    ensures Covers(codec, m, parsed[1..], values[1..])
    ensures Unseen(parsed[1..], seen + {parsed[0].value.serialized})
  {
    hide CoveredValue;
    var rest := parsed[1..];
    assert forall i :: 0 <= i < |rest| ==> rest[i] == parsed[i + 1] && values[1..][i] == values[i + 1];
  }

  lemma {:induction false} LinesExact(
    codec: Codec, m: Message, parsed: seq<Result<Component, Error>>, values: seq<string>, seen: set<string>)
    requires Covers(codec, m, parsed, values) && Unseen(parsed, seen)
    ensures Lines(codec, m, parsed, seen) == Ok(LinesText(parsed, values))
    decreases |parsed|
  {
    if parsed != [] {
      hide CoveredValue, Covers, Unseen;
      CoversRest(codec, m, parsed, values, seen);
      CoversFirst(codec, m, parsed, values, seen);
      var c := parsed[0].value;
      LinesExact(codec, m, parsed[1..], values[1..], seen + {c.serialized});
      LineText(c.serialized, values[0], LinesText(parsed[1..], values[1..]));
    }
  }

  lemma CoversFirst(
    codec: Codec, m: Message, parsed: seq<Result<Component, Error>>, values: seq<string>, seen: set<string>)
    requires parsed != [] && Covers(codec, m, parsed, values) && Unseen(parsed, seen)
    ensures parsed[0].Ok? && CoveredValue(codec, m, parsed[0].value) == Ok(values[0])
    ensures parsed[0].value.serialized !in seen
  {
  }

  lemma LineText(serialized: string, v: string, rest: string)
    ensures Line(serialized, v) + rest == serialized + ": " + v + "\n" + rest
  {
    assert ": " == [':', ' '] && "\n" == ['\n'];
  }

  lemma {:induction false} LinesNeedValues(
    codec: Codec, m: Message, parsed: seq<Result<Component, Error>>, seen: set<string>) returns (values: seq<string>)
    requires Lines(codec, m, parsed, seen).Ok?
    ensures Covers(codec, m, parsed, values) && Unseen(parsed, seen)
    decreases |parsed|
  {
    if parsed == [] {
      values := [];
    } else {
      var c := parsed[0].value;
      var v := CoveredValue(codec, m, c).value;
      var more := seen + {c.serialized};
      var rest := LinesNeedValues(codec, m, parsed[1..], more);
      values := [v] + rest;
      hide CoveredValue, Lines;
      CoversMore(codec, m, parsed, v, rest, seen);
    }
  }

  lemma CoversMore(
    codec: Codec, m: Message, parsed: seq<Result<Component, Error>>, v: string, rest: seq<string>, seen: set<string>)
    requires parsed != [] && parsed[0].Ok? && CoveredValue(codec, m, parsed[0].value) == Ok(v)
    requires parsed[0].value.serialized !in seen
    requires Covers(codec, m, parsed[1..], rest) && Unseen(parsed[1..], seen + {parsed[0].value.serialized})
    ensures Covers(codec, m, parsed, [v] + rest) && Unseen(parsed, seen)
  {
    hide CoveredValue;
    var tail := parsed[1..];
    assert forall i :: 1 <= i < |parsed| ==> parsed[i] == tail[i - 1] && ([v] + rest)[i] == rest[i - 1];
  }

  function Forms(parsed: seq<Result<Component, Error>>): (r: seq<string>)
    requires forall i :: 0 <= i < |parsed| ==> parsed[i].Ok?
    ensures |r| == |parsed| && forall i :: 0 <= i < |parsed| ==> r[i] == parsed[i].value.serialized
  {
    seq(|parsed|, i requires 0 <= i < |parsed| => parsed[i].value.serialized)
  }

  lemma SerializeForms(p: Params)
    requires forall i :: 0 <= i < |p.components| ==> Parse(p.components[i]).Ok?
    ensures Serialize(p) == Ok(Written(Forms(ParseAll(p.components)), p))
  {
    hide Parse, Written;
    CollectAll(SerializedForm, p.components, Forms(ParseAll(p.components)));
  }

  function BaseText(p: Params, values: seq<string>): (r: string)
    requires |values| == |p.components| && forall i :: 0 <= i < |p.components| ==> Parse(p.components[i]).Ok?
  {
    LinesText(ParseAll(p.components), values) + "\"@signature-params\": " + Written(Forms(ParseAll(p.components)), p)
  }

  /** There is a base exactly if every identifier parses, none occurs twice, every component has a value, and the whole
      text is ASCII; it is then the lines of the components and the line of the parameters. */
  lemma BaseExact(codec: Codec, m: Message, p: Params, values: seq<string>)
    requires Covers(codec, m, ParseAll(p.components), values)
    ensures Base(codec, m, p).Ok? <==> Ascii(BaseText(p, values))
    ensures Base(codec, m, p).Ok? ==> Base(codec, m, p) == Ok(BaseText(p, values))
  {
    var parsed := ParseAll(p.components);
    CoversParses(codec, m, p, values);
    hide Parse, CoveredValue, Covers, Lines, LinesText, Serialize, Written, Ascii;
    LinesExact(codec, m, parsed, values, {});
    SerializeForms(p);
  }

  lemma CoversParses(codec: Codec, m: Message, p: Params, values: seq<string>)
    requires Covers(codec, m, ParseAll(p.components), values)
    ensures |values| == |p.components| && forall i :: 0 <= i < |p.components| ==> Parse(p.components[i]).Ok?
    ensures Unseen(ParseAll(p.components), {})
  {
    hide Parse, CoveredValue;
    forall i | 0 <= i < |p.components|
      ensures Parse(p.components[i]).Ok?
    {
      assert ParseAll(p.components)[i].Ok?;
    }
  }

  lemma BaseNeedsValues(codec: Codec, m: Message, p: Params) returns (values: seq<string>)
    requires Base(codec, m, p).Ok?
    ensures Covers(codec, m, ParseAll(p.components), values)
  {
    hide Lines, Serialize, Covers;
    values := LinesNeedValues(codec, m, ParseAll(p.components), {});
  }

  /** Signing succeeds exactly if there is a base and the key signs it. */
  lemma SignSucceedsIff(s: Scheme, m: Message, cfg: SignConfig)
    ensures var base := Base(s.codec, m, ParamsOf(s, m, cfg));
            Sign(s, m, cfg).Ok? <==> base.Ok? && s.sign(base.value).Some?
  {
    var p := ParamsOf(s, m, cfg);
    if Base(s.codec, m, p).Ok? {
      var values := BaseNeedsValues(s.codec, m, p);
      CoversParses(s.codec, m, p, values);
      hide Base, Serialize, Parse, Covers;
      SerializeForms(p);
    }
  }

  // ---------------------------------------------------------------- what equal bases say about the headers

  /** A header of the message itself, covered without a parameter that changes where or how it is read. */
  predicate OwnHeader(c: Component) {
    !IsDerived(c) && !c.req && !c.tr
  }

  lemma PlainValueIs(codec: Codec, m: Message, c: Component)
    requires OwnHeader(c) && Plain(c) && CoveredValue(codec, m, c).Ok?
    ensures c.name in m.headers && m.headers[c.name] != []
    ensures CoveredValue(codec, m, c) == Ok(Join(CleanAll(m.headers[c.name]), ", "))
  {
    ComponentSource(codec, m, c);
    FieldMissingIff(codec, m.headers, c);
    hide CoveredValue;
    PlainFieldValue(codec, m.headers, c, CleanAll(m.headers[c.name]));
  }

  /** Equal bases, for fixed parameters: every plain covered header has the same text in both messages, all its values
      joined. Here `j` is the one component that may have line breaks. */
  lemma HeadersDetermined(codec: Codec, m: Message, n: Message, p: Params, j: int, i: nat)
    requires OneLineExcept(codec, m, ParseAll(p.components), j) && OneLineExcept(codec, n, ParseAll(p.components), j)
    requires Base(codec, m, p).Ok? && Base(codec, m, p) == Base(codec, n, p) && i < |p.components|
    requires Parse(p.components[i]).Ok?
    requires OwnHeader(Parse(p.components[i]).value) && Plain(Parse(p.components[i]).value)
    ensures var name := Parse(p.components[i]).value.name;
            && name in m.headers && name in n.headers
            && Join(CleanAll(m.headers[name]), ", ") == Join(CleanAll(n.headers[name]), ", ")
  {
    BaseInjective(codec, m, n, p, j);
    var values := BaseNeedsValues(codec, m, p);
    var c := Parse(p.components[i]).value;
    assert ParseAll(p.components)[i] == Ok(c);
    CoveredOk(codec, m, ParseAll(p.components), values, i);
    hide Base, Parse, CoveredValue, OneLineExcept, ParseAll;
    PlainValueIs(codec, m, c);
    PlainValueIs(codec, n, c);
  }

  lemma CoveredOk(codec: Codec, m: Message, parsed: seq<Result<Component, Error>>, values: seq<string>, i: nat)
    requires Covers(codec, m, parsed, values) && i < |parsed|
    ensures parsed[i].Ok? && CoveredValue(codec, m, parsed[i].value).Ok?
  {
  }

  predicate CleanHeader(m: Message, name: string) {
    name in m.headers ==> forall k :: 0 <= k < |m.headers[name]| ==> CleanText(m.headers[name][k])
  }

  /** With clean values in both messages it is the header lines themselves that agree. */
  lemma CleanHeadersDetermined(codec: Codec, m: Message, n: Message, p: Params, j: int, i: nat)
    requires OneLineExcept(codec, m, ParseAll(p.components), j) && OneLineExcept(codec, n, ParseAll(p.components), j)
    requires Base(codec, m, p).Ok? && Base(codec, m, p) == Base(codec, n, p) && i < |p.components|
    requires Parse(p.components[i]).Ok?
    requires OwnHeader(Parse(p.components[i]).value) && Plain(Parse(p.components[i]).value)
    requires CleanHeader(m, Parse(p.components[i]).value.name) && CleanHeader(n, Parse(p.components[i]).value.name)
    ensures var name := Parse(p.components[i]).value.name;
            && name in m.headers && name in n.headers
            && Join(m.headers[name], ", ") == Join(n.headers[name], ", ")
  {
    HeadersDetermined(codec, m, n, p, j, i);
    hide Base, Parse, OneLineExcept, CleanText;
    var name := Parse(p.components[i]).value.name;
    CleanAllKeeps(m.headers[name]);
    CleanAllKeeps(n.headers[name]);
  }

  lemma CleanAllKeeps(values: seq<string>)
    requires forall k :: 0 <= k < |values| ==> CleanText(values[k])
    ensures CleanAll(values) == values
  {
    hide CleanHeaderValue, CleanText;
    forall k | 0 <= k < |values|
      ensures CleanHeaderValue(values[k]) == values[k]
    {
      CleanKeepsClean(values[k]);
    }
  }

  /** Texts without a comma are recovered from their join. */
  lemma {:induction false} JoinInjective(a: seq<string>, b: seq<string>)
    requires a != [] && b != [] && Join(a, ", ") == Join(b, ", ")
    requires (forall i :: 0 <= i < |a| ==> ',' !in a[i]) && forall i :: 0 <= i < |b| ==> ',' !in b[i]
    ensures a == b
  {
    assert ',' !in a[0] && ',' !in b[0];
    JoinParts(a);
    JoinParts(b);
    if |a| > 1 && |b| > 1 {
      var x, y := [' '] + Join(a[1..], ", "), [' '] + Join(b[1..], ", ");
      IndexOfAfter(a[0], ',', x);
      IndexOfAfter(b[0], ',', y);
      var s := Join(a, ", ");
      assert a[0] == s[..|a[0]|] && b[0] == s[..|b[0]|];
      assert x == s[|a[0]| + 1..] && y == s[|b[0]| + 1..];
      assert x[1..] == Join(a[1..], ", ") && y[1..] == Join(b[1..], ", ");
      JoinInjective(a[1..], b[1..]);
      assert a == [a[0]] + a[1..] && b == [b[0]] + b[1..];
    } else {
      assert |a| > 1 ==> ',' in Join(a, ", ");
      assert |b| > 1 ==> ',' in Join(b, ", ");
      assert a == [a[0]] && b == [b[0]];
    }
  }

  lemma JoinParts(a: seq<string>)
    requires a != []
    ensures |a| == 1 ==> Join(a, ", ") == a[0]
    ensures |a| > 1 ==> Join(a, ", ") == a[0] + [','] + ([' '] + Join(a[1..], ", ")) && ',' in Join(a, ", ")
  {
    if |a| > 1 {
      CommaSpace(a[0], Join(a[1..], ", "));
    }
  }

  lemma CommaSpace(a: string, rest: string)
    ensures a + ", " + rest == a + [','] + ([' '] + rest) && ',' in a + ", " + rest
  {
    assert ", " == [',', ' '];
    assert (a + ", " + rest)[|a|] == ',';
  }

  /** The byte-sequence form determines even the list of values. */
  lemma WrappedDetermined(codec: Codec, fields: Fields, others: Fields, c: Component)
    requires GoodCodec(codec) && c.bs && FieldValue(codec, fields, c).Ok?
    requires FieldValue(codec, fields, c) == FieldValue(codec, others, c)
    ensures c.name in fields && c.name in others && CleanAll(fields[c.name]) == CleanAll(others[c.name])
  {
    var a, b := fields[c.name], others[c.name];
    hide CleanHeaderValue, GoodCodec;
    forall v | v in WrapAll(codec, a)
      ensures ',' !in v
    {
      WrappedHasNoComma(codec, a, v);
    }
    forall v | v in WrapAll(codec, b)
      ensures ',' !in v
    {
      WrappedHasNoComma(codec, b, v);
    }
    JoinInjective(WrapAll(codec, a), WrapAll(codec, b));
    assert |a| == |b|;
    forall k | 0 <= k < |a|
      ensures CleanHeaderValue(a[k]) == CleanHeaderValue(b[k])
    {
      assert WrapAll(codec, a)[k] == WrapAll(codec, b)[k];
      UnwrapSame(codec, CleanHeaderValue(a[k]), CleanHeaderValue(b[k]));
    }
  }

  lemma WrappedHasNoComma(codec: Codec, values: seq<string>, v: string)
    requires GoodCodec(codec) && v in WrapAll(codec, values)
    ensures ',' !in v
  {
    hide CleanHeaderValue;
    var k :| 0 <= k < |values| && WrapAll(codec, values)[k] == v;
    assert IsBase64(codec.encode(CleanHeaderValue(values[k])));
  }

  lemma UnwrapSame(codec: Codec, x: string, y: string)
    requires GoodCodec(codec) && ":" + codec.encode(x) + ":" == ":" + codec.encode(y) + ":"
    ensures x == y
  {
    var a, b := codec.encode(x), codec.encode(y);
    var s := ":" + a + ":";
    assert s[1..|s| - 1] == a && s[1..|s| - 1] == b;
    assert codec.decode(a) == Some(x) && codec.decode(b) == Some(y);
  }

  // ---------------------------------------------------------------- what a signature says about its configuration

  /** The components a configuration names, or the defaults for requests and for responses. */
  function Named(m: Message, cfg: SignConfig): (r: seq<string>) {
    if cfg.components != [] then cfg.components
    else if m.isResponse then ["@status"]
    else ["@method", "@authority", "@path"]
  }

  /** The parameters are, field by field, those of the configuration and the key: times that are not positive are left
      out, and the components are the serialized forms of those named. */
  predicate AsConfigured(s: Scheme, m: Message, cfg: SignConfig, p: Params) {
    && p.created == (if cfg.created > 0 then cfg.created else 0)
    && p.expires == (if cfg.expires > 0 then cfg.expires else 0)
    && p.keyID == s.keyID && p.alg == s.alg && p.nonce == cfg.nonce && p.tag == cfg.tag
    && |p.components| == |Named(m, cfg)|
    && forall i :: 0 <= i < |Named(m, cfg)| ==>
         Parse(Named(m, cfg)[i]).Ok? && p.components[i] == Parse(Named(m, cfg)[i]).value.serialized
  }

  /** Nanoseconds of tolerance: the configured ones, or one minute. */
  function Tolerance(policy: VerifyConfig): (r: int) {
    if policy.allowedSkew > 0 then policy.allowedSkew else 60_000_000_000
  }

  predicate Expired(cfg: SignConfig, policy: VerifyConfig) {
    cfg.expires > 0 && policy.now > cfg.expires * 1_000_000_000 + Tolerance(policy)
  }

  predicate FromTheFuture(cfg: SignConfig, policy: VerifyConfig) {
    cfg.created > 0 && cfg.created * 1_000_000_000 > policy.now + Tolerance(policy)
  }

  predicate TooOld(cfg: SignConfig, policy: VerifyConfig) {
    cfg.created > 0 && policy.maxAge > 0
    && policy.now > cfg.created * 1_000_000_000 + policy.maxAge + Tolerance(policy)
  }

  predicate TagFits(cfg: SignConfig, policy: VerifyConfig) {
    policy.requiredTag == "" || policy.requiredTag == cfg.tag
  }

  /** What a policy can hold against a signature that was made with this configuration. */
  predicate Fulfils(m: Message, cfg: SignConfig, policy: VerifyConfig) {
    && TagFits(cfg, policy) && !Expired(cfg, policy) && !FromTheFuture(cfg, policy) && !TooOld(cfg, policy)
    && forall r :: r in policy.required ==> Parse(r).Ok? && NameCovered(Named(m, cfg), r)
  }

  lemma RecordAsConfigured(s: Scheme, m: Message, cfg: SignConfig, r: Record)
    requires GoodConfig(s, m, cfg) && IsRecord(s, m, cfg, r)
    ensures AsConfigured(s, m, cfg, r.params)
    ensures forall q :: NameCovered(r.params.components, q) <==> NameCovered(Named(m, cfg), q)
  {
    var q := ParamsOf(s, m, cfg);
    assert q.components == Named(m, cfg);
    var list := ReparsedList(q.components);
    hide Base, Clean;
    SerializedEach(q.components, list);
    hide Serialized, GoodComponent;
    forall x
      ensures NameCovered(list, x) <==> NameCovered(q.components, x)
    {
      SameNames(list, q.components, x);
    }
  }

  lemma SerializedEach(components: seq<string>, list: seq<string>)
    requires Serialized(components) == Ok(list)
    ensures |list| == |components|
    ensures forall i :: 0 <= i < |components| ==>
              Parse(components[i]).Ok? && list[i] == Parse(components[i]).value.serialized
  {
    hide Parse;
    CollectAt(SerializedForm, components);
  }

  lemma SameNames(a: seq<string>, b: seq<string>, x: string)
    requires ParseAll(a) == ParseAll(b)
    ensures NameCovered(a, x) <==> NameCovered(b, x)
  {
    hide Parse;
    assert |a| == |ParseAll(a)| == |b|;
    forall i | 0 <= i < |a|
      ensures SameName(a[i], x) <==> SameName(b[i], x)
    {
      assert ParseAll(a)[i] == ParseAll(b)[i];
    }
  }

  lemma AdmittedIff(s: Scheme, m: Message, cfg: SignConfig, policy: VerifyConfig, p: Params)
    requires AsConfigured(s, m, cfg, p)
    requires forall q :: NameCovered(p.components, q) <==> NameCovered(Named(m, cfg), q)
    ensures Admitted(s, policy, p) <==> Fulfils(m, cfg, policy)
  {
    hide Parse, NameCovered;
  }

  /** Where a held signature stands, the policy alone decides. */
  lemma HeldDecides(s: Scheme, m: Message, policy: VerifyConfig, r: Record)
    requires GoodScheme(s) && policy.name != "" && policy.name == r.name && Holds(s, m, r) && s.check(r.base, r.sig)
    ensures Verify(s, m, policy) ==
            match CheckPolicy(s, policy, r.params) case Ok(_) => Ok(r.params) case Err(e) => Err(e)
  {
    DecodeOwn(s.codec, r.sig);
    LocatedHeld(s, m, policy, r);
    hide Located, ParseText, DecodeByteSequence, CheckPolicy, Lookup, HasLabel, Members, ByteSequence;
  }

  /** The first thing a policy has against the tag or the times of a configuration. */
  function Objection(cfg: SignConfig, policy: VerifyConfig): (r: Option<Error>) {
    if !TagFits(cfg, policy) then Some(InvalidSignature)
    else if Expired(cfg, policy) then Some(SignatureExpired)
    else if FromTheFuture(cfg, policy) then Some(SignatureInFuture)
    else if TooOld(cfg, policy) then Some(SignatureTooOld)
    else None
  }

  lemma PolicyObjects(s: Scheme, m: Message, cfg: SignConfig, policy: VerifyConfig, p: Params)
    requires AsConfigured(s, m, cfg, p) && Objection(cfg, policy).Some?
    ensures CheckPolicy(s, policy, p) == Err(Objection(cfg, policy).value)
  {
    hide Parse, Covered, CheckRequired;
  }

  /** A signature under a new label, whatever else the message holds: the verifier returns exactly the configured
      parameters, and accepts exactly if the policy has nothing against the configuration. Past its expiry, and the
      tolerance, the signature is refused as expired; the other objections have their own errors. */
  lemma SignedAcceptedIff(s: Scheme, m: Message, cfg: SignConfig, policy: VerifyConfig)
    requires GoodScheme(s) && GoodConfig(s, m, cfg) && BalancedHeaders(m) && Sign(s, m, cfg).Ok?
    requires Fresh(m, NameOf(cfg)) && policy.name == if cfg.name == "" then "sig1" else cfg.name
    ensures var v := Verify(s, WithSignature(m, Sign(s, m, cfg).value), policy);
            && (v.Ok? <==> Fulfils(m, cfg, policy))
            && (v.Ok? ==> AsConfigured(s, m, cfg, v.value))
            && (Objection(cfg, policy).Some? ==> v == Err(Objection(cfg, policy).value))
  {
    assert NameOf(cfg) == policy.name;
    var r := SignEstablishes(s, m, cfg);
    RecordParts(s, m, cfg, r);
    RecordAsConfigured(s, m, cfg, r);
    hide *;
    HeldDecides(s, WithSignature(m, Sign(s, m, cfg).value), policy, r);
    PolicyIff(s, policy, r.params);
    AdmittedIff(s, m, cfg, policy, r.params);
    if Objection(cfg, policy).Some? {
      PolicyObjects(s, m, cfg, policy, r.params);
    }
  }

  lemma RecordParts(s: Scheme, m: Message, cfg: SignConfig, r: Record)
    requires GoodScheme(s) && GoodConfig(s, m, cfg) && IsRecord(s, m, cfg, r)
    ensures r.name == NameOf(cfg) && r.name != "" && s.check(r.base, r.sig)
  {
  }
}
