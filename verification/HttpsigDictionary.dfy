/** The dictionary headers that carry signatures (auth/httpsig/verify.go and sign.go): members are split at top-level
    commas, and a new signature is appended behind the ones already there. */
module Dictionary {
  import opened Text
  import opened Components
  import opened SignatureParameters

  // ---------------------------------------------------------------- the comma scanner

  datatype Scan = Scan(inQuote: bool, inParen: nat, inColon: bool)

  const START := Scan(false, 0, false)

  function Next(st: Scan, ch: char): (r: Scan) {
    if ch == '"' && !st.inColon then st.(inQuote := !st.inQuote)
    else if ch == '(' && !st.inQuote then st.(inParen := st.inParen + 1)
    else if ch == ')' && !st.inQuote && st.inParen > 0 then st.(inParen := st.inParen - 1)
    else if ch == ':' && !st.inQuote then st.(inColon := !st.inColon)
    else st
  }

  /** A comma separates members only outside quotes, parentheses and byte sequences. */
  predicate Breaks(st: Scan, ch: char) {
    ch == ',' && st == START
  }

  function SplitFrom(st: Scan, current: string, s: string): (r: seq<string>)
    decreases |s|
  {
    if s == [] then (if current == [] then [] else [current])
    else if Breaks(st, s[0]) then (if current == [] then [] else [current]) + SplitFrom(st, [], s[1..])
    else SplitFrom(Next(st, s[0]), current + [s[0]], s[1..])
  }

  method SplitHeaderComma(val: string) returns (parts: seq<string>)
    ensures parts == SplitFrom(START, [], val)
  {
    parts := [];
    var current := [];
    var inQuote, inParen: nat, inColon := false, 0, false;
    for i := 0 to |val|
      invariant parts + SplitFrom(Scan(inQuote, inParen, inColon), current, val[i..]) == SplitFrom(START, [], val)
    {
      assert val[i..][1..] == val[i + 1..];
      var ch := val[i];
      if ch == '"' && !inColon {
        inQuote := !inQuote;
        current := current + [ch];
      } else if ch == '(' && !inQuote {
        inParen := inParen + 1;
        current := current + [ch];
      } else if ch == ')' && !inQuote && inParen > 0 {
        inParen := inParen - 1;
        current := current + [ch];
      } else if ch == ':' && !inQuote {
        inColon := !inColon;
        current := current + [ch];
      } else if ch == ',' && !inQuote && inParen == 0 && !inColon {
        if |current| > 0 {
          parts := parts + [current];
          current := [];
        }
      } else {
        current := current + [ch];
      }
    }
    if |current| > 0 {
      parts := parts + [current];
    }
  }

  /** The scanner state after a text, separators included. */
  function After(st: Scan, s: string): (r: Scan)
    decreases |s|
  {
    if s == [] then st else After(Next(st, s[0]), s[1..])
  }

  /** The scanner state after a text in which nothing separates; None if something does. */
  function Run(st: Scan, s: string): (r: Option<Scan>)
    decreases |s|
  {
    if s == [] then Some(st) else if Breaks(st, s[0]) then None else Run(Next(st, s[0]), s[1..])
  }

  lemma {:induction false} RunConcat(st: Scan, a: string, b: string)
    requires Run(st, a).Some?
    ensures Run(st, a + b) == Run(Run(st, a).value, b)
    decreases |a|
  {
    if a == [] {
      assert a + b == b;
    } else {
      assert (a + b)[1..] == a[1..] + b;
      RunConcat(Next(st, a[0]), a[1..], b);
    }
  }

  lemma {:induction false} AfterConcat(st: Scan, a: string, b: string)
    ensures After(st, a + b) == After(After(st, a), b)
    decreases |a|
  {
    if a == [] {
      assert a + b == b;
    } else {
      assert (a + b)[1..] == a[1..] + b;
      AfterConcat(Next(st, a[0]), a[1..], b);
    }
  }

  /** Text in which nothing separates is one piece. */
  lemma {:induction false} SplitSolid(st: Scan, current: string, s: string)
    requires Run(st, s).Some?
    ensures SplitFrom(st, current, s) == if current + s == [] then [] else [current + s]
    ensures After(st, s) == Run(st, s).value
    decreases |s|
  {
    if s != [] {
      SplitSolid(Next(st, s[0]), current + [s[0]], s[1..]);
      assert current + [s[0]] + s[1..] == current + s;
    } else {
      assert current + s == current;
    }
  }

  /** A comma behind balanced text splits independently on both sides. */
  lemma {:induction false} SplitBehind(st: Scan, current: string, h: string, m: string)
    requires After(st, h) == START
    ensures SplitFrom(st, current, h + [','] + m) == SplitFrom(st, current, h) + SplitFrom(START, [], m)
    decreases |h|
  {
    var s := h + [','] + m;
    if h == [] {
      assert s[1..] == m;
    } else {
      assert s[1..] == h[1..] + [','] + m;
      if Breaks(st, h[0]) {
        SplitBehind(st, [], h[1..], m);
      } else {
        SplitBehind(Next(st, h[0]), current + [h[0]], h[1..], m);
      }
    }
  }

  // ---------------------------------------------------------------- members

  datatype Entry = Entry(name: string, value: string)

  function ParseEntry(piece: string): (r: Option<Entry>) {
    var item := TrimSpace(piece);
    var eq := IndexOf(item, '=');
    if item == "" || eq < 0 then None else Some(Entry(TrimSpace(item[..eq]), TrimSpace(item[eq + 1..])))
  }

  function Entries(pieces: seq<string>): (r: seq<Entry>) {
    if pieces == [] then []
    else
      var rest := Entries(pieces[1..]);
      match ParseEntry(pieces[0])
      case None => rest
      case Some(e) => [e] + rest
  }

  function Members(header: string): (r: seq<Entry>) {
    Entries(SplitFrom(START, [], header))
  }

  lemma {:induction false} EntriesConcat(a: seq<string>, b: seq<string>)
    ensures Entries(a + b) == Entries(a) + Entries(b)
  {
    if a == [] {
      assert a + b == b;
    } else {
      assert (a + b)[1..] == a[1..] + b;
      EntriesConcat(a[1..], b);
    }
  }

  method ParseDictionaryMembers(header: string) returns (entries: seq<Entry>)
    ensures entries == Members(header)
  {
    hide ParseEntry;
    entries := [];
    var items := SplitHeaderComma(header);
    for i := 0 to |items|
      invariant entries + Entries(items[i..]) == Entries(items)
    {
      assert items[i..][1..] == items[i + 1..];
      var entry := ParseEntry(items[i]);
      if entry.Some? {
        entries := entries + [entry.value];
      }
    }
  }

  /** The value under the first matching label, or the empty string. */
  function Lookup(entries: seq<Entry>, name: string): (r: string) {
    if entries == [] then ""
    else if entries[0].name == name then entries[0].value
    else Lookup(entries[1..], name)
  }

  predicate HasLabel(entries: seq<Entry>, name: string) {
    exists i :: 0 <= i < |entries| && entries[i].name == name
  }

  lemma {:induction false} LookupConcat(a: seq<Entry>, b: seq<Entry>, name: string)
    ensures HasLabel(a, name) ==> Lookup(a + b, name) == Lookup(a, name)
    ensures !HasLabel(a, name) ==> Lookup(a + b, name) == Lookup(b, name)
  {
    if a == [] {
      assert a + b == b;
    } else {
      assert (a + b)[1..] == a[1..] + b;
      LookupConcat(a[1..], b, name);
      if a[0].name != name && HasLabel(a, name) {
        var i :| 0 <= i < |a| && a[i].name == name;
        assert a[1..][i - 1].name == name;
      }
      if HasLabel(a[1..], name) {
        var i :| 0 <= i < |a[1..]| && a[1..][i].name == name;
        assert a[i + 1].name == name;
      }
    }
  }

  // ---------------------------------------------------------------- appending a member

  /** `appendHeader` on the header's text. */
  function AppendMember(existing: string, member: string): (r: string) {
    if existing == "" then member else existing + ", " + member
  }

  predicate Balanced(header: string) {
    After(START, header) == START
  }

  /** A label no scanner is disturbed by. */
  predicate PlainLabel(name: string) {
    name != "" && Trimmed(name) && '=' !in name && forall c :: c in name ==> PlainChar(c)
  }

  predicate PlainChar(c: char) {
    c != '"' && c != '(' && c != ')' && c != ':' && c != ','
  }

  /** A value in which nothing separates and after which the scanner is back at its start. */
  predicate Solid(value: string) {
    value != "" && Trimmed(value) && Run(START, value) == Some(START)
  }

  function Member(name: string, value: string): (r: string) {
    name + ['='] + value
  }

  lemma {:induction false} PlainRun(st: Scan, s: string)
    requires forall c :: c in s ==> PlainChar(c)
    ensures Run(st, s) == Some(st)
    decreases |s|
  {
    if s != [] {
      assert s[0] in s;
      PlainRun(st, s[1..]);
    }
  }

  lemma MemberIsSolid(name: string, value: string)
    requires PlainLabel(name) && Solid(value)
    ensures Solid(Member(name, value))
    ensures ParseEntry(Member(name, value)) == Some(Entry(name, value))
    ensures ParseEntry([' '] + Member(name, value)) == Some(Entry(name, value))
  {
    var m := Member(name, value);
    MemberRun(name, value);
    IndexOfAfter(name, '=', value);
    assert m[..|name|] == name && m[|name| + 1..] == value;
    assert m[|m| - 1] == value[|value| - 1];
    TrimSpaceProperties(m);
    TrimOneSpace(m);
    TrimSpaceProperties(name);
    TrimSpaceProperties(value);
  }

  lemma MemberRun(name: string, value: string)
    requires PlainLabel(name) && Run(START, value) == Some(START)
    ensures Run(START, Member(name, value)) == Some(START)
  {
    var head := name + ['='];
    PlainRun(START, head);
    RunConcat(START, head, value);
  }

  /** Appending a member adds exactly its entry at the end, whatever members precede it, and leaves the header
      balanced for the next one. */
  lemma MembersAppend(existing: string, name: string, value: string)
    requires Balanced(existing) && PlainLabel(name) && Solid(value)
    ensures var header := AppendMember(existing, Member(name, value));
            Members(header) == Members(existing) + [Entry(name, value)] && Balanced(header) && header != ""
  {
    var m := Member(name, value);
    MemberIsSolid(name, value);
    if existing == "" {
      FirstMember(m);
    } else {
      BehindOthers(existing, m);
    }
  }

  lemma FirstMember(m: string)
    requires Solid(m) && ParseEntry(m).Some?
    ensures Members(m) == [ParseEntry(m).value] && Balanced(m) && Members("") == []
  {
    SplitSolid(START, [], m);
    assert [] + m == m;
    EntriesOne(m);
  }

  lemma EntriesOne(piece: string)
    requires ParseEntry(piece).Some?
    ensures Entries([piece]) == [ParseEntry(piece).value]
  {
    assert [piece][1..] == [];
  }

  lemma BehindOthers(existing: string, m: string)
    requires Balanced(existing) && Solid(m) && ParseEntry([' '] + m).Some?
    ensures var header := existing + ", " + m;
            Members(header) == Members(existing) + [ParseEntry([' '] + m).value] && Balanced(header)
  {
    var tail := [' '] + m;
    assert existing + ", " + m == existing + [','] + tail;
    TailIsOnePiece(m);
    SplitBehind(START, [], existing, tail);
    EntriesConcat(SplitFrom(START, [], existing), [tail]);
    EntriesOne(tail);
    AfterConcat(START, existing + [','], tail);
    AfterConcat(START, existing, [',']);
    assert After(START, [',']) == START by { assert [','][1..] == []; }
  }

  lemma TailIsOnePiece(m: string)
    requires Solid(m)
    ensures SplitFrom(START, [], [' '] + m) == [[' '] + m] && After(START, [' '] + m) == START
  {
    PlainRun(START, [' ']);
    RunConcat(START, [' '], m);
    SplitSolid(START, [], [' '] + m);
    assert [] + ([' '] + m) == [' '] + m;
  }

  // ---------------------------------------------------------------- the two kinds of value

  lemma {:induction false} CleanRun(s: string, inQuote: bool, depth: nat)
    requires Clean(s, inQuote) && depth > 0
    ensures Run(Scan(inQuote, depth, false), s) == Some(Scan(false, depth, false))
  {
    if s != [] {
      CleanRun(s[1..], if s[0] == '"' then !inQuote else inQuote, depth);
    }
  }

  lemma {:induction false} JoinedRun(items: seq<string>)
    requires AllClean(items)
    ensures Run(Scan(false, 1, false), Join(items, " ")) == Some(Scan(false, 1, false))
  {
    if |items| >= 1 {
      var st := Scan(false, 1, false);
      CleanRun(items[0], false, 1);
      if |items| > 1 {
        JoinedRun(items[1..]);
        PlainRun(st, " ");
        RunConcat(st, items[0], " ");
        RunConcat(st, items[0] + " ", Join(items[1..], " "));
      }
    }
  }

  lemma {:induction false} InsideQuotes(v: string)
    requires '"' !in v
    ensures Run(Scan(true, 0, false), v) == Some(Scan(true, 0, false))
  {
    if v != [] {
      InsideQuotes(v[1..]);
    }
  }

  lemma QuotedRun(v: string)
    requires '"' !in v
    ensures Run(START, Quoted(v)) == Some(START)
  {
    var st := Scan(true, 0, false);
    InsideQuotes(v);
    RunConcat(st, v, ['"']);
    assert Quoted(v)[1..] == v + ['"'];
    assert Run(st, ['"']) == Some(START) by {
      assert ['"'][1..] == [];
    }
  }

  lemma ItemRun(i: Item)
    requires Writable(i) && '"' !in i.value
    ensures Run(START, [';'] + ItemText(i)) == Some(START)
  {
    var head := [';'] + KeyName(i.key) + ['='];
    KeyNamePlain(i.key);
    assert forall c :: c in head ==> c == ';' || c == '=' || c in KeyName(i.key);
    PlainRun(START, head);
    if i.key.Created? || i.key.Expires? {
      assert forall c :: c in i.value ==> IsDigit(c);
      PlainRun(START, i.value);
      RunConcat(START, head, i.value);
      assert [';'] + ItemText(i) == head + i.value;
    } else {
      QuotedRun(i.value);
      RunConcat(START, head, Quoted(i.value));
      assert [';'] + ItemText(i) == head + Quoted(i.value);
    }
  }

  lemma {:induction false} TailRun(items: seq<Item>)
    requires forall i :: 0 <= i < |items| ==> Writable(items[i]) && '"' !in items[i].value
    ensures Run(START, TailText(items)) == Some(START)
  {
    if items != [] {
      ItemRun(items[0]);
      TailRun(items[1..]);
      RunConcat(START, [';'] + ItemText(items[0]), TailText(items[1..]));
    }
  }

  predicate QuoteFree(p: Params) {
    '"' !in p.keyID && '"' !in p.alg && '"' !in p.nonce && '"' !in p.tag
  }

  /** Written signature parameters pass through the comma scanner as one value. */
  lemma WrittenIsSolid(list: seq<string>, p: Params)
    requires AllClean(list) && Fits(p) && QuoteFree(p)
    ensures Solid(Written(list, p))
  {
    var joined, tail := Join(list, " "), TailText(Items(p));
    var inside := Scan(false, 1, false);
    JoinedRun(list);
    JoinedHasNoParen(list);
    ItemsWritable(p);
    ItemsQuoteFree(p);
    TailRun(Items(p));
    TailRoundTrip(Items(p));
    ParenthesesRun(joined, tail);
    WrittenPieces(joined, tail);
    TrimSpaceProperties(Written(list, p));
  }

  lemma ItemsQuoteFree(p: Params)
    requires Fits(p) && QuoteFree(p)
    ensures forall i :: 0 <= i < |Items(p)| ==> '"' !in Items(p)[i].value
  {
    TimeQuoteFree(p.created);
    TimeQuoteFree(p.expires);
  }

  lemma TimeQuoteFree(t: int)
    ensures t > 0 ==> '"' !in NatText(t)
  {
    if t > 0 {
      var s := NatText(t);
      assert forall i :: 0 <= i < |s| ==> IsDigit(s[i]);
    }
  }

  lemma ParenthesesRun(joined: string, tail: string)
    requires Run(Scan(false, 1, false), joined) == Some(Scan(false, 1, false)) && Run(START, tail) == Some(START)
    ensures Run(START, ['('] + joined + [')'] + tail) == Some(START)
  {
    var inside := Scan(false, 1, false);
    assert Run(START, ['(']) == Some(inside) by { assert ['('][1..] == []; }
    assert Run(inside, [')']) == Some(START) by { assert [')'][1..] == []; }
    RunConcat(START, ['('], joined);
    RunConcat(START, ['('] + joined, [')']);
    RunConcat(START, ['('] + joined + [')'], tail);
  }

  predicate IsBase64Char(c: char) {
    'A' <= c <= 'Z' || 'a' <= c <= 'z' || '0' <= c <= '9' || c == '+' || c == '/' || c == '='
  }

  predicate IsBase64(s: string) {
    forall c :: c in s ==> IsBase64Char(c)
  }

  /** A structured-field byte sequence. */
  function ByteSequence(b64: string): (r: string) {
    [':'] + b64 + [':']
  }

  lemma ByteSequenceIsSolid(b64: string)
    requires IsBase64(b64)
    ensures Solid(ByteSequence(b64))
  {
    var inside := Scan(false, 0, true);
    assert Run(START, [':']) == Some(inside) by { assert [':'][1..] == []; }
    assert Run(inside, [':']) == Some(START) by { assert [':'][1..] == []; }
    PlainRun(inside, b64);
    RunConcat(START, [':'], b64);
    RunConcat(START, [':'] + b64, [':']);
  }
}
