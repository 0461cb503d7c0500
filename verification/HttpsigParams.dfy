/** Signature parameters (auth/httpsig/base.go, section 2.3 of RFC 9421): the inner list of covered components
    followed by created, expires, keyid, alg, nonce and tag. */
module SignatureParameters {
  import opened Text
  import opened Components

  datatype Params = Params(
    components: seq<string>, created: int, expires: int,
    keyID: string, alg: string, nonce: string, tag: string)

  // ---------------------------------------------------------------- the inner list

  /** `splitInnerList`: cuts at the spaces outside double quotes and drops empty pieces. */
  function SplitInner(current: string, inQuote: bool, s: string): (r: seq<string>)
    decreases |s|
  {
    if s == [] then (if current == [] then [] else [current])
    else if s[0] == '"' then SplitInner(current + [s[0]], !inQuote, s[1..])
    else if s[0] == ' ' && !inQuote then
      (if current == [] then [] else [current]) + SplitInner([], inQuote, s[1..])
    else SplitInner(current + [s[0]], inQuote, s[1..])
  }

  method SplitInnerList(inner: string) returns (results: seq<string>)
    ensures results == SplitInner([], false, inner)
  {
    results := [];
    var current, inQuote := [], false;
    for i := 0 to |inner|
      invariant results + SplitInner(current, inQuote, inner[i..]) == SplitInner([], false, inner)
    {
      assert inner[i..][1..] == inner[i + 1..];
      var ch := inner[i];
      if ch == '"' {
        inQuote := !inQuote;
        current := current + [ch];
      } else if ch == ' ' && !inQuote {
        if |current| > 0 {
          results := results + [current];
          current := [];
        }
      } else {
        current := current + [ch];
      }
    }
    if |current| > 0 {
      results := results + [current];
    }
  }

  /** A text the scanners of this package pass through undisturbed: quotes are paired, a closing parenthesis is
      nowhere, and outside quotes there is no space, opening parenthesis or colon. */
  predicate Clean(s: string, inQuote: bool) {
    if s == [] then !inQuote
    else if s[0] == '"' then Clean(s[1..], !inQuote)
    else s[0] != ')' && (inQuote || (s[0] != ' ' && s[0] != '(' && s[0] != ':')) && Clean(s[1..], inQuote)
  }

  lemma {:induction false} CleanConcat(a: string, inQuote: bool, b: string)
    requires Clean(a, inQuote) && Clean(b, false)
    ensures Clean(a + b, inQuote)
    decreases |a|
  {
    if a == [] {
      assert a + b == b;
    } else {
      assert (a + b)[1..] == a[1..] + b;
      CleanConcat(a[1..], if a[0] == '"' then !inQuote else inQuote, b);
    }
  }

  predicate TameChar(c: char) {
    c != '"' && c != ')' && c != '(' && c != ' ' && c != ':'
  }

  lemma {:induction false} CleanPlain(s: string)
    requires forall c :: c in s ==> TameChar(c)
    ensures Clean(s, false)
  {
    if s != [] {
      assert s[0] in s;
      CleanPlain(s[1..]);
    }
  }

  lemma {:induction false} CleanQuoted(v: string)
    requires '"' !in v && ')' !in v
    ensures Clean(v + ['"'], true)
  {
    if v != [] {
      assert (v + ['"'])[1..] == v[1..] + ['"'];
      CleanQuoted(v[1..]);
    } else {
      assert ['"'][1..] == [];
    }
  }

  /** A parameter whose name has no delimiter and whose value has neither quote nor closing parenthesis. */
  predicate TameParam(p: Param) {
    && (forall c :: c in p.name ==> TameChar(c))
    && (p.Assign? ==> '"' !in p.value && ')' !in p.value)
  }

  /** Identifiers whose parts are free of the delimiters are clean. */
  lemma {:induction false} TameIsClean(name: string, ps: seq<Param>)
    requires '"' !in name && ')' !in name && forall i :: 0 <= i < |ps| ==> TameParam(ps[i])
    ensures Clean(Meaning(name, ps).serialized, false)
  {
    TameParamsAreClean(ps);
    CleanQuoted(name);
    assert Quoted(name)[1..] == name + ['"'];
    CleanConcat(Quoted(name), false, ParamsText(ps));
  }

  lemma {:induction false} TameParamsAreClean(ps: seq<Param>)
    requires forall i :: 0 <= i < |ps| ==> TameParam(ps[i])
    ensures Clean(ParamsText(ps), false)
  {
    if ps != [] {
      TameParamsAreClean(ps[1..]);
      TameParamIsClean(ps[0]);
      CleanConcat([';'] + ParamText(ps[0]), false, ParamsText(ps[1..]));
    }
  }

  lemma TameParamIsClean(p: Param)
    requires TameParam(p)
    ensures Clean([';'] + ParamText(p), false)
  {
    if p.Flag? {
      CleanPlain([';'] + p.name);
    } else {
      var head := [';'] + p.name + ['='];
      assert forall c :: c in head ==> c == ';' || c == '=' || c in p.name;
      CleanPlain(head);
      CleanQuoted(p.value);
      assert Quoted(p.value)[1..] == p.value + ['"'];
      CleanConcat([';'] + p.name + ['='], false, Quoted(p.value));
      assert [';'] + ParamText(p) == [';'] + p.name + ['='] + Quoted(p.value);
    }
  }

  /** Clean text followed by a space is one piece. */
  lemma {:induction false} SplitClean(current: string, inQuote: bool, a: string, b: string)
    requires Clean(a, inQuote)
    ensures SplitInner(current, inQuote, a + b) == SplitInner(current + a, false, b)
    decreases |a|
  {
    if a == [] {
      assert a + b == b && current + a == current;
    } else {
      assert (a + b)[1..] == a[1..] + b;
      assert current + [a[0]] + a[1..] == current + a;
      SplitClean(current + [a[0]], if a[0] == '"' then !inQuote else inQuote, a[1..], b);
    }
  }

  predicate AllClean(items: seq<string>) {
    forall i :: 0 <= i < |items| ==> Clean(items[i], false) && items[i] != [] && Trimmed(items[i])
  }

  /** Splitting a space-separated list of clean items gives the items. */
  lemma {:induction false} SplitJoined(items: seq<string>)
    requires AllClean(items)
    ensures SplitInner([], false, Join(items, " ")) == items
  {
    if |items| == 1 {
      SplitClean([], false, items[0], []);
      assert items[0] + [] == items[0] && [] + items[0] == items[0];
    } else if |items| > 1 {
      var rest := Join(items[1..], " ");
      assert Join(items, " ") == items[0] + ([' '] + rest);
      SplitClean([], false, items[0], [' '] + rest);
      assert ([' '] + rest)[1..] == rest && [] + items[0] == items[0];
      SplitJoined(items[1..]);
    }
  }

  lemma {:induction false} CleanHasNoParen(s: string, inQuote: bool)
    requires Clean(s, inQuote)
    ensures ')' !in s
  {
    if s != [] {
      CleanHasNoParen(s[1..], if s[0] == '"' then !inQuote else inQuote);
    }
  }

  lemma {:induction false} JoinedHasNoParen(items: seq<string>)
    requires AllClean(items)
    ensures ')' !in Join(items, " ") && Trimmed(Join(items, " "))
  {
    if |items| >= 1 {
      CleanHasNoParen(items[0], false);
      if |items| > 1 {
        JoinedHasNoParen(items[1..]);
        var rest := Join(items[1..], " ");
        var all := items[0] + " " + rest;
        JoinedNotEmpty(items[1..]);
        assert all[|all| - 1] == rest[|rest| - 1];
      }
    }
  }

  lemma JoinedNotEmpty(items: seq<string>)
    requires AllClean(items) && items != []
    ensures Join(items, " ") != []
  {
  }

  // ---------------------------------------------------------------- the parameters after the list

  datatype Key = Created | Expires | KeyId | Alg | Nonce | Tag | Other

  function KeyName(k: Key): (r: string) {
    match k
    case Created => "created"
    case Expires => "expires"
    case KeyId => "keyid"
    case Alg => "alg"
    case Nonce => "nonce"
    case Tag => "tag"
    case Other => ""
  }

  function KeyOf(name: string): (k: Key) {
    if name == "created" then Created
    else if name == "expires" then Expires
    else if name == "keyid" then KeyId
    else if name == "alg" then Alg
    else if name == "nonce" then Nonce
    else if name == "tag" then Tag
    else Other
  }

  lemma KeyOfName(k: Key)
    ensures KeyOf(KeyName(k)) == k
  {
  }

  lemma KeyNamePlain(k: Key)
    ensures forall c :: c in KeyName(k) ==> 'a' <= c <= 'z'
  {
  }

  lemma KeyNameCanonical(k: Key)
    ensures var n := KeyName(k); Trimmed(n) && Lower(n) == n && ';' !in n && '=' !in n
  {
    KeyNamePlain(k);
    var n := KeyName(k);
    assert forall i :: 0 <= i < |n| ==> n[i] in n;
    assert forall i :: 0 <= i < |n| ==> Lower(n)[i] == n[i];
  }

  /** One written parameter; the two times are bare numbers, the rest quoted. */
  datatype Item = Item(key: Key, value: string)

  function ItemText(i: Item): (r: string) {
    KeyName(i.key) + ['='] + if i.key.Created? || i.key.Expires? then i.value else Quoted(i.value)
  }

  /** Times carry digits; the other values must not contain a semicolon. */
  predicate Writable(i: Item) {
    if i.key.Created? || i.key.Expires? then i.value != [] && AllDigits(i.value) else ';' !in i.value
  }

  function TailText(items: seq<Item>): (r: string) {
    if items == [] then [] else [';'] + ItemText(items[0]) + TailText(items[1..])
  }

  function AsParams(items: seq<Item>): (r: seq<Param>)
    ensures |r| == |items|
  {
    if items == [] then [] else [Assign(KeyName(items[0].key), items[0].value)] + AsParams(items[1..])
  }

  lemma TimeText(n: string, v: string)
    requires n != [] && Canonical(Flag(n)) && v != [] && AllDigits(v)
    ensures var t := n + ['='] + v; ParseParam(t) == Some(Assign(n, v)) && Trimmed(t) && ';' !in t
  {
    AssignmentCut(n, v);
    TimeTrimmed(n, v);
  }

  lemma TimeTrimmed(n: string, v: string)
    requires n != [] && Trimmed(n) && v != [] && AllDigits(v)
    ensures var t := n + ['='] + v;
            Trimmed(t) && TrimSpace(t) == t && TrimSpace(n) == n && StripQuotes(TrimSpace(v)) == v
  {
    assert IsDigit(v[0]) && IsDigit(v[|v| - 1]);
    TrimSpaceProperties(n);
    TrimSpaceProperties(v);
    TrimSpaceProperties(n + ['='] + v);
  }

  lemma ItemRoundTrip(i: Item)
    requires Writable(i) && !i.key.Other?
    ensures ParseParam(ItemText(i)) == Some(Assign(KeyName(i.key), i.value))
    ensures Trimmed(ItemText(i)) && ';' !in ItemText(i) && ItemText(i) != []
  {
    KeyNameCanonical(i.key);
    assert KeyName(i.key) != [];
    if i.key.Created? || i.key.Expires? {
      TimeText(KeyName(i.key), i.value);
    } else {
      ParamRoundTrip(Assign(KeyName(i.key), i.value));
    }
  }

  predicate AllWritable(items: seq<Item>) {
    forall i :: 0 <= i < |items| ==> Writable(items[i]) && !items[i].key.Other?
  }

  lemma {:induction false} TailRoundTrip(items: seq<Item>)
    requires AllWritable(items)
    ensures ParseParams(Split(TailText(items), ';')) == AsParams(items)
    ensures Trimmed(TailText(items))
  {
    if items == [] {
      assert Split([], ';') == [[]] && ParseParam([]) == None;
    } else {
      ItemRoundTrip(items[0]);
      TailRoundTrip(items[1..]);
      FirstItem(ItemText(items[0]), TailText(items[1..]));
      FirstItemTrimmed(ItemText(items[0]), TailText(items[1..]));
    }
  }

  lemma FirstItem(t: string, rest: string)
    requires ';' !in t && (rest == [] || rest[0] == ';') && ParseParam(t).Some?
    ensures ParseParams(Split([';'] + t + rest, ';')) == [ParseParam(t).value] + ParseParams(Split(rest, ';'))
  {
    assert ParseParams([t]) == [ParseParam(t).value];
    hide Split, ParseParams, ParseParam;
    assert [';'] + t + rest == [';'] + (t + rest);
    SplitLeading(t + rest);
    SplitFirst(t, rest);
  }

  lemma FirstItemTrimmed(t: string, rest: string)
    requires t != [] && Trimmed(t) && Trimmed(rest)
    ensures Trimmed([';'] + t + rest)
  {
    var all := [';'] + t + rest;
    assert all[|all| - 1] == if rest == [] then t[|t| - 1] else rest[|rest| - 1];
  }

  // ---------------------------------------------------------------- printer and parser

  function SerializedForm(raw: string): (r: Result<string, Error>) {
    match Parse(raw)
    case Err(e) => Err(e)
    case Ok(c) => Ok(c.serialized)
  }

  /** The serialized forms of a list of identifiers, or the first error. */
  function Serialized(components: seq<string>): (r: Result<seq<string>, Error>) {
    Collect(SerializedForm, components)
  }

  function OptionalTime(k: Key, t: int): (r: seq<Item>) {
    if t > 0 then [Item(k, NatText(t))] else []
  }

  function OptionalText(k: Key, v: string): (r: seq<Item>) {
    if v != "" then [Item(k, v)] else []
  }

  /** The parameters that are written, in this order. */
  function Items(p: Params): (r: seq<Item>) {
    OptionalTime(Created, p.created) + OptionalTime(Expires, p.expires) +
    OptionalText(KeyId, p.keyID) + OptionalText(Alg, p.alg) + OptionalText(Nonce, p.nonce) + OptionalText(Tag, p.tag)
  }

  function Written(serialized: seq<string>, p: Params): (r: string) {
    ['('] + Join(serialized, " ") + [')'] + TailText(Items(p))
  }

  function Serialize(p: Params): (r: Result<string, Error>) {
    match Serialized(p.components)
    case Err(e) => Err(e)
    case Ok(list) => Ok(Written(list, p))
  }

  lemma {:induction false} TailTextConcat(a: seq<Item>, b: seq<Item>)
    ensures TailText(a + b) == TailText(a) + TailText(b)
  {
    if a == [] {
      assert a + b == b;
    } else {
      assert (a + b)[1..] == a[1..] + b;
      TailTextConcat(a[1..], b);
    }
  }

  method SerializeSignatureParams(p: Params) returns (r: Result<string, Error>)
    ensures r == Serialize(p)
  {
    hide SerializedForm, TailText, Items;
    var sb := ['('];
    ghost var list: seq<string> := [];
    for i := 0 to |p.components|
      invariant Serialized(p.components[..i]) == Ok(list)
      invariant |list| == i && sb == ['('] + Join(list, " ")
    {
      CollectNext(SerializedForm, p.components, i);
      var form := Form(p.components[i]);
      if form.Err? {
        return Err(form.error);
      }
      if i > 0 {
        JoinAppend(list, " ", form.value);
        sb := sb + [' '];
      }
      sb := sb + form.value;
      list := list + [form.value];
    }
    assert p.components[..|p.components|] == p.components;
    var tail := WriteTail(p);
    r := Ok(sb + [')'] + tail);
  }

  method Form(raw: string) returns (r: Result<string, Error>)
    ensures r == SerializedForm(raw)
  {
    var parsed := ParseComponentIdentifier(raw);
    r := match parsed case Err(e) => Err(e) case Ok(c) => Ok(c.serialized);
  }

  method WriteTime(sb: string, ghost done: seq<Item>, k: Key, t: int) returns (r: string)
    requires sb == TailText(done)
    ensures r == TailText(done + OptionalTime(k, t))
  {
    r := sb;
    if t > 0 {
      TailTextConcat(done, [Item(k, NatText(t))]);
      r := r + ([';'] + ItemText(Item(k, NatText(t))));
    } else {
      assert done + [] == done;
    }
  }

  method WriteText(sb: string, ghost done: seq<Item>, k: Key, v: string) returns (r: string)
    requires sb == TailText(done)
    ensures r == TailText(done + OptionalText(k, v))
  {
    r := sb;
    if v != "" {
      TailTextConcat(done, [Item(k, v)]);
      r := r + ([';'] + ItemText(Item(k, v)));
    } else {
      assert done + [] == done;
    }
  }

  method WriteTail(p: Params) returns (tail: string)
    ensures tail == TailText(Items(p))
  {
    tail := WriteTime("", [], Created, p.created);
    ghost var done := OptionalTime(Created, p.created);
    assert [] + done == done;
    tail := WriteTime(tail, done, Expires, p.expires);
    done := done + OptionalTime(Expires, p.expires);
    tail := WriteText(tail, done, KeyId, p.keyID);
    done := done + OptionalText(KeyId, p.keyID);
    tail := WriteText(tail, done, Alg, p.alg);
    done := done + OptionalText(Alg, p.alg);
    tail := WriteText(tail, done, Nonce, p.nonce);
    done := done + OptionalText(Nonce, p.nonce);
    tail := WriteText(tail, done, Tag, p.tag);
  }

  /** One parsed parameter sets the field it names; numbers that do not parse and unknown names are ignored. */
  function SetParam(p: Params, q: Param): (r: Params) {
    if q.Flag? then p
    else
      match KeyOf(q.name)
      case Created => if ParseInt(q.value).ok then p.(created := ParseInt(q.value).value) else p
      case Expires => if ParseInt(q.value).ok then p.(expires := ParseInt(q.value).value) else p
      case KeyId => p.(keyID := q.value)
      case Alg => p.(alg := q.value)
      case Nonce => p.(nonce := q.value)
      case Tag => p.(tag := q.value)
      case Other => p
  }

  function SetAll(p: Params, qs: seq<Param>): (r: Params)
    decreases |qs|
  {
    if qs == [] then p else SetAll(SetParam(p, qs[0]), qs[1..])
  }

  function Bare(components: seq<string>): (p: Params) {
    Params(components, 0, 0, "", "", "", "")
  }

  function ParseText(text: string): (r: Result<Params, Error>) {
    var input := TrimSpace(text);
    var close := IndexOf(input, ')');
    if input == "" || input[0] != '(' || close < 0 then Err(InvalidField)
    else
      var inner := TrimSpace(input[1..close]);
      var tail := TrimSpace(input[close + 1..]);
      Ok(SetAll(Bare(SplitInner([], false, inner)), ParseParams(Split(tail, ';'))))
  }

  lemma {:induction false} SetAllConcat(p: Params, a: seq<Param>, b: seq<Param>)
    ensures SetAll(p, a + b) == SetAll(SetAll(p, a), b)
    decreases |a|
  {
    if a == [] {
      assert a + b == b;
    } else {
      assert (a + b)[1..] == a[1..] + b;
      SetAllConcat(SetParam(p, a[0]), a[1..], b);
    }
  }

  method ParseSignatureParams(text: string) returns (r: Result<Params, Error>)
    ensures r == ParseText(text)
  {
    var input := TrimSpace(text);
    if input == "" || input[0] != '(' {
      return Err(InvalidField);
    }
    var closeParen := IndexOf(input, ')');
    if closeParen == -1 {
      return Err(InvalidField);
    }
    var innerList := TrimSpace(input[1..closeParen]);
    var paramsPart := TrimSpace(input[closeParen + 1..]);
    var components := SplitInnerList(innerList);
    var params := Bare(components);
    var parts := Split(paramsPart, ';');
    for i := 0 to |parts|
      invariant SetAll(params, ParseParams(parts[i..])) == SetAll(Bare(components), ParseParams(parts))
    {
      assert parts[i..][1..] == parts[i + 1..];
      var q := ParseParam(parts[i]);
      if q.Some? {
        params := SetParam(params, q.value);
      }
    }
    return Ok(params);
  }

  // ---------------------------------------------------------------- round trip

  /** What reading written parameters yields: normalized identifiers, and zero for times that were not written. */
  function Normal(serialized: seq<string>, p: Params): (r: Params) {
    Params(serialized, if p.created > 0 then p.created else 0, if p.expires > 0 then p.expires else 0,
           p.keyID, p.alg, p.nonce, p.tag)
  }

  predicate Fits(p: Params) {
    p.created <= MAX_INT64 && p.expires <= MAX_INT64 && SemicolonFree(p)
  }

  predicate SemicolonFree(p: Params) {
    ';' !in p.keyID && ';' !in p.alg && ';' !in p.nonce && ';' !in p.tag
  }

  lemma ItemsWritable(p: Params)
    requires Fits(p)
    ensures AllWritable(Items(p))
  {
  }

  lemma {:induction false} AsParamsConcat(a: seq<Item>, b: seq<Item>)
    ensures AsParams(a + b) == AsParams(a) + AsParams(b)
  {
    if a == [] {
      assert a + b == b;
    } else {
      assert (a + b)[1..] == a[1..] + b;
      AsParamsConcat(a[1..], b);
    }
  }

  lemma SetTime(p: Params, k: Key, t: int)
    requires (k.Created? || k.Expires?) && t <= MAX_INT64
    ensures SetAll(p, AsParams(OptionalTime(k, t))) ==
            if t <= 0 then p else if k.Created? then p.(created := t) else p.(expires := t)
  {
    if t > 0 {
      ParseIntOfText(t);
      KeyOfName(k);
      assert AsParams(OptionalTime(k, t)) == [Assign(KeyName(k), NatText(t))];
    }
  }

  lemma SetText(p: Params, k: Key, v: string)
    requires k.KeyId? || k.Alg? || k.Nonce? || k.Tag?
    ensures SetAll(p, AsParams(OptionalText(k, v))) ==
            if v == "" then p
            else match k
              case KeyId => p.(keyID := v)
              case Alg => p.(alg := v)
              case Nonce => p.(nonce := v)
              case _ => p.(tag := v)
  {
    if v != "" {
      KeyOfName(k);
      assert AsParams(OptionalText(k, v)) == [Assign(KeyName(k), v)];
    }
  }

  lemma SetItems(list: seq<string>, p: Params)
    requires Fits(p)
    ensures SetAll(Bare(list), AsParams(Items(p))) == Normal(list, p)
  {
    hide AsParams, SetAll, OptionalTime, OptionalText;
    var a, b := OptionalTime(Created, p.created), OptionalTime(Expires, p.expires);
    var c, d := OptionalText(KeyId, p.keyID), OptionalText(Alg, p.alg);
    var e, f := OptionalText(Nonce, p.nonce), OptionalText(Tag, p.tag);
    SetMore(Bare(list), a + b + c + d + e, f);
    SetMore(Bare(list), a + b + c + d, e);
    SetMore(Bare(list), a + b + c, d);
    SetMore(Bare(list), a + b, c);
    SetMore(Bare(list), a, b);
    var p0 := Bare(list);
    SetTime(p0, Created, p.created);
    var p1 := SetAll(p0, AsParams(a));
    SetTime(p1, Expires, p.expires);
    var p2 := SetAll(p1, AsParams(b));
    SetText(p2, KeyId, p.keyID);
    var p3 := SetAll(p2, AsParams(c));
    SetText(p3, Alg, p.alg);
    var p4 := SetAll(p3, AsParams(d));
    SetText(p4, Nonce, p.nonce);
    SetText(SetAll(p4, AsParams(e)), Tag, p.tag);
  }

  lemma SetMore(p: Params, a: seq<Item>, b: seq<Item>)
    ensures SetAll(p, AsParams(a + b)) == SetAll(SetAll(p, AsParams(a)), AsParams(b))
  {
    AsParamsConcat(a, b);
    SetAllConcat(p, AsParams(a), AsParams(b));
  }

  lemma WrittenPieces(joined: string, tail: string)
    requires ')' !in joined && Trimmed(joined) && Trimmed(tail)
    ensures var s := ['('] + joined + [')'] + tail;
            && TrimSpace(s) == s && IndexOf(s, ')') == |joined| + 1
            && TrimSpace(s[1..|joined| + 1]) == joined && TrimSpace(s[|joined| + 2..]) == tail
  {
    var s := ['('] + joined + [')'] + tail;
    assert s[|s| - 1] == if tail == [] then ')' else tail[|tail| - 1];
    TrimSpaceProperties(s);
    IndexOfAfter(['('] + joined, ')', tail);
    assert s[1..|joined| + 1] == joined && s[|joined| + 2..] == tail;
    TrimSpaceProperties(joined);
    TrimSpaceProperties(tail);
  }

  /** Reading serialized parameters gives them back in normal form. */
  lemma ParamsTextRoundTrip(list: seq<string>, p: Params)
    requires AllClean(list) && Fits(p)
    ensures ParseText(Written(list, p)) == Ok(Normal(list, p))
  {
    JoinedHasNoParen(list);
    ItemsWritable(p);
    TailRoundTrip(Items(p));
    WrittenPieces(Join(list, " "), TailText(Items(p)));
    SplitJoined(list);
    SetItems(list, p);
  }

  lemma {:induction false} SetAllSemicolonFree(p: Params, qs: seq<Param>)
    requires SemicolonFree(p) && AllCanonical(qs)
    ensures SemicolonFree(SetAll(p, qs))
    decreases |qs|
  {
    if qs != [] {
      hide SetAll;
      assert Canonical(qs[0]);
      assert SemicolonFree(SetParam(p, qs[0]));
      SetAllSemicolonFree(SetParam(p, qs[0]), qs[1..]);
      SetAllFirst(p, qs);
    }
  }

  lemma SetAllFirst(p: Params, qs: seq<Param>)
    requires qs != []
    ensures SetAll(p, qs) == SetAll(SetParam(p, qs[0]), qs[1..])
  {
  }

  /** No parameter value that is read holds a semicolon, whatever the text. */
  lemma ReadsNoSemicolon(text: string)
    requires ParseText(text).Ok?
    ensures SemicolonFree(ParseText(text).value)
  {
    var input := TrimSpace(text);
    var close := IndexOf(input, ')');
    var tail := TrimSpace(input[close + 1..]);
    var inner := TrimSpace(input[1..close]);
    SplitPieces(tail, ';');
    ParseParamsAreCanonical(Split(tail, ';'));
    hide TrimSpace, IndexOf, Split, ParseParams, SetAll, SplitInner;
    SetAllSemicolonFree(Bare(SplitInner([], false, inner)), ParseParams(Split(tail, ';')));
  }

  /** For clean identifiers and 64-bit times, written parameters are read back exactly if none of the texts has a
      semicolon, which the quotes around them do not protect. */
  lemma ParamsTextRoundTripIff(list: seq<string>, p: Params)
    requires AllClean(list) && p.created <= MAX_INT64 && p.expires <= MAX_INT64
    ensures ParseText(Written(list, p)) == Ok(Normal(list, p)) <==> SemicolonFree(p)
  {
    hide ParseText, Written, AllClean;
    if SemicolonFree(p) {
      ParamsTextRoundTrip(list, p);
    }
    if ParseText(Written(list, p)) == Ok(Normal(list, p)) {
      ReadsNoSemicolon(Written(list, p));
    }
  }

  /** A key ID with a semicolon is not read back. */
  lemma SemicolonLost()
    ensures var p := Bare([]).(keyID := "a;b"); ParseText(Written([], p)) != Ok(Normal([], p))
  {
    hide ParseText, Written;
    assert "a;b"[1] == ';';
    ParamsTextRoundTripIff([], Bare([]).(keyID := "a;b"));
  }
}
