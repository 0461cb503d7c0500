/** The Socket.IO packet text (socketio/packet.go): type, attachment count, namespace, acknowledgement number, data. */
module Packets {
  import opened Text

  const EVENT := '2'
  const BINARY_EVENT := '5'
  const BINARY_ACK := '6'
  const MAX_ATTACHMENTS := 64

  /** `data` is None where the source has no data at all. */
  datatype Packet = Packet(kind: char, namespace: string, id: Option<int>, attachments: int, data: Option<string>)

  datatype DecodeError = EmptyPacket | InvalidAttachmentCount

  predicate IsBinary(kind: char) {
    kind == BINARY_EVENT || kind == BINARY_ACK
  }

  // ---------------------------------------------------------------- printing

  function CountText(p: Packet): (r: string) {
    if IsBinary(p.kind) then IntText(p.attachments) + ['-'] else []
  }

  function NamespaceText(namespace: string): (r: string) {
    if namespace != "" && namespace != "/" then namespace + [','] else []
  }

  function IdText(id: Option<int>): (r: string) {
    if id.Some? then IntText(id.value) else []
  }

  function DataText(data: Option<string>): (r: string) {
    if data.Some? then data.value else []
  }

  function Encode(p: Packet): (r: string) {
    [p.kind] + CountText(p) + NamespaceText(p.namespace) + IdText(p.id) + DataText(p.data)
  }

  // ---------------------------------------------------------------- parsing

  /** The text before the first `c` and the text behind it; all of it and nothing if there is no `c`. */
  function CutAt(s: string, c: char): (r: (string, string)) {
    var i := IndexOf(s, c);
    if i < 0 then (s, []) else (s[..i], s[i + 1..])
  }

  function TakeCount(s: string): (r: Result<(int, string), DecodeError>) {
    var (head, rest) := CutAt(s, '-');
    var n := ParseInt(head);
    if !n.ok || n.value < 0 || n.value > MAX_ATTACHMENTS then Err(InvalidAttachmentCount) else Ok((n.value, rest))
  }

  function TakeNamespace(s: string): (r: (string, string)) {
    if s == [] || s[0] != '/' then ("/", s) else CutAt(s, ',')
  }

  /** How many digits `s` starts with. */
  function DigitRun(s: string): (n: nat)
    ensures n <= |s| && AllDigits(s[..n]) && (n < |s| ==> !IsDigit(s[n]))
  {
    if s == [] || !IsDigit(s[0]) then 0
    else
      var n := 1 + DigitRun(s[1..]);
      assert forall i :: 1 <= i < n ==> s[i] == s[1..][..n - 1][i - 1];
      n
  }

  /** An acknowledgement number out of range is clamped, not refused. */
  function TakeId(s: string): (r: (Option<int>, string)) {
    var n := DigitRun(s);
    if n == 0 then (None, s) else (Some(ParseInt(s[..n]).value), s[n..])
  }

  function TakeRest(kind: char, attachments: int, s: string): (p: Packet) {
    var (namespace, afterNamespace) := TakeNamespace(s);
    var (id, rest) := TakeId(afterNamespace);
    Packet(kind, namespace, id, attachments, if rest == [] then None else Some(rest))
  }

  function Decode(text: string): (r: Result<Packet, DecodeError>) {
    if text == [] then Err(EmptyPacket)
    else if !IsBinary(text[0]) then Ok(TakeRest(text[0], 0, text[1..]))
    else
      match TakeCount(text[1..])
      case Err(e) => Err(e)
      case Ok((n, rest)) => Ok(TakeRest(text[0], n, rest))
  }

  // ---------------------------------------------------------------- the parser, moving an offset

  method Scan(data: string, start: nat, stop: char) returns (i: nat)
    requires start <= |data|
    ensures start <= i <= |data| && data[start..i] == CutAt(data[start..], stop).0
    ensures (if i < |data| then data[i + 1..] else []) == CutAt(data[start..], stop).1
  {
    i := start;
    while i < |data| && data[i] != stop
      invariant start <= i <= |data| && stop !in data[start..i]
    {
      i := i + 1;
    }
    var s := data[start..];
    assert s[..i - start] == data[start..i];
    if i < |data| {
      IndexOfAt(s, stop, i - start);
      assert s[i - start + 1..] == data[i + 1..];
    } else {
      assert data[start..i] == s;
    }
  }

  method ParseAttachments(data: string, start: nat) returns (r: Result<int, DecodeError>, offset: nat)
    requires start <= |data|
    ensures offset <= |data|
    ensures TakeCount(data[start..]) == match r case Err(e) => Err(e) case Ok(n) => Ok((n, data[offset..]))
  {
    var i := Scan(data, start, '-');
    var n := ParseInt(data[start..i]);
    if !n.ok || n.value < 0 || n.value > MAX_ATTACHMENTS {
      return Err(InvalidAttachmentCount), start;
    }
    r, offset := Ok(n.value), if i < |data| then i + 1 else i;
    assert i == |data| ==> data[i..] == [];
  }

  method ParseNamespace(data: string, start: nat) returns (namespace: string, offset: nat)
    requires start <= |data|
    ensures offset <= |data| && TakeNamespace(data[start..]) == (namespace, data[offset..])
  {
    if start >= |data| || data[start] != '/' {
      return "/", start;
    }
    var i := Scan(data, start, ',');
    namespace, offset := data[start..i], if i < |data| then i + 1 else i;
    assert i == |data| ==> data[i..] == [];
  }

  method ParseAckId(data: string, start: nat) returns (id: Option<int>, offset: nat)
    requires start <= |data|
    ensures offset <= |data| && TakeId(data[start..]) == (id, data[offset..])
  {
    var i := start;
    while i < |data| && IsDigit(data[i])
      invariant start <= i <= |data| && AllDigits(data[start..i])
    {
      assert data[start..i + 1] == data[start..i] + [data[i]];
      i := i + 1;
    }
    var s := data[start..];
    assert s == data[start..i] + data[i..];
    DigitRunOf(data[start..i], data[i..]);
    if i == start {
      return None, start;
    }
    assert s[..i - start] == data[start..i] && s[i - start..] == data[i..];
    return Some(ParseInt(data[start..i]).value), i;
  }

  method DecodePacket(data: string) returns (r: Result<Packet, DecodeError>)
    ensures r == Decode(data)
  {
    if |data| == 0 {
      return Err(EmptyPacket);
    }
    var attachments, offset := 0, 1;
    if IsBinary(data[0]) {
      var count;
      count, offset := ParseAttachments(data, 1);
      if count.Err? {
        return Err(count.error);
      }
      attachments := count.value;
    }
    var namespace, id;
    namespace, offset := ParseNamespace(data, offset);
    id, offset := ParseAckId(data, offset);
    r := Ok(Packet(data[0], namespace, id, attachments, if offset < |data| then Some(data[offset..]) else None));
  }

  lemma {:induction false} DigitRunOf(a: string, b: string)
    requires AllDigits(a) && (b == [] || !IsDigit(b[0]))
    ensures DigitRun(a + b) == |a|
  {
    if a == [] {
      assert a + b == b;
    } else {
      assert (a + b)[1..] == a[1..] + b;
      DigitRunOf(a[1..], b);
    }
  }

  // ---------------------------------------------------------------- round trips

  /** What every decoded packet satisfies. */
  predicate Shaped(p: Packet) {
    && (if IsBinary(p.kind) then 0 <= p.attachments <= MAX_ATTACHMENTS else p.attachments == 0)
    && p.namespace != "" && p.namespace[0] == '/' && ',' !in p.namespace
    && (p.id.Some? ==> 0 <= p.id.value <= MAX_INT64)
    && (p.data.Some? ==> p.data.value != "" && !IsDigit(p.data.value[0]))
  }

  /** Data that would be read as a namespace, because the default namespace is not written and no number precedes. */
  predicate Ambiguous(p: Packet) {
    p.namespace == "/" && p.id.None? && p.data.Some? && p.data.value != "" && p.data.value[0] == '/'
  }

  predicate WellFormed(p: Packet) {
    Shaped(p) && !Ambiguous(p)
  }

  lemma DigitsParse(s: string)
    requires AllDigits(s) && s != []
    ensures 0 <= ParseInt(s).value <= MAX_INT64
  {
    assert IsDigit(s[0]);
  }

  lemma DecodedIsShaped(text: string)
    requires Decode(text).Ok?
    ensures Shaped(Decode(text).value)
  {
    var s := if IsBinary(text[0]) then TakeCount(text[1..]).value.1 else text[1..];
    RestIsShaped(s);
  }

  lemma RestIsShaped(s: string)
    ensures var p := TakeRest(EVENT, 0, s); Shaped(p)
  {
    hide ParseInt, IndexOf;
    var (namespace, rest) := TakeNamespace(s);
    var n := DigitRun(rest);
    if n > 0 {
      DigitsParse(rest[..n]);
    }
  }

  lemma CountBack(n: int, rest: string)
    requires 0 <= n <= MAX_ATTACHMENTS
    ensures TakeCount(IntText(n) + ['-'] + rest) == Ok((n, rest))
  {
    var t := NatText(n);
    assert forall i :: 0 <= i < |t| ==> IsDigit(t[i]);
    IndexOfAfter(t, '-', rest);
    var s := t + ['-'] + rest;
    assert s[..|t|] == t && s[|t| + 1..] == rest;
    ParseIntOfText(n);
  }

  lemma NamespaceBack(namespace: string, rest: string)
    requires namespace != "" && namespace[0] == '/' && ',' !in namespace
    requires namespace == "/" ==> rest == [] || rest[0] != '/'
    ensures TakeNamespace(NamespaceText(namespace) + rest) == (namespace, rest)
  {
    if namespace == "/" {
      assert NamespaceText(namespace) + rest == rest;
    } else {
      var s := namespace + [','] + rest;
      IndexOfAfter(namespace, ',', rest);
      assert s[..|namespace|] == namespace && s[|namespace| + 1..] == rest;
    }
  }

  lemma IdBack(id: Option<int>, rest: string)
    requires id.Some? ==> 0 <= id.value <= MAX_INT64
    requires rest == [] || !IsDigit(rest[0])
    ensures TakeId(IdText(id) + rest) == (id, rest)
  {
    DigitRunOf(IdText(id), rest);
    if id.Some? {
      var t := NatText(id.value);
      ParseIntOfText(id.value);
      assert (t + rest)[..|t|] == t && (t + rest)[|t|..] == rest;
    } else {
      assert IdText(id) + rest == rest;
    }
  }

  lemma RestBack(p: Packet)
    requires WellFormed(p)
    ensures TakeRest(p.kind, p.attachments, NamespaceText(p.namespace) + (IdText(p.id) + DataText(p.data))) == p
  {
    var rest := IdText(p.id) + DataText(p.data);
    if p.id.Some? {
      assert rest[0] == NatText(p.id.value)[0] && IsDigit(rest[0]);
    } else {
      assert rest == DataText(p.data);
    }
    NamespaceBack(p.namespace, rest);
    IdBack(p.id, DataText(p.data));
  }

  lemma EncodeParts(p: Packet)
    ensures var s := Encode(p);
            s[0] == p.kind && s[1..] == CountText(p) + (NamespaceText(p.namespace) + (IdText(p.id) + DataText(p.data)))
  {
  }

  lemma WellFormedBack(p: Packet)
    requires WellFormed(p)
    ensures Decode(Encode(p)) == Ok(p)
  {
    hide TakeCount, TakeRest, IdText, DataText, NamespaceText;
    var rest := NamespaceText(p.namespace) + (IdText(p.id) + DataText(p.data));
    EncodeParts(p);
    RestBack(p);
    if IsBinary(p.kind) {
      CountBack(p.attachments, rest);
    } else {
      assert CountText(p) + rest == rest;
    }
  }

  /** Ambiguous data comes back shorter, or as a namespace. */
  lemma AmbiguousRest(p: Packet)
    requires Ambiguous(p)
    ensures TakeRest(p.kind, p.attachments, NamespaceText(p.namespace) + (IdText(p.id) + DataText(p.data))) != p
  {
    hide ParseInt;
    var d := p.data.value;
    assert NamespaceText(p.namespace) + (IdText(p.id) + DataText(p.data)) == d;
    var (namespace, rest) := TakeNamespace(d);
    assert |rest| < |d|;
  }

  lemma AmbiguousLost(p: Packet)
    requires Shaped(p) && Ambiguous(p)
    ensures Decode(Encode(p)) != Ok(p)
  {
    hide TakeCount, TakeRest, IdText, DataText, NamespaceText;
    var rest := NamespaceText(p.namespace) + (IdText(p.id) + DataText(p.data));
    EncodeParts(p);
    AmbiguousRest(p);
    if IsBinary(p.kind) {
      CountBack(p.attachments, rest);
    } else {
      assert CountText(p) + rest == rest;
    }
  }

  /** A packet survives being written and read exactly when it is well formed. */
  lemma PacketRoundTripIff(p: Packet)
    ensures Decode(Encode(p)) == Ok(p) <==> WellFormed(p)
  {
    hide Decode, Encode;
    if WellFormed(p) {
      WellFormedBack(p);
    } else if Decode(Encode(p)) == Ok(p) {
      DecodedIsShaped(Encode(p));
      AmbiguousLost(p);
    }
  }

  /** Whatever text decodes, writing the packet and reading it again changes nothing, except in the ambiguous case. */
  lemma DecodeStableIff(text: string)
    requires Decode(text).Ok?
    ensures var p := Decode(text).value; Decode(Encode(p)) == Ok(p) <==> !Ambiguous(p)
  {
    hide Decode, Encode;
    DecodedIsShaped(text);
    PacketRoundTripIff(Decode(text).value);
  }

  /** The ambiguous case occurs: an explicit default namespace in front of data that starts with a slash. */
  lemma AmbiguousOccurs()
    ensures Decode("2/,/x").Ok? && Ambiguous(Decode("2/,/x").value)
  {
    var s := "/,/x";
    assert "2/,/x"[1..] == s;
    assert s[..1] == "/" && ',' !in s[..1];
    IndexOfAt(s, ',', 1);
    assert s[2..] == "/x";
  }
}
