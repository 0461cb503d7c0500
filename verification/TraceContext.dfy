/** Trace propagation (otel/w3c.go, otel/tracer.go, otel/carrier.go): the W3C `traceparent` text, starting spans under a
    ratio sampler, and carrying a span context from one process to the next. */
module TraceContexts {
  import opened Text
  import opened Buffers
  import opened Bytes

  type TraceId = b: seq<Byte> | |b| == 16 witness seq(16, _ => 0)
  type SpanId = b: seq<Byte> | |b| == 8 witness seq(8, _ => 0)

  datatype SpanContext = SpanContext(traceId: TraceId, spanId: SpanId, flags: Byte, state: string, remote: bool)

  predicate NonZero(b: seq<Byte>) {
    exists i :: 0 <= i < |b| && b[i] != 0
  }

  predicate Valid(sc: SpanContext) {
    NonZero(sc.traceId) && NonZero(sc.spanId)
  }

  predicate Sampled(sc: SpanContext) {
    sc.flags % 2 == 1
  }

  function Zero(): (sc: SpanContext)
    ensures !Valid(sc) && !Sampled(sc) && sc.state == ""
  {
    SpanContext(seq(16, _ => 0), seq(8, _ => 0), 0, "", false)
  }

  // ---------------------------------------------------------------- hexadecimal text

  function HexChar(n: int): (c: char)
    requires 0 <= n < 16
    ensures '0' <= c <= '9' || 'a' <= c <= 'f'
  {
    if n < 10 then '0' + n as char else 'a' + (n - 10) as char
  }

  function FromHexChar(c: char): (r: Option<int>)
    ensures r.Some? ==> 0 <= r.value < 16
  {
    if '0' <= c <= '9' then Some(c as int - '0' as int)
    else if 'a' <= c <= 'f' then Some(c as int - 'a' as int + 10)
    else if 'A' <= c <= 'F' then Some(c as int - 'A' as int + 10)
    else None
  }

  lemma HexCharRoundTrip(n: int)
    requires 0 <= n < 16
    ensures FromHexChar(HexChar(n)) == Some(n)
  {
  }

  lemma HexCaseIgnored(c: char)
    ensures FromHexChar(c) == FromHexChar(LowerChar(c))
  {
  }

  function Hex(b: seq<Byte>): (r: string)
    ensures |r| == 2 * |b|
  {
    if b == [] then [] else [HexChar(b[0] / 16), HexChar(b[0] % 16)] + Hex(b[1..])
  }

  function FromHex(s: string): (r: Option<seq<Byte>>)
    ensures r.Some? ==> |s| == 2 * |r.value|
  {
    if s == [] then Some([])
    else if |s| == 1 then None
    else
      match (FromHexChar(s[0]), FromHexChar(s[1]), FromHex(s[2..]))
      case (Some(h), Some(l), Some(rest)) => Some([16 * h + l] + rest)
      case _ => None
  }

  lemma {:induction false} HexRoundTrip(b: seq<Byte>)
    ensures FromHex(Hex(b)) == Some(b)
  {
    if b != [] {
      HexCharRoundTrip(b[0] / 16);
      HexCharRoundTrip(b[0] % 16);
      HexRoundTrip(b[1..]);
      assert Hex(b)[2..] == Hex(b[1..]);
      assert b == [b[0]] + b[1..];
    }
  }

  // ---------------------------------------------------------------- traceparent

  function TraceParent(sc: SpanContext): (r: string)
    ensures Valid(sc) ==> |r| == 55
    ensures !Valid(sc) ==> r == []
  {
    if !Valid(sc) then []
    else ['0', '0', '-'] + Hex(sc.traceId) + ['-'] + Hex(sc.spanId) + ['-'] + Hex([sc.flags])
  }

  /** The text is put together in a buffer of 55 characters. */
  method FormatTraceParent(sc: SpanContext) returns (r: string)
    ensures r == TraceParent(sc)
  {
    hide Hex, Overlay;
    if !Valid(sc) {
      return [];
    }
    var buf := new char[55];
    ghost var was := buf[..];
    Copy(buf, 0, ['0', '0', '-']);
    OverlayTwice(was, 0, ['0', '0', '-'], Hex(sc.traceId));
    Copy(buf, 3, Hex(sc.traceId));
    ghost var a := ['0', '0', '-'] + Hex(sc.traceId);
    OverlayTwice(was, 0, a, ['-']);
    Copy(buf, 35, ['-']);
    OverlayTwice(was, 0, a + ['-'], Hex(sc.spanId));
    Copy(buf, 36, Hex(sc.spanId));
    ghost var b := a + ['-'] + Hex(sc.spanId);
    OverlayTwice(was, 0, b, ['-']);
    Copy(buf, 52, ['-']);
    OverlayTwice(was, 0, b + ['-'], Hex([sc.flags]));
    Copy(buf, 53, Hex([sc.flags]));
    OverlayAll(was, b + ['-'] + Hex([sc.flags]));
    return buf[..];
  }

  lemma OverlayAll<T>(was: seq<T>, data: seq<T>)
    requires |data| == |was|
    ensures Overlay(was, 0, data) == data
  {
  }

  /** An ID of the right length that is not all zeros. */
  function ParseId(s: string): (r: Option<seq<Byte>>)
    ensures r.Some? ==> 2 * |r.value| == |s| && NonZero(r.value)
  {
    match FromHex(s)
    case Some(b) => if NonZero(b) then Some(b) else None
    case None => None
  }

  function ParseFields(h: string): (r: Option<SpanContext>)
    requires |h| >= 55
  {
    match (ParseId(h[3..35]), ParseId(h[36..52]), FromHex(h[53..55]))
    case (Some(t), Some(s), Some(f)) => Some(SpanContext(t, s, f[0], "", true))
    case _ => None
  }

  function ParseTraceParent(text: string): (r: Option<SpanContext>)
    ensures r.Some? ==> Valid(r.value) && r.value.remote && r.value.state == ""
  {
    var h := TrimSpace(text);
    if |h| < 55 then None
    else if h[2] != '-' || h[35] != '-' || h[52] != '-' then None
    else if h[..2] == ['f', 'f'] then None
    else if h[..2] == ['0', '0'] && |h| != 55 then None
    else ParseFields(h)
  }

  lemma TraceParentParts(sc: SpanContext)
    requires Valid(sc)
    ensures var h := TraceParent(sc);
            && h[..2] == ['0', '0'] && h[2] == '-' && h[35] == '-' && h[52] == '-'
            && h[3..35] == Hex(sc.traceId) && h[36..52] == Hex(sc.spanId) && h[53..55] == Hex([sc.flags])
  {
    hide Hex;
  }

  lemma TraceParentTrimmed(sc: SpanContext)
    requires Valid(sc)
    ensures TrimSpace(TraceParent(sc)) == TraceParent(sc)
  {
    var h := TraceParent(sc);
    TraceParentParts(sc);
    assert h[0] == h[..2][0];
    assert h[54] == h[53..55][1] == Hex([sc.flags])[1] == HexChar(sc.flags % 16);
    TrimSpaceProperties(h);
  }

  /** Parsing what was formatted gives back the IDs and all eight flag bits. */
  lemma TraceParentRoundTrip(sc: SpanContext)
    requires Valid(sc)
    ensures ParseTraceParent(TraceParent(sc)) == Some(sc.(state := "", remote := true))
  {
    TraceParentTrimmed(sc);
    TraceParentParts(sc);
    HexRoundTrip(sc.traceId);
    HexRoundTrip(sc.spanId);
    HexRoundTrip([sc.flags]);
    hide Hex, FromHex, TraceParent, TrimSpace;
  }

  /** What is read from any header, of whatever version, survives being sent on. */
  lemma ParsedSurvives(text: string)
    requires ParseTraceParent(text).Some?
    ensures ParseTraceParent(TraceParent(ParseTraceParent(text).value)) == ParseTraceParent(text)
  {
    hide ParseTraceParent;
    TraceParentRoundTrip(ParseTraceParent(text).value);
  }

  predicate IsHex(s: string) {
    forall i :: 0 <= i < |s| ==> FromHexChar(s[i]).Some?
  }

  /** Hexadecimal text of an ID that is not zero. */
  predicate IsId(s: string) {
    IsHex(s) && exists i :: 0 <= i < |s| && s[i] != '0'
  }

  lemma {:induction false} FromHexIff(s: string)
    requires |s| % 2 == 0
    ensures FromHex(s).Some? <==> IsHex(s)
    ensures FromHex(s).Some? ==> (NonZero(FromHex(s).value) <==> exists i :: 0 <= i < |s| && s[i] != '0')
  {
    if s != [] {
      var rest := s[2..];
      FromHexIff(rest);
      assert IsHex(s) <==> FromHexChar(s[0]).Some? && FromHexChar(s[1]).Some? && IsHex(rest) by {
        if IsHex(rest) && FromHexChar(s[0]).Some? && FromHexChar(s[1]).Some? {
          assert forall i :: 2 <= i < |s| ==> s[i] == rest[i - 2];
        }
      }
      if FromHex(s).Some? {
        NonZeroSplit(s, rest);
        NonZeroBytes(FromHex(s).value);
        ZeroDigit(s[0]);
        ZeroDigit(s[1]);
      }
    }
  }

  lemma ZeroDigit(c: char)
    ensures FromHexChar(c) == Some(0) <==> c == '0'
  {
  }

  lemma NonZeroSplit(s: string, rest: string)
    requires |s| >= 2 && rest == s[2..]
    ensures (exists i :: 0 <= i < |s| && s[i] != '0') <==>
            s[0] != '0' || s[1] != '0' || exists i :: 0 <= i < |rest| && rest[i] != '0'
  {
    if i :| 0 <= i < |s| && s[i] != '0' {
      assert i >= 2 ==> rest[i - 2] != '0';
    }
    if i :| 0 <= i < |rest| && rest[i] != '0' {
      assert s[i + 2] != '0';
    }
  }

  lemma NonZeroBytes(b: seq<Byte>)
    requires b != []
    ensures NonZero(b) <==> b[0] != 0 || NonZero(b[1..])
  {
    if i :| 0 <= i < |b| && b[i] != 0 {
      assert i >= 1 ==> b[1..][i - 1] != 0;
    }
    if i :| 0 <= i < |b[1..]| && b[1..][i] != 0 {
      assert b[i + 1] != 0;
    }
  }

  /** The texts that are accepted. Of the version only "ff" is refused, and "00" fixes the length. */
  predicate Acceptable(h: string) {
    && |h| >= 55 && h[2] == '-' && h[35] == '-' && h[52] == '-'
    && h[..2] != ['f', 'f'] && (h[..2] == ['0', '0'] ==> |h| == 55)
    && IsId(h[3..35]) && IsId(h[36..52]) && IsHex(h[53..55])
  }

  lemma AcceptedTextIff(text: string)
    ensures ParseTraceParent(text).Some? <==> Acceptable(TrimSpace(text))
  {
    var h := TrimSpace(text);
    if |h| >= 55 {
      FromHexIff(h[3..35]);
      FromHexIff(h[36..52]);
      FromHexIff(h[53..55]);
    }
  }

  /** Any two characters will do as a version, hexadecimal or not, as long as they are not "00" or "ff". */
  lemma VersionIgnored(v: string, w: string, rest: string)
    requires |v| == 2 && |w| == 2 && Trimmed(v + rest) && Trimmed(w + rest)
    requires v != ['0', '0'] && v != ['f', 'f'] && w != ['0', '0'] && w != ['f', 'f']
    ensures ParseTraceParent(v + rest) == ParseTraceParent(w + rest)
  {
    var a, b := v + rest, w + rest;
    TrimSpaceProperties(a);
    TrimSpaceProperties(b);
    hide TrimSpace, FromHex;
    assert a[..2] == v && b[..2] == w;
    if |rest| >= 53 {
      assert a[3..35] == rest[1..33] == b[3..35];
      assert a[36..52] == rest[34..50] == b[36..52];
      assert a[53..55] == rest[51..53] == b[53..55];
    }
  }

  /** A version that is no number is accepted: the text of any valid context, with "zz" in front instead. */
  lemma VersionNeedNotBeHex(sc: SpanContext)
    requires Valid(sc)
    ensures !IsHex("zz")
    ensures ParseTraceParent("zz" + TraceParent(sc)[2..]) == Some(sc.(state := "", remote := true))
  {
    assert FromHexChar("zz"[0]).None?;
    OtherVersion(sc, ['z', 'z']);
    assert "zz" == ['z', 'z'];
  }

  lemma OtherVersion(sc: SpanContext, v: string)
    requires Valid(sc) && |v| == 2 && v != ['0', '0'] && v != ['f', 'f'] && !IsSpace(v[0])
    ensures ParseTraceParent(v + TraceParent(sc)[2..]) == Some(sc.(state := "", remote := true))
  {
    hide TrimSpace, FromHex, Hex, TraceParent;
    var h := TraceParent(sc);
    var t := v + h[2..];
    TraceParentTrimmed(sc);
    TrimSpaceProperties(h);
    assert t[|t| - 1] == h[|h| - 1] && t[0] == v[0];
    TrimSpaceProperties(t);
    TraceParentParts(sc);
    HexRoundTrip(sc.traceId);
    HexRoundTrip(sc.spanId);
    HexRoundTrip([sc.flags]);
    assert t[3..35] == h[3..35] && t[36..52] == h[36..52] && t[53..55] == h[53..55];
    assert t[..2] == v;
  }

  // ---------------------------------------------------------------- carriers

  const TRACEPARENT := "traceparent"
  const TRACESTATE := "tracestate"

  type Headers = map<string, string>

  function Get(m: Headers, key: string): (r: string) {
    if key in m then m[key] else ""
  }

  function Injected(m: Headers, sc: SpanContext): (r: Headers) {
    if !Valid(sc) then m
    else
      var n := m[TRACEPARENT := TraceParent(sc)];
      if sc.state != "" then n[TRACESTATE := sc.state] else n
  }

  function Extracted(m: Headers): (r: Option<SpanContext>) {
    if Get(m, TRACEPARENT) == "" then None
    else
      match ParseTraceParent(Get(m, TRACEPARENT))
      case None => None
      case Some(sc) => if Get(m, TRACESTATE) != "" then Some(sc.(state := Get(m, TRACESTATE))) else Some(sc)
  }

  class Carrier {
    var entries: Headers

    constructor (m: Headers)
      ensures entries == m
    {
      entries := m;
    }

    method Set(key: string, value: string)
      modifies this
      ensures entries == old(entries)[key := value]
    {
      entries := entries[key := value];
    }

    method Inject(span: Option<SpanContext>)
      modifies this
      ensures entries == if span.Some? then Injected(old(entries), span.value) else old(entries)
    {
      if span == None || !Valid(span.value) {
        return;
      }
      var text := FormatTraceParent(span.value);
      Set(TRACEPARENT, text);
      if span.value.state != "" {
        Set(TRACESTATE, span.value.state);
      }
    }

    method Extract() returns (r: Option<SpanContext>)
      ensures r == Extracted(entries)
    {
      var parent := Get(entries, TRACEPARENT);
      if parent == "" {
        return None;
      }
      r := ParseTraceParent(parent);
      if r == None {
        return;
      }
      var state := Get(entries, TRACESTATE);
      if state != "" {
        r := Some(r.value.(state := state));
      }
    }
  }

  lemma KeysDiffer()
    ensures TRACEPARENT != TRACESTATE
  {
    assert TRACEPARENT[5] != TRACESTATE[5];
  }

  /** What arrives over a carrier: everything, except that an empty state lets an old entry of the carrier through. */
  lemma HopExact(m: Headers, sc: SpanContext)
    requires Valid(sc)
    ensures Extracted(Injected(m, sc)) ==
            Some(sc.(remote := true, state := if sc.state != "" then sc.state else Get(m, TRACESTATE)))
  {
    KeysDiffer();
    TraceParentRoundTrip(sc);
    hide ParseTraceParent, TraceParent;
  }

  /** A hop keeps the context exactly if there is a state to send or the carrier holds none. */
  lemma HopKeepsIff(m: Headers, sc: SpanContext)
    requires Valid(sc)
    ensures Extracted(Injected(m, sc)) == Some(sc.(remote := true)) <==> sc.state != "" || Get(m, TRACESTATE) == ""
  {
    HopExact(m, sc);
    hide Extracted, Injected;
  }

  /** A context without a state picks up the one left in the carrier. */
  lemma StaleStateArrives(sc: SpanContext, stale: string)
    requires Valid(sc) && sc.state == "" && stale != ""
    ensures Extracted(Injected(map[TRACESTATE := stale], sc)) == Some(sc.(remote := true, state := stale))
  {
    HopExact(map[TRACESTATE := stale], sc);
  }

  // ---------------------------------------------------------------- starting spans

  const MAX_UINT64 := 0xffff_ffff_ffff_ffff

  /** The threshold of a sampler that is to take the given share of traces. */
  function Threshold(ratio: real): (t: int)
    ensures 0 <= t <= MAX_UINT64
  {
    if ratio >= 1.0 then MAX_UINT64
    else if ratio <= 0.0 then 0
    else
      assert 0.0 <= ratio * 18446744073709551616.0 < 18446744073709551616.0;
      (ratio * 18446744073709551616.0).Floor
  }

  function ShouldSample(threshold: int, parent: SpanContext, traceId: TraceId): (r: bool) {
    if Valid(parent) then Sampled(parent) else Value(traceId[8..16]) <= threshold
  }

  /** A larger ratio samples every trace a smaller one does; all traces at 1, and at 0 those whose last eight bytes are
      zero. */
  lemma RatioMonotone(a: real, b: real, parent: SpanContext, traceId: TraceId)
    requires a <= b
    ensures ShouldSample(Threshold(a), parent, traceId) ==> ShouldSample(Threshold(b), parent, traceId)
    ensures !Valid(parent) && b >= 1.0 ==> ShouldSample(Threshold(b), parent, traceId)
    ensures !Valid(parent) && b <= 0.0 ==>
              (ShouldSample(Threshold(b), parent, traceId) <==> !NonZero(traceId[8..16]))
  {
    ThresholdMonotone(a, b);
    ValueIsZero(traceId[8..16]);
    BigEndianOfValue(traceId[8..16]);
    EightBytes();
    hide Threshold, Value, Power256;
    ThresholdEnds(b);
  }

  /** Between 0 and 1 the traces without a valid parent that are sampled are exactly those whose last eight bytes, read
      as a number, are at most the ratio of two to the power 64. */
  lemma RatioExact(ratio: real, parent: SpanContext, head: seq<Byte>, low: nat)
    requires 0.0 < ratio < 1.0 && !Valid(parent) && |head| == 8 && low <= MAX_UINT64
    ensures ShouldSample(Threshold(ratio), parent, head + BigEndian(low, 8)) <==>
              low as real <= ratio * 18446744073709551616.0
  {
    EightBytes();
    ValueOfBigEndian(low, 8);
    hide BigEndian, Value, Power256;
    var id: TraceId := head + BigEndian(low, 8);
    assert id[8..16] == BigEndian(low, 8);
    FloorExact(low, ratio * 18446744073709551616.0);
  }

  lemma FloorExact(n: int, x: real)
    ensures n <= x.Floor <==> n as real <= x
  {
  }

  /** With ratio 0 a root trace is still sampled if the last half of its ID is zero. */
  lemma RatioZeroSamples(head: seq<Byte>)
    requires |head| == 8
    ensures ShouldSample(Threshold(0.0), Zero(), head + seq(8, _ => 0))
  {
    var id: TraceId := head + seq(8, _ => 0);
    RatioMonotone(0.0, 0.0, Zero(), id);
    assert forall i :: 0 <= i < 8 ==> id[8..16][i] == 0;
  }

  lemma ThresholdEnds(b: real)
    ensures b >= 1.0 ==> Threshold(b) == MAX_UINT64
    ensures b <= 0.0 ==> Threshold(b) == 0
  {
  }

  lemma ThresholdMonotone(a: real, b: real)
    requires a <= b
    ensures Threshold(a) <= Threshold(b)
  {
  }

  lemma EightBytes()
    ensures Power256(8) == MAX_UINT64 + 1
  {
    assert Power256(4) == 0x1_0000_0000;
    assert Power256(6) == 0x1_0000_0000_0000;
  }

  lemma {:induction false} ValueIsZero(b: seq<Byte>)
    ensures Value(b) == 0 <==> !NonZero(b)
  {
    if b != [] {
      var front := b[..|b| - 1];
      ValueIsZero(front);
      if NonZero(front) {
        var i :| 0 <= i < |front| && front[i] != 0;
        assert b[i] != 0;
      }
      if i :| 0 <= i < |b| && b[i] != 0 {
        assert i < |front| ==> front[i] != 0;
      }
    }
  }

  /** A new span below `parent`, which is the zero context if there is none. */
  function Start(parent: SpanContext, threshold: int, freshTrace: TraceId, freshSpan: SpanId): (sc: SpanContext) {
    var traceId := if Valid(parent) then parent.traceId else freshTrace;
    SpanContext(traceId, freshSpan, if ShouldSample(threshold, parent, traceId) then 1 else 0, parent.state, false)
  }

  /** A span without a valid parent opens a trace of its own: it is valid under the new trace ID, and the sampler alone
      decides whether it is sampled. */
  lemma RootStart(parent: SpanContext, threshold: int, freshTrace: TraceId, freshSpan: SpanId)
    requires !Valid(parent) && NonZero(freshTrace) && NonZero(freshSpan)
    ensures var sc := Start(parent, threshold, freshTrace, freshSpan);
            && Valid(sc) && sc.traceId == freshTrace && sc.spanId == freshSpan && !sc.remote
            && sc.state == parent.state
            && sc.flags == (if Value(freshTrace[8..16]) <= threshold then 1 else 0)
  {
    hide Value;
  }

  // ---------------------------------------------------------------- whole chains

  /** What a request carries within a process: the active span and, under another key, the context that came in. */
  datatype Context = Context(span: Option<SpanContext>, remote: Option<SpanContext>)

  /** The context a new span continues: that of the active span if there is one. */
  function Current(ctx: Context): (sc: SpanContext) {
    if ctx.span.Some? then ctx.span.value else if ctx.remote.Some? then ctx.remote.value else Zero()
  }

  /** A link of a chain: a span started in the same process, or a hop over a carrier into another one. */
  datatype Link = Local(threshold: int, freshTrace: TraceId, freshSpan: SpanId) | Hop(carrier: Headers)

  /** Only an active span is written into the carrier; what is read from it is the new process's remote context. */
  function Follow(ctx: Context, link: Link): (r: Context) {
    match link
    case Local(threshold, t, s) => ctx.(span := Some(Start(Current(ctx), threshold, t, s)))
    case Hop(m) =>
      Context(None, Extracted(if ctx.span.Some? then Injected(m, ctx.span.value) else m))
  }

  function Chain(root: Context, links: seq<Link>): (ctx: Context) {
    if links == [] then root else Follow(Chain(root, links[..|links| - 1]), links[|links| - 1])
  }

  /** The generated span IDs are never zero, and carriers hold neither of the two entries beforehand. */
  predicate Clean(link: Link) {
    match link
    case Local(_, _, s) => NonZero(s)
    case Hop(m) => Get(m, TRACEPARENT) == "" && Get(m, TRACESTATE) == ""
  }

  predicate AllClean(links: seq<Link>) {
    forall i :: 0 <= i < |links| ==> Clean(links[i])
  }

  /** The trace goes on: same trace ID, sampled bit and state. */
  predicate Kept(root: Context, ctx: Context) {
    var a, b := Current(root), Current(ctx);
    Valid(b) && a.traceId == b.traceId && (Sampled(a) <==> Sampled(b)) && a.state == b.state
  }

  /** Every hop leaves from an active span: a span was started just before it, or the chain begins with one. */
  predicate HopsFromSpans(root: Context, links: seq<Link>) {
    forall i :: 0 <= i < |links| && links[i].Hop? ==> SpanBefore(root, links, i)
  }

  predicate SpanBefore(root: Context, links: seq<Link>, i: nat)
    requires i <= |links|
  {
    if i == 0 then root.span.Some? else links[i - 1].Local?
  }

  lemma PrefixOfChain(root: Context, links: seq<Link>, k: nat)
    requires k <= |links|
    ensures AllClean(links) ==> AllClean(links[..k])
    ensures HopsFromSpans(root, links) ==> HopsFromSpans(root, links[..k])
  {
    hide Clean;
    if HopsFromSpans(root, links) {
      forall i | 0 <= i < k && links[..k][i].Hop?
        ensures SpanBefore(root, links[..k], i)
      {
        assert links[i].Hop? && SpanBefore(root, links, i);
      }
    }
  }

  lemma LocalKeeps(ctx: Context, link: Link)
    requires Valid(Current(ctx)) && Clean(link) && link.Local?
    ensures Kept(ctx, Follow(ctx, link)) && Follow(ctx, link).span.Some?
    ensures Current(Follow(ctx, link)).flags == Current(ctx).flags % 2
  {
  }

  lemma HopKeeps(ctx: Context, link: Link)
    requires Valid(Current(ctx)) && Clean(link) && link.Hop?
    ensures Follow(ctx, link).span.None?
    ensures ctx.span.Some? ==> Kept(ctx, Follow(ctx, link)) && Current(Follow(ctx, link)).flags == Current(ctx).flags
    ensures ctx.span.None? ==> Current(Follow(ctx, link)) == Zero()
  {
    if ctx.span.Some? {
      HopExact(link.carrier, ctx.span.value);
      hide Extracted, Injected;
      assert Current(Follow(ctx, link)) == ctx.span.value.(remote := true);
    }
  }

  lemma KeptTransitive(a: Context, b: Context, c: Context)
    requires Kept(a, b) && Kept(b, c)
    ensures Kept(a, c)
  {
  }

  lemma ActiveSpan(root: Context, links: seq<Link>)
    ensures Chain(root, links).span.Some? <==> SpanBefore(root, links, |links|)
  {
  }

  /** The last link of a chain, seen from the context before it. */
  lemma LastLink(root: Context, links: seq<Link>, before: Context)
    requires links != [] && before == Chain(root, links[..|links| - 1])
    requires Kept(root, before) && AllClean(links)
    ensures links[|links| - 1].Local? || SpanBefore(root, links, |links| - 1) ==>
              Kept(root, Chain(root, links)) &&
              Current(Chain(root, links)).flags ==
                if links[|links| - 1].Local? then Current(before).flags % 2 else Current(before).flags
    ensures links[|links| - 1].Hop? && !SpanBefore(root, links, |links| - 1) ==> !Kept(root, Chain(root, links))
  {
    hide Valid, Kept, Follow, Clean, Zero;
    var k := |links| - 1;
    var after := Follow(before, links[k]);
    assert Clean(links[k]);
    KeptIsValid(root, before);
    ActiveSpan(root, links[..k]);
    assert SpanBefore(root, links[..k], k) == SpanBefore(root, links, k);
    if links[k].Local? {
      LocalKeeps(before, links[k]);
      KeptTransitive(root, before, after);
    } else {
      HopKeeps(before, links[k]);
      if before.span.Some? {
        KeptTransitive(root, before, after);
      } else {
        ZeroIsNotKept(root, after);
      }
    }
  }

  lemma ZeroIsNotKept(root: Context, ctx: Context)
    requires Current(ctx) == Zero()
    ensures !Kept(root, ctx)
  {
  }

  lemma KeptIsValid(root: Context, ctx: Context)
    requires Kept(root, ctx)
    ensures Valid(Current(ctx))
  {
  }

  lemma {:induction false} CarriedKeeps(root: Context, links: seq<Link>)
    requires Valid(Current(root)) && AllClean(links) && HopsFromSpans(root, links)
    ensures Kept(root, Chain(root, links))
  {
    if links != [] {
      hide Valid, Kept, Follow, AllClean, Current;
      var k := |links| - 1;
      PrefixOfChain(root, links, k);
      CarriedKeeps(root, links[..k]);
      LastLink(root, links, Chain(root, links[..k]));
    }
  }

  /** A chain of child spans and hops keeps trace ID, sampled bit and state all along exactly if every hop leaves from
      an active span. */
  lemma ChainKeepsTraceIff(root: Context, links: seq<Link>)
    requires Valid(Current(root)) && AllClean(links)
    ensures (forall k :: 0 <= k <= |links| ==> Kept(root, Chain(root, links[..k]))) <==> HopsFromSpans(root, links)
  {
    hide Kept, Chain, AllClean, Valid, Current;
    if HopsFromSpans(root, links) {
      forall k | 0 <= k <= |links|
        ensures Kept(root, Chain(root, links[..k]))
      {
        PrefixOfChain(root, links, k);
        CarriedKeeps(root, links[..k]);
      }
    } else {
      var i :| 0 <= i < |links| && links[i].Hop? && !SpanBefore(root, links, i);
      if Kept(root, Chain(root, links[..i])) {
        var upTo := links[..i + 1];
        PrefixOfChain(root, links, i + 1);
        assert upTo[..i] == links[..i];
        LastLink(root, upTo, Chain(root, upTo[..i]));
        assert !Kept(root, Chain(root, links[..i + 1]));
      }
    }
  }

  /** Two hops in a row lose the trace: the process between them has no active span. */
  lemma TwoHopsLoseTrace(sc: SpanContext)
    requires Valid(sc)
    ensures var end := Chain(Context(Some(sc), None), [Hop(map[]), Hop(map[])]);
            end == Context(None, None) && !Valid(Current(end))
  {
    var root, hop := Context(Some(sc), None), Hop(map[]);
    HopKeeps(root, hop);
    hide Valid, Kept, Extracted, Injected;
    assert [hop, hop][..1] == [hop] && [hop][..0] == [];
    assert Chain(root, [hop]) == Follow(root, hop);
    assert Chain(root, [hop, hop]) == Follow(Follow(root, hop), hop);
    NothingToExtract();
  }

  lemma NothingToExtract()
    ensures Extracted(map[]) == None
  {
  }

  /** Of the flags only the sampled bit survives any link, since what is carried on is always a started span, and
      those have no other flag. */
  lemma {:induction false} FlagsAlongChain(root: Context, links: seq<Link>)
    requires Valid(Current(root)) && AllClean(links) && HopsFromSpans(root, links) && links != []
    requires root.span.Some? ==> root.span.value.flags <= 1
    ensures Current(Chain(root, links)).flags == Current(root).flags % 2
  {
    hide Valid, Kept, Follow, AllClean;
    var k := |links| - 1;
    if k == 0 {
      assert links[..k] == [];
    }
    assert links[k].Hop? ==> SpanBefore(root, links, k);
    hide HopsFromSpans;
    PrefixOfChain(root, links, k);
    CarriedKeeps(root, links[..k]);
    if k > 0 {
      FlagsAlongChain(root, links[..k]);
    }
    LastLink(root, links, Chain(root, links[..k]));
  }
}
