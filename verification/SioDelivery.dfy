/** A binary event from end to end (socketio/client.go, socketio/packet.go, socketio/engineio.go): the sender lifts the
    binary leaves and sends a header and one frame for each of them; the receiver gathers the frames and rebuilds the
    tree. */
module BinaryDelivery {
  import opened Text
  import opened Packets
  import opened BinaryTrees
  import opened Reassembly

  // ---------------------------------------------------------------- sending

  function HeaderOf(namespace: string, id: Option<int>, attachments: int, data: string): (p: Packet) {
    Packet(BINARY_EVENT, namespace, id, attachments, Some(data))
  }

  function BinaryFrames(buffers: seq<string>): (r: seq<Frame>)
    ensures |r| == |buffers| && forall i :: 0 <= i < |r| ==> r[i] == Frame(BINARY, buffers[i])
  {
    seq(|buffers|, i requires 0 <= i < |buffers| => Frame(BINARY, buffers[i]))
  }

  function SentFrames(header: Packet, buffers: seq<string>): (r: seq<Frame>) {
    [Frame(MESSAGE, Encode(header))] + BinaryFrames(buffers)
  }

  /** `emitBinaryNS` on an argument list: header first, then the attachments in order. */
  method EmitBinary(json: Json, namespace: string, id: Option<int>, args: seq<Value>)
    returns (frames: seq<Frame>, stripped: seq<Value>, buffers: seq<string>)
    ensures Stripped(Arr(args), Arr(stripped), buffers) && !HasBinary(Arr(stripped))
    ensures HasBinary(Arr(args)) <==> |buffers| > 0
    ensures frames == SentFrames(HeaderOf(namespace, id, |buffers|, json.text(stripped)), buffers)
  {
    hide Stripped, HasBinary, Numbered, Faithful, Reconstruct, Encode, SentFrames;
    var result;
    ghost var paths;
    result, buffers, paths := Deconstruct(Arr(args));
    StrippedList(args, result, buffers);
    stripped := result.items;
    var header := HeaderOf(namespace, id, |buffers|, json.text(stripped));
    frames := [Frame(MESSAGE, Encode(header))];
    NothingSent(header);
    for i := 0 to |buffers|
      invariant frames == SentFrames(header, buffers[..i])
    {
      SentOneMore(header, buffers, i);
      frames := frames + [Frame(BINARY, buffers[i])];
    }
    assert buffers[..|buffers|] == buffers;
  }

  lemma StrippedList(args: seq<Value>, w: Value, buffers: seq<string>)
    requires Stripped(Arr(args), w, buffers)
    ensures w.Arr?
  {
  }

  lemma NothingSent(header: Packet)
    ensures SentFrames(header, []) == [Frame(MESSAGE, Encode(header))]
  {
  }

  lemma SentOneMore(header: Packet, buffers: seq<string>, i: nat)
    requires i < |buffers|
    ensures SentFrames(header, buffers[..i + 1]) == SentFrames(header, buffers[..i]) + [Frame(BINARY, buffers[i])]
  {
    assert BinaryFrames(buffers[..i + 1]) == BinaryFrames(buffers[..i]) + [Frame(BINARY, buffers[i])];
  }

  // ---------------------------------------------------------------- receiving

  /** The namespace and the number of a packet can be written. */
  predicate Addressable(namespace: string, id: Option<int>) {
    && namespace != "" && namespace[0] == '/' && ',' !in namespace
    && (id.Some? ==> 0 <= id.value <= MAX_INT64)
  }

  predicate IsList(data: string) {
    data != "" && data[0] == '['
  }

  lemma HeaderArrives(namespace: string, id: Option<int>, n: nat, data: string)
    requires Addressable(namespace, id) && IsList(data) && n <= MAX_ATTACHMENTS
    ensures Decode(Encode(HeaderOf(namespace, id, n, data))) == Ok(HeaderOf(namespace, id, n, data))
    ensures IsHeader(Frame(MESSAGE, Encode(HeaderOf(namespace, id, n, data))))
  {
    var p := HeaderOf(namespace, id, n, data);
    assert WellFormed(p);
    PacketRoundTripIff(p);
    hide Decode;
    assert Encode(p)[0] == p.kind;
  }

  /** A header that announces too many attachments is not read. */
  lemma HeaderRefused(namespace: string, id: Option<int>, n: nat, data: string)
    requires MAX_ATTACHMENTS < n <= MAX_INT64
    ensures Decode(Encode(HeaderOf(namespace, id, n, data))).Err?
  {
    var p := HeaderOf(namespace, id, n, data);
    EncodeParts(p);
    var rest := NamespaceText(p.namespace) + (IdText(p.id) + DataText(p.data));
    var t := NatText(n);
    assert forall i :: 0 <= i < |t| ==> IsDigit(t[i]);
    IndexOfAfter(t, '-', rest);
    assert Encode(p)[1..] == t + ['-'] + rest;
    assert (t + ['-'] + rest)[..|t|] == t;
    ParseIntOfText(n);
  }

  /** The frames of a header and of its first `k` attachments behind an earlier run. */
  function UpTo(before: seq<Frame>, header: Packet, buffers: seq<string>, k: nat): (r: seq<Frame>)
    requires k <= |buffers|
    ensures |r| == |before| + 1 + k && r[|before|] == Frame(MESSAGE, Encode(header))
  {
    before + [Frame(MESSAGE, Encode(header))] + BinaryFrames(buffers[..k])
  }

  lemma UpToNext(before: seq<Frame>, header: Packet, buffers: seq<string>, k: nat)
    requires k < |buffers|
    ensures UpTo(before, header, buffers, k + 1) == UpTo(before, header, buffers, k) + [Frame(BINARY, buffers[k])]
  {
    assert BinaryFrames(buffers[..k + 1]) == BinaryFrames(buffers[..k]) + [Frame(BINARY, buffers[k])];
  }

  lemma UpToNeverClosed(before: seq<Frame>, header: Packet, buffers: seq<string>, k: nat)
    requires k <= |buffers| && NeverClosed(before)
    ensures NeverClosed(UpTo(before, header, buffers, k))
  {
  }

  lemma {:induction false} UpToHeader(before: seq<Frame>, header: Packet, buffers: seq<string>, k: nat)
    requires k <= |buffers| && IsHeader(Frame(MESSAGE, Encode(header)))
    ensures CurrentHeader(UpTo(before, header, buffers, k)) == Some(|before|)
    ensures Attachments(UpTo(before, header, buffers, k)[|before| + 1..]) == buffers[..k]
  {
    hide IsHeader, Attachments, UpTo, Encode, LastIndex;
    var h := Frame(MESSAGE, Encode(header));
    if k == 0 {
      UpToNone(before, header, buffers);
      assert (before + [h])[|before| + 1..] == [];
      LastIndexAppend(IsHeader, before, h);
      NothingAttached();
    } else {
      UpToHeader(before, header, buffers, k - 1);
      UpToNext(before, header, buffers, k - 1);
      var frames, f := UpTo(before, header, buffers, k - 1), Frame(BINARY, buffers[k - 1]);
      BinaryIsNoHeader(buffers[k - 1]);
      LastIndexAppend(IsHeader, frames, f);
      AttachmentsAppend(frames[|before| + 1..], f);
      assert (frames + [f])[|before| + 1..] == frames[|before| + 1..] + [f];
      assert buffers[..k - 1] + [buffers[k - 1]] == buffers[..k];
    }
  }

  lemma UpToNone(before: seq<Frame>, header: Packet, buffers: seq<string>)
    ensures UpTo(before, header, buffers, 0) == before + [Frame(MESSAGE, Encode(header))]
  {
  }

  lemma RunOneMore(json: Json, frames: seq<Frame>, f: Frame)
    ensures Run(json, frames + [f]) == Next(json, Run(json, frames), f)
  {
    assert (frames + [f])[..|frames|] == frames;
  }

  lemma NothingAttached()
    ensures Attachments([]) == []
  {
  }

  lemma BinaryIsNoHeader(payload: string)
    ensures !IsHeader(Frame(BINARY, payload))
  {
    hide Decode;
  }

  /** The packet that is dispatched for a header and its attachments. */
  function EventOf(json: Json, header: Packet, args: seq<Value>, buffers: seq<string>): (p: Packet) {
    header.(kind := EVENT, data := Some(json.text(RebuildAll(args, buffers))))
  }

  /** What comes out after `k` attachments: nothing before the last one, and then the event unless the attachments
      before the last one were too much. */
  lemma {:induction false} OutputUpTo(
    json: Json, before: seq<Frame>, header: Packet, args: seq<Value>, buffers: seq<string>, k: nat)
    requires k <= |buffers| == header.attachments && NeverClosed(before)
    requires IsHeader(Frame(MESSAGE, Encode(header))) && Decode(Encode(header)) == Ok(header)
    requires json.parse(header.data) == Some(args)
    ensures Run(json, UpTo(before, header, buffers, k)).out ==
            Run(json, before).out +
            (if 0 < k == |buffers| && Total(buffers[..k - 1]) <= MAX_BUFFERED
             then [Dispatched(EventOf(json, header, args, buffers))] else [])
  {
    hide IsHeader, Attachments, Decode, Run, Total, RebuildAll, UpTo, Encode, LastIndex, CurrentHeader, NeverClosed;
    var h := Frame(MESSAGE, Encode(header));
    if k == 0 {
      UpToNone(before, header, buffers);
      HeaderIsSilent(json, before, h);
    } else {
      var frames := UpTo(before, header, buffers, k - 1);
      OutputUpTo(json, before, header, args, buffers, k - 1);
      UpToHeader(before, header, buffers, k - 1);
      UpToNeverClosed(before, header, buffers, k - 1);
      UpToNext(before, header, buffers, k - 1);
      assert frames[|before|] == h && HeaderPacket(h) == header;
      assert k == |buffers| ==> buffers[..k - 1] + [buffers[k - 1]] == buffers;
      CompletionIff(json, frames, Frame(BINARY, buffers[k - 1]));
    }
  }

  lemma HeaderIsSilent(json: Json, before: seq<Frame>, h: Frame)
    requires NeverClosed(before) && IsHeader(h)
    ensures Run(json, before + [h]).out == Run(json, before).out
  {
    PendingAfterRun(json, before);
    hide Decode;
    assert (before + [h])[..|before|] == before;
    assert Run(json, before + [h]) == Next(json, Run(json, before), h);
  }

  // ---------------------------------------------------------------- attachments behind a refused header

  /** What an older reassembly has become after `more` further attachments. */
  function PendingNow(pending: Option<Pending>, more: seq<string>): (r: Option<Pending>) {
    match pending
    case None => None
    case Some(p) =>
      var got := p.buffers + more;
      if more == [] || (|got| < p.attachments && Total(got) <= MAX_BUFFERED) then Some(p.(buffers := got)) else None
  }

  /** The event that `more` further attachments make out of an older reassembly: as many of them are used as it still
      waits for. */
  function OlderEvent(json: Json, pending: Option<Pending>, more: seq<string>): (r: seq<Output>) {
    match pending
    case None => []
    case Some(p) =>
      var missing := p.attachments - |p.buffers|;
      var args := json.parse(p.packet.data);
      if 0 < missing <= |more| && Total(p.buffers + more[..missing - 1]) <= MAX_BUFFERED && args.Some?
      then [Dispatched(EventOf(json, p.packet, args.value, p.buffers + more[..missing]))] else []
  }

  function StateNow(json: Json, st: State, more: seq<string>): (r: State) {
    State(PendingNow(st.pending, more), st.out + OlderEvent(json, st.pending, more), st.closed)
  }

  /** What a reassembly satisfies between frames. */
  predicate Waits(p: Pending) {
    (|p.buffers| < p.attachments || p.buffers == []) && Total(p.buffers) <= MAX_BUFFERED
  }

  lemma TotalPrefix(a: seq<string>, b: seq<string>)
    requires a <= b
    ensures Total(a) <= Total(b)
  {
    TotalGrows(b, |a|);
    assert b[..|a|] == a;
  }

  /** Attachments that come after the older reassembly has ended change nothing. */
  lemma EndedStep(json: Json, p: Pending, more: seq<string>, x: string)
    requires Waits(p) && PendingNow(Some(p), more).None?
    ensures PendingNow(Some(p), more + [x]).None?
    ensures OlderEvent(json, Some(p), more + [x]) == OlderEvent(json, Some(p), more)
  {
    hide Total, EventOf;
    var got, all := p.buffers + more, p.buffers + (more + [x]);
    TotalPrefix(got, all);
    var missing := p.attachments - |p.buffers|;
    if 0 < missing <= |more| {
      assert (more + [x])[..missing - 1] == more[..missing - 1] && (more + [x])[..missing] == more[..missing];
    } else if missing == |more| + 1 {
      assert (more + [x])[..missing - 1] == more;
    }
  }

  /** One more attachment for a reassembly that waits, in terms of all it has then. */
  lemma GatherWaiting(json: Json, st: State, p: Pending, got: seq<string>, x: string)
    requires st.pending == Some(p.(buffers := got))
    ensures var all := got + [x];
            Gather(json, st, x) ==
            if !Full(p.attachments, all) then st.(pending := Some(p.(buffers := all)))
            else st.(pending := None,
                     out := st.out + if |all| == p.attachments && json.parse(p.packet.data).Some?
                                     then [Dispatched(EventOf(json, p.packet, json.parse(p.packet.data).value, all))]
                                     else [])
  {
    hide Full, RebuildAll;
    assert st.out + [] == st.out;
  }

  lemma PendingOneMore(p: Pending, more: seq<string>, x: string)
    requires Waits(p) && PendingNow(Some(p), more).Some?
    ensures var all := p.buffers + more + [x];
            PendingNow(Some(p), more + [x]) == if Full(p.attachments, all) then None else Some(p.(buffers := all))
  {
    hide Total;
    assert p.buffers + more + [x] == p.buffers + (more + [x]);
  }

  lemma EventOneMore(json: Json, p: Pending, more: seq<string>, x: string)
    requires Waits(p) && PendingNow(Some(p), more).Some?
    ensures OlderEvent(json, Some(p), more) == []
    ensures var all := p.buffers + more + [x];
            OlderEvent(json, Some(p), more + [x]) ==
            if |all| == p.attachments && json.parse(p.packet.data).Some?
            then [Dispatched(EventOf(json, p.packet, json.parse(p.packet.data).value, all))] else []
  {
    hide Total, EventOf;
    var missing := p.attachments - |p.buffers|;
    assert p.buffers + more + [x] == p.buffers + (more + [x]);
    if more == [] {
      assert p.buffers + more == p.buffers;
    }
    if missing == |more| + 1 {
      assert (more + [x])[..missing - 1] == more && (more + [x])[..missing] == more + [x];
    }
  }

  /** One more attachment for the older reassembly while it waits. */
  lemma WaitingStep(json: Json, st: State, p: Pending, more: seq<string>, x: string)
    requires st.pending == Some(p) && Waits(p) && PendingNow(Some(p), more).Some?
    ensures Gather(json, StateNow(json, st, more), x) == StateNow(json, st, more + [x])
  {
    PendingKeepsAll(p, more);
    hide Gather, PendingNow, OlderEvent, Waits, EventOf;
    GatherWaiting(json, StateNow(json, st, more), p, p.buffers + more, x);
    PendingOneMore(p, more, x);
    EventOneMore(json, p, more, x);
    FullHasAll(p.attachments, p.buffers + more + [x]);
    assert st.out + [] == st.out;
  }

  lemma PendingKeepsAll(p: Pending, more: seq<string>)
    requires PendingNow(Some(p), more).Some?
    ensures PendingNow(Some(p), more) == Some(p.(buffers := p.buffers + more))
  {
  }

  lemma FullHasAll(attachments: int, all: seq<string>)
    ensures |all| == attachments ==> Full(attachments, all)
  {
  }

  lemma OneMoreStep(json: Json, st: State, more: seq<string>, x: string)
    requires !st.closed && (st.pending.Some? ==> Waits(st.pending.value))
    ensures Next(json, StateNow(json, st, more), Frame(BINARY, x)) == StateNow(json, st, more + [x])
  {
    hide Gather, Handle, OlderEvent, Waits;
    var now := StateNow(json, st, more);
    if st.pending.None? || now.pending.None? {
      if st.pending.Some? {
        EndedStep(json, st.pending.value, more, x);
      } else {
        NoOlderEvent(json, more);
        NoOlderEvent(json, more + [x]);
      }
      NothingGathered(json, now, x);
    } else {
      WaitingStep(json, st, st.pending.value, more, x);
    }
  }

  lemma NoOlderEvent(json: Json, more: seq<string>)
    ensures OlderEvent(json, None, more) == []
  {
  }

  lemma NothingGathered(json: Json, st: State, x: string)
    requires st.pending.None?
    ensures Gather(json, st, x) == st
  {
  }

  lemma RefusedFrame(json: Json, st: State, f: Frame)
    requires !st.closed && f.kind == MESSAGE && Decode(f.payload).Err?
    ensures Next(json, st, f) == st
  {
    hide Decode;
  }

  lemma PendingWaits(json: Json, before: seq<Frame>)
    requires NeverClosed(before)
    ensures var st := Run(json, before); !st.closed && (st.pending.Some? ==> Waits(st.pending.value))
    ensures var st := Run(json, before); st.pending.Some? ==> st.pending.value.attachments <= MAX_ATTACHMENTS
  {
    PendingAfterRun(json, before);
    hide Run, Decode, Expected;
    if Run(json, before).pending.Some? {
      PendingIsBounded(json, before);
      HeaderBound(before[CurrentHeader(before).value]);
    }
  }

  lemma NothingMore(json: Json, st: State)
    requires st.pending.Some? ==> Waits(st.pending.value)
    ensures StateNow(json, st, []) == st
  {
    if st.pending.Some? {
      assert st.pending.value.buffers + [] == st.pending.value.buffers;
    }
    assert st.out + [] == st.out;
  }

  /** Behind a header that is not read, the attachments go to whatever older header still waits. */
  lemma {:induction false} RefusedUpTo(json: Json, before: seq<Frame>, header: Packet, buffers: seq<string>, k: nat)
    requires k <= |buffers| && NeverClosed(before) && Decode(Encode(header)).Err?
    ensures Run(json, UpTo(before, header, buffers, k)) == StateNow(json, Run(json, before), buffers[..k])
  {
    hide *;
    PendingWaits(json, before);
    var st := Run(json, before);
    if k == 0 {
      UpToNone(before, header, buffers);
      RunOneMore(json, before, Frame(MESSAGE, Encode(header)));
      RefusedFrame(json, st, Frame(MESSAGE, Encode(header)));
      NothingMore(json, st);
      assert buffers[..0] == [];
    } else {
      RefusedUpTo(json, before, header, buffers, k - 1);
      UpToNext(before, header, buffers, k - 1);
      RunOneMore(json, UpTo(before, header, buffers, k - 1), Frame(BINARY, buffers[k - 1]));
      OneMoreStep(json, st, buffers[..k - 1], buffers[k - 1]);
      assert buffers[..k - 1] + [buffers[k - 1]] == buffers[..k];
    }
  }

  // ---------------------------------------------------------------- one event

  /** The attachments can be announced and gathered. */
  predicate Carriable(buffers: seq<string>) {
    0 < |buffers| <= MAX_ATTACHMENTS && Total(buffers[..|buffers| - 1]) <= MAX_BUFFERED
  }

  /** The JSON library writes this list in brackets and reads it back with all numbers as floats. */
  predicate ReadsBack(json: Json, number: string -> real, items: seq<Value>) {
    IsList(json.text(items)) && json.parse(Some(json.text(items))) == Some(ViaJson(Arr(items), number).items)
  }

  /** What the frames of a binary event bring out of the receiver in state `st`. */
  function Brings(json: Json, st: State, header: Packet, wire: seq<Value>, buffers: seq<string>): (r: seq<Output>) {
    if |buffers| > MAX_ATTACHMENTS then OlderEvent(json, st.pending, buffers)
    else if Carriable(buffers) then [Dispatched(EventOf(json, header, wire, buffers))]
    else []
  }

  /** The whole path of a binary event, behind any earlier frames. With up to 64 attachments it comes out, once and
      alone, exactly if there is one at least and those before the last fit in 32 MiB. With more, its header is
      refused and its attachments complete an older header that still waits, if they can. The arguments it comes out
      with are the ones sent, up to the representation of numbers, exactly if the tree on the wire is faithful. */
  lemma BinaryEventDelivered(
    json: Json, number: string -> real, before: seq<Frame>, namespace: string, id: Option<int>,
    args: seq<Value>, stripped: seq<Value>, buffers: seq<string>)
    requires Addressable(namespace, id) && NeverClosed(before) && |buffers| <= MAX_INT64
    requires Stripped(Arr(args), Arr(stripped), buffers) && ReadsBack(json, number, stripped)
    ensures var header := HeaderOf(namespace, id, |buffers|, json.text(stripped));
            var wire := ViaJson(Arr(stripped), number).items;
            var st := Run(json, before);
            && Run(json, before + SentFrames(header, buffers)).out == st.out + Brings(json, st, header, wire, buffers)
            && (RebuildAll(wire, buffers) == ViaJson(Arr(args), number).items <==>
                Faithful(ViaJson(Arr(args), number), |buffers|))
  {
    var wire := ViaJson(Arr(stripped), number).items;
    PathDelivered(json, before, namespace, id, json.text(stripped), wire, buffers);
    WireRoundTrip(Arr(args), Arr(stripped), buffers, number);
    RebuiltArgs(wire, buffers);
  }

  lemma PathDelivered(
    json: Json, before: seq<Frame>, namespace: string, id: Option<int>, data: string, wire: seq<Value>,
    buffers: seq<string>)
    requires Addressable(namespace, id) && NeverClosed(before) && |buffers| <= MAX_INT64 && IsList(data)
    requires json.parse(Some(data)) == Some(wire)
    ensures var header := HeaderOf(namespace, id, |buffers|, data);
            var st, after := Run(json, before), Run(json, before + SentFrames(header, buffers));
            && after.out == st.out + Brings(json, st, header, wire, buffers)
            && (buffers != [] ==> after.pending.None?)
  {
    hide Run, Decode, IsHeader, Encode, EventOf, Addressable, OlderEvent, UpTo, SentFrames;
    var header := HeaderOf(namespace, id, |buffers|, data);
    assert buffers[..|buffers|] == buffers;
    SentIsUpTo(before, header, buffers);
    if |buffers| <= MAX_ATTACHMENTS {
      HeaderArrives(namespace, id, |buffers|, data);
      OutputUpTo(json, before, header, wire, buffers, |buffers|);
      GatheredAll(json, before, header, buffers);
    } else {
      HeaderRefused(namespace, id, |buffers|, data);
      RefusedUpTo(json, before, header, buffers, |buffers|);
      PendingWaits(json, before);
    }
  }

  lemma SentIsUpTo(before: seq<Frame>, header: Packet, buffers: seq<string>)
    ensures before + SentFrames(header, buffers) == UpTo(before, header, buffers, |buffers|)
  {
    assert buffers[..|buffers|] == buffers;
  }

  /** Once all announced attachments have come, nothing is pending. */
  lemma GatheredAll(json: Json, before: seq<Frame>, header: Packet, buffers: seq<string>)
    requires NeverClosed(before) && |buffers| == header.attachments
    requires IsHeader(Frame(MESSAGE, Encode(header))) && Decode(Encode(header)) == Ok(header)
    ensures buffers != [] ==> Run(json, UpTo(before, header, buffers, |buffers|)).pending.None?
  {
    hide Run, Decode, IsHeader, Encode, UpTo, Attachments, CurrentHeader, NeverClosed;
    var frames := UpTo(before, header, buffers, |buffers|);
    UpToNeverClosed(before, header, buffers, |buffers|);
    PendingAfterRun(json, frames);
    UpToHeader(before, header, buffers, |buffers|);
    assert buffers[..|buffers|] == buffers;
  }

  lemma RebuiltArgs(wire: seq<Value>, buffers: seq<string>)
    ensures Reconstruct(Arr(wire), buffers) == Arr(RebuildAll(wire, buffers))
  {
    assert Reconstruct(Arr(wire), buffers).items == RebuildAll(wire, buffers);
  }

  /** A header with one attachment waits; then an event with more than 64 is sent. The older event comes out, rebuilt
      from the first attachment of the newer one. */
  lemma OlderEventTaken(
    json: Json, older: Packet, args: seq<Value>, namespace: string, id: Option<int>, data: string, buffers: seq<string>)
    requires WellFormed(older) && older.kind == BINARY_EVENT && older.attachments == 1
    requires json.parse(older.data) == Some(args) && MAX_ATTACHMENTS < |buffers| <= MAX_INT64
    requires Addressable(namespace, id) && IsList(data) && json.parse(Some(data)).Some?
    ensures var header := HeaderOf(namespace, id, |buffers|, data);
            Run(json, [Frame(MESSAGE, Encode(older))] + SentFrames(header, buffers)).out ==
            [Dispatched(EventOf(json, older, args, [buffers[0]]))]
  {
    var before := [Frame(MESSAGE, Encode(older))];
    PacketRoundTripIff(older);
    hide Decode, WellFormed, Addressable, EventOf, SentFrames;
    assert Encode(older) != "";
    hide Encode;
    assert before[..0] == [];
    assert Run(json, before) == State(Some(Pending(1, [], older)), [], false);
    PathDelivered(json, before, namespace, id, data, json.parse(Some(data)).value, buffers);
    hide Run;
    assert [] + buffers[..0] == [] && [] + buffers[..1] == [buffers[0]];
  }

  // ---------------------------------------------------------------- any number of events

  /** An emitted event: its address, its arguments, and what lifting made of them. */
  datatype Emission = Emission(
    namespace: string, id: Option<int>, args: seq<Value>, stripped: seq<Value>, buffers: seq<string>)

  /** An event that can be emitted: an argument list with binary leaves exactly if there are attachments. */
  ghost predicate Emitted(json: Json, number: string -> real, e: Emission) {
    && Addressable(e.namespace, e.id) && |e.buffers| <= MAX_INT64
    && Stripped(Arr(e.args), Arr(e.stripped), e.buffers) && (HasBinary(Arr(e.args)) <==> |e.buffers| > 0)
    && ReadsBack(json, number, e.stripped)
  }

  function PlainPacket(namespace: string, id: Option<int>, data: string): (p: Packet) {
    Packet(EVENT, namespace, id, 0, Some(data))
  }

  /** `emitNS`: a tree without binary leaves goes out as one plain event. */
  function FramesOf(json: Json, e: Emission): (r: seq<Frame>) {
    var data := json.text(e.stripped);
    if e.buffers == [] then [Frame(MESSAGE, Encode(PlainPacket(e.namespace, e.id, data)))]
    else SentFrames(HeaderOf(e.namespace, e.id, |e.buffers|, data), e.buffers)
  }

  lemma {:induction false} StrippedSelf(v: Value)
    requires !HasBinary(v)
    ensures Stripped(v, v, [])
  {
    match v
    case Arr(items) =>
      forall i | 0 <= i < |items| ensures Stripped(items[i], items[i], []) {
        StrippedSelf(items[i]);
      }
    case Obj(fields) =>
      forall k | k in fields ensures Stripped(fields[k], fields[k], []) {
        StrippedSelf(fields[k]);
      }
    case _ =>
  }

  /** `emitNS` sends the frames of one emission: plain without binary leaves, else header and attachments. */
  method Emit(json: Json, namespace: string, id: Option<int>, args: seq<Value>)
    returns (frames: seq<Frame>, e: Emission)
    ensures frames == FramesOf(json, e) && e.namespace == namespace && e.id == id && e.args == args
    ensures Stripped(Arr(args), Arr(e.stripped), e.buffers) && (HasBinary(Arr(args)) <==> |e.buffers| > 0)
  {
    hide Stripped, Encode;
    if HasBinary(Arr(args)) {
      var stripped, buffers;
      frames, stripped, buffers := EmitBinary(json, namespace, id, args);
      e := Emission(namespace, id, args, stripped, buffers);
    } else {
      StrippedSelf(Arr(args));
      e := Emission(namespace, id, args, args, []);
      frames := [Frame(MESSAGE, Encode(PlainPacket(namespace, id, json.text(args))))];
    }
  }

  /** What a single emission brings out, if anything. */
  function EventsOf(json: Json, number: string -> real, e: Emission): (r: seq<Output>) {
    var data := json.text(e.stripped);
    if e.buffers == [] then [Dispatched(PlainPacket(e.namespace, e.id, data))]
    else if Carriable(e.buffers) then
      [Dispatched(EventOf(json, HeaderOf(e.namespace, e.id, |e.buffers|, data), ViaJson(Arr(e.stripped), number).items,
                          e.buffers))]
    else []
  }

  function AllFrames(json: Json, es: seq<Emission>): (r: seq<Frame>) {
    if es == [] then [] else AllFrames(json, es[..|es| - 1]) + FramesOf(json, es[|es| - 1])
  }

  function AllEvents(json: Json, number: string -> real, es: seq<Emission>): (r: seq<Output>) {
    if es == [] then [] else AllEvents(json, number, es[..|es| - 1]) + EventsOf(json, number, es[|es| - 1])
  }

  lemma FramesNeverClose(json: Json, e: Emission)
    ensures NeverClosed(FramesOf(json, e))
  {
    hide Encode;
  }

  lemma PlainDelivered(json: Json, before: seq<Frame>, namespace: string, id: Option<int>, data: string)
    requires Addressable(namespace, id) && IsList(data) && NeverClosed(before)
    ensures var p := PlainPacket(namespace, id, data);
            var st, after := Run(json, before), Run(json, before + [Frame(MESSAGE, Encode(p))]);
            after == st.(out := st.out + [Dispatched(p)])
  {
    hide *;
    var p := PlainPacket(namespace, id, data);
    PlainArrives(namespace, id, data);
    PendingAfterRun(json, before);
    RunOneMore(json, before, Frame(MESSAGE, Encode(p)));
    EventFrame(json, Run(json, before), Encode(p), p);
  }

  lemma PlainArrives(namespace: string, id: Option<int>, data: string)
    requires Addressable(namespace, id) && IsList(data)
    ensures var p := PlainPacket(namespace, id, data);
            Decode(Encode(p)) == Ok(p) && Encode(p) != "" && p.kind == EVENT
  {
    var p := PlainPacket(namespace, id, data);
    assert WellFormed(p);
    PacketRoundTripIff(p);
    hide Decode;
    assert Encode(p)[0] == p.kind;
  }

  lemma EventFrame(json: Json, st: State, text: string, p: Packet)
    requires !st.closed && text != "" && Decode(text) == Ok(p) && p.kind == EVENT
    ensures Next(json, st, Frame(MESSAGE, text)) == st.(out := st.out + [Dispatched(p)])
  {
    hide Decode;
  }

  lemma OneDelivered(json: Json, number: string -> real, before: seq<Frame>, e: Emission)
    requires Emitted(json, number, e) && NeverClosed(before) && Run(json, before).pending.None?
    ensures var after := Run(json, before + FramesOf(json, e));
            after.out == Run(json, before).out + EventsOf(json, number, e) && after.pending.None?
  {
    hide Run, Encode, EventOf, Addressable, HasBinary, Stripped, NeverClosed, SentFrames;
    if e.buffers == [] {
      PlainDelivered(json, before, e.namespace, e.id, json.text(e.stripped));
    } else {
      PathDelivered(json, before, e.namespace, e.id, json.text(e.stripped), ViaJson(Arr(e.stripped), number).items,
                    e.buffers);
    }
  }

  /** For any emissions one after another on a fresh connection, the output is exactly the events that can be carried,
      in order and each once, and nothing is left pending. */
  lemma {:induction false} EmissionsDelivered(json: Json, number: string -> real, es: seq<Emission>)
    requires forall i :: 0 <= i < |es| ==> Emitted(json, number, es[i])
    ensures NeverClosed(AllFrames(json, es))
    ensures var st := Run(json, AllFrames(json, es));
            st.out == AllEvents(json, number, es) && st.pending.None? && !st.closed
  {
    if es != [] {
      hide Emitted, FramesOf, EventsOf, Run, NeverClosed;
      var k := |es| - 1;
      EmissionsDelivered(json, number, es[..k]);
      var before := AllFrames(json, es[..k]);
      OneDelivered(json, number, before, es[k]);
      FramesNeverClose(json, es[k]);
      StaysOpen(json, before, FramesOf(json, es[k]));
    }
  }

  lemma StaysOpen(json: Json, a: seq<Frame>, b: seq<Frame>)
    requires NeverClosed(a) && NeverClosed(b)
    ensures NeverClosed(a + b) && !Run(json, a + b).closed
  {
    hide Run;
    PendingAfterRun(json, a + b);
  }

  /** The arguments of each event are the ones emitted, up to the representation of numbers, exactly if the tree on the
      wire is faithful. */
  lemma EmittedArguments(json: Json, number: string -> real, e: Emission)
    requires Emitted(json, number, e)
    ensures RebuildAll(ViaJson(Arr(e.stripped), number).items, e.buffers) == ViaJson(Arr(e.args), number).items <==>
            Faithful(ViaJson(Arr(e.args), number), |e.buffers|)
    ensures e.buffers == [] ==> e.stripped == e.args
  {
    WireRoundTrip(Arr(e.args), Arr(e.stripped), e.buffers, number);
    RebuiltArgs(ViaJson(Arr(e.stripped), number).items, e.buffers);
    if e.buffers == [] {
      StrippedUnchanged(Arr(e.args), Arr(e.stripped), e.buffers);
    }
  }
}
