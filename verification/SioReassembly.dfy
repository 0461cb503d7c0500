/** Gathering the attachments of a binary event from the inbound frames (socketio/engineio.go, socketio/packet.go). */
module Reassembly {
  import opened Text
  import opened Packets
  import opened BinaryTrees

  const MAX_BUFFERED := 32 * 1024 * 1024

  /** An Engine.IO packet: its type character and what follows. */
  datatype Frame = Frame(kind: char, payload: string)

  const CLOSE := '1'
  const MESSAGE := '4'
  const BINARY := 'b'

  const CONNECT := '0'
  const ACK := '3'
  const CONNECT_ERROR := '4'

  /** JSON text, which the package leaves to a library: an argument list, or None if the text is no list. */
  datatype Json = Json(parse: Option<string> -> Option<seq<Value>>, text: seq<Value> -> string)

  datatype Pending = Pending(attachments: int, buffers: seq<string>, packet: Packet)

  /** What a frame makes the client do. */
  datatype Output =
    | Dispatched(packet: Packet)
    | Acknowledged(id: int, data: Option<string>)
    | Connected(packet: Packet)
    | Refused

  // ---------------------------------------------------------------- the reconstructor

  function Total(buffers: seq<string>): (n: nat) {
    if buffers == [] then 0 else Total(buffers[..|buffers| - 1]) + |buffers[|buffers| - 1]|
  }

  lemma {:induction false} TotalGrows(buffers: seq<string>, i: nat)
    requires i <= |buffers|
    ensures Total(buffers[..i]) <= Total(buffers)
  {
    if i == |buffers| {
      assert buffers[..i] == buffers;
    } else {
      assert buffers[..|buffers| - 1][..i] == buffers[..i];
      TotalGrows(buffers[..|buffers| - 1], i);
    }
  }

  predicate Full(attachments: int, buffers: seq<string>) {
    Total(buffers) > MAX_BUFFERED || |buffers| >= attachments
  }

  function NewPending(p: Packet): (r: Pending) {
    Pending(if p.attachments > MAX_ATTACHMENTS then MAX_ATTACHMENTS else p.attachments, [], p)
  }

  function RebuildAll(args: seq<Value>, buffers: seq<string>): (r: seq<Value>) {
    seq(|args|, i requires 0 <= i < |args| => Reconstruct(args[i], buffers))
  }

  /** The event rebuilt from a header packet and its attachments; None if the count is off or the data is no list. */
  function Assemble(json: Json, p: Pending): (r: Option<Packet>) {
    if |p.buffers| != p.attachments then None
    else
      match json.parse(p.packet.data)
      case None => None
      case Some(args) => Some(p.packet.(kind := EVENT, data := Some(json.text(RebuildAll(args, p.buffers)))))
  }

  // ---------------------------------------------------------------- one frame

  datatype State = State(pending: Option<Pending>, out: seq<Output>, closed: bool)

  function Handle(st: State, text: string): (r: State) {
    match Decode(text)
    case Err(_) => st
    case Ok(p) =>
      if p.kind == CONNECT then st.(out := st.out + [Connected(p)])
      else if p.kind == EVENT then st.(out := st.out + [Dispatched(p)])
      else if p.kind == ACK then
        if p.id.Some? then st.(out := st.out + [Acknowledged(p.id.value, p.data)]) else st
      else if IsBinary(p.kind) then st.(pending := Some(NewPending(p)))
      else if p.kind == CONNECT_ERROR then st.(out := st.out + [Refused])
      else st
  }

  function Gather(json: Json, st: State, payload: string): (r: State) {
    match st.pending
    case None => st
    case Some(p) =>
      var more := p.(buffers := p.buffers + [payload]);
      if !Full(p.attachments, more.buffers) then st.(pending := Some(more))
      else
        match Assemble(json, more)
        case None => st.(pending := None)
        case Some(event) => st.(pending := None, out := st.out + [Dispatched(event)])
  }

  function Next(json: Json, st: State, f: Frame): (r: State) {
    if st.closed then st
    else if f.kind == CLOSE then st.(closed := true)
    else if f.kind == MESSAGE then (if f.payload == "" then st else Handle(st, f.payload))
    else if f.kind == BINARY then Gather(json, st, f.payload)
    else st
  }

  /** The receiving side of a connection; `binaryBuf` is replaced by every binary header and cleared on completion. */
  class Receiver {
    const json: Json
    var binaryBuf: Option<Pending>
    var out: seq<Output>
    var closed: bool

    constructor (json: Json)
      ensures this.json == json && Value() == State(None, [], false)
    {
      this.json := json;
      binaryBuf, out, closed := None, [], false;
    }

    function Value(): (st: State)
      reads this
    {
      State(binaryBuf, out, closed)
    }

    /** Keeps the buffer and reports whether gathering ends here. */
    method AddBuffer(p: Pending, data: string) returns (q: Pending, done: bool)
      ensures q == p.(buffers := p.buffers + [data])
      ensures done <==> Full(q.attachments, q.buffers)
    {
      q := p.(buffers := p.buffers + [data]);
      var totalSize := 0;
      for i := 0 to |q.buffers|
        invariant totalSize == Total(q.buffers[..i]) && totalSize <= MAX_BUFFERED
      {
        assert q.buffers[..i + 1][..i] == q.buffers[..i];
        totalSize := totalSize + |q.buffers[i]|;
        if totalSize > MAX_BUFFERED {
          TotalGrows(q.buffers, i + 1);
          return q, true;
        }
      }
      assert q.buffers[..|q.buffers|] == q.buffers;
      return q, |q.buffers| >= q.attachments;
    }

    method HandlePacket(data: string)
      modifies this
      ensures Value() == Handle(old(Value()), data)
    {
      var pkt := DecodePacket(data);
      if pkt.Err? {
        return;
      }
      var p := pkt.value;
      if p.kind == CONNECT {
        out := out + [Connected(p)];
      } else if p.kind == EVENT {
        out := out + [Dispatched(p)];
      } else if p.kind == ACK {
        if p.id.Some? {
          out := out + [Acknowledged(p.id.value, p.data)];
        }
      } else if p.kind == BINARY_EVENT || p.kind == BINARY_ACK {
        binaryBuf := Some(NewPending(p));
      } else if p.kind == CONNECT_ERROR {
        out := out + [Refused];
      }
    }

    method Dispatch(f: Frame)
      modifies this
      ensures Value() == Next(json, old(Value()), f)
    {
      if closed {
        return;
      }
      if f.kind == CLOSE {
        closed := true;
      } else if f.kind == MESSAGE {
        if |f.payload| > 0 {
          HandlePacket(f.payload);
        }
      } else if f.kind == BINARY && binaryBuf.Some? {
        var p, done := AddBuffer(binaryBuf.value, f.payload);
        binaryBuf := Some(p);
        if done {
          var pkt := Assemble(json, p);
          binaryBuf := None;
          if pkt.Some? {
            out := out + [Dispatched(pkt.value)];
          }
        }
      }
    }
  }

  // ---------------------------------------------------------------- whole runs

  function Run(json: Json, frames: seq<Frame>): (st: State) {
    if frames == [] then State(None, [], false)
    else Next(json, Run(json, frames[..|frames| - 1]), frames[|frames| - 1])
  }

  /** A frame that announces attachments. */
  predicate IsHeader(f: Frame) {
    f.kind == MESSAGE && f.payload != "" && Decode(f.payload).Ok? && IsBinary(Decode(f.payload).value.kind)
  }

  function HeaderPacket(f: Frame): (p: Packet)
    requires IsHeader(f)
  {
    Decode(f.payload).value
  }

  /** The most recent header of a run. */
  function CurrentHeader(frames: seq<Frame>): (r: Option<nat>) {
    LastIndex(IsHeader, frames)
  }

  /** The contents of the binary frames, in order. */
  function Attachments(frames: seq<Frame>): (r: seq<string>) {
    if frames == [] then []
    else
      var before := Attachments(frames[..|frames| - 1]);
      var last := frames[|frames| - 1];
      if last.kind == BINARY then before + [last.payload] else before
  }

  predicate NeverClosed(frames: seq<Frame>) {
    forall i :: 0 <= i < |frames| ==> frames[i].kind != CLOSE
  }

  /** Gathering goes on while nothing has come, or fewer than announced and not too much. */
  predicate StillGathering(attachments: int, got: seq<string>) {
    got == [] || (|got| < attachments && Total(got) <= MAX_BUFFERED)
  }

  /** What is pending after a run depends only on its last header and the binary frames behind it. */
  function Expected(frames: seq<Frame>): (r: Option<Pending>) {
    match CurrentHeader(frames)
    case None => None
    case Some(h) =>
      var p := HeaderPacket(frames[h]);
      var got := Attachments(frames[h + 1..]);
      if StillGathering(p.attachments, got) then Some(Pending(p.attachments, got, p)) else None
  }

  lemma HeaderBound(f: Frame)
    requires IsHeader(f)
    ensures 0 <= HeaderPacket(f).attachments <= MAX_ATTACHMENTS
  {
    DecodedIsShaped(f.payload);
  }

  lemma {:induction false} PendingAfterRun(json: Json, frames: seq<Frame>)
    requires NeverClosed(frames)
    ensures Run(json, frames).pending == Expected(frames) && !Run(json, frames).closed
  {
    hide IsHeader, Expected, Gather, Handle;
    if frames == [] {
      NothingExpected();
    } else {
      var k := |frames| - 1;
      var before, f := frames[..k], frames[k];
      assert frames == before + [f];
      PendingAfterRun(json, before);
      NextPending(json, Run(json, before), before, f);
    }
  }

  lemma NothingExpected()
    ensures Expected([]) == None
  {
  }

  lemma NextPending(json: Json, st: State, before: seq<Frame>, f: Frame)
    requires !st.closed && st.pending == Expected(before) && f.kind != CLOSE
    ensures Next(json, st, f).pending == Expected(before + [f]) && !Next(json, st, f).closed
  {
    hide Decode, Assemble, Attachments, LastIndex, Expected, Gather;
    if IsHeader(f) {
      HeaderBound(f);
      ExpectedHeader(before, f);
    } else {
      ExpectedOther(before, f);
      if f.kind == BINARY {
        match CurrentHeader(before) {
          case None => NoHeaderGather(json, st, before, f);
          case Some(h) => GatherStep(json, st, before, h, f);
        }
      }
    }
  }

  lemma NoHeaderGather(json: Json, st: State, before: seq<Frame>, f: Frame)
    requires CurrentHeader(before).None? && st.pending == Expected(before)
    ensures Gather(json, st, f.payload) == st && st.pending.None?
  {
    hide Decode, Attachments, LastIndex;
  }

  lemma ExpectedHeader(before: seq<Frame>, f: Frame)
    requires IsHeader(f)
    ensures Expected(before + [f]) == Some(Pending(HeaderPacket(f).attachments, [], HeaderPacket(f)))
  {
    hide Decode;
    var frames := before + [f];
    LastIndexAppend(IsHeader, before, f);
    assert frames[|before| + 1..] == [];
  }

  lemma ExpectedOther(before: seq<Frame>, f: Frame)
    requires !IsHeader(f)
    ensures f.kind != BINARY ==> Expected(before + [f]) == Expected(before)
    ensures f.kind == BINARY ==>
              Expected(before + [f]) ==
              match CurrentHeader(before)
              case None => None
              case Some(h) =>
                var p := HeaderPacket(before[h]);
                var got := Attachments(before[h + 1..]) + [f.payload];
                if StillGathering(p.attachments, got) then Some(Pending(p.attachments, got, p)) else None
  {
    hide Decode, StillGathering, Attachments, LastIndex;
    var frames := before + [f];
    LastIndexAppend(IsHeader, before, f);
    if CurrentHeader(before).Some? {
      var h := CurrentHeader(before).value;
      assert frames[h] == before[h] && frames[h + 1..] == before[h + 1..] + [f];
      AttachmentsAppend(before[h + 1..], f);
    }
  }

  lemma AttachmentsAppend(frames: seq<Frame>, f: Frame)
    ensures Attachments(frames + [f]) ==
            if f.kind == BINARY then Attachments(frames) + [f.payload] else Attachments(frames)
  {
    assert (frames + [f])[..|frames|] == frames;
  }

  /** One more binary frame keeps what is pending in step. */
  lemma GatherStep(json: Json, st: State, before: seq<Frame>, h: nat, f: Frame)
    requires CurrentHeader(before) == Some(h) && st.pending == Expected(before)
    ensures var p := HeaderPacket(before[h]);
            var got := Attachments(before[h + 1..]) + [f.payload];
            Gather(json, st, f.payload).pending ==
            if StillGathering(p.attachments, got) then Some(Pending(p.attachments, got, p)) else None
    ensures Gather(json, st, f.payload).closed == st.closed
  {
    hide Decode, Assemble, Attachments, LastIndex;
    var got := Attachments(before[h + 1..]) + [f.payload];
    assert got[..|got| - 1] == Attachments(before[h + 1..]);
  }

  /** Between frames a pending reassembly holds exactly the binary frames behind its header: fewer than announced, or
      none, and at most 32 MiB. */
  lemma PendingIsBounded(json: Json, frames: seq<Frame>)
    requires NeverClosed(frames) && Run(json, frames).pending.Some?
    ensures var p := Run(json, frames).pending.value;
            var h := CurrentHeader(frames);
            && h.Some? && p.packet == HeaderPacket(frames[h.value]) && p.attachments == p.packet.attachments
            && p.buffers == Attachments(frames[h.value + 1..])
            && (|p.buffers| < p.attachments || p.buffers == [])
            && Total(p.buffers) <= MAX_BUFFERED
  {
    hide Decode, Attachments, LastIndex, Run;
    PendingAfterRun(json, frames);
  }

  /** A binary frame completes an event exactly when it is the last announced attachment behind the current header,
      what came before fits the limit, and the header's data is a list; the event is then rebuilt from exactly those
      attachments in order. Nothing else is emitted. */
  lemma CompletionIff(json: Json, frames: seq<Frame>, f: Frame)
    requires NeverClosed(frames) && f.kind == BINARY
    ensures var before, after := Run(json, frames).out, Run(json, frames + [f]).out;
            match CurrentHeader(frames)
            case None => after == before
            case Some(h) =>
              var p := HeaderPacket(frames[h]);
              var got := Attachments(frames[h + 1..]);
              var args := json.parse(p.data);
              if |got| + 1 == p.attachments && Total(got) <= MAX_BUFFERED && args.Some? then
                after == before + [Dispatched(p.(kind := EVENT,
                                                 data := Some(json.text(RebuildAll(args.value, got + [f.payload])))))]
              else after == before
  {
    hide Decode, LastIndex, Attachments;
    PendingAfterRun(json, frames);
    assert (frames + [f])[..|frames|] == frames;
    assert Run(json, frames + [f]) == Gather(json, Run(json, frames), f.payload);
    var h := CurrentHeader(frames);
    if h.Some? {
      var got := Attachments(frames[h.value + 1..]) + [f.payload];
      assert got[..|got| - 1] == Attachments(frames[h.value + 1..]);
    }
  }

  /** The acknowledgements among the outputs, in order. */
  function Acknowledgements(out: seq<Output>): (r: seq<Output>) {
    if out == [] then []
    else
      var last := out[|out| - 1];
      Acknowledgements(out[..|out| - 1]) + if last.Acknowledged? then [last] else []
  }

  lemma AcknowledgementsAppend(out: seq<Output>, o: Output)
    ensures Acknowledgements(out + [o]) == Acknowledgements(out) + if o.Acknowledged? then [o] else []
  {
    assert (out + [o])[..|out|] == out;
  }

  /** What a frame acknowledges: only a plain acknowledgement with a number does. */
  function PlainAck(f: Frame): (r: seq<Output>) {
    if f.kind == MESSAGE && f.payload != "" && Decode(f.payload).Ok? && Decode(f.payload).value.kind == ACK
       && Decode(f.payload).value.id.Some?
    then [Acknowledged(Decode(f.payload).value.id.value, Decode(f.payload).value.data)]
    else []
  }

  function PlainAcks(frames: seq<Frame>): (r: seq<Output>) {
    if frames == [] then [] else PlainAcks(frames[..|frames| - 1]) + PlainAck(frames[|frames| - 1])
  }

  lemma NextAcknowledges(json: Json, st: State, f: Frame)
    requires !st.closed && f.kind != CLOSE
    ensures Acknowledgements(Next(json, st, f).out) == Acknowledgements(st.out) + PlainAck(f)
    ensures !Next(json, st, f).closed
  {
    hide Decode, Assemble, Full, Acknowledgements;
    var n := Next(json, st, f);
    if n.out != st.out {
      assert |n.out| == |st.out| + 1 && n.out == st.out + [n.out[|st.out|]];
      AcknowledgementsAppend(st.out, n.out[|st.out|]);
    }
  }

  /** Over every run the acknowledgements are exactly those of the plain acknowledgement packets: no reassembly ever
      ends in one, whatever kind of packet announced it. */
  lemma {:induction false} OnlyPlainAcks(json: Json, frames: seq<Frame>)
    requires NeverClosed(frames)
    ensures Acknowledgements(Run(json, frames).out) == PlainAcks(frames) && !Run(json, frames).closed
  {
    if frames != [] {
      hide Next, Acknowledgements, PlainAck;
      OnlyPlainAcks(json, frames[..|frames| - 1]);
      NextAcknowledges(json, Run(json, frames[..|frames| - 1]), frames[|frames| - 1]);
    }
  }

  /** The outputs other than events, in order. */
  function Replies(out: seq<Output>): (r: seq<Output>) {
    if out == [] then []
    else
      var last := out[|out| - 1];
      Replies(out[..|out| - 1]) + if last.Dispatched? then [] else [last]
  }

  lemma RepliesAppend(out: seq<Output>, o: Output)
    ensures Replies(out + [o]) == Replies(out) + if o.Dispatched? then [] else [o]
  {
    assert (out + [o])[..|out|] == out;
  }

  /** What a packet makes the client do at once: a CONNECT is answered, an EVENT dispatched, an ACK with a number
      resolves the waiting call, and a CONNECT_ERROR refuses the connection. */
  function Answer(p: Packet): (r: seq<Output>) {
    match p.kind
    case '0' => [Connected(p)]
    case '2' => [Dispatched(p)]
    case '3' => if p.id.Some? then [Acknowledged(p.id.value, p.data)] else []
    case '4' => [Refused]
    case _ => []
  }

  /** The answer to a frame: only a message that can be read has one. */
  function AnswerTo(f: Frame): (r: seq<Output>) {
    if f.kind == '4' && f.payload != "" && Decode(f.payload).Ok? then Answer(Decode(f.payload).value) else []
  }

  function AnswersTo(frames: seq<Frame>): (r: seq<Output>) {
    if frames == [] then [] else AnswersTo(frames[..|frames| - 1]) + AnswerTo(frames[|frames| - 1])
  }

  lemma NextAnswers(json: Json, st: State, f: Frame)
    requires !st.closed && f.kind != CLOSE
    ensures f.kind == MESSAGE ==> Next(json, st, f).out == st.out + AnswerTo(f)
    ensures f.kind == BINARY ==>
              Next(json, st, f).out == st.out
              || exists p :: Next(json, st, f).out == st.out + [Dispatched(p)]
    ensures f.kind != MESSAGE && f.kind != BINARY ==> Next(json, st, f).out == st.out
    ensures !Next(json, st, f).closed
  {
    hide Decode, Assemble, Full;
    assert st.out + [] == st.out;
  }

  lemma RepliesOne(out: seq<Output>, f: Frame)
    ensures Replies(out + AnswerTo(f)) == Replies(out) + Replies(AnswerTo(f))
  {
    hide Replies, Decode;
    RepliesEmpty();
    if AnswerTo(f) == [] {
      assert out + [] == out && Replies(out) + [] == Replies(out);
    } else {
      var o := AnswerTo(f)[0];
      assert AnswerTo(f) == [o] && [] + [o] == [o];
      RepliesAppend(out, o);
      RepliesAppend([], o);
    }
  }

  lemma RepliesEmpty()
    ensures Replies([]) == []
  {
  }

  /** Over every run the replies are those to the readable messages, in their order; binary frames add events only. */
  lemma {:induction false} OnlyMessagesAnswered(json: Json, frames: seq<Frame>)
    requires NeverClosed(frames)
    ensures Replies(Run(json, frames).out) == Replies(AnswersTo(frames)) && !Run(json, frames).closed
  {
    if frames != [] {
      hide Next, Replies, AnswerTo;
      var front, f := frames[..|frames| - 1], frames[|frames| - 1];
      var st := Run(json, front);
      OnlyMessagesAnswered(json, front);
      NextAnswers(json, st, f);
      RepliesOne(st.out, f);
      RepliesOne(AnswersTo(front), f);
      if f.kind != MESSAGE {
        NoAnswer(f);
        RepliesEmpty();
        assert AnswersTo(front) + [] == AnswersTo(front);
        if p :| Next(json, st, f).out == st.out + [Dispatched(p)] {
          RepliesAppend(st.out, Dispatched(p));
        }
      }
    }
  }

  lemma NoAnswer(f: Frame)
    requires f.kind != MESSAGE
    ensures AnswerTo(f) == []
  {
  }

  /** A well-formed packet that is sent as a message gets its answer, after any run. */
  lemma SentIsAnswered(json: Json, frames: seq<Frame>, p: Packet)
    requires NeverClosed(frames) && WellFormed(p)
    ensures Run(json, frames + [Frame(MESSAGE, Encode(p))]).out == Run(json, frames).out + Answer(p)
  {
    var f := Frame(MESSAGE, Encode(p));
    assert Encode(p) != "";
    PacketRoundTripIff(p);
    OnlyMessagesAnswered(json, frames);
    hide Decode, Encode, WellFormed, Next;
    assert (frames + [f])[..|frames|] == frames;
    NextAnswers(json, Run(json, frames), f);
  }

  /** A binary acknowledgement with one attachment is handed to the event handlers. */
  lemma BinaryAckBecomesEvent(json: Json, p: Packet, payload: string)
    requires WellFormed(p) && p.kind == BINARY_ACK && p.attachments == 1 && json.parse(p.data).Some?
    ensures Run(json, [Frame(MESSAGE, Encode(p)), Frame(BINARY, payload)]).out ==
            [Dispatched(p.(kind := EVENT, data := Some(json.text(RebuildAll(json.parse(p.data).value, [payload])))))]
  {
    PacketRoundTripIff(p);
    hide Decode, WellFormed;
    var h, f := Frame(MESSAGE, Encode(p)), Frame(BINARY, payload);
    assert Encode(p) != "";
    assert [h, f][..1] == [h] && [h][..0] == [];
    assert Run(json, [h]) == State(Some(Pending(1, [], p)), [], false);
    assert [] + [payload] == [payload];
    assert Total([payload]) >= 0;
  }

  /** A header that announces no attachment is never completed by binary frames. */
  lemma ZeroAnnouncedNeverCompletes(json: Json, frames: seq<Frame>, f: Frame)
    requires NeverClosed(frames) && f.kind == BINARY && CurrentHeader(frames).Some?
    requires HeaderPacket(frames[CurrentHeader(frames).value]).attachments == 0
    ensures Run(json, frames + [f]).out == Run(json, frames).out
  {
    CompletionIff(json, frames, f);
  }
}
