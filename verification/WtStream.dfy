/** WebTransport streams and datagrams on the wire (webtransport/stream.go, webtransport/session.go) and the
    demultiplexer that reads them (webtransport/dial.go). */
module Streams {
  import opened Text
  import opened Bytes
  import opened Varints

  const BIDI: Varint := 0x41
  const UNI: Varint := 0x54

  function Header(kind: Varint, sessionId: Varint): (r: seq<Byte>)
    ensures |r| >= 2
  {
    Encode(kind) + Encode(sessionId)
  }

  // ---------------------------------------------------------------- one writer after the other

  /** An outgoing stream; `header` is what the first write has to send, and is empty on streams the peer opened. */
  datatype Out = Out(header: seq<Byte>, headerWritten: bool, closed: bool, wire: seq<Byte>)

  datatype Written = Written(out: Out, n: nat, failed: bool)

  function Least(a: nat, b: nat): (r: nat) {
    if a <= b then a else b
  }

  /** A write of `p` when the transport takes at most `accepts` bytes. */
  function WriteTo(o: Out, p: seq<Byte>, accepts: nat): (r: Written) {
    if o.closed then Written(o, 0, true)
    else
      var prefix := if o.headerWritten then [] else o.header;
      var k := Least(accepts, |prefix + p|);
      Written(o.(headerWritten := true, wire := o.wire + (prefix + p)[..k]),
              if k > |prefix| then k - |prefix| else 0, k < |prefix + p|)
  }

  class Stream {
    const sessionId: Varint
    const kind: Varint
    const ours: bool
    var headerWritten: bool
    var closed: bool
    var wire: seq<Byte>

    constructor (kind: Varint, sessionId: Varint, ours: bool)
      ensures this.kind == kind && this.sessionId == sessionId && this.ours == ours
      ensures !headerWritten && !closed && wire == []
    {
      this.kind, this.sessionId, this.ours := kind, sessionId, ours;
      headerWritten, closed, wire := false, false, [];
    }

    ghost function Abstract(): (o: Out)
      reads this
    {
      Out(if ours then Header(kind, sessionId) else [], headerWritten || !ours, closed, wire)
    }

    /** The transport takes the first bytes of `data`. */
    method RawWrite(data: seq<Byte>, accepts: nat) returns (n: nat, failed: bool)
      modifies this`wire
      ensures n == Least(accepts, |data|) && failed == (n < |data|) && wire == old(wire) + data[..n]
    {
      n := if accepts <= |data| then accepts else |data|;
      failed := n < |data|;
      wire := wire + data[..n];
    }

    method Write(p: seq<Byte>, accepts: nat) returns (n: nat, failed: bool)
      modifies this
      ensures Written(Abstract(), n, failed) == WriteTo(old(Abstract()), p, accepts)
    {
      if closed {
        return 0, true;
      }
      if ours && !headerWritten {
        var header := Header(kind, sessionId);
        headerWritten := true;
        n, failed := RawWrite(header + p, accepts);
        n := if n > |header| then n - |header| else 0;
        return;
      }
      assert [] + p == p;
      n, failed := RawWrite(p, accepts);
    }
  }

  function Concat(payloads: seq<seq<Byte>>): (r: seq<Byte>) {
    if payloads == [] then [] else Concat(payloads[..|payloads| - 1]) + payloads[|payloads| - 1]
  }

  /** Writes that the transport accepts in full. */
  function WriteAll(o: Out, payloads: seq<seq<Byte>>): (r: Out) {
    if payloads == [] then o
    else
      var before := WriteAll(o, payloads[..|payloads| - 1]);
      var p := payloads[|payloads| - 1];
      WriteTo(before, p, |before.header| + |p|).out
  }

  function NewStream(kind: Varint, sessionId: Varint): (o: Out) {
    Out(Header(kind, sessionId), false, false, [])
  }

  lemma {:induction false} WireOfWrites(kind: Varint, sessionId: Varint, payloads: seq<seq<Byte>>)
    ensures var o := WriteAll(NewStream(kind, sessionId), payloads);
            && o.header == Header(kind, sessionId) && !o.closed
            && o.headerWritten == (payloads != [])
            && o.wire == if payloads == [] then [] else Header(kind, sessionId) + Concat(payloads)
  {
    hide Header;
    if payloads != [] {
      var front, p := payloads[..|payloads| - 1], payloads[|payloads| - 1];
      WireOfWrites(kind, sessionId, front);
      var h := Header(kind, sessionId);
      var prefix := if front == [] then h else [];
      assert (prefix + p)[..|prefix + p|] == prefix + p;
      assert h + Concat(front) + ([] + p) == h + (Concat(front) + p);
      assert [] + (h + p) == h + ([] + p);
    }
  }

  /** How many of the bytes on the wire are payload. */
  function PayloadOn(wire: seq<Byte>, header: seq<Byte>): (n: nat) {
    if |wire| > |header| then |wire| - |header| else 0
  }

  /** The wire holds the header and `sofar`, or nothing yet. */
  predicate InStep(o: Out, sofar: seq<Byte>) {
    && !o.closed
    && if o.headerWritten then o.wire == o.header + sofar else o.wire == [] && sofar == []
  }

  lemma WriteInStep(o: Out, sofar: seq<Byte>, p: seq<Byte>, accepts: nat)
    requires InStep(o, sofar)
    ensures var r := WriteTo(o, p, accepts);
            var whole := o.header + (sofar + p);
            && r.out.wire <= whole
            && r.failed == (r.out.wire != whole)
            && r.n == PayloadOn(r.out.wire, o.header) - |sofar|
  {
    var r := WriteTo(o, p, accepts);
    var whole := o.header + (sofar + p);
    if o.headerWritten {
      assert whole == o.wire + ([] + p);
    } else {
      assert sofar + p == p && whole == [] + (o.header + p);
    }
    assert r.out.wire == whole[..|r.out.wire|];
  }

  /** Each write reports the payload bytes it put on the wire: its whole length when the transport accepts everything,
      and never the header. */
  lemma WriteReportsPayload(kind: Varint, sessionId: Varint, payloads: seq<seq<Byte>>, p: seq<Byte>, accepts: nat)
    ensures var o := WriteAll(NewStream(kind, sessionId), payloads);
            var h := Header(kind, sessionId);
            var r := WriteTo(o, p, accepts);
            var whole := h + Concat(payloads + [p]);
            && r.out.wire <= whole
            && r.failed == (r.out.wire != whole)
            && r.n == PayloadOn(r.out.wire, h) - |Concat(payloads)|
            && (!r.failed ==> r.n == |p|)
  {
    hide Header, WriteAll;
    var o := WriteAll(NewStream(kind, sessionId), payloads);
    WireOfWrites(kind, sessionId, payloads);
    assert Concat(payloads + [p]) == Concat(payloads) + p by {
      assert (payloads + [p])[..|payloads|] == payloads;
    }
    hide WriteTo, Concat;
    assert payloads == [] ==> Concat(payloads) == [] by {
      NothingWritten();
    }
    WriteInStep(o, Concat(payloads), p, accepts);
  }

  lemma NothingWritten()
    ensures Concat([]) == []
  {
  }

  /** What the peer makes of a stream: it reads the type and the session and hands over the rest. */
  function Incoming(kind: Varint, sessionId: Varint, wire: seq<Byte>): (r: Option<seq<Byte>>) {
    match Take(wire)
    case None => None
    case Some((k, rest)) =>
      if k != kind then None
      else
        match Take(rest)
        case None => None
        case Some((id, payload)) => if id == sessionId then Some(payload) else None
  }

  method HandleIncoming(kind: Varint, sessionId: Varint, stream: Reader) returns (accepted: bool)
    modifies stream
    ensures accepted == Incoming(kind, sessionId, old(stream.rest)).Some?
    ensures accepted ==> Some(stream.rest) == Incoming(kind, sessionId, old(stream.rest))
  {
    var k := stream.ReadVarint();
    if k == None || k.value != kind {
      return false;
    }
    var id := stream.ReadVarint();
    if id == None {
      return false;
    }
    accepted := id.value == sessionId;
  }

  /** A stream is delivered to the session it was opened for, as the right kind and with exactly the bytes written, and
      to no other; a stream nothing was written on is not delivered. */
  lemma StreamDelivered(kind: Varint, id: Varint, payloads: seq<seq<Byte>>, asKind: Varint, toId: Varint)
    ensures Incoming(asKind, toId, WriteAll(NewStream(kind, id), payloads).wire) ==
            if payloads != [] && asKind == kind && toId == id then Some(Concat(payloads)) else None
  {
    hide Encode, WriteAll, Take;
    WireOfWrites(kind, id, payloads);
    var wire := WriteAll(NewStream(kind, id), payloads).wire;
    if payloads == [] {
      NothingToTake();
    } else {
      assert wire == Encode(kind) + (Encode(id) + Concat(payloads));
      TakeEncoded(kind, Encode(id) + Concat(payloads));
      TakeEncoded(id, Concat(payloads));
    }
  }

  /** A bidirectional stream is never taken for a unidirectional one, nor the other way round. */
  lemma KindsNeverMix(id: Varint, payloads: seq<seq<Byte>>, toId: Varint)
    ensures Incoming(UNI, toId, WriteAll(NewStream(BIDI, id), payloads).wire) == None
    ensures Incoming(BIDI, toId, WriteAll(NewStream(UNI, id), payloads).wire) == None
  {
    hide Incoming, WriteAll, NewStream;
    StreamDelivered(BIDI, id, payloads, UNI, toId);
    StreamDelivered(UNI, id, payloads, BIDI, toId);
  }

  lemma NothingToTake()
    ensures Take([]) == None
  {
  }

  // ---------------------------------------------------------------- datagrams

  type Uint64 = n: int | 0 <= n < 0x1_0000_0000_0000_0000

  function DatagramBytes(sessionId: Uint64, payload: seq<Byte>): (r: seq<Byte>) {
    Encode(sessionId / 4) + payload
  }

  /** The demultiplexer multiplies the quarter ID by four in 64 bits. */
  function ReceiveDatagram(sessionId: Uint64, datagram: seq<Byte>): (r: Option<seq<Byte>>) {
    if datagram == [] then None
    else
      match Decode(datagram)
      case None => None
      case Some(d) =>
        if d.value * 4 % 0x1_0000_0000_0000_0000 == sessionId then Some(datagram[d.size..]) else None
  }

  /** A datagram reaches exactly the session whose ID is the sender's rounded down to a multiple of four; so a session
      receives what is sent under its own ID if and only if that is such a multiple. */
  lemma DatagramDeliveredIff(id: Uint64, toId: Uint64, payload: seq<Byte>)
    ensures ReceiveDatagram(toId, DatagramBytes(id, payload)) == if toId == id - id % 4 then Some(payload) else None
    ensures ReceiveDatagram(id, DatagramBytes(id, payload)) == Some(payload) <==> id % 4 == 0
  {
    RoundTrip(id / 4, payload);
    assert DatagramBytes(id, payload)[|Encode(id / 4)|..] == payload;
    assert id / 4 * 4 == id - id % 4;
  }

  /** A session made with ID 1 never receives its own datagrams. The IDs of request streams are multiples of four, so it
      takes a caller that makes a session with another ID. */
  lemma DatagramLost(payload: seq<Byte>)
    ensures ReceiveDatagram(1, DatagramBytes(1, payload)) == None
  {
    DatagramDeliveredIff(1, 1, payload);
  }

  // ---------------------------------------------------------------- concurrent writers

  /** `header` says whether this writer's output starts with the header. */
  datatype Writer = Start | WantLock | Locked | Stored(header: bool) | Ready(header: bool) | Done(header: bool)

  datatype Piece = Piece(writer: nat, header: bool)

  /** `wire` holds one piece for each raw write, in order. */
  datatype State = State(headerWritten: bool, lock: Option<nat>, writers: seq<Writer>, wire: seq<Piece>)

  function Initial(n: nat): (s: State) {
    State(false, None, seq(n, _ => Start), [])
  }

  /** The next step of writer `w`; a step that is not possible changes nothing. */
  function Next(s: State, w: nat): (r: State) {
    if w >= |s.writers| then s
    else
      match s.writers[w]
      case Start => s.(writers := s.writers[w := if s.headerWritten then Ready(false) else WantLock])
      case WantLock => if s.lock == None then s.(lock := Some(w), writers := s.writers[w := Locked]) else s
      case Locked => s.(headerWritten := true, writers := s.writers[w := Stored(!s.headerWritten)])
      case Stored(header) => s.(lock := None, writers := s.writers[w := Ready(header)])
      case Ready(header) => s.(wire := s.wire + [Piece(w, header)], writers := s.writers[w := Done(header)])
      case Done(_) => s
  }

  function Run(n: nat, schedule: seq<nat>): (s: State) {
    if schedule == [] then Initial(n)
    else Next(Run(n, schedule[..|schedule| - 1]), schedule[|schedule| - 1])
  }

  predicate Past(w: Writer) {
    w.Stored? || w.Ready? || w.Done?
  }

  predicate Carries(w: Writer) {
    Past(w) && w.header
  }

  /** At most one writer carries the header, exactly one once the flag is set, and none passes before. */
  ghost predicate OneCarrier(s: State) {
    && (forall v, w :: 0 <= v < |s.writers| && 0 <= w < |s.writers| && Carries(s.writers[v]) && Carries(s.writers[w])
          ==> v == w)
    && (s.headerWritten ==> exists w :: 0 <= w < |s.writers| && Carries(s.writers[w]))
    && (!s.headerWritten ==> forall w :: 0 <= w < |s.writers| ==> !Past(s.writers[w]))
  }

  /** The wire holds one piece of each writer that is done, as that writer carried it. */
  ghost predicate OnWire(s: State) {
    && (forall i :: 0 <= i < |s.wire| ==> Matches(s, s.wire[i]))
    && (forall i, j :: 0 <= i < j < |s.wire| ==> s.wire[i].writer != s.wire[j].writer)
    && (forall w :: 0 <= w < |s.writers| && s.writers[w].Done? ==> HasPiece(s.wire, w))
  }

  predicate Matches(s: State, p: Piece) {
    p.writer < |s.writers| && s.writers[p.writer] == Done(p.header)
  }

  predicate HasPiece(wire: seq<Piece>, w: nat) {
    exists i :: 0 <= i < |wire| && wire[i].writer == w
  }

  lemma OneCarrierKept(s: State, w: nat)
    requires OneCarrier(s)
    ensures OneCarrier(Next(s, w))
  {
    var n := Next(s, w);
    if s.headerWritten {
      var v :| 0 <= v < |s.writers| && Carries(s.writers[v]);
      assert Carries(n.writers[v]);
    } else if n.headerWritten {
      assert Carries(n.writers[w]);
    }
  }

  lemma OnWireKept(s: State, w: nat)
    requires OnWire(s)
    ensures OnWire(Next(s, w))
  {
    if w < |s.writers| && s.writers[w].Ready? {
      PieceAdded(s, w);
    }
  }

  lemma PieceAdded(s: State, w: nat)
    requires OnWire(s) && w < |s.writers| && s.writers[w].Ready?
    ensures OnWire(Next(s, w))
  {
    var n := Next(s, w);
    forall i | 0 <= i < |n.wire|
      ensures Matches(n, n.wire[i]) && (i < |s.wire| ==> n.wire[i].writer != w)
    {
      assert i < |s.wire| ==> Matches(s, s.wire[i]);
    }
    forall v | 0 <= v < |n.writers| && n.writers[v].Done?
      ensures HasPiece(n.wire, v)
    {
      if v == w {
        assert n.wire[|s.wire|].writer == v;
      } else {
        assert HasPiece(s.wire, v);
        var i :| 0 <= i < |s.wire| && s.wire[i].writer == v;
        assert n.wire[i].writer == v;
      }
    }
  }

  lemma {:induction false} RunKeeps(n: nat, schedule: seq<nat>)
    ensures var s := Run(n, schedule); OneCarrier(s) && OnWire(s) && |s.writers| == n
  {
    if schedule != [] {
      hide OneCarrier, OnWire;
      var before := Run(n, schedule[..|schedule| - 1]);
      RunKeeps(n, schedule[..|schedule| - 1]);
      OneCarrierKept(before, schedule[|schedule| - 1]);
      OnWireKept(before, schedule[|schedule| - 1]);
    }
  }

  /** In every interleaving no two raw writes carry the header, and once all writers are done one of them did. */
  lemma ExactlyOneHeader(n: nat, schedule: seq<nat>)
    ensures var s := Run(n, schedule);
            forall i, j :: 0 <= i < |s.wire| && 0 <= j < |s.wire| && s.wire[i].header && s.wire[j].header ==> i == j
    ensures var s := Run(n, schedule);
            n > 0 && (forall w :: 0 <= w < |s.writers| ==> s.writers[w].Done?) ==>
              exists i :: 0 <= i < |s.wire| && s.wire[i].header
  {
    RunKeeps(n, schedule);
    hide Run;
    var s := Run(n, schedule);
    forall i, j | 0 <= i < |s.wire| && 0 <= j < |s.wire| && s.wire[i].header && s.wire[j].header
      ensures i == j
    {
      assert Matches(s, s.wire[i]) && Matches(s, s.wire[j]);
      assert Carries(s.writers[s.wire[i].writer]) && Carries(s.writers[s.wire[j].writer]);
    }
    if n > 0 && forall w :: 0 <= w < |s.writers| ==> s.writers[w].Done? {
      assert Past(s.writers[0]);
      var w :| 0 <= w < n && Carries(s.writers[w]);
      assert HasPiece(s.wire, w);
      var i :| 0 <= i < |s.wire| && s.wire[i].writer == w;
      assert Matches(s, s.wire[i]);
    }
  }

  predicate Active(w: Writer) {
    !w.Start? && !w.Done?
  }

  ghost predicate OneActive(s: State) {
    forall v, w :: 0 <= v < |s.writers| && 0 <= w < |s.writers| && Active(s.writers[v]) && Active(s.writers[w])
      ==> v == w
  }

  /** If the writers never overlap, the header is the first thing on the wire. */
  lemma {:induction false} HeaderFirstWhenSequential(n: nat, schedule: seq<nat>)
    requires forall k :: 0 <= k <= |schedule| ==> OneActive(Run(n, schedule[..k]))
    ensures Run(n, schedule).wire != [] ==> Run(n, schedule).wire[0].header
  {
    if schedule != [] {
      var front, w := schedule[..|schedule| - 1], schedule[|schedule| - 1];
      forall k | 0 <= k <= |front|
        ensures OneActive(Run(n, front[..k]))
      {
        assert front[..k] == schedule[..k];
      }
      HeaderFirstWhenSequential(n, front);
      RunKeeps(n, front);
      assert OneActive(Run(n, front)) by {
        assert front[..|front|] == front;
      }
      var before := Run(n, front);
      if before.wire == [] && w < |before.writers| && before.writers[w].Ready? {
        FirstPiece(before, w);
      }
    }
  }

  lemma FirstPiece(s: State, w: nat)
    requires OneCarrier(s) && OnWire(s) && OneActive(s) && s.wire == []
    requires w < |s.writers| && s.writers[w].Ready?
    ensures s.writers[w].header
  {
    assert Past(s.writers[w]) && Active(s.writers[w]);
    var v :| 0 <= v < |s.writers| && Carries(s.writers[v]);
    assert !HasPiece(s.wire, v);
    assert Active(s.writers[v]);
  }

  /** Step `k` is a raw write without the header while the writer that carries it has not written yet. */
  ghost predicate OvertakesAt(n: nat, schedule: seq<nat>, k: nat)
    requires k < |schedule|
  {
    var s, w := Run(n, schedule[..k]), schedule[k];
    w < |s.writers| && s.writers[w] == Ready(false) && CarrierWaits(s)
  }

  ghost predicate CarrierWaits(s: State) {
    exists v :: 0 <= v < |s.writers| && Carries(s.writers[v]) && !s.writers[v].Done?
  }

  lemma {:induction false} WireGrows(n: nat, schedule: seq<nat>, k: nat)
    requires k <= |schedule|
    ensures Run(n, schedule[..k]).wire <= Run(n, schedule).wire
  {
    if k == |schedule| {
      assert schedule[..k] == schedule;
    } else {
      var front := schedule[..|schedule| - 1];
      assert front[..k] == schedule[..k];
      WireGrows(n, front, k);
    }
  }

  /** The step that put the first piece on the wire. */
  lemma {:induction false} FirstWrite(n: nat, schedule: seq<nat>) returns (k: nat)
    requires Run(n, schedule).wire != []
    ensures k < |schedule|
    ensures var s, w := Run(n, schedule[..k]), schedule[k];
            && s.wire == [] && w < |s.writers| && s.writers[w].Ready?
            && Run(n, schedule).wire[0] == Piece(w, s.writers[w].header)
  {
    var last := |schedule| - 1;
    var front := schedule[..last];
    if Run(n, front).wire == [] {
      k := last;
    } else {
      k := FirstWrite(n, front);
      assert front[..k] == schedule[..k];
    }
  }

  /** While a plain write is ready and nothing is written, the carrier waits. */
  lemma PlainReadyFirst(s: State, w: nat)
    requires OneCarrier(s) && OnWire(s) && s.wire == [] && w < |s.writers| && s.writers[w] == Ready(false)
    ensures CarrierWaits(s)
  {
    assert Past(s.writers[w]);
    var v :| 0 <= v < |s.writers| && Carries(s.writers[v]);
    assert !HasPiece(s.wire, v);
  }

  /** While the carrier waits, nothing on the wire has the header. */
  lemma NoHeaderYet(s: State)
    requires OneCarrier(s) && OnWire(s) && s.wire != [] && CarrierWaits(s)
    ensures !s.wire[0].header
  {
    var v :| 0 <= v < |s.writers| && Carries(s.writers[v]) && !s.writers[v].Done?;
    assert Matches(s, s.wire[0]);
    assert s.wire[0].writer != v;
    assert s.wire[0].header ==> Carries(s.writers[s.wire[0].writer]);
  }

  /** In every run the header is first on the wire exactly if no other writer's raw write falls between the moment the
      carrier takes the header and the carrier's own raw write. */
  lemma HeaderFirstIff(n: nat, schedule: seq<nat>)
    requires Run(n, schedule).wire != []
    ensures Run(n, schedule).wire[0].header <==> forall k :: 0 <= k < |schedule| ==> !OvertakesAt(n, schedule, k)
  {
    hide Next, OneCarrier, OnWire, CarrierWaits;
    var end := Run(n, schedule);
    if !end.wire[0].header {
      var k := FirstWrite(n, schedule);
      RunKeeps(n, schedule[..k]);
      PlainReadyFirst(Run(n, schedule[..k]), schedule[k]);
      assert OvertakesAt(n, schedule, k);
    } else {
      forall k | 0 <= k < |schedule|
        ensures OvertakesAt(n, schedule, k) ==> !end.wire[0].header
      {
        if OvertakesAt(n, schedule, k) {
          OvertakenIsNotFirst(n, schedule, k);
        }
      }
    }
  }

  lemma OvertakenIsNotFirst(n: nat, schedule: seq<nat>, k: nat)
    requires k < |schedule| && OvertakesAt(n, schedule, k)
    ensures Run(n, schedule).wire != [] && !Run(n, schedule).wire[0].header
  {
    var s, w := Run(n, schedule[..k]), schedule[k];
    RunKeeps(n, schedule[..k]);
    hide OneCarrier, OnWire, CarrierWaits;
    WireGrows(n, schedule, k + 1);
    assert schedule[..k + 1][..k] == schedule[..k];
    assert Run(n, schedule[..k + 1]).wire == s.wire + [Piece(w, false)];
    if s.wire != [] {
      NoHeaderYet(s);
    }
  }

  /** Writer 0 takes the header, writer 1 overtakes it. */
  const OVERTAKING: seq<nat> := [0, 0, 0, 1, 1]

  /** With two writers or more, overlapping writes can put a payload before the header. */
  lemma HeaderNotFirstWhenOverlapping(n: nat)
    requires n >= 2
    ensures Run(n, OVERTAKING).wire == [Piece(1, false)]
  {
    var all := OVERTAKING;
    assert all[..4][..3] == all[..3] && all[..3][..2] == all[..2] && all[..2][..1] == all[..1] && all[..1][..0] == [];
    var s := Initial(n);
    assert Run(n, all[..1]) == s.(writers := s.writers[0 := WantLock]);
    assert Run(n, all[..2]) == s.(lock := Some(0), writers := s.writers[0 := Locked]);
    var t := State(true, Some(0), s.writers[0 := Stored(true)], []);
    assert Run(n, all[..3]) == t;
    assert Run(n, all[..4]) == t.(writers := t.writers[1 := Ready(false)]);
    assert all[..5] == all;
  }

  /** The header is first in every run exactly if there is at most one writer. */
  lemma HeaderAlwaysFirstIff(n: nat)
    ensures (forall schedule :: Run(n, schedule).wire != [] ==> Run(n, schedule).wire[0].header) <==> n <= 1
  {
    if n <= 1 {
      forall schedule | Run(n, schedule).wire != []
        ensures Run(n, schedule).wire[0].header
      {
        forall k | 0 <= k <= |schedule|
          ensures OneActive(Run(n, schedule[..k]))
        {
          RunKeeps(n, schedule[..k]);
        }
        HeaderFirstWhenSequential(n, schedule);
      }
    } else {
      HeaderNotFirstWhenOverlapping(n);
      assert !Run(n, OVERTAKING).wire[0].header;
    }
  }
}
