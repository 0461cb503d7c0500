/** The loop that reads capsules from the control stream of a WebTransport session (webtransport/session.go). */
module ControlLoops {
  import opened Text
  import opened Bytes
  import opened Varints
  import opened Capsules

  const MAX_PAYLOAD := 16 * 1024 * 1024

  /** The fields of a session that the loop changes. */
  datatype Session = Session(draining: bool, closed: bool, closeError: Option<CloseError>, cancelled: bool)

  /** What an attempt to read a capsule gives: the capsule, or an error; `rest` is what the stream still holds. */
  datatype Read = Got(capsule: Capsule, rest: seq<Byte>) | Failed(rest: seq<Byte>)

  function ReadPayload(kind: Varint, length: Varint, input: seq<Byte>): (r: Read)
    ensures |r.rest| <= |input|
  {
    if length > MAX_PAYLOAD then Failed(input)
    else if length > |input| then Failed([])
    else Got(Capsule(kind, input[..length]), input[length..])
  }

  /** A payload that is there in full is read exactly if it has at most 16 MiB. */
  lemma PayloadLimitIff(kind: Varint, length: Varint, input: seq<Byte>)
    requires length <= |input|
    ensures ReadPayload(kind, length, input).Got? <==> length <= 16_777_216
    ensures length > 16_777_216 ==> ReadPayload(kind, length, input) == Failed(input)
  {
  }

  function ReadCapsule(input: seq<Byte>): (r: Read)
    ensures r.Got? ==> |r.rest| < |input|
  {
    match Take(input)
    case None => Failed([])
    case Some((kind, afterKind)) =>
      match Take(afterKind)
      case None => Failed([])
      case Some((length, afterLength)) => ReadPayload(kind, length, afterLength)
  }

  /** Closing without an error overwrites whatever close error is there, unless the session is closed already. */
  function Close(s: Session): (r: Session) {
    if s.closed then s else s.(closed := true, closeError := Some(CloseError(0, [])), cancelled := true)
  }

  function Handle(s: Session, c: Capsule): (r: Session) {
    if c.kind == DRAIN_SESSION then s.(draining := true)
    else if c.kind == CLOSE_SESSION then
      match DecodeClosePayload(c.payload)
      case Ok(e) => Close(s.(closeError := Some(e)))
      case Err(_) => Close(s)
    else s
  }

  /** The session after the loop, the capsules it read, and what it left unread. */
  datatype Outcome = Outcome(session: Session, capsules: seq<Capsule>, unread: seq<Byte>)

  /** The same outcome after the capsules in `read`. */
  function After(read: seq<Capsule>, o: Outcome): (r: Outcome) {
    o.(capsules := read + o.capsules)
  }

  lemma AfterAfter(a: seq<Capsule>, b: seq<Capsule>, o: Outcome)
    ensures After(a, After(b, o)) == After(a + b, o)
  {
    assert a + (b + o.capsules) == a + b + o.capsules;
  }

  function Loop(s: Session, input: seq<Byte>): (r: Outcome)
    decreases |input|
  {
    match ReadCapsule(input)
    case Failed(rest) => Outcome(s.(cancelled := true), [], rest)
    case Got(c, rest) =>
      if c.kind == CLOSE_SESSION then Outcome(Handle(s, c), [c], rest) else After([c], Loop(Handle(s, c), rest))
  }

  // ---------------------------------------------------------------- the loop itself

  class ControlledSession {
    var draining: bool
    var closed: bool
    var closeError: Option<CloseError>
    var cancelled: bool

    ghost function Abstract(): (s: Session)
      reads this
    {
      Session(draining, closed, closeError, cancelled)
    }

    constructor ()
      ensures Abstract() == Session(false, false, None, false)
    {
      draining, closed, closeError, cancelled := false, false, None, false;
    }

    method CloseSession()
      modifies this
      ensures Abstract() == Close(old(Abstract()))
    {
      if !closed {
        closed := true;
        closeError := Some(CloseError(0, []));
        cancelled := true;
      }
    }

    /** One pass of the loop up to the payload. */
    method FetchCapsule(stream: Reader) returns (r: Option<Capsule>)
      modifies stream
      ensures match ReadCapsule(old(stream.rest))
              case Got(c, rest) => r == Some(c) && stream.rest == rest
              case Failed(rest) => r == None && stream.rest == rest
    {
      var kind := stream.ReadVarint();
      if kind == None {
        return None;
      }
      var length := stream.ReadVarint();
      if length == None {
        return None;
      }
      if length.value > MAX_PAYLOAD {
        return None;
      }
      var payload: seq<Byte> := [];
      if length.value > 0 {
        var read := stream.ReadFull(length.value);
        if read == None {
          return None;
        }
        payload := read.value;
      }
      return Some(Capsule(kind.value, payload));
    }

    method HandleCapsule(c: Capsule) returns (stop: bool)
      modifies this
      ensures Abstract() == Handle(old(Abstract()), c) && stop == (c.kind == CLOSE_SESSION)
    {
      stop := false;
      if c.kind == DRAIN_SESSION {
        draining := true;
      } else if c.kind == CLOSE_SESSION {
        var payload := DecodeClosePayload(c.payload);
        if payload.Ok? {
          closeError := Some(payload.value);
        }
        CloseSession();
        stop := true;
      }
    }

    method ControlLoop(stream: Reader) returns (ghost read: seq<Capsule>)
      requires stream as object != this
      modifies this, stream
      ensures Outcome(Abstract(), read, stream.rest) == Loop(old(Abstract()), old(stream.rest))
    {
      hide Handle, ReadCapsule;
      read := [];
      assert After([], Loop(Abstract(), stream.rest)) == Loop(Abstract(), stream.rest) by {
        assert [] + Loop(Abstract(), stream.rest).capsules == Loop(Abstract(), stream.rest).capsules;
      }
      while true
        invariant After(read, Loop(Abstract(), stream.rest)) == Loop(old(Abstract()), old(stream.rest))
        decreases |stream.rest|
      {
        var c := FetchCapsule(stream);
        if c == None {
          cancelled := true;
          assert read + [] == read;
          return;
        }
        var stop := HandleCapsule(c.value);
        AfterAfter(read, [c.value], Loop(Abstract(), stream.rest));
        read := read + [c.value];
        if stop {
          return;
        }
      }
    }
  }

  // ---------------------------------------------------------------- theorems

  predicate Sendable(c: Capsule) {
    |c.payload| <= MAX_PAYLOAD
  }

  predicate NoClose(capsules: seq<Capsule>) {
    forall i :: 0 <= i < |capsules| ==> Sendable(capsules[i]) && capsules[i].kind != CLOSE_SESSION
  }

  predicate HasDrain(capsules: seq<Capsule>) {
    exists i :: 0 <= i < |capsules| && capsules[i].kind == DRAIN_SESSION
  }

  function AllBytes(capsules: seq<Capsule>): (r: seq<Byte>)
    requires forall i :: 0 <= i < |capsules| ==> Sendable(capsules[i])
  {
    if capsules == [] then []
    else
      assert Sendable(capsules[0]);
      CapsuleBytes(capsules[0]) + AllBytes(capsules[1..])
  }

  lemma ReadWritten(c: Capsule, rest: seq<Byte>)
    requires Sendable(c)
    ensures ReadCapsule(CapsuleBytes(c) + rest) == Got(c, rest)
  {
    hide Encode, Take;
    var kind, length := Encode(c.kind), Encode(|c.payload|);
    assert CapsuleBytes(c) + rest == kind + (length + (c.payload + rest));
    TakeEncoded(c.kind, length + (c.payload + rest));
    TakeEncoded(|c.payload|, c.payload + rest);
    assert (c.payload + rest)[..|c.payload|] == c.payload;
    assert (c.payload + rest)[|c.payload|..] == rest;
  }

  lemma LoopOne(s: Session, c: Capsule, rest: seq<Byte>)
    requires Sendable(c) && c.kind != CLOSE_SESSION
    ensures Loop(s, CapsuleBytes(c) + rest) ==
            After([c], Loop(s.(draining := s.draining || c.kind == DRAIN_SESSION), rest))
  {
    hide CapsuleBytes, ReadCapsule;
    ReadWritten(c, rest);
  }

  lemma NothingFirst(s: Session, tail: seq<Byte>)
    ensures Loop(s, AllBytes([]) + tail) == After([], Loop(s.(draining := s.draining || HasDrain([])), tail))
  {
    assert AllBytes([]) + tail == tail;
    var o := Loop(s, tail);
    assert [] + o.capsules == o.capsules;
    assert s.(draining := s.draining || HasDrain([])) == s;
  }

  lemma FirstBytes(capsules: seq<Capsule>, tail: seq<Byte>)
    requires capsules != [] && forall i :: 0 <= i < |capsules| ==> Sendable(capsules[i])
    ensures Sendable(capsules[0])
    ensures AllBytes(capsules) + tail == CapsuleBytes(capsules[0]) + (AllBytes(capsules[1..]) + tail)
  {
    hide CapsuleBytes;
    assert Sendable(capsules[0]);
  }

  /** Whatever capsules come first, known or unknown, the loop reads exactly them, is in step with what follows, and
      has become draining exactly if a drain capsule was among them. */
  lemma {:induction false} StaysInStep(s: Session, capsules: seq<Capsule>, tail: seq<Byte>)
    requires NoClose(capsules)
    ensures Loop(s, AllBytes(capsules) + tail) ==
            After(capsules, Loop(s.(draining := s.draining || HasDrain(capsules)), tail))
    decreases |capsules|
  {
    hide Loop, CapsuleBytes, After, HasDrain, AllBytes;
    if capsules == [] {
      NothingFirst(s, tail);
    } else {
      var c, more := capsules[0], capsules[1..];
      assert Sendable(c) && c.kind != CLOSE_SESSION;
      var t := s.(draining := s.draining || c.kind == DRAIN_SESSION);
      FirstBytes(capsules, tail);
      LoopOne(s, c, AllBytes(more) + tail);
      StaysInStep(t, more, tail);
      DrainSplit(capsules);
      AfterAfter([c], more, Loop(t.(draining := t.draining || HasDrain(more)), tail));
      assert [c] + more == capsules;
    }
  }

  lemma DrainSplit(capsules: seq<Capsule>)
    requires capsules != []
    ensures HasDrain(capsules) <==> capsules[0].kind == DRAIN_SESSION || HasDrain(capsules[1..])
  {
    if i :| 0 <= i < |capsules| && capsules[i].kind == DRAIN_SESSION {
      assert i > 0 ==> capsules[1..][i - 1].kind == DRAIN_SESSION;
    }
  }

  /** A whole control stream without a close capsule is read back exactly and completely. */
  lemma ControlStreamRoundTrip(s: Session, capsules: seq<Capsule>)
    requires NoClose(capsules)
    ensures Loop(s, AllBytes(capsules)) ==
            Outcome(s.(draining := s.draining || HasDrain(capsules), cancelled := true), capsules, [])
  {
    StaysInStep(s, capsules, []);
    assert AllBytes(capsules) + [] == AllBytes(capsules);
    assert capsules + [] == capsules;
    assert ReadCapsule([]) == Failed([]);
  }

  /** Different sequences of capsules never have the same bytes. */
  lemma CapsulesInjective(a: seq<Capsule>, b: seq<Capsule>)
    requires NoClose(a) && NoClose(b) && AllBytes(a) == AllBytes(b)
    ensures a == b
  {
    var s := Session(false, false, None, false);
    ControlStreamRoundTrip(s, a);
    ControlStreamRoundTrip(s, b);
  }

  /** A close capsule ends the loop and leaves the rest unread. An open session ends with code 0 and no message,
      whatever code the peer sent; only in a session that was closed already does the peer's code stay. */
  lemma PeerClose(s: Session, capsules: seq<Capsule>, payload: seq<Byte>, tail: seq<Byte>)
    requires NoClose(capsules) && |payload| <= MAX_PAYLOAD
    ensures var close := Capsule(CLOSE_SESSION, payload);
            var o := Loop(s, AllBytes(capsules) + (CapsuleBytes(close) + tail));
            && o.capsules == capsules + [close] && o.unread == tail
            && o.session.closed
            && o.session.draining == (s.draining || HasDrain(capsules))
            && o.session.closeError ==
               (if !s.closed then Some(CloseError(0, []))
                else match DecodeClosePayload(payload) case Ok(e) => Some(e) case Err(_) => s.closeError)
  {
    hide CapsuleBytes, DecodeClosePayload, ReadCapsule;
    var close := Capsule(CLOSE_SESSION, payload);
    StaysInStep(s, capsules, CapsuleBytes(close) + tail);
    ReadWritten(close, tail);
  }

  /** The peer closes with code 7; the session ends with code 0. */
  lemma PeerCodeLost()
    ensures var close := CloseCapsule(CloseError(7, []));
            && DecodeClosePayload(close.payload) == Ok(CloseError(7, []))
            && Loop(Session(false, false, None, false), CapsuleBytes(close)).session.closeError ==
               Some(CloseError(0, []))
  {
    var e := CloseError(7, []);
    var close := CloseCapsule(e);
    ClosePayloadRoundTrip(e);
    hide CapsuleBytes, DecodeClosePayload, ClosePayload, Loop;
    PeerClose(Session(false, false, None, false), [], close.payload, []);
    assert AllBytes([]) + (CapsuleBytes(close) + []) == CapsuleBytes(close);
  }
}
