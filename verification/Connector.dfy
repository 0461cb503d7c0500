/** The reconnecting connector (socket/connector/connector.go) as a step system. A step is one mutex section or one
    atomic operation of one goroutine; a run is any interleaving of any number of Connect, Disconnect, Close and
    TriggerReconnect calls, read loops and reconnect loops, with a dialer that may fail and that returns a new
    connection whenever it succeeds. */
module Connectors {
  import opened Text

  /** Where a goroutine stands. `via` names the reconnect loop on whose behalf Connect runs; None for a user call. */
  datatype Thread =
    | ConnectStart(via: Option<nat>)
    | ConnectCancel
    | ConnectClaim(via: Option<nat>)
    | Dialing(via: Option<nat>)
    | Installing(via: Option<nat>, conn: nat)
    | Spawning(via: Option<nat>, conn: nat)
    | Releasing(via: Option<nat>, ok: bool)
    | Reading(conn: nat)
    | ReadClosing(conn: nat)
    | ReadDone
    | Triggering
    | LoopStarting(loop: nat)
    | LoopCheck(loop: nat)
    | LoopWait(loop: nat)
    | LoopEnd(loop: nat)
    | DisconnectCancel
    | DisconnectTake
    | Closing(conn: nat)
    | CloseSwap
    | CloseCancelLoop
    | CloseCancelRoot
    | CloseTake

  /** The connector's fields, and the history the theorems speak about: the connections the dialer returned, those
      that were installed, every call of Close on a connection, the reconnect loops that were created and those whose
      context was cancelled, and whether a Close call is past its cancelReconnect. */
  datatype Shared = Shared(
    conn: Option<nat>, reconnectCancel: Option<nat>, closed: bool, rootCancelled: bool, isConnecting: bool,
    dialed: set<nat>, installed: set<nat>, closes: multiset<nat>,
    loops: set<nat>, cancelled: set<nat>, closePassed: bool)

  datatype State = State(sh: Shared, threads: map<nat, Thread>)

  const INITIAL := State(Shared(None, None, false, false, false, {}, {}, multiset{}, {}, {}, false), map[])

  datatype Call = Connect | Disconnect | Close | TriggerReconnect

  /** One scheduling decision: a new call, or a step of a goroutine with its outcome and the identities it allocates. */
  datatype Choice = Start(tid: nat, call: Call) | Step(tid: nat, ok: bool, id: nat, spawn: nat)

  // ---------------------------------------------------------------- steps

  /** What a step does: the new fields, where the goroutine goes on (None: it ends), and a goroutine it starts. */
  datatype Effect = Effect(sh: Shared, next: Option<Thread>, child: Option<Thread>)

  function Goto(sh: Shared, next: Option<Thread>): (e: Option<Effect>) {
    Some(Effect(sh, next, None))
  }

  /** What follows when Connect returns. */
  function Returned(via: Option<nat>, ok: bool): (r: Option<Thread>) {
    match via
    case None => None
    case Some(l) => Some(if ok then LoopEnd(l) else LoopWait(l))
  }

  function CancelReconnect(sh: Shared): (r: Shared) {
    if sh.reconnectCancel.None? then sh
    else sh.(reconnectCancel := None, cancelled := sh.cancelled + {sh.reconnectCancel.value})
  }

  predicate Live(sh: Shared, loop: nat) {
    loop in sh.loops && loop !in sh.cancelled && !sh.rootCancelled
  }

  /** Installing a dialed connection closes the one it replaces, under the same lock. */
  function Install(sh: Shared, via: Option<nat>, conn: nat): (e: Option<Effect>) {
    var closes := if sh.conn.Some? then sh.closes + multiset{sh.conn.value} else sh.closes;
    Goto(sh.(conn := Some(conn), installed := sh.installed + {conn}, closes := closes), Some(Spawning(via, conn)))
  }

  /** Disconnect and Close take the current connection and close it outside the lock. */
  function Take(sh: Shared): (e: Option<Effect>) {
    Goto(sh.(conn := None), if sh.conn.Some? then Some(Closing(sh.conn.value)) else None)
  }

  /** A read loop gives up its connection only if it is still the current one. */
  function FinishReading(sh: Shared, conn: nat): (e: Option<Effect>) {
    if sh.conn == Some(conn) then Goto(sh.(conn := None), Some(ReadClosing(conn))) else Goto(sh, Some(ReadDone))
  }

  function Trigger(sh: Shared, loop: nat): (e: Option<Effect>) {
    if sh.reconnectCancel.Some? || sh.closed then Goto(sh, None)
    else if loop in sh.loops then None
    else Goto(sh.(reconnectCancel := Some(loop), loops := sh.loops + {loop}), Some(LoopStarting(loop)))
  }

  /** The step of a goroutine; None where it can only wait. */
  function Act(sh: Shared, t: Thread, ok: bool, id: nat): (e: Option<Effect>) {
    match t
    case ConnectStart(via) =>
      Goto(sh, if sh.closed then Returned(via, false) else Some(if via.None? then ConnectCancel else ConnectClaim(via)))
    case ConnectCancel => Goto(CancelReconnect(sh), Some(ConnectClaim(None)))
    case ConnectClaim(via) =>
      if sh.isConnecting then Goto(sh, Returned(via, false)) else Goto(sh.(isConnecting := true), Some(Dialing(via)))
    case Dialing(via) =>
      if !ok then Goto(sh, Some(Releasing(via, false)))
      else if id in sh.dialed then None
      else Goto(sh.(dialed := sh.dialed + {id}), Some(Installing(via, id)))
    case Installing(via, conn) => Install(sh, via, conn)
    case Spawning(via, conn) => Some(Effect(sh, Some(Releasing(via, true)), Some(Reading(conn))))
    case Releasing(via, done) => Goto(sh.(isConnecting := false), Returned(via, done))
    case Reading(conn) => if ok then None else FinishReading(sh, conn)
    case ReadClosing(conn) => Goto(sh.(closes := sh.closes + multiset{conn}), Some(ReadDone))
    case ReadDone => Goto(sh, if sh.closed then None else Some(Triggering))
    case Triggering => Trigger(sh, id)
    case LoopStarting(loop) => Goto(sh, Some(LoopCheck(loop)))
    case LoopCheck(loop) => Goto(sh, Some(if Live(sh, loop) && ok then ConnectStart(Some(loop)) else LoopEnd(loop)))
    case LoopWait(loop) =>
      if ok then Goto(sh, Some(LoopCheck(loop))) else if Live(sh, loop) then None else Goto(sh, Some(LoopEnd(loop)))
    case LoopEnd(_) => Goto(CancelReconnect(sh), None)
    case DisconnectCancel => Goto(CancelReconnect(sh), Some(DisconnectTake))
    case DisconnectTake => Take(sh)
    case Closing(conn) => Goto(sh.(closes := sh.closes + multiset{conn}), None)
    case CloseSwap => if sh.closed then Goto(sh, None) else Goto(sh.(closed := true), Some(CloseCancelLoop))
    case CloseCancelLoop => Goto(CancelReconnect(sh).(closePassed := true), Some(CloseCancelRoot))
    case CloseCancelRoot => Goto(sh.(rootCancelled := true), Some(CloseTake))
    case CloseTake => Take(sh)
  }

  function Entry(call: Call): (t: Thread) {
    match call
    case Connect => ConnectStart(None)
    case Disconnect => DisconnectCancel
    case Close => CloseSwap
    case TriggerReconnect => Triggering
  }

  function Put(threads: map<nat, Thread>, tid: nat, next: Option<Thread>): (r: map<nat, Thread>) {
    if next.Some? then threads[tid := next.value] else threads - {tid}
  }

  /** Goroutine `tid` goes on at `next`. */
  function Move(s: State, sh: Shared, tid: nat, next: Option<Thread>): (r: State) {
    State(sh, Put(s.threads, tid, next))
  }

  function Apply(s: State, tid: nat, e: Effect, spawn: nat): (r: State) {
    var moved := Move(s, e.sh, tid, e.next);
    if e.child.Some? then Move(moved, e.sh, spawn, e.child) else moved
  }

  /** A choice that is not possible in `s` changes nothing. */
  function Next(s: State, c: Choice): (r: State) {
    match c
    case Start(tid, call) => if tid in s.threads then s else Move(s, s.sh, tid, Some(Entry(call)))
    case Step(tid, ok, id, spawn) =>
      if tid !in s.threads || spawn in s.threads then s
      else
        match Act(s.sh, s.threads[tid], ok, id)
        case None => s
        case Some(e) => Apply(s, tid, e, spawn)
  }

  function Run(choices: seq<Choice>): (s: State) {
    if choices == [] then INITIAL else Next(Run(choices[..|choices| - 1]), choices[|choices| - 1])
  }

  // ---------------------------------------------------------------- invariants

  /** The connection whose Close call a goroutine has taken over. */
  function Claims(t: Option<Thread>): (r: Option<nat>) {
    if t.Some? && (t.value.ReadClosing? || t.value.Closing?) then Some(t.value.conn) else None
  }

  /** The connection that waits to be installed by a goroutine. */
  function Holds(t: Option<Thread>): (r: Option<nat>) {
    if t.Some? && t.value.Installing? then Some(t.value.conn) else None
  }

  /** The connection a goroutine reads, or starts a reader for. */
  function Reads(t: Option<Thread>): (r: Option<nat>) {
    if t.Some? && (t.value.Reading? || t.value.Spawning?) then Some(t.value.conn) else None
  }

  /** Between claiming `isConnecting` and releasing it. */
  predicate Critical(t: Option<Thread>) {
    t.Some? && (t.value.Dialing? || t.value.Installing? || t.value.Spawning? || t.value.Releasing?)
  }

  predicate AboutToCancel(t: Option<Thread>) {
    t == Some(CloseCancelLoop) || t == Some(CloseCancelRoot)
  }

  function At(s: State, tid: nat): (r: Option<Thread>) {
    if tid in s.threads then Some(s.threads[tid]) else None
  }

  ghost predicate Claimed(s: State, conn: nat) {
    exists t :: Claims(At(s, t)) == Some(conn)
  }

  /** At most one goroutine is between claiming and releasing, exactly while the flag is set. */
  ghost predicate Exclusive(s: State) {
    && (forall t, u :: Critical(At(s, t)) && Critical(At(s, u)) ==> t == u)
    && (s.sh.isConnecting <==> exists t :: Critical(At(s, t)))
  }

  /** Every installed connection is current, or claimed by exactly one goroutine, or was closed exactly once. */
  ghost predicate Accounted(s: State) {
    && s.sh.installed <= s.sh.dialed
    && (s.sh.conn.Some? ==> s.sh.conn.value in s.sh.installed && !Claimed(s, s.sh.conn.value))
    && (forall t, u :: Claims(At(s, t)).Some? && Claims(At(s, t)) == Claims(At(s, u)) ==> t == u)
    && (forall t :: Claims(At(s, t)).Some? ==> Claims(At(s, t)).value in s.sh.installed)
    && (forall c :: s.sh.closes[c] ==
                    if c in s.sh.installed && s.sh.conn != Some(c) && !Claimed(s, c) then 1 else 0)
  }

  /** Every connection the dialer returned is installed, or about to be. */
  ghost predicate Delivered(s: State) {
    && (forall t :: Holds(At(s, t)).Some? ==>
          Holds(At(s, t)).value in s.sh.dialed && Holds(At(s, t)).value !in s.sh.installed)
    && (forall c :: c in s.sh.dialed && c !in s.sh.installed ==> exists t :: Holds(At(s, t)) == Some(c))
  }

  /** The current connection has a reader that has not given it up. */
  ghost predicate Watched(s: State) {
    s.sh.conn.Some? ==> exists t :: Reads(At(s, t)) == s.sh.conn
  }

  /** The only reconnect loop whose context is not cancelled is the one the field refers to. */
  predicate OneLoop(sh: Shared) {
    && sh.cancelled <= sh.loops
    && (forall l :: l in sh.loops && l !in sh.cancelled ==> sh.reconnectCancel == Some(l))
    && (sh.reconnectCancel.Some? ==> sh.reconnectCancel.value in sh.loops && sh.reconnectCancel.value !in sh.cancelled)
  }

  /** Behind Close's cancelReconnect nothing is left to cancel, and nothing new can start; only Close cancels the root
      context. */
  ghost predicate ClosedDown(s: State) {
    && (s.sh.closePassed ==> s.sh.closed && s.sh.reconnectCancel.None?)
    && (s.sh.rootCancelled ==> s.sh.closed)
    && (forall t :: AboutToCancel(At(s, t)) ==> s.sh.closed)
  }

  ghost predicate Inv(s: State) {
    Exclusive(s) && Accounted(s) && Delivered(s) && Watched(s) && OneLoop(s.sh) && ClosedDown(s)
  }

  // ---------------------------------------------------------------- one goroutine moves

  lemma MoveAt(s: State, sh: Shared, tid: nat, next: Option<Thread>)
    ensures Move(s, sh, tid, next).sh == sh
    ensures forall t :: At(Move(s, sh, tid, next), t) == if t == tid then next else At(s, t)
  {
  }

  lemma ExclusiveMove(s: State, sh: Shared, tid: nat, next: Option<Thread>)
    requires Exclusive(s)
    requires || (sh.isConnecting == s.sh.isConnecting && Critical(next) == Critical(At(s, tid)))
             || (!s.sh.isConnecting && sh.isConnecting && Critical(next))
             || (Critical(At(s, tid)) && !sh.isConnecting && !Critical(next))
    ensures Exclusive(Move(s, sh, tid, next))
  {
    hide Critical, Move;
    var n := Move(s, sh, tid, next);
    MoveAt(s, sh, tid, next);
    if Critical(next) {
      assert Critical(At(n, tid));
    }
    if s.sh.isConnecting {
      var t :| Critical(At(s, t));
      assert t != tid ==> Critical(At(n, t));
    }
  }

  /** What happens to the accounts when goroutine `tid` moves from `now` to `next`. */
  predicate Bookkeeping(was: Shared, sh: Shared, now: Option<Thread>, next: Option<Thread>) {
    && was.dialed <= sh.dialed
    && (|| (sh.conn == was.conn && sh.installed == was.installed && sh.closes == was.closes
            && Claims(next) == Claims(now))
        || (sh.conn.None? && was.conn.Some? && sh.installed == was.installed && sh.closes == was.closes &&
            Claims(now).None? && Claims(next) == was.conn)
        || (sh.conn == was.conn && sh.installed == was.installed && Claims(now).Some? && Claims(next).None? &&
            sh.closes == was.closes + multiset{Claims(now).value})
        || (Holds(now).Some? && sh.conn == Holds(now) && sh.installed == was.installed + {Holds(now).value} &&
            Claims(now).None? && Claims(next).None? &&
            sh.closes == if was.conn.Some? then was.closes + multiset{was.conn.value} else was.closes))
  }

  lemma ClaimedMove(s: State, sh: Shared, tid: nat, next: Option<Thread>, c: nat)
    ensures var n := Move(s, sh, tid, next);
            Claimed(n, c) <==> Claims(next) == Some(c) || exists t :: t != tid && Claims(At(s, t)) == Some(c)
  {
    hide Claims, Move;
    var n := Move(s, sh, tid, next);
    MoveAt(s, sh, tid, next);
    assert Claims(At(n, tid)) == Claims(next);
  }

  lemma AccountedMove(s: State, sh: Shared, tid: nat, next: Option<Thread>)
    requires Accounted(s) && Bookkeeping(s.sh, sh, At(s, tid), next)
    requires Holds(At(s, tid)).Some? ==>
               Holds(At(s, tid)).value in s.sh.dialed && Holds(At(s, tid)).value !in s.sh.installed
    ensures Accounted(Move(s, sh, tid, next))
  {
    hide Claims, Holds, Move;
    var n := Move(s, sh, tid, next);
    MoveAt(s, sh, tid, next);
    forall c: nat
      ensures Claimed(n, c) <==> Claims(next) == Some(c) || exists t :: t != tid && Claims(At(s, t)) == Some(c)
      ensures Claimed(s, c) <==> Claims(At(s, tid)) == Some(c) || exists t :: t != tid && Claims(At(s, t)) == Some(c)
    {
      ClaimedMove(s, sh, tid, next, c);
    }
  }

  /** A dialed connection is held by the goroutine that dialed it until that goroutine installs it. */
  predicate HandOver(was: Shared, sh: Shared, held: Option<nat>, holding: Option<nat>) {
    || (sh.dialed == was.dialed && sh.installed == was.installed && holding == held)
    || (held.None? && holding.Some? && holding.value !in was.dialed &&
        sh.dialed == was.dialed + {holding.value} && sh.installed == was.installed)
    || (held.Some? && holding.None? && sh.dialed == was.dialed && sh.installed == was.installed + {held.value})
  }

  lemma DeliveredMove(s: State, sh: Shared, tid: nat, next: Option<Thread>)
    requires Delivered(s) && Exclusive(s) && s.sh.installed <= s.sh.dialed
    requires HandOver(s.sh, sh, Holds(At(s, tid)), Holds(next))
    ensures Delivered(Move(s, sh, tid, next))
  {
    var n := Move(s, sh, tid, next);
    OneHolder(s);
    hide Holds, Move, Exclusive;
    MoveAt(s, sh, tid, next);
    forall c | c in sh.dialed && c !in sh.installed ensures exists t :: Holds(At(n, t)) == Some(c) {
      if c in s.sh.dialed && Holds(At(s, tid)) != Some(c) {
        var t :| Holds(At(s, t)) == Some(c);
        assert Holds(At(n, t)) == Some(c);
      } else {
        assert Holds(At(n, tid)) == Some(c);
      }
    }
  }

  lemma OneHolder(s: State)
    requires Exclusive(s)
    ensures forall t, u :: Holds(At(s, t)).Some? && Holds(At(s, u)).Some? ==> t == u
  {
    forall t, u | Holds(At(s, t)).Some? && Holds(At(s, u)).Some? ensures t == u {
      assert Critical(At(s, t)) && Critical(At(s, u));
    }
  }

  lemma WatchedMove(s: State, sh: Shared, tid: nat, next: Option<Thread>)
    requires Watched(s)
    requires sh.conn.Some? ==>
               Reads(next) == sh.conn || (sh.conn == s.sh.conn && Reads(At(s, tid)) != sh.conn)
    ensures Watched(Move(s, sh, tid, next))
  {
    hide Reads, Move;
    var n := Move(s, sh, tid, next);
    MoveAt(s, sh, tid, next);
    if sh.conn.Some? {
      if Reads(next) == sh.conn {
        assert Reads(At(n, tid)) == sh.conn;
      } else {
        var t :| Reads(At(s, t)) == sh.conn;
        assert Reads(At(n, t)) == sh.conn;
      }
    }
  }

  lemma ClosedDownMove(s: State, sh: Shared, tid: nat, next: Option<Thread>)
    requires ClosedDown(s) && (s.sh.closed ==> sh.closed)
    requires sh.closePassed ==> sh.closed && sh.reconnectCancel.None?
    requires sh.rootCancelled ==> sh.closed
    requires AboutToCancel(next) ==> sh.closed
    ensures ClosedDown(Move(s, sh, tid, next))
  {
    hide AboutToCancel, Move;
    MoveAt(s, sh, tid, next);
  }

  // ---------------------------------------------------------------- what each step does to the books

  lemma ActExclusive(sh: Shared, t: Thread, ok: bool, id: nat)
    requires Act(sh, t, ok, id).Some?
    ensures var e := Act(sh, t, ok, id).value;
            || (e.sh.isConnecting == sh.isConnecting && Critical(e.next) == Critical(Some(t)))
            || (!sh.isConnecting && e.sh.isConnecting && Critical(e.next))
            || (Critical(Some(t)) && !e.sh.isConnecting && !Critical(e.next))
    ensures Act(sh, t, ok, id).value.child.Some? ==>
              t.Spawning? && Act(sh, t, ok, id).value.child == Some(Reading(t.conn)) &&
              Act(sh, t, ok, id).value.sh == sh
  {
  }

  predicate TouchesConnections(t: Thread) {
    t.Installing? || t.Reading? || t.ReadClosing? || t.Closing? || t.DisconnectTake? || t.CloseTake?
  }

  predicate Connecting(t: Thread) {
    t.ConnectStart? || t.ConnectCancel? || t.ConnectClaim? || t.Dialing? || t.Spawning? || t.Releasing?
  }

  predicate Looping(t: Thread) {
    t.ReadDone? || t.Triggering? || t.LoopStarting? || t.LoopCheck? || t.LoopWait? || t.LoopEnd?
  }

  predicate LeavesConnections(was: Shared, sh: Shared) {
    sh.conn == was.conn && sh.closes == was.closes
  }

  lemma ConnectingLeaves(sh: Shared, t: Thread, ok: bool, id: nat)
    requires Act(sh, t, ok, id).Some? && Connecting(t)
    ensures LeavesConnections(sh, Act(sh, t, ok, id).value.sh)
  {
    hide Install, Take, FinishReading, Live, Returned, Trigger;
  }

  lemma LoopingLeaves(sh: Shared, t: Thread, ok: bool, id: nat)
    requires Act(sh, t, ok, id).Some? && Looping(t)
    ensures LeavesConnections(sh, Act(sh, t, ok, id).value.sh)
  {
    hide Install, Take, FinishReading, Live, Returned;
  }

  lemma ActLeavesConnections(sh: Shared, t: Thread, ok: bool, id: nat)
    requires Act(sh, t, ok, id).Some? && !TouchesConnections(t)
    ensures LeavesConnections(sh, Act(sh, t, ok, id).value.sh)
  {
    if Connecting(t) {
      ConnectingLeaves(sh, t, ok, id);
    } else if Looping(t) {
      LoopingLeaves(sh, t, ok, id);
    } else {
      hide Install, Take, FinishReading, Live, Returned, Trigger;
      assert t.DisconnectCancel? || t.CloseSwap? || t.CloseCancelLoop? || t.CloseCancelRoot?;
    }
  }

  lemma ActClaimsNothing(sh: Shared, t: Thread, ok: bool, id: nat)
    requires Act(sh, t, ok, id).Some? && !TouchesConnections(t)
    ensures Claims(Some(t)).None? && Claims(Act(sh, t, ok, id).value.next).None?
  {
    hide CancelReconnect;
  }

  lemma ActInstalls(sh: Shared, t: Thread, ok: bool, id: nat)
    requires Act(sh, t, ok, id).Some? && !t.Installing?
    ensures Act(sh, t, ok, id).value.sh.installed == sh.installed && Holds(Some(t)).None?
  {
  }

  lemma ActDials(sh: Shared, t: Thread, ok: bool, id: nat)
    requires Act(sh, t, ok, id).Some? && !t.Dialing?
    ensures Act(sh, t, ok, id).value.sh.dialed == sh.dialed && Holds(Act(sh, t, ok, id).value.next).None?
  {
  }

  lemma ActBookkeeping(sh: Shared, t: Thread, ok: bool, id: nat)
    requires Act(sh, t, ok, id).Some?
    ensures Bookkeeping(sh, Act(sh, t, ok, id).value.sh, Some(t), Act(sh, t, ok, id).value.next)
  {
    if !TouchesConnections(t) && !t.Dialing? {
      ActLeavesConnections(sh, t, ok, id);
      ActClaimsNothing(sh, t, ok, id);
      ActInstalls(sh, t, ok, id);
      ActDials(sh, t, ok, id);
      hide Act, Claims, Holds;
    }
  }

  lemma ActDelivery(sh: Shared, t: Thread, ok: bool, id: nat)
    requires Act(sh, t, ok, id).Some?
    ensures var e := Act(sh, t, ok, id).value; HandOver(sh, e.sh, Holds(Some(t)), Holds(e.next))
  {
    if !t.Dialing? && !t.Installing? {
      ActInstalls(sh, t, ok, id);
      ActDials(sh, t, ok, id);
      hide Act, Holds;
    }
  }

  lemma ActWatch(sh: Shared, t: Thread, ok: bool, id: nat)
    requires Act(sh, t, ok, id).Some? && !t.Spawning?
    ensures var e := Act(sh, t, ok, id).value;
            e.sh.conn.Some? ==> Reads(e.next) == e.sh.conn || (e.sh.conn == sh.conn && Reads(Some(t)) != e.sh.conn)
  {
    if !TouchesConnections(t) {
      ActLeavesConnections(sh, t, ok, id);
      hide Act;
    }
  }

  lemma ActLoops(sh: Shared, t: Thread, ok: bool, id: nat)
    requires Act(sh, t, ok, id).Some? && OneLoop(sh)
    ensures OneLoop(Act(sh, t, ok, id).value.sh)
  {
  }

  lemma ActClosing(sh: Shared, t: Thread, ok: bool, id: nat)
    requires Act(sh, t, ok, id).Some?
    requires sh.closePassed ==> sh.closed && sh.reconnectCancel.None?
    requires sh.rootCancelled ==> sh.closed
    requires AboutToCancel(Some(t)) ==> sh.closed
    ensures var e := Act(sh, t, ok, id).value;
            && (sh.closed ==> e.sh.closed) && (sh.closePassed ==> e.sh.closePassed)
            && (e.sh.closePassed ==> e.sh.closed && e.sh.reconnectCancel.None?)
            && (e.sh.rootCancelled ==> e.sh.closed)
            && (AboutToCancel(e.next) ==> e.sh.closed)
  {
  }

  // ---------------------------------------------------------------- every step keeps the invariant

  /** A new goroutine that claims, holds and dials nothing. */
  lemma NewThread(s: State, tid: nat, t: Thread)
    requires Inv(s) && tid !in s.threads
    requires !Critical(Some(t)) && Claims(Some(t)).None? && Holds(Some(t)).None? && !AboutToCancel(Some(t))
    ensures Inv(Move(s, s.sh, tid, Some(t)))
  {
    hide Exclusive, Accounted, Delivered, Watched, OneLoop, ClosedDown, Move;
    InvParts(s);
    ExclusiveMove(s, s.sh, tid, Some(t));
    AccountedMove(s, s.sh, tid, Some(t));
    DeliveredMove(s, s.sh, tid, Some(t));
    WatchedMove(s, s.sh, tid, Some(t));
    ClosedDownMove(s, s.sh, tid, Some(t));
    MoveAt(s, s.sh, tid, Some(t));
  }

  lemma InvParts(s: State)
    requires Inv(s)
    ensures s.sh.installed <= s.sh.dialed
    ensures s.sh.closePassed ==> s.sh.closed && s.sh.reconnectCancel.None?
    ensures s.sh.rootCancelled ==> s.sh.closed
    ensures forall t :: Holds(At(s, t)).Some? ==>
              Holds(At(s, t)).value in s.sh.dialed && Holds(At(s, t)).value !in s.sh.installed
    ensures forall t :: AboutToCancel(At(s, t)) ==> s.sh.closed
  {
    hide Exclusive, Watched, OneLoop;
  }

  lemma StepInv(s: State, tid: nat, ok: bool, id: nat)
    requires Inv(s) && tid in s.threads && Act(s.sh, s.threads[tid], ok, id).Some? && !s.threads[tid].Spawning?
    ensures var e := Act(s.sh, s.threads[tid], ok, id).value; Inv(Move(s, e.sh, tid, e.next))
  {
    hide Exclusive, Accounted, Delivered, Watched, OneLoop, ClosedDown, Move, Act, Bookkeeping, Critical, Holds, Claims,
         Reads;
    var t := s.threads[tid];
    var e := Act(s.sh, t, ok, id).value;
    assert At(s, tid) == Some(t);
    InvParts(s);
    ActExclusive(s.sh, t, ok, id);
    ActBookkeeping(s.sh, t, ok, id);
    ActDelivery(s.sh, t, ok, id);
    ActWatch(s.sh, t, ok, id);
    ActLoops(s.sh, t, ok, id);
    ActClosing(s.sh, t, ok, id);
    ExclusiveMove(s, e.sh, tid, e.next);
    AccountedMove(s, e.sh, tid, e.next);
    DeliveredMove(s, e.sh, tid, e.next);
    WatchedMove(s, e.sh, tid, e.next);
    ClosedDownMove(s, e.sh, tid, e.next);
    MoveAt(s, e.sh, tid, e.next);
  }

  /** Starting the reader: the new goroutine comes first, then the connecting one goes on. */
  lemma SpawnInv(s: State, tid: nat, spawn: nat)
    requires Inv(s) && tid in s.threads && spawn !in s.threads && s.threads[tid].Spawning?
    ensures var t := s.threads[tid];
            Inv(Apply(s, tid, Effect(s.sh, Some(Releasing(t.via, true)), Some(Reading(t.conn))), spawn))
  {
    var t := s.threads[tid];
    var mid := Move(s, s.sh, spawn, Some(Reading(t.conn)));
    NewThread(s, spawn, Reading(t.conn));
    var n := Move(mid, s.sh, tid, Some(Releasing(t.via, true)));
    SpawnedInv(mid, tid, spawn);
    assert Apply(s, tid, Effect(s.sh, Some(Releasing(t.via, true)), Some(Reading(t.conn))), spawn).threads == n.threads;
  }

  lemma SpawnedInv(s: State, tid: nat, spawn: nat)
    requires Inv(s) && tid in s.threads && s.threads[tid].Spawning? && spawn != tid
    requires At(s, spawn) == Some(Reading(s.threads[tid].conn))
    ensures Inv(Move(s, s.sh, tid, Some(Releasing(s.threads[tid].via, true))))
  {
    var next := Some(Releasing(s.threads[tid].via, true));
    InvParts(s);
    hide Exclusive, Accounted, Delivered, OneLoop, ClosedDown;
    ExclusiveMove(s, s.sh, tid, next);
    AccountedMove(s, s.sh, tid, next);
    DeliveredMove(s, s.sh, tid, next);
    ClosedDownMove(s, s.sh, tid, next);
    var n := Move(s, s.sh, tid, next);
    MoveAt(s, s.sh, tid, next);
    if s.sh.conn.Some? {
      var u :| Reads(At(s, u)) == s.sh.conn;
      assert Reads(At(n, if u == tid then spawn else u)) == s.sh.conn;
    }
  }

  lemma NextInv(s: State, c: Choice)
    requires Inv(s)
    ensures Inv(Next(s, c))
  {
    hide Inv, Act;
    match c
    case Start(tid, call) =>
      if tid !in s.threads {
        EntryQuiet(call);
        NewThread(s, tid, Entry(call));
      }
    case Step(tid, ok, id, spawn) =>
      if tid in s.threads && spawn !in s.threads {
        var t := s.threads[tid];
        var e := Act(s.sh, t, ok, id);
        if e.Some? {
          if t.Spawning? {
            SpawnEffect(s.sh, t, ok, id);
            SpawnInv(s, tid, spawn);
          } else {
            ActExclusive(s.sh, t, ok, id);
            StepInv(s, tid, ok, id);
          }
        }
      }
  }

  lemma SpawnEffect(sh: Shared, t: Thread, ok: bool, id: nat)
    requires t.Spawning?
    ensures Act(sh, t, ok, id) == Some(Effect(sh, Some(Releasing(t.via, true)), Some(Reading(t.conn))))
  {
  }

  lemma EntryQuiet(call: Call)
    ensures var t := Some(Entry(call)); !Critical(t) && Claims(t).None? && Holds(t).None? && !AboutToCancel(t)
  {
  }

  lemma {:induction false} RunInv(choices: seq<Choice>)
    ensures Inv(Run(choices))
  {
    if choices == [] {
      InitialInv();
    } else {
      hide Inv, Next;
      RunInv(choices[..|choices| - 1]);
      NextInv(Run(choices[..|choices| - 1]), choices[|choices| - 1]);
    }
  }

  lemma InitialInv()
    ensures Inv(INITIAL)
  {
    assert forall t :: At(INITIAL, t) == None;
  }

  // ---------------------------------------------------------------- theorems

  /** In every interleaving each installed connection is the current one, or claimed by exactly one goroutine that
      will close it, or closed exactly once; no connection is ever closed twice. */
  lemma ConnectionsAccountedFor(choices: seq<Choice>, c: nat)
    requires c in Run(choices).sh.installed
    ensures var s := Run(choices);
            && s.sh.closes[c] <= 1
            && (s.sh.conn == Some(c) ==> s.sh.closes[c] == 0 && !Claimed(s, c))
            && (Claimed(s, c) ==> s.sh.closes[c] == 0 && s.sh.conn != Some(c))
            && (s.sh.conn != Some(c) && !Claimed(s, c) ==> s.sh.closes[c] == 1)
            && (forall t, u :: Claims(At(s, t)) == Some(c) && Claims(At(s, u)) == Some(c) ==> t == u)
  {
    RunInv(choices);
    hide Run, Exclusive, Delivered, Watched, OneLoop, ClosedDown;
  }

  /** When every goroutine has finished, no connection is current and every connection the dialer ever returned was
      closed exactly once, however the calls interleaved. */
  lemma AllClosedAtRest(choices: seq<Choice>)
    requires Run(choices).threads == map[]
    ensures Run(choices).sh.conn.None?
    ensures forall c :: c in Run(choices).sh.dialed ==> Run(choices).sh.closes[c] == 1
  {
    RunInv(choices);
    hide Run;
    var s := Run(choices);
    assert forall t :: At(s, t) == None;
  }

  /** Two dials never overlap. */
  lemma DialsNeverOverlap(choices: seq<Choice>, t: nat, u: nat)
    requires t in Run(choices).threads && u in Run(choices).threads
    requires Run(choices).threads[t].Dialing? && Run(choices).threads[u].Dialing?
    ensures t == u
  {
    RunInv(choices);
    hide Run, Accounted, Delivered, Watched, OneLoop, ClosedDown;
    var s := Run(choices);
    assert Critical(At(s, t)) && Critical(At(s, u));
  }

  /** At most one reconnect loop has a live context, and it is the one `reconnectCancel` refers to. */
  lemma OneLiveLoop(choices: seq<Choice>, l: nat)
    requires Live(Run(choices).sh, l)
    ensures Run(choices).sh.reconnectCancel == Some(l)
  {
    RunInv(choices);
    hide Run, Exclusive, Accounted, Delivered, Watched, ClosedDown;
  }

  lemma PassedStays(s: State, c: Choice)
    requires Inv(s) && s.sh.closePassed
    ensures Next(s, c).sh.closePassed
  {
    InvParts(s);
    hide Act, Inv;
    match c
    case Start(tid, call) =>
    case Step(tid, ok, id, spawn) =>
      if tid in s.threads && spawn !in s.threads && Act(s.sh, s.threads[tid], ok, id).Some? {
        assert At(s, tid) == Some(s.threads[tid]);
        ActClosing(s.sh, s.threads[tid], ok, id);
      }
  }

  /** Once Close has passed its cancelReconnect, no reconnect loop is ever live again. */
  lemma {:induction false} NoLoopAfterClose(choices: seq<Choice>, more: seq<Choice>, l: nat)
    requires Run(choices).sh.closePassed
    ensures Run(choices + more).sh.closePassed && !Live(Run(choices + more).sh, l)
    decreases |more|
  {
    hide Next, Exclusive, Accounted, Delivered, Watched;
    if more == [] {
      assert choices + more == choices;
    } else {
      var k := |more| - 1;
      assert (choices + more)[..|choices| + k] == choices + more[..k];
      NoLoopAfterClose(choices, more[..k], l);
      RunInv(choices + more[..k]);
      PassedStays(Run(choices + more[..k]), more[k]);
    }
    RunInv(choices + more);
  }

  // ---------------------------------------------------------------- loops that come and go unasked

  /** In every reachable state, the trigger step of a finished reader or of a caller makes a new loop live exactly if
      the connector is not closed and no loop is recorded; whether Disconnect was called plays no part. */
  lemma TriggerIff(choices: seq<Choice>, tid: nat, ok: bool, id: nat, spawn: nat)
    requires At(Run(choices), tid) == Some(Triggering) && id !in Run(choices).sh.loops
    requires spawn !in Run(choices).threads
    ensures var s := Run(choices);
            Live(Next(s, Step(tid, ok, id, spawn)).sh, id) <==> !s.sh.closed && s.sh.reconnectCancel.None?
  {
    RunInv(choices);
    hide Run, Exclusive, Accounted, Delivered, Watched;
  }

  /** In every reachable state, the end of a loop leaves no loop live. It takes down another loop that was live exactly
      if the recorded loop is another one and the root context is not cancelled. */
  lemma LoopEndCancelsIff(choices: seq<Choice>, tid: nat, k: nat, ok: bool, id: nat, spawn: nat)
    requires At(Run(choices), tid) == Some(LoopEnd(k)) && spawn !in Run(choices).threads
    ensures var s := Run(choices);
            var n := Next(s, Step(tid, ok, id, spawn));
            && (forall l :: !Live(n.sh, l))
            && ((exists l :: l != k && Live(s.sh, l)) <==>
                s.sh.reconnectCancel.Some? && s.sh.reconnectCancel.value != k && !s.sh.rootCancelled)
  {
    RunInv(choices);
    hide Run, Exclusive, Accounted, Delivered, Watched, ClosedDown;
    var s := Run(choices);
    EndingStep(s, tid, k, ok, id, spawn);
    hide Next;
    if s.sh.reconnectCancel.Some? && s.sh.reconnectCancel.value != k && !s.sh.rootCancelled {
      assert Live(s.sh, s.sh.reconnectCancel.value);
    }
  }

  lemma EndingStep(s: State, tid: nat, k: nat, ok: bool, id: nat, spawn: nat)
    requires At(s, tid) == Some(LoopEnd(k)) && spawn !in s.threads
    ensures Next(s, Step(tid, ok, id, spawn)).sh == CancelReconnect(s.sh)
  {
    hide Live, Trigger, Take, Install, FinishReading, Returned;
  }

  /** Goroutine `tid` takes a step that succeeds, with 0 as the identity of whatever it creates. */
  function Go(tid: nat): (c: Choice) {
    Step(tid, true, 0, 9)
  }

  function Prefix(choices: seq<Choice>, k: nat): (s: State)
    requires k <= |choices|
  {
    Run(choices[..k])
  }

  lemma OneStep(choices: seq<Choice>, k: nat)
    requires k < |choices|
    ensures Prefix(choices, k + 1) == Next(Prefix(choices, k), choices[k])
  {
    assert choices[..k + 1][..k] == choices[..k];
  }

  lemma PrefixEnds(choices: seq<Choice>)
    ensures Prefix(choices, 0) == INITIAL && Prefix(choices, |choices|) == Run(choices)
  {
    assert choices[..|choices|] == choices;
  }

  /** Connect to the end, which leaves reader 1; Disconnect to the end; then the reader notices and finishes. */
  const RECONNECTING: seq<Choice> := [
    Start(0, Connect), Go(0), Go(0), Go(0), Go(0), Go(0), Step(0, true, 0, 1), Go(0),
    Start(2, Disconnect), Go(2), Go(2), Go(2),
    Step(1, false, 0, 9), Go(1), Go(1)]

  /** One connection, installed and current, with its reader. */
  const CONNECTED := State(
    Shared(Some(0), None, false, false, false, {0}, {0}, multiset{}, {}, {}, false), map[1 := Reading(0)])

  const DISCONNECTED := State(
    Shared(None, None, false, false, false, {0}, {0}, multiset{0}, {}, {}, false), map[1 := Reading(0)])

  lemma RunsToDialing()
    ensures Prefix(RECONNECTING, 4) ==
            INITIAL.(sh := INITIAL.sh.(isConnecting := true), threads := map[0 := Dialing(None)])
  {
    hide Run, Prefix;
    var r := RECONNECTING;
    PrefixEnds(r);
    OneStep(r, 0);
    assert Prefix(r, 1) == INITIAL.(threads := map[0 := ConnectStart(None)]);
    OneStep(r, 1);
    assert Prefix(r, 2) == INITIAL.(threads := map[0 := ConnectCancel]);
    OneStep(r, 2);
    assert Prefix(r, 3) == INITIAL.(threads := map[0 := ConnectClaim(None)]);
    OneStep(r, 3);
  }

  lemma RunsToSpawning()
    ensures Prefix(RECONNECTING, 6) ==
            State(CONNECTED.sh.(isConnecting := true), map[0 := Spawning(None, 0)])
  {
    hide Run, Prefix;
    var r := RECONNECTING;
    RunsToDialing();
    OneStep(r, 4);
    var sh := INITIAL.sh.(isConnecting := true, dialed := {0});
    assert Prefix(r, 5) == State(sh, map[0 := Installing(None, 0)]);
    OneStep(r, 5);
  }

  lemma RunsToConnected()
    ensures Prefix(RECONNECTING, 8) == CONNECTED
  {
    hide Run, Prefix;
    var r := RECONNECTING;
    RunsToSpawning();
    OneStep(r, 6);
    assert Prefix(r, 7) ==
           State(CONNECTED.sh.(isConnecting := true), map[0 := Releasing(None, true), 1 := Reading(0)]);
    OneStep(r, 7);
    assert Prefix(r, 8).threads == map[1 := Reading(0)];
  }

  lemma RunsToTaking()
    ensures Prefix(RECONNECTING, 10) == CONNECTED.(threads := map[1 := Reading(0), 2 := DisconnectTake])
  {
    hide Run, Prefix;
    var r := RECONNECTING;
    RunsToConnected();
    OneStep(r, 8);
    assert Prefix(r, 9) == CONNECTED.(threads := map[1 := Reading(0), 2 := DisconnectCancel]);
    OneStep(r, 9);
  }

  lemma RunsToDisconnected()
    ensures Prefix(RECONNECTING, 12) == DISCONNECTED
  {
    hide Run, Prefix;
    var r := RECONNECTING;
    RunsToTaking();
    OneStep(r, 10);
    assert Prefix(r, 11) == State(CONNECTED.sh.(conn := None), map[1 := Reading(0), 2 := Closing(0)]);
    OneStep(r, 11);
    assert Prefix(r, 12).threads == map[1 := Reading(0)];
  }

  /** A run of one Connect and one Disconnect, both to their end, after which a reconnect loop is live. */
  lemma ReconnectsAfterDisconnect()
    ensures Prefix(RECONNECTING, 12) == DISCONNECTED
    ensures Live(Run(RECONNECTING).sh, 0) && Run(RECONNECTING).threads == map[1 := LoopStarting(0)]
  {
    hide Run, Prefix;
    var r := RECONNECTING;
    RunsToDisconnected();
    OneStep(r, 12);
    assert Prefix(r, 13) == DISCONNECTED.(threads := map[1 := ReadDone]);
    OneStep(r, 13);
    assert Prefix(r, 14) == DISCONNECTED.(threads := map[1 := Triggering]);
    OneStep(r, 14);
    PrefixEnds(r);
  }

  /** Loop 0 gives up; before it ends, Disconnect cancels it and a caller starts loop 1; then loop 0 ends. */
  const CROSSING: seq<Choice> := [
    Start(0, TriggerReconnect), Go(0), Go(0), Step(0, false, 0, 9),
    Start(1, Disconnect), Go(1), Go(1),
    Start(2, TriggerReconnect), Step(2, true, 1, 9),
    Go(0)]

  lemma RunsToEnding()
    ensures Prefix(CROSSING, 4) ==
            State(INITIAL.sh.(reconnectCancel := Some(0), loops := {0}), map[0 := LoopEnd(0)])
  {
    hide Run, Prefix;
    var r := CROSSING;
    PrefixEnds(r);
    OneStep(r, 0);
    assert Prefix(r, 1) == INITIAL.(threads := map[0 := Triggering]);
    OneStep(r, 1);
    var sh := INITIAL.sh.(reconnectCancel := Some(0), loops := {0});
    assert Prefix(r, 2) == State(sh, map[0 := LoopStarting(0)]);
    OneStep(r, 2);
    assert Prefix(r, 3) == State(sh, map[0 := LoopCheck(0)]);
    OneStep(r, 3);
  }

  /** The fields after Disconnect has cancelled loop 0. */
  const STOPPED := INITIAL.sh.(loops := {0}, cancelled := {0})

  lemma RunsToStopped()
    ensures Prefix(CROSSING, 7) == State(STOPPED, map[0 := LoopEnd(0)])
  {
    hide Run, Prefix;
    var r := CROSSING;
    RunsToEnding();
    OneStep(r, 4);
    assert Prefix(r, 5) ==
           State(INITIAL.sh.(reconnectCancel := Some(0), loops := {0}), map[0 := LoopEnd(0), 1 := DisconnectCancel]);
    OneStep(r, 5);
    assert Prefix(r, 6) == State(STOPPED, map[0 := LoopEnd(0), 1 := DisconnectTake]);
    OneStep(r, 6);
    assert Prefix(r, 7).threads == map[0 := LoopEnd(0)];
  }

  lemma RunsToNewer()
    ensures Prefix(CROSSING, 9) ==
            State(STOPPED.(reconnectCancel := Some(1), loops := {0, 1}), map[0 := LoopEnd(0), 2 := LoopStarting(1)])
  {
    hide Run, Prefix;
    var r := CROSSING;
    RunsToStopped();
    OneStep(r, 7);
    assert Prefix(r, 8) == State(STOPPED, map[0 := LoopEnd(0), 2 := Triggering]);
    OneStep(r, 8);
  }

  /** A run in which an ending loop cancels a newer one that was live. */
  lemma NewerLoopLost()
    ensures Live(Prefix(CROSSING, 9).sh, 1) && At(Prefix(CROSSING, 9), 0) == Some(LoopEnd(0))
    ensures !Live(Run(CROSSING).sh, 1) && Run(CROSSING).sh.reconnectCancel == None
  {
    hide Run, Prefix;
    RunsToNewer();
    OneStep(CROSSING, 9);
    PrefixEnds(CROSSING);
  }

  // ---------------------------------------------------------------- giving a connection up

  /** On the way to the section that takes the current connection: in Close, past its swap, or in Disconnect. */
  predicate WillTake(t: Option<Thread>) {
    || t == Some(CloseCancelLoop) || t == Some(CloseCancelRoot) || t == Some(CloseTake)
    || t == Some(DisconnectCancel) || t == Some(DisconnectTake)
  }

  predicate ClosesNow(t: Option<Thread>) {
    t == Some(CloseCancelLoop) || t == Some(CloseCancelRoot) || t == Some(CloseTake)
  }

  /** A step leaves a goroutine that will take the connection where it will, or there is no current connection. */
  lemma ActTakes(sh: Shared, t: Thread, ok: bool, id: nat)
    requires WillTake(Some(t)) && Act(sh, t, ok, id).Some?
    ensures var e := Act(sh, t, ok, id).value;
            && e.child.None?
            && if t.CloseTake? || t.DisconnectTake? then e.sh.conn.None? && Claims(e.next) == sh.conn
               else e.sh.conn == sh.conn && WillTake(e.next) && (ClosesNow(Some(t)) ==> ClosesNow(e.next))
  {
    hide Install, FinishReading, Trigger, Live, Returned;
  }

  /** Where a goroutine stands after a choice: where it stood, unless the choice is a step of its own or starts it. */
  lemma AtNext(s: State, c: Choice, tid: nat)
    requires tid in s.threads && !(c.Step? && c.tid == tid)
    ensures At(Next(s, c), tid) == At(s, tid)
  {
    hide Act;
  }

  lemma OwnNext(s: State, c: Choice)
    requires c.Step? && c.tid in s.threads && c.spawn !in s.threads && Act(s.sh, s.threads[c.tid], c.ok, c.id).Some?
    ensures var e := Act(s.sh, s.threads[c.tid], c.ok, c.id).value;
            Next(s, c).sh == e.sh && At(Next(s, c), c.tid) == e.next
  {
    hide Act;
  }

  lemma NoStep(s: State, c: Choice)
    requires c.Step? && !(c.tid in s.threads && c.spawn !in s.threads && Act(s.sh, s.threads[c.tid], c.ok, c.id).Some?)
    ensures Next(s, c) == s
  {
    hide Act;
  }

  lemma TakeNext(s: State, c: Choice, tid: nat)
    requires WillTake(At(s, tid))
    ensures WillTake(At(Next(s, c), tid)) || Next(s, c).sh.conn.None?
    ensures ClosesNow(At(s, tid)) ==> ClosesNow(At(Next(s, c), tid)) || Next(s, c).sh.conn.None?
  {
    hide Act, Next;
    if c.Step? && c.tid == tid {
      if c.spawn !in s.threads && Act(s.sh, s.threads[tid], c.ok, c.id).Some? {
        OwnNext(s, c);
        ActTakes(s.sh, s.threads[tid], c.ok, c.id);
      } else {
        NoStep(s, c);
      }
    } else {
      AtNext(s, c, tid);
    }
  }

  lemma RunNext(choices: seq<Choice>, c: Choice)
    ensures Run(choices + [c]) == Next(Run(choices), c)
  {
    assert (choices + [c])[..|choices|] == choices;
  }

  /** At some point after the first `from` choices there was no current connection. */
  ghost predicate GivenUp(choices: seq<Choice>, from: nat) {
    exists k :: from < k <= |choices| && Run(choices[..k]).sh.conn.None?
  }

  lemma GivenUpStays(choices: seq<Choice>, c: Choice, from: nat)
    requires GivenUp(choices, from)
    ensures GivenUp(choices + [c], from)
  {
    var k :| from < k <= |choices| && Run(choices[..k]).sh.conn.None?;
    assert (choices + [c])[..k] == choices[..k];
  }

  lemma GivenUpNow(choices: seq<Choice>, from: nat)
    requires from < |choices| && Run(choices).sh.conn.None?
    ensures GivenUp(choices, from)
  {
    assert choices[..|choices|] == choices;
  }

  /** A goroutine that will take the connection still will, or there has been a moment without one since. */
  lemma {:induction false} TakenInTime(choices: seq<Choice>, more: seq<Choice>, tid: nat)
    requires WillTake(At(Run(choices), tid))
    ensures WillTake(At(Run(choices + more), tid)) || GivenUp(choices + more, |choices|)
    decreases |more|
  {
    hide Run, Next, WillTake, GivenUp;
    if more == [] {
      assert choices + more == choices;
    } else {
      var k := |more| - 1;
      var before := choices + more[..k];
      assert choices + more == before + [more[k]];
      TakenInTime(choices, more[..k], tid);
      RunNext(before, more[k]);
      if GivenUp(before, |choices|) {
        GivenUpStays(before, more[k], |choices|);
      } else {
        TakeNext(Run(before), more[k], tid);
        if Run(before + [more[k]]).sh.conn.None? {
          GivenUpNow(before + [more[k]], |choices|);
        }
      }
    }
  }

  /** An installed connection that is not current never is again. */
  lemma NeverCurrentAgain(s: State, c: Choice, conn: nat)
    requires Inv(s) && conn in s.sh.installed && s.sh.conn != Some(conn)
    ensures conn in Next(s, c).sh.installed && Next(s, c).sh.conn != Some(conn)
  {
    if c.Step? && c.tid in s.threads && c.spawn !in s.threads && Act(s.sh, s.threads[c.tid], c.ok, c.id).Some? {
      assert At(s, c.tid) == Some(s.threads[c.tid]);
      InvParts(s);
      ActInstallsNew(s.sh, s.threads[c.tid], c.ok, c.id, conn);
      OwnNext(s, c);
      hide Next;
    }
  }

  lemma ActInstallsNew(sh: Shared, t: Thread, ok: bool, id: nat, conn: nat)
    requires Act(sh, t, ok, id).Some? && conn in sh.installed && sh.conn != Some(conn)
    requires Holds(Some(t)).Some? ==> Holds(Some(t)).value !in sh.installed
    ensures conn in Act(sh, t, ok, id).value.sh.installed && Act(sh, t, ok, id).value.sh.conn != Some(conn)
  {
    if !TouchesConnections(t) {
      ActLeavesConnections(sh, t, ok, id);
      ActInstalls(sh, t, ok, id);
      hide Act;
    }
  }

  lemma {:induction false} GoneForGood(choices: seq<Choice>, more: seq<Choice>, conn: nat)
    requires conn in Run(choices).sh.installed && Run(choices).sh.conn != Some(conn)
    ensures conn in Run(choices + more).sh.installed && Run(choices + more).sh.conn != Some(conn)
    decreases |more|
  {
    hide Run, Next;
    if more == [] {
      assert choices + more == choices;
    } else {
      var k := |more| - 1;
      var before := choices + more[..k];
      assert choices + more == before + [more[k]];
      GoneForGood(choices, more[..k], conn);
      RunNext(before, more[k]);
      RunInv(before);
      NeverCurrentAgain(Run(before), more[k], conn);
    }
  }

  lemma {:induction false} InstalledStays(choices: seq<Choice>, more: seq<Choice>, conn: nat)
    requires conn in Run(choices).sh.installed
    ensures conn in Run(choices + more).sh.installed
    decreases |more|
  {
    hide Run, Next;
    if more == [] {
      assert choices + more == choices;
    } else {
      var k := |more| - 1;
      var before := choices + more[..k];
      assert choices + more == before + [more[k]];
      InstalledStays(choices, more[..k], conn);
      RunNext(before, more[k]);
      InstalledNext(Run(before), more[k], conn);
    }
  }

  lemma InstalledNext(s: State, c: Choice, conn: nat)
    requires conn in s.sh.installed
    ensures conn in Next(s, c).sh.installed
  {
    if c.Step? && c.tid in s.threads && c.spawn !in s.threads && Act(s.sh, s.threads[c.tid], c.ok, c.id).Some? {
      if !s.threads[c.tid].Installing? {
        ActInstalls(s.sh, s.threads[c.tid], c.ok, c.id);
        OwnNext(s, c);
        hide Act, Next;
      }
    }
  }

  /** Closed once, or claimed by a goroutine that will close it, and not current. */
  ghost predicate Released(s: State, conn: nat) {
    s.sh.conn != Some(conn) && (s.sh.closes[conn] == 1 || Claimed(s, conn))
  }

  /** Whatever was installed before a moment without a current connection is released from then on. */
  lemma GivenUpReleases(choices: seq<Choice>, from: nat, conn: nat)
    requires from <= |choices| && conn in Run(choices[..from]).sh.installed && GivenUp(choices, from)
    ensures Released(Run(choices), conn)
  {
    hide Run;
    var k :| from < k <= |choices| && Run(choices[..k]).sh.conn.None?;
    assert choices[..from] + choices[from..k] == choices[..k];
    InstalledStays(choices[..from], choices[from..k], conn);
    assert choices[..k] + choices[k..] == choices;
    GoneForGood(choices[..k], choices[k..], conn);
    ConnectionsAccountedFor(choices, conn);
  }

  /** A Disconnect call that has ended: every connection installed before the call is released. */
  lemma DisconnectReleases(choices: seq<Choice>, more: seq<Choice>, tid: nat, conn: nat)
    requires tid !in Run(choices).threads && conn in Run(choices).sh.installed
    requires tid !in Run(choices + [Start(tid, Disconnect)] + more).threads
    ensures Released(Run(choices + [Start(tid, Disconnect)] + more), conn)
  {
    var started := choices + [Start(tid, Disconnect)];
    RunNext(choices, Start(tid, Disconnect));
    assert At(Run(started), tid) == Some(DisconnectCancel);
    hide Run, Next;
    TakenInTime(started, more, tid);
    var all := started + more;
    assert all[..|started|] == started;
    assert started[..|choices|] == choices;
    InstalledStays(choices, [Start(tid, Disconnect)], conn);
    GivenUpReleases(all, |started|, conn);
  }

  /** Once the closed flag is set, a goroutine is on its way to take the connection, or there has been a moment without
      one while the flag was set. */
  ghost predicate CloseOnItsWay(choices: seq<Choice>) {
    (exists t :: ClosesNow(At(Run(choices), t))) || GivenUpClosed(choices)
  }

  ghost predicate GivenUpClosed(choices: seq<Choice>) {
    exists k :: 0 <= k <= |choices| && Run(choices[..k]).sh.conn.None? && Run(choices[..k]).sh.closed
  }

  lemma ClosedNext(s: State, c: Choice)
    requires Next(s, c).sh.closed && !s.sh.closed
    ensures exists t :: ClosesNow(At(Next(s, c), t))
  {
    if c.Step? && c.tid in s.threads && c.spawn !in s.threads && Act(s.sh, s.threads[c.tid], c.ok, c.id).Some? {
      ActCloses(s.sh, s.threads[c.tid], c.ok, c.id);
      OwnNext(s, c);
      assert ClosesNow(At(Next(s, c), c.tid));
    }
  }

  lemma ActCloses(sh: Shared, t: Thread, ok: bool, id: nat)
    requires Act(sh, t, ok, id).Some?
    ensures sh.closed ==> Act(sh, t, ok, id).value.sh.closed
    ensures !sh.closed && Act(sh, t, ok, id).value.sh.closed ==> Act(sh, t, ok, id).value.next == Some(CloseCancelLoop)
  {
  }

  lemma StaysClosed(s: State, c: Choice)
    requires s.sh.closed
    ensures Next(s, c).sh.closed
  {
    if c.Step? && c.tid in s.threads && c.spawn !in s.threads && Act(s.sh, s.threads[c.tid], c.ok, c.id).Some? {
      ActCloses(s.sh, s.threads[c.tid], c.ok, c.id);
      OwnNext(s, c);
    }
  }

  lemma {:induction false} CloseTakesInTime(choices: seq<Choice>)
    requires Run(choices).sh.closed
    ensures CloseOnItsWay(choices)
  {
    if choices != [] {
      var k := |choices| - 1;
      var before, c := choices[..k], choices[k];
      hide Next, ClosesNow, GivenUpClosed;
      assert choices == before + [c];
      RunNext(before, c);
      if !Run(before).sh.closed {
        ClosedNext(Run(before), c);
      } else {
        CloseTakesInTime(before);
        if GivenUpClosed(before) {
          GivenUpClosedStays(before, c);
        } else {
          var t :| ClosesNow(At(Run(before), t));
          ClosingNext(before, c, t);
        }
      }
    }
  }

  lemma GivenUpClosedStays(choices: seq<Choice>, c: Choice)
    requires GivenUpClosed(choices)
    ensures GivenUpClosed(choices + [c])
  {
    var k :| 0 <= k <= |choices| && Run(choices[..k]).sh.conn.None? && Run(choices[..k]).sh.closed;
    assert (choices + [c])[..k] == choices[..k];
  }

  lemma ClosingNext(choices: seq<Choice>, c: Choice, t: nat)
    requires Run(choices).sh.closed && ClosesNow(At(Run(choices), t))
    ensures ClosesNow(At(Run(choices + [c]), t)) || GivenUpClosed(choices + [c])
  {
    RunNext(choices, c);
    TakeNext(Run(choices), c, t);
    StaysClosed(Run(choices), c);
    assert (choices + [c])[..|choices| + 1] == choices + [c];
    hide Run, Next;
  }

  /** When the Close call that set the flag has done its work, every connection that was installed before the flag was
      set is released: closed once, or claimed by a goroutine that will close it. */
  lemma CloseReleases(choices: seq<Choice>, more: seq<Choice>, conn: nat)
    requires !Run(choices).sh.closed && conn in Run(choices).sh.installed
    requires Run(choices + more).sh.closed && forall t :: !ClosesNow(At(Run(choices + more), t))
    ensures Released(Run(choices + more), conn)
  {
    CloseTakesInTime(choices + more);
    hide Run, ClosesNow;
    var all := choices + more;
    var k :| 0 <= k <= |all| && Run(all[..k]).sh.conn.None? && Run(all[..k]).sh.closed;
    if k <= |choices| {
      assert choices[..k] == all[..k] && choices == choices[..k] + choices[k..];
      ClosedForGood(choices[..k], choices[k..]);
      assert false;
    }
    assert all[..|choices|] == choices;
    assert GivenUp(all, |choices|);
    GivenUpReleases(all, |choices|, conn);
  }

  lemma {:induction false} ClosedForGood(choices: seq<Choice>, more: seq<Choice>)
    requires Run(choices).sh.closed
    ensures Run(choices + more).sh.closed
    decreases |more|
  {
    hide Run, Next;
    if more == [] {
      assert choices + more == choices;
    } else {
      var k := |more| - 1;
      var before := choices + more[..k];
      assert choices + more == before + [more[k]];
      ClosedForGood(choices, more[..k]);
      RunNext(before, more[k]);
      StaysClosed(Run(before), more[k]);
    }
  }

  /** The section that takes the connection hands it to that very goroutine to close. */
  lemma TakerClaims(choices: seq<Choice>, tid: nat, ok: bool, id: nat, spawn: nat)
    requires At(Run(choices), tid) == Some(CloseTake) || At(Run(choices), tid) == Some(DisconnectTake)
    requires spawn !in Run(choices).threads
    ensures var s, n := Run(choices), Run(choices + [Step(tid, ok, id, spawn)]);
            && n.sh.conn.None? && Claims(At(n, tid)) == s.sh.conn
            && (s.sh.conn.Some? ==> At(n, tid) == Some(Closing(s.sh.conn.value)))
  {
    RunNext(choices, Step(tid, ok, id, spawn));
    hide Run;
  }

  lemma ActClosesMore(sh: Shared, t: Thread, ok: bool, id: nat, conn: nat)
    requires Act(sh, t, ok, id).Some?
    ensures var e := Act(sh, t, ok, id).value;
            sh.closes[conn] <= e.sh.closes[conn] && (t == Closing(conn) ==> e.sh.closes[conn] > 0)
  {
    hide Live;
  }

  lemma CloserHolds(s: State, c: Choice, tid: nat, conn: nat)
    requires At(s, tid) == Some(Closing(conn)) || s.sh.closes[conn] > 0
    ensures At(Next(s, c), tid) == Some(Closing(conn)) || Next(s, c).sh.closes[conn] > 0
  {
    hide Act, Next;
    if c.Step? {
      if c.tid in s.threads && c.spawn !in s.threads && Act(s.sh, s.threads[c.tid], c.ok, c.id).Some? {
        OwnNext(s, c);
        ActClosesMore(s.sh, s.threads[c.tid], c.ok, c.id, conn);
        if c.tid != tid && At(s, tid).Some? {
          AtNext(s, c, tid);
        }
      } else {
        NoStep(s, c);
      }
    } else {
      StartKeeps(s, c);
      if At(s, tid).Some? {
        AtNext(s, c, tid);
      }
    }
  }

  /** Whoever took the connection is the one that closes it: from then on that goroutine still claims it, or it has
      been closed exactly once. */
  lemma TakerCloses(
    choices: seq<Choice>, tid: nat, ok: bool, id: nat, spawn: nat, conn: nat, more: seq<Choice>)
    requires At(Run(choices), tid) == Some(CloseTake) || At(Run(choices), tid) == Some(DisconnectTake)
    requires spawn !in Run(choices).threads && Run(choices).sh.conn == Some(conn)
    ensures var n := Run(choices + [Step(tid, ok, id, spawn)] + more);
            && n.sh.conn != Some(conn)
            && (At(n, tid) == Some(Closing(conn)) || n.sh.closes[conn] == 1)
  {
    var taken := choices + [Step(tid, ok, id, spawn)];
    RunInv(choices);
    TakerClaims(choices, tid, ok, id, spawn);
    CurrentIsInstalled(Run(choices), conn);
    hide Run, Next, Inv;
    InstalledStays(choices, [Step(tid, ok, id, spawn)], conn);
    GoneForGood(taken, more, conn);
    TakerHolds(taken, more, tid, conn);
    ConnectionsAccountedFor(taken + more, conn);
  }

  lemma CurrentIsInstalled(s: State, conn: nat)
    requires Inv(s) && s.sh.conn == Some(conn)
    ensures conn in s.sh.installed
  {
  }

  lemma {:induction false} TakerHolds(taken: seq<Choice>, more: seq<Choice>, tid: nat, conn: nat)
    requires At(Run(taken), tid) == Some(Closing(conn))
    ensures var n := Run(taken + more);
            At(n, tid) == Some(Closing(conn)) || n.sh.closes[conn] > 0
    decreases |more|
  {
    hide Run, Next;
    if more == [] {
      assert taken + more == taken;
    } else {
      var k := |more| - 1;
      assert taken + more == taken + more[..k] + [more[k]];
      TakerHolds(taken, more[..k], tid, conn);
      RunNext(taken + more[..k], more[k]);
      CloserHolds(Run(taken + more[..k]), more[k], tid, conn);
    }
  }

  // ---------------------------------------------------------------- what Connect and the loops do

  /** Connect is past its test of the closed flag. */
  predicate InConnect(t: Option<Thread>) {
    t.Some? && (t.value.ConnectCancel? || t.value.ConnectClaim? || Critical(t))
  }

  lemma ActConnects(sh: Shared, t: Thread, ok: bool, id: nat)
    requires Act(sh, t, ok, id).Some? && sh.closed && !InConnect(Some(t))
    ensures !InConnect(Act(sh, t, ok, id).value.next)
  {
    hide Install, FinishReading, Trigger, Take, CancelReconnect, Live;
    assert Trigger(sh, id).Some? ==> !InConnect(Trigger(sh, id).value.next) by {
      TriggerConnectsNot(sh, id);
    }
    TakeConnectsNot(sh);
    FinishConnectsNot(sh, t);
  }

  lemma TriggerConnectsNot(sh: Shared, id: nat)
    ensures Trigger(sh, id).Some? ==> !InConnect(Trigger(sh, id).value.next)
  {
  }

  lemma TakeConnectsNot(sh: Shared)
    ensures Take(sh).Some? && !InConnect(Take(sh).value.next)
  {
  }

  lemma FinishConnectsNot(sh: Shared, t: Thread)
    ensures t.Reading? ==> FinishReading(sh, t.conn).Some? && !InConnect(FinishReading(sh, t.conn).value.next)
  {
  }

  lemma ConnectNext(s: State, c: Choice, tid: nat)
    requires s.sh.closed && !InConnect(At(s, tid))
    ensures !InConnect(At(Next(s, c), tid))
  {
    if c.Step? && c.tid in s.threads && c.spawn !in s.threads && Act(s.sh, s.threads[c.tid], c.ok, c.id).Some? {
      if c.tid == tid {
        ActConnects(s.sh, s.threads[tid], c.ok, c.id);
        OwnNext(s, c);
        hide Next, Act;
      } else {
        ActExclusive(s.sh, s.threads[c.tid], c.ok, c.id);
        hide Act;
      }
    }
  }

  /** Once the connector is closed, no goroutine gets past the test of Connect any more; so whoever dials after Close
      was past that test before. */
  lemma {:induction false} NoNewDialAfterClose(choices: seq<Choice>, more: seq<Choice>, tid: nat)
    requires Run(choices).sh.closed && !InConnect(At(Run(choices), tid))
    ensures !InConnect(At(Run(choices + more), tid))
    decreases |more|
  {
    hide Run, Next, InConnect;
    if more == [] {
      assert choices + more == choices;
    } else {
      var k := |more| - 1;
      var before := choices + more[..k];
      assert choices + more == before + [more[k]];
      NoNewDialAfterClose(choices, more[..k], tid);
      ClosedForGood(choices, more[..k]);
      RunNext(before, more[k]);
      ConnectNext(Run(before), more[k], tid);
    }
  }

  /** The sections of Connect, Disconnect and Close that cancel reconnection leave no loop live. */
  lemma CancelSections(choices: seq<Choice>, tid: nat, ok: bool, id: nat, spawn: nat, l: nat)
    requires var t := At(Run(choices), tid);
             t == Some(ConnectCancel) || t == Some(DisconnectCancel) || t == Some(CloseCancelLoop)
    requires spawn !in Run(choices).threads
    ensures !Live(Run(choices + [Step(tid, ok, id, spawn)]).sh, l)
  {
    RunInv(choices);
    RunNext(choices, Step(tid, ok, id, spawn));
    hide Run, Exclusive, Accounted, Delivered, Watched, ClosedDown;
  }

  /** What an attempt of a reconnect loop leads to: after a dial that fails the loop waits for its next attempt, after
      one that succeeds the loop ends with that connection installed. */
  lemma AttemptDecides(s: State, tid: nat, l: nat, conn: nat, spawn: nat)
    requires At(s, tid) == Some(Dialing(Some(l))) && spawn !in s.threads && conn !in s.sh.dialed
    ensures var failed := Next(Next(s, Step(tid, false, conn, spawn)), Step(tid, true, conn, spawn));
            At(failed, tid) == Some(LoopWait(l)) && failed.sh.conn == s.sh.conn
    ensures var a := Next(s, Step(tid, true, conn, spawn));
            var b := Next(a, Step(tid, true, conn, spawn));
            var c := Next(b, Step(tid, true, conn, spawn));
            b.sh.conn == Some(conn) && At(c, spawn) == Some(Reading(conn))
            && At(c, tid) == Some(Releasing(Some(l), true))
  {
    var f := Next(s, Step(tid, false, conn, spawn));
    assert f == State(s.sh, s.threads[tid := Releasing(Some(l), false)]);
    var a := Next(s, Step(tid, true, conn, spawn));
    assert At(a, tid) == Some(Installing(Some(l), conn)) && spawn !in a.threads;
    var b := Next(a, Step(tid, true, conn, spawn));
    assert At(b, tid) == Some(Spawning(Some(l), conn)) && spawn !in b.threads;
  }

  /** After the run in which the reader starts loop 0: the loop connects, with connection 1 and reader 2, and ends. */
  const RECONNECTED: seq<Choice> := [
    Go(1), Go(1), Go(1), Go(1), Step(1, true, 1, 9), Go(1), Step(1, true, 0, 2), Go(1), Go(1)]

  function AfterReconnecting(k: nat): (s: State)
    requires k <= |RECONNECTED|
  {
    Run(RECONNECTING + RECONNECTED[..k])
  }

  lemma ReconnectStep(k: nat)
    requires k < |RECONNECTED|
    ensures AfterReconnecting(k + 1) == Next(AfterReconnecting(k), RECONNECTED[k])
  {
    assert RECONNECTING + RECONNECTED[..k + 1] == (RECONNECTING + RECONNECTED[..k]) + [RECONNECTED[k]];
    RunNext(RECONNECTING + RECONNECTED[..k], RECONNECTED[k]);
  }

  /** The fields while loop 0 is live and no connection is current. */
  const SEARCHING := DISCONNECTED.sh.(reconnectCancel := Some(0), loops := {0})

  lemma ReconnectStart()
    ensures AfterReconnecting(0) == State(SEARCHING, map[1 := LoopStarting(0)])
  {
    hide Run;
    assert RECONNECTING + RECONNECTED[..0] == RECONNECTING;
    ReconnectsAfterDisconnect();
    ReconnectFields();
  }

  lemma ReconnectFields()
    ensures Run(RECONNECTING).sh == SEARCHING
  {
    hide Run, Prefix;
    var r := RECONNECTING;
    RunsToDisconnected();
    OneStep(r, 12);
    assert Prefix(r, 13) == DISCONNECTED.(threads := map[1 := ReadDone]);
    OneStep(r, 13);
    assert Prefix(r, 14) == DISCONNECTED.(threads := map[1 := Triggering]);
    OneStep(r, 14);
    PrefixEnds(r);
  }

  lemma ReconnectDials()
    ensures AfterReconnecting(4) == State(SEARCHING.(isConnecting := true), map[1 := Dialing(Some(0))])
  {
    hide Run, AfterReconnecting;
    ReconnectStart();
    ReconnectStep(0);
    assert AfterReconnecting(1) == State(SEARCHING, map[1 := LoopCheck(0)]);
    ReconnectStep(1);
    assert AfterReconnecting(2) == State(SEARCHING, map[1 := ConnectStart(Some(0))]);
    ReconnectStep(2);
    assert AfterReconnecting(3) == State(SEARCHING, map[1 := ConnectClaim(Some(0))]);
    ReconnectStep(3);
  }

  lemma ReconnectInstalls()
    ensures AfterReconnecting(6) ==
            State(SEARCHING.(isConnecting := true, conn := Some(1), dialed := {0, 1}, installed := {0, 1}),
                  map[1 := Spawning(Some(0), 1)])
  {
    hide Run, AfterReconnecting;
    ReconnectDials();
    ReconnectStep(4);
    assert AfterReconnecting(5) ==
           State(SEARCHING.(isConnecting := true, dialed := {0, 1}), map[1 := Installing(Some(0), 1)]);
    ReconnectStep(5);
  }

  /** The whole way back: after Disconnect and the reconnection that follows, the new connection is current and read,
      the old one was closed once, and no loop is left. */
  lemma ReconnectionSucceeds()
    ensures Run(RECONNECTING + RECONNECTED) ==
            State(SEARCHING.(conn := Some(1), reconnectCancel := None, dialed := {0, 1}, installed := {0, 1},
                             cancelled := {0}),
                  map[2 := Reading(1)])
  {
    hide Run, AfterReconnecting;
    ReconnectInstalls();
    var sh := SEARCHING.(isConnecting := true, conn := Some(1), dialed := {0, 1}, installed := {0, 1});
    ReconnectStep(6);
    assert AfterReconnecting(7) == State(sh, map[1 := Releasing(Some(0), true), 2 := Reading(1)]);
    ReconnectStep(7);
    assert AfterReconnecting(8) == State(sh.(isConnecting := false), map[1 := LoopEnd(0), 2 := Reading(1)]);
    ReconnectStep(8);
    assert AfterReconnecting(9).threads == map[2 := Reading(1)];
    ReconnectedAll();
  }

  lemma ReconnectedAll()
    ensures AfterReconnecting(9) == Run(RECONNECTING + RECONNECTED)
  {
    assert RECONNECTED[..9] == RECONNECTED;
  }

  // ---------------------------------------------------------------- what keeps a loop going

  /** The goroutine works for reconnect loop `l` and has not decided to end it. */
  predicate WorksFor(t: Option<Thread>, l: nat) {
    t.Some? &&
      match t.value
      case LoopStarting(k) => k == l
      case LoopCheck(k) => k == l
      case LoopWait(k) => k == l
      case ConnectStart(via) => via == Some(l)
      case ConnectClaim(via) => via == Some(l)
      case Dialing(via) => via == Some(l)
      case Installing(via, _) => via == Some(l)
      case Spawning(via, _) => via == Some(l)
      case Releasing(via, _) => via == Some(l)
      case _ => false
  }

  lemma ActWorks(sh: Shared, t: Thread, ok: bool, id: nat, l: nat)
    requires Act(sh, t, ok, id).Some? && WorksFor(Some(t), l)
    ensures WorksFor(Act(sh, t, ok, id).value.next, l) || Act(sh, t, ok, id).value.next == Some(LoopEnd(l))
    ensures Act(sh, t, ok, id).value.next == Some(LoopEnd(l)) ==>
              || t == Releasing(Some(l), true)
              || (t == LoopCheck(l) && !(ok && Live(sh, l)))
              || (t == LoopWait(l) && !Live(sh, l))
  {
    hide Trigger, FinishReading, Take, CancelReconnect, Live;
  }

  /** A loop goes on until an attempt has succeeded, its context is cancelled, or its attempts are used up: no failed
      attempt ends it, be it that the dialer failed, that another Connect was under way, or that the connector is
      closed. */
  lemma LoopGoesOn(choices: seq<Choice>, c: Choice, tid: nat, l: nat)
    requires WorksFor(At(Run(choices), tid), l)
    ensures WorksFor(At(Run(choices + [c]), tid), l) || At(Run(choices + [c]), tid) == Some(LoopEnd(l))
    ensures At(Run(choices + [c]), tid) == Some(LoopEnd(l)) ==>
              || At(Run(choices), tid) == Some(Releasing(Some(l), true))
              || (At(Run(choices), tid) == Some(LoopCheck(l)) && c.Step? && !(c.ok && Live(Run(choices).sh, l)))
              || (At(Run(choices), tid) == Some(LoopWait(l)) && !Live(Run(choices).sh, l))
  {
    RunNext(choices, c);
    var s := Run(choices);
    hide Act, Next, Run, Live;
    if c.Step? && c.tid == tid {
      if c.spawn !in s.threads && Act(s.sh, s.threads[tid], c.ok, c.id).Some? {
        OwnNext(s, c);
        ActWorks(s.sh, s.threads[tid], c.ok, c.id, l);
      } else {
        NoStep(s, c);
      }
    } else {
      AtNext(s, c, tid);
    }
  }

  /** A live loop that waits tries again: it dials, unless the connector is closed or another Connect is under way. */
  lemma LoopTriesAgain(s: State, tid: nat, l: nat, spawn: nat)
    requires At(s, tid) == Some(LoopWait(l)) && Live(s.sh, l) && !s.sh.closed && !s.sh.isConnecting
    requires spawn !in s.threads
    ensures var go := Step(tid, true, 0, spawn);
            At(Next(Next(Next(Next(s, go), go), go), go), tid) == Some(Dialing(Some(l)))
  {
    var go := Step(tid, true, 0, spawn);
    var a := Next(s, go);
    assert a.sh == s.sh && At(a, tid) == Some(LoopCheck(l)) && spawn !in a.threads;
    var b := Next(a, go);
    assert b.sh == s.sh && At(b, tid) == Some(ConnectStart(Some(l))) && spawn !in b.threads;
    var c := Next(b, go);
    assert c.sh == s.sh && At(c, tid) == Some(ConnectClaim(Some(l))) && spawn !in c.threads;
  }

  /** In Close, before the section that cancels the root context. */
  predicate WillCancelRoot(t: Option<Thread>) {
    t == Some(CloseCancelLoop) || t == Some(CloseCancelRoot)
  }

  lemma ActCancelsRoot(sh: Shared, t: Thread, ok: bool, id: nat)
    requires Act(sh, t, ok, id).Some?
    ensures var e := Act(sh, t, ok, id).value;
            && (sh.rootCancelled ==> e.sh.rootCancelled)
            && (WillCancelRoot(Some(t)) ==> e.sh.rootCancelled || WillCancelRoot(e.next))
  {
    hide Live;
  }

  lemma RootNext(s: State, c: Choice, tid: nat)
    requires s.sh.rootCancelled || WillCancelRoot(At(s, tid))
    ensures Next(s, c).sh.rootCancelled || WillCancelRoot(At(Next(s, c), tid))
  {
    hide Act, Next;
    if c.Step? {
      if c.tid in s.threads && c.spawn !in s.threads && Act(s.sh, s.threads[c.tid], c.ok, c.id).Some? {
        OwnNext(s, c);
        ActCancelsRoot(s.sh, s.threads[c.tid], c.ok, c.id);
        if c.tid != tid && WillCancelRoot(At(s, tid)) {
          AtNext(s, c, tid);
        }
      } else {
        NoStep(s, c);
      }
    } else {
      StartKeeps(s, c);
      if WillCancelRoot(At(s, tid)) {
        AtNext(s, c, tid);
      }
    }
  }

  lemma StartKeeps(s: State, c: Choice)
    requires c.Start?
    ensures Next(s, c).sh == s.sh
  {
  }

  /** Once the closed flag is set, the root context is cancelled or a Close call is about to cancel it; so when that
      call is past, no reconnect loop is live. */
  lemma {:induction false} CloseCancelsRoot(choices: seq<Choice>)
    requires Run(choices).sh.closed
    ensures Run(choices).sh.rootCancelled || exists t :: WillCancelRoot(At(Run(choices), t))
  {
    if choices != [] {
      var k := |choices| - 1;
      var before, c := choices[..k], choices[k];
      hide Next, WillCancelRoot;
      assert choices == before + [c];
      RunNext(before, c);
      if !Run(before).sh.closed {
        ClosedAt(Run(before), c);
      } else {
        CloseCancelsRoot(before);
        if Run(before).sh.rootCancelled {
          RootNext(Run(before), c, 0);
          if !Run(choices).sh.rootCancelled {
            assert WillCancelRoot(At(Run(choices), 0));
          }
        } else {
          var t :| WillCancelRoot(At(Run(before), t));
          RootNext(Run(before), c, t);
        }
      }
    }
  }

  lemma ClosedAt(s: State, c: Choice)
    requires Next(s, c).sh.closed && !s.sh.closed
    ensures exists t :: WillCancelRoot(At(Next(s, c), t))
  {
    if c.Step? && c.tid in s.threads && c.spawn !in s.threads && Act(s.sh, s.threads[c.tid], c.ok, c.id).Some? {
      ActCloses(s.sh, s.threads[c.tid], c.ok, c.id);
      OwnNext(s, c);
      assert WillCancelRoot(At(Next(s, c), c.tid));
    }
  }
}
