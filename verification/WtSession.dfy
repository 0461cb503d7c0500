/** Closing a WebTransport session while incoming streams and datagrams are being delivered to it
    (webtransport/session.go). The closed flag is set by an atomic swap outside the lock; the three channels are closed
    under the write lock; deliveries test the flag and send under the read lock. The lock is a Go RWMutex: once a writer
    has asked for it, new readers wait, and the writer gets it when the readers before it have left. */
module SessionClosing {
  import opened Text

  const CHANNELS := 3

  /** Channels 0 and 1 hold streams, channel 2 holds datagrams. */
  const DATAGRAMS := 2

  function Capacity(channel: nat): (n: nat) {
    if channel == DATAGRAMS then 1024 else 256
  }

  /** A delivery goes Enqueue, Holding, Sending, Leaving, Finished; a closer goes CloseStart, Won, Asked, Closing 0 to
      3, Cancelling, Finished. The control loop that has read a close capsule first goes PeerStart, PeerAsked,
      PeerNoting to note the peer's error under the write lock, and then on as a closer. */
  datatype Thread =
    | Enqueue(channel: nat)
    | Holding(channel: nat)
    | Sending(channel: nat)
    | Leaving
    | PeerStart
    | PeerAsked
    | PeerNoting
    | CloseStart
    | Won
    | Asked
    | Closing(next: nat)
    | Cancelling
    | Finished

  /** `readers` and `writer` are the holders of the lock and `asked` is the writer that has asked for it or holds it,
      `winner` is the thread whose swap set the flag, `channels` says which channels are open and `fill` how much they
      hold, `panicked` records a send on a closed channel or a second close. */
  datatype Shared = Shared(
    winner: Option<nat>, asked: Option<nat>, writer: Option<nat>, readers: set<nat>,
    channels: seq<bool>, fill: seq<nat>, cancelled: bool, panicked: bool)

  datatype State = State(sh: Shared, threads: seq<Thread>)

  predicate Closed(sh: Shared) {
    sh.winner.Some?
  }

  predicate Fresh(t: Thread) {
    t.CloseStart? || t.PeerStart? || (t.Enqueue? && t.channel < CHANNELS)
  }

  function Initial(threads: seq<Thread>): (s: State) {
    State(Shared(None, None, None, {}, [true, true, true], [0, 0, 0], false, false), threads)
  }

  datatype Effect = Effect(sh: Shared, thread: Thread)

  /** The select of a delivery. `send` picks the branch: the channel, which panics if it is closed and blocks while it
      is full, or giving up, which a stream can do once the session is cancelled and a datagram when its channel is
      full. A blocked delivery stays where it is. */
  function Select(sh: Shared, ch: nat, send: bool): (r: Effect) {
    if ch >= |sh.channels| || ch >= |sh.fill| then Effect(sh.(panicked := true), Leaving)
    else if send then
      if !sh.channels[ch] then Effect(sh.(panicked := true), Leaving)
      else if sh.fill[ch] < Capacity(ch) then Effect(sh.(fill := sh.fill[ch := sh.fill[ch] + 1]), Leaving)
      else Effect(sh, Sending(ch))
    else if (if ch == DATAGRAMS then sh.channels[ch] && sh.fill[ch] >= Capacity(ch) else sh.cancelled) then
      Effect(sh, Leaving)
    else Effect(sh, Sending(ch))
  }

  /** The next step of thread `w`, which is at `t`. A step that is not possible changes nothing. */
  function Act(sh: Shared, w: nat, t: Thread, send: bool): (r: Effect) {
    match t
    case Enqueue(ch) =>
      if sh.asked == None then Effect(sh.(readers := sh.readers + {w}), Holding(ch)) else Effect(sh, t)
    case Holding(ch) => Effect(sh, if Closed(sh) then Leaving else Sending(ch))
    case Sending(ch) => Select(sh, ch, send)
    case Leaving => Effect(sh.(readers := sh.readers - {w}), Finished)
    case PeerStart => if sh.asked == None then Effect(sh.(asked := Some(w)), PeerAsked) else Effect(sh, t)
    case PeerAsked => if sh.readers == {} then Effect(sh.(writer := Some(w)), PeerNoting) else Effect(sh, t)
    case PeerNoting => Effect(sh.(asked := None, writer := None), CloseStart)
    case CloseStart => if Closed(sh) then Effect(sh, Finished) else Effect(sh.(winner := Some(w)), Won)
    case Won => if sh.asked == None then Effect(sh.(asked := Some(w)), Asked) else Effect(sh, t)
    case Asked => if sh.readers == {} then Effect(sh.(writer := Some(w)), Closing(0)) else Effect(sh, t)
    case Closing(k) =>
      if k < |sh.channels| then
        Effect(sh.(channels := sh.channels[k := false], panicked := sh.panicked || !sh.channels[k]), Closing(k + 1))
      else Effect(sh.(asked := None, writer := None), Cancelling)
    case Cancelling => Effect(sh.(cancelled := true), Finished)
    case Finished => Effect(sh, t)
  }

  /** A thread moves, the application takes something out of a channel, or the context is cancelled by someone else. */
  datatype Choice = Step(thread: nat, send: bool) | Accept(channel: nat) | CancelOutside

  function Next(s: State, c: Choice): (r: State) {
    match c
    case Step(w, send) =>
      if w >= |s.threads| then s
      else
        var e := Act(s.sh, w, s.threads[w], send);
        State(e.sh, s.threads[w := e.thread])
    case Accept(ch) =>
      if ch < |s.sh.fill| && s.sh.fill[ch] > 0 then s.(sh := s.sh.(fill := s.sh.fill[ch := s.sh.fill[ch] - 1])) else s
    case CancelOutside => s.(sh := s.sh.(cancelled := true))
  }

  function Run(threads: seq<Thread>, choices: seq<Choice>): (s: State) {
    if choices == [] then Initial(threads)
    else Next(Run(threads, choices[..|choices| - 1]), choices[|choices| - 1])
  }

  // ---------------------------------------------------------------- what every step keeps

  predicate Reads(t: Thread) {
    t.Holding? || t.Sending? || t.Leaving?
  }

  predicate Wins(t: Thread) {
    t.Won? || t.Asked? || t.Closing? || t.Cancelling?
  }

  /** Waits for the readers before it to leave. */
  predicate WaitsForReaders(t: Thread) {
    t.PeerAsked? || t.Asked?
  }

  predicate Writes(t: Thread) {
    t.PeerNoting? || t.Closing?
  }

  predicate AllOpen(sh: Shared) {
    forall k :: 0 <= k < |sh.channels| ==> sh.channels[k]
  }

  /** A writer has asked for the lock and excludes readers; before the swap nothing is closed. */
  predicate Sound(sh: Shared) {
    && |sh.channels| == |sh.fill| == CHANNELS && !sh.panicked
    && (sh.writer.Some? ==> sh.readers == {} && sh.asked == sh.writer)
    && (sh.winner == None ==> AllOpen(sh))
    && forall ch :: 0 <= ch < |sh.fill| ==> sh.fill[ch] <= Capacity(ch)
  }

  /** A thread holds the lock exactly while it is between taking and releasing it, only the winner is past the swap,
      and what a thread may assume of the channels where it is. */
  ghost predicate Placed(sh: Shared, w: nat, t: Thread) {
    && (w in sh.readers <==> Reads(t))
    && (sh.asked == Some(w) <==> WaitsForReaders(t) || Writes(t))
    && (sh.writer == Some(w) <==> Writes(t))
    && (Wins(t) ==> sh.winner == Some(w))
    && (t.Won? || t.Asked? || t.Sending? ==> AllOpen(sh))
    && (t.Closing? ==>
          t.next <= |sh.channels| && forall k :: 0 <= k < |sh.channels| ==> (sh.channels[k] <==> t.next <= k))
    && (t.Enqueue? || t.Holding? || t.Sending? ==> t.channel < CHANNELS)
  }

  /** The lock is held by threads. */
  predicate InRange(sh: Shared, threads: nat) {
    (forall w :: w in sh.readers ==> w < threads) && (sh.asked.Some? ==> sh.asked.value < threads)
  }

  ghost predicate Inv(s: State) {
    && Sound(s.sh) && InRange(s.sh, |s.threads|)
    && forall w :: 0 <= w < |s.threads| ==> Placed(s.sh, w, s.threads[w])
  }

  lemma OwnStep(sh: Shared, w: nat, t: Thread, send: bool)
    requires Sound(sh) && Placed(sh, w, t)
    ensures var e := Act(sh, w, t, send); Sound(e.sh) && Placed(e.sh, w, e.thread)
  {
  }

  lemma LockStep(sh: Shared, w: nat, t: Thread, send: bool, threads: nat)
    requires InRange(sh, threads) && w < threads
    ensures InRange(Act(sh, w, t, send).sh, threads)
  {
  }

  lemma OtherStep(sh: Shared, w: nat, t: Thread, send: bool, v: nat, u: Thread)
    requires Sound(sh) && Placed(sh, w, t) && Placed(sh, v, u) && v != w
    ensures Placed(Act(sh, w, t, send).sh, v, u)
  {
  }

  lemma OutsideKeeps(s: State, c: Choice)
    requires Inv(s) && !c.Step?
    ensures Inv(Next(s, c))
  {
    var n := Next(s, c);
    forall w | 0 <= w < |s.threads|
      ensures Placed(n.sh, w, n.threads[w])
    {
      assert Placed(s.sh, w, s.threads[w]);
    }
  }

  lemma StepKeeps(s: State, c: Choice)
    requires Inv(s)
    ensures Inv(Next(s, c))
  {
    if !c.Step? {
      OutsideKeeps(s, c);
      return;
    }
    hide Sound, Placed, Act, InRange;
    if c.thread < |s.threads| {
      OwnStep(s.sh, c.thread, s.threads[c.thread], c.send);
      LockStep(s.sh, c.thread, s.threads[c.thread], c.send, |s.threads|);
      forall v | 0 <= v < |s.threads| && v != c.thread
        ensures Placed(Next(s, c).sh, v, s.threads[v])
      {
        OtherStep(s.sh, c.thread, s.threads[c.thread], c.send, v, s.threads[v]);
      }
    }
  }

  lemma {:induction false} RunKeeps(threads: seq<Thread>, choices: seq<Choice>)
    requires forall w :: 0 <= w < |threads| ==> Fresh(threads[w])
    ensures Inv(Run(threads, choices))
  {
    if choices != [] {
      hide Inv, Next;
      RunKeeps(threads, choices[..|choices| - 1]);
      StepKeeps(Run(threads, choices[..|choices| - 1]), choices[|choices| - 1]);
    }
  }

  // ---------------------------------------------------------------- theorems

  /** In every interleaving of closers and deliveries nothing is sent on a closed channel and no channel is closed
      twice. */
  lemma NeverPanics(threads: seq<Thread>, choices: seq<Choice>)
    requires forall w :: 0 <= w < |threads| ==> Fresh(threads[w])
    ensures !Run(threads, choices).sh.panicked
  {
    RunKeeps(threads, choices);
  }

  /** Two threads are never both past the swap, and no delivery holds the lock while the channels are being closed. */
  lemma ClosersExclusive(threads: seq<Thread>, choices: seq<Choice>, v: nat, w: nat)
    requires forall i :: 0 <= i < |threads| ==> Fresh(threads[i])
    requires v < |Run(threads, choices).threads| && w < |Run(threads, choices).threads|
    ensures var s := Run(threads, choices);
            && (Wins(s.threads[v]) && Wins(s.threads[w]) ==> v == w)
            && (s.threads[v].Closing? ==> !Reads(s.threads[w]))
  {
    RunKeeps(threads, choices);
    hide Run;
    var s := Run(threads, choices);
    assert Placed(s.sh, v, s.threads[v]) && Placed(s.sh, w, s.threads[w]);
  }

  // ---------------------------------------------------------------- what a finished thread has done

  predicate AllShut(sh: Shared) {
    forall k :: 0 <= k < |sh.channels| ==> !sh.channels[k]
  }

  predicate Closer(t: Thread) {
    t.CloseStart? || t.PeerStart?
  }

  /** What a thread that began as a closer has done where it stands now. */
  predicate ClosesSoFar(sh: Shared, w: nat, t: Thread) {
    match t
    case PeerStart => sh.winner != Some(w)
    case PeerAsked => sh.winner != Some(w)
    case PeerNoting => sh.winner != Some(w)
    case CloseStart => sh.winner != Some(w)
    case Finished => Closed(sh) && (sh.winner == Some(w) ==> AllShut(sh) && sh.cancelled)
    case Cancelling => Closed(sh) && AllShut(sh)
    case _ => Wins(t)
  }

  lemma CloserStep(sh: Shared, w: nat, t: Thread, send: bool)
    requires Sound(sh) && Placed(sh, w, t) && ClosesSoFar(sh, w, t)
    ensures ClosesSoFar(Act(sh, w, t, send).sh, w, Act(sh, w, t, send).thread)
  {
  }

  /** Steps of others open no channel, take back no cancellation and let nobody else win. */
  lemma OthersOpenNothing(sh: Shared, w: nat, t: Thread, send: bool, v: nat, u: Thread)
    requires ClosesSoFar(sh, v, u) && v != w
    ensures ClosesSoFar(Act(sh, w, t, send).sh, v, u)
  {
  }

  lemma CloserNext(s: State, c: Choice, w: nat)
    requires Inv(s) && w < |s.threads| && ClosesSoFar(s.sh, w, s.threads[w])
    ensures |Next(s, c).threads| == |s.threads| && ClosesSoFar(Next(s, c).sh, w, Next(s, c).threads[w])
  {
    if c.Step? && c.thread < |s.threads| {
      hide Act, ClosesSoFar, Placed, Sound, InRange;
      assert Placed(s.sh, w, s.threads[w]);
      if c.thread == w {
        CloserStep(s.sh, w, s.threads[w], c.send);
      } else {
        OthersOpenNothing(s.sh, c.thread, s.threads[c.thread], c.send, w, s.threads[w]);
      }
    }
  }

  /** Every closer that has finished leaves a session whose flag is set; once the one that set it has finished, all
      three channels are closed and the context is cancelled. */
  lemma {:induction false} CloseCompletes(threads: seq<Thread>, choices: seq<Choice>, w: nat)
    requires (forall i :: 0 <= i < |threads| ==> Fresh(threads[i])) && w < |threads| && Closer(threads[w])
    ensures var s := Run(threads, choices);
            |s.threads| == |threads| && ClosesSoFar(s.sh, w, s.threads[w])
  {
    if choices != [] {
      hide Inv, Next, ClosesSoFar;
      CloseCompletes(threads, choices[..|choices| - 1], w);
      RunKeeps(threads, choices[..|choices| - 1]);
      CloserNext(Run(threads, choices[..|choices| - 1]), choices[|choices| - 1], w);
    }
  }

  /** What the select of a delivery can lead to, after any run: the item is in its channel, which had room; or a stream
      is given up because the session was cancelled, or a datagram because its channel held 1024; or it waits. */
  lemma DeliveryDecides(threads: seq<Thread>, choices: seq<Choice>, w: nat, send: bool)
    requires forall i :: 0 <= i < |threads| ==> Fresh(threads[i])
    requires var s := Run(threads, choices); w < |s.threads| && s.threads[w].Sending?
    ensures var s, n := Run(threads, choices), Run(threads, choices + [Step(w, send)]);
            var ch := s.threads[w].channel;
            && ch < |s.sh.fill| && |n.threads| == |s.threads|
            && match n.threads[w]
               case Leaving =>
                 || (n.sh == s.sh.(fill := s.sh.fill[ch := s.sh.fill[ch] + 1])
                     && s.sh.fill[ch] < if ch == 2 then 1024 else 256)
                 || (n.sh == s.sh && if ch == 2 then s.sh.fill[ch] == 1024 else s.sh.cancelled)
               case _ => n == s
  {
    RunKeeps(threads, choices);
    assert (choices + [Step(w, send)])[..|choices|] == choices;
    var s := Run(threads, choices);
    assert Run(threads, choices + [Step(w, send)]) == Next(s, Step(w, send));
    hide Run;
    assert Placed(s.sh, w, s.threads[w]);
    assert s.threads[w := s.threads[w]] == s.threads;
  }

  // ---------------------------------------------------------------- closing against a full channel

  /** A closer past the swap that does not have the lock yet. */
  predicate WaitsToClose(t: Thread) {
    t.Won? || t.Asked?
  }

  /** A delivery waits for room in a stream channel while a closer waits for the lock that the delivery holds. */
  ghost predicate Jammed(s: State, v: nat, w: nat) {
    && v < |s.threads| && w < |s.threads| && s.threads[v].Sending? && WaitsToClose(s.threads[w])
    && s.threads[v].channel < DATAGRAMS && s.threads[v].channel < |s.sh.fill|
    && s.sh.fill[s.threads[v].channel] >= Capacity(s.threads[v].channel) && !s.sh.cancelled
  }

  /** The delivery cannot move, and the closer does not get the lock. */
  lemma JammedBlocks(s: State, v: nat, w: nat, send: bool)
    requires Inv(s) && Jammed(s, v, w)
    ensures Next(s, Step(v, send)) == s && Jammed(Next(s, Step(w, send)), v, w)
  {
    assert Placed(s.sh, v, s.threads[v]) && Placed(s.sh, w, s.threads[w]);
    assert s.threads[v := s.threads[v]] == s.threads;
  }

  /** And no other delivery or closer can free them. */
  lemma JammedStays(s: State, v: nat, w: nat, c: Choice)
    requires Inv(s) && Jammed(s, v, w) && c.Step?
    ensures Jammed(Next(s, c), v, w)
  {
    if c.thread < |s.threads| {
      if c.thread == v || c.thread == w {
        JammedBlocks(s, v, w, c.send);
      } else {
        assert Placed(s.sh, w, s.threads[w]) && Placed(s.sh, c.thread, s.threads[c.thread]);
        FillGrows(s.sh, c.thread, s.threads[c.thread], c.send, s.threads[v].channel);
      }
    }
  }

  /** A step takes nothing out of a channel, and only the winner of the swap cancels. */
  lemma FillGrows(sh: Shared, w: nat, t: Thread, send: bool, ch: nat)
    requires ch < |sh.fill|
    ensures var n := Act(sh, w, t, send).sh;
            ch < |n.fill| && sh.fill[ch] <= n.fill[ch] && (n.cancelled ==> sh.cancelled || t.Cancelling?)
  {
  }

  /** Once closing meets a delivery that is blocked on a full stream channel, the channels stay open and the delivery
      stays blocked until the application accepts a stream or the context is cancelled by someone else: no step of any
      closer or delivery ends it. */
  lemma {:induction false} CloseWaitsForAccept(
    threads: seq<Thread>, choices: seq<Choice>, more: seq<Choice>, v: nat, w: nat)
    requires forall i :: 0 <= i < |threads| ==> Fresh(threads[i])
    requires Jammed(Run(threads, choices), v, w) && forall i :: 0 <= i < |more| ==> more[i].Step?
    ensures Jammed(Run(threads, choices + more), v, w)
    decreases |more|
  {
    hide Jammed, Next;
    if more == [] {
      assert choices + more == choices;
    } else {
      var k := |more| - 1;
      assert (choices + more)[..|choices| + k] == choices + more[..k];
      CloseWaitsForAccept(threads, choices, more[..k], v, w);
      RunKeeps(threads, choices + more[..k]);
      JammedStays(Run(threads, choices + more[..k]), v, w, more[k]);
    }
  }

  // ---------------------------------------------------------------- exactly when nothing moves

  /** A delivery of a stream that finds no room and is not called off. */
  predicate Blocked(sh: Shared, t: Thread) {
    && t.Sending? && t.channel < DATAGRAMS && t.channel < |sh.fill|
    && sh.fill[t.channel] >= Capacity(t.channel) && !sh.cancelled
  }

  ghost predicate CannotMove(s: State, w: nat) {
    forall send :: Next(s, Step(w, send)) == s
  }

  /** Stands before the lock and has not asked for it. */
  predicate BeforeLock(t: Thread) {
    t.Enqueue? || t.PeerStart? || t.Won?
  }

  /** Where a thread stands that cannot move. */
  predicate Halted(sh: Shared, t: Thread) {
    || t.Finished? || Blocked(sh, t)
    || (BeforeLock(t) && sh.asked.Some?) || (WaitsForReaders(t) && sh.readers != {})
  }

  lemma CannotMoveIff(s: State, w: nat)
    requires Inv(s) && w < |s.threads|
    ensures CannotMove(s, w) <==> Halted(s.sh, s.threads[w])
  {
    var t := s.threads[w];
    assert Placed(s.sh, w, t);
    forall send
      ensures Next(s, Step(w, send)) == s <==> Act(s.sh, w, t, send) == Effect(s.sh, t)
    {
      var e := Act(s.sh, w, t, send);
      assert s.threads[w := e.thread][w] == e.thread;
      assert e.thread == t ==> s.threads[w := e.thread] == s.threads;
    }
    ActFixed(s.sh, w, t);
    hide Act, Placed, Sound, Halted;
    if Act(s.sh, w, t, true) == Effect(s.sh, t) && Act(s.sh, w, t, false) == Effect(s.sh, t) {
      forall send
        ensures Next(s, Step(w, send)) == s
      {
        assert send == true || send == false;
      }
    }
  }

  lemma ActFixed(sh: Shared, w: nat, t: Thread)
    requires Sound(sh) && Placed(sh, w, t)
    ensures Act(sh, w, t, true) == Effect(sh, t) && Act(sh, w, t, false) == Effect(sh, t) <==> Halted(sh, t)
  {
    if t.Sending? {
      assert sh.channels[t.channel];
    }
  }

  ghost predicate Stuck(s: State) {
    forall w :: 0 <= w < |s.threads| ==> CannotMove(s, w)
  }

  ghost predicate SomeBlocked(s: State) {
    exists v :: 0 <= v < |s.threads| && Blocked(s.sh, s.threads[v])
  }

  ghost predicate SomeWriterWaits(s: State) {
    exists v :: 0 <= v < |s.threads| && WaitsForReaders(s.threads[v])
  }

  /** The kinds of threads in a state where nothing moves. */
  ghost predicate StuckKind(s: State, t: Thread) {
    || t.Finished? || Blocked(s.sh, t)
    || (WaitsForReaders(t) && SomeBlocked(s))
    || (BeforeLock(t) && SomeWriterWaits(s) && SomeBlocked(s))
  }

  /** If nothing moves, the lock is asked for only by a writer that waits, and then a blocked delivery holds it. */
  lemma StuckLock(s: State)
    requires Inv(s) && Stuck(s)
    ensures s.sh.readers != {} ==> SomeBlocked(s)
    ensures s.sh.asked.Some? ==> SomeWriterWaits(s) && SomeBlocked(s)
  {
    hide Next, CannotMove;
    forall w | 0 <= w < |s.threads|
      ensures Halted(s.sh, s.threads[w]) && Placed(s.sh, w, s.threads[w])
    {
      assert CannotMove(s, w);
      CannotMoveIff(s, w);
    }
    if s.sh.readers != {} {
      var v :| v in s.sh.readers;
      assert Halted(s.sh, s.threads[v]) && Placed(s.sh, v, s.threads[v]);
      assert Blocked(s.sh, s.threads[v]);
    }
    if s.sh.asked.Some? {
      var a := s.sh.asked.value;
      assert Halted(s.sh, s.threads[a]) && Placed(s.sh, a, s.threads[a]);
      assert WaitsForReaders(s.threads[a]);
    }
  }

  /** In every reachable state, closers and deliveries are all stuck exactly if each of them has finished, or is a
      delivery blocked on a full stream channel of an uncancelled session, or waits for the lock behind such a delivery:
      as the writer that has asked for it, or before the lock while a writer has. */
  lemma StuckIff(threads: seq<Thread>, choices: seq<Choice>)
    requires forall i :: 0 <= i < |threads| ==> Fresh(threads[i])
    ensures var s := Run(threads, choices);
            Stuck(s) <==> forall w :: 0 <= w < |s.threads| ==> StuckKind(s, s.threads[w])
  {
    RunKeeps(threads, choices);
    hide Run, Next, CannotMove, Blocked;
    var s := Run(threads, choices);
    forall w | 0 <= w < |s.threads|
      ensures CannotMove(s, w) <==> Halted(s.sh, s.threads[w])
    {
      CannotMoveIff(s, w);
    }
    if Stuck(s) {
      StuckLock(s);
      assert forall w :: 0 <= w < |s.threads| ==> CannotMove(s, w);
    } else {
      LockTaken(s);
    }
    if forall w :: 0 <= w < |s.threads| ==> StuckKind(s, s.threads[w]) {
      LockTaken(s);
    }
  }

  /** A blocked delivery holds the lock, and a writer that waits has asked for it. */
  lemma LockTaken(s: State)
    requires Inv(s)
    ensures SomeBlocked(s) ==> s.sh.readers != {}
    ensures SomeWriterWaits(s) ==> s.sh.asked.Some?
  {
    if SomeBlocked(s) {
      var v :| 0 <= v < |s.threads| && Blocked(s.sh, s.threads[v]);
      assert Placed(s.sh, v, s.threads[v]);
    }
    if SomeWriterWaits(s) {
      var v :| 0 <= v < |s.threads| && WaitsForReaders(s.threads[v]);
      assert Placed(s.sh, v, s.threads[v]);
    }
  }

  // ---------------------------------------------------------------- exactly when a closer can get through

  function Sum(f: Thread -> nat, threads: seq<Thread>): (n: nat) {
    if threads == [] then 0 else Sum(f, threads[..|threads| - 1]) + f(threads[|threads| - 1])
  }

  lemma {:induction false} SumUpdate(f: Thread -> nat, threads: seq<Thread>, i: nat, t: Thread)
    requires i < |threads|
    ensures Sum(f, threads[i := t]) == Sum(f, threads) - f(threads[i]) + f(t)
    ensures Sum(f, threads) >= f(threads[i])
  {
    var k := |threads| - 1;
    if i == k {
      assert threads[i := t][..k] == threads[..k];
    } else {
      assert threads[i := t][..k] == threads[..k][i := t];
      SumUpdate(f, threads[..k], i, t);
    }
  }

  lemma {:induction false} SumPositive(f: Thread -> nat, threads: seq<Thread>) returns (i: nat)
    requires Sum(f, threads) > 0
    ensures i < |threads| && f(threads[i]) > 0
  {
    var k := |threads| - 1;
    if f(threads[k]) > 0 {
      i := k;
    } else {
      i := SumPositive(f, threads[..k]);
    }
  }

  /** Counts the deliveries that wait to send on a channel. */
  function SendingOn(ch: nat): (f: Thread -> nat) {
    t => if t == Sending(ch) then 1 else 0
  }

  function Waiting(s: State, ch: nat): (n: nat) {
    Sum(SendingOn(ch), s.threads)
  }

  /** No stream channel has more deliveries waiting than free places. */
  predicate HasRoom(s: State) {
    forall ch :: 0 <= ch < DATAGRAMS && ch < |s.sh.fill| ==> Waiting(s, ch) + s.sh.fill[ch] <= Capacity(ch)
  }

  function After(s: State, more: seq<Choice>): (r: State)
    decreases |more|
  {
    if more == [] then s else After(Next(s, more[0]), more[1..])
  }

  predicate AllSteps(more: seq<Choice>) {
    forall i :: 0 <= i < |more| ==> more[i].Step?
  }

  /** A closer waits for the lock and some stream channel is short of room. */
  ghost predicate Short(s: State, w: nat, ch: nat) {
    && Inv(s) && w < |s.threads| && WaitsToClose(s.threads[w]) && !s.sh.cancelled
    && ch < DATAGRAMS && Waiting(s, ch) + s.sh.fill[ch] > Capacity(ch)
  }

  lemma ShortBlocks(s: State, w: nat, ch: nat)
    requires Short(s, w, ch)
    ensures s.sh.readers != {}
  {
    var v := SumPositive(SendingOn(ch), s.threads);
    assert Placed(s.sh, v, s.threads[v]);
    assert v in s.sh.readers;
  }

  lemma ShortStays(s: State, w: nat, ch: nat, c: Choice)
    requires Short(s, w, ch) && c.Step?
    ensures Short(Next(s, c), w, ch)
  {
    StepKeeps(s, c);
    if c.thread < |s.threads| {
      ShortBlocks(s, w, ch);
      ShortParts(s, w, c.thread, ch);
      SumUpdate(SendingOn(ch), s.threads, c.thread, Act(s.sh, c.thread, s.threads[c.thread], c.send).thread);
      hide Sum, Inv, Act, Placed, Sound;
      if c.thread == w {
        CloserHeld(s.sh, w, s.threads[w], c.send, ch);
      } else {
        ActBalance(s.sh, c.thread, s.threads[c.thread], c.send, ch);
      }
    }
  }

  lemma ShortParts(s: State, w: nat, v: nat, ch: nat)
    requires Short(s, w, ch) && v < |s.threads|
    ensures Sound(s.sh) && Placed(s.sh, v, s.threads[v]) && Closed(s.sh) && ch < |s.sh.fill|
    ensures v != w ==> !Wins(s.threads[v])
  {
    assert Placed(s.sh, w, s.threads[w]) && Placed(s.sh, v, s.threads[v]);
  }

  /** While a delivery holds the lock, a closer at most asks for it. */
  lemma CloserHeld(sh: Shared, w: nat, t: Thread, send: bool, ch: nat)
    requires WaitsToClose(t) && sh.readers != {}
    ensures var e := Act(sh, w, t, send);
            && WaitsToClose(e.thread) && e.sh.fill == sh.fill && e.sh.cancelled == sh.cancelled
            && SendingOn(ch)(e.thread) == SendingOn(ch)(t)
  {
  }

  /** A delivery that stops waiting has taken a place, and while a closer is past the swap none starts to wait. */
  lemma ActBalance(sh: Shared, w: nat, t: Thread, send: bool, ch: nat)
    requires Sound(sh) && Placed(sh, w, t) && Closed(sh) && !sh.cancelled && ch < DATAGRAMS && !Wins(t)
    ensures var e := Act(sh, w, t, send);
            && !e.sh.cancelled && ch < |e.sh.fill|
            && SendingOn(ch)(e.thread) + e.sh.fill[ch] == SendingOn(ch)(t) + sh.fill[ch]
  {
  }

  lemma {:induction false} ShortForever(s: State, w: nat, ch: nat, more: seq<Choice>)
    requires Short(s, w, ch) && AllSteps(more)
    ensures Short(After(s, more), w, ch)
    decreases |more|
  {
    if more != [] {
      hide Short, Next;
      ShortStays(s, w, ch, more[0]);
      ShortForever(Next(s, more[0]), w, ch, more[1..]);
    }
  }

  /** How many steps a thread is from being out of the way of a closer. */
  function Rank(t: Thread): (n: nat) {
    if t.Holding? || t.Sending? || t.PeerAsked? then 2 else if t.Leaving? || t.PeerNoting? || t.Won? then 1 else 0
  }

  /** A closer waits for the lock, and every delivery in its way can finish. */
  ghost predicate Passable(s: State, w: nat) {
    Inv(s) && w < |s.threads| && WaitsToClose(s.threads[w]) && (s.sh.cancelled || HasRoom(s))
  }

  /** The branch of the select that is open to a delivery. */
  function OpenBranch(sh: Shared, t: Thread): (send: bool) {
    t.Sending? && t.channel < |sh.fill| && sh.fill[t.channel] < Capacity(t.channel)
  }

  /** The thread whose turn it is: a reader, else the writer that has asked for the lock, else the closer itself. */
  ghost predicate Due(s: State, w: nat, v: nat) {
    if s.sh.readers != {} then v in s.sh.readers
    else if s.sh.asked.Some? then s.sh.asked == Some(v)
    else v == w
  }

  /** The thread whose turn it is gets nearer, unless it is the closer that now takes the lock. */
  lemma DueMoves(s: State, w: nat, v: nat)
    requires Passable(s, w) && Due(s, w, v) && (s.sh.readers != {} || s.threads[w].Won?)
    ensures v < |s.threads|
    ensures var n := Next(s, Step(v, OpenBranch(s.sh, s.threads[v])));
            Passable(n, w) && Sum(Rank, n.threads) < Sum(Rank, s.threads)
  {
    DueInRange(s, w, v);
    var t := s.threads[v];
    var send := OpenBranch(s.sh, t);
    PassableParts(s, w, v);
    StepKeeps(s, Step(v, send));
    SumUpdate(Rank, s.threads, v, Act(s.sh, v, t, send).thread);
    if t.Sending? {
      SumUpdate(SendingOn(t.channel), s.threads, v, Act(s.sh, v, t, send).thread);
    }
    hide Sum, Inv, Act, Sound, Placed, HasRoom, Due, Wins, Rank;
    DueRank(s, w, v, send);
    if !s.sh.cancelled {
      RoomKept(s, w, v, send);
    }
    ActCancels(s.sh, v, t, send);
  }

  lemma DueInRange(s: State, w: nat, v: nat)
    requires Passable(s, w) && Due(s, w, v)
    ensures v < |s.threads|
  {
  }

  lemma PassableParts(s: State, w: nat, v: nat)
    requires Passable(s, w) && v < |s.threads|
    ensures Sound(s.sh) && Placed(s.sh, v, s.threads[v]) && Placed(s.sh, w, s.threads[w]) && Closed(s.sh)
  {
    assert Placed(s.sh, w, s.threads[w]);
  }

  lemma ActCancels(sh: Shared, w: nat, t: Thread, send: bool)
    ensures sh.cancelled ==> Act(sh, w, t, send).sh.cancelled
  {
  }

  /** A step takes no place away that a waiting delivery counts on. */
  lemma RoomKept(s: State, w: nat, v: nat, send: bool)
    requires v < |s.threads| && Sound(s.sh) && Placed(s.sh, v, s.threads[v]) && Closed(s.sh) && !s.sh.cancelled
    requires HasRoom(s)
    requires Wins(s.threads[v]) ==> v == w && s.threads[v].Won? && Act(s.sh, v, s.threads[v], send).thread == Asked
    ensures HasRoom(Next(s, Step(v, send)))
  {
    var t := s.threads[v];
    var e := Act(s.sh, v, t, send);
    var n := Next(s, Step(v, send));
    hide Sum;
    forall ch | 0 <= ch < DATAGRAMS && ch < |n.sh.fill|
      ensures Waiting(n, ch) + n.sh.fill[ch] <= Capacity(ch)
    {
      SumUpdate(SendingOn(ch), s.threads, v, e.thread);
      if !Wins(t) {
        ActBalance(s.sh, v, t, send, ch);
      }
    }
  }

  lemma DueRank(s: State, w: nat, v: nat, send: bool)
    requires w < |s.threads| && v < |s.threads| && WaitsToClose(s.threads[w]) && (s.sh.cancelled || HasRoom(s))
    requires Sound(s.sh) && Placed(s.sh, v, s.threads[v]) && Placed(s.sh, w, s.threads[w])
    requires Due(s, w, v) && (s.sh.readers != {} || s.threads[w].Won?) && send == OpenBranch(s.sh, s.threads[v])
    requires s.threads[v].Sending? ==> Waiting(s, s.threads[v].channel) >= 1
    ensures Rank(Act(s.sh, v, s.threads[v], send).thread) < Rank(s.threads[v])
    ensures Wins(s.threads[v]) ==>
              v == w && s.threads[v].Won? && Act(s.sh, v, s.threads[v], send).thread == Asked
    ensures v != w || Act(s.sh, v, s.threads[v], send).thread == Asked
  {
    hide Sum;
  }

  /** A schedule that lets everything in the way finish and then gives the closer the lock. */
  lemma {:induction false} Release(s: State, w: nat) returns (more: seq<Choice>)
    requires Passable(s, w)
    ensures AllSteps(more) && GotLock(After(s, more), w)
    decreases Sum(Rank, s.threads)
  {
    if s.sh.readers == {} && s.threads[w].Asked? {
      more := [Step(w, true)];
      assert more[1..] == [];
      assert After(s, more) == Next(s, Step(w, true));
    } else {
      var v := SomeoneDue(s, w);
      DueMoves(s, w, v);
      hide Passable, Next, Sum, Due;
      var c := Step(v, OpenBranch(s.sh, s.threads[v]));
      var rest := Release(Next(s, c), w);
      more := [c] + rest;
      assert more[1..] == rest;
    }
  }

  lemma SomeoneDue(s: State, w: nat) returns (v: nat)
    ensures Due(s, w, v)
  {
    if s.sh.readers != {} {
      v :| v in s.sh.readers;
    } else if s.sh.asked.Some? {
      v := s.sh.asked.value;
    } else {
      v := w;
    }
  }

  /** In every reachable state, steps of closers and deliveries alone can give a waiting closer the lock exactly if the
      session is cancelled or no stream channel has more deliveries waiting than free places. */
  lemma CloserGetsThroughIff(threads: seq<Thread>, choices: seq<Choice>, w: nat)
    requires forall i :: 0 <= i < |threads| ==> Fresh(threads[i])
    requires w < |Run(threads, choices).threads| && WaitsToClose(Run(threads, choices).threads[w])
    ensures var s := Run(threads, choices);
            (exists more :: AllSteps(more) && GotLock(After(s, more), w)) <==> s.sh.cancelled || HasRoom(s)
  {
    hide *;
    RunKeeps(threads, choices);
    var s := Run(threads, choices);
    GetsThroughIff(s, w);
  }

  lemma GetsThroughIff(s: State, w: nat)
    requires Inv(s) && w < |s.threads| && WaitsToClose(s.threads[w])
    ensures (exists more :: AllSteps(more) && GotLock(After(s, more), w)) <==> s.sh.cancelled || HasRoom(s)
  {
    hide Run, After, Inv, Waiting, AllSteps;
    if s.sh.cancelled || HasRoom(s) {
      var more := Release(s, w);
      assert GotLock(After(s, more), w);
    } else {
      SoundLength(s);
      var ch :| 0 <= ch < DATAGRAMS && ch < |s.sh.fill| && !(Waiting(s, ch) + s.sh.fill[ch] <= Capacity(ch));
      forall more | AllSteps(more)
        ensures !GotLock(After(s, more), w)
      {
        ShortForever(s, w, ch, more);
      }
    }
  }

  predicate GotLock(s: State, w: nat) {
    w < |s.threads| && s.threads[w].Closing?
  }

  lemma SoundLength(s: State)
    requires Inv(s)
    ensures |s.sh.fill| == CHANNELS
  {
  }

  /** One more delivery than a stream channel holds, and a closer. */
  const CROWD: nat := 257

  function Crowd(): (threads: seq<Thread>)
    ensures |threads| == CROWD + 1 && threads[CROWD] == CloseStart
    ensures forall i :: 0 <= i < CROWD ==> threads[i] == Enqueue(0)
  {
    seq(CROWD, _ => Enqueue(0)) + [CloseStart]
  }

  /** The first `k` deliveries run to their end, one after the other. */
  function Deliveries(k: nat): (r: seq<Choice>) {
    if k == 0 then []
    else Deliveries(k - 1) + [Step(k - 1, true), Step(k - 1, true), Step(k - 1, true), Step(k - 1, true)]
  }

  function Delivered(k: nat): (s: State)
    requires k <= CROWD
  {
    State(Shared(None, None, None, {}, [true, true, true], [k, 0, 0], false, false),
          seq(k, _ => Finished) + Crowd()[k..])
  }

  lemma RunFour(threads: seq<Thread>, choices: seq<Choice>, c: Choice)
    ensures Run(threads, choices + [c, c, c, c]) == Next(Next(Next(Next(Run(threads, choices), c), c), c), c)
  {
    hide Next;
    RunOne(threads, choices, c);
    RunOne(threads, choices + [c], c);
    RunOne(threads, choices + [c] + [c], c);
    RunOne(threads, choices + [c] + [c] + [c], c);
    assert choices + [c, c, c, c] == choices + [c] + [c] + [c] + [c];
  }

  lemma RunOne(threads: seq<Thread>, choices: seq<Choice>, c: Choice)
    ensures Run(threads, choices + [c]) == Next(Run(threads, choices), c)
  {
    assert (choices + [c])[..|choices|] == choices;
  }

  lemma DeliverOne(k: nat)
    requires k < 256
    ensures var c := Step(k, true); Next(Next(Next(Next(Delivered(k), c), c), c), c) == Delivered(k + 1)
  {
    var s, c := Delivered(k), Step(k, true);
    assert s.threads[k] == Enqueue(0);
    var a := Next(s, c);
    assert a.threads[k] == Holding(0);
    var b := Next(a, c);
    assert b.threads[k] == Sending(0);
    var d := Next(b, c);
    assert d.threads[k] == Leaving && d.sh.fill == [k + 1, 0, 0];
    var e := Next(d, c);
    assert e.sh.readers == {};
    assert e.threads == Delivered(k + 1).threads;
  }

  lemma {:induction false} DeliveriesFill(k: nat)
    requires k <= 256
    ensures Run(Crowd(), Deliveries(k)) == Delivered(k)
  {
    if k == 0 {
      assert Crowd()[0..] == Crowd();
      assert seq(0, _ => Finished) + Crowd() == Crowd();
    } else {
      DeliveriesFill(k - 1);
      RunFour(Crowd(), Deliveries(k - 1), Step(k - 1, true));
      DeliverOne(k - 1);
    }
  }

  lemma LastSteps()
    ensures var c := Step(256, true);
            Jammed(Next(Next(Next(Delivered(256), c), c), Step(CROWD, true)), 256, CROWD)
  {
    var s, c := Delivered(256), Step(256, true);
    assert s.threads[256] == Enqueue(0) && s.threads[CROWD] == CloseStart && |s.threads| == CROWD + 1;
    hide Delivered, Crowd;
    var a := Next(s, c);
    assert a == State(s.sh.(readers := s.sh.readers + {256}), s.threads[256 := Holding(0)]);
    var b := Next(a, c);
    assert b == State(a.sh, a.threads[256 := Sending(0)]);
    assert Next(b, Step(CROWD, true)) == State(a.sh.(winner := Some(CROWD)), b.threads[CROWD := Won]);
  }

  /** The jam is reachable: a channel filled to its capacity, one more delivery, and a close. */
  lemma JamIsReachable()
    ensures var choices := Deliveries(256) + [Step(256, true)] + [Step(256, true)] + [Step(CROWD, true)];
            Jammed(Run(Crowd(), choices), 256, CROWD)
  {
    hide *;
    DeliveriesFill(256);
    var d := Deliveries(256);
    var c := Step(256, true);
    RunOne(Crowd(), d, c);
    RunOne(Crowd(), d + [c], c);
    RunOne(Crowd(), d + [c] + [c], Step(CROWD, true));
    LastSteps();
  }
}
