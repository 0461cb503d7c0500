/** The span queue of the OTLP exporter: callers enqueue snapshots, one worker collects them into batches and sends
    them, and a shutdown makes the worker drain the queue and end. */
module Exporters {
  import opened Text

  const QUEUE_CAPACITY := 2048

  // ---------------------------------------------------------------- batches

  function Flatten<T>(batches: seq<seq<T>>): (r: seq<T>) {
    if batches == [] then [] else Flatten(batches[..|batches| - 1]) + batches[|batches| - 1]
  }

  lemma FlattenAppend<T>(batches: seq<seq<T>>, b: seq<T>)
    ensures Flatten(batches + [b]) == Flatten(batches) + b
  {
    assert (batches + [b])[..|batches|] == batches;
  }

  lemma {:induction false} FlattenConcat<T>(a: seq<seq<T>>, b: seq<seq<T>>)
    ensures Flatten(a + b) == Flatten(a) + Flatten(b)
  {
    if b == [] {
      assert a + b == a;
    } else {
      var k := |b| - 1;
      assert a + b == (a + b[..k]) + [b[k]];
      FlattenAppend(a + b[..k], b[k]);
      FlattenConcat(a, b[..k]);
    }
  }

  /** Full batches in order, the last one possibly shorter, none empty. */
  function Chunks<T>(items: seq<T>, size: nat): (r: seq<seq<T>>)
    requires size > 0
  {
    if items == [] then []
    else if |items| <= size then [items]
    else [items[..size]] + Chunks(items[size..], size)
  }

  lemma {:induction false} ChunksProperties<T>(items: seq<T>, size: nat)
    requires size > 0
    ensures Flatten(Chunks(items, size)) == items
    ensures forall i :: 0 <= i < |Chunks(items, size)| ==> 1 <= |Chunks(items, size)[i]| <= size
    ensures forall i :: 0 <= i < |Chunks(items, size)| - 1 ==> |Chunks(items, size)[i]| == size
  {
    if 0 < |items| <= size {
      FlattenAppend([], items);
    } else if |items| > size {
      ChunksProperties(items[size..], size);
      FlattenAppend([], items[..size]);
      FlattenConcat([items[..size]], Chunks(items[size..], size));
    }
  }

  lemma ChunksFull<T>(full: seq<T>, rest: seq<T>, size: nat)
    requires |full| == size > 0
    ensures Chunks(full + rest, size) == [full] + Chunks(rest, size)
  {
    assert (full + rest)[..size] == full && (full + rest)[size..] == rest;
    if rest == [] {
      assert full + rest == full && [full] + [] == [full];
    }
  }

  // ---------------------------------------------------------------- the protocol

  /** `Flushing` is the moment between finding the queue empty and sending the last batch. */
  datatype Phase = Serving | Draining | Flushing | Exited

  /** `closers` counts the shutdown callers that found the done channel open and have not closed it yet, `closes` the
      close operations so far. The rest after `closes` is history: every snapshot accepted, how many had been accepted
      when the channel was closed first, and how many when the worker last found the queue empty. */
  datatype State<T> = State(
    queue: seq<T>, batch: seq<T>, sent: seq<seq<T>>, phase: Phase, closers: nat, closes: nat,
    accepted: seq<T>, atClose: nat, atEmpty: nat)

  function Initial<T>(): (s: State<T>) {
    State([], [], [], Serving, 0, 0, [], 0, 0)
  }

  datatype Step<T> = Enqueue(snap: T) | Receive | Tick | SeeDone | SeeEmpty | FlushAndExit | CheckDone | CloseDone

  function Flush<T>(s: State<T>): (r: State<T>) {
    if s.batch == [] then s else s.(sent := s.sent + [s.batch], batch := [])
  }

  /** Take the oldest snapshot into the batch and send the batch once it is full. */
  function Take<T>(s: State<T>, batchSize: nat): (r: State<T>)
    requires s.queue != []
  {
    var t := s.(queue := s.queue[1..], batch := s.batch + [s.queue[0]]);
    if |t.batch| >= batchSize then Flush(t) else t
  }

  /** A step that is not possible changes nothing. */
  function Next<T>(s: State<T>, c: Step<T>, batchSize: nat): (r: State<T>) {
    match c
    case Enqueue(snap) =>
      if |s.queue| < QUEUE_CAPACITY then s.(queue := s.queue + [snap], accepted := s.accepted + [snap]) else s
    case Receive => if (s.phase.Serving? || s.phase.Draining?) && s.queue != [] then Take(s, batchSize) else s
    case Tick => if s.phase.Serving? then Flush(s) else s
    case SeeDone => if s.phase.Serving? && s.closes > 0 then s.(phase := Draining) else s
    case SeeEmpty =>
      if s.phase.Draining? && s.queue == [] then s.(phase := Flushing, atEmpty := |s.accepted|) else s
    case FlushAndExit => if s.phase.Flushing? then Flush(s).(phase := Exited) else s
    case CheckDone => if s.closes == 0 then s.(closers := s.closers + 1) else s
    case CloseDone =>
      if s.closers == 0 then s
      else s.(closers := s.closers - 1, closes := s.closes + 1,
              atClose := if s.closes == 0 then |s.accepted| else s.atClose)
  }

  function Run<T>(steps: seq<Step<T>>, batchSize: nat): (s: State<T>) {
    if steps == [] then Initial()
    else Next(Run(steps[..|steps| - 1], batchSize), steps[|steps| - 1], batchSize)
  }

  /** Closing a closed channel panics. */
  predicate Panicked<T>(s: State<T>) {
    s.closes > 1
  }

  // ---------------------------------------------------------------- what every step keeps

  ghost predicate Conserved<T>(s: State<T>) {
    Flatten(s.sent) + s.batch + s.queue == s.accepted
  }

  ghost predicate Sized<T>(s: State<T>, batchSize: nat) {
    && |s.batch| < batchSize
    && forall i :: 0 <= i < |s.sent| ==> 1 <= |s.sent[i]| <= batchSize
  }

  ghost predicate Marked<T>(s: State<T>) {
    && |s.queue| <= QUEUE_CAPACITY
    && s.atClose <= |s.accepted|
    && (s.closes == 0 ==> s.phase.Serving?)
    && (s.phase.Flushing? || s.phase.Exited? ==>
          && s.atClose <= s.atEmpty <= |s.accepted|
          && Flatten(s.sent) + s.batch == s.accepted[..s.atEmpty])
    && (s.phase.Exited? ==> s.batch == [])
  }

  lemma FlushKeeps<T>(s: State<T>)
    ensures Flatten(Flush(s).sent) + Flush(s).batch == Flatten(s.sent) + s.batch
  {
    FlattenAppend(s.sent, s.batch);
  }

  lemma TakeKeeps<T>(s: State<T>, batchSize: nat)
    requires s.queue != [] && Conserved(s)
    ensures Conserved(Take(s, batchSize))
  {
    var t := s.(queue := s.queue[1..], batch := s.batch + [s.queue[0]]);
    assert Flatten(t.sent) + t.batch + t.queue == Flatten(s.sent) + s.batch + s.queue;
    FlushKeeps(t);
  }

  lemma ConservedKept<T>(s: State<T>, c: Step<T>, batchSize: nat)
    requires Conserved(s)
    ensures Conserved(Next(s, c, batchSize))
  {
    hide Take;
    match c
    case Enqueue(snap) => assert Flatten(s.sent) + s.batch + (s.queue + [snap]) == s.accepted + [snap];
    case Receive => if s.queue != [] { TakeKeeps(s, batchSize); }
    case _ => FlushKeeps(s);
  }

  lemma SizedKept<T>(s: State<T>, c: Step<T>, batchSize: nat)
    requires batchSize > 0 && Sized(s, batchSize)
    ensures Sized(Next(s, c, batchSize), batchSize)
  {
  }

  lemma MarkedKept<T>(s: State<T>, c: Step<T>, batchSize: nat)
    requires Conserved(s) && Marked(s)
    ensures Marked(Next(s, c, batchSize))
  {
    hide Flatten;
    match c
    case Enqueue(snap) =>
      if s.atEmpty <= |s.accepted| {
        assert (s.accepted + [snap])[..s.atEmpty] == s.accepted[..s.atEmpty];
      }
    case SeeEmpty =>
      if s.queue == [] {
        assert Flatten(s.sent) + s.batch + [] == Flatten(s.sent) + s.batch;
        assert s.accepted == s.accepted[..|s.accepted|];
      }
    case FlushAndExit => FlushKeeps(s);
    case _ =>
  }

  lemma {:induction false} RunKeeps<T>(steps: seq<Step<T>>, batchSize: nat)
    requires batchSize > 0
    ensures var s := Run(steps, batchSize); Conserved(s) && Sized(s, batchSize) && Marked(s)
  {
    if steps != [] {
      hide Next, Conserved, Sized, Marked;
      var before := Run(steps[..|steps| - 1], batchSize);
      RunKeeps(steps[..|steps| - 1], batchSize);
      ConservedKept(before, steps[|steps| - 1], batchSize);
      SizedKept(before, steps[|steps| - 1], batchSize);
      MarkedKept(before, steps[|steps| - 1], batchSize);
    }
  }

  // ---------------------------------------------------------------- theorems

  /** Nothing is lost, repeated or reordered between the queue, the batch and the requests sent. */
  lemma SpansConserved<T>(steps: seq<Step<T>>, batchSize: nat)
    requires batchSize > 0
    ensures var s := Run(steps, batchSize); Flatten(s.sent) + s.batch + s.queue == s.accepted
    ensures var s := Run(steps, batchSize);
            |s.batch| < batchSize && forall i :: 0 <= i < |s.sent| ==> 1 <= |s.sent[i]| <= batchSize
  {
    RunKeeps(steps, batchSize);
  }

  /** Once the worker has ended, what it sent is exactly what had been accepted when it found the queue empty, which
      includes everything accepted before the shutdown; only later snapshots stay in the queue. */
  lemma ExitedHasSentAll<T>(steps: seq<Step<T>>, batchSize: nat)
    requires batchSize > 0 && Run(steps, batchSize).phase.Exited?
    ensures var s := Run(steps, batchSize);
            && s.atClose <= s.atEmpty <= |s.accepted|
            && Flatten(s.sent) == s.accepted[..s.atEmpty]
            && s.queue == s.accepted[s.atEmpty..]
  {
    RunKeeps(steps, batchSize);
    var s := Run(steps, batchSize);
    assert Flatten(s.sent) + [] == Flatten(s.sent);
    assert Flatten(s.sent) + [] + s.queue == s.accepted;
  }

  lemma RunMore<T>(steps: seq<Step<T>>, c: Step<T>, batchSize: nat)
    ensures Run(steps + [c], batchSize) == Next(Run(steps, batchSize), c, batchSize)
  {
    assert (steps + [c])[..|steps|] == steps;
  }

  /** After a tick while the worker serves, everything it has received is sent; the rest waits in the queue. */
  lemma TickSends<T>(steps: seq<Step<T>>, batchSize: nat)
    requires batchSize > 0 && Run(steps, batchSize).phase.Serving?
    ensures var s, n := Run(steps, batchSize), Run(steps + [Tick], batchSize);
            && n.batch == [] && n.queue == s.queue && n.accepted == s.accepted
            && Flatten(n.sent) + s.queue == s.accepted
  {
    RunKeeps(steps, batchSize);
    RunMore(steps, Tick, batchSize);
    var s := Run(steps, batchSize);
    FlushKeeps(s);
    assert Flatten(Flush(s).sent) + [] == Flatten(Flush(s).sent);
  }

  /** A snapshot is accepted exactly if fewer than 2048 are waiting, whatever the worker does; otherwise it is dropped
      and nothing changes. */
  lemma AcceptedIff<T>(steps: seq<Step<T>>, snap: T, batchSize: nat)
    ensures var s, n := Run(steps, batchSize), Run(steps + [Enqueue(snap)], batchSize);
            && (n.accepted == s.accepted + [snap] <==> |s.queue| < 2048)
            && (|s.queue| >= 2048 ==> n == s)
  {
    RunMore(steps, Enqueue(snap), batchSize);
    hide Run;
  }

  lemma {:induction false} DrainsQueue<T>(steps: seq<Step<T>>, batchSize: nat) returns (all: seq<Step<T>>)
    requires Run(steps, batchSize).phase.Draining?
    ensures var s, n := Run(steps, batchSize), Run(all, batchSize);
            n.phase.Draining? && n.queue == [] && n.accepted == s.accepted
    decreases |Run(steps, batchSize).queue|
  {
    all := steps;
    if Run(steps, batchSize).queue != [] {
      RunMore(steps, Receive, batchSize);
      hide Run;
      all := DrainsQueue(steps + [Receive], batchSize);
    }
  }

  /** As long as the worker has not found the queue empty after a shutdown, some continuation ends it with everything
      sent that had been accepted. */
  lemma ShutdownCanFinish<T>(steps: seq<Step<T>>, batchSize: nat) returns (all: seq<Step<T>>)
    requires batchSize > 0
    requires Run(steps, batchSize).phase.Serving? || Run(steps, batchSize).phase.Draining?
    ensures var s, n := Run(steps, batchSize), Run(all, batchSize);
            n.phase.Exited? && n.accepted == s.accepted && Flatten(n.sent) == s.accepted && n.queue == []
  {
    hide Run, Flatten;
    var drain := steps;
    if Run(steps, batchSize).phase.Serving? {
      RunMore(steps, CheckDone, batchSize);
      RunMore(steps + [CheckDone], CloseDone, batchSize);
      RunMore(steps + [CheckDone] + [CloseDone], SeeDone, batchSize);
      drain := steps + [CheckDone] + [CloseDone] + [SeeDone];
    }
    var empty := DrainsQueue(drain, batchSize);
    RunMore(empty, SeeEmpty, batchSize);
    RunMore(empty + [SeeEmpty], FlushAndExit, batchSize);
    all := empty + [SeeEmpty] + [FlushAndExit];
    ExitedHasSentAll(all, batchSize);
    assert Run(all, batchSize).accepted[..|Run(all, batchSize).accepted|] == Run(all, batchSize).accepted;
  }

  /** The number of shutdown callers that found the channel open. */
  function Passed<T>(s: State<T>): (n: nat) {
    s.closers + s.closes
  }

  lemma PassedGrows<T>(s: State<T>, c: Step<T>, batchSize: nat)
    ensures var n := Next(s, c, batchSize);
            Passed(s) <= Passed(n) && (Passed(s) < Passed(n) ==> n.closers == Passed(n))
  {
  }

  lemma {:induction false} PassedBounds<T>(steps: seq<Step<T>>, k: nat, batchSize: nat)
    requires k <= |steps|
    ensures Run(steps[..k], batchSize).closers <= Passed(Run(steps, batchSize))
  {
    hide Next;
    if k == |steps| {
      assert steps[..k] == steps;
    } else {
      var front := steps[..|steps| - 1];
      assert front[..k] == steps[..k];
      PassedBounds(front, k, batchSize);
      PassedGrows(Run(front, batchSize), steps[|steps| - 1], batchSize);
    }
  }

  lemma {:induction false} PassedReached<T>(steps: seq<Step<T>>, batchSize: nat) returns (k: nat)
    ensures k <= |steps| && Run(steps[..k], batchSize).closers == Passed(Run(steps, batchSize))
  {
    if steps == [] {
      k := 0;
    } else {
      hide Next;
      var front := steps[..|steps| - 1];
      PassedGrows(Run(front, batchSize), steps[|steps| - 1], batchSize);
      if Passed(Run(front, batchSize)) == Passed(Run(steps, batchSize)) {
        k := PassedReached(front, batchSize);
        assert steps[..k] == front[..k];
      } else {
        k := |steps|;
        assert steps[..k] == steps;
      }
    }
  }

  /** When every shutdown caller is through, a second close has happened exactly if two callers were ever between the
      test and the close at the same time. */
  lemma DoubleCloseIff<T>(steps: seq<Step<T>>, batchSize: nat)
    requires Run(steps, batchSize).closers == 0
    ensures Panicked(Run(steps, batchSize)) <==>
            exists k :: 0 <= k <= |steps| && Run(steps[..k], batchSize).closers > 1
  {
    hide Run;
    var k := PassedReached(steps, batchSize);
    if j :| 0 <= j <= |steps| && Run(steps[..j], batchSize).closers > 1 {
      PassedBounds(steps, j, batchSize);
    }
  }

  /** Two Shutdown calls that both test the channel before either closes it. */
  lemma OverlappingShutdownsPanic(batchSize: nat)
    ensures Panicked(Run<int>([CheckDone, CheckDone, CloseDone, CloseDone], batchSize))
  {
    var all: seq<Step<int>> := [CheckDone, CheckDone, CloseDone, CloseDone];
    assert all[..3][..2] == all[..2] && all[..2][..1] == all[..1] && all[..1][..0] == [];
    assert Run(all[..1], batchSize).closers == 1;
    assert Run(all[..2], batchSize).closers == 2;
    assert Run(all[..3], batchSize).closes == 1;
  }

  // ---------------------------------------------------------------- the code that runs alone between steps

  class Exporter<T> {
    const batchSize: nat
    var queue: seq<T>
    var batch: seq<T>
    var sent: seq<seq<T>>

    predicate Valid()
      reads this
    {
      |batch| < batchSize && |queue| <= QUEUE_CAPACITY
    }

    /** The worker's part of a protocol state. */
    ghost function Abstract(s: State<T>): (r: State<T>)
      reads this
    {
      s.(queue := queue, batch := batch, sent := sent)
    }

    constructor (batchSize: nat)
      requires batchSize > 0
      ensures Valid() && queue == [] && batch == [] && sent == [] && this.batchSize == batchSize
    {
      this.batchSize := batchSize;
      queue, batch, sent := [], [], [];
    }

    /** Enqueue every span that is there and for which the queue has room; the rest is dropped. */
    method Export(spans: seq<Option<T>>)
      requires Valid()
      modifies this`queue
      ensures Valid()
      ensures var offered := Present(spans);
              var room := QUEUE_CAPACITY - |old(queue)|;
              queue == old(queue) + offered[..if |offered| <= room then |offered| else room]
    {
      for i := 0 to |spans|
        invariant Valid()
        invariant var offered := Present(spans[..i]);
                  var room := QUEUE_CAPACITY - |old(queue)|;
                  queue == old(queue) + offered[..if |offered| <= room then |offered| else room]
      {
        assert spans[..i + 1][..i] == spans[..i];
        if spans[i].Some? && |queue| < QUEUE_CAPACITY {
          queue := queue + [spans[i].value];
        }
      }
      assert spans[..|spans|] == spans;
    }

    method SendBatch(ghost s: State<T>)
      modifies this`batch, this`sent
      ensures Abstract(s) == Flush(old(Abstract(s)))
    {
      if |batch| == 0 {
        return;
      }
      sent := sent + [batch];
      batch := [];
    }

    /** Take one snapshot off the queue: the protocol's receiving step. */
    method Receive(ghost s: State<T>)
      requires Valid() && queue != []
      modifies this
      ensures Valid() && Abstract(s) == Take(old(Abstract(s)), batchSize)
    {
      batch, queue := batch + [queue[0]], queue[1..];
      if |batch| >= batchSize {
        SendBatch(s);
      }
    }

    /** The drain loop after the done channel was closed, with no export in between: everything goes out in full
        batches, the last one possibly shorter. */
    method Drain()
      requires Valid()
      modifies this
      ensures Valid() && queue == [] && batch == []
      ensures sent == old(sent) + Chunks(old(batch) + old(queue), batchSize)
    {
      ghost var s := Initial<T>();
      while queue != []
        invariant Valid()
        invariant sent + Chunks(batch + queue, batchSize) == old(sent) + Chunks(old(batch) + old(queue), batchSize)
        decreases |queue|
      {
        TakeChunks(Abstract(s), batchSize);
        Receive(s);
      }
      assert batch + [] == batch;
      SendBatch(s);
    }
  }

  /** Taking one snapshot does not change the batches that will have gone out in the end. */
  lemma TakeChunks<T>(s: State<T>, batchSize: nat)
    requires s.queue != [] && |s.batch| < batchSize
    ensures var t := Take(s, batchSize);
            t.sent + Chunks(t.batch + t.queue, batchSize) == s.sent + Chunks(s.batch + s.queue, batchSize)
  {
    var b, q := s.batch + [s.queue[0]], s.queue[1..];
    assert b + q == s.batch + s.queue;
    if |b| == batchSize {
      ChunksFull(b, q, batchSize);
      assert s.sent + ([b] + Chunks(q, batchSize)) == s.sent + [b] + Chunks(q, batchSize);
      assert [] + q == q;
    }
  }

  function Present<T>(spans: seq<Option<T>>): (r: seq<T>)
    ensures |r| <= |spans|
  {
    if spans == [] then []
    else Present(spans[..|spans| - 1]) +
         (if spans[|spans| - 1].Some? then [spans[|spans| - 1].value] else [])
  }
}
