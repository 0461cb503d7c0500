/** Parallel SFTP transfer (ssh/sftp/sftp.go): a producer cuts the file into chunks and puts them on a bounded channel,
    workers take them and copy each with short reads at their offsets. Upload and download run the same code with the
    two files exchanged. */
module Transfer {
  import opened Text
  import opened Bytes

  datatype Task = Task(offset: int, size: int)

  // ---------------------------------------------------------------- cutting the file

  /** 64-bit wrap-around. */
  function Wrap64(n: int): (r: int)
    ensures MIN_INT64 <= r <= MAX_INT64
    ensures MIN_INT64 <= n <= MAX_INT64 ==> r == n
  {
    (n - MIN_INT64) % 0x1_0000_0000_0000_0000 + MIN_INT64
  }

  function ChunkAt(offset: int, total: int, chunk: int): (t: Task) {
    Task(offset, if chunk < total - offset then chunk else total - offset)
  }

  /** The chunk the producer makes in 64-bit arithmetic. */
  function WrappedChunk(offset: int, total: int, chunk: int): (t: Task)
    ensures 0 <= offset <= total <= MAX_INT64 ==> t == ChunkAt(offset, total, chunk)
  {
    var left := Wrap64(total - offset);
    Task(offset, if chunk < left then chunk else left)
  }

  /** The chunks from `offset` on, in unbounded arithmetic. */
  function Tiles(offset: int, total: int, chunk: int): (r: seq<Task>)
    requires chunk > 0
    decreases total - offset
  {
    if offset >= total then [] else [ChunkAt(offset, total, chunk)] + Tiles(offset + chunk, total, chunk)
  }

  /** The first offset at or behind the end. */
  function End(offset: int, total: int, chunk: int): (r: int)
    requires chunk > 0
    ensures r >= offset && r >= total && (r == offset || r - chunk < total)
    decreases total - offset
  {
    if offset >= total then offset else End(offset + chunk, total, chunk)
  }

  /** The file size rounded up to whole chunks. */
  function RoundUp(total: int, chunk: int): (r: int)
    requires chunk > 0 && total >= 0
  {
    (total + chunk - 1) / chunk * chunk
  }

  lemma {:induction false} EndIsMultiple(offset: int, total: int, chunk: int, k: nat) returns (m: nat)
    requires chunk > 0 && offset == k * chunk
    ensures End(offset, total, chunk) == m * chunk
    decreases total - offset
  {
    if offset >= total {
      m := k;
    } else {
      assert offset + chunk == (k + 1) * chunk;
      m := EndIsMultiple(offset + chunk, total, chunk, k + 1);
    }
  }

  lemma MultiplesApart(a: int, b: int, c: int)
    requires a < b && c > 0
    ensures a * c + c <= b * c
  {
    assert (b - a - 1) * c >= 0;
    assert (b - a - 1) * c == b * c - a * c - c;
  }

  lemma QuotientUnique(total: int, chunk: int, m: int)
    requires chunk > 0 && total >= 0 && total <= m * chunk < total + chunk
    ensures (total + chunk - 1) / chunk == m
  {
    var x := total + chunk - 1;
    var q := x / chunk;
    assert q * chunk <= x < q * chunk + chunk;
    if q > m {
      MultiplesApart(m, q, chunk);
    } else if q < m {
      MultiplesApart(q, m, chunk);
    }
  }

  lemma EndIsRoundUp(total: int, chunk: int)
    requires chunk > 0 && total >= 0
    ensures End(0, total, chunk) == RoundUp(total, chunk)
  {
    var m := EndIsMultiple(0, total, chunk, 0);
    if total == 0 {
      assert chunk - 1 < chunk;
      QuotientUnique(0, chunk, 0);
    } else {
      QuotientUnique(total, chunk, m);
    }
  }

  predicate Within(p: int, t: Task) {
    t.offset <= p < t.offset + t.size
  }

  /** Every position from `offset` to the end lies in exactly one chunk, and no chunk holds anything else. */
  lemma {:induction false} TilesPartition(offset: int, total: int, chunk: int, p: int)
    requires chunk > 0
    ensures offset <= p < total ==>
              exists i :: 0 <= i < |Tiles(offset, total, chunk)| && Within(p, Tiles(offset, total, chunk)[i])
    ensures forall i :: 0 <= i < |Tiles(offset, total, chunk)| && Within(p, Tiles(offset, total, chunk)[i]) ==>
              offset <= p < total
    ensures forall i, j :: 0 <= i < j < |Tiles(offset, total, chunk)| ==>
              !(Within(p, Tiles(offset, total, chunk)[i]) && Within(p, Tiles(offset, total, chunk)[j]))
    decreases total - offset
  {
    if offset < total {
      var rest := Tiles(offset + chunk, total, chunk);
      var all := Tiles(offset, total, chunk);
      TilesPartition(offset + chunk, total, chunk, p);
      assert all[0] == ChunkAt(offset, total, chunk);
      assert forall i :: 1 <= i < |all| ==> all[i] == rest[i - 1];
      if offset + chunk <= p < total {
        var i :| 0 <= i < |rest| && Within(p, rest[i]);
        assert Within(p, all[i + 1]);
      } else if offset <= p < total {
        assert Within(p, all[0]);
      }
    }
  }

  /** The chunks made so far are the tiles before `offset`. */
  ghost predicate InStep(made: seq<Task>, offset: int, total: int, chunk: int)
    requires chunk > 0 && total >= 0
  {
    && 0 <= offset && End(offset, total, chunk) == RoundUp(total, chunk)
    && made + Tiles(offset, total, chunk) == Tiles(0, total, chunk)
  }

  /** The chunk at `offset` continues the tiles made so far. If the offset behind it leaves the 64-bit range, it was the
      last tile and the rounded-up size does not fit. */
  lemma NextTile(made: seq<Task>, offset: int, total: int, chunk: int)
    requires 0 < chunk <= MAX_INT64 && 0 <= offset < total <= MAX_INT64
    requires InStep(made, offset, total, chunk)
    ensures var t := WrappedChunk(offset, total, chunk);
            made + [t] + Tiles(offset + chunk, total, chunk) == Tiles(0, total, chunk)
    ensures offset + chunk > MAX_INT64 ==>
              RoundUp(total, chunk) > MAX_INT64 && Tiles(offset + chunk, total, chunk) == []
    ensures offset + chunk <= MAX_INT64 ==> End(offset + chunk, total, chunk) == RoundUp(total, chunk)
  {
    hide RoundUp;
    var t := ChunkAt(offset, total, chunk);
    var rest := Tiles(offset + chunk, total, chunk);
    assert made + ([t] + rest) == made + [t] + rest;
  }

  lemma TilesEnd(offset: int, total: int, chunk: int)
    requires chunk > 0
    ensures Tiles(offset, total, chunk) == [] <==> offset >= total
    ensures offset >= total ==> End(offset, total, chunk) == offset
  {
  }

  /** `produceChunks`, cancelled after `sends` chunks: as long as the rounded-up size fits in 64 bits the chunks are the
      tiles of the file; otherwise, unless cancelled before, it goes on behind the last tile at a negative offset. */
  method ProduceChunks(total: int, chunk: int, sends: nat) returns (tasks: seq<Task>)
    requires 0 <= total <= MAX_INT64 && 0 < chunk <= MAX_INT64
    ensures var tiles := Tiles(0, total, chunk);
            if RoundUp(total, chunk) <= MAX_INT64 || sends <= |tiles| then
              tasks == tiles[..if sends < |tiles| then sends else |tiles|]
            else tiles < tasks && tasks[|tiles|].offset < 0
  {
    hide Made, Tiles, WrappedChunk, RoundUp;
    MadeNothing(total, chunk);
    tasks := [];
    var offset := 0;
    while offset < total && |tasks| < sends
      invariant |tasks| <= sends && offset <= MAX_INT64 && Made(tasks, offset, total, chunk)
      decreases sends - |tasks|
    {
      MadeOneMore(tasks, offset, total, chunk);
      tasks := tasks + [WrappedChunk(offset, total, chunk)];
      offset := Wrap64(offset + chunk);
    }
    MadeAtEnd(tasks, offset, total, chunk, sends);
  }

  /** What the producer has made when it stands at `offset`: the tiles before it, or, once the offset has wrapped, all
      the tiles and then chunks that start with a negative offset. */
  ghost predicate Made(tasks: seq<Task>, offset: int, total: int, chunk: int)
    requires chunk > 0 && total >= 0
  {
    var tiles := Tiles(0, total, chunk);
    if RoundUp(total, chunk) <= MAX_INT64 || |tasks| < |tiles| then InStep(tasks, offset, total, chunk)
    else tiles <= tasks && if |tasks| == |tiles| then offset < 0 else tasks[|tiles|].offset < 0
  }

  lemma MadeNothing(total: int, chunk: int)
    requires 0 <= total <= MAX_INT64 && 0 < chunk <= MAX_INT64
    ensures Made([], 0, total, chunk)
  {
    EndIsRoundUp(total, chunk);
    if total == 0 {
      QuotientUnique(0, chunk, 0);
    }
    assert [] + Tiles(0, total, chunk) == Tiles(0, total, chunk);
  }

  lemma MadeOneMore(tasks: seq<Task>, offset: int, total: int, chunk: int)
    requires 0 < chunk <= MAX_INT64 && offset < total <= MAX_INT64 && total >= 0
    requires Made(tasks, offset, total, chunk)
    ensures Made(tasks + [WrappedChunk(offset, total, chunk)], Wrap64(offset + chunk), total, chunk)
  {
    hide RoundUp, Tiles, End;
    var tiles := Tiles(0, total, chunk);
    if RoundUp(total, chunk) <= MAX_INT64 || |tasks| < |tiles| {
      NextTile(tasks, offset, total, chunk);
      TilesEnd(offset + chunk, total, chunk);
      var next := tasks + [WrappedChunk(offset, total, chunk)];
      assert next + [] == next;
    }
  }

  lemma MadeAtEnd(tasks: seq<Task>, offset: int, total: int, chunk: int, sends: nat)
    requires 0 < chunk <= MAX_INT64 && 0 <= total <= MAX_INT64 && offset <= MAX_INT64
    requires Made(tasks, offset, total, chunk) && |tasks| <= sends && (offset >= total || |tasks| == sends)
    ensures var tiles := Tiles(0, total, chunk);
            if RoundUp(total, chunk) <= MAX_INT64 || sends <= |tiles| then
              tasks == tiles[..if sends < |tiles| then sends else |tiles|]
            else tiles < tasks && tasks[|tiles|].offset < 0
  {
    hide RoundUp, Tiles, End;
    var tiles := Tiles(0, total, chunk);
    TilesEnd(offset, total, chunk);
    assert tiles[..|tiles|] == tiles && tasks[..|tasks|] == tasks;
    if InStep(tasks, offset, total, chunk) && offset >= total {
      assert tasks + [] == tasks;
    }
  }

  /** The step behind the last chunk ends the producer's loop exactly when the rounded-up size fits in 64 bits;
      otherwise the offset becomes negative and the loop goes on from there. */
  lemma LastStepIff(total: int, chunk: int)
    requires 0 < total <= MAX_INT64 && 0 < chunk <= MAX_INT64
    ensures var last := RoundUp(total, chunk) - chunk;
            && 0 <= last < total
            && (Wrap64(last + chunk) >= total <==> RoundUp(total, chunk) <= MAX_INT64)
            && (RoundUp(total, chunk) > MAX_INT64 ==> Wrap64(last + chunk) < 0)
  {
    EndIsRoundUp(total, chunk);
    var m := EndIsMultiple(0, total, chunk, 0);
    assert m >= 1;
    assert m * chunk >= chunk;
  }

  // ---------------------------------------------------------------- copying one chunk

  /** One read: how many bytes it returned, whether it reported an error, and how many of them the write that follows
      took if it failed. */
  datatype Outcome = Outcome(n: nat, readError: bool, writeError: bool, partial: nat)

  /** How many bytes a read at `at` gets that would return `n`: no more than were asked for, no more than the source
      has there, and otherwise all `n`. */
  function ReadSize(n: nat, source: nat, at: int, want: nat): (r: nat)
    ensures r <= n && r <= want && (r > 0 ==> 0 <= at && at + r <= source)
    ensures r == n || r == want || at < 0 || at + r >= source
  {
    var room := if at < 0 || at >= source then 0 else source - at;
    var limit := if want < room then want else room;
    if n < limit then n else limit
  }

  /** The outcome, cut down to what the file and the request allow. */
  function Legal(o: Outcome, source: nat, at: int, want: nat): (r: Outcome) {
    var n := ReadSize(o.n, source, at, want);
    Outcome(n, o.readError, o.writeError, if o.partial < n then o.partial else n)
  }

  /** The bytes the first `k` reads of a chunk add up to, each asking for what is missing or for a full buffer. */
  function Progress(source: nat, offset: nat, size: nat, buffer: nat, outcomes: seq<Outcome>, k: nat): (r: nat)
    requires k <= |outcomes|
    ensures r <= size
  {
    if k == 0 then 0
    else
      var p := Progress(source, offset, size, buffer, outcomes, k - 1);
      p + ReadSize(outcomes[k - 1].n, source, offset + p, if buffer < size - p then buffer else size - p)
  }

  /** Read `j` and the write behind it let the copy go on: no write error on bytes that were read, and no read error
      that leaves the chunk short. */
  predicate GoesOn(source: nat, offset: nat, size: nat, buffer: nat, outcomes: seq<Outcome>, j: nat)
    requires j < |outcomes|
  {
    var before := Progress(source, offset, size, buffer, outcomes, j);
    var after := Progress(source, offset, size, buffer, outcomes, j + 1);
    (after > before ==> !outcomes[j].writeError) && (outcomes[j].readError ==> after == size)
  }

  /** The first `k` reads add up to the chunk, and none of them stops the copy. */
  predicate Completes(source: nat, offset: nat, size: nat, buffer: nat, outcomes: seq<Outcome>, k: nat) {
    && k <= |outcomes|
    && Progress(source, offset, size, buffer, outcomes, k) == size
    && forall j :: 0 <= j < k ==> GoesOn(source, offset, size, buffer, outcomes, j)
  }

  lemma {:induction false} ProgressGrows(
    source: nat, offset: nat, size: nat, buffer: nat, outcomes: seq<Outcome>, i: nat, k: nat)
    requires i <= k <= |outcomes|
    ensures Progress(source, offset, size, buffer, outcomes, i) <= Progress(source, offset, size, buffer, outcomes, k)
  {
    if i < k {
      ProgressGrows(source, offset, size, buffer, outcomes, i, k - 1);
    }
  }

  /** A read that stops the copy before the chunk is complete decides it. */
  lemma StopDecides(source: nat, offset: nat, size: nat, buffer: nat, outcomes: seq<Outcome>, i: nat)
    requires i < |outcomes| && Progress(source, offset, size, buffer, outcomes, i) < size
    requires !GoesOn(source, offset, size, buffer, outcomes, i)
    ensures forall k :: !Completes(source, offset, size, buffer, outcomes, k)
  {
    forall k | 0 <= k <= i
      ensures Progress(source, offset, size, buffer, outcomes, k) < size
    {
      ProgressGrows(source, offset, size, buffer, outcomes, k, i);
    }
    hide Progress, GoesOn;
  }

  lemma ShortOfSize(source: nat, offset: nat, size: nat, buffer: nat, outcomes: seq<Outcome>)
    requires Progress(source, offset, size, buffer, outcomes, |outcomes|) < size
    ensures forall k :: !Completes(source, offset, size, buffer, outcomes, k)
  {
    forall k | 0 <= k <= |outcomes|
      ensures Progress(source, offset, size, buffer, outcomes, k) < size
    {
      ProgressGrows(source, offset, size, buffer, outcomes, k, |outcomes|);
    }
    hide Progress, GoesOn;
  }

  lemma {:induction false} ProgressReads(
    source: nat, offset: nat, size: nat, buffer: nat, a: seq<Outcome>, b: seq<Outcome>, k: nat)
    requires k <= |a| == |b| && forall j :: 0 <= j < k ==> a[j].n == b[j].n
    ensures Progress(source, offset, size, buffer, a, k) == Progress(source, offset, size, buffer, b, k)
  {
    if k > 0 {
      ProgressReads(source, offset, size, buffer, a, b, k - 1);
    }
  }

  /** An end of file that is reported together with the last bytes changes nothing. */
  lemma EofWithLastBytes(source: nat, offset: nat, size: nat, buffer: nat, outcomes: seq<Outcome>, k: nat, eof: bool)
    requires 0 < k && Completes(source, offset, size, buffer, outcomes, k)
    ensures Completes(source, offset, size, buffer, outcomes[k - 1 := outcomes[k - 1].(readError := eof)], k)
  {
    var changed := outcomes[k - 1 := outcomes[k - 1].(readError := eof)];
    forall j | 0 <= j <= k
      ensures Progress(source, offset, size, buffer, changed, j) == Progress(source, offset, size, buffer, outcomes, j)
    {
      ProgressReads(source, offset, size, buffer, changed, outcomes, j);
    }
    hide Progress;
    forall j | 0 <= j < k
      ensures GoesOn(source, offset, size, buffer, changed, j)
    {
      assert GoesOn(source, offset, size, buffer, outcomes, j);
    }
  }

  /** The bytes from `offset` to `offset + n` are those of the source, the others are as before. */
  predicate CopiedUpTo(before: seq<Byte>, after: seq<Byte>, src: seq<Byte>, offset: nat, n: nat)
    requires |after| == |before|
  {
    && offset + n <= |before|
    && (n > 0 ==> offset + n <= |src|)
    && forall p :: 0 <= p < |after| ==> after[p] == if offset <= p < offset + n then src[p] else before[p]
  }

  /** `uploadChunk` and `downloadChunk`, for every pattern of short reads and errors: a chunk reports success exactly if
      its reads add up to its size with nothing that stops the copy before, and in any case what was touched is a
      beginning of the chunk, with the bytes of the source. */
  method CopyChunk(src: seq<Byte>, dst: array<Byte>, offset: nat, size: nat, buffer: nat, outcomes: seq<Outcome>)
    returns (ok: bool)
    requires offset + size <= dst.Length && buffer > 0
    modifies dst
    ensures ok <==> exists k :: Completes(|src|, offset, size, buffer, outcomes, k)
    ensures ok ==> CopiedUpTo(old(dst[..]), dst[..], src, offset, size)
    ensures exists n :: 0 <= n <= size && CopiedUpTo(old(dst[..]), dst[..], src, offset, n)
  {
    hide Completes, Progress, CopiedUpTo;
    CopyStarts(|src|, offset, size, buffer, outcomes);
    var written, i := 0, 0;
    ghost var before := dst[..];
    CopiedNothing(before, src, offset);
    while written < size && i < |outcomes|
      invariant 0 <= i <= |outcomes| && 0 <= written <= size
      invariant written == Progress(|src|, offset, size, buffer, outcomes, i)
      invariant forall j :: 0 <= j < i ==> GoesOn(|src|, offset, size, buffer, outcomes, j)
      invariant CopiedUpTo(before, dst[..], src, offset, written)
      decreases |outcomes| - i
    {
      var readLen := if buffer < size - written then buffer else size - written;
      var o := Legal(outcomes[i], |src|, offset + written, readLen);
      ReadAdvances(|src|, offset, size, buffer, outcomes, i);
      i := i + 1;
      if o.n > 0 {
        var base := offset + written;
        var took := if o.writeError then o.partial else o.n;
        ghost var sofar := dst[..];
        forall k | 0 <= k < took {
          dst[base + k] := src[base + k];
        }
        CopiedMore(before, sofar, dst[..], src, offset, written, took);
        if o.writeError {
          StopDecides(|src|, offset, size, buffer, outcomes, i - 1);
          return false;
        }
        written := written + o.n;
      }
      if o.readError && written < size {
        StopDecides(|src|, offset, size, buffer, outcomes, i - 1);
        return false;
      }
    }
    CopyEnds(|src|, offset, size, buffer, outcomes, i);
    ok := written == size;
  }

  lemma CopiedNothing(dst: seq<Byte>, src: seq<Byte>, offset: nat)
    requires offset <= |dst|
    ensures CopiedUpTo(dst, dst, src, offset, 0)
  {
  }

  lemma CopiedMore(
    before: seq<Byte>, sofar: seq<Byte>, after: seq<Byte>, src: seq<Byte>, offset: nat, written: nat, took: nat)
    requires |before| == |sofar| == |after| && CopiedUpTo(before, sofar, src, offset, written)
    requires offset + written + took <= |after| && (took > 0 ==> offset + written + took <= |src|)
    requires forall p :: 0 <= p < |after| ==>
               after[p] == if offset + written <= p < offset + written + took then src[p] else sofar[p]
    ensures CopiedUpTo(before, after, src, offset, written + took)
  {
  }

  lemma CopyStarts(source: nat, offset: nat, size: nat, buffer: nat, outcomes: seq<Outcome>)
    ensures Progress(source, offset, size, buffer, outcomes, 0) == 0
  {
  }

  lemma ReadAdvances(source: nat, offset: nat, size: nat, buffer: nat, outcomes: seq<Outcome>, i: nat)
    requires i < |outcomes|
    ensures var p := Progress(source, offset, size, buffer, outcomes, i);
            var o := Legal(outcomes[i], source, offset + p, if buffer < size - p then buffer else size - p);
            Progress(source, offset, size, buffer, outcomes, i + 1) == p + o.n
  {
  }

  lemma CopyEnds(source: nat, offset: nat, size: nat, buffer: nat, outcomes: seq<Outcome>, i: nat)
    requires i <= |outcomes| && forall j :: 0 <= j < i ==> GoesOn(source, offset, size, buffer, outcomes, j)
    requires Progress(source, offset, size, buffer, outcomes, i) == size || i == |outcomes|
    ensures Progress(source, offset, size, buffer, outcomes, i) == size <==>
              exists k :: Completes(source, offset, size, buffer, outcomes, k)
  {
    if Progress(source, offset, size, buffer, outcomes, i) == size {
      assert Completes(source, offset, size, buffer, outcomes, i);
    } else {
      ShortOfSize(source, offset, size, buffer, outcomes);
    }
  }

  // ---------------------------------------------------------------- producer and workers together

  datatype Config = Config(src: seq<Byte>, total: int, chunk: int, workers: nat, buffer: nat)

  /** What the callers guarantee: sizes are 64-bit, the chunk size was checked, and there is at least one worker. */
  predicate Admissible(cfg: Config) {
    0 < cfg.total <= MAX_INT64 && 0 < cfg.chunk <= MAX_INT64 && cfg.workers > 0 && cfg.buffer > 0
  }

  predicate Fits(cfg: Config)
    requires Admissible(cfg)
  {
    RoundUp(cfg.total, cfg.chunk) <= MAX_INT64
  }

  datatype Worker = Idle | Busy(task: Task, written: int) | Exited | Failed

  /** `producing` holds until the channel is closed; `errors` counts what lies in the error channel; `produced` is the
      history of the chunks that were sent. */
  datatype State = State(
    offset: int, producing: bool, queue: seq<Task>, workers: seq<Worker>,
    errors: nat, cancelled: bool, external: bool, dest: map<int, Byte>, produced: seq<Task>)

  function Initial(cfg: Config): (s: State) {
    State(0, true, [], seq(cfg.workers, _ => Idle), 0, false, false, map[], [])
  }

  datatype Choice =
    | Produce
    | StopProducing
    | TakeTask(w: nat)
    | ExitWorker(w: nat)
    | Copy(w: nat, outcome: Outcome)
    | CancelOutside

  function WriteAt(dest: map<int, Byte>, src: seq<Byte>, at: int, n: nat): (r: map<int, Byte>)
    requires n > 0 ==> 0 <= at && at + n <= |src|
    ensures forall p :: p in r <==> p in dest || at <= p < at + n
    ensures forall p :: p in r && at <= p < at + n ==> r[p] == src[p]
    ensures forall p :: p in r && !(at <= p < at + n) ==> r[p] == dest[p]
  {
    dest + map p | at <= p < at + n :: src[p]
  }

  /** A worker that fails reports its error if there is room, cancels the context and ends. */
  function Fail(cfg: Config, s: State, w: nat): (r: State)
    requires w < |s.workers|
  {
    s.(workers := s.workers[w := Failed],
       errors := if s.errors < cfg.workers then s.errors + 1 else s.errors,
       cancelled := true)
  }

  /** One iteration of the copy loop. */
  function CopyStep(cfg: Config, s: State, w: nat, outcome: Outcome): (r: State)
    requires w < |s.workers| && s.workers[w].Busy? && s.workers[w].written < s.workers[w].task.size
  {
    var Busy(task, written) := s.workers[w];
    var at := task.offset + written;
    var want := if cfg.buffer < task.size - written then cfg.buffer else task.size - written;
    var o := Legal(outcome, |cfg.src|, at, want);
    if o.n > 0 && o.writeError then Fail(cfg, s.(dest := WriteAt(s.dest, cfg.src, at, o.partial)), w)
    else
      var done := written + o.n;
      var t := s.(dest := WriteAt(s.dest, cfg.src, at, o.n));
      if o.readError && done < task.size then Fail(cfg, t, w)
      else t.(workers := s.workers[w := Busy(task, done)])
  }

  /** A choice that is not possible changes nothing. */
  function Next(cfg: Config, s: State, c: Choice): (r: State)
    requires Admissible(cfg)
  {
    match c
    case Produce =>
      if s.producing && s.offset < cfg.total && |s.queue| < 2 * cfg.workers then
        var t := WrappedChunk(s.offset, cfg.total, cfg.chunk);
        s.(offset := Wrap64(s.offset + cfg.chunk), queue := s.queue + [t], produced := s.produced + [t])
      else s
    case StopProducing =>
      if s.producing && (s.offset >= cfg.total || s.cancelled) then s.(producing := false) else s
    case TakeTask(w) =>
      if w < |s.workers| && s.workers[w].Idle? && s.queue != [] then
        s.(workers := s.workers[w := Busy(s.queue[0], 0)], queue := s.queue[1..])
      else s
    case ExitWorker(w) =>
      if w < |s.workers| && s.workers[w].Idle? && s.queue == [] && !s.producing then
        s.(workers := s.workers[w := Exited])
      else s
    case Copy(w, outcome) =>
      if w < |s.workers| && s.workers[w].Busy? then
        if s.workers[w].written < s.workers[w].task.size then CopyStep(cfg, s, w, outcome)
        else s.(workers := s.workers[w := Idle])
      else s
    case CancelOutside => s.(cancelled := true, external := true)
  }

  function Run(cfg: Config, choices: seq<Choice>): (s: State)
    requires Admissible(cfg)
  {
    if choices == [] then Initial(cfg) else Next(cfg, Run(cfg, choices[..|choices| - 1]), choices[|choices| - 1])
  }

  /** Every worker has returned, so the wait is over. */
  predicate Ended(s: State) {
    forall w :: 0 <= w < |s.workers| ==> s.workers[w].Exited? || s.workers[w].Failed?
  }

  /** The transfer returns an error exactly when the error channel holds one. */
  predicate ReturnsError(s: State) {
    s.errors > 0
  }

  // ---------------------------------------------------------------- what every step keeps

  function CountFailed(workers: seq<Worker>): (n: nat)
    ensures n <= |workers|
  {
    if workers == [] then 0
    else CountFailed(workers[..|workers| - 1]) + if workers[|workers| - 1].Failed? then 1 else 0
  }

  lemma {:induction false} CountUpdate(workers: seq<Worker>, w: nat, v: Worker)
    requires w < |workers| && !workers[w].Failed?
    ensures CountFailed(workers[w := v]) == CountFailed(workers) + if v.Failed? then 1 else 0
  {
    var k := |workers| - 1;
    if w == k {
      assert workers[w := v][..k] == workers[..k];
    } else {
      assert workers[w := v][..k] == workers[..k][w := v];
      CountUpdate(workers[..k], w, v);
    }
  }

  lemma {:induction false} CountPositive(workers: seq<Worker>)
    ensures CountFailed(workers) > 0 <==> exists w :: 0 <= w < |workers| && workers[w].Failed?
  {
    if workers != [] {
      var k := |workers| - 1;
      CountPositive(workers[..k]);
      assert forall w :: 0 <= w < k ==> workers[..k][w] == workers[w];
    }
  }

  /** A position that still waits in the channel or in a worker's hands. */
  ghost predicate Pending(s: State, p: int) {
    || (exists i :: 0 <= i < |s.queue| && Within(p, s.queue[i]))
    || (exists w :: 0 <= w < |s.workers| && InHand(s.workers[w], p))
  }

  predicate InHand(w: Worker, p: int) {
    w.Busy? && w.task.offset + w.written <= p < w.task.offset + w.task.size
  }

  ghost predicate Basic(cfg: Config, s: State) {
    && |s.workers| == cfg.workers
    && s.errors == CountFailed(s.workers)
    && (s.cancelled ==> s.external || s.errors > 0)
    && (!s.producing ==> s.offset >= cfg.total || s.cancelled)
    && (forall w :: 0 <= w < |s.workers| && s.workers[w].Exited? ==> s.queue == [] && !s.producing)
    && (forall p :: p in s.dest ==> 0 <= p < |cfg.src| && s.dest[p] == cfg.src[p])
  }

  /** The producer has gone past the last tile, which only a wrapped offset lets it do. */
  ghost predicate Overran(cfg: Config, s: State)
    requires Admissible(cfg)
  {
    !Fits(cfg) && Tiles(0, cfg.total, cfg.chunk) <= s.produced
  }

  /** The chunks produced so far are the first tiles, or all of them and more. */
  ghost predicate Tiled(cfg: Config, s: State)
    requires Admissible(cfg)
  {
    || Overran(cfg, s)
    || (s.offset <= MAX_INT64 && InStep(s.produced, s.offset, cfg.total, cfg.chunk))
  }

  /** Every position the producer has passed waits, or is written, or a worker failed. */
  ghost predicate Covered(cfg: Config, s: State, p: int)
    requires Admissible(cfg)
  {
    0 <= p < cfg.total && (p < s.offset || Overran(cfg, s)) ==> Pending(s, p) || p in s.dest || s.errors > 0
  }

  lemma CopyBasic(cfg: Config, s: State, w: nat, outcome: Outcome)
    requires Admissible(cfg) && Basic(cfg, s) && w < |s.workers| && s.workers[w].Busy?
    requires s.workers[w].written < s.workers[w].task.size
    ensures Basic(cfg, CopyStep(cfg, s, w, outcome))
  {
    var n := CopyStep(cfg, s, w, outcome);
    CountUpdate(s.workers, w, n.workers[w]);
    assert n.workers == s.workers[w := n.workers[w]];
  }

  lemma TakeBasic(cfg: Config, s: State, w: nat)
    requires Admissible(cfg) && Basic(cfg, s) && w < |s.workers| && s.workers[w].Idle? && s.queue != []
    ensures Basic(cfg, Next(cfg, s, TakeTask(w)))
  {
    CountUpdate(s.workers, w, Busy(s.queue[0], 0));
  }

  lemma ExitBasic(cfg: Config, s: State, w: nat)
    requires Admissible(cfg) && Basic(cfg, s) && w < |s.workers| && s.workers[w].Idle?
    ensures Basic(cfg, Next(cfg, s, ExitWorker(w)))
  {
    CountUpdate(s.workers, w, Exited);
  }

  lemma ProducerBasic(cfg: Config, s: State, c: Choice)
    requires Admissible(cfg) && Basic(cfg, s) && (c.Produce? || c.StopProducing? || c.CancelOutside?)
    ensures Basic(cfg, Next(cfg, s, c))
  {
  }

  lemma BasicKept(cfg: Config, s: State, c: Choice)
    requires Admissible(cfg) && Basic(cfg, s)
    ensures Basic(cfg, Next(cfg, s, c))
  {
    hide CopyStep, Basic, ChunkAt, Wrap64;
    match c
    case Copy(w, outcome) =>
      if w < |s.workers| && s.workers[w].Busy? {
        if s.workers[w].written < s.workers[w].task.size {
          CopyBasic(cfg, s, w, outcome);
        } else {
          DoneBasic(cfg, s, w);
        }
      }
    case TakeTask(w) =>
      if w < |s.workers| && s.workers[w].Idle? && s.queue != [] { TakeBasic(cfg, s, w); }
    case ExitWorker(w) =>
      if w < |s.workers| && s.workers[w].Idle? { ExitBasic(cfg, s, w); }
    case _ => ProducerBasic(cfg, s, c);
  }

  lemma DoneBasic(cfg: Config, s: State, w: nat)
    requires Basic(cfg, s) && w < |s.workers| && s.workers[w].Busy?
    ensures Basic(cfg, s.(workers := s.workers[w := Idle]))
  {
    CountUpdate(s.workers, w, Idle);
  }

  lemma TiledKept(cfg: Config, s: State, c: Choice)
    requires Admissible(cfg) && Tiled(cfg, s)
    ensures Tiled(cfg, Next(cfg, s, c))
  {
    hide RoundUp, WriteAt, Legal, Tiles, End;
    if c.Produce? && s.offset < cfg.total && !Overran(cfg, s) {
      NextTile(s.produced, s.offset, cfg.total, cfg.chunk);
      var t := WrappedChunk(s.offset, cfg.total, cfg.chunk);
      assert s.produced + [t] + [] == s.produced + [t];
    }
  }

  /** A worker other than `w` keeps what it has in hand. */
  lemma OthersInHand(s: State, n: State, w: nat, p: int)
    requires w < |s.workers| == |n.workers| && n.queue == s.queue
    requires forall v :: 0 <= v < |s.workers| && v != w ==> n.workers[v] == s.workers[v]
    requires Pending(s, p) && (InHand(s.workers[w], p) ==> InHand(n.workers[w], p))
    ensures Pending(n, p)
  {
    if v :| 0 <= v < |s.workers| && InHand(s.workers[v], p) {
      assert InHand(n.workers[v], p);
    }
  }

  lemma CopyCovered(cfg: Config, s: State, w: nat, outcome: Outcome, p: int)
    requires Admissible(cfg) && Basic(cfg, s) && w < |s.workers| && s.workers[w].Busy? && Covered(cfg, s, p)
    requires s.workers[w].written < s.workers[w].task.size
    ensures Covered(cfg, CopyStep(cfg, s, w, outcome), p)
  {
    var n := CopyStep(cfg, s, w, outcome);
    if Pending(s, p) && n.errors == 0 && p !in n.dest {
      OthersInHand(s, n, w, p);
    }
  }

  lemma CoveredKept(cfg: Config, s: State, c: Choice, p: int)
    requires Admissible(cfg) && Basic(cfg, s) && Tiled(cfg, s) && Covered(cfg, s, p)
    ensures Covered(cfg, Next(cfg, s, c), p)
  {
    var n := Next(cfg, s, c);
    match c
    case Copy(w, outcome) =>
      if w < |s.workers| && s.workers[w].Busy? {
        if s.workers[w].written < s.workers[w].task.size {
          CopyCovered(cfg, s, w, outcome, p);
        } else if Pending(s, p) {
          OthersInHand(s, n, w, p);
        }
      }
    case Produce => ProduceCovered(cfg, s, p);
    case TakeTask(w) =>
      if w < |s.workers| && s.workers[w].Idle? && s.queue != [] && Pending(s, p) {
        if i :| 0 <= i < |s.queue| && Within(p, s.queue[i]) {
          assert if i == 0 then InHand(n.workers[w], p) else Within(p, n.queue[i - 1]);
        } else {
          var v :| 0 <= v < |s.workers| && InHand(s.workers[v], p);
          assert InHand(n.workers[v], p);
        }
      }
    case ExitWorker(w) =>
      if w < |s.workers| && s.workers[w].Idle? && s.queue == [] && !s.producing && Pending(s, p) {
        OthersInHand(s, n, w, p);
      }
    case _ =>
  }

  /** Positions that waited still wait when a chunk is added, and so do the positions of that chunk. */
  lemma PendingGrows(s: State, t: Task, n: State, p: int)
    requires n.queue == s.queue + [t] && n.workers == s.workers && (Pending(s, p) || Within(p, t))
    ensures Pending(n, p)
  {
    if Within(p, t) {
      assert Within(p, n.queue[|s.queue|]);
    } else if i :| 0 <= i < |s.queue| && Within(p, s.queue[i]) {
      assert n.queue[i] == s.queue[i];
    }
  }

  lemma ProduceCovered(cfg: Config, s: State, p: int)
    requires Admissible(cfg) && Tiled(cfg, s) && Covered(cfg, s, p)
    ensures Covered(cfg, Next(cfg, s, Produce), p)
  {
    hide RoundUp, Tiles, End, Pending;
    var n := Next(cfg, s, Produce);
    if n != s {
      var t := WrappedChunk(s.offset, cfg.total, cfg.chunk);
      if !Overran(cfg, s) {
        NextTile(s.produced, s.offset, cfg.total, cfg.chunk);
        if Overran(cfg, n) && s.offset + cfg.chunk <= MAX_INT64 {
          TilesEnd(s.offset + cfg.chunk, cfg.total, cfg.chunk);
        }
      }
      if Pending(s, p) || Within(p, t) {
        PendingGrows(s, t, n, p);
      }
    }
  }

  lemma {:induction false} RunBasic(cfg: Config, choices: seq<Choice>)
    requires Admissible(cfg)
    ensures Basic(cfg, Run(cfg, choices))
  {
    if choices == [] {
      AllIdle(seq(cfg.workers, _ => Idle));
    } else {
      hide Basic, Next;
      RunBasic(cfg, choices[..|choices| - 1]);
      BasicKept(cfg, Run(cfg, choices[..|choices| - 1]), choices[|choices| - 1]);
    }
  }

  lemma {:induction false} AllIdle(workers: seq<Worker>)
    requires forall w :: 0 <= w < |workers| ==> workers[w].Idle?
    ensures CountFailed(workers) == 0
  {
    if workers != [] {
      AllIdle(workers[..|workers| - 1]);
    }
  }

  lemma {:induction false} RunTiled(cfg: Config, choices: seq<Choice>, p: int)
    requires Admissible(cfg)
    ensures Tiled(cfg, Run(cfg, choices)) && Covered(cfg, Run(cfg, choices), p)
  {
    if choices == [] {
      EndIsRoundUp(cfg.total, cfg.chunk);
    } else {
      hide Basic, Next, Tiled, Covered;
      var before := Run(cfg, choices[..|choices| - 1]);
      RunBasic(cfg, choices[..|choices| - 1]);
      RunTiled(cfg, choices[..|choices| - 1], p);
      TiledKept(cfg, before, choices[|choices| - 1]);
      CoveredKept(cfg, before, choices[|choices| - 1], p);
    }
  }

  // ---------------------------------------------------------------- theorems

  /** Whatever the schedule, the chunks handed out so far are the first tiles of the file; only if the rounded-up size
      does not fit in 64 bits can more chunks follow all the tiles. */
  lemma ProducedAreTiles(cfg: Config, choices: seq<Choice>)
    requires Admissible(cfg)
    ensures var produced, tiles := Run(cfg, choices).produced, Tiles(0, cfg.total, cfg.chunk);
            produced <= tiles || (!Fits(cfg) && tiles <= produced)
  {
    RunTiled(cfg, choices, 0);
  }

  /** Once all workers have returned, the transfer returns an error exactly when some worker failed. */
  lemma ErrorIffWorkerFailed(cfg: Config, choices: seq<Choice>)
    requires Admissible(cfg) && Ended(Run(cfg, choices))
    ensures var s := Run(cfg, choices);
            ReturnsError(s) <==> exists w :: 0 <= w < |s.workers| && s.workers[w].Failed?
  {
    RunBasic(cfg, choices);
    CountPositive(Run(cfg, choices).workers);
  }

  /** A transfer that returns nil and was not cancelled from outside has copied every byte, under every schedule and
      every pattern of short reads. */
  lemma NilMeansCopied(cfg: Config, choices: seq<Choice>, p: int)
    requires Admissible(cfg) && 0 <= p < cfg.total
    requires Ended(Run(cfg, choices)) && !ReturnsError(Run(cfg, choices)) && !Run(cfg, choices).external
    ensures p < |cfg.src| && p in Run(cfg, choices).dest && Run(cfg, choices).dest[p] == cfg.src[p]
  {
    RunBasic(cfg, choices);
    RunTiled(cfg, choices, p);
    hide Run, RoundUp, Tiles;
    var s := Run(cfg, choices);
    CountPositive(s.workers);
    assert s.workers[0].Exited?;
  }

  // ---------------------------------------------------------------- when nil means copied

  /** Whatever waits, is in hand or is written came from a chunk that was produced. */
  ghost predicate FromProduced(s: State) {
    && (forall i :: 0 <= i < |s.queue| ==> s.queue[i] in s.produced)
    && (forall w :: 0 <= w < |s.workers| && s.workers[w].Busy? ==>
          s.workers[w].task in s.produced && s.workers[w].written >= 0)
    && (forall p :: p in s.dest ==> InSome(p, s.produced))
  }

  predicate InSome(p: int, tasks: seq<Task>) {
    exists t :: t in tasks && Within(p, t)
  }

  lemma CopyFromProduced(cfg: Config, s: State, w: nat, outcome: Outcome)
    requires FromProduced(s) && w < |s.workers| && s.workers[w].Busy?
    requires s.workers[w].written < s.workers[w].task.size
    ensures FromProduced(CopyStep(cfg, s, w, outcome))
  {
    var n := CopyStep(cfg, s, w, outcome);
    forall p | p in n.dest
      ensures InSome(p, n.produced)
    {
      if p !in s.dest {
        assert Within(p, s.workers[w].task);
      }
    }
  }

  lemma FromProducedKept(cfg: Config, s: State, c: Choice)
    requires Admissible(cfg) && FromProduced(s)
    ensures FromProduced(Next(cfg, s, c))
  {
    var n := Next(cfg, s, c);
    match c
    case Copy(w, outcome) =>
      if w < |s.workers| && s.workers[w].Busy? && s.workers[w].written < s.workers[w].task.size {
        CopyFromProduced(cfg, s, w, outcome);
      }
    case Produce =>
      forall p | p in n.dest
        ensures InSome(p, n.produced)
      {
        var t :| t in s.produced && Within(p, t);
        assert t in n.produced;
      }
    case _ =>
  }

  lemma {:induction false} RunFromProduced(cfg: Config, choices: seq<Choice>)
    requires Admissible(cfg)
    ensures FromProduced(Run(cfg, choices))
  {
    if choices != [] {
      hide FromProduced, Next;
      RunFromProduced(cfg, choices[..|choices| - 1]);
      FromProducedKept(cfg, Run(cfg, choices[..|choices| - 1]), choices[|choices| - 1]);
    }
  }

  lemma {:induction false} TilesInside(offset: int, total: int, chunk: int, i: nat)
    requires chunk > 0 && i < |Tiles(offset, total, chunk)|
    ensures var t := Tiles(offset, total, chunk)[i]; offset <= t.offset < total && t.size > 0
    decreases total - offset
  {
    if i > 0 {
      TilesInside(offset + chunk, total, chunk, i - 1);
    }
  }

  /** A tile that was not produced has a position no produced chunk holds. */
  lemma MissingTile(cfg: Config, produced: seq<Task>)
    requires Admissible(cfg) && produced < Tiles(0, cfg.total, cfg.chunk)
    ensures exists p :: 0 <= p < cfg.total && !InSome(p, produced)
  {
    var tiles := Tiles(0, cfg.total, cfg.chunk);
    var k := |produced|;
    TilesInside(0, cfg.total, cfg.chunk, k);
    var p := tiles[k].offset;
    TilesPartition(0, cfg.total, cfg.chunk, p);
    hide Tiles;
    assert Within(p, tiles[k]);
    forall t | t in produced
      ensures !Within(p, t)
    {
      var j :| 0 <= j < |produced| && produced[j] == t;
      assert tiles[j] == t;
    }
    assert !InSome(p, produced);
  }

  lemma CopiedMeansProduced(cfg: Config, choices: seq<Choice>)
    requires Admissible(cfg) && forall p :: 0 <= p < cfg.total ==> p in Run(cfg, choices).dest
    ensures Tiles(0, cfg.total, cfg.chunk) <= Run(cfg, choices).produced
  {
    ProducedAreTiles(cfg, choices);
    RunFromProduced(cfg, choices);
    hide Run, Tiles;
    var s := Run(cfg, choices);
    if s.produced < Tiles(0, cfg.total, cfg.chunk) {
      MissingTile(cfg, s.produced);
    }
  }

  lemma ProducedMeansCopied(cfg: Config, choices: seq<Choice>, p: int)
    requires Admissible(cfg) && 0 <= p < cfg.total
    requires Ended(Run(cfg, choices)) && !ReturnsError(Run(cfg, choices))
    requires Tiles(0, cfg.total, cfg.chunk) <= Run(cfg, choices).produced
    ensures p in Run(cfg, choices).dest
  {
    RunBasic(cfg, choices);
    RunTiled(cfg, choices, p);
    hide Run, RoundUp, Tiles, End;
    var s := Run(cfg, choices);
    TilesEnd(s.offset, cfg.total, cfg.chunk);
    CountPositive(s.workers);
    assert s.workers[0].Exited?;
  }

  predicate Copied(cfg: Config, s: State, p: int) {
    p in s.dest && 0 <= p < |cfg.src| && s.dest[p] == cfg.src[p]
  }

  lemma WrittenIsCopied(cfg: Config, choices: seq<Choice>, p: int)
    requires Admissible(cfg)
    ensures p in Run(cfg, choices).dest <==> Copied(cfg, Run(cfg, choices), p)
  {
    RunBasic(cfg, choices);
    hide Run;
  }

  /** A transfer that returns nil has copied the whole file exactly if the producer sent every chunk before it stopped,
      that is, if it did not take its early return. */
  lemma NilCopiedIff(cfg: Config, choices: seq<Choice>)
    requires Admissible(cfg) && Ended(Run(cfg, choices)) && !ReturnsError(Run(cfg, choices))
    ensures var s := Run(cfg, choices);
            (forall p :: 0 <= p < cfg.total ==> Copied(cfg, s, p)) <==> Tiles(0, cfg.total, cfg.chunk) <= s.produced
  {
    hide Run, Tiles, Copied;
    var s := Run(cfg, choices);
    forall p
      ensures p in s.dest <==> Copied(cfg, s, p)
    {
      WrittenIsCopied(cfg, choices, p);
    }
    if Tiles(0, cfg.total, cfg.chunk) <= s.produced {
      forall p | 0 <= p < cfg.total
        ensures Copied(cfg, s, p)
      {
        ProducedMeansCopied(cfg, choices, p);
      }
    }
    if forall p :: 0 <= p < cfg.total ==> Copied(cfg, s, p) {
      CopiedMeansProduced(cfg, choices);
    }
  }

  /** Cancelled before anything was sent, and then all workers end in turn. */
  function Abandoned(k: nat): (r: seq<Choice>) {
    if k == 0 then [CancelOutside, StopProducing] else Abandoned(k - 1) + [ExitWorker(k - 1)]
  }

  lemma {:induction false} AbandonedState(cfg: Config, k: nat)
    requires Admissible(cfg) && k <= cfg.workers
    ensures var s := Run(cfg, Abandoned(k));
            && s == Initial(cfg).(producing := false, cancelled := true, external := true, workers := s.workers)
            && |s.workers| == cfg.workers
            && forall w :: 0 <= w < cfg.workers ==> s.workers[w] == if w < k then Exited else Idle
  {
    var choices := Abandoned(k);
    if k == 0 {
      var a := Next(cfg, Initial(cfg), CancelOutside);
      assert [CancelOutside][..0] == [] && choices[..1] == [CancelOutside];
      assert Run(cfg, [CancelOutside]) == a;
      assert Run(cfg, choices) == Next(cfg, a, StopProducing);
    } else {
      AbandonedState(cfg, k - 1);
      assert choices[..|choices| - 1] == Abandoned(k - 1);
      assert Run(cfg, choices) == Next(cfg, Run(cfg, Abandoned(k - 1)), ExitWorker(k - 1));
    }
  }

  /** Cancelled from outside, every transfer can return nil although nothing was copied. */
  lemma OutsideCancelCanLoseChunks(cfg: Config)
    requires Admissible(cfg)
    ensures var s := Run(cfg, Abandoned(cfg.workers));
            Ended(s) && !ReturnsError(s) && s.dest == map[]
  {
    AbandonedState(cfg, cfg.workers);
  }

  // ---------------------------------------------------------------- when a worker fails

  /** The copy step of a worker meets a write error on bytes it read, or a read error that leaves its chunk short. */
  predicate Breaks(cfg: Config, worker: Worker, o: Outcome) {
    && worker.Busy? && worker.written < worker.task.size
    && var missing := worker.task.size - worker.written;
       var want := if cfg.buffer < missing then cfg.buffer else missing;
       var n := ReadSize(o.n, |cfg.src|, worker.task.offset + worker.written, want);
       (n > 0 && o.writeError) || (o.readError && n < missing)
  }

  lemma CopyFailsIff(cfg: Config, s: State, w: nat, o: Outcome)
    requires w < |s.workers| && s.workers[w].Busy? && s.workers[w].written < s.workers[w].task.size
    ensures |CopyStep(cfg, s, w, o).workers| == |s.workers|
    ensures CopyStep(cfg, s, w, o).workers[w].Failed? <==> Breaks(cfg, s.workers[w], o)
    ensures forall v :: 0 <= v < |s.workers| && v != w ==> CopyStep(cfg, s, w, o).workers[v] == s.workers[v]
  {
  }

  lemma NextFailsIff(cfg: Config, s: State, c: Choice, w: nat)
    requires Admissible(cfg) && w < |s.workers|
    ensures var n := Next(cfg, s, c);
            && |n.workers| == |s.workers|
            && (n.workers[w].Failed? <==>
                  s.workers[w].Failed? || (c.Copy? && c.w == w && Breaks(cfg, s.workers[w], c.outcome)))
  {
    hide CopyStep, WrappedChunk, Wrap64;
    if c.Copy? && c.w < |s.workers| && s.workers[c.w].Busy? && s.workers[c.w].written < s.workers[c.w].task.size {
      CopyFailsIff(cfg, s, c.w, c.outcome);
    }
  }

  /** A worker has failed exactly if one of its own copy steps met an error that leaves its chunk incomplete. */
  lemma {:induction false} FailedIff(cfg: Config, choices: seq<Choice>, w: nat)
    requires Admissible(cfg) && w < cfg.workers
    ensures |Run(cfg, choices).workers| == cfg.workers
    ensures Run(cfg, choices).workers[w].Failed? <==>
              exists k :: BreaksAt(cfg, choices, w, k)
  {
    hide Next, Breaks;
    if choices != [] {
      var k := |choices| - 1;
      FailedIff(cfg, choices[..k], w);
      NextFailsIff(cfg, Run(cfg, choices[..k]), choices[k], w);
      forall i | 0 <= i < k
        ensures BreaksAt(cfg, choices[..k], w, i) <==> BreaksAt(cfg, choices, w, i)
      {
        assert choices[..k][..i] == choices[..i];
      }
      assert BreaksAt(cfg, choices, w, k) <==>
             choices[k].Copy? && choices[k].w == w
             && Breaks(cfg, Run(cfg, choices[..k]).workers[w], choices[k].outcome);
      assert forall i :: BreaksAt(cfg, choices, w, i) ==> i == k || BreaksAt(cfg, choices[..k], w, i);
    }
  }

  ghost predicate BreaksAt(cfg: Config, choices: seq<Choice>, w: nat, k: int)
    requires Admissible(cfg)
  {
    && 0 <= k < |choices| && choices[k].Copy? && choices[k].w == w
    && w < |Run(cfg, choices[..k]).workers|
    && Breaks(cfg, Run(cfg, choices[..k]).workers[w], choices[k].outcome)
  }

  /** What a copy step leaves at a position: it is written exactly if it was before, or lies in the bytes that the write
      took, which are all that were read unless the write failed. */
  lemma CopyWrites(cfg: Config, s: State, w: nat, o: Outcome, p: int)
    requires Admissible(cfg) && w < |s.workers| && s.workers[w].Busy? && s.workers[w].written < s.workers[w].task.size
    ensures var Busy(t, written) := s.workers[w];
            var missing := t.size - written;
            var at := t.offset + written;
            var n := ReadSize(o.n, |cfg.src|, at, if cfg.buffer < missing then cfg.buffer else missing);
            var took := if o.writeError && o.partial < n then o.partial else n;
            p in Next(cfg, s, Copy(w, o)).dest <==> p in s.dest || at <= p < at + took
  {
  }

  /** A chunk is put on the channel exactly if the producer is not done and the channel has room for it. */
  lemma ProducesIff(cfg: Config, choices: seq<Choice>)
    requires Admissible(cfg)
    ensures var s, n := Run(cfg, choices), Run(cfg, choices + [Produce]);
            n.produced != s.produced <==> s.producing && s.offset < cfg.total && |s.queue| < 2 * cfg.workers
  {
    RunMore(cfg, choices, Produce);
    hide Run, Wrap64;
  }

  /** The channel never holds more than two chunks for each worker, and a failure cancels the transfer. */
  lemma {:induction false} ChannelBounded(cfg: Config, choices: seq<Choice>)
    requires Admissible(cfg)
    ensures |Run(cfg, choices).queue| <= 2 * cfg.workers
    ensures ReturnsError(Run(cfg, choices)) ==> Run(cfg, choices).cancelled
  {
    if choices != [] {
      hide Next;
      ChannelBounded(cfg, choices[..|choices| - 1]);
      StepBounded(cfg, Run(cfg, choices[..|choices| - 1]), choices[|choices| - 1]);
    }
  }

  lemma StepBounded(cfg: Config, s: State, c: Choice)
    requires Admissible(cfg) && |s.queue| <= 2 * cfg.workers && (s.errors > 0 ==> s.cancelled)
    ensures |Next(cfg, s, c).queue| <= 2 * cfg.workers
    ensures Next(cfg, s, c).errors > 0 ==> Next(cfg, s, c).cancelled
  {
    hide Legal, WriteAt, WrappedChunk, Wrap64;
  }

  // ---------------------------------------------------------------- a transfer that succeeds

  lemma RunMore(cfg: Config, choices: seq<Choice>, c: Choice)
    requires Admissible(cfg)
    ensures Run(cfg, choices + [c]) == Next(cfg, Run(cfg, choices), c)
  {
    assert (choices + [c])[..|choices|] == choices;
  }

  /** Nothing went wrong so far, and nothing is in the channel. */
  ghost predicate Untroubled(cfg: Config, s: State) {
    && s.producing && s.queue == [] && s.errors == 0 && !s.cancelled && !s.external
    && |s.workers| == cfg.workers
  }

  /** The state is `s` but for what the worker wrote and where it stands. */
  predicate Same(s: State, n: State, worker: Worker)
    requires |s.workers| > 0
  {
    n == s.(dest := n.dest, workers := s.workers[0 := worker])
  }

  function FullRead(size: nat): (o: Outcome) {
    Outcome(size, false, false, 0)
  }

  /** One full read without an error brings the worker forward. */
  lemma FullReadAdvances(cfg: Config, s: State) returns (n: nat)
    requires Admissible(cfg) && |s.workers| > 0 && s.workers[0].Busy?
    requires var Busy(t, written) := s.workers[0];
             0 <= t.offset && 0 <= written < t.size && t.offset + t.size <= |cfg.src|
    ensures var Busy(t, written) := s.workers[0];
            0 < n <= t.size - written && Same(s, Next(cfg, s, Copy(0, FullRead(t.size))), Busy(t, written + n))
  {
    var Busy(t, written) := s.workers[0];
    var missing := t.size - written;
    n := ReadSize(t.size, |cfg.src|, t.offset + written, if cfg.buffer < missing then cfg.buffer else missing);
    assert Same(s, Next(cfg, s, Copy(0, FullRead(t.size))), Busy(t, written + n));
  }

  /** The worker copies the rest of its chunk and is idle again. */
  lemma {:induction false} CopyThrough(cfg: Config, choices: seq<Choice>) returns (all: seq<Choice>)
    requires Admissible(cfg)
    requires var s := Run(cfg, choices);
             && |s.workers| > 0 && s.workers[0].Busy?
             && var Busy(t, written) := s.workers[0];
                0 <= t.offset && 0 <= written <= t.size && t.offset + t.size <= |cfg.src|
    ensures Same(Run(cfg, choices), Run(cfg, all), Idle)
    decreases var w := Run(cfg, choices).workers[0]; if w.Busy? then w.task.size - w.written else 0
  {
    hide Next, Run;
    var s := Run(cfg, choices);
    var Busy(t, written) := s.workers[0];
    var c := Copy(0, FullRead(t.size));
    RunMore(cfg, choices, c);
    if written < t.size {
      var n := FullReadAdvances(cfg, s);
      all := CopyThrough(cfg, choices + [c]);
      assert s.workers[0 := Busy(t, written + n)][0 := Idle] == s.workers[0 := Idle];
    } else {
      all := choices + [c];
      ChunkEnds(cfg, s, FullRead(t.size));
    }
  }

  lemma ChunkEnds(cfg: Config, s: State, o: Outcome)
    requires Admissible(cfg) && |s.workers| > 0 && s.workers[0].Busy? && s.workers[0].written >= s.workers[0].task.size
    ensures Same(s, Next(cfg, s, Copy(0, o)), Idle)
  {
  }

  /** From a state with nothing in the channel and the first worker idle: the next chunk is produced, taken and
      copied. */
  lemma OneMoreChunk(cfg: Config, choices: seq<Choice>) returns (all: seq<Choice>)
    requires Admissible(cfg) && Fits(cfg) && cfg.total <= |cfg.src|
    requires var s := Run(cfg, choices);
             Untroubled(cfg, s) && s.workers[0].Idle? && s.offset < cfg.total
    ensures var s, n := Run(cfg, choices), Run(cfg, all);
            Untroubled(cfg, n) && n.workers == s.workers && n.offset == s.offset + cfg.chunk
  {
    hide Next, Run, Fits, InStep;
    var s := Run(cfg, choices);
    RunTiled(cfg, choices, 0);
    RunMore(cfg, choices, Produce);
    ProducesNext(cfg, s);
    var a := Run(cfg, choices + [Produce]);
    RunMore(cfg, choices + [Produce], TakeTask(0));
    FirstTakes(cfg, a);
    all := CopyThrough(cfg, choices + [Produce] + [TakeTask(0)]);
    assert a.workers[0 := Busy(a.queue[0], 0)][0 := Idle] == s.workers;
  }

  lemma ProducesNext(cfg: Config, s: State)
    requires Admissible(cfg) && Fits(cfg) && Tiled(cfg, s) && Untroubled(cfg, s) && s.offset < cfg.total
    ensures var n := Next(cfg, s, Produce);
            && n == s.(offset := s.offset + cfg.chunk, queue := n.queue, produced := n.produced)
            && |n.queue| == 1 && 0 <= n.queue[0].offset && 0 < n.queue[0].size
            && n.queue[0].offset + n.queue[0].size <= cfg.total
  {
    hide RoundUp, Tiles, End;
    NextTile(s.produced, s.offset, cfg.total, cfg.chunk);
  }

  lemma FirstTakes(cfg: Config, s: State)
    requires Admissible(cfg) && |s.workers| > 0 && s.workers[0].Idle? && |s.queue| == 1
    ensures Next(cfg, s, TakeTask(0)) == s.(workers := s.workers[0 := Busy(s.queue[0], 0)], queue := [])
  {
  }

  /** All workers wait and the producer goes on to the end. */
  lemma {:induction false} AllChunks(cfg: Config, choices: seq<Choice>) returns (all: seq<Choice>)
    requires Admissible(cfg) && Fits(cfg) && cfg.total <= |cfg.src|
    requires var s := Run(cfg, choices);
             Untroubled(cfg, s) && forall w :: 0 <= w < |s.workers| ==> s.workers[w].Idle?
    ensures var s := Run(cfg, all);
            Untroubled(cfg, s) && s.offset >= cfg.total && forall w :: 0 <= w < |s.workers| ==> s.workers[w].Idle?
    decreases cfg.total - Run(cfg, choices).offset
  {
    hide Next, Run, Fits;
    if Run(cfg, choices).offset >= cfg.total {
      all := choices;
    } else {
      var one := OneMoreChunk(cfg, choices);
      all := AllChunks(cfg, one);
    }
  }

  /** The first `k` workers have left, the others wait. */
  ghost predicate Leaving(cfg: Config, s: State, k: nat) {
    && !s.producing && s.queue == [] && s.errors == 0 && !s.external && |s.workers| == cfg.workers
    && forall w :: 0 <= w < |s.workers| ==> s.workers[w] == if w < k then Exited else Idle
  }

  lemma {:induction false} AllLeave(cfg: Config, choices: seq<Choice>, k: nat) returns (all: seq<Choice>)
    requires Admissible(cfg) && k <= cfg.workers && Leaving(cfg, Run(cfg, choices), k)
    ensures Leaving(cfg, Run(cfg, all), cfg.workers)
    decreases cfg.workers - k
  {
    hide Run;
    all := choices;
    if k < cfg.workers {
      RunMore(cfg, choices, ExitWorker(k));
      all := AllLeave(cfg, choices + [ExitWorker(k)], k + 1);
    }
  }

  lemma ProducerStops(cfg: Config, s: State)
    requires Admissible(cfg) && Untroubled(cfg, s) && s.offset >= cfg.total
    requires forall w :: 0 <= w < |s.workers| ==> s.workers[w].Idle?
    ensures Leaving(cfg, Next(cfg, s, StopProducing), 0)
  {
  }

  /** Whenever the rounded-up size fits in 64 bits and the source is long enough, some run copies every byte and returns
      nil; and a run that returns nil without outside cancellation needs a source that is long enough. */
  lemma TransferCanSucceed(cfg: Config) returns (choices: seq<Choice>)
    requires Admissible(cfg) && Fits(cfg) && cfg.total <= |cfg.src|
    ensures var s := Run(cfg, choices);
            && Ended(s) && !ReturnsError(s) && !s.external
            && forall p :: 0 <= p < cfg.total ==> Copied(cfg, s, p)
  {
    assert Untroubled(cfg, Run(cfg, []));
    hide Run, Next, Fits;
    var sent := AllChunks(cfg, []);
    RunMore(cfg, sent, StopProducing);
    ProducerStops(cfg, Run(cfg, sent));
    choices := AllLeave(cfg, sent + [StopProducing], 0);
    forall p | 0 <= p < cfg.total
      ensures Copied(cfg, Run(cfg, choices), p)
    {
      NilMeansCopied(cfg, choices, p);
    }
  }
}
