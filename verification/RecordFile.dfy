/**
  The protocol of program 09: one writer and any number of readers share an append-only record
  file under the semaphores `mutex`, `empty` and `full`.  Every semaphore operation, write and
  read is one step; steps of different processes interleave freely.
 */
module RecordFile {
  import opened Sequences
  import RecordText

  const LINE_MAX: nat := RecordText.LINE_MAX
  const EMPTY_MAX: nat := 1000

  type Bytes = seq<char>

  /** Where put_data stands: the points between its successive system calls. */
  datatype WriterPc = Building | GotEmpty | Writing | Written | Unlocked
  /** Where get_data stands. */
  datatype ReaderPc = Idle | GotFull | Reading | HasRead | Released

  datatype Reader = Reader(pc: ReaderPc, offset: nat, history: seq<Bytes>)

  datatype State = State(
    mutex: nat, empty: nat, full: nat,
    file: Bytes,
    writer: WriterPc, record: Bytes, written: seq<Bytes>,
    readers: seq<Reader>)

  /**
    Taking the mutex waits, so those steps are enabled only when it is free. A sem_trywait that
    fails changes nothing and is not a step; neither is a process that stops for good.
   */
  datatype Step =
    | WTryEmpty(record: Bytes) | WLock | WWrite | WUnlock | WPostFull
    | ROpen | RTryFull(i: nat) | RLock(i: nat) | RRead(i: nat) | RUnlock(i: nat) | RPostEmpty(i: nat)

  /** The file may hold anything when the writer starts; it is opened for appending. */
  function Init(base: Bytes): State {
    State(1, EMPTY_MAX, 0, base, Building, [], [], [])
  }

  /** read(fd, buffer, 1024) at an offset: as many bytes as the file has, at most 1024. */
  function ReadAt(file: Bytes, offset: nat): Bytes {
    if offset >= |file| then []
    else if offset + LINE_MAX <= |file| then file[offset..offset + LINE_MAX] else file[offset..]
  }

  predicate ReaderAt(s: State, i: nat, pc: ReaderPc) {
    i < |s.readers| && s.readers[i].pc == pc
  }

  predicate Enabled(s: State, step: Step) {
    match step
    case WTryEmpty(record) => s.writer == Building && s.empty > 0 && |record| == LINE_MAX
    case WLock => s.writer == GotEmpty && s.mutex > 0
    case WWrite => s.writer == Writing
    case WUnlock => s.writer == Written
    case WPostFull => s.writer == Unlocked
    case ROpen => true
    case RTryFull(i) => ReaderAt(s, i, Idle) && s.full > 0
    case RLock(i) => ReaderAt(s, i, GotFull) && s.mutex > 0
    case RRead(i) => ReaderAt(s, i, Reading)
    case RUnlock(i) => ReaderAt(s, i, HasRead)
    case RPostEmpty(i) => ReaderAt(s, i, Released)
  }

  function Move(s: State, i: nat, pc: ReaderPc): seq<Reader>
    requires i < |s.readers|
  {
    s.readers[i := s.readers[i].(pc := pc)]
  }

  function Apply(s: State, step: Step): State
    requires Enabled(s, step)
  {
    match step
    case WTryEmpty(record) => s.(empty := s.empty - 1, writer := GotEmpty, record := record)
    case WLock => s.(mutex := s.mutex - 1, writer := Writing)
    case WWrite => s.(file := s.file + s.record, writer := Written, written := s.written + [s.record])
    case WUnlock => s.(mutex := s.mutex + 1, writer := Unlocked)
    case WPostFull => s.(full := s.full + 1, writer := Building)
    case ROpen => s.(readers := s.readers + [Reader(Idle, 0, [])])
    case RTryFull(i) => s.(full := s.full - 1, readers := Move(s, i, GotFull))
    case RLock(i) => s.(mutex := s.mutex - 1, readers := Move(s, i, Reading))
    case RRead(i) =>
      var r := s.readers[i];
      var chunk := ReadAt(s.file, r.offset);
      s.(readers := s.readers[i := Reader(HasRead, r.offset + |chunk|, r.history + [chunk])])
    case RUnlock(i) => s.(mutex := s.mutex + 1, readers := Move(s, i, Released))
    case RPostEmpty(i) => s.(empty := s.empty + 1, readers := Move(s, i, Idle))
  }

  /** The state an interleaving leads to, if each of its steps was possible. */
  function Exec(base: Bytes, steps: seq<Step>): Option<State> {
    if steps == [] then Some(Init(base)) else
      var before := Exec(base, steps[..|steps| - 1]);
      if before.Some? && Enabled(before.value, steps[|steps| - 1])
      then Some(Apply(before.value, steps[|steps| - 1])) else None
  }

  // ------------------------------------------------- counting over readers

  function Sum(rs: seq<Reader>, f: Reader -> nat): nat {
    if rs == [] then 0 else Sum(rs[..|rs| - 1], f) + f(rs[|rs| - 1])
  }

  function Reads(r: Reader): nat { |r.history| }
  /** Reads made, plus the one a reader past its `full` wait has been granted. */
  function Granted(r: Reader): nat { |r.history| + if r.pc == GotFull || r.pc == Reading then 1 else 0 }
  function InCritical(r: Reader): nat { if r.pc == Reading || r.pc == HasRead then 1 else 0 }
  function BetweenWaitAndPost(r: Reader): nat { if r.pc == Idle then 0 else 1 }

  lemma {:induction false} SumUpdate(rs: seq<Reader>, f: Reader -> nat, i: nat, r: Reader)
    requires i < |rs|
    ensures Sum(rs[i := r], f) == Sum(rs, f) - f(rs[i]) + f(r)
    ensures f(rs[i]) <= Sum(rs, f)
  {
    if i < |rs| - 1 {
      assert rs[i := r][..|rs| - 1] == rs[..|rs| - 1][i := r];
      SumUpdate(rs[..|rs| - 1], f, i, r);
    } else {
      assert rs[i := r][..i] == rs[..i];
    }
  }

  lemma SumAppend(rs: seq<Reader>, f: Reader -> nat, r: Reader)
    ensures Sum(rs + [r], f) == Sum(rs, f) + f(r)
  {
    assert (rs + [r])[..|rs|] == rs;
  }

  lemma {:induction false} ReadsAtMostGranted(rs: seq<Reader>)
    ensures Sum(rs, Reads) <= Sum(rs, Granted) <= Sum(rs, Reads) + Sum(rs, BetweenWaitAndPost)
    ensures Sum(rs, InCritical) <= Sum(rs, BetweenWaitAndPost)
  {
    if rs != [] { ReadsAtMostGranted(rs[..|rs| - 1]); }
  }

  /** One step at reader i changes every count by what that reader contributes. */
  lemma ReaderStep(rs: seq<Reader>, i: nat, r: Reader)
    requires i < |rs|
    ensures var now := rs[i := r];
      && Sum(now, Granted) == Sum(rs, Granted) - Granted(rs[i]) + Granted(r)
      && Sum(now, InCritical) == Sum(rs, InCritical) - InCritical(rs[i]) + InCritical(r)
      && Sum(now, BetweenWaitAndPost) == Sum(rs, BetweenWaitAndPost) - BetweenWaitAndPost(rs[i]) + BetweenWaitAndPost(r)
    ensures Granted(rs[i]) <= Sum(rs, Granted) && InCritical(rs[i]) <= Sum(rs, InCritical)
  {
    SumUpdate(rs, Granted, i, r);
    SumUpdate(rs, InCritical, i, r);
    SumUpdate(rs, BetweenWaitAndPost, i, r);
  }

  // -------------------------------------------------------- the invariant

  function Bit(b: bool): nat { if b then 1 else 0 }

  /** The counting part: each semaphore's tokens are somewhere. */
  ghost predicate Counted(s: State) {
    && s.mutex + Bit(s.writer in {Writing, Written}) + Sum(s.readers, InCritical) == 1
    && s.empty + s.full + Bit(s.writer != Building) + Sum(s.readers, BetweenWaitAndPost) == EMPTY_MAX
    && s.full + Bit(s.writer in {Written, Unlocked}) + Sum(s.readers, Granted) == |s.written|
  }

  ghost predicate Chunk(file: Bytes, start: nat, c: Bytes) {
    start + LINE_MAX <= |file| && c == file[start..start + LINE_MAX]
  }

  /** A reader's records are the first records of the file. */
  ghost predicate ReadsInOrder(file: Bytes, r: Reader) {
    && r.offset == LINE_MAX * |r.history|
    && forall k: nat :: k < |r.history| ==> Chunk(file, LINE_MAX * k, r.history[k])
  }

  ghost predicate Stored(base: Bytes, s: State) {
    && |s.file| == |base| + LINE_MAX * |s.written|
    && base <= s.file
    && (forall k: nat :: k < |s.written| ==> Chunk(s.file, |base| + LINE_MAX * k, s.written[k]))
    && (s.writer != Building ==> |s.record| == LINE_MAX)
    && forall i :: 0 <= i < |s.readers| ==> ReadsInOrder(s.file, s.readers[i])
  }

  predicate ByWriter(step: Step) {
    step.WTryEmpty? || step.WLock? || step.WWrite? || step.WUnlock? || step.WPostFull?
  }

  lemma CountedWriterStep(s: State, step: Step)
    requires Counted(s) && Enabled(s, step) && ByWriter(step)
    ensures Counted(Apply(s, step))
  {
  }

  lemma CountedReaderStep(s: State, step: Step)
    requires Counted(s) && Enabled(s, step) && !ByWriter(step) && !step.ROpen?
    ensures Counted(Apply(s, step))
  {
    ReaderStep(s.readers, step.i, Apply(s, step).readers[step.i]);
  }

  lemma CountedOpen(s: State)
    requires Counted(s)
    ensures Counted(Apply(s, ROpen))
  {
    SumAppend(s.readers, Granted, Reader(Idle, 0, []));
    SumAppend(s.readers, InCritical, Reader(Idle, 0, []));
    SumAppend(s.readers, BetweenWaitAndPost, Reader(Idle, 0, []));
  }

  lemma CountedStep(s: State, step: Step)
    requires Counted(s) && Enabled(s, step)
    ensures Counted(Apply(s, step))
  {
    if ByWriter(step) {
      CountedWriterStep(s, step);
    } else if step.ROpen? {
      CountedOpen(s);
    } else {
      CountedReaderStep(s, step);
    }
  }

  /** A read that passed its `full` wait never finds the file short. */
  lemma ReadIsFull(base: Bytes, s: State, i: nat)
    requires Counted(s) && Stored(base, s) && ReaderAt(s, i, Reading)
    ensures Chunk(s.file, LINE_MAX * |s.readers[i].history|, ReadAt(s.file, s.readers[i].offset))
  {
    ReaderStep(s.readers, i, s.readers[i]);
    assert ReadsInOrder(s.file, s.readers[i]);
  }

  lemma ReadsInOrderAppend(file: Bytes, more: Bytes, r: Reader)
    requires ReadsInOrder(file, r)
    ensures ReadsInOrder(file + more, r)
  {
    forall k: nat | k < |r.history| ensures Chunk(file + more, LINE_MAX * k, r.history[k]) {
      ChunkAppend(file, more, LINE_MAX * k, r.history[k]);
    }
  }

  lemma ChunkAppend(file: Bytes, more: Bytes, start: nat, c: Bytes)
    requires Chunk(file, start, c)
    ensures Chunk(file + more, start, c)
  {
    assert (file + more)[start..start + LINE_MAX] == file[start..start + LINE_MAX];
  }

  lemma StoredWrite(base: Bytes, s: State)
    requires Stored(base, s) && s.writer == Writing
    ensures Stored(base, Apply(s, WWrite))
  {
    var t := Apply(s, WWrite);
    forall k: nat | k < |t.written| ensures Chunk(t.file, |base| + LINE_MAX * k, t.written[k]) {
      if k < |s.written| { ChunkAppend(s.file, s.record, |base| + LINE_MAX * k, s.written[k]); }
    }
    forall i | 0 <= i < |t.readers| ensures ReadsInOrder(t.file, t.readers[i]) {
      ReadsInOrderAppend(s.file, s.record, s.readers[i]);
    }
  }

  lemma StoredStep(base: Bytes, s: State, step: Step)
    requires Counted(s) && Stored(base, s) && Enabled(s, step)
    ensures Stored(base, Apply(s, step))
  {
    if step.WWrite? {
      StoredWrite(base, s);
    } else {
      var t := Apply(s, step);
      if step.RRead? { ReadIsFull(base, s, step.i); }
      forall j | 0 <= j < |t.readers| ensures ReadsInOrder(t.file, t.readers[j]) {
        if j < |s.readers| { assert ReadsInOrder(s.file, s.readers[j]); }
      }
    }
  }

  /** Both invariants hold after every interleaving. */
  lemma {:induction false} Reachable(base: Bytes, steps: seq<Step>)
    requires Exec(base, steps).Some?
    ensures Counted(Exec(base, steps).value) && Stored(base, Exec(base, steps).value)
  {
    if steps != [] {
      var before := steps[..|steps| - 1];
      Reachable(base, before);
      CountedStep(Exec(base, before).value, steps[|steps| - 1]);
      StoredStep(base, Exec(base, before).value, steps[|steps| - 1]);
    }
  }

  // ---------------------------------------------------------- the results

  /**
    After any interleaving: no reader has more records than were written, its records are whole
    consecutive pieces of the file from its beginning, and when the file was empty at the start
    they are a prefix of the writer's records.  All reads together never outnumber the writes.
   */
  lemma HistoriesArePrefixes(base: Bytes, steps: seq<Step>, i: nat)
    requires Exec(base, steps).Some? && i < |Exec(base, steps).value.readers|
    ensures var s := Exec(base, steps).value;
      && var h := s.readers[i].history;
      && Sum(s.readers, Reads) <= |s.written|
      && |h| <= |s.written|
      && (forall k: nat :: k < |h| ==> Chunk(s.file, LINE_MAX * k, h[k]))
      && (base == [] ==> h <= s.written)
  {
    var s := Exec(base, steps).value;
    Reachable(base, steps);
    ReadsAtMostGranted(s.readers);
    SumUpdate(s.readers, Reads, i, s.readers[i]);
    assert ReadsInOrder(s.file, s.readers[i]);
    var h := s.readers[i].history;
    if base == [] {
      forall k | 0 <= k < |h| ensures h[k] == s.written[k] {
        assert Chunk(s.file, LINE_MAX * k, h[k]) && Chunk(s.file, |base| + LINE_MAX * k, s.written[k]);
      }
    }
  }

  /** The next read of any reader inside the critical section gets a whole record, never a short one. */
  lemma NoShortRead(base: Bytes, steps: seq<Step>, i: nat)
    requires Exec(base, steps + [RRead(i)]).Some?
    ensures var s := Exec(base, steps + [RRead(i)]).value;
      && var h := s.readers[i].history;
         h != [] && |h[|h| - 1]| == LINE_MAX && |h| <= |s.written|
  {
    assert (steps + [RRead(i)])[..|steps|] == steps;
    Reachable(base, steps);
    ReadIsFull(base, Exec(base, steps).value, i);
    HistoriesArePrefixes(base, steps + [RRead(i)], i);
  }

  /** The tokens of `empty` and `full` are conserved, and the readers lag by at most 1000 records. */
  lemma TokensConserved(base: Bytes, steps: seq<Step>)
    requires Exec(base, steps).Some?
    ensures var s := Exec(base, steps).value;
      && s.mutex + Bit(s.writer in {Writing, Written}) + Sum(s.readers, InCritical) == 1
      && s.empty + s.full + Bit(s.writer != Building) + Sum(s.readers, BetweenWaitAndPost) == EMPTY_MAX
      && 0 <= |s.written| - Sum(s.readers, Reads) <= EMPTY_MAX
  {
    Reachable(base, steps);
    ReadsAtMostGranted(Exec(base, steps).value.readers);
  }

  /** Two processes are never inside the critical section at once. */
  lemma MutualExclusion(base: Bytes, steps: seq<Step>, i: nat, j: nat)
    requires Exec(base, steps).Some?
    requires var s := Exec(base, steps).value;
      && i < |s.readers| && s.readers[i].pc in {Reading, HasRead}
      && j < |s.readers| && s.readers[j].pc in {Reading, HasRead}
    ensures i == j && Exec(base, steps).value.writer !in {Writing, Written}
  {
    var s := Exec(base, steps).value;
    Reachable(base, steps);
    var moved := s.readers[i := s.readers[i].(pc := Idle)];
    ReaderStep(s.readers, i, moved[i]);
    if i != j { ReaderStep(moved, j, moved[j]); }
  }

  lemma {:induction false} SomeoneInCritical(rs: seq<Reader>) returns (i: nat)
    requires Sum(rs, InCritical) > 0
    ensures i < |rs| && InCritical(rs[i]) == 1
  {
    i := |rs| - 1;
    if InCritical(rs[i]) == 0 { i := SomeoneInCritical(rs[..i]); }
  }

  /** Whoever waits for the mutex waits for a process that can take its next step. */
  lemma MutexHolderCanMove(base: Bytes, steps: seq<Step>) returns (next: Step)
    requires Exec(base, steps).Some? && Exec(base, steps).value.mutex == 0
    ensures Enabled(Exec(base, steps).value, next) && next !in {WLock, ROpen, WPostFull}
    ensures !next.WTryEmpty? && !next.RTryFull? && !next.RLock? && !next.RPostEmpty?
  {
    var s := Exec(base, steps).value;
    Reachable(base, steps);
    if s.writer == Writing { next := WWrite; }
    else if s.writer == Written { next := WUnlock; }
    else {
      var i := SomeoneInCritical(s.readers);
      next := if s.readers[i].pc == Reading then RRead(i) else RUnlock(i);
    }
  }

  lemma {:induction false} SomeoneBetween(rs: seq<Reader>) returns (i: nat)
    requires Sum(rs, BetweenWaitAndPost) > 0
    ensures i < |rs| && rs[i].pc != Idle
  {
    i := |rs| - 1;
    if rs[i].pc == Idle { i := SomeoneBetween(rs[..i]); }
  }

  /** With the mutex free, a reader that has passed its `full` wait can take its next step. */
  lemma ReaderCanMove(s: State, i: nat) returns (next: Step)
    requires s.mutex > 0 && i < |s.readers| && s.readers[i].pc != Idle
    ensures Enabled(s, next) && next != ROpen
  {
    next := match s.readers[i].pc
      case Idle => RTryFull(i) case GotFull => RLock(i) case Reading => RRead(i)
      case HasRead => RUnlock(i) case Released => RPostEmpty(i);
  }

  lemma WriterCanMove(s: State) returns (next: Step)
    requires s.mutex > 0 && s.writer != Building
    ensures Enabled(s, next) && next != ROpen && !next.WTryEmpty?
  {
    next := match s.writer
      case Building => WUnlock case GotEmpty => WLock case Writing => WWrite
      case Written => WUnlock case Unlocked => WPostFull;
  }

  /** As long as there is a reader the writer and the readers never all wait for each other. */
  lemma NoDeadlock(base: Bytes, steps: seq<Step>, record: Bytes) returns (next: Step)
    requires Exec(base, steps).Some? && Exec(base, steps).value.readers != [] && |record| == LINE_MAX
    ensures Enabled(Exec(base, steps).value, next) && next != ROpen
    ensures next.WTryEmpty? ==> next.record == record
  {
    var s := Exec(base, steps).value;
    Reachable(base, steps);
    if s.mutex == 0 {
      next := MutexHolderCanMove(base, steps);
    } else if s.writer != Building {
      next := WriterCanMove(s);
    } else if s.empty > 0 {
      next := WTryEmpty(record);
    } else if Sum(s.readers, BetweenWaitAndPost) > 0 {
      var i := SomeoneBetween(s.readers);
      next := ReaderCanMove(s, i);
    } else {
      SumUpdate(s.readers, BetweenWaitAndPost, 0, s.readers[0]);
      next := RTryFull(0);
    }
  }

  /** Behind `m` whole records from earlier runs a reader finds the writer's records, in order. */
  lemma RecordIsWritten(base: Bytes, m: nat, steps: seq<Step>, i: nat, k: nat)
    requires |base| == LINE_MAX * m && Exec(base, steps).Some? && i < |Exec(base, steps).value.readers|
    requires m + k < |Exec(base, steps).value.readers[i].history|
    ensures k < |Exec(base, steps).value.written|
    ensures Exec(base, steps).value.readers[i].history[m + k] == Exec(base, steps).value.written[k]
  {
    var s := Exec(base, steps).value;
    HistoriesArePrefixes(base, steps, i);
    Reachable(base, steps);
    assert Chunk(s.file, LINE_MAX * (m + k), s.readers[i].history[m + k]);
    assert Chunk(s.file, |base| + LINE_MAX * k, s.written[k]);
    SameChunk(s.file, LINE_MAX * (m + k), s.readers[i].history[m + k], s.written[k]);
  }

  lemma SameChunk(file: Bytes, start: nat, c: Bytes, d: Bytes)
    requires Chunk(file, start, c) && Chunk(file, start, d)
    ensures c == d
  {
  }

  /** The record of a batch: what the writer printed of the numbers it kept. */
  ghost predicate RecordOf(record: Bytes, batch: seq<RecordText.Random>) {
    record == RecordText.Record(RecordText.Printed(batch[..RecordText.Kept(batch)]))
  }

  /** A reader that has read this record prints the minimum and the maximum of the numbers kept of the batch. */
  ghost predicate ReportedRight(record: Bytes, batch: seq<RecordText.Random>) {
    && |record| == LINE_MAX
    && var (min, max) := RecordText.Report(record);
    && RecordText.IsMin(min, batch[..RecordText.Kept(batch)])
    && RecordText.IsMax(max, batch[..RecordText.Kept(batch)])
  }

  lemma RecordReportsBatch(record: Bytes, batch: seq<RecordText.Random>)
    requires batch != [] && RecordOf(record, batch)
    ensures ReportedRight(record, batch)
  {
    RecordText.RoundTrip(batch);
  }

  /**
    End to end, for a file that held `m` whole records when the writer started: any reader's record
    m + k is that of the writer's k-th batch, and its report about it is right.
   */
  lemma ReportsAreTrue(base: Bytes, m: nat, steps: seq<Step>, i: nat, k: nat, batch: seq<RecordText.Random>)
    requires |base| == LINE_MAX * m && Exec(base, steps).Some? && i < |Exec(base, steps).value.readers|
    requires m + k < |Exec(base, steps).value.readers[i].history| && k < |Exec(base, steps).value.written|
    requires batch != [] && RecordOf(Exec(base, steps).value.written[k], batch)
    ensures ReportedRight(Exec(base, steps).value.readers[i].history[m + k], batch)
  {
    RecordIsWritten(base, m, steps, i, k);
    RecordReportsBatch(Exec(base, steps).value.readers[i].history[m + k], batch);
  }
}
