/**
  The one-slot exchange of program 10: a parent that writes batches of numbers into shared memory
  and a child that looks for their minimum, under the semaphores `mutex`, `empty` and `full`.
  Both sides move the tokens of `empty` and `full` before they touch the slot, so a batch can be
  overwritten unread and a look can find nothing.
 */
module Exchange {
  import opened Sequences

  const LINE_MAX: nat := 1024
  /** How many numbers produce_data makes: rand() % 512 + 512. */
  const PRODUCED_MIN: nat := 512
  const PRODUCED_MAX: nat := 1023

  // ---------------------------------------------------------- get_min_max

  /** The minimum and the last number that did not lower it: what get_min_max computes. */
  function Running(ns: seq<int>): (int, int)
    requires ns != []
  {
    if |ns| == 1 then (ns[0], ns[0]) else
      var (min, max) := Running(ns[..|ns| - 1]);
      var n := ns[|ns| - 1];
      if n < min then (n, max) else (min, n)
  }

  /** get_min_max: without numbers the results keep their old values. */
  method GetMinMax(numbers: array<int>, size: int, min0: int, max0: int) returns (min: int, max: int)
    requires size <= numbers.Length
    ensures size < 1 ==> (min, max) == (min0, max0)
    ensures size >= 1 ==> (min, max) == Running(numbers[..size])
  {
    min, max := min0, max0;
    if size < 1 { return; }
    min, max := numbers[0], numbers[0];
    for i := 0 to size
      invariant i == 0 ==> (min, max) == (numbers[0], numbers[0])
      invariant i > 0 ==> (min, max) == Running(numbers[..i])
    {
      var num := numbers[i];
      assert numbers[..i + 1][..i] == numbers[..i];
      if num < min {
        min := num;
      } else {
        max := num;
      }
    }
  }

  ghost predicate IsMin(m: int, ns: seq<int>) { m in ns && forall i :: 0 <= i < |ns| ==> m <= ns[i] }
  ghost predicate IsMax(m: int, ns: seq<int>) { m in ns && forall i :: 0 <= i < |ns| ==> ns[i] <= m }

  /** The number at `k` is below all that come before it. */
  ghost predicate Lowers(ns: seq<int>, k: nat) {
    0 < k < |ns| && forall i :: 0 <= i < k ==> ns[k] < ns[i]
  }

  /** Behind position `j` every number is a new minimum. */
  ghost predicate OnlyMinimaBehind(ns: seq<int>, j: nat) {
    j < |ns| && forall k: nat :: j < k < |ns| ==> Lowers(ns, k)
  }

  lemma {:induction false} RunningIs(ns: seq<int>) returns (j: nat)
    requires ns != []
    ensures IsMin(Running(ns).0, ns)
    ensures OnlyMinimaBehind(ns, j) && !Lowers(ns, j) && ns[j] == Running(ns).1
  {
    var front, last := ns[..|ns| - 1], |ns| - 1;
    if |ns| == 1 {
      j := 0;
    } else {
      j := RunningIs(front);
      if ns[last] < Running(front).0 {
        forall k: nat | j < k < |ns| ensures Lowers(ns, k) {
          if k < last { assert Lowers(front, k); }
        }
      } else {
        j := last;
      }
    }
  }

  lemma MaximumDoesNotLower(ns: seq<int>, j: nat)
    requires j < |ns| && IsMax(ns[j], ns)
    ensures !Lowers(ns, j)
  {
    assert ns[0] <= ns[j];
  }

  /**
    The reported minimum is the minimum.  The reported maximum is the last number that is not a new
    minimum, so it is the maximum exactly if behind some maximum there are only new minima.
   */
  lemma WhatIsReported(ns: seq<int>)
    requires ns != []
    ensures IsMin(Running(ns).0, ns)
    ensures IsMax(Running(ns).1, ns) <==> exists j: nat :: OnlyMinimaBehind(ns, j) && IsMax(ns[j], ns)
  {
    var last := RunningIs(ns);
    forall j: nat | OnlyMinimaBehind(ns, j) && IsMax(ns[j], ns) ensures j == last {
      MaximumDoesNotLower(ns, j);
    }
  }

  /** A batch that starts with 0 and 5 and goes on with `k` threes. */
  function Spike(k: nat): (ns: seq<int>)
    ensures |ns| == k + 2 && ns[0] == 0 && ns[1] == 5 && forall i :: 2 <= i < |ns| ==> ns[i] == 3
  {
    [0, 5] + seq(k, _ => 3)
  }

  lemma {:induction false} ReportOfSpike(k: nat)
    ensures Running(Spike(k)) == (0, if k == 0 then 5 else 3)
  {
    var ns := Spike(k);
    if k == 0 {
      assert ns[..1] == [0];
    } else {
      assert ns[..|ns| - 1] == Spike(k - 1);
      ReportOfSpike(k - 1);
    }
  }

  /** For instance it is wrong about this batch, which is one of the sizes the parent produces. */
  lemma ReportedMaximumCanBeWrong() returns (ns: seq<int>)
    ensures PRODUCED_MIN <= |ns| <= PRODUCED_MAX && Running(ns) == (0, 3) && !IsMax(Running(ns).1, ns)
  {
    ReportOfSpike(PRODUCED_MIN - 2);
    ns := Spike(PRODUCED_MIN - 2);
    assert ns[1] == 5;
  }

  // --------------------------------------------------------- the protocol

  type Batch = ns: seq<int> | 0 < |ns| <= LINE_MAX witness [0]

  /** Where put_data stands between its steps; `Acked` is between the acknowledgement and the store. */
  datatype WriterPc = Producing | Pushed | Locked | Acked | Stored
  /** Where get_data stands. */
  datatype ReaderPc = Waiting | Popped | Looking | Looked

  /** A result the parent printed, and which of its batches the child had got it from. */
  datatype Ack = Ack(index: nat, min: int, max: int)

  /** `stored`, `processed`, `lost`, `skipped` and `acks` are histories; the programs do not see them. */
  datatype State = State(
    mutex: nat, empty: nat, full: nat,
    size: int, numbers: seq<int>, min: int, max: int,
    writer: WriterPc, data: Batch, dataProcessed: nat, reader: ReaderPc,
    stored: seq<Batch>, processed: nat, lost: nat, skipped: nat, acks: seq<Ack>)

  /**
    A push or pop that fails with EAGAIN changes nothing and is not a step; the batch it was for is
    dropped before it ever reached the slot.
   */
  datatype Step = WPush(data: Batch) | WLock | WAck | WStore | WUnlock | RPop | RLock | RLook | RUnlock

  /** Shared memory starts as zeros. */
  function Init(): State {
    State(1, 1, 0, 0, seq(LINE_MAX, _ => 0), 0, 0, Producing, [0], 0, Waiting, [], 0, 0, 0, [])
  }

  predicate Enabled(s: State, step: Step) {
    match step
    case WPush(_) => s.writer == Producing && s.empty > 0
    case WLock => s.writer == Pushed && s.mutex > 0
    case WAck => s.writer == Locked
    case WStore => s.writer == Acked && |s.numbers| == LINE_MAX
    case WUnlock => s.writer == Stored
    case RPop => s.reader == Waiting && s.full > 0
    case RLock => s.reader == Popped && s.mutex > 0
    case RLook => s.reader == Looking && s.size <= |s.numbers|
    case RUnlock => s.reader == Looked
  }

  function Apply(s: State, step: Step): State
    requires Enabled(s, step)
  {
    match step
    case WPush(data) => s.(empty := s.empty - 1, full := s.full + 1, data := data, writer := Pushed)
    case WLock => s.(mutex := s.mutex - 1, writer := Locked)
    case WAck =>
      if s.size == -1
      then s.(writer := Acked, dataProcessed := s.dataProcessed + 1,
              acks := s.acks + [Ack(if |s.stored| == 0 then 0 else |s.stored| - 1, s.min, s.max)])
      else s.(writer := Acked)
    case WStore =>
      s.(size := |s.data|, numbers := s.data + s.numbers[|s.data|..], writer := Stored,
         stored := s.stored + [s.data], lost := s.lost + if s.size > 0 then 1 else 0)
    case WUnlock => s.(mutex := s.mutex + 1, writer := Producing)
    case RPop => s.(empty := s.empty + 1, full := s.full - 1, reader := Popped)
    case RLock => s.(mutex := s.mutex - 1, reader := Looking)
    case RLook =>
      if s.size > 0
      then s.(min := Running(s.numbers[..s.size]).0, max := Running(s.numbers[..s.size]).1, size := -1,
              reader := Looked, processed := s.processed + 1)
      else s.(reader := Looked, skipped := s.skipped + 1)
    case RUnlock => s.(mutex := s.mutex + 1, reader := Waiting)
  }

  /** The state an interleaving leads to, if each of its steps was possible. */
  function Exec(steps: seq<Step>): Option<State> {
    if steps == [] then Some(Init()) else
      var before := Exec(steps[..|steps| - 1]);
      if before.Some? && Enabled(before.value, steps[|steps| - 1])
      then Some(Apply(before.value, steps[|steps| - 1])) else None
  }

  function Bit(b: bool): nat { if b then 1 else 0 }

  /** A batch in the slot that the child has not looked at. */
  function Pending(s: State): nat { Bit(s.size > 0) }
  /** The parent has pushed a token and not yet stored the batch it stands for. */
  function BetweenPushAndStore(s: State): nat { Bit(s.writer in {Pushed, Locked, Acked}) }
  /** The child has popped a token and not yet looked into the slot. */
  function BetweenPopAndLook(s: State): nat { Bit(s.reader in {Popped, Looking}) }

  ghost predicate Counted(s: State) {
    && s.mutex + Bit(s.writer in {Locked, Acked, Stored}) + Bit(s.reader in {Looking, Looked}) == 1
    && s.empty + s.full == 1
    && |s.stored| == s.processed + s.lost + Pending(s)
    && s.full + s.processed + s.skipped + BetweenPopAndLook(s) == |s.stored| + BetweenPushAndStore(s)
    && s.dataProcessed + Bit(s.size == -1 && s.writer != Acked) == s.processed
  }

  /** A batch stored since the last pop is still there; a batch looked for since the last push is gone. */
  ghost predicate Paired(s: State) {
    && (s.reader in {Popped, Looking} && s.full == 1 && s.writer in {Producing, Stored} ==> s.size > 0)
    && (s.writer in {Pushed, Locked, Acked} && s.full == 0 && s.reader in {Waiting, Looked} ==> s.size <= 0)
  }

  ghost predicate Slot(s: State) {
    && |s.numbers| == LINE_MAX && s.size >= -1
    && (s.size == 0 <==> s.stored == [])
    && (s.stored != [] ==>
      var last := s.stored[|s.stored| - 1];
      && s.numbers[..|last|] == last
      && (s.size > 0 ==> s.size == |last|)
      && (s.size == -1 ==> (s.min, s.max) == Running(last)))
  }

  ghost predicate Acknowledged(s: State) {
    && |s.acks| == s.dataProcessed
    && (forall k :: 0 <= k < |s.acks| ==>
      && s.acks[k].index < |s.stored|
      && (s.acks[k].min, s.acks[k].max) == Running(s.stored[s.acks[k].index]))
    && (forall j, k :: 0 <= j < k < |s.acks| ==> s.acks[j].index < s.acks[k].index)
    && (s.size == -1 && s.writer != Acked ==> forall k :: 0 <= k < |s.acks| ==> s.acks[k].index < |s.stored| - 1)
    && (s.size > 0 ==> forall k :: 0 <= k < |s.acks| ==> s.acks[k].index < |s.stored| - 1)
  }

  lemma CountedStep(s: State, step: Step)
    requires Counted(s) && Slot(s) && Enabled(s, step)
    ensures Counted(Apply(s, step))
  {
  }

  lemma PairedStep(s: State, step: Step)
    requires Counted(s) && Slot(s) && Paired(s) && Enabled(s, step)
    ensures Paired(Apply(s, step))
  {
  }

  lemma SlotStep(s: State, step: Step)
    requires Slot(s) && Enabled(s, step)
    ensures Slot(Apply(s, step))
  {
  }

  lemma AcknowledgedStep(s: State, step: Step)
    requires Slot(s) && Acknowledged(s) && Counted(s) && Enabled(s, step)
    ensures Acknowledged(Apply(s, step))
  {
  }

  /** The invariants hold after every interleaving. */
  lemma {:induction false} Reachable(steps: seq<Step>)
    requires Exec(steps).Some?
    ensures var s := Exec(steps).value; Counted(s) && Paired(s) && Slot(s) && Acknowledged(s)
  {
    if steps != [] {
      var before, step := steps[..|steps| - 1], steps[|steps| - 1];
      Reachable(before);
      CountedStep(Exec(before).value, step);
      PairedStep(Exec(before).value, step);
      SlotStep(Exec(before).value, step);
      AcknowledgedStep(Exec(before).value, step);
    }
  }

  // ---------------------------------------------------------- the results

  /**
    After any interleaving every batch stored was processed, was overwritten unread, or is still in
    the slot, and the batches and tokens on the parent's side balance the looks and tokens on the
    child's side.
   */
  lemma Conservation(steps: seq<Step>)
    requires Exec(steps).Some?
    ensures var s := Exec(steps).value;
      && |s.stored| == s.processed + s.lost + Pending(s)
      && s.lost + Pending(s) + BetweenPushAndStore(s) == s.skipped + BetweenPopAndLook(s) + s.full
      && s.empty + s.full == 1
  {
    Reachable(steps);
  }

  /** So batches lost and looks in vain come in pairs: their numbers never differ by more than one. */
  lemma LossesMatchSkips(steps: seq<Step>)
    requires Exec(steps).Some?
    ensures -1 <= Exec(steps).value.lost - Exec(steps).value.skipped <= 1
  {
    Reachable(steps);
  }

  /** The parent has counted every processed batch, but for the one whose result is still in the slot. */
  lemma ProcessedIsCounted(steps: seq<Step>)
    requires Exec(steps).Some?
    ensures var s := Exec(steps).value;
      s.processed == s.dataProcessed + Bit(s.size == -1 && s.writer != Acked)
  {
    Reachable(steps);
  }

  /**
    Every result the parent prints is that of one of its batches, of a later one each time: the
    true minimum, and a maximum that is right exactly under the condition of WhatIsReported.
   */
  lemma AcknowledgedResults(steps: seq<Step>, k: nat)
    requires Exec(steps).Some? && k < |Exec(steps).value.acks|
    ensures var s := Exec(steps).value;
      && |s.acks| == s.dataProcessed
      && s.acks[k].index < |s.stored|
      && (forall j :: 0 <= j < k ==> s.acks[j].index < s.acks[k].index)
      && var batch := s.stored[s.acks[k].index];
      && IsMin(s.acks[k].min, batch)
      && (IsMax(s.acks[k].max, batch) <==> exists j: nat :: OnlyMinimaBehind(batch, j) && IsMax(batch[j], batch))
  {
    Reachable(steps);
    var s := Exec(steps).value;
    WhatIsReported(s.stored[s.acks[k].index]);
  }

  lemma SlotHolds(s: State)
    requires Slot(s) && s.size == -1
    ensures s.stored != [] && s.stored[|s.stored| - 1] <= s.numbers && IsMin(s.min, s.stored[|s.stored| - 1])
  {
    WhatIsReported(s.stored[|s.stored| - 1]);
  }

  /** When the parent is about to print a result, the batch it belongs to is still in the slot. */
  lemma ResultBelongsToNumbers(steps: seq<Step>)
    requires Exec(steps).Some? && Exec(steps).value.writer == Locked && Exec(steps).value.size == -1
    ensures var s := Exec(steps).value;
      s.stored != [] && s.stored[|s.stored| - 1] <= s.numbers && IsMin(s.min, s.stored[|s.stored| - 1])
  {
    Reachable(steps);
    SlotHolds(Exec(steps).value);
  }

  /** The two sides are never at the slot together. */
  lemma MutualExclusion(steps: seq<Step>)
    requires Exec(steps).Some? && Exec(steps).value.writer in {Locked, Acked, Stored}
    ensures Exec(steps).value.reader !in {Looking, Looked} && Exec(steps).value.mutex == 0
  {
    Reachable(steps);
  }

  /** The two sides never wait for each other: one of them can always take a step. */
  lemma NoDeadlock(steps: seq<Step>, data: Batch) returns (next: Step)
    requires Exec(steps).Some?
    ensures Enabled(Exec(steps).value, next) && (next.WPush? ==> next.data == data)
  {
    var s := Exec(steps).value;
    Reachable(steps);
    match s.writer {
      case Locked => next := WAck;
      case Acked => next := WStore;
      case Stored => next := WUnlock;
      case Pushed => next := if s.mutex > 0 then WLock else if s.reader == Looking then RLook else RUnlock;
      case Producing =>
        next := if s.reader == Looking then RLook else if s.reader == Looked then RUnlock
                else if s.reader == Popped then RLock else if s.empty > 0 then WPush(data) else RPop;
    }
  }
}
