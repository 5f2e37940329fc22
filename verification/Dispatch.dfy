/**
  Program cross2: a master that talks to any number of driver processes, each over a pair of
  pipes. Every read and write is one step, and so is every expiration of a timer; the steps of the
  master and the drivers interleave freely, and epoll reports what is ready in any order.
 */
module Dispatch {
  import opened CStrings
  import opened DriverRoutine
  import opened Sequences

  datatype Event = PipeReady | TimerReady

  /**
    A driver and its two pipes. `todo` is what is left of the batch epoll_wait returned, `hand` a
    request read and not yet answered. The last four fields are histories the programs do not see:
    `asked` is every request written to the driver, `got` every reply the master read.
   */
  datatype Proc = Proc(
    pid: int, status: Status, tvSec: nat, timer: Timer,
    todo: seq<Event>, hand: Option<Request>, inbox: seq<Request>, outbox: seq<Reply>,
    accepted: nat, completed: nat, asked: seq<Request>, got: seq<Reply>)

  /** The master is at its prompt, about to ask the k-th driver in get_drivers, or waits for a reply. */
  datatype Master = Prompt | Polling(k: nat) | Await(k: nat, polling: bool)

  datatype State = State(drivers: seq<Proc>, master: Master)

  /** A step of a driver, or of the kernel for its timer. */
  datatype Action = Wake(events: seq<Event>) | Read | Respond | ReadTimer | Expire

  datatype Step =
    | CreateDriver(pid: int) | SendTask(pid: int, time: nat) | GetStatus(pid: int) | GetDrivers | Poll | Receive
    | Drive(k: nat, action: Action)

  /** The length of the table of drivers. */
  const MAX_DRIVERS: nat := 128

  const INIT: State := State([], Prompt)

  function Bit(b: bool): nat { if b then 1 else 0 }

  function Pids(drivers: seq<Proc>): (r: seq<int>)
    ensures |r| == |drivers| && forall i :: 0 <= i < |r| ==> r[i] == drivers[i].pid
  {
    seq(|drivers|, i requires 0 <= i < |drivers| => drivers[i].pid)
  }

  /** get_driver_by_pid. */
  function Lookup(drivers: seq<Proc>, pid: int): (r: Option<nat>)
    ensures r.None? <==> forall i :: 0 <= i < |drivers| ==> drivers[i].pid != pid
    ensures r.Some? ==>
      r.value < |drivers| && drivers[r.value].pid == pid && forall i :: 0 <= i < r.value ==> drivers[i].pid != pid
  {
    IndexOf(Pids(drivers), pid)
  }

  method GetDriverByPid(drivers: seq<Proc>, pid: int) returns (k: int)
    ensures k == if Lookup(drivers, pid).Some? then Lookup(drivers, pid).value else -1
  {
    for i := 0 to |drivers|
      invariant forall j :: 0 <= j < i ==> drivers[j].pid != pid
    {
      if drivers[i].pid == pid {
        return i;
      }
    }
    return -1;
  }

  predicate Ready(d: Proc, e: Event) {
    match e case PipeReady => d.inbox != [] case TimerReady => d.timer == Expired
  }

  /** A batch of ready events, each at most once. */
  ghost predicate Batch(d: Proc, events: seq<Event>) {
    && events != []
    && (forall i :: 0 <= i < |events| ==> Ready(d, events[i]))
    && (forall i, j :: 0 <= i < j < |events| ==> events[i] != events[j])
  }

  ghost predicate Enabled(s: State, step: Step) {
    match step
    case CreateDriver(pid) => s.master == Prompt && Lookup(s.drivers, pid).None? && |s.drivers| < MAX_DRIVERS
    case SendTask(pid, time) => s.master == Prompt && Lookup(s.drivers, pid).Some? && time <= INT_MAX
    case GetStatus(pid) => s.master == Prompt && Lookup(s.drivers, pid).Some?
    case GetDrivers => s.master == Prompt
    case Poll => s.master.Polling?
    case Receive => s.master.Await? && s.master.k < |s.drivers| && s.drivers[s.master.k].outbox != []
    case Drive(k, action) => k < |s.drivers| && CanDrive(s.drivers[k], action)
  }

  ghost predicate CanDrive(d: Proc, action: Action) {
    match action
    case Wake(events) => d.todo == [] && d.hand.None? && Batch(d, events)
    case Read => CanHandle(d, PipeReady)
    case Respond => d.hand.Some?
    case ReadTimer => CanHandle(d, TimerReady)
    case Expire => d.timer == Armed
  }

  /** The driver's next event is `e` and its read will not block. */
  predicate CanHandle(d: Proc, e: Event) {
    d.hand.None? && d.todo != [] && d.todo[0] == e && Ready(d, e)
  }

  function Ask(d: Proc, r: Request): Proc {
    d.(inbox := d.inbox + [r], asked := d.asked + [r])
  }

  /** The master reads the reply. */
  function Heard(d: Proc): Proc
    requires d.outbox != []
  {
    d.(outbox := d.outbox[1..], got := d.got + [d.outbox[0]])
  }

  /** What OnRequest of the driver class does, with its reply put into the pipe. */
  function Answered(d: Proc): Proc
    requires d.hand.Some?
  {
    var r := d.hand.value;
    var a := Answer(d.status, d.tvSec, r);
    var m := Served(Mode(d.status, d.tvSec, d.timer), r);
    d.(hand := None, outbox := d.outbox + [a], status := m.status, tvSec := m.tvSec, timer := m.timer,
       accepted := d.accepted + Bit(a == Accepted))
  }

  ghost function Driven(d: Proc, action: Action): Proc
    requires CanDrive(d, action)
  {
    match action
    case Wake(events) => d.(todo := events)
    case Read => d.(todo := d.todo[1..], inbox := d.inbox[1..], hand := Some(d.inbox[0]))
    case Respond => Answered(d)
    case ReadTimer => d.(todo := d.todo[1..], timer := Off, status := AVAILABLE, completed := d.completed + 1)
    case Expire => d.(timer := Expired)
  }

  /** The state with driver `k` changed. */
  function With(s: State, k: nat, d: Proc): State
    requires k < |s.drivers|
  {
    s.(drivers := s.drivers[k := d])
  }

  function NextPoll(s: State, k: nat): Master {
    if k < |s.drivers| then Polling(k) else Prompt
  }

  ghost function Apply(s: State, step: Step): State
    requires Enabled(s, step)
  {
    match step
    case CreateDriver(pid) =>
      s.(drivers := s.drivers + [Proc(pid, AVAILABLE, 0, Off, [], None, [], [], 0, 0, [], [])])
    case SendTask(pid, time) =>
      var k := Lookup(s.drivers, pid).value;
      With(s, k, Ask(s.drivers[k], Task(time))).(master := Await(k, false))
    case GetStatus(pid) =>
      var k := Lookup(s.drivers, pid).value;
      With(s, k, Ask(s.drivers[k], AskStatus)).(master := Await(k, false))
    case GetDrivers => s.(master := NextPoll(s, 0))
    case Poll =>
      if s.master.k < |s.drivers|
      then With(s, s.master.k, Ask(s.drivers[s.master.k], AskStatus)).(master := Await(s.master.k, true))
      else s.(master := Prompt)
    case Receive =>
      var k, d := s.master.k, s.drivers[s.master.k];
      With(s, k, Heard(d))
        .(master := if s.master.polling then NextPoll(s, k + 1) else Prompt)
    case Drive(k, action) => With(s, k, Driven(s.drivers[k], action))
  }

  /** The state an interleaving leads to, if each of its steps was possible. */
  ghost function Exec(steps: seq<Step>): Option<State> {
    if steps == [] then Some(INIT) else
      var before := Exec(steps[..|steps| - 1]);
      if before.Some? && Enabled(before.value, steps[|steps| - 1])
      then Some(Apply(before.value, steps[|steps| - 1])) else None
  }

  // ------------------------------------------------------ the invariants

  function Oks(rs: seq<Reply>): nat {
    if rs == [] then 0 else Oks(rs[..|rs| - 1]) + Bit(rs[|rs| - 1] == Accepted)
  }

  function InFlight(d: Proc): nat { |d.inbox| + Bit(d.hand.Some?) + |d.outbox| }

  /** A reply that answers the request: only a task is ever accepted, only a status query told "Available". */
  predicate Answers(a: Reply, r: Request) {
    if r.AskStatus? then a != Accepted else a != Available
  }

  /** Requests and replies of one driver: at most one is on its way, and it belongs to the last request. */
  ghost predicate Paired(d: Proc, awaited: bool) {
    && InFlight(d) == Bit(awaited)
    && |d.got| + InFlight(d) == |d.asked|
    && (forall i :: 0 <= i < |d.got| ==> Answers(d.got[i], d.asked[i]))
    && (d.inbox != [] ==> d.inbox[0] == d.asked[|d.asked| - 1])
    && (d.hand.Some? ==> d.hand.value == d.asked[|d.asked| - 1])
    && (d.outbox != [] ==> Answers(d.outbox[0], d.asked[|d.asked| - 1]))
  }

  /** The driver and its timer: busy while a task runs, or forever after a task of no time at all. */
  ghost predicate Timed(d: Proc) {
    && (d.timer == Off <==> d.status == AVAILABLE || d.tvSec == 0)
    && d.accepted == d.completed + Bit(d.status == BUSY)
    && d.accepted == Oks(d.got) + Oks(d.outbox)
  }

  /** All replies of a driver so far, in order: the i-th is to the i-th request. */
  function Replies(d: Proc): seq<Reply> { d.got + d.outbox }

  /** The i-th request was a task of no time, and the driver has accepted it. */
  ghost predicate NoTimeAccepted(d: Proc, i: nat) {
    i < |d.asked| && i < |Replies(d)| && d.asked[i] == Task(0) && Replies(d)[i] == Accepted
  }

  /** Only such a request leaves a driver busy without a running timer. */
  ghost predicate Marked(d: Proc) {
    d.status == BUSY && d.tvSec == 0 <==> exists i: nat :: NoTimeAccepted(d, i)
  }

  /** What epoll reported stays ready until it is handled. */
  ghost predicate Pending(d: Proc) {
    && (forall i :: 0 <= i < |d.todo| ==> Ready(d, d.todo[i]))
    && (forall i, j :: 0 <= i < j < |d.todo| ==> d.todo[i] != d.todo[j])
  }

  ghost predicate Sound(s: State) {
    && (forall i, j :: 0 <= i < j < |s.drivers| ==> s.drivers[i].pid != s.drivers[j].pid)
    && (s.master.Await? ==> s.master.k < |s.drivers|)
    && forall k: nat :: k < |s.drivers| ==> DriverSound(s.drivers[k], s.master.Await? && s.master.k == k)
  }

  ghost predicate DriverSound(d: Proc, awaited: bool) {
    Paired(d, awaited) && Timed(d) && Pending(d) && Marked(d)
  }

  lemma OksAppend(rs: seq<Reply>, a: Reply)
    ensures Oks(rs + [a]) == Oks(rs) + Bit(a == Accepted)
  {
    assert (rs + [a])[..|rs|] == rs;
  }

  /** Requests and replies that stay the same as far as they were answered leave the mark as it was. */
  lemma SameMark(d: Proc, t: Proc)
    requires Marked(d) && Replies(t) == Replies(d) && |Replies(d)| <= |d.asked| && d.asked <= t.asked
    requires t.status == d.status && t.tvSec == d.tvSec
    ensures Marked(t)
  {
    forall i: nat ensures NoTimeAccepted(t, i) <==> NoTimeAccepted(d, i) {}
  }

  /** The reply to the last request sets the mark exactly if it accepts a task of no time. */
  lemma MarkedAnswered(d: Proc)
    requires Marked(d) && d.hand.Some? && |Replies(d)| + 1 == |d.asked| && d.hand.value == d.asked[|d.asked| - 1]
    ensures Marked(Answered(d))
  {
    var t, n := Answered(d), |Replies(d)|;
    assert Replies(t) == Replies(d) + [Answer(d.status, d.tvSec, d.hand.value)];
    assert NoTimeAccepted(t, n) <==> d.status == AVAILABLE && d.hand.value == Task(0);
    forall i: nat | i != n ensures NoTimeAccepted(t, i) <==> NoTimeAccepted(d, i) {}
  }

  lemma SoundAsk(d: Proc, r: Request)
    requires DriverSound(d, false)
    ensures DriverSound(Ask(d, r), true)
  {
    SameMark(d, Ask(d, r));
  }

  lemma OnlyReply(d: Proc)
    requires Paired(d, true) && d.outbox != []
    ensures d.outbox == [d.outbox[0]] && d.outbox[1..] == [] && d.inbox == [] && d.hand.None?
    ensures |d.asked| == |d.got| + 1
  {
  }

  lemma PairedHeard(d: Proc)
    requires Paired(d, true) && d.outbox != []
    ensures Paired(Heard(d), false) && Replies(Heard(d)) == Replies(d)
    ensures Oks(Heard(d).got) + Oks(Heard(d).outbox) == Oks(d.got) + Oks(d.outbox)
  {
    OnlyReply(d);
    OksAppend(d.got, d.outbox[0]);
    OksAppend([], d.outbox[0]);
  }

  lemma SoundReceive(d: Proc)
    requires DriverSound(d, true) && d.outbox != []
    ensures DriverSound(Heard(d), false)
  {
    OnlyReply(d);
    PairedHeard(d);
    SameMark(d, Heard(d));
  }

  lemma SoundAnswered(d: Proc, awaited: bool)
    requires DriverSound(d, awaited) && d.hand.Some?
    ensures DriverSound(Answered(d), awaited)
  {
    var a := Answer(d.status, d.tvSec, d.hand.value);
    MarkedAnswered(d);
    OksAppend(d.outbox, a);
    assert d.outbox + [a] == [a];
  }

  lemma SoundRead(d: Proc, awaited: bool)
    requires DriverSound(d, awaited) && CanDrive(d, Read)
    ensures DriverSound(Driven(d, Read), awaited)
  {
    assert d.inbox[1..] == [];
    SameMark(d, Driven(d, Read));
  }

  lemma SoundReadTimer(d: Proc, awaited: bool)
    requires DriverSound(d, awaited) && CanDrive(d, ReadTimer)
    ensures DriverSound(Driven(d, ReadTimer), awaited)
  {
    forall i: nat ensures NoTimeAccepted(Driven(d, ReadTimer), i) <==> NoTimeAccepted(d, i) {}
  }

  lemma SoundDriven(d: Proc, action: Action, awaited: bool)
    requires DriverSound(d, awaited) && CanDrive(d, action)
    ensures DriverSound(Driven(d, action), awaited)
  {
    match action
    case Wake(events) => SameMark(d, Driven(d, action));
    case Read => SoundRead(d, awaited);
    case Respond => SoundAnswered(d, awaited);
    case ReadTimer => SoundReadTimer(d, awaited);
    case Expire => SameMark(d, Driven(d, action));
  }

  /** A step of driver `k` that keeps its pid and its soundness keeps the state's. */
  lemma SoundWith(s: State, k: nat, d: Proc)
    requires Sound(s) && k < |s.drivers| && d.pid == s.drivers[k].pid
    requires DriverSound(d, s.master.Await? && s.master.k == k)
    ensures Sound(With(s, k, d))
  {
  }

  lemma SoundRequest(s: State, k: nat, r: Request, polling: bool)
    requires Sound(s) && k < |s.drivers| && !s.master.Await?
    ensures Sound(With(s, k, Ask(s.drivers[k], r)).(master := Await(k, polling)))
  {
    assert DriverSound(s.drivers[k], false);
    SoundAsk(s.drivers[k], r);
  }

  lemma SoundCreate(s: State, pid: int)
    requires Sound(s) && Enabled(s, CreateDriver(pid))
    ensures Sound(Apply(s, CreateDriver(pid)))
  {
  }

  lemma SoundHeard(s: State)
    requires Sound(s) && Enabled(s, Receive)
    ensures Sound(Apply(s, Receive))
  {
    assert DriverSound(s.drivers[s.master.k], true);
    SoundReceive(s.drivers[s.master.k]);
  }

  lemma SoundDrive(s: State, k: nat, action: Action)
    requires Sound(s) && Enabled(s, Drive(k, action))
    ensures Sound(Apply(s, Drive(k, action)))
  {
    SoundDriven(s.drivers[k], action, s.master.Await? && s.master.k == k);
    SoundWith(s, k, Driven(s.drivers[k], action));
  }

  lemma SoundStep(s: State, step: Step)
    requires Sound(s) && Enabled(s, step)
    ensures Sound(Apply(s, step))
  {
    match step
    case CreateDriver(pid) => SoundCreate(s, pid);
    case SendTask(pid, time) => SoundRequest(s, Lookup(s.drivers, pid).value, Task(time), false);
    case GetStatus(pid) => SoundRequest(s, Lookup(s.drivers, pid).value, AskStatus, false);
    case GetDrivers =>
    case Poll => if s.master.k < |s.drivers| { SoundRequest(s, s.master.k, AskStatus, true); }
    case Receive => SoundHeard(s);
    case Drive(k, action) => SoundDrive(s, k, action);
  }

  /** The invariants hold after every interleaving. */
  lemma {:induction false} Reachable(steps: seq<Step>)
    requires Exec(steps).Some?
    ensures Sound(Exec(steps).value)
  {
    if steps != [] {
      var before, step := steps[..|steps| - 1], steps[|steps| - 1];
      Reachable(before);
      SoundStep(Exec(before).value, step);
    }
  }

  // ---------------------------------------------------------- the results

  /**
    After any interleaving, requests and replies on their way to or from a driver number one if the
    master waits for that driver, and none otherwise. Every request read so far was answered once,
    in order, with a reply to that request.
   */
  lemma OneReplyPerRequest(steps: seq<Step>, k: nat)
    requires Exec(steps).Some? && k < |Exec(steps).value.drivers|
    ensures var s := Exec(steps).value; var d := s.drivers[k];
      && InFlight(d) == Bit(s.master.Await? && s.master.k == k) <= 1
      && |d.got| + InFlight(d) == |d.asked|
      && forall i :: 0 <= i < |d.got| ==> Answers(d.got[i], d.asked[i])
  {
    Reachable(steps);
    var s := Exec(steps).value;
    assert DriverSound(s.drivers[k], s.master.Await? && s.master.k == k);
  }

  /** Pids stay distinct, so the driver a pid finds is the only one with that pid. */
  lemma PidsAreDistinct(steps: seq<Step>, i: nat)
    requires Exec(steps).Some? && i < |Exec(steps).value.drivers|
    ensures Lookup(Exec(steps).value.drivers, Exec(steps).value.drivers[i].pid) == Some(i)
  {
    Reachable(steps);
  }

  /**
    A driver is available exactly when its timer is neither running nor expired and unread, if and
    only if it was never sent a task of no time that it accepted: that one never starts the timer.
   */
  lemma AvailableIffTimerOff(steps: seq<Step>, k: nat)
    requires Exec(steps).Some? && k < |Exec(steps).value.drivers|
    ensures var d := Exec(steps).value.drivers[k];
      (d.status == AVAILABLE <==> d.timer == Off) <==> !exists i: nat :: NoTimeAccepted(d, i)
  {
    Reachable(steps);
    var s := Exec(steps).value;
    assert DriverSound(s.drivers[k], s.master.Await? && s.master.k == k);
  }

  /** Every task a driver was ever asked to do takes some time. */
  ghost predicate OnlyRealTasks(d: Proc) {
    forall i :: 0 <= i < |d.asked| ==> d.asked[i] != Task(0)
  }

  /** What one step adds to the requests of driver `k`, if anything, is a status query or a task just sent. */
  lemma OneMoreRequest(s: State, step: Step, k: nat)
    requires Enabled(s, step) && k < |Apply(s, step).drivers|
    ensures var was, now := if k < |s.drivers| then s.drivers[k].asked else [], Apply(s, step).drivers[k].asked;
      now == was || now == was + [AskStatus] || (step.SendTask? && now == was + [Task(step.time)])
  {
  }

  lemma {:induction false} RequestsAreSent(steps: seq<Step>, k: nat)
    requires Exec(steps).Some? && k < |Exec(steps).value.drivers|
    requires forall i :: 0 <= i < |steps| ==> !(steps[i].SendTask? && steps[i].time == 0)
    ensures OnlyRealTasks(Exec(steps).value.drivers[k])
  {
    var before, step := steps[..|steps| - 1], steps[|steps| - 1];
    assert !(step.SendTask? && step.time == 0);
    OneMoreRequest(Exec(before).value, step, k);
    if k < |Exec(before).value.drivers| { RequestsAreSent(before, k); }
  }

  /** So when the master only ever sends positive times, availability and timer always agree. */
  lemma PositiveTimesKeepTimersHonest(steps: seq<Step>, k: nat)
    requires Exec(steps).Some? && k < |Exec(steps).value.drivers|
    requires forall i :: 0 <= i < |steps| ==> !(steps[i].SendTask? && steps[i].time == 0)
    ensures Exec(steps).value.drivers[k].status == AVAILABLE <==> Exec(steps).value.drivers[k].timer == Off
  {
    AvailableIffTimerOff(steps, k);
    RequestsAreSent(steps, k);
  }

  lemma ExecOne(steps: seq<Step>, step: Step)
    requires Exec(steps).Some? && Enabled(Exec(steps).value, step)
    ensures Exec(steps + [step]) == Some(Apply(Exec(steps).value, step))
  {
    assert (steps + [step])[..|steps|] == steps;
  }

  /** A run in which they do not: one driver, sent one task of no time. */
  lemma NoTimeRun(pid: int) returns (steps: seq<Step>)
    ensures Exec(steps).Some? && SendTask(pid, 0) in steps && |Exec(steps).value.drivers| == 1
    ensures Exec(steps).value.drivers[0].status == BUSY && Exec(steps).value.drivers[0].timer == Off
  {
    steps := [CreateDriver(pid)];
    ExecOne([], CreateDriver(pid));
    ExecOne(steps, SendTask(pid, 0));
    steps := steps + [SendTask(pid, 0)];
    ExecOne(steps, Drive(0, Wake([PipeReady])));
    steps := steps + [Drive(0, Wake([PipeReady]))];
    ExecOne(steps, Drive(0, Read));
    steps := steps + [Drive(0, Read)];
    ExecOne(steps, Drive(0, Respond));
    steps := steps + [Drive(0, Respond)];
  }

  lemma NoTimeStays(d: Proc, action: Action)
    requires Timed(d) && CanDrive(d, action) && d.status == BUSY && d.tvSec == 0
    ensures Driven(d, action).status == BUSY && Driven(d, action).tvSec == 0
  {
  }

  lemma NoTimeStep(s: State, step: Step, k: nat)
    requires Sound(s) && Enabled(s, step) && k < |s.drivers|
    requires s.drivers[k].status == BUSY && s.drivers[k].tvSec == 0
    ensures k < |Apply(s, step).drivers|
    ensures Apply(s, step).drivers[k].status == BUSY && Apply(s, step).drivers[k].tvSec == 0
  {
    assert DriverSound(s.drivers[k], s.master.Await? && s.master.k == k);
    if step.Drive? && step.k == k { NoTimeStays(s.drivers[k], step.action); }
  }

  /** A driver that has accepted a task of no time is busy from then on, whatever happens. */
  lemma {:induction false} NoTimeMeansForever(steps: seq<Step>, more: seq<Step>, k: nat, i: nat)
    requires Exec(steps).Some? && Exec(steps + more).Some? && k < |Exec(steps).value.drivers|
    requires NoTimeAccepted(Exec(steps).value.drivers[k], i)
    ensures var s := Exec(steps + more).value;
      k < |s.drivers| && s.drivers[k].status == BUSY && s.drivers[k].tvSec == 0
    decreases |more|
  {
    if more == [] {
      assert steps + more == steps;
      Reachable(steps);
      var s := Exec(steps).value;
      assert DriverSound(s.drivers[k], s.master.Await? && s.master.k == k);
    } else {
      var front, last := more[..|more| - 1], more[|more| - 1];
      assert (steps + more)[..|steps + more| - 1] == steps + front;
      NoTimeMeansForever(steps, front, k, i);
      Reachable(steps + front);
      NoTimeStep(Exec(steps + front).value, last, k);
    }
  }

  /** Tasks accepted are tasks finished plus the one in progress, and as many as were told "ok". */
  lemma TasksAreAccountedFor(steps: seq<Step>, k: nat)
    requires Exec(steps).Some? && k < |Exec(steps).value.drivers|
    ensures var d := Exec(steps).value.drivers[k];
      && d.accepted == d.completed + Bit(d.status == BUSY)
      && d.accepted == Oks(d.got) + Oks(d.outbox)
  {
    Reachable(steps);
    var s := Exec(steps).value;
    assert DriverSound(s.drivers[k], s.master.Await? && s.master.k == k);
  }

  lemma OffWhenAvailable(d: Proc)
    requires Timed(d) && d.hand.Some?
    ensures d.status == BUSY ==> Answered(d).timer == d.timer && Answered(d).tvSec == d.tvSec
    ensures Answered(d).timer != d.timer ==> d.timer == Off && Answered(d).accepted == d.accepted + 1
  {
  }

  /** A task sent to a busy driver does not touch its timer; a timer is only ever started when it is off. */
  lemma TimerIsNeverRestarted(steps: seq<Step>, k: nat)
    requires Exec(steps).Some? && Enabled(Exec(steps).value, Drive(k, Respond))
    ensures var d, t := Exec(steps).value.drivers[k], Apply(Exec(steps).value, Drive(k, Respond)).drivers[k];
      && (d.status == BUSY ==> t.timer == d.timer && t.tvSec == d.tvSec)
      && (t.timer != d.timer ==> d.timer == Off && t.accepted == d.accepted + 1)
  {
    Reachable(steps);
    var s := Exec(steps).value;
    assert DriverSound(s.drivers[k], s.master.Await? && s.master.k == k);
    OffWhenAvailable(s.drivers[k]);
  }

  /**
    Replies tell the truth: "busy" if and only if some accepted task is not finished, and "ok" if and
    only if a task was asked for and is accepted with this very reply.
   */
  lemma RepliesAreTrue(steps: seq<Step>, k: nat)
    requires Exec(steps).Some? && Enabled(Exec(steps).value, Drive(k, Respond))
    ensures var d, t := Exec(steps).value.drivers[k], Apply(Exec(steps).value, Drive(k, Respond)).drivers[k];
      && t.outbox != []
      && (t.outbox[0].Busy? <==> d.accepted > d.completed)
      && (t.outbox[0].Busy? ==> t.outbox[0].time == d.tvSec)
      && (t.outbox[0] == Accepted <==> t.accepted == d.accepted + 1)
      && (t.outbox[0] == Accepted ==> d.hand.value.Task? && t.tvSec == d.hand.value.time)
  {
    Reachable(steps);
    var s := Exec(steps).value;
    assert DriverSound(s.drivers[k], s.master.Await? && s.master.k == k);
  }

  /** A driver's reads never block: what epoll reported is still there when its turn comes. */
  lemma ReportedEventsStayReady(steps: seq<Step>, k: nat)
    requires Exec(steps).Some? && k < |Exec(steps).value.drivers|
    requires Exec(steps).value.drivers[k].todo != [] && Exec(steps).value.drivers[k].hand.None?
    ensures var d := Exec(steps).value.drivers[k];
      CanDrive(d, if d.todo[0] == PipeReady then Read else ReadTimer)
  {
    Reachable(steps);
    var s := Exec(steps).value;
    assert DriverSound(s.drivers[k], s.master.Await? && s.master.k == k);
  }

  /** While the master waits, it or the driver it waits for can take a step. */
  lemma ReplyIsOnItsWay(steps: seq<Step>) returns (next: Step)
    requires Exec(steps).Some? && Exec(steps).value.master.Await?
    ensures Enabled(Exec(steps).value, next)
    ensures next == Receive || (next.Drive? && next.k == Exec(steps).value.master.k && !next.action.Expire?)
  {
    Reachable(steps);
    var s := Exec(steps).value;
    var k := s.master.k;
    var d := s.drivers[k];
    assert DriverSound(d, true);
    if d.outbox != [] { next := Receive; }
    else if d.hand.Some? { next := Drive(k, Respond); }
    else if d.todo == [] { next := Drive(k, Wake([PipeReady])); }
    else { next := Drive(k, if d.todo[0] == PipeReady then Read else ReadTimer); }
  }

  // ------------------------------------------ whom a command speaks to

  /** Between two states a driver was asked nothing and heard nothing of. */
  ghost predicate LeftAlone(was: Proc, now: Proc) {
    now.pid == was.pid && now.asked == was.asked && now.got == was.got
  }

  /** It was asked exactly this, and has not been heard yet. */
  ghost predicate JustAsked(was: Proc, now: Proc, r: Request) {
    now.pid == was.pid && now.asked == was.asked + [r] && now.got == was.got
  }

  /** It was asked exactly this, and heard once. */
  ghost predicate AskedAndHeard(was: Proc, now: Proc, r: Request) {
    && now.pid == was.pid && now.asked == was.asked + [r]
    && |now.got| == |was.got| + 1 && now.got[..|was.got|] == was.got
  }

  ghost predicate AllHeard(base: seq<Proc>, now: seq<Proc>) {
    |now| == |base| && forall k :: 0 <= k < |base| ==> AskedAndHeard(base[k], now[k], AskStatus)
  }

  /** In table order: whoever was asked, everybody before it was asked and heard. */
  ghost predicate InTableOrder(base: seq<Proc>, now: seq<Proc>) {
    && |now| == |base|
    && (forall k :: 0 <= k < |base| ==>
      LeftAlone(base[k], now[k]) || JustAsked(base[k], now[k], AskStatus) || AskedAndHeard(base[k], now[k], AskStatus))
    && forall j, k :: 0 <= j < k < |base| && !LeftAlone(base[k], now[k]) ==> AskedAndHeard(base[j], now[j], AskStatus)
  }

  /** How far get_drivers has come: the drivers before the master's position, it, and those behind it. */
  ghost predicate Underway(base: seq<Proc>, s: State) {
    && |s.drivers| == |base|
    && match s.master
       case Prompt => AllHeard(base, s.drivers)
       case Polling(p) => p < |base| && Halves(base, s.drivers, p) && LeftAlone(base[p], s.drivers[p])
       case Await(p, polling) =>
         polling && p < |base| && Halves(base, s.drivers, p) && JustAsked(base[p], s.drivers[p], AskStatus)
  }

  ghost predicate Halves(base: seq<Proc>, now: seq<Proc>, p: nat) {
    && p < |base| == |now|
    && (forall k :: 0 <= k < p ==> AskedAndHeard(base[k], now[k], AskStatus))
    && (forall k :: p < k < |base| ==> LeftAlone(base[k], now[k]))
  }

  /** What drivers and timers do by themselves changes neither requests nor replies. */
  lemma DrivingIsSilent(d: Proc, action: Action)
    requires CanDrive(d, action)
    ensures LeftAlone(d, Driven(d, action))
  {
  }

  lemma UnderwayStep(base: seq<Proc>, s: State, step: Step)
    requires Underway(base, s) && s.master != Prompt && Enabled(s, step)
    ensures Underway(base, Apply(s, step))
  {
    if step.Drive? { DrivingIsSilent(s.drivers[step.k], step.action); }
  }

  lemma UnderwayInOrder(base: seq<Proc>, s: State)
    requires Underway(base, s)
    ensures InTableOrder(base, s.drivers) && (s.master == Prompt ==> AllHeard(base, s.drivers))
  {
  }

  /** After these steps the master is in the middle of a command. */
  ghost predicate Engaged(steps: seq<Step>) {
    Exec(steps).Some? && Exec(steps).value.master != Prompt
  }

  /** The master has been in the middle of the command `cmd` at least until the last of these steps. */
  ghost predicate During(steps: seq<Step>, cmd: Step, more: seq<Step>) {
    && Exec(steps).Some? && Exec(steps + [cmd] + more).Some?
    && forall n: nat :: n < |more| ==> Engaged(steps + [cmd] + more[..n])
  }

  lemma DuringStart(steps: seq<Step>, cmd: Step)
    requires During(steps, cmd, [])
    ensures Enabled(Exec(steps).value, cmd)
    ensures Exec(steps + [cmd] + []) == Some(Apply(Exec(steps).value, cmd))
  {
    assert steps + [cmd] + [] == steps + [cmd] && (steps + [cmd])[..|steps|] == steps;
  }

  lemma DuringSnoc(steps: seq<Step>, cmd: Step, front: seq<Step>, last: Step)
    requires During(steps, cmd, front + [last])
    ensures During(steps, cmd, front) && Exec(steps + [cmd] + front).value.master != Prompt
    ensures Enabled(Exec(steps + [cmd] + front).value, last)
    ensures Exec(steps + [cmd] + (front + [last])) == Some(Apply(Exec(steps + [cmd] + front).value, last))
  {
    var more := front + [last];
    assert more[..|front|] == front;
    assert Engaged(steps + [cmd] + more[..|front|]);
    forall n: nat | n < |front| ensures Engaged(steps + [cmd] + front[..n]) {
      assert front[..n] == more[..n];
    }
    assert (steps + [cmd] + more)[..|steps + [cmd] + more| - 1] == steps + [cmd] + front;
  }

  lemma {:induction false} PollUnderway(steps: seq<Step>, more: seq<Step>)
    requires During(steps, GetDrivers, more)
    ensures Underway(Exec(steps).value.drivers, Exec(steps + [GetDrivers] + more).value)
    decreases |more|
  {
    if more == [] {
      DuringStart(steps, GetDrivers);
    } else {
      var front, last := more[..|more| - 1], more[|more| - 1];
      LastApart(more);
      DuringSnoc(steps, GetDrivers, front, last);
      PollUnderway(steps, front);
      UnderwayStep(Exec(steps).value.drivers, Exec(steps + [GetDrivers] + front).value, last);
    }
  }

  /**
    get_drivers: from the command until the master is at its prompt again every driver is asked for its
    status exactly once and heard exactly once, nothing else is asked or heard, and at any moment in
    between whoever was asked comes behind drivers that were all asked and heard.
   */
  lemma PollAsksEveryone(steps: seq<Step>, more: seq<Step>)
    requires During(steps, GetDrivers, more)
    ensures var before, now := Exec(steps).value, Exec(steps + [GetDrivers] + more).value;
      && InTableOrder(before.drivers, now.drivers)
      && (now.master == Prompt ==> AllHeard(before.drivers, now.drivers))
  {
    PollUnderway(steps, more);
    UnderwayInOrder(Exec(steps).value.drivers, Exec(steps + [GetDrivers] + more).value);
  }

  /** What send_task or get_status asks. */
  function RequestOf(cmd: Step): Request
    requires cmd.SendTask? || cmd.GetStatus?
  {
    if cmd.SendTask? then Task(cmd.time) else AskStatus
  }

  /** Only the driver with this pid is asked; it was heard exactly if the master is at its prompt. */
  ghost predicate OnlyAsked(base: seq<Proc>, s: State, pid: int, r: Request) {
    && |s.drivers| == |base|
    && (s.master == Prompt || (s.master.Await? && !s.master.polling && s.master.k < |base| && base[s.master.k].pid == pid))
    && forall k :: 0 <= k < |base| ==>
      if base[k].pid != pid then LeftAlone(base[k], s.drivers[k])
      else if s.master == Prompt then AskedAndHeard(base[k], s.drivers[k], r)
      else JustAsked(base[k], s.drivers[k], r)
  }

  ghost predicate DistinctPids(drivers: seq<Proc>) {
    forall i, j :: 0 <= i < j < |drivers| ==> drivers[i].pid != drivers[j].pid
  }

  lemma OnlyAskedStart(s: State, cmd: Step)
    requires (cmd.SendTask? || cmd.GetStatus?) && Enabled(s, cmd) && DistinctPids(s.drivers)
    ensures OnlyAsked(s.drivers, Apply(s, cmd), cmd.pid, RequestOf(cmd))
  {
  }

  lemma OnlyAskedStep(base: seq<Proc>, s: State, pid: int, r: Request, step: Step)
    requires OnlyAsked(base, s, pid, r) && DistinctPids(base) && s.master != Prompt && Enabled(s, step)
    ensures OnlyAsked(base, Apply(s, step), pid, r)
  {
    if step.Drive? { DrivingIsSilent(s.drivers[step.k], step.action); }
  }

  /**
    send_task and get_status: from the command until the master is at its prompt again the driver with
    that pid is asked exactly that, once, and heard once, and no other driver is asked or heard.
   */
  lemma {:induction false} CommandAsksOne(steps: seq<Step>, cmd: Step, more: seq<Step>)
    requires (cmd.SendTask? || cmd.GetStatus?) && During(steps, cmd, more)
    ensures OnlyAsked(Exec(steps).value.drivers, Exec(steps + [cmd] + more).value, cmd.pid, RequestOf(cmd))
    decreases |more|
  {
    Reachable(steps);
    if more == [] {
      DuringStart(steps, cmd);
      OnlyAskedStart(Exec(steps).value, cmd);
    } else {
      var front, last := more[..|more| - 1], more[|more| - 1];
      LastApart(more);
      DuringSnoc(steps, cmd, front, last);
      CommandAsksOne(steps, cmd, front);
      OnlyAskedStep(Exec(steps).value.drivers, Exec(steps + [cmd] + front).value, cmd.pid, RequestOf(cmd), last);
    }
  }
}
