/**
  The chat of program 06: a server and any number of clients over one System V message queue.
  Every msgsnd and msgrcv is one step; steps of different processes interleave freely, also
  between the messages of one broadcast.
 */
module Chat {
  import opened CStrings
  import opened ChatServer
  import opened ChatText
  import opened Sequences

  const SERVER_MTYPE: int := 10
  const HANDSHAKE_MTYPE: int := 11
  const SHUTDOWN_CMD: string := "shutdown"

  /** Something said, and whether the server had served the client's handshake by then. */
  datatype Utterance = Utterance(pid: nat, body: string, joined: bool)
  /** What the server did about a message. */
  datatype Event = Joined(id: int) | Left(id: int) | Said(id: int, text: string)
  /** The server waits in msgrcv, or is in the broadcast loop at client `i` of its table. */
  datatype Server = Listening | Sending(origin: int, text: string, i: nat)

  /** `started`, `said`, `received` and `log` are histories; nothing the processes do depends on them. */
  datatype State = State(
    queue: seq<Message>, table: seq<int>, server: Server,
    started: seq<nat>, said: seq<Utterance>, received: seq<Message>, log: seq<Event>)

  datatype Step =
    | Handshake(pid: nat) | Say(pid: nat, body: string) | Fetch(pid: nat, k: nat)
    | Take(k: nat) | SendNext

  const INIT: State := State([], [], Listening, [], [], [], [])

  /** msgrcv with a positive type: the first message of that type. */
  ghost predicate FirstOf(queue: seq<Message>, pid: int, k: nat) {
    && k < |queue| && queue[k].mtype == pid
    && forall j :: 0 <= j < k ==> queue[j].mtype != pid
  }

  /** msgrcv with -11: the first message of the lowest type that is at most 11. */
  ghost predicate Lowest(queue: seq<Message>, k: nat) {
    && k < |queue| && FirstOf(queue, queue[k].mtype, k) && queue[k].mtype <= HANDSHAKE_MTYPE
    && forall j :: 0 <= j < |queue| ==> queue[k].mtype <= queue[j].mtype
  }

  /** The code is defined on this message: strtok finds a token, and a line has a body. */
  predicate Defined(m: Message) {
    && Tokens(Copied(m.text), COLON) != []
    && (m.mtype == HANDSHAKE_MTYPE || !Parse(m.text).IdOnly?)
  }

  /**
    Clients are processes with distinct pids above 11; each sends its handshake once, then talks.
    The server does not check that its table has room, so a handshake that finds it full is not a
    step of the model.
   */
  ghost predicate Enabled(s: State, step: Step) {
    match step
    case Handshake(pid) => HANDSHAKE_MTYPE < pid <= INT_MAX && pid !in s.started
    case Say(pid, body) => pid in s.started && Sayable(pid, body)
    case Fetch(pid, k) => pid in s.started && FirstOf(s.queue, pid, k)
    case Take(k) =>
      && s.server == Listening && Lowest(s.queue, k) && Defined(s.queue[k])
      && (s.queue[k].mtype == HANDSHAKE_MTYPE ==> |s.table| < CLIENTS_MAX)
    case SendNext => s.server.Sending?
  }

  /** What the listening loop decides about a message, unless its id does not parse. */
  function Verdict(m: Message): Option<Event>
    requires Defined(m)
  {
    var p := Parse(m.text);
    if p.NoId? then None
    else if m.mtype == HANDSHAKE_MTYPE then Some(Joined(p.id))
    else if p.body == SHUTDOWN_CMD then Some(Left(p.id))
    else Some(Said(p.id, m.text))
  }

  /** And what it does then. */
  function Act(s: State, e: Event): State {
    var t := s.(log := s.log + [e]);
    match e
    case Joined(id) => t.(table := s.table + [id])
    case Left(id) => t.(table := DropFirst(s.table, id))
    case Said(id, text) => t.(server := Sending(id, text, 0))
  }

  /** One round of the broadcast loop. */
  function Broadcast(s: State): State
    requires s.server.Sending?
  {
    var Sending(origin, text, i) := s.server;
    if i >= |s.table| then s.(server := Listening)
    else if s.table[i] == origin then s.(server := Sending(origin, text, i + 1))
    else s.(server := Sending(origin, text, i + 1), queue := s.queue + [Message(s.table[i], text)])
  }

  ghost function Apply(s: State, step: Step): State
    requires Enabled(s, step)
  {
    match step
    case Handshake(pid) =>
      s.(queue := s.queue + [Message(HANDSHAKE_MTYPE, Hello(pid))], started := s.started + [pid])
    case Say(pid, body) =>
      s.(queue := s.queue + [Message(SERVER_MTYPE, Line(pid, body))],
         said := s.said + [Utterance(pid, body, pid in Joins(s.log))])
    case Fetch(pid, k) =>
      s.(queue := RemoveAt(s.queue, k), received := s.received + [s.queue[k]])
    case Take(k) =>
      var rest := s.(queue := RemoveAt(s.queue, k));
      (match Verdict(s.queue[k])
       case None => rest
       case Some(e) => Act(rest, e))
    case SendNext => Broadcast(s)
  }

  /** The state an interleaving leads to, if each of its steps was possible. */
  ghost function Exec(steps: seq<Step>): Option<State> {
    if steps == [] then Some(INIT) else
      var before := Exec(steps[..|steps| - 1]);
      if before.Some? && Enabled(before.value, steps[|steps| - 1])
      then Some(Apply(before.value, steps[|steps| - 1])) else None
  }

  // ------------------------------------------------ what histories say

  /** The texts of the messages of one type, in order. */
  function TextsOf(ms: seq<Message>, mtype: int): seq<string> {
    if ms == [] then [] else
      TextsOf(ms[..|ms| - 1], mtype) + if ms[|ms| - 1].mtype == mtype then [ms[|ms| - 1].text] else []
  }

  /** Client p's last handshake was not followed by a shutdown, as far as the server has seen. */
  predicate InRoom(log: seq<Event>, p: int) {
    if log == [] then false else
      match log[|log| - 1]
      case Joined(id) => id == p || InRoom(log[..|log| - 1], p)
      case Left(id) => id != p && InRoom(log[..|log| - 1], p)
      case Said(_, _) => InRoom(log[..|log| - 1], p)
  }

  /** What client p should get to read: all that others said while p was in the room. */
  function Heard(log: seq<Event>, p: int): seq<string> {
    if log == [] then [] else
      var front := log[..|log| - 1];
      Heard(front, p) +
      match log[|log| - 1]
      case Joined(_) => []
      case Left(_) => []
      case Said(id, text) => if id != p && InRoom(front, p) then [text] else []
  }

  /** The handshakes the server has seen. */
  function Joins(log: seq<Event>): seq<int> {
    if log == [] then [] else
      Joins(log[..|log| - 1]) + if log[|log| - 1].Joined? then [log[|log| - 1].id] else []
  }

  /** Everything else the server has seen. */
  function Talk(log: seq<Event>): seq<Event> {
    if log == [] then [] else
      Talk(log[..|log| - 1]) + if log[|log| - 1].Joined? then [] else [log[|log| - 1]]
  }

  /** What the server should make of something said. */
  function EventOf(u: Utterance): Event {
    if u.body == SHUTDOWN_CMD then Left(u.pid) else Said(u.pid, Line(u.pid, u.body))
  }

  function EventsOf(us: seq<Utterance>): (r: seq<Event>)
    ensures |r| == |us| && forall i :: 0 <= i < |us| ==> r[i] == EventOf(us[i])
  {
    seq(|us|, i requires 0 <= i < |us| => EventOf(us[i]))
  }

  function LinesOf(us: seq<Utterance>): (r: seq<string>)
    ensures |r| == |us| && forall i :: 0 <= i < |us| ==> r[i] == Line(us[i].pid, us[i].body)
  {
    seq(|us|, i requires 0 <= i < |us| => Line(us[i].pid, us[i].body))
  }

  function HellosOf(ps: seq<nat>): (r: seq<string>)
    ensures |r| == |ps| && forall i :: 0 <= i < |ps| ==> r[i] == Hello(ps[i])
  {
    seq(|ps|, i requires 0 <= i < |ps| => Hello(ps[i]))
  }

  /** What the broadcast under way still has to put into the queue for client p. */
  function Owed(s: State, p: int): seq<string> {
    if s.server.Sending? && s.server.origin != p && s.server.i <= |s.table| && p in s.table[s.server.i..]
    then [s.server.text] else []
  }

  // ------------------------------------------------ counting in the queue

  lemma TextsOfAppend(ms: seq<Message>, m: Message, mtype: int)
    ensures TextsOf(ms + [m], mtype) == TextsOf(ms, mtype) + if m.mtype == mtype then [m.text] else []
  {
    assert (ms + [m])[..|ms|] == ms;
  }

  lemma {:induction false} NoTexts(ms: seq<Message>, mtype: int)
    requires forall j :: 0 <= j < |ms| ==> ms[j].mtype != mtype
    ensures TextsOf(ms, mtype) == []
  {
    if ms != [] { NoTexts(ms[..|ms| - 1], mtype); }
  }

  lemma {:induction false} TextsOfRemove(ms: seq<Message>, k: nat, mtype: int)
    requires k < |ms| && FirstOf(ms, ms[k].mtype, k)
    ensures TextsOf(ms, mtype) ==
      (if ms[k].mtype == mtype then [ms[k].text] else []) + TextsOf(RemoveAt(ms, k), mtype)
  {
    var front, last := ms[..|ms| - 1], ms[|ms| - 1];
    if k == |front| {
      assert RemoveAt(ms, k) == front;
      if last.mtype == mtype { NoTexts(front, mtype); }
    } else {
      TextsOfRemove(front, k, mtype);
      assert RemoveAt(ms, k) == RemoveAt(front, k) + [last];
      TextsOfAppend(RemoveAt(front, k), last, mtype);
    }
  }

  // ------------------------------------------------------ the invariants

  /** Pids are distinct and above 11; what is in the queue has a type the programs use. */
  ghost predicate Known(s: State) {
    && (forall i, j :: 0 <= i < j < |s.started| ==> s.started[i] != s.started[j])
    && (forall p :: p in s.started ==> HANDSHAKE_MTYPE < p <= INT_MAX)
    && (forall u :: u in s.said ==> u.pid in s.started && Sayable(u.pid, u.body))
    && (forall m :: m in s.queue ==> m.mtype >= SERVER_MTYPE)
  }

  /** What was said and not yet served waits in the queue, in the order it was said; so do the handshakes. */
  ghost predicate Ordered(s: State) {
    var n, m := |Talk(s.log)|, |Joins(s.log)|;
    && n <= |s.said| && Talk(s.log) == EventsOf(s.said)[..n]
    && TextsOf(s.queue, SERVER_MTYPE) == LinesOf(s.said)[n..]
    && m <= |s.started| && Joins(s.log) == s.started[..m]
    && TextsOf(s.queue, HANDSHAKE_MTYPE) == HellosOf(s.started)[m..]
  }

  /** The table is who is in the room, each once, and has not overflowed. */
  ghost predicate Rostered(s: State) {
    && |s.table| <= CLIENTS_MAX
    && Distinct(s.table)
    && (forall p :: p in s.table <==> InRoom(s.log, p))
  }

  /** What client p has read, will find in the queue and is still owed is what it should hear. */
  ghost predicate Delivered(s: State, p: int) {
    TextsOf(s.received, p) + TextsOf(s.queue, p) + Owed(s, p) == Heard(s.log, p)
  }

  lemma AfterEvent(log: seq<Event>, e: Event)
    ensures (log + [e])[..|log|] == log
  {
  }

  /** The oldest line in the queue is the first thing said that the server has not served. */
  lemma TakenLine(s: State, k: nat)
    requires Known(s) && Ordered(s) && Lowest(s.queue, k) && s.queue[k].mtype == SERVER_MTYPE
    ensures var n := |Talk(s.log)|;
      && n < |s.said| && s.queue[k].text == Line(s.said[n].pid, s.said[n].body)
      && Parse(s.queue[k].text) == IdAndBody(s.said[n].pid, s.said[n].body)
      && TextsOf(RemoveAt(s.queue, k), SERVER_MTYPE) == LinesOf(s.said)[n + 1..]
      && TextsOf(RemoveAt(s.queue, k), HANDSHAKE_MTYPE) == TextsOf(s.queue, HANDSHAKE_MTYPE)
  {
    var n := |Talk(s.log)|;
    TextsOfRemove(s.queue, k, SERVER_MTYPE);
    TextsOfRemove(s.queue, k, HANDSHAKE_MTYPE);
    assert LinesOf(s.said)[n..] == [s.queue[k].text] + TextsOf(RemoveAt(s.queue, k), SERVER_MTYPE);
    assert LinesOf(s.said)[n..][0] == s.queue[k].text;
    assert LinesOf(s.said)[n..][1..] == LinesOf(s.said)[n + 1..];
    assert s.said[n] in s.said;
    ParseOfLine(s.said[n].pid, s.said[n].body);
  }

  lemma TakenHello(s: State, k: nat)
    requires Known(s) && Ordered(s) && Lowest(s.queue, k) && s.queue[k].mtype == HANDSHAKE_MTYPE
    ensures var m := |Joins(s.log)|;
      && m < |s.started| && Parse(s.queue[k].text) == IdOnly(s.started[m])
      && TextsOf(RemoveAt(s.queue, k), SERVER_MTYPE) == TextsOf(s.queue, SERVER_MTYPE)
      && TextsOf(RemoveAt(s.queue, k), HANDSHAKE_MTYPE) == HellosOf(s.started)[m + 1..]
  {
    var m := |Joins(s.log)|;
    TextsOfRemove(s.queue, k, SERVER_MTYPE);
    TextsOfRemove(s.queue, k, HANDSHAKE_MTYPE);
    assert HellosOf(s.started)[m..] == [s.queue[k].text] + TextsOf(RemoveAt(s.queue, k), HANDSHAKE_MTYPE);
    assert HellosOf(s.started)[m..][0] == s.queue[k].text;
    assert HellosOf(s.started)[m..][1..] == HellosOf(s.started)[m + 1..];
    assert s.started[m] in s.started;
    ParseOfHello(s.started[m]);
  }

  /** What serving one message does: a client joins, or the next thing said is acted upon. */
  lemma Taken(s: State, k: nat) returns (e: Event)
    requires Known(s) && Ordered(s) && Enabled(s, Take(k))
    ensures Apply(s, Take(k)) == Act(s.(queue := RemoveAt(s.queue, k)), e)
    ensures s.queue[k].mtype == HANDSHAKE_MTYPE ==>
      |Joins(s.log)| < |s.started| && e == Joined(s.started[|Joins(s.log)|])
    ensures s.queue[k].mtype != HANDSHAKE_MTYPE ==> s.queue[k].mtype == SERVER_MTYPE
    ensures s.queue[k].mtype != HANDSHAKE_MTYPE ==>
      |Talk(s.log)| < |s.said| && e == EventOf(s.said[|Talk(s.log)|])
  {
    assert s.queue[k] in s.queue;
    if s.queue[k].mtype == HANDSHAKE_MTYPE {
      TakenHello(s, k);
      e := Joined(s.started[|Joins(s.log)|]);
    } else {
      TakenLine(s, k);
      e := EventOf(s.said[|Talk(s.log)|]);
    }
  }

  lemma OrderedJoin(s: State, queue: seq<Message>)
    requires Ordered(s) && |Joins(s.log)| < |s.started|
    requires TextsOf(queue, SERVER_MTYPE) == TextsOf(s.queue, SERVER_MTYPE)
    requires TextsOf(queue, HANDSHAKE_MTYPE) == HellosOf(s.started)[|Joins(s.log)| + 1..]
    ensures Ordered(Act(s.(queue := queue), Joined(s.started[|Joins(s.log)|])))
  {
    var m := |Joins(s.log)|;
    AfterEvent(s.log, Joined(s.started[m]));
    assert s.started[..m + 1] == s.started[..m] + [s.started[m]];
  }

  lemma OrderedTalk(s: State, queue: seq<Message>, e: Event)
    requires Ordered(s) && |Talk(s.log)| < |s.said| && e == EventOf(s.said[|Talk(s.log)|])
    requires TextsOf(queue, SERVER_MTYPE) == LinesOf(s.said)[|Talk(s.log)| + 1..]
    requires TextsOf(queue, HANDSHAKE_MTYPE) == TextsOf(s.queue, HANDSHAKE_MTYPE)
    ensures Ordered(Act(s.(queue := queue), e))
  {
    hide TextsOf, LinesOf, HellosOf, EventsOf;
    var n := |Talk(s.log)|;
    AfterEvent(s.log, e);
    EventsSnoc(s.said, n);
  }

  lemma EventsSnoc(said: seq<Utterance>, n: nat)
    requires n < |said|
    ensures EventsOf(said)[..n + 1] == EventsOf(said)[..n] + [EventOf(said[n])]
  {
  }

  lemma OrderedTake(s: State, k: nat)
    requires Known(s) && Ordered(s) && Enabled(s, Take(k))
    ensures Ordered(Apply(s, Take(k)))
  {
    var e := Taken(s, k);
    if s.queue[k].mtype == HANDSHAKE_MTYPE {
      TakenHello(s, k);
      OrderedJoin(s, RemoveAt(s.queue, k));
    } else {
      TakenLine(s, k);
      OrderedTalk(s, RemoveAt(s.queue, k), e);
    }
  }

  lemma OrderedSend(s: State, m: Message)
    requires Ordered(s) && m.mtype !in {SERVER_MTYPE, HANDSHAKE_MTYPE}
    ensures Ordered(s.(queue := s.queue + [m]))
  {
    TextsOfAppend(s.queue, m, SERVER_MTYPE);
    TextsOfAppend(s.queue, m, HANDSHAKE_MTYPE);
  }

  lemma OrderedFetch(s: State, pid: nat, k: nat)
    requires Known(s) && Ordered(s) && Enabled(s, Fetch(pid, k))
    ensures Ordered(Apply(s, Fetch(pid, k)))
  {
    TextsOfRemove(s.queue, k, SERVER_MTYPE);
    TextsOfRemove(s.queue, k, HANDSHAKE_MTYPE);
  }

  lemma OrderedHandshake(s: State, pid: nat)
    requires Ordered(s) && Enabled(s, Handshake(pid))
    ensures Ordered(Apply(s, Handshake(pid)))
  {
    var m, started := |Joins(s.log)|, s.started + [pid];
    TextsOfAppend(s.queue, Message(HANDSHAKE_MTYPE, Hello(pid)), SERVER_MTYPE);
    TextsOfAppend(s.queue, Message(HANDSHAKE_MTYPE, Hello(pid)), HANDSHAKE_MTYPE);
    assert started[..m] == s.started[..m];
    assert HellosOf(started)[m..] == HellosOf(s.started)[m..] + [Hello(pid)];
  }

  lemma OrderedSay(s: State, pid: nat, body: string)
    requires Ordered(s) && Enabled(s, Say(pid, body))
    ensures Ordered(Apply(s, Say(pid, body)))
  {
    var n, said := |Talk(s.log)|, s.said + [Utterance(pid, body, pid in Joins(s.log))];
    TextsOfAppend(s.queue, Message(SERVER_MTYPE, Line(pid, body)), SERVER_MTYPE);
    TextsOfAppend(s.queue, Message(SERVER_MTYPE, Line(pid, body)), HANDSHAKE_MTYPE);
    assert EventsOf(said)[..n] == EventsOf(s.said)[..n];
    assert LinesOf(said)[n..] == LinesOf(s.said)[n..] + [Line(pid, body)];
  }

  lemma OrderedStep(s: State, step: Step)
    requires Known(s) && Ordered(s) && Rostered(s) && Enabled(s, step)
    ensures Ordered(Apply(s, step))
  {
    match step
    case Handshake(pid) => OrderedHandshake(s, pid);
    case Say(pid, body) => OrderedSay(s, pid, body);
    case Fetch(pid, k) => OrderedFetch(s, pid, k);
    case Take(k) => OrderedTake(s, k);
    case SendNext =>
      var Sending(origin, text, i) := s.server;
      if i < |s.table| {
        ClientsStarted(s, s.table[i]);
        OrderedSend(s, Message(s.table[i], text));
      }
  }

  lemma {:induction false} InRoomJoined(log: seq<Event>, p: int)
    requires InRoom(log, p)
    ensures p in Joins(log)
  {
    if log[|log| - 1] != Joined(p) { InRoomJoined(log[..|log| - 1], p); }
  }

  /** Whoever is in the table has sent a handshake that the server has seen. */
  lemma ClientsStarted(s: State, p: int)
    requires Known(s) && Ordered(s) && Rostered(s) && p in s.table
    ensures p in s.started[..|Joins(s.log)|] && HANDSHAKE_MTYPE < p <= INT_MAX
  {
    InRoomJoined(s.log, p);
    assert p in s.started[..|Joins(s.log)|];
    assert p in s.started;
  }

  lemma KnownStep(s: State, step: Step)
    requires Known(s) && Ordered(s) && Rostered(s) && Enabled(s, step)
    ensures Known(Apply(s, step))
  {
    match step
    case Handshake(pid) =>
    case Say(pid, body) =>
    case Fetch(pid, k) => KnownRemove(s.queue, k);
    case Take(k) =>
      var e := Taken(s, k);
      KnownRemove(s.queue, k);
    case SendNext => if s.server.i < |s.table| { ClientsStarted(s, s.table[s.server.i]); }
  }

  lemma KnownRemove(queue: seq<Message>, k: nat)
    requires k < |queue| && forall m :: m in queue ==> m.mtype >= SERVER_MTYPE
    ensures forall m :: m in RemoveAt(queue, k) ==> m.mtype >= SERVER_MTYPE
  {
  }

  ghost predicate Distinct(s: seq<int>) {
    forall i, j :: 0 <= i < j < |s| ==> s[i] != s[j]
  }

  lemma {:induction false} DropFirstContents(s: seq<int>, id: int)
    requires Distinct(s)
    ensures forall p :: p in DropFirst(s, id) <==> p in s && p != id
  {
    if s != [] && s[0] != id { DropFirstContents(s[1..], id); }
  }

  lemma DistinctCons(x: int, s: seq<int>)
    requires Distinct(s) && x !in s
    ensures Distinct([x] + s)
  {
  }

  lemma {:induction false} DropFirstOfDistinct(s: seq<int>, id: int)
    requires Distinct(s)
    ensures Distinct(DropFirst(s, id))
  {
    if s != [] && s[0] != id {
      DropFirstOfDistinct(s[1..], id);
      DropFirstContents(s[1..], id);
      DistinctCons(s[0], DropFirst(s[1..], id));
    }
  }

  lemma RosteredAct(s: State, e: Event)
    requires Rostered(s) && (e.Joined? ==> e.id !in s.table && |s.table| < CLIENTS_MAX)
    ensures Rostered(Act(s, e))
  {
    AfterEvent(s.log, e);
    if e.Left? {
      DropFirstOfDistinct(s.table, e.id);
      DropFirstContents(s.table, e.id);
    }
  }

  lemma RosteredStep(s: State, step: Step)
    requires Known(s) && Ordered(s) && Rostered(s) && Enabled(s, step)
    ensures Rostered(Apply(s, step))
  {
    if step.Take? {
      var e := Taken(s, step.k);
      if e.Joined? && e.id in s.table { ClientsStarted(s, e.id); }
      RosteredAct(s.(queue := RemoveAt(s.queue, step.k)), e);
    }
  }

  lemma DeliveredAct(s: State, e: Event, p: int)
    requires Delivered(s, p) && Rostered(s) && s.server == Listening
    ensures Delivered(Act(s, e), p)
  {
    AfterEvent(s.log, e);
    assert s.table[0..] == s.table;
  }

  /** One round of the broadcast pays what is owed to the client it reaches. */
  lemma OwedAt(s: State, p: int)
    requires Rostered(s) && s.server.Sending? && s.server.i < |s.table|
    ensures var paid := s.table[s.server.i] == p && p != s.server.origin;
      Owed(s, p) == (if paid then [s.server.text] else []) + Owed(Broadcast(s), p)
  {
    var i := s.server.i;
    assert s.table[i..] == [s.table[i]] + s.table[i + 1..];
  }

  /** What moves from the broadcast into the queue leaves the account as it was. */
  lemma SameAccount(s: State, t: State, p: int)
    requires Delivered(s, p) && t.log == s.log && t.received == s.received
    requires TextsOf(s.queue, p) + Owed(s, p) == TextsOf(t.queue, p) + Owed(t, p)
    ensures Delivered(t, p)
  {
    CatAssoc(TextsOf(s.received, p), TextsOf(s.queue, p), Owed(s, p));
    CatAssoc(TextsOf(t.received, p), TextsOf(t.queue, p), Owed(t, p));
  }

  lemma BroadcastPays(s: State, p: int)
    requires Rostered(s) && s.server.Sending? && s.server.i < |s.table|
    ensures TextsOf(s.queue, p) + Owed(s, p) == TextsOf(Broadcast(s).queue, p) + Owed(Broadcast(s), p)
  {
    var m := Message(s.table[s.server.i], s.server.text);
    OwedAt(s, p);
    TextsOfAppend(s.queue, m, p);
    CatAssoc(TextsOf(s.queue, p), [m.text], Owed(Broadcast(s), p));
  }

  lemma DeliveredBroadcast(s: State, p: int)
    requires Delivered(s, p) && Rostered(s) && s.server.Sending?
    ensures Delivered(Broadcast(s), p)
  {
    if s.server.i < |s.table| { BroadcastPays(s, p); }
    SameAccount(s, Broadcast(s), p);
  }

  lemma DeliveredFetch(s: State, pid: nat, k: nat, p: int)
    requires Delivered(s, p) && Enabled(s, Fetch(pid, k))
    ensures Delivered(Apply(s, Fetch(pid, k)), p)
  {
    var rest, x := RemoveAt(s.queue, k), if s.queue[k].mtype == p then [s.queue[k].text] else [];
    TextsOfRemove(s.queue, k, p);
    TextsOfAppend(s.received, s.queue[k], p);
    CatAssoc(TextsOf(s.received, p), x, TextsOf(rest, p));
  }

  lemma DeliveredTake(s: State, k: nat, p: int)
    requires Known(s) && Ordered(s) && Rostered(s) && Enabled(s, Take(k))
    requires Delivered(s, p) && p > HANDSHAKE_MTYPE
    ensures Delivered(Apply(s, Take(k)), p)
  {
    var e := Taken(s, k);
    TextsOfRemove(s.queue, k, p);
    assert TextsOf(RemoveAt(s.queue, k), p) == TextsOf(s.queue, p);
    DeliveredAct(s.(queue := RemoveAt(s.queue, k)), e, p);
  }

  lemma DeliveredSend(s: State, m: Message, p: int)
    requires Delivered(s, p) && m.mtype != p
    ensures TextsOf(s.queue + [m], p) == TextsOf(s.queue, p)
  {
    TextsOfAppend(s.queue, m, p);
  }

  lemma DeliveredStep(s: State, step: Step, p: int)
    requires Known(s) && Ordered(s) && Rostered(s) && Enabled(s, step)
    requires Delivered(s, p) && p > HANDSHAKE_MTYPE
    ensures Delivered(Apply(s, step), p)
  {
    match step
    case Handshake(pid) => DeliveredSend(s, Message(HANDSHAKE_MTYPE, Hello(pid)), p);
    case Say(pid, body) => DeliveredSend(s, Message(SERVER_MTYPE, Line(pid, body)), p);
    case Fetch(pid, k) => DeliveredFetch(s, pid, k, p);
    case Take(k) => DeliveredTake(s, k, p);
    case SendNext => DeliveredBroadcast(s, p);
  }

  /** The invariants hold after every interleaving. */
  lemma {:induction false} Reachable(steps: seq<Step>)
    requires Exec(steps).Some?
    ensures var s := Exec(steps).value; Known(s) && Ordered(s) && Rostered(s)
    ensures forall p :: p > HANDSHAKE_MTYPE ==> Delivered(Exec(steps).value, p)
  {
    if steps != [] {
      var before, step := steps[..|steps| - 1], steps[|steps| - 1];
      Reachable(before);
      var s := Exec(before).value;
      KnownStep(s, step);
      OrderedStep(s, step);
      RosteredStep(s, step);
      forall p | p > HANDSHAKE_MTYPE ensures Delivered(Apply(s, step), p) { DeliveredStep(s, step, p); }
    }
  }

  // ---------------------------------------------------------- the results

  /**
    After any interleaving, what a client has read followed by what waits for it in the queue and
    what the broadcast under way still owes it is, in order, what others said while it was in the
    room: nothing lost, repeated, reordered, or read by somebody else.
   */
  lemma BroadcastsDelivered(steps: seq<Step>, p: int)
    requires Exec(steps).Some? && p > HANDSHAKE_MTYPE
    ensures var s := Exec(steps).value;
      TextsOf(s.received, p) + TextsOf(s.queue, p) + Owed(s, p) == Heard(s.log, p)
  {
    Reachable(steps);
    assert Delivered(Exec(steps).value, p);
  }

  /** Once the server waits and the client has emptied its part of the queue, it has read it all. */
  lemma CaughtUp(steps: seq<Step>, p: int)
    requires Exec(steps).Some? && p > HANDSHAKE_MTYPE
    requires Exec(steps).value.server == Listening
    requires forall m :: m in Exec(steps).value.queue ==> m.mtype != p
    ensures TextsOf(Exec(steps).value.received, p) == Heard(Exec(steps).value.log, p)
  {
    BroadcastsDelivered(steps, p);
    NoTexts(Exec(steps).value.queue, p);
  }

  /**
    Of everything said by anybody, the server has acted on exactly the first so many, each once,
    in the order they were said, for the client that said it; the rest waits in the queue in that
    order.  The same holds of the handshakes.
   */
  lemma ServedInOrder(steps: seq<Step>)
    requires Exec(steps).Some?
    ensures var s := Exec(steps).value;
      && Talk(s.log) <= EventsOf(s.said)
      && TextsOf(s.queue, SERVER_MTYPE) == LinesOf(s.said)[|Talk(s.log)|..]
      && Joins(s.log) <= s.started
      && TextsOf(s.queue, HANDSHAKE_MTYPE) == HellosOf(s.started)[|Joins(s.log)|..]
  {
    Reachable(steps);
  }

  /** The table is exactly who is in the room, without repetition, so no client is sent a text twice. */
  lemma TableIsTheRoom(steps: seq<Step>, p: int)
    requires Exec(steps).Some?
    ensures var s := Exec(steps).value;
      && |s.table| <= CLIENTS_MAX
      && Distinct(s.table)
      && (p in s.table <==> InRoom(s.log, p))
      && (p in s.table ==> p in Joins(s.log))
  {
    Reachable(steps);
    if InRoom(Exec(steps).value.log, p) { InRoomJoined(Exec(steps).value.log, p); }
  }

  lemma PickedIsDefined(s: State, k: nat)
    requires Known(s) && Ordered(s) && Lowest(s.queue, k)
    ensures Defined(s.queue[k]) && Verdict(s.queue[k]).Some?
    ensures s.queue[k].mtype in {SERVER_MTYPE, HANDSHAKE_MTYPE}
  {
    assert s.queue[k] in s.queue;
    if s.queue[k].mtype == HANDSHAKE_MTYPE { TakenHello(s, k); } else { TakenLine(s, k); }
  }

  /**
    The server never meets a message its code is not defined on, and can always serve the message
    its receive picks, unless that is a handshake and the table is full.
   */
  lemma ServerCanServe(steps: seq<Step>, k: nat)
    requires Exec(steps).Some? && Exec(steps).value.server == Listening
    requires Lowest(Exec(steps).value.queue, k)
    ensures var s := Exec(steps).value;
      && Defined(s.queue[k]) && Verdict(s.queue[k]).Some?
      && (Enabled(s, Take(k)) <==> s.queue[k].mtype == SERVER_MTYPE || |s.table| < CLIENTS_MAX)
  {
    Reachable(steps);
    PickedIsDefined(Exec(steps).value, k);
  }

  lemma {:induction false} FirstIs(queue: seq<Message>, p: int, j: nat) returns (k: nat)
    requires j < |queue| && queue[j].mtype == p
    ensures k <= j && FirstOf(queue, p, k)
  {
    if i: nat :| i < j && queue[i].mtype == p {
      k := FirstIs(queue, p, i);
    } else {
      k := j;
    }
  }

  /** What waits for a client in the queue can be read at any time, whatever else is going on. */
  lemma ClientCanRead(steps: seq<Step>, p: nat, m: Message) returns (k: nat)
    requires Exec(steps).Some? && p in Exec(steps).value.started
    requires m in Exec(steps).value.queue && m.mtype == p
    ensures Enabled(Exec(steps).value, Fetch(p, k))
    ensures Apply(Exec(steps).value, Fetch(p, k)).received[|Exec(steps).value.received|].mtype == p
  {
    var queue := Exec(steps).value.queue;
    var j :| 0 <= j < |queue| && queue[j] == m;
    k := FirstIs(queue, p, j);
  }

  lemma {:induction false} HeardFrom(log: seq<Event>, p: int, t: string) returns (q: int)
    requires t in Heard(log, p)
    ensures q != p && Said(q, t) in Talk(log)
  {
    var front, last := log[..|log| - 1], log[|log| - 1];
    if t in Heard(front, p) { q := HeardFrom(front, p, t); } else { q := last.id; }
  }

  /** Whatever a client reads was said, in just these words, by somebody else. */
  lemma NoEcho(steps: seq<Step>, p: int, t: string) returns (u: Utterance)
    requires Exec(steps).Some? && p > HANDSHAKE_MTYPE
    requires t in TextsOf(Exec(steps).value.received, p)
    ensures u in Exec(steps).value.said && u.pid != p && t == Line(u.pid, u.body) && u.body != SHUTDOWN_CMD
  {
    var s := Exec(steps).value;
    BroadcastsDelivered(steps, p);
    ServedInOrder(steps);
    assert t in Heard(s.log, p);
    var q := HeardFrom(s.log, p, t);
    var i :| 0 <= i < |Talk(s.log)| && Talk(s.log)[i] == Said(q, t);
    assert EventsOf(s.said)[i] == Said(q, t);
    u := s.said[i];
  }

  /** The broadcast loop run to its end without anybody in between. */
  function Finish(s: State): State
    requires s.server.Sending?
    decreases |s.table| - s.server.i
  {
    if s.server.i >= |s.table| then Broadcast(s) else Finish(Broadcast(s))
  }

  /** Then it sends what broadcast_message sends. */
  lemma {:induction false} FinishSends(s: State, before: seq<Message>)
    requires s.server.Sending? && s.server.i <= |s.table|
    requires s.queue == before + Deliveries(s.table[..s.server.i], s.server.origin, s.server.text)
    ensures Finish(s).queue == before + Deliveries(s.table, s.server.origin, s.server.text)
    ensures Finish(s).server == Listening
    decreases |s.table| - s.server.i
  {
    var Sending(origin, text, i) := s.server;
    if i < |s.table| {
      assert s.table[..i + 1][..i] == s.table[..i];
      CatAssoc(before, Deliveries(s.table[..i], origin, text), [Message(s.table[i], text)]);
      FinishSends(Broadcast(s), before);
    } else {
      assert s.table[..i] == s.table;
    }
  }

  // ------------------------------------------- shutdowns that come too early

  /** A line served so far was said after its client's handshake was served exactly if it was served after it. */
  ghost predicate Timely(log: seq<Event>, said: seq<Utterance>) {
    log == [] ||
    var front, last := log[..|log| - 1], log[|log| - 1];
    && Timely(front, said)
    && (!last.Joined? ==>
      var n := |Talk(front)|;
      n < |said| && last == EventOf(said[n]) && (said[n].joined <==> said[n].pid in Joins(front)))
  }

  /** For a line still waiting nothing has changed since it was said: handshakes are served after lines. */
  ghost predicate Unchanged(log: seq<Event>, said: seq<Utterance>) {
    forall n :: |Talk(log)| <= n < |said| ==> (said[n].joined <==> said[n].pid in Joins(log))
  }

  lemma {:induction false} TimelyGrows(log: seq<Event>, said: seq<Utterance>, u: Utterance)
    requires Timely(log, said)
    ensures Timely(log, said + [u])
  {
    if log != [] { TimelyGrows(log[..|log| - 1], said, u); }
  }

  /** A handshake is only taken when no line waits. */
  lemma HandshakesComeLast(s: State, k: nat)
    requires Ordered(s) && Lowest(s.queue, k) && s.queue[k].mtype == HANDSHAKE_MTYPE
    ensures |Talk(s.log)| == |s.said|
  {
    NoTexts(s.queue, SERVER_MTYPE);
  }

  lemma TimelyTake(s: State, k: nat)
    requires Known(s) && Ordered(s) && Timely(s.log, s.said) && Unchanged(s.log, s.said) && Enabled(s, Take(k))
    ensures var t := Apply(s, Take(k)); Timely(t.log, t.said) && Unchanged(t.log, t.said)
  {
    var e := Taken(s, k);
    AfterEvent(s.log, e);
    if s.queue[k].mtype == HANDSHAKE_MTYPE { HandshakesComeLast(s, k); }
  }

  lemma TimelySay(log: seq<Event>, said: seq<Utterance>, u: Utterance)
    requires Timely(log, said) && Unchanged(log, said) && (u.joined <==> u.pid in Joins(log))
    ensures Timely(log, said + [u]) && Unchanged(log, said + [u])
  {
    TimelyGrows(log, said, u);
  }

  /** What a step adds to the histories of what was said and what was served. */
  lemma SaidAfter(s: State, step: Step)
    requires Enabled(s, step)
    ensures Apply(s, step).said ==
      if step.Say? then s.said + [Utterance(step.pid, step.body, step.pid in Joins(s.log))] else s.said
    ensures !step.Take? ==> Apply(s, step).log == s.log
  {
  }

  lemma TimelyStep(s: State, step: Step)
    requires Known(s) && Ordered(s) && Timely(s.log, s.said) && Unchanged(s.log, s.said) && Enabled(s, step)
    ensures var t := Apply(s, step); Timely(t.log, t.said) && Unchanged(t.log, t.said)
  {
    SaidAfter(s, step);
    if step.Take? {
      TimelyTake(s, step.k);
    } else if step.Say? {
      TimelySay(s.log, s.said, Utterance(step.pid, step.body, step.pid in Joins(s.log)));
    }
  }

  lemma {:induction false} AlwaysTimely(steps: seq<Step>)
    requires Exec(steps).Some?
    ensures var s := Exec(steps).value; Timely(s.log, s.said) && Unchanged(s.log, s.said)
  {
    if steps != [] {
      var before := steps[..|steps| - 1];
      AlwaysTimely(before);
      Reachable(before);
      TimelyStep(Exec(before).value, steps[|steps| - 1]);
    }
  }

  /** The server has served a shutdown that client p sent when its handshake had been served. */
  ghost predicate SentInTime(log: seq<Event>, said: seq<Utterance>, p: nat, n: nat) {
    n < |Talk(log)| && n < |said| && said[n] == Utterance(p, SHUTDOWN_CMD, true)
  }

  lemma {:induction false} SentInTimeHadJoined(log: seq<Event>, said: seq<Utterance>, p: nat, n: nat)
    requires Timely(log, said) && SentInTime(log, said, p, n)
    ensures p in Joins(log)
  {
    var front := log[..|log| - 1];
    if n < |Talk(front)| { SentInTimeHadJoined(front, said, p, n); }
  }

  lemma {:induction false} OutOfRoom(log: seq<Event>, said: seq<Utterance>, p: nat)
    requires forall i, j :: 0 <= i < j < |Joins(log)| ==> Joins(log)[i] != Joins(log)[j]
    requires Timely(log, said) && p in Joins(log)
    ensures !InRoom(log, p) <==> exists n: nat :: SentInTime(log, said, p, n)
  {
    var front, last := log[..|log| - 1], log[|log| - 1];
    if last == Joined(p) {
      JustJoined(log, said, p);
    } else {
      assert forall i :: 0 <= i < |Joins(front)| ==> Joins(log)[i] == Joins(front)[i];
      OutOfRoom(front, said, p);
      if last.Joined? {
        forall n: nat ensures SentInTime(log, said, p, n) <==> SentInTime(front, said, p, n) {}
      } else {
        var m := |Talk(front)|;
        assert last == Left(p) <==> SentInTime(log, said, p, m);
        forall n: nat | n != m ensures SentInTime(log, said, p, n) <==> SentInTime(front, said, p, n) {}
      }
    }
  }

  lemma JustJoined(log: seq<Event>, said: seq<Utterance>, p: nat)
    requires forall i, j :: 0 <= i < j < |Joins(log)| ==> Joins(log)[i] != Joins(log)[j]
    requires Timely(log, said) && log != [] && log[|log| - 1] == Joined(p)
    ensures forall n: nat :: !SentInTime(log, said, p, n)
  {
    var front := log[..|log| - 1];
    assert Joins(log) == Joins(front) + [p] && Joins(log)[|Joins(front)|] == p;
    assert p !in Joins(front) by {
      forall i | 0 <= i < |Joins(front)| ensures Joins(front)[i] != p {
        assert Joins(log)[i] != Joins(log)[|Joins(front)|];
      }
    }
    forall n: nat ensures !SentInTime(log, said, p, n) {
      if SentInTime(front, said, p, n) { SentInTimeHadJoined(front, said, p, n); }
    }
  }

  /** When the n-th line was said. */
  lemma {:induction false} WhenSaid(steps: seq<Step>, n: nat) returns (i: nat)
    requires Exec(steps).Some? && n < |Exec(steps).value.said|
    ensures var u := Exec(steps).value.said[n];
      && i < |steps| && steps[i] == Say(u.pid, u.body) && Exec(steps[..i]).Some?
      && |Exec(steps[..i]).value.said| == n
      && (u.joined <==> u.pid in Joins(Exec(steps[..i]).value.log))
  {
    var front := steps[..|steps| - 1];
    SaidAfter(Exec(front).value, steps[|front|]);
    if n < |Exec(front).value.said| {
      i := WhenSaid(front, n);
      assert front[..i] == steps[..i];
    } else {
      i := |front|;
    }
  }

  lemma {:induction false} SaidGrows(steps: seq<Step>, i: nat)
    requires Exec(steps).Some? && i <= |steps|
    ensures Exec(steps[..i]).Some? && Exec(steps[..i]).value.said <= Exec(steps).value.said
  {
    if i < |steps| {
      var front := steps[..|steps| - 1];
      SaidAfter(Exec(front).value, steps[|front|]);
      SaidGrows(front, i);
      assert front[..i] == steps[..i];
    } else {
      assert steps[..i] == steps;
    }
  }

  /** And what came of the i-th step if it was to say something. */
  lemma WhatWasSaid(steps: seq<Step>, i: nat)
    requires Exec(steps).Some? && i < |steps| && steps[i].Say?
    ensures Exec(steps[..i]).Some?
    ensures var s, said := Exec(steps[..i]).value, Exec(steps).value.said;
      && |s.said| < |said|
      && said[|s.said|] == Utterance(steps[i].pid, steps[i].body, steps[i].pid in Joins(s.log))
  {
    var upTo, said := steps[..i + 1], Exec(steps).value.said;
    SaidGrows(steps, i + 1);
    assert upTo[..i] == steps[..i] && upTo[i] == steps[i];
    SaidAfter(Exec(steps[..i]).value, steps[i]);
    assert Exec(upTo).value.said[|Exec(steps[..i]).value.said|] == said[|Exec(steps[..i]).value.said|];
  }

  /**
    The i-th step is a shutdown client p sends in a state in which its handshake has been served,
    and the server has got to it since.
   */
  ghost predicate EffectiveShutdown(steps: seq<Step>, p: nat, i: nat)
    requires Exec(steps).Some?
  {
    && i < |steps| && steps[i] == Say(p, "shutdown") && Exec(steps[..i]).Some?
    && p in Joins(Exec(steps[..i]).value.log)
    && |Exec(steps[..i]).value.said| < |Talk(Exec(steps).value.log)|
  }

  /**
    A client whose handshake was served gets no more broadcasts if and only if the server has got to
    a shutdown that it sent after its handshake was served.  A shutdown sent before that never has
    any effect, however late it is served.
   */
  lemma ShutdownCounts(steps: seq<Step>, p: nat)
    requires Exec(steps).Some? && p in Joins(Exec(steps).value.log)
    ensures p !in Exec(steps).value.table <==> exists i: nat :: EffectiveShutdown(steps, p, i)
  {
    var s := Exec(steps).value;
    Reachable(steps);
    AlwaysTimely(steps);
    OutOfRoom(s.log, s.said, p);
    if n: nat :| SentInTime(s.log, s.said, p, n) {
      var i := WhenSaid(steps, n);
      assert EffectiveShutdown(steps, p, i);
    }
    if i: nat :| EffectiveShutdown(steps, p, i) {
      WhatWasSaid(steps, i);
      assert SentInTime(s.log, s.said, p, |Exec(steps[..i]).value.said|);
    }
  }

  lemma ExecOne(steps: seq<Step>, step: Step)
    requires Exec(steps).Some? && Enabled(Exec(steps).value, step)
    ensures Exec(steps + [step]) == Some(Apply(Exec(steps).value, step))
  {
    assert (steps + [step])[..|steps|] == steps;
  }

  /**
    And that happens: type 10 is lower than type 11, so the server serves a quick shutdown before
    the handshake it follows, and the client is in the table although it asked to leave.
   */
  lemma ShutdownOvertakesHandshake(pid: nat) returns (steps: seq<Step>)
    requires HANDSHAKE_MTYPE < pid <= INT_MAX
    ensures Exec(steps).Some? && Exec(steps).value.queue == []
    ensures Exec(steps).value.said == [Utterance(pid, SHUTDOWN_CMD, false)] && Exec(steps).value.table == [pid]
  {
    steps := [Handshake(pid)];
    ExecOne([], Handshake(pid));
    ShutdownIsUnderstood(pid, Message(SERVER_MTYPE, Line(pid, SHUTDOWN_CMD)));
    ExecOne(steps, Say(pid, SHUTDOWN_CMD));
    steps := steps + [Say(pid, SHUTDOWN_CMD)];
    var hello, line := Message(HANDSHAKE_MTYPE, Hello(pid)), Message(SERVER_MTYPE, Line(pid, SHUTDOWN_CMD));
    ServesShutdownFirst(pid, Exec(steps).value, hello, line);
    ExecOne(steps, Take(1));
    steps := steps + [Take(1)];
    ServesHandshakeNext(pid, Exec(steps).value);
    ExecOne(steps, Take(0));
    steps := steps + [Take(0)];
  }

  lemma ShutdownIsUnderstood(pid: nat, m: Message)
    requires pid <= INT_MAX && m == Message(SERVER_MTYPE, Line(pid, SHUTDOWN_CMD))
    ensures Sayable(pid, SHUTDOWN_CMD) && Defined(m) && Verdict(m) == Some(Left(pid))
  {
    ParseOfLine(pid, SHUTDOWN_CMD);
  }

  lemma ServesShutdownFirst(pid: nat, s: State, hello: Message, line: Message)
    requires HANDSHAKE_MTYPE < pid <= INT_MAX && s.server == Listening && s.table == []
    requires s.queue == [hello, line]
    requires hello.mtype == HANDSHAKE_MTYPE && line == Message(SERVER_MTYPE, Line(pid, SHUTDOWN_CMD))
    ensures Enabled(s, Take(1))
    ensures var t := Apply(s, Take(1));
      t.queue == [hello] && t.server == Listening && t.table == [] && t.said == s.said
  {
    ShutdownIsUnderstood(pid, line);
  }

  lemma ServesHandshakeNext(pid: nat, s: State)
    requires HANDSHAKE_MTYPE < pid <= INT_MAX && s.server == Listening && s.table == []
    requires s.queue == [Message(HANDSHAKE_MTYPE, Hello(pid))]
    ensures Enabled(s, Take(0))
    ensures var t := Apply(s, Take(0)); t.queue == [] && t.table == [pid] && t.said == s.said
  {
    ParseOfHello(pid);
  }

  // ------------------------------------------- nothing is missed in between

  /** The lines of these that somebody other than p said, and that were no shutdowns, as they are sent. */
  function SaidByOthers(us: seq<Utterance>, p: int): seq<string> {
    if us == [] then [] else
      SaidByOthers(us[..|us| - 1], p)
      + if us[|us| - 1].pid != p && us[|us| - 1].body != "shutdown"
        then [Line(us[|us| - 1].pid, us[|us| - 1].body)] else []
  }

  lemma SaidByOthersNext(us: seq<Utterance>, p: int, a: nat, n: nat)
    requires a <= n < |us|
    ensures SaidByOthers(us[a..n + 1], p) == SaidByOthers(us[a..n], p)
      + if us[n].pid != p && us[n].body != "shutdown" then [Line(us[n].pid, us[n].body)] else []
  {
    assert us[a..n + 1][..n - a] == us[a..n];
  }

  lemma {:induction false} JoinsCat(log: seq<Event>, more: seq<Event>)
    ensures Joins(log + more) == Joins(log) + Joins(more)
  {
    if more == [] {
      assert log + more == log;
    } else {
      assert (log + more)[..|log + more| - 1] == log + more[..|more| - 1];
      JoinsCat(log, more[..|more| - 1]);
    }
  }

  /** One more event while client p stays in the room. */
  lemma HeardNext(log: seq<Event>, e: Event, said: seq<Utterance>, p: int)
    requires InRoom(log + [e], p) && e != Joined(p)
    requires |Talk(log + [e])| <= |said| && Talk(log + [e]) == EventsOf(said)[..|Talk(log + [e])|]
    ensures InRoom(log, p) && Talk(log) == EventsOf(said)[..|Talk(log)|]
    ensures var n, m := |Talk(log)|, |Talk(log + [e])|;
      && n <= m <= n + 1
      && Heard(log + [e], p) == Heard(log, p) +
        if m > n && said[n].pid != p && said[n].body != "shutdown" then [Line(said[n].pid, said[n].body)] else []
  {
    AfterEvent(log, e);
    if !e.Joined? {
      assert Talk(log + [e]) == Talk(log) + [e];
      assert EventsOf(said)[|Talk(log)|] == Talk(log + [e])[|Talk(log)|] == e;
    }
    assert forall i :: 0 <= i < |Talk(log)| ==> Talk(log)[i] == Talk(log + [e])[i];
  }

  lemma {:induction false} HeardWhileIn(log: seq<Event>, more: seq<Event>, said: seq<Utterance>, p: int)
    requires InRoom(log + more, p) && p !in Joins(more)
    requires |Talk(log + more)| <= |said| && Talk(log + more) == EventsOf(said)[..|Talk(log + more)|]
    ensures |Talk(log)| <= |Talk(log + more)|
    ensures Heard(log + more, p) ==
      Heard(log, p) + SaidByOthers(said[|Talk(log)|..|Talk(log + more)|], p)
    decreases |more|
  {
    if more == [] {
      assert log + more == log;
    } else {
      var front, e := more[..|more| - 1], more[|more| - 1];
      LastApart(more);
      assert log + more == (log + front) + [e];
      NotJoining(front, e, p);
      HeardNext(log + front, e, said, p);
      HeardWhileIn(log, front, said, p);
      HeardJoin(log, front, e, said, p);
    }
  }

  lemma NotJoining(front: seq<Event>, e: Event, p: int)
    requires p !in Joins(front + [e])
    ensures p !in Joins(front) && e != Joined(p)
  {
    JoinsNext(front, e);
  }

  lemma JoinsNext(front: seq<Event>, e: Event)
    ensures forall q: int :: q in Joins(front + [e]) <==> q in Joins(front) || e == Joined(q)
  {
    AfterEvent(front, e);
  }

  lemma HeardJoin(log: seq<Event>, front: seq<Event>, e: Event, said: seq<Utterance>, p: int)
    requires var a, n, m := |Talk(log)|, |Talk(log + front)|, |Talk((log + front) + [e])|;
      && a <= n <= m <= n + 1 && m <= |said|
      && Heard(log + front, p) == Heard(log, p) + SaidByOthers(said[a..n], p)
      && Heard((log + front) + [e], p) == Heard(log + front, p) +
        if m > n && said[n].pid != p && said[n].body != "shutdown" then [Line(said[n].pid, said[n].body)] else []
    ensures Heard((log + front) + [e], p) ==
      Heard(log, p) + SaidByOthers(said[|Talk(log)|..|Talk((log + front) + [e])|], p)
  {
    hide Heard, Talk, SaidByOthers;
    var a, n := |Talk(log)|, |Talk(log + front)|;
    if |Talk((log + front) + [e])| > n {
      SaidByOthersNext(said, p, a, n);
      CatAssoc(Heard(log, p), SaidByOthers(said[a..n], p),
               if said[n].pid != p && said[n].body != "shutdown" then [Line(said[n].pid, said[n].body)] else []);
    } else {
      assert Heard(log + front, p) + [] == Heard(log + front, p);
    }
  }

  lemma LogAfter(s: State, step: Step)
    requires Enabled(s, step)
    ensures s.log <= Apply(s, step).log
  {
  }

  lemma {:induction false} LogGrows(steps: seq<Step>, i: nat)
    requires Exec(steps).Some? && i <= |steps|
    ensures Exec(steps[..i]).Some? && Exec(steps[..i]).value.log <= Exec(steps).value.log
  {
    if i < |steps| {
      var front := steps[..|steps| - 1];
      LogAfter(Exec(front).value, steps[|front|]);
      LogGrows(front, i);
      assert front[..i] == steps[..i];
    } else {
      assert steps[..i] == steps;
    }
  }

  /** A client joins once: in the room at two moments, it did not join in between. */
  lemma JoinsOnce(s: State, log: seq<Event>, more: seq<Event>, p: int)
    requires Known(s) && Ordered(s) && s.log == log + more && p in Joins(log)
    ensures p !in Joins(more)
  {
    JoinsCat(log, more);
    forall j | 0 <= j < |Joins(more)| ensures Joins(more)[j] != p {
      var i :| 0 <= i < |Joins(log)| && Joins(log)[i] == p;
      assert Joins(s.log)[i] == p && Joins(s.log)[|Joins(log)| + j] == Joins(more)[j];
      assert s.started[i] != s.started[|Joins(log)| + j];
    }
  }

  lemma TalkIsServed(s: State)
    requires Ordered(s)
    ensures |Talk(s.log)| <= |s.said| && Talk(s.log) == EventsOf(s.said)[..|Talk(s.log)|]
  {
  }

  /** What client p has read, will find in the queue, and is owed. */
  function Reaching(s: State, p: int): seq<string> {
    TextsOf(s.received, p) + TextsOf(s.queue, p) + Owed(s, p)
  }

  lemma HeardInBetween(past: State, now: State, p: int)
    requires Known(now) && Ordered(now) && past.log <= now.log && InRoom(past.log, p) && InRoom(now.log, p)
    ensures |Talk(past.log)| <= |Talk(now.log)| <= |now.said|
    ensures Heard(now.log, p) ==
      Heard(past.log, p) + SaidByOthers(now.said[|Talk(past.log)|..|Talk(now.log)|], p)
  {
    var more := now.log[|past.log|..];
    assert now.log == past.log + more;
    TalkIsServed(now);
    InRoomJoined(past.log, p);
    JoinsOnce(now, past.log, more, p);
    HeardWhileIn(past.log, more, now.said, p);
  }

  /**
    Between any two moments at which a client is in the table it gets exactly the lines that others
    have said and the server has come to in between, each once, in that order.
   */
  lemma NothingIsMissed(steps: seq<Step>, i: nat, p: int)
    requires Exec(steps).Some? && i <= |steps| && p > HANDSHAKE_MTYPE
    requires Exec(steps[..i]).Some? && p in Exec(steps[..i]).value.table && p in Exec(steps).value.table
    ensures var past, now := Exec(steps[..i]).value, Exec(steps).value;
      && |Talk(past.log)| <= |Talk(now.log)| <= |now.said|
      && Reaching(now, p) ==
        Reaching(past, p) + SaidByOthers(now.said[|Talk(past.log)|..|Talk(now.log)|], p)
  {
    var past, now := Exec(steps[..i]).value, Exec(steps).value;
    LogGrows(steps, i);
    Reachable(steps);
    TableIsTheRoom(steps[..i], p);
    TableIsTheRoom(steps, p);
    BroadcastsDelivered(steps[..i], p);
    BroadcastsDelivered(steps, p);
    HeardInBetween(Exec(steps[..i]).value, Exec(steps).value, p);
  }
}
