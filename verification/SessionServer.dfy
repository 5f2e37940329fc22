/**
  The client table of program 15's server and its event loop, up to the first client that is
  removed.  Any number of clients may be connected, their messages may come in any order, and the
  files they create share one directory.
 */
module SessionServer {
  import opened CStrings
  import opened FileTransfer
  import opened Sequences
  import opened Sessions

  // ------------------------------------------------------------- the table

  /** The length of the table. */
  const MAX_CLIENTS: nat := 100

  datatype Slot = Slot(fd: int, session: Session)

  function Fds(table: seq<Slot>): (r: seq<int>)
    ensures |r| == |table| && forall i :: 0 <= i < |r| ==> r[i] == table[i].fd
  {
    seq(|table|, i requires 0 <= i < |table| => table[i].fd)
  }

  /** get_client_idx. */
  function Lookup(table: seq<Slot>, fd: int): (r: Option<nat>)
    ensures r.None? <==> forall i :: 0 <= i < |table| ==> table[i].fd != fd
    ensures r.Some? ==>
      r.value < |table| && table[r.value].fd == fd && forall i :: 0 <= i < r.value ==> table[i].fd != fd
  {
    IndexOf(Fds(table), fd)
  }

  /** `files` are the files that exist; `over` once a client's status asked for its removal. */
  datatype State = State(table: seq<Slot>, files: set<string>, over: bool)

  /** The client in slot `k` has handled a message. */
  function ServeSlot(pid: nat, s: State, k: nat, bytes: seq<char>): State
    requires k < |s.table| && Defined(s.table[k].session, bytes)
  {
    var was := s.table[k].session;
    var (session, status) := Handle(pid, s.files, was, bytes);
    State(s.table[k := s.table[k].(session := session)], FilesAfter(s.files, was, session), status != StatusOk)
  }

  /** What the clients in their slots look like from outside. */
  ghost function Slots(cs: seq<Client>): (r: seq<Slot>)
    reads cs
    ensures |r| == |cs| && forall i :: 0 <= i < |cs| ==> r[i] == Slot(cs[i].sockfd, cs[i].Value())
  {
    if cs == [] then [] else [Slot(cs[0].sockfd, cs[0].Value())] + Slots(cs[1..])
  }

  lemma OneSlotChanged(cs: seq<Client>, was: seq<Slot>, k: nat)
    requires |was| == |cs| && k < |cs|
    requires forall i :: 0 <= i < |cs| && i != k ==> Slot(cs[i].sockfd, cs[i].Value()) == was[i]
    ensures Slots(cs) == was[k := Slot(cs[k].sockfd, cs[k].Value())]
  {
  }

  /** The element at `k` copied over the last one, which is then dropped: only the last one is gone. */
  function CopiedOverLast<T>(s: seq<T>, k: nat): (r: seq<T>)
    requires k < |s|
    ensures r == s[..|s| - 1]
  {
    s[|s| - 1 := s[k]][..|s| - 1]
  }

  class Server {
    const pid: nat
    const storage: Storage
    var clients: seq<Client>

    ghost predicate Valid()
      reads this
    {
      forall i, j :: 0 <= i < j < |clients| ==> clients[i] != clients[j]
    }

    constructor (pid: nat, storage: Storage)
      ensures Valid() && clients == [] && this.pid == pid && this.storage == storage
    {
      this.pid, this.storage := pid, storage;
      clients := [];
    }

    /** add_client: the next slot, cleared. */
    method AddClient(sockfd: int)
      requires Valid() && |clients| < MAX_CLIENTS
      modifies this
      ensures Valid() && |clients| == |old(clients)| + 1 && fresh(clients[|clients| - 1])
      ensures clients[..|clients| - 1] == old(clients)
      ensures Slots(clients) == old(Slots(clients)) + [Slot(sockfd, NEW_SESSION)]
    {
      hide Slots;
      var client := new Client(sockfd);
      clients := clients + [client];
    }

    method GetClientIdx(sockfd: int) returns (k: int)
      ensures k == if Lookup(Slots(clients), sockfd).Some? then Lookup(Slots(clients), sockfd).value else -1
    {
      for i := 0 to |clients|
        invariant forall j :: 0 <= j < i ==> clients[j].sockfd != sockfd
      {
        if clients[i].sockfd == sockfd {
          return i;
        }
      }
      return -1;
    }

    /** The state of the step system: the slots, the files, and whether an event asked for a removal. */
    ghost function Abstract(over: bool): State
      reads this, storage, clients
    {
      State(Slots(clients), storage.names, over)
    }

    /** The client in slot `k` handles a message; the others are not touched. */
    method Deliver(k: nat, buffer: seq<char>, bytesRead: nat) returns (status: Status)
      requires Valid() && k < |clients| && bytesRead <= |buffer| == MESSAGE_SIZE
      requires Defined(clients[k].Value(), buffer[..bytesRead])
      modifies clients[k], storage
      ensures Abstract(status != StatusOk) == ServeSlot(pid, old(Abstract(false)), k, buffer[..bytesRead])
    {
      ghost var was := Slots(clients);
      status := clients[k].DoStuff(pid, storage, buffer, bytesRead);
      assert forall i :: 0 <= i < |clients| && i != k ==> clients[i].Value() == was[i].session;
      OneSlotChanged(clients, was, k);
    }

    /** One event of the loop on a client's socket, up to the removal its status may ask for: one step. */
    method OnEvent(fd: int, buffer: seq<char>, bytesRead: nat) returns (status: Status)
      requires Valid() && bytesRead <= |buffer| == MESSAGE_SIZE
      requires Enabled(Abstract(false), Data(fd, buffer[..bytesRead]))
      modifies clients, storage
      ensures Abstract(status != StatusOk) == Apply(pid, old(Abstract(false)), Data(fd, buffer[..bytesRead]))
    {
      var k := GetClientIdx(fd);
      status := Deliver(k, buffer, bytesRead);
    }

    /** remove_client: the client is copied over the last one, which then goes. */
    method RemoveClient(fd: int)
      requires Valid() && Lookup(Slots(clients), fd).Some?
      modifies this
      ensures Valid() && clients == old(clients)[..|old(clients)| - 1]
    {
      var idx := GetClientIdx(fd);
      clients := CopiedOverLast(clients, idx);
    }
  }

  /** So the client that goes is the one that was meant exactly if it was the last. */
  lemma RemovesTheRightClient(table: seq<Slot>, k: nat)
    requires k < |table| && forall i, j :: 0 <= i < j < |table| ==> table[i].fd != table[j].fd
    ensures table[..|table| - 1] == RemoveAt(table, k) <==> k == |table| - 1
  {
    var front := table[..|table| - 1];
    if k < |front| {
      assert front[k] != RemoveAt(table, k)[k];
    }
  }

  // -------------------------------------------------------- the event loop

  datatype Event = Accept(fd: int) | Data(fd: int, bytes: seq<char>)

  predicate Enabled(s: State, e: Event) {
    && !s.over
    && match e
       case Accept(fd) => Lookup(s.table, fd).None? && |s.table| < MAX_CLIENTS
       case Data(fd, bytes) =>
         Lookup(s.table, fd).Some? && Defined(s.table[Lookup(s.table, fd).value].session, bytes)
  }

  function Apply(pid: nat, s: State, e: Event): State
    requires Enabled(s, e)
  {
    match e
    case Accept(fd) => s.(table := s.table + [Slot(fd, NEW_SESSION)])
    case Data(fd, bytes) => ServeSlot(pid, s, Lookup(s.table, fd).value, bytes)
  }

  /** The state after a run that ends with the first removal at the latest. */
  function Exec(pid: nat, files: set<string>, events: seq<Event>): Option<State> {
    if events == [] then Some(State([], files, false)) else
      var before := Exec(pid, files, events[..|events| - 1]);
      if before.Some? && Enabled(before.value, events[|events| - 1])
      then Some(Apply(pid, before.value, events[|events| - 1])) else None
  }

  lemma ExecOne(pid: nat, files: set<string>, events: seq<Event>, e: Event)
    requires Exec(pid, files, events).Some? && Enabled(Exec(pid, files, events).value, e)
    ensures Exec(pid, files, events + [e]) == Some(Apply(pid, Exec(pid, files, events).value, e))
  {
    assert (events + [e])[..|events|] == events;
  }

  /** The messages one client has sent. */
  function InputsOf(events: seq<Event>, fd: int): seq<seq<char>> {
    if events == [] then [] else
      InputsOf(events[..|events| - 1], fd)
      + match events[|events| - 1]
        case Accept(_) => []
        case Data(g, bytes) => if g == fd then [bytes] else []
  }

  lemma LookupIs(table: seq<Slot>, fd: int, k: nat)
    requires k < |table| && table[k].fd == fd && forall i :: 0 <= i < k ==> table[i].fd != fd
    ensures Lookup(table, fd) == Some(k)
  {
  }

  // ------------------------------------------------------ the shared files

  /** The file called `name` was created by the client in slot `j`. */
  ghost predicate CreatedBy(table: seq<Slot>, name: string, j: nat) {
    j < |table| && Uploading(table[j].session) && table[j].session.filename == name
  }

  /** Every file was there at the start or was created by exactly one client. */
  ghost predicate Owned(s: State, files: set<string>) {
    && files <= s.files
    && (forall name :: name in s.files && name !in files ==> exists j: nat :: CreatedBy(s.table, name, j))
    && (forall name, j: nat :: CreatedBy(s.table, name, j) ==> name in s.files && name !in files)
    && (forall name, i: nat, j: nat :: CreatedBy(s.table, name, i) && CreatedBy(s.table, name, j) ==> i == j)
  }

  /** What a message does to the file of its client: it stays, or is created under a name not in use. */
  lemma HandleKeepsFile(pid: nat, files: set<string>, s: Session, bytes: seq<char>)
    requires Defined(s, bytes)
    ensures var t := Handle(pid, files, s, bytes).0;
      && (Uploading(s) ==> Uploading(t) && t.filename == s.filename)
      && (Uploading(t) && !Uploading(s) ==> t.filename !in files)
  {
  }

  lemma OwnedAccept(s: State, files: set<string>, fd: int)
    requires Owned(s, files)
    ensures Owned(s.(table := s.table + [Slot(fd, NEW_SESSION)]), files)
  {
    var t := s.table + [Slot(fd, NEW_SESSION)];
    forall name, j: nat ensures CreatedBy(t, name, j) <==> CreatedBy(s.table, name, j) {}
  }

  /** Slot `k` keeps its file, or has none before and afterwards. */
  lemma OwnedKept(s: State, files: set<string>, k: nat, now: Slot)
    requires Owned(s, files) && k < |s.table|
    requires Uploading(now.session) <==> Uploading(s.table[k].session)
    requires Uploading(now.session) ==> now.session.filename == s.table[k].session.filename
    ensures Owned(s.(table := s.table[k := now]), files)
  {
    var t := s.table[k := now];
    forall name, j: nat ensures CreatedBy(t, name, j) <==> CreatedBy(s.table, name, j) {}
  }

  /** Slot `k` creates a file. */
  lemma OwnedCreated(s: State, files: set<string>, k: nat, now: Slot)
    requires Owned(s, files) && k < |s.table| && !Uploading(s.table[k].session)
    requires Uploading(now.session) && now.session.filename !in s.files
    ensures Owned(s.(table := s.table[k := now], files := s.files + {now.session.filename}), files)
  {
    var t := s.table[k := now];
    forall name, j: nat ensures CreatedBy(t, name, j) <==>
      CreatedBy(s.table, name, j) || (j == k && name == now.session.filename) {}
    assert CreatedBy(t, now.session.filename, k);
  }

  lemma OwnedStep(pid: nat, s: State, files: set<string>, e: Event)
    requires Owned(s, files) && Enabled(s, e)
    ensures Owned(Apply(pid, s, e), files)
  {
    match e
    case Accept(fd) => OwnedAccept(s, files, fd);
    case Data(fd, bytes) =>
      var k := Lookup(s.table, fd).value;
      var was, now := s.table[k].session, Handle(pid, s.files, s.table[k].session, bytes).0;
      HandleKeepsFile(pid, s.files, was, bytes);
      if Uploading(now) && !Uploading(was) {
        OwnedCreated(s, files, k, Slot(fd, now));
      } else {
        OwnedKept(s, files, k, Slot(fd, now));
      }
  }

  /** No two clients ever write the same file, and none writes one that was there at the start. */
  lemma {:induction false} FilesAreOwned(pid: nat, files: set<string>, events: seq<Event>)
    requires Exec(pid, files, events).Some?
    ensures Owned(Exec(pid, files, events).value, files)
  {
    if events != [] {
      var front := events[..|events| - 1];
      FilesAreOwned(pid, files, front);
      OwnedStep(pid, Exec(pid, files, front).value, files, events[|events| - 1]);
    }
  }

  // ------------------------------------------------------ independence

  /** Client `fd` is as its own messages `inputs` alone would have left it, and known if it has sent any. */
  ghost predicate OwnDoing(pid: nat, files: set<string>, s: State, inputs: seq<seq<char>>, fd: int) {
    match Lookup(s.table, fd)
    case None => inputs == []
    case Some(k) =>
      var alone := Alone(pid, files, inputs);
      alone.Some? && alone.value.0 == s.table[k].session && (alone.value.1 != StatusOk ==> s.over)
  }

  /**
    In this state the message is a header of client `fd` that names a file which another client has
    created since the start.
   */
  ghost predicate Taken(pid: nat, s: State, fd: int, bytes: seq<char>) {
    && Lookup(s.table, fd).Some? && s.table[Lookup(s.table, fd).value].session.phase == FileWaitName
    && Wanted(pid, bytes).Some? && exists j: nat :: CreatedBy(s.table, Wanted(pid, bytes).value, j)
  }

  /** The i-th event is such a message. */
  ghost predicate RefusedAt(pid: nat, files: set<string>, events: seq<Event>, fd: int, i: nat) {
    && i < |events| && events[i].Data? && events[i].fd == fd
    && Exec(pid, files, events[..i]).Some? && Taken(pid, Exec(pid, files, events[..i]).value, fd, events[i].bytes)
  }

  ghost predicate Refused(pid: nat, files: set<string>, events: seq<Event>, fd: int) {
    exists i: nat :: RefusedAt(pid, files, events, fd, i)
  }

  lemma RefusedSnoc(pid: nat, files: set<string>, events: seq<Event>, e: Event, fd: int)
    requires Exec(pid, files, events).Some?
    ensures Refused(pid, files, events + [e], fd) <==>
      Refused(pid, files, events, fd)
      || (e.Data? && e.fd == fd && Taken(pid, Exec(pid, files, events).value, fd, e.bytes))
  {
    var all, n := events + [e], |events|;
    assert all[..n] == events;
    assert RefusedAt(pid, files, all, fd, n) <==>
      e.Data? && e.fd == fd && Taken(pid, Exec(pid, files, events).value, fd, e.bytes);
    forall i: nat | i != n ensures RefusedAt(pid, files, all, fd, i) <==> RefusedAt(pid, files, events, fd, i) {
      if i < n { assert all[..i] == events[..i]; }
    }
  }

  /** The shared directory matters to a message exactly if the file it wants to create is taken. */
  lemma Outcome(pid: nat, files: set<string>, s: State, fd: int, bytes: seq<char>)
    requires Owned(s, files) && Enabled(s, Data(fd, bytes))
    ensures var session := s.table[Lookup(s.table, fd).value].session;
      var here, alone := Handle(pid, s.files, session, bytes), Handle(pid, files, session, bytes);
      if Taken(pid, s, fd, bytes) then here.1 == StatusFatal && here.0 != alone.0 else here == alone
  {
    var session := s.table[Lookup(s.table, fd).value].session;
    if session.phase == FileWaitName && Wanted(pid, bytes).Some? {
      var name := Wanted(pid, bytes).value;
      assert name in s.files && name !in files <==> exists j: nat :: CreatedBy(s.table, name, j);
    }
  }

  lemma InputsSnoc(events: seq<Event>, e: Event, fd: int)
    ensures InputsOf(events + [e], fd) == InputsOf(events, fd) + if e.Data? && e.fd == fd then [e.bytes] else []
  {
    assert (events + [e])[..|events|] == events;
  }

  lemma OwnMessage(pid: nat, files: set<string>, s: State, inputs: seq<seq<char>>, bytes: seq<char>, fd: int)
    requires Owned(s, files) && OwnDoing(pid, files, s, inputs, fd) && Enabled(s, Data(fd, bytes))
    ensures OwnDoing(pid, files, Apply(pid, s, Data(fd, bytes)), inputs + [bytes], fd) <==> !Taken(pid, s, fd, bytes)
  {
    Outcome(pid, files, s, fd, bytes);
    AloneNext(pid, files, inputs, bytes);
    LookupIs(Apply(pid, s, Data(fd, bytes)).table, fd, Lookup(s.table, fd).value);
  }

  /** An event of another client leaves this client's slot where and as it was. */
  lemma OthersKeepSlot(pid: nat, s: State, e: Event, fd: int)
    requires Enabled(s, e) && e.fd != fd
    ensures var t := Apply(pid, s, e);
      && Lookup(t.table, fd) == Lookup(s.table, fd)
      && (Lookup(s.table, fd).Some? ==> t.table[Lookup(s.table, fd).value] == s.table[Lookup(s.table, fd).value])
  {
    if Lookup(s.table, fd).Some? {
      LookupIs(Apply(pid, s, e).table, fd, Lookup(s.table, fd).value);
    }
  }

  lemma OtherEvent(pid: nat, files: set<string>, s: State, inputs: seq<seq<char>>, e: Event, fd: int)
    requires OwnDoing(pid, files, s, inputs, fd) && Enabled(s, e) && !(e.Data? && e.fd == fd)
    ensures OwnDoing(pid, files, Apply(pid, s, e), inputs, fd)
  {
    if e.fd != fd {
      OthersKeepSlot(pid, s, e, fd);
    } else {
      LookupIs(Apply(pid, s, e).table, fd, |s.table|);
    }
  }

  /** A refused header ends the run. */
  lemma {:induction false} NotRefusedBefore(pid: nat, files: set<string>, events: seq<Event>, fd: int)
    requires Exec(pid, files, events).Some? && !Exec(pid, files, events).value.over
    ensures !Refused(pid, files, events, fd)
  {
    if events != [] {
      var front, last := events[..|events| - 1], events[|events| - 1];
      NotRefusedBefore(pid, files, front, fd);
      FilesAreOwned(pid, files, front);
      assert events == front + [last];
      RefusedSnoc(pid, files, front, last, fd);
      if last.Data? { Outcome(pid, files, Exec(pid, files, front).value, last.fd, last.bytes); }
    }
  }

  lemma IndependentStep(pid: nat, files: set<string>, s: State, inputs: seq<seq<char>>, e: Event, fd: int)
    requires Owned(s, files) && Enabled(s, e) && OwnDoing(pid, files, s, inputs, fd)
    ensures OwnDoing(pid, files, Apply(pid, s, e), inputs + (if e.Data? && e.fd == fd then [e.bytes] else []), fd)
      <==> !(e.Data? && e.fd == fd && Taken(pid, s, fd, e.bytes))
  {
    if e.Data? && e.fd == fd {
      OwnMessage(pid, files, s, inputs, e.bytes, fd);
    } else {
      OtherEvent(pid, files, s, inputs, e, fd);
      assert inputs + [] == inputs;
    }
  }

  /** Client `fd` has been left alone, as far as it can tell. */
  ghost predicate Undisturbed(pid: nat, files: set<string>, events: seq<Event>, fd: int)
    requires Exec(pid, files, events).Some?
  {
    OwnDoing(pid, files, Exec(pid, files, events).value, InputsOf(events, fd), fd)
  }

  lemma UndisturbedSnoc(pid: nat, files: set<string>, events: seq<Event>, e: Event, fd: int)
    requires Exec(pid, files, events).Some? && Enabled(Exec(pid, files, events).value, e)
    requires Undisturbed(pid, files, events, fd)
    ensures Exec(pid, files, events + [e]).Some?
    ensures Undisturbed(pid, files, events + [e], fd) <==>
      !(e.Data? && e.fd == fd && Taken(pid, Exec(pid, files, events).value, fd, e.bytes))
  {
    FilesAreOwned(pid, files, events);
    InputsSnoc(events, e, fd);
    ExecOne(pid, files, events, e);
    IndependentStep(pid, files, Exec(pid, files, events).value, InputsOf(events, fd), e, fd);
  }

  /**
    When sessions are independent: after any interleaving of any clients' messages, up to and
    including the first that ends a session, a client's state, replies and file are those of a
    server with only that client if and only if the client has not sent a header that named, at that
    moment, a file another client had created.
   */
  lemma {:induction false} NoInterference(pid: nat, files: set<string>, events: seq<Event>, fd: int)
    requires Exec(pid, files, events).Some?
    ensures Undisturbed(pid, files, events, fd) <==> !Refused(pid, files, events, fd)
  {
    if events != [] {
      hide Undisturbed, Refused, Taken;
      var front, last := events[..|events| - 1], events[|events| - 1];
      LastApart(events);
      NoInterference(pid, files, front, fd);
      NotRefusedBefore(pid, files, front, fd);
      RefusedSnoc(pid, files, front, last, fd);
      UndisturbedSnoc(pid, files, front, last, fd);
    }
  }

  /** The events of a server that only client `fd` connects to. */
  function RunOf(fd: int, inputs: seq<seq<char>>): seq<Event> {
    if inputs == [] then [Accept(fd)] else RunOf(fd, inputs[..|inputs| - 1]) + [Data(fd, inputs[|inputs| - 1])]
  }

  lemma NotTakenByItself(pid: nat, s: State, fd: int, bytes: seq<char>)
    requires |s.table| == 1 && s.table[0].fd == fd
    ensures Lookup(s.table, fd) == Some(0) && !Taken(pid, s, fd, bytes)
  {
    LookupIs(s.table, fd, 0);
  }

  lemma {:induction false} InputsOfRun(fd: int, inputs: seq<seq<char>>)
    ensures InputsOf(RunOf(fd, inputs), fd) == inputs
  {
    if inputs == [] {
      assert [] + [Accept(fd)] == [Accept(fd)];
      InputsSnoc([], Accept(fd), fd);
    } else {
      var front, last := inputs[..|inputs| - 1], inputs[|inputs| - 1];
      InputsOfRun(fd, front);
      InputsSnoc(RunOf(fd, front), Data(fd, last), fd);
      assert inputs == front + [last];
    }
  }

  /** A server on which client `fd`, alone, has come to this session and status. */
  ghost predicate OnlyClient(s: State, fd: int, session: Session, status: Status) {
    s.table == [Slot(fd, session)] && (s.over <==> status != StatusOk)
  }

  lemma OnlyClientConnects(pid: nat, files: set<string>, fd: int)
    ensures Exec(pid, files, [Accept(fd)]).Some?
    ensures OnlyClient(Exec(pid, files, [Accept(fd)]).value, fd, NEW_SESSION, StatusOk)
  {
    assert [] + [Accept(fd)] == [Accept(fd)];
    ExecOne(pid, files, [], Accept(fd));
  }

  lemma OnlyClientStep(pid: nat, files: set<string>, events: seq<Event>, fd: int, session: Session, bytes: seq<char>)
    requires Exec(pid, files, events).Some? && OnlyClient(Exec(pid, files, events).value, fd, session, StatusOk)
    requires Defined(session, bytes)
    ensures Exec(pid, files, events + [Data(fd, bytes)]).Some?
    ensures var (now, status) := Handle(pid, files, session, bytes);
      OnlyClient(Exec(pid, files, events + [Data(fd, bytes)]).value, fd, now, status)
  {
    var s := Exec(pid, files, events).value;
    NotTakenByItself(pid, s, fd, bytes);
    FilesAreOwned(pid, files, events);
    Outcome(pid, files, s, fd, bytes);
    ExecOne(pid, files, events, Data(fd, bytes));
  }

  lemma {:induction false} RunOfOnlyClient(pid: nat, files: set<string>, fd: int, inputs: seq<seq<char>>)
    requires Alone(pid, files, inputs).Some?
    ensures Exec(pid, files, RunOf(fd, inputs)).Some?
    ensures var (session, status) := Alone(pid, files, inputs).value;
      OnlyClient(Exec(pid, files, RunOf(fd, inputs)).value, fd, session, status)
  {
    if inputs == [] {
      OnlyClientConnects(pid, files, fd);
    } else {
      var front, last := inputs[..|inputs| - 1], inputs[|inputs| - 1];
      RunOfOnlyClient(pid, files, fd, front);
      OnlyClientStep(pid, files, RunOf(fd, front), fd, Alone(pid, files, front).value.0, last);
    }
  }

  /** What a client's messages alone lead to is what such a server does, on a run with just these messages. */
  lemma AloneIsARun(pid: nat, files: set<string>, fd: int, inputs: seq<seq<char>>)
    requires Alone(pid, files, inputs).Some?
    ensures Exec(pid, files, RunOf(fd, inputs)).Some? && InputsOf(RunOf(fd, inputs), fd) == inputs
    ensures var (session, status) := Alone(pid, files, inputs).value;
      OnlyClient(Exec(pid, files, RunOf(fd, inputs)).value, fd, session, status)
  {
    RunOfOnlyClient(pid, files, fd, inputs);
    InputsOfRun(fd, inputs);
  }

  /** A client that chose arithmetic never waits for a header. */
  lemma NeverAwaitsHeader(pid: nat, files: set<string>, events: seq<Event>, fd: int)
    requires Exec(pid, files, events).Some? && !Exec(pid, files, events).value.over
    requires InputsOf(events, fd) != [] ==> InputsOf(events, fd)[0] != [] && InputsOf(events, fd)[0][0] == '1'
    ensures var t := Exec(pid, files, events).value.table;
      Lookup(t, fd).Some? ==> t[Lookup(t, fd).value].session.phase != FileWaitName
  {
    NotRefusedBefore(pid, files, events, fd);
    NoInterference(pid, files, events, fd);
    if Lookup(Exec(pid, files, events).value.table, fd).Some? && InputsOf(events, fd) != [] {
      FirstChoice(pid, files, InputsOf(events, fd), '1');
    }
  }

  lemma LastEventApart(events: seq<Event>, fd: int)
    requires InputsOf(events, fd) != []
    ensures events != [] && events == events[..|events| - 1] + [events[|events| - 1]]
  {
  }

  lemma MathIsNotRefused(pid: nat, files: set<string>, events: seq<Event>, fd: int)
    requires Exec(pid, files, events).Some? && InputsOf(events, fd) != []
    requires InputsOf(events, fd)[0] != [] && InputsOf(events, fd)[0][0] == '1'
    ensures !Refused(pid, files, events, fd)
  {
    LastEventApart(events, fd);
    hide InputsOf, Refused;
    var front, last := events[..|events| - 1], events[|events| - 1];
    InputsSnoc(front, last, fd);
    NeverAwaitsHeader(pid, files, front, fd);
    NotRefusedBefore(pid, files, front, fd);
    RefusedSnoc(pid, files, front, last, fd);
  }

  /**
    An arithmetic session on the shared server: whatever other clients do meanwhile, a client that
    chose it and has sent four messages was told the result of its operation on its numbers.
   */
  lemma MathIsAnswered(pid: nat, files: set<string>, events: seq<Event>, fd: int)
    requires Exec(pid, files, events).Some? && |InputsOf(events, fd)| == 4
    requires InputsOf(events, fd)[0] != [] && InputsOf(events, fd)[0][0] == '1'
    ensures Lookup(Exec(pid, files, events).value.table, fd).Some?
    ensures var t := Exec(pid, files, events).value.table;
      var s, m := t[Lookup(t, fd).value].session, InputsOf(events, fd);
      MathAnswered(s, m) && RightReply(m[2][0], Atoi(m[1]), Atoi(m[3]), s.sent[3])
  {
    MathIsNotRefused(pid, files, events, fd);
    NoInterference(pid, files, events, fd);
    MathSession(pid, files, InputsOf(events, fd));
  }

  /** In plain numbers: two printed ints and an operation between them are answered with the right number. */
  lemma PrintedMathIsAnswered(pid: nat, files: set<string>, events: seq<Event>, fd: int,
                              m0: seq<char>, m1: seq<char>, m2: seq<char>, m3: seq<char>, a: int, b: int)
    requires Exec(pid, files, events).Some? && InputsOf(events, fd) == [m0, m1, m2, m3]
    requires m0 != [] && m0[0] == '1' && Sent(m1, a) && Sent(m3, b)
    ensures Lookup(Exec(pid, files, events).value.table, fd).Some?
    ensures var t := Exec(pid, files, events).value.table;
      Told(t[Lookup(t, fd).value].session, m2, a, b)
  {
    MathIsAnswered(pid, files, events, fd);
    var t := Exec(pid, files, events).value.table;
    AnswerIsTold(t[Lookup(t, fd).value].session, m0, m1, m2, m3, a, b);
  }

  /**
    An upload by send_file to the shared server arrives whole, however it was cut up and whatever
    other clients do meanwhile, unless the name was taken by one of them.
   */
  lemma UploadArrives(pid: nat, files: set<string>, events: seq<Event>, fd: int,
                      m0: seq<char>, dir: string, base: string, source: seq<char>, header: seq<char>, more: Chunks)
    requires Exec(pid, files, events).Some? && InputsOf(events, fd) == [m0, header] + more
    requires Word(base, SLASH) && (dir == [] || dir[|dir| - 1] == '/') && NoneIn(dir + base, COLON)
    requires 0 < |m0| <= MESSAGE_SIZE && m0[0] == '2'
    requires |header| == MESSAGE_SIZE && NUL in header && FileName(pid, base) !in files
    requires CStr(header) == HeaderText(dir + base, |source|) && |source| <= LONG_MAX
    requires Reads(more) && Flatten(more) == source
    requires !Refused(pid, files, events, fd)
    ensures Lookup(Exec(pid, files, events).value.table, fd).Some?
    ensures var t := Exec(pid, files, events).value.table;
      var session := t[Lookup(t, fd).value].session;
      && session.file == source && session.filename == FileName(pid, base)
      && (|base| <= Room(pid) ==> session.filename == "storage/" + Dec(pid) + "-" + base)
  {
    NoInterference(pid, files, events, fd);
    FileSession(pid, files, m0, dir, base, source, header, more);
  }

  // --------------------------------------------------- names that differ

  lemma {:induction false} FdsAreDistinct(pid: nat, files: set<string>, events: seq<Event>)
    requires Exec(pid, files, events).Some?
    ensures var t := Exec(pid, files, events).value.table; forall i, j :: 0 <= i < j < |t| ==> t[i].fd != t[j].fd
  {
    if events != [] { FdsAreDistinct(pid, files, events[..|events| - 1]); }
  }

  /** While a run is not over, every slot is what its client's own messages have made of it. */
  lemma SlotIsOwn(pid: nat, files: set<string>, events: seq<Event>, j: nat)
    requires Exec(pid, files, events).Some? && !Exec(pid, files, events).value.over
    requires j < |Exec(pid, files, events).value.table|
    ensures var slot := Exec(pid, files, events).value.table[j];
      Alone(pid, files, InputsOf(events, slot.fd)) == Some((slot.session, StatusOk))
  {
    var s := Exec(pid, files, events).value;
    var fd := s.table[j].fd;
    FdsAreDistinct(pid, files, events);
    LookupIs(s.table, fd, j);
    NotRefusedBefore(pid, files, events, fd);
    NoInterference(pid, files, events, fd);
    OwnStatusIsOk(pid, files, s, InputsOf(events, fd), fd, j);
  }

  lemma OwnStatusIsOk(pid: nat, files: set<string>, s: State, inputs: seq<seq<char>>, fd: int, j: nat)
    requires OwnDoing(pid, files, s, inputs, fd) && !s.over && Lookup(s.table, fd) == Some(j)
    ensures Alone(pid, files, inputs) == Some((s.table[j].session, StatusOk))
  {
  }

  /** The name in the header a client has sent, if it has sent one. */
  function HeaderName(events: seq<Event>, fd: int): Option<string> {
    if |InputsOf(events, fd)| >= 2 then NameIn(InputsOf(events, fd)[1]) else None
  }

  /** No other client's header names what this one's names, as far as there is room for names. */
  ghost predicate NamesApart(pid: nat, events: seq<Event>, fd: int) {
    forall g: int :: g != fd && HeaderName(events, g).Some? && HeaderName(events, fd).Some? ==>
      !Alike(pid, HeaderName(events, g).value, HeaderName(events, fd).value)
  }

  /** A file in use was named by the header of the client that uploads it. */
  lemma CreatorNamedIt(pid: nat, files: set<string>, events: seq<Event>, name: string, j: nat)
    requires Exec(pid, files, events).Some? && !Exec(pid, files, events).value.over
    requires CreatedBy(Exec(pid, files, events).value.table, name, j)
    ensures j < |Exec(pid, files, events).value.table|
    ensures var fd := Exec(pid, files, events).value.table[j].fd;
      HeaderName(events, fd).Some? && name == FileName(pid, HeaderName(events, fd).value)
  {
    SlotIsOwn(pid, files, events, j);
    OneHeaderOnly(pid, files, InputsOf(events, Exec(pid, files, events).value.table[j].fd));
  }

  /** A client that awaits its header has sent one message, and uploads nothing. */
  lemma AwaitsSecond(pid: nat, files: set<string>, events: seq<Event>, fd: int, k: nat)
    requires Exec(pid, files, events).Some? && !Exec(pid, files, events).value.over
    requires Lookup(Exec(pid, files, events).value.table, fd) == Some(k)
    requires Exec(pid, files, events).value.table[k].session.phase == FileWaitName
    ensures |InputsOf(events, fd)| == 1
    ensures forall name: string, j: nat ::
      CreatedBy(Exec(pid, files, events).value.table, name, j) ==> Exec(pid, files, events).value.table[j].fd != fd
  {
    var t := Exec(pid, files, events).value.table;
    SlotIsOwn(pid, files, events, k);
    OneHeaderOnly(pid, files, InputsOf(events, fd));
    FdsAreDistinct(pid, files, events);
    assert forall j: nat :: j < |t| && t[j].fd == fd ==> j == k;
  }

  lemma WantedIsNamed(pid: nat, bytes: seq<char>)
    ensures Wanted(pid, bytes).Some? <==> NameIn(bytes).Some?
    ensures Wanted(pid, bytes).Some? ==> Wanted(pid, bytes).value == FileName(pid, NameIn(bytes).value)
  {
  }

  /** A second message is the header of its client, and of nobody else. */
  lemma SecondIsHeader(front: seq<Event>, fd: int, g: int, bytes: seq<char>)
    requires |InputsOf(front, fd)| == 1 && g != fd
    ensures HeaderName(front + [Data(fd, bytes)], fd) == NameIn(bytes)
    ensures HeaderName(front + [Data(fd, bytes)], g) == HeaderName(front, g)
  {
    hide NameIn;
    InputsSnoc(front, Data(fd, bytes), fd);
    InputsSnoc(front, Data(fd, bytes), g);
    assert InputsOf(front, g) + [] == InputsOf(front, g);
  }

  lemma TakenMeansAlike(pid: nat, files: set<string>, front: seq<Event>, fd: int, bytes: seq<char>)
    requires Exec(pid, files, front).Some? && !Exec(pid, files, front).value.over
    requires Taken(pid, Exec(pid, files, front).value, fd, bytes)
    ensures !NamesApart(pid, front + [Data(fd, bytes)], fd)
  {
    hide Exec, CreatedBy, HeaderName, InputsOf, Alike, FileName, NameIn, Wanted;
    var s := Exec(pid, files, front).value;
    var name := Wanted(pid, bytes).value;
    var j: nat :| CreatedBy(s.table, name, j);
    AwaitsSecond(pid, files, front, fd, Lookup(s.table, fd).value);
    CreatorNamedIt(pid, files, front, name, j);
    var g := s.table[j].fd;
    SecondIsHeader(front, fd, g, bytes);
    WantedIsNamed(pid, bytes);
    SameFileIffAlike(pid, HeaderName(front, g).value, NameIn(bytes).value);
  }

  /** Clients whose headers name different files never get in each other's way. */
  lemma DifferentNamesNeverRefused(pid: nat, files: set<string>, events: seq<Event>, fd: int)
    requires Exec(pid, files, events).Some? && NamesApart(pid, events, fd)
    ensures !Refused(pid, files, events, fd)
  {
    if events == [] {
    } else {
      hide NamesApart, Taken;
      var front, last := events[..|events| - 1], events[|events| - 1];
      LastApart(events);
      NotRefusedBefore(pid, files, front, fd);
      RefusedSnoc(pid, files, front, last, fd);
      if last.Data? && last.fd == fd && Taken(pid, Exec(pid, files, front).value, fd, last.bytes) {
        TakenMeansAlike(pid, files, front, fd, last.bytes);
      }
    }
  }

  /** The names other clients have sent in their headers fit, and are not this one. */
  ghost predicate NobodyElseNames(pid: nat, events: seq<Event>, fd: int, base: string) {
    forall g: int :: g != fd && HeaderName(events, g).Some? ==>
      HeaderName(events, g).value != base && |HeaderName(events, g).value| <= Room(pid)
  }

  /**
    An upload arrives whole, in "storage/<pid>-<name>", if that file was not there at the start and no
    other client sends a header with the same name, for names that fit.
   */
  lemma OwnNameArrives(pid: nat, files: set<string>, events: seq<Event>, fd: int,
                       m0: seq<char>, dir: string, base: string, source: seq<char>, header: seq<char>, more: Chunks)
    requires Exec(pid, files, events).Some? && InputsOf(events, fd) == [m0, header] + more
    requires Word(base, SLASH) && (dir == [] || dir[|dir| - 1] == '/') && NoneIn(dir + base, COLON)
    requires 0 < |m0| <= MESSAGE_SIZE && m0[0] == '2'
    requires |header| == MESSAGE_SIZE && NUL in header && |base| <= Room(pid)
    requires "storage/" + Dec(pid) + "-" + base !in files
    requires CStr(header) == HeaderText(dir + base, |source|) && |source| <= LONG_MAX
    requires Reads(more) && Flatten(more) == source
    requires NobodyElseNames(pid, events, fd, base)
    ensures Lookup(Exec(pid, files, events).value.table, fd).Some?
    ensures var t := Exec(pid, files, events).value.table;
      var session := t[Lookup(t, fd).value].session;
      session.file == source && session.filename == "storage/" + Dec(pid) + "-" + base
  {
    hide Exec, Refused;
    HeaderRoundTrip(dir, base, |source|);
    assert HeaderName(events, fd) == Some(base);
    FittingNames(pid, base, base);
    DifferentNamesNeverRefused(pid, files, events, fd);
    UploadArrives(pid, files, events, fd, m0, dir, base, source, header, more);
  }

  /** Two clients that both chose a transfer. */
  ghost predicate BothWait(s: State, f: int, g: int) {
    && |s.table| == 2 && s.table[0].fd == f && s.table[1].fd == g && !s.over
    && s.table[0].session == s.table[1].session == NEW_SESSION.(phase := FileWaitName)
  }

  /** An event of the client in slot `k`, when it is known what the message does. */
  lemma DataAt(pid: nat, s: State, fd: int, k: nat, bytes: seq<char>, now: Session)
    requires !s.over && k < |s.table| && s.table[k].fd == fd && forall i :: 0 <= i < k ==> s.table[i].fd != fd
    requires Defined(s.table[k].session, bytes)
    requires Handle(pid, s.files, s.table[k].session, bytes) == (now, StatusOk)
    ensures Enabled(s, Data(fd, bytes))
    ensures Apply(pid, s, Data(fd, bytes)) ==
      State(s.table[k := Slot(fd, now)], FilesAfter(s.files, s.table[k].session, now), false)
  {
    LookupIs(s.table, fd, k);
  }

  lemma ChoosesTransfer(pid: nat, files: set<string>)
    ensures Defined(NEW_SESSION, "2")
    ensures Handle(pid, files, NEW_SESSION, "2") == (NEW_SESSION.(phase := FileWaitName), StatusOk)
  {
  }

  lemma BothConnect(pid: nat, files: set<string>, f: int, g: int)
    requires f != g
    ensures Exec(pid, files, [Accept(f)] + [Accept(g)])
      == Some(State([Slot(f, NEW_SESSION), Slot(g, NEW_SESSION)], files, false))
    ensures InputsOf([Accept(f)] + [Accept(g)], g) == []
  {
    assert [] + [Accept(f)] == [Accept(f)];
    ExecOne(pid, files, [], Accept(f));
    InputsSnoc([], Accept(f), g);
    ExecOne(pid, files, [Accept(f)], Accept(g));
    InputsSnoc([Accept(f)], Accept(g), g);
    assert [] + [Slot(f, NEW_SESSION)] + [Slot(g, NEW_SESSION)] == [Slot(f, NEW_SESSION), Slot(g, NEW_SESSION)];
  }

  lemma FirstWaits(pid: nat, files: set<string>, f: int, g: int) returns (events: seq<Event>)
    requires f != g
    ensures Exec(pid, files, events)
      == Some(State([Slot(f, NEW_SESSION.(phase := FileWaitName)), Slot(g, NEW_SESSION)], files, false))
    ensures InputsOf(events, g) == []
  {
    events := [Accept(f)] + [Accept(g)];
    ChoosesTransfer(pid, files);
    BothConnect(pid, files, f, g);
    var waiting := NEW_SESSION.(phase := FileWaitName);
    DataAt(pid, Exec(pid, files, events).value, f, 0, "2", waiting);
    assert [Slot(f, NEW_SESSION), Slot(g, NEW_SESSION)][0 := Slot(f, waiting)]
      == [Slot(f, waiting), Slot(g, NEW_SESSION)];
    ExecOne(pid, files, events, Data(f, "2"));
    InputsSnoc(events, Data(f, "2"), g);
    events := events + [Data(f, "2")];
  }

  lemma BothCanWait(pid: nat, files: set<string>, f: int, g: int) returns (events: seq<Event>)
    requires f != g
    ensures Exec(pid, files, events).Some? && BothWait(Exec(pid, files, events).value, f, g)
    ensures Exec(pid, files, events).value.files == files && InputsOf(events, g) == ["2"]
  {
    events := FirstWaits(pid, files, f, g);
    ChoosesTransfer(pid, files);
    DataAt(pid, Exec(pid, files, events).value, g, 1, "2", NEW_SESSION.(phase := FileWaitName));
    ExecOne(pid, files, events, Data(g, "2"));
    InputsSnoc(events, Data(g, "2"), g);
    events := events + [Data(g, "2")];
  }

  lemma OpensFile(pid: nat, files: set<string>, waiting: Session, header: seq<char>, name: string)
    requires waiting.phase == FileWaitName && |header| <= MESSAGE_SIZE && NUL in header
    requires Wanted(pid, header) == Some(name) && name !in files
    ensures Defined(waiting, header)
    ensures var (now, status) := Handle(pid, files, waiting, header);
      status == StatusOk && Uploading(now) && now.filename == name
  {
  }

  lemma FirstOpens(pid: nat, s: State, f: int, g: int, header: seq<char>, name: string) returns (now: Session)
    requires f != g && BothWait(s, f, g) && |header| <= MESSAGE_SIZE && NUL in header
    requires Wanted(pid, header) == Some(name) && name !in s.files
    ensures Enabled(s, Data(f, header)) && Uploading(now) && now.filename == name
    ensures Apply(pid, s, Data(f, header)) == State([Slot(f, now), s.table[1]], s.files + {name}, false)
  {
    now := Handle(pid, s.files, s.table[0].session, header).0;
    OpensFile(pid, s.files, s.table[0].session, header, name);
    DataAt(pid, s, f, 0, header, now);
    assert s.table[0 := Slot(f, now)] == [Slot(f, now), s.table[1]];
  }

  lemma SecondFindsItTaken(pid: nat, s: State, g: int, header: seq<char>, name: string)
    requires !s.over && |s.table| == 2 && s.table[0].fd != g && s.table[1].fd == g
    requires s.table[1].session.phase == FileWaitName && CreatedBy(s.table, name, 0)
    requires |header| <= MESSAGE_SIZE && NUL in header && Wanted(pid, header) == Some(name)
    ensures Enabled(s, Data(g, header)) && Taken(pid, s, g, header)
  {
    LookupIs(s.table, g, 1);
  }

  lemma FirstTakesName(pid: nat, files: set<string>, f: int, g: int, header: seq<char>) returns (events: seq<Event>)
    requires f != g && |header| <= MESSAGE_SIZE && NUL in header
    requires Wanted(pid, header).Some? && Wanted(pid, header).value !in files
    ensures Exec(pid, files, events).Some? && InputsOf(events, g) == ["2"]
    ensures var s := Exec(pid, files, events).value; Enabled(s, Data(g, header)) && Taken(pid, s, g, header)
  {
    var name := Wanted(pid, header).value;
    events := BothCanWait(pid, files, f, g);
    var now := FirstOpens(pid, Exec(pid, files, events).value, f, g, header, name);
    ExecOne(pid, files, events, Data(f, header));
    InputsSnoc(events, Data(f, header), g);
    events := events + [Data(f, header)];
    assert CreatedBy(Exec(pid, files, events).value.table, name, 0);
    SecondFindsItTaken(pid, Exec(pid, files, events).value, g, header, name);
  }

  /**
    So sessions do interfere: of two clients that send the same file name to a server without that
    file, the second is turned away although alone it would be served.
   */
  lemma SecondIsTurnedAway(pid: nat, files: set<string>, f: int, g: int, header: seq<char>) returns (events: seq<Event>)
    requires f != g && |header| <= MESSAGE_SIZE && NUL in header
    requires Wanted(pid, header).Some? && Wanted(pid, header).value !in files
    ensures Exec(pid, files, events).Some? && InputsOf(events, g) == ["2"] + [header]
    ensures Refused(pid, files, events, g)
    ensures !Undisturbed(pid, files, events, g)
  {
    var before := FirstTakesName(pid, files, f, g, header);
    TurnsAway(pid, files, before, g, header);
    InputsSnoc(before, Data(g, header), g);
    events := before + [Data(g, header)];
  }

  /** Such headers exist: every client's own. */
  lemma EveryHeaderWants(pid: nat, dir: string, base: string, size: nat, rest: seq<char>)
    requires Word(base, SLASH) && (dir == [] || dir[|dir| - 1] == '/') && NoneIn(dir + base, COLON)
    requires size <= LONG_MAX && NUL !in dir + base
    ensures Wanted(pid, HeaderText(dir + base, size) + [NUL] + rest) == Some(FileName(pid, base))
  {
    HeaderRoundTrip(dir, base, size);
    HeaderHasNoNul(dir + base, size);
    CStrOf(HeaderText(dir + base, size), rest);
  }

  lemma TurnsAway(pid: nat, files: set<string>, events: seq<Event>, g: int, header: seq<char>)
    requires Exec(pid, files, events).Some? && Enabled(Exec(pid, files, events).value, Data(g, header))
    requires Taken(pid, Exec(pid, files, events).value, g, header)
    ensures var all := events + [Data(g, header)];
      && Exec(pid, files, all).Some? && Refused(pid, files, all, g)
      && !Undisturbed(pid, files, all, g)
  {
    ExecOne(pid, files, events, Data(g, header));
    RefusedSnoc(pid, files, events, Data(g, header), g);
    NoInterference(pid, files, events + [Data(g, header)], g);
  }
}
