/**
  The client table of the chat server of program 06 and the broadcast over it.
 */
module ChatServer {
  const CLIENTS_MAX: nat := 100

  /** A System V message: its type and its text. */
  datatype Message = Message(mtype: int, text: string)

  /** delete_client on the table's contents: the first entry goes, the others keep their order. */
  function DropFirst(s: seq<int>, id: int): (r: seq<int>)
    ensures id !in s ==> r == s
    ensures id in s ==> |r| == |s| - 1
  {
    if s == [] then [] else if s[0] == id then s[1..] else [s[0]] + DropFirst(s[1..], id)
  }

  lemma {:induction false} DropFirstAt(s: seq<int>, id: int, k: nat)
    requires k < |s| && s[k] == id && id !in s[..k]
    ensures DropFirst(s, id) == s[..k] + s[k + 1..]
  {
    if k > 0 {
      assert s[0] == s[..k][0];
      assert id !in s[1..][..k - 1] by { assert s[1..][..k - 1] == s[..k][1..]; }
      DropFirstAt(s[1..], id, k - 1);
      assert [s[0]] + (s[1..][..k - 1] + s[1..][k..]) == s[..k] + s[k + 1..];
    }
  }

  /** The messages of one broadcast: one for every client in the table but the sender, in table order. */
  function Deliveries(clients: seq<int>, sender: int, text: string): seq<Message> {
    if clients == [] then [] else
      Deliveries(clients[..|clients| - 1], sender, text)
      + if clients[|clients| - 1] == sender then [] else [Message(clients[|clients| - 1], text)]
  }

  class ClientTable {
    const clients: array<int>
    var clientCount: nat

    ghost predicate Valid()
      reads this
    {
      clients.Length == CLIENTS_MAX && clientCount <= CLIENTS_MAX
    }

    ghost function Registered(): seq<int>
      reads this, clients
      requires Valid()
    {
      clients[..clientCount]
    }

    constructor ()
      ensures Valid() && Registered() == [] && fresh(clients)
    {
      clients := new int[CLIENTS_MAX](_ => 0);
      clientCount := 0;
    }

    /** try_add_client; it does not check that there is room. */
    method TryAddClient(id: int)
      requires Valid() && clientCount < CLIENTS_MAX
      modifies this, clients
      ensures Valid() && Registered() == old(Registered()) + [id]
    {
      clients[clientCount] := id;
      clientCount := clientCount + 1;
    }

    /** delete_client: the first entry is cleared, and everything behind it moves up by one. */
    method DeleteClient(id: int)
      requires Valid()
      modifies this, clients
      ensures Valid() && Registered() == DropFirst(old(Registered()), id)
    {
      ghost var was := Registered();
      var i := 0;
      while i < clientCount && clients[i] != id
        invariant i <= clientCount && clients[..] == old(clients[..]) && clientCount == old(clientCount)
        invariant id !in was[..i]
      {
        i := i + 1;
      }
      if i == clientCount {
        assert was[..i] == was;
        return;
      }
      DropFirstAt(was, id, i);
      clients[i] := 0;
      clientCount := clientCount - 1;
      CloseGap(i, was);
      assert Registered() == was[..i] + was[i + 1..];
    }

    /** The shifting loop of delete_client. */
    method CloseGap(idx: nat, ghost was: seq<int>)
      requires Valid() && |was| == clientCount + 1 && idx <= clientCount < CLIENTS_MAX
      requires clients[..idx] == was[..idx] && clients[idx + 1..clientCount + 1] == was[idx + 1..]
      modifies clients
      ensures clients[..clientCount] == was[..idx] + was[idx + 1..]
    {
      var i := idx;
      while i < clientCount
        invariant idx <= i <= clientCount
        invariant clients[..idx] == was[..idx]
        invariant clients[idx..i] == was[idx + 1..i + 1] && clients[i + 1..clientCount + 1] == was[i + 1..]
      {
        ghost var moved := clients[idx..i];
        assert clients[i + 1] == clients[i + 1..clientCount + 1][0] == was[i + 1];
        clients[i] := clients[i + 1];
        assert clients[idx..i + 1] == moved + [was[i + 1]];
        i := i + 1;
      }
      assert clients[..clientCount] == clients[..idx] + clients[idx..clientCount];
    }

    /** broadcast_message: what is put into the queue, message by message. */
    method BroadcastMessage(clientId: int, text: string) returns (sent: seq<Message>)
      requires Valid()
      ensures sent == Deliveries(Registered(), clientId, text)
    {
      sent := [];
      for i := 0 to clientCount
        invariant sent == Deliveries(Registered()[..i], clientId, text)
      {
        assert Registered()[..i + 1][..i] == Registered()[..i];
        if clients[i] == clientId {
          continue;
        }
        sent := sent + [Message(clients[i], text)];
      }
      assert Registered()[..clientCount] == Registered();
    }
  }

  function DeliveriesTo(ms: seq<Message>, pid: int): nat {
    if ms == [] then 0 else DeliveriesTo(ms[..|ms| - 1], pid) + if ms[|ms| - 1].mtype == pid then 1 else 0
  }

  /** A broadcast reaches every registered client once, except the sender, and nobody else. */
  lemma {:induction false} BroadcastReachesOthersOnce(clients: seq<int>, sender: int, text: string, pid: int)
    requires forall i, j :: 0 <= i < j < |clients| ==> clients[i] != clients[j]
    ensures DeliveriesTo(Deliveries(clients, sender, text), pid) ==
      if pid in clients && pid != sender then 1 else 0
  {
    if clients != [] {
      var front, last := clients[..|clients| - 1], clients[|clients| - 1];
      assert clients == front + [last];
      BroadcastReachesOthersOnce(front, sender, text, pid);
      var ms := Deliveries(front, sender, text);
      assert (ms + [Message(last, text)])[..|ms|] == ms;
      assert ms + [] == ms;
    }
  }
}
