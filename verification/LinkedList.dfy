/**
  The circular doubly linked list of program 03 and its iterators.  The list holds pointers to
  contacts; `cmp` decides where a new one goes.  The ghost field `nodes` lists the ring from the
  head on, and everything the operations promise is about that sequence.
 */
module LinkedList {
  import opened ContactOrder
  import opened Sequences

  class Contact {
    var id: int
    var data: Data

    constructor (id: int, data: Data)
      ensures this.id == id && this.data == data
    {
      this.id, this.data := id, data;
    }
  }

  class ListNode {
    var value: Contact
    var prev: ListNode
    var next: ListNode

    constructor (value: Contact)
      ensures this.value == value && prev == this && next == this
    {
      this.value := value;
      prev := this;
      next := this;
    }
  }

  function After(i: nat, n: nat): (j: nat)
    requires i < n
  {
    if i + 1 == n then 0 else i + 1
  }

  function Before(i: nat, n: nat): (j: nat)
    requires i < n
  {
    if i == 0 then n - 1 else i - 1
  }

  /** `next` of the node at `i` and `prev` of the one after it are each other's inverse. */
  ghost predicate Linked(ns: seq<ListNode>, i: nat)
    requires i < |ns|
    reads ns
  {
    var j := After(i, |ns|);
    ns[i].next == ns[j] && ns[j].prev == ns[i]
  }

  ghost predicate Distinct(ns: seq<ListNode>) {
    forall i, j :: 0 <= i < j < |ns| ==> ns[i] != ns[j]
  }

  /** A well-formed ring of distinct nodes. */
  ghost predicate Ring(ns: seq<ListNode>)
    reads ns
  {
    Distinct(ns) && forall i: nat :: i < |ns| ==> Linked(ns, i)
  }

  /** The values the nodes of a ring point to. */
  ghost predicate Holds(ns: seq<ListNode>, vs: seq<Contact>)
    reads ns
  {
    |vs| == |ns| && forall i :: 0 <= i < |ns| ==> ns[i].value == vs[i]
  }

  ghost function Datas(cs: seq<Contact>): (ds: seq<Data>)
    reads cs`data
    ensures |ds| == |cs| && forall i :: 0 <= i < |cs| ==> ds[i] == cs[i].data
  {
    if cs == [] then [] else [cs[0].data] + Datas(cs[1..])
  }

  /** insert_between, where `prev` and `next` are neighbours at position `k` of the ring `ns`. */
  method InsertBetween(prev: ListNode, next: ListNode, insert: ListNode, ghost ns: seq<ListNode>, ghost k: nat)
    requires Ring(ns) && ns != [] && k <= |ns| && insert !in ns
    requires next == ns[if k == |ns| then 0 else k] && prev == ns[if k == 0 then |ns| - 1 else k - 1]
    modifies prev`next, next`prev, insert`prev, insert`next
    ensures Ring(InsertAt(ns, k, insert))
  {
    insert.prev := prev;
    insert.next := next;
    prev.next := insert;
    next.prev := insert;
    ghost var ms := InsertAt(ns, k, insert);
    forall j: nat | j < |ms| ensures Linked(ms, j) {
      if j < k {
        assert old(Linked(ns, j));
      } else if j > k {
        assert old(Linked(ns, j - 1));
      }
    }
  }

  /** The relinking half of remove_node: the neighbours of position `k` are joined. */
  method Unlink(node: ListNode, ghost ns: seq<ListNode>, ghost k: nat)
    requires Ring(ns) && k < |ns| && ns[k] == node && |ns| > 1
    modifies node.prev`next, node.next`prev
    ensures Ring(RemoveAt(ns, k))
  {
    ghost var n := |ns|;
    assert Linked(ns, k) && Linked(ns, Before(k, n));
    var prev := node.prev;
    var next := node.next;
    prev.next := next;
    next.prev := prev;
    ghost var ms := RemoveAt(ns, k);
    forall j: nat | j < |ms| ensures Linked(ms, j) {
      if j < k {
        assert old(Linked(ns, j));
      } else {
        assert old(Linked(ns, j + 1));
      }
    }
  }

  /** Every occurrence of `v` taken out. */
  function Without<T(==)>(s: seq<T>, v: T): (r: seq<T>)
    ensures v !in r && |r| <= |s|
  {
    if s == [] then [] else Without(s[..|s| - 1], v) + if s[|s| - 1] == v then [] else [s[|s| - 1]]
  }

  class List {
    var head: ListNode?
    const cmp: Cmp
    ghost var nodes: seq<ListNode>
    ghost var contents: seq<Contact>
    ghost var repr: set<ListNode>

    ghost predicate Valid()
      reads this, repr
    {
      && (forall i :: 0 <= i < |nodes| ==> nodes[i] in repr)
      && Ring(nodes) && Holds(nodes, contents)
      && if nodes == [] then head == null else head == nodes[0]
    }

    constructor (cmp: Cmp)
      ensures Valid() && contents == [] && repr == {} && this.cmp == cmp
    {
      this.cmp := cmp;
      head := null;
      nodes, contents, repr := [], [], {};
    }

    /** Where list_insert puts a contact. */
    ghost function Place(value: Contact): (k: nat)
      reads this`contents, contents`data, value`data
      ensures k <= |contents|
    {
      Position(cmp, Datas(contents), value.data)
    }

    /** list_insert: before the first element the new one compares below, at the end if there is none. */
    method Insert(value: Contact)
      requires Valid()
      modifies this`head, this`nodes, this`contents, this`repr, repr`prev, repr`next
      ensures Valid() && fresh(repr - old(repr))
      ensures contents == InsertAt(old(contents), old(Place(value)), value)
      ensures nodes == InsertAt(old(nodes), old(Place(value)), nodes[old(Place(value))])
    {
      var node := new ListNode(value);
      if head == null {
        StartRing(node);
      } else if cmp.Compare(value.data, head.value.data) < 0 {
        PositionIs(cmp, Datas(contents), value.data, 0);
        LinkAt(head, node, 0);
        head := node;
      } else {
        InsertBehindHead(node);
      }
    }

    method StartRing(node: ListNode)
      requires Valid() && head == null && node.next == node && node.prev == node
      modifies this`head, this`nodes, this`contents, this`repr
      ensures Valid() && nodes == [node] && contents == [node.value] && repr == old(repr) + {node}
    {
      head := node;
      nodes, contents, repr := [node], [node.value], repr + {node};
      assert Linked(nodes, 0);
    }

    method InsertBehindHead(node: ListNode)
      requires Valid() && nodes != [] && node !in repr
      requires cmp.Compare(node.value.data, contents[0].data) >= 0
      modifies this`nodes, this`contents, this`repr, repr`prev, repr`next, node`prev, node`next
      ensures Valid() && repr == old(repr) + {node}
      ensures nodes == InsertAt(old(nodes), old(Place(node.value)), node)
      ensures contents == InsertAt(old(contents), old(Place(node.value)), node.value)
    {
      var cur := FindPlace(node.value);
      LinkAt(cur, node, Place(node.value));
    }

    /** The search loop of list_insert: the node to insert before; the head again if it ran around. */
    method FindPlace(value: Contact) returns (cur: ListNode)
      requires Valid() && nodes != [] && cmp.Compare(value.data, contents[0].data) >= 0
      ensures 0 < Place(value) <= |nodes|
      ensures cur == nodes[if Place(value) == |nodes| then 0 else Place(value)]
    {
      cur := head;
      ghost var i := 0;
      while cmp.Compare(value.data, cur.value.data) >= 0
        invariant i < |nodes| && cur == nodes[i]
        invariant forall j :: 0 <= j < i ==> cmp.Compare(value.data, contents[j].data) >= 0
        decreases |nodes| - i
      {
        assert Linked(nodes, i);
        cur := cur.next;
        i := i + 1;
        if cur == head { break; }
      }
      PositionIs(cmp, Datas(contents), value.data, i);
    }

    /** Links `node` in before `cur`; the caller moves the head if it must. */
    method LinkAt(cur: ListNode, node: ListNode, ghost k: nat)
      requires Valid() && nodes != [] && k <= |nodes| && cur == nodes[if k == |nodes| then 0 else k]
      requires node !in repr
      modifies this`nodes, this`contents, this`repr, repr`prev, repr`next, node`prev, node`next
      ensures repr == old(repr) + {node} && forall i :: 0 <= i < |nodes| ==> nodes[i] in repr
      ensures Ring(nodes) && Holds(nodes, contents) && nodes == InsertAt(old(nodes), k, node)
      ensures contents == InsertAt(old(contents), k, node.value)
    {
      ghost var ns := nodes;
      assert Linked(ns, if k == 0 then |ns| - 1 else k - 1);
      InsertBetween(cur.prev, cur, node, ns, k);
      nodes, repr := InsertAt(ns, k, node), repr + {node};
      contents := InsertAt(contents, k, node.value);
    }

    /** remove_node of the node at position `k`. */
    method RemoveNode(node: ListNode, ghost k: nat) returns (value: Contact)
      requires Valid() && k < |nodes| && nodes[k] == node
      modifies this`head, this`nodes, this`contents, repr`prev, repr`next
      ensures Valid() && nodes == RemoveAt(old(nodes), k)
      ensures contents == RemoveAt(old(contents), k) && value == old(contents)[k]
    {
      value := node.value;
      ghost var ns := nodes;
      assert Linked(ns, k) && Linked(ns, Before(k, |ns|));
      contents := RemoveAt(contents, k);
      if head == node && node.next == node {
        head := null;
        nodes := [];
        return;
      }
      if head == node {
        head := node.next;
      }
      Unlink(node, ns, k);
      nodes := RemoveAt(ns, k);
    }

    /** The walk of list_remove_value has kept `done` and stands before the elements `todo`. */
    ghost predicate Walking(done: seq<Contact>, todo: seq<Contact>)
      reads this, repr
    {
      Valid() && contents == done + todo
    }

    /** One round of the walk: remember the successor, remove the node if it matches, move on. */
    method WalkStep(cur: ListNode, value: Contact, ghost done: seq<Contact>, ghost todo: seq<Contact>)
      returns (next: ListNode, ghost done': seq<Contact>)
      requires Walking(done, todo) && todo != [] && nodes[|done|] == cur
      requires contents != [value]
      modifies this`head, this`nodes, this`contents, repr`prev, repr`next
      ensures Walking(done', todo[1..]) && done' == if todo[0] == value then done else done + [todo[0]]
      ensures nodes != [] && next == nodes[if todo[1..] == [] then 0 else |done'|]
      ensures next == head <==> todo[1..] == [] || done' == []
    {
      assert Linked(nodes, |done|) && contents[|done|] == todo[0];
      next := cur.next;
      if cur.value == value {
        var _ := RemoveNode(cur, |done|);
        assert RemoveAt(done + todo, |done|) == done + todo[1..];
        done' := done;
      } else {
        done' := done + [todo[0]];
        assert done + todo == done' + todo[1..];
      }
    }

    /**
      list_remove_value.  The walk ends when it meets the head again, so it stops right after
      removing the head; and the only node must not be the one removed, for the walk goes on
      from it.  The result says that there was a list to walk, not that anything was found.
     */
    method RemoveValue(value: Contact) returns (walked: bool)
      requires Valid() && contents != [value]
      modifies this`head, this`nodes, this`contents, repr`prev, repr`next
      ensures Valid() && contents == Removed(old(contents), value)
      ensures walked <==> old(contents) != []
    {
      if head == null { return false; }
      ghost var s := contents;
      var cur := head;
      ghost var done, j := [], 0;
      while true
        invariant j < |s| && Walking(done, s[j..]) && cur == nodes[|done|]
        invariant done == Without(s[..j], value)
        invariant contents != [value] && (j > 0 ==> done != [] && s[0] != value)
        decreases |s| - j
      {
        assert j > 0 ==> done != [value];
        WithoutNext(s, value, j);
        cur, done := WalkStep(cur, value, done, s[j..]);
        TailNext(s, j);
        j := j + 1;
        if cur == head {
          WalkEnds(s, value, j);
          break;
        }
      }
      return true;
    }
  }

  /** Where a walk can end: behind the last element, or right after removing the head. */
  lemma WalkEnds(s: seq<Contact>, value: Contact, j: nat)
    requires 0 < j <= |s| && s != [value]
    requires s[0] == value ==> j == 1
    requires Without(s[..j], value) == [] || j == |s|
    requires j > 1 || s[0] != value ==> Without(s[..j], value) != []
    ensures Without(s[..j], value) + s[j..] == Removed(s, value)
  {
    if s[0] == value {
      assert Without(s[..1], value) == [] by { assert s[..1][..0] == []; }
    } else {
      assert j == |s| && s[..j] == s;
    }
  }

  /** What list_remove_value leaves: without the head if that held `v`, without any `v` otherwise. */
  function Removed<T(==)>(s: seq<T>, v: T): seq<T> {
    if s != [] && s[0] == v then s[1..] else Without(s, v)
  }

  lemma {:induction false} WithoutAbsent<T>(s: seq<T>, v: T)
    ensures Without(s, v) == s <==> v !in s
  {
    if s != [] { WithoutAbsent(s[..|s| - 1], v); }
  }

  lemma {:induction false} WithoutCat<T>(a: seq<T>, b: seq<T>, v: T)
    ensures Without(a + b, v) == Without(a, v) + Without(b, v)
  {
    if b == [] {
      assert a + b == a;
    } else {
      assert (a + b)[..|a + b| - 1] == a + b[..|b| - 1];
      WithoutCat(a, b[..|b| - 1], v);
    }
  }

  lemma TailNext<T>(s: seq<T>, j: nat)
    requires j < |s|
    ensures s[j..][1..] == s[j + 1..]
  {
  }

  lemma WithoutNext<T>(s: seq<T>, v: T, j: nat)
    requires j < |s|
    ensures var w := Without(s[..j], v);
      Without(s[..j + 1], v) == if s[j] == v then w else w + [s[j]]
  {
    assert s[..j + 1][..j] == s[..j];
  }

  lemma CutBehind<T>(s: seq<T>, k: nat)
    requires k < |s|
    ensures s == s[..k + 1] + s[k + 1..]
  {
  }

  lemma WithoutOnce<T>(s: seq<T>, v: T, k: nat)
    requires k < |s| && s[k] == v && v !in s[..k] && v !in s[k + 1..]
    ensures Without(s, v) == RemoveAt(s, k)
  {
    hide Without;
    WithoutAbsent(s[..k], v);
    WithoutNext(s, v, k);
    CutBehind(s, k);
    WithoutCat(s[..k + 1], s[k + 1..], v);
    WithoutAbsent(s[k + 1..], v);
  }

  /** A value held once, wherever, is taken out and nothing else moves. */
  lemma RemovedOnce<T>(s: seq<T>, v: T, k: nat)
    requires k < |s| && s[k] == v && v !in s[..k] && v !in s[k + 1..]
    ensures Removed(s, v) == RemoveAt(s, k)
  {
    hide Without;
    WithoutOnce(s, v, k);
    if k > 0 { assert s[0] == s[..k][0]; }
  }

  /** In a list of distinct values at most one is taken out. */
  lemma RemovedOfDistinct<T>(s: seq<T>, v: T) returns (k: nat)
    requires forall i, j :: 0 <= i < j < |s| ==> s[i] != s[j]
    ensures v !in s ==> Removed(s, v) == s
    ensures v in s ==> k < |s| && s[k] == v && Removed(s, v) == RemoveAt(s, k)
  {
    k := 0;
    if v in s {
      k :| 0 <= k < |s| && s[k] == v;
      RemovedOnce(s, v, k);
    } else {
      WithoutAbsent(s, v);
    }
  }

  /** The walk takes out every occurrence exactly when the head is not one of several. */
  lemma RemovedIsComplete<T>(s: seq<T>, v: T)
    ensures v !in Removed(s, v) <==> !(s != [] && s[0] == v && v in s[1..])
  {
  }

  /** The iterator: a list and the node it stands on; `pos` is where that is. */
  class ListIterator {
    var list: List?
    var current: ListNode?
    ghost var pos: nat

    ghost function Nodes(): set<ListNode>
      reads this, list
    {
      if list == null then {} else list.repr
    }

    ghost predicate Valid()
      reads this, list, Nodes()
    {
      && (list != null ==> list.Valid())
      && (current != null ==> list != null && pos < |list.nodes| && current == list.nodes[pos])
    }

    /** it_begin: a list that does not exist is walked like an empty one. */
    constructor (list: List?)
      requires list != null ==> list.Valid()
      ensures Valid() && this.list == list && pos == 0
      ensures current == null <==> list == null || list.contents == []
    {
      this.list := list;
      current := if list == null then null else list.head;
      pos := 0;
    }

    /** it_has_next. */
    method HasNext() returns (more: bool)
      ensures more <==> current != null
    {
      more := current != null;
    }

    /** it_next: delivers where it stands and steps on; behind the last node it is at its end. */
    method Next() returns (value: Contact?)
      requires Valid()
      modifies this`current, this`pos
      ensures Valid() && (value == null <==> old(current) == null)
      ensures value != null ==>
        && value == list.contents[old(pos)] && pos == old(pos) + 1
        && (current == null <==> pos == |list.contents|)
    {
      if current == null || list == null {
        return null;
      }
      value := current.value;
      assert Linked(list.nodes, pos);
      if current.next == list.head {
        current := null;
      } else {
        current := current.next;
      }
      pos := pos + 1;
    }

    /** it_remove_current: takes the node out and stands on the one after it, which is the head again after the last. */
    method RemoveCurrent() returns (value: Contact?)
      requires Valid()
      modifies this`current, this`pos, list, Nodes()`prev, Nodes()`next
      ensures Valid() && (value == null <==> old(current) == null)
      ensures value != null ==>
        && list.repr == old(list.repr)
        && value == old(list.contents)[old(pos)]
        && list.contents == RemoveAt(old(list.contents), old(pos))
        && pos == (if old(pos) < |list.contents| then old(pos) else 0)
        && (current == null <==> list.contents == [])
    {
      if current == null || list == null {
        return null;
      }
      assert Linked(list.nodes, pos);
      var next := current.next;
      value := list.RemoveNode(current, pos);
      if list.head != null {
        current := next;
      } else {
        current := null;
      }
      pos := if pos < |list.contents| then pos else 0;
    }
  }
}
