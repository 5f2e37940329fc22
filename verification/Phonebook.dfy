/**
  The contact store of program 03 on top of its list: ids, size, lookup, removal, and the dump
  and load of the data file.  A contact record on disk is an `Entry`.
 */
module Phonebook {
  import opened ContactOrder
  import opened LinkedList
  import opened Sequences

  datatype Entry = Entry(id: int, data: Data)

  /** The records of contacts, in order. */
  ghost predicate Mirrors(cs: seq<Contact>, es: seq<Entry>)
    reads cs`id, cs`data
  {
    |es| == |cs| && forall i :: 0 <= i < |cs| ==> es[i] == Entry(cs[i].id, cs[i].data)
  }

  /** Distinct ids between 1 and the next one to hand out. */
  ghost predicate HandedOut(es: seq<Entry>, nextid: int) {
    && nextid >= 1
    && (forall i :: 0 <= i < |es| ==> 1 <= es[i].id < nextid)
    && (forall i, j :: 0 <= i < j < |es| ==> es[i].id != es[j].id)
  }

  lemma HandOutNext(es: seq<Entry>, nextid: int, d: Data)
    requires HandedOut(es, nextid)
    ensures HandedOut(AddOne(es, nextid, d), nextid + 1)
  {
  }

  lemma HandedOutRemoveAt(es: seq<Entry>, k: nat, nextid: int)
    requires HandedOut(es, nextid) && k < |es|
    ensures HandedOut(RemoveAt(es, k), nextid)
  {
  }

  lemma MirrorsRemoveAt(cs: seq<Contact>, es: seq<Entry>, k: nat)
    requires Mirrors(cs, es) && k < |cs|
    ensures Mirrors(RemoveAt(cs, k), RemoveAt(es, k))
  {
  }

  lemma MirrorsSnoc(cs: seq<Contact>, es: seq<Entry>, n: nat)
    requires n < |cs| && Mirrors(cs[..n], es)
    ensures Mirrors(cs[..n + 1], es + [Entry(cs[n].id, cs[n].data)])
  {
  }

  lemma MirrorsDistinct(cs: seq<Contact>, es: seq<Entry>, nextid: int)
    requires Mirrors(cs, es) && HandedOut(es, nextid)
    ensures forall i, j :: 0 <= i < j < |cs| ==> cs[i] != cs[j]
  {
    forall i, j | 0 <= i < j < |cs| ensures cs[i] != cs[j] {
      assert es[i].id != es[j].id;
    }
  }

  /** The records are sorted by last name. */
  ghost predicate Ordered(es: seq<Entry>) {
    Sorted(DatasOf(es))
  }

  lemma OrderedRemoveAt(es: seq<Entry>, k: nat)
    requires Ordered(es) && k < |es|
    ensures Ordered(RemoveAt(es, k))
  {
  }

  lemma OrderedAddOne(es: seq<Entry>, id: int, d: Data)
    requires Ordered(es)
    ensures Ordered(AddOne(es, id, d))
  {
    DatasOfAddOne(es, id, d);
    InsertSorted(DatasOf(es), d);
  }

  lemma {:induction false} OrderedAddAll(es: seq<Entry>, id: int, file: seq<Entry>, i: nat)
    requires Ordered(es) && i <= |file|
    ensures Ordered(AddAll(es, id, file, i))
    decreases |file| - i
  {
    if i < |file| {
      OrderedAddOne(es, id, file[i].data);
      OrderedAddAll(AddOne(es, id, file[i].data), id + 1, file, i + 1);
    }
  }

  lemma OrderKept(es: seq<Entry>, id: int, d: Data)
    ensures Ordered(es) ==> Ordered(AddOne(es, id, d))
  {
    if Ordered(es) { OrderedAddOne(es, id, d); }
  }

  lemma OrderKeptByAll(es: seq<Entry>, id: int, file: seq<Entry>)
    ensures Ordered(es) ==> Ordered(AddAll(es, id, file, 0))
  {
    if Ordered(es) { OrderedAddAll(es, id, file, 0); }
  }

  /** The records after a removal: one less if the contact was there, the same otherwise. */
  lemma RemovedEntries(cs: seq<Contact>, es: seq<Entry>, contact: Contact, nextid: int) returns (es': seq<Entry>)
    requires Mirrors(cs, es) && HandedOut(es, nextid)
    ensures Mirrors(Removed(cs, contact), es') && HandedOut(es', nextid)
    ensures Ordered(es) ==> Ordered(es')
    ensures |Removed(cs, contact)| == if contact in cs then |cs| - 1 else |cs|
  {
    MirrorsDistinct(cs, es, nextid);
    var k := RemovedOfDistinct(cs, contact);
    es' := es;
    if contact in cs {
      es' := RemoveAt(es, k);
      MirrorsRemoveAt(cs, es, k);
      HandedOutRemoveAt(es, k, nextid);
      if Ordered(es) { OrderedRemoveAt(es, k); }
    }
  }

  function DatasOf(es: seq<Entry>): (ds: seq<Data>)
    ensures |ds| == |es| && forall i :: 0 <= i < |es| ==> ds[i] == es[i].data
  {
    seq(|es|, i requires 0 <= i < |es| => es[i].data)
  }

  lemma MirrorsDatas(cs: seq<Contact>, es: seq<Entry>)
    requires Mirrors(cs, es)
    ensures Datas(cs) == DatasOf(es)
  {
  }

  /** The store's entries after one more contact was added. */
  function AddOne(es: seq<Entry>, id: int, d: Data): seq<Entry> {
    InsertAt(es, Position(ByLastname, DatasOf(es), d), Entry(id, d))
  }

  /** The store's entries after the records of a file from the i-th on were added, the next under id `id`. */
  function AddAll(es: seq<Entry>, id: int, file: seq<Entry>, i: nat): seq<Entry>
    requires i <= |file|
    decreases |file| - i
  {
    if i == |file| then es else AddAll(AddOne(es, id, file[i].data), id + 1, file, i + 1)
  }

  lemma AddAllDone(es: seq<Entry>, id: int, file: seq<Entry>)
    ensures AddAll(es, id, file, |file|) == es
  {
  }

  lemma AddAllNext(es: seq<Entry>, id: int, file: seq<Entry>, i: nat, d: Data)
    requires i < |file| && d == file[i].data
    ensures AddAll(es, id, file, i) == AddAll(AddOne(es, id, d), id + 1, file, i + 1)
  {
  }

  /** Gives a contact its id; the contacts it is put between keep theirs. */
  method Number(contact: Contact, id: int, ghost was: seq<Contact>, ghost es: seq<Entry>)
    requires Mirrors(was, es) && contact !in was
    modifies contact`id
    ensures contact.id == id
    ensures var k := Position(ByLastname, DatasOf(es), contact.data);
      Mirrors(InsertAt(was, k, contact), AddOne(es, id, contact.data))
  {
    contact.id := id;
  }

  class ContactStorage {
    var list: List?
    var size: int
    var nextid: int
    ghost var entries: seq<Entry>

    ghost function Nodes(): set<ListNode>
      reads this`list, list
    {
      if list == null then {} else list.repr
    }

    ghost function Contents(): seq<Contact>
      reads this`list, list
    {
      if list == null then [] else list.contents
    }

    /** The list is a well-formed ring that compares last names. */
    ghost predicate Listed()
      reads this`list, list, Nodes()
    {
      list != null ==> list.Valid() && list.cmp == ByLastname
    }

    /** The size is the list's length. */
    ghost predicate Counted()
      reads this`list, this`size, list, Nodes()
    {
      Listed() && size == |Contents()|
    }

    /** The contacts are those recorded in `entries`; their ids were all handed out by this store. */
    ghost predicate Numbered()
      reads this`list, this`entries, this`nextid, list, Contents()`id, Contents()`data
    {
      Mirrors(Contents(), entries) && HandedOut(entries, nextid)
    }

    /** The contacts stand in the order of their last names. */
    ghost predicate InOrder()
      reads this`entries
    {
      Ordered(entries)
    }

    /** create_storage. */
    constructor ()
      ensures Counted() && Numbered() && InOrder() && entries == [] && nextid == 1 && list == null
    {
      list := null;
      size := 0;
      nextid := 1;
      entries := [];
    }

    /** add_contact: the contact gets the next id and goes where its last name belongs. */
    method AddContact(contact: Contact)
      requires Counted() && Numbered() && contact !in Contents()
      modifies this, list, Nodes()`prev, Nodes()`next, contact`id
      ensures Counted() && Numbered() && fresh(Nodes() - old(Nodes()))
      ensures list != null && (list == old(list) || fresh(list))
      ensures contact.id == old(nextid) && nextid == old(nextid) + 1
      ensures entries == AddOne(old(entries), old(nextid), old(contact.data))
      ensures old(InOrder()) ==> InOrder() && Alphabetical(DatasOf(entries))
    {
      OrderKept(entries, nextid, contact.data);
      Enter(contact);
      SortedIsAlphabetical(DatasOf(entries));
    }

    /** The work of add_contact: the list is created on first use; the id comes after the insertion. */
    method Enter(contact: Contact)
      requires Counted() && Numbered() && contact !in Contents()
      modifies this, list, Nodes()`prev, Nodes()`next, contact`id
      ensures Counted() && Numbered() && fresh(Nodes() - old(Nodes()))
      ensures list != null && (list == old(list) || fresh(list))
      ensures contact.id == old(nextid) && nextid == old(nextid) + 1
      ensures entries == AddOne(old(entries), old(nextid), old(contact.data))
    {
      hide AddOne, Mirrors, HandedOut, InsertAt, Position;
      MirrorsDatas(Contents(), entries);
      InsertIntoList(contact);
      Register(contact, old(Contents()));
    }

    /** The second half of add_contact: the id and the counters. */
    method Register(contact: Contact, ghost was: seq<Contact>)
      requires Listed() && size == |was|
      requires Mirrors(was, entries) && HandedOut(entries, nextid) && contact !in was
      requires Contents() == InsertAt(was, Position(ByLastname, DatasOf(entries), contact.data), contact)
      modifies this`nextid, this`size, this`entries, contact`id
      ensures Counted() && Numbered()
      ensures contact.id == old(nextid) && nextid == old(nextid) + 1
      ensures entries == AddOne(old(entries), old(nextid), contact.data)
    {
      HandOutNext(entries, nextid, contact.data);
      Number(contact, nextid, was, entries);
      entries := AddOne(entries, nextid, contact.data);
      nextid := nextid + 1;
      size := size + 1;
    }

    /** The first half of add_contact. */
    method InsertIntoList(contact: Contact)
      requires Listed()
      modifies this`list, list, Nodes()`prev, Nodes()`next
      ensures list != null && Listed() && fresh(Nodes() - old(Nodes()))
      ensures list == old(list) || fresh(list)
      ensures var k := Position(ByLastname, old(Datas(Contents())), contact.data);
        Contents() == InsertAt(old(Contents()), k, contact)
    {
      if list == null {
        list := new List(ByLastname);
      }
      list.Insert(contact);
    }

    /**
      remove_contact.  The size goes down whenever there was a list to walk, so it stays right
      exactly if the contact was there to be removed.
     */
    method RemoveContact(contact: Contact)
      requires Counted() && Numbered() && Contents() != [contact]
      modifies this`size, this`entries, list, Nodes()`prev, Nodes()`next
      ensures Contents() == Removed(old(Contents()), contact)
      ensures Numbered() && list == old(list) && Nodes() == old(Nodes())
      ensures Counted() <==> contact in old(Contents()) || old(Contents()) == []
      ensures old(InOrder()) ==> InOrder()
    {
      var walked := RemoveFromList(contact);
      Forget(contact, walked, old(Contents()));
    }

    /** list_remove_value on the store's list, which may not exist yet. */
    method RemoveFromList(contact: Contact) returns (walked: bool)
      requires Listed() && Contents() != [contact]
      modifies list, Nodes()`prev, Nodes()`next
      ensures Listed() && Nodes() == old(Nodes())
      ensures Contents() == Removed(old(Contents()), contact) && (walked <==> old(Contents()) != [])
    {
      walked := false;
      if list != null {
        walked := list.RemoveValue(contact);
      }
    }

    /** The size and the records after the list was walked for a contact. */
    method Forget(contact: Contact, walked: bool, ghost was: seq<Contact>)
      requires Mirrors(was, entries) && HandedOut(entries, nextid)
      requires Contents() == Removed(was, contact) && size == |was| && (walked <==> was != [])
      modifies this`size, this`entries
      ensures Numbered()
      ensures size == |Contents()| <==> contact in was || was == []
      ensures old(InOrder()) ==> InOrder()
    {
      entries := RemovedEntries(was, entries, contact, nextid);
      if walked {
        size := size - 1;
      }
    }

    /** get_contact: the first contact with that id, or nothing. */
    method GetContact(id: int) returns (result: Contact?)
      requires Counted()
      ensures result == null ==> forall i :: 0 <= i < |Contents()| ==> Contents()[i].id != id
      ensures result != null ==> result in Contents() && result.id == id
      ensures Numbered() && result != null ==> forall c :: c in Contents() && c.id == id ==> c == result
    {
      var it := new ListIterator(list);
      result := null;
      while it.current != null
        invariant it.Valid() && fresh(it) && it.list == list
        invariant it.current == null ==> it.pos == |Contents()|
        invariant it.pos <= |Contents()| && forall i :: 0 <= i < it.pos ==> Contents()[i].id != id
        decreases |Contents()| - it.pos
      {
        var c := it.Next();
        if id == c.id {
          return c;
        }
      }
    }

    /** dump_data: one record for every contact, in list order. */
    method DumpData() returns (file: seq<Entry>)
      requires Counted()
      ensures Mirrors(Contents(), file)
    {
      var it := new ListIterator(list);
      file := [];
      var more := it.HasNext();
      while more
        invariant it.Valid() && fresh(it) && it.list == list && (more <==> it.current != null)
        invariant it.current == null ==> it.pos == |Contents()|
        invariant it.pos <= |Contents()| && Mirrors(Contents()[..it.pos], file)
        decreases |Contents()| - it.pos
      {
        ghost var pos := it.pos;
        var contact := it.Next();
        MirrorsSnoc(Contents(), file, pos);
        file := file + [Entry(contact.id, contact.data)];
        more := it.HasNext();
      }
      assert Contents()[..it.pos] == Contents();
    }

    /** A record read from the file becomes a new contact. */
    method LoadRecord(e: Entry)
      requires Counted() && Numbered()
      modifies this, list, Nodes()`prev, Nodes()`next
      ensures Counted() && Numbered() && fresh(Nodes() - old(Nodes()))
      ensures list != null && (list == old(list) || fresh(list)) && nextid == old(nextid) + 1
      ensures entries == AddOne(old(entries), old(nextid), e.data)
    {
      hide AddOne, Mirrors, HandedOut;
      var stored := new Contact(e.id, e.data);
      AddContact(stored);
    }

    /** One round of load_data, and what is still to come. */
    method LoadNext(file: seq<Entry>, i: nat)
      requires i < |file| && Counted() && Numbered()
      modifies this, list, Nodes()`prev, Nodes()`next
      ensures Counted() && Numbered() && fresh(Nodes() - old(Nodes()))
      ensures list != null && (list == old(list) || fresh(list)) && nextid == old(nextid) + 1
      ensures AddAll(entries, nextid, file, i + 1) == AddAll(old(entries), old(nextid), file, i)
    {
      hide AddOne;
      AddAllNext(entries, nextid, file, i, file[i].data);
      LoadRecord(file[i]);
    }

    /**
      load_data on a file of whole records: each becomes a new contact, whatever id it was stored
      with.  The end of the file is only noticed by a read that comes back short, and that is the
      branch that answers false.
     */
    method LoadData(file: seq<Entry>) returns (ok: bool)
      requires Counted() && Numbered()
      modifies this, list, Nodes()`prev, Nodes()`next
      ensures !ok && Counted() && Numbered() && nextid == old(nextid) + |file|
      ensures entries == AddAll(old(entries), old(nextid), file, 0)
      ensures old(InOrder()) ==> InOrder()
    {
      OrderKeptByAll(entries, nextid, file);
      ok := LoadRecords(file);
    }

    /** The loop of load_data. */
    method LoadRecords(file: seq<Entry>) returns (ok: bool)
      requires Counted() && Numbered()
      modifies this, list, Nodes()`prev, Nodes()`next
      ensures !ok && Counted() && Numbered() && nextid == old(nextid) + |file|
      ensures entries == AddAll(old(entries), old(nextid), file, 0)
    {
      hide AddAll, Mirrors, HandedOut;
      ghost var loaded := AddAll(entries, nextid, file, 0);
      for i := 0 to |file|
        invariant Counted() && Numbered() && fresh(Nodes() - old(Nodes()))
        invariant list == old(list) || (list != null && fresh(list))
        invariant nextid == old(nextid) + i && AddAll(entries, nextid, file, i) == loaded
      {
        LoadNext(file, i);
      }
      AddAllDone(entries, nextid, file);
      return false;
    }

    /** delete_storage: removes from the front until nothing is left, releasing every contact once. */
    method DeleteStorage() returns (released: seq<Contact>)
      requires Counted()
      modifies list, Nodes()`prev, Nodes()`next
      ensures released == old(Contents()) && Contents() == []
    {
      if list == null { return []; }
      released := ReleaseAll(list);
    }
  }

  /** The loop of delete_storage: the iterator stays at the front while the contacts go. */
  method ReleaseAll(list: List) returns (released: seq<Contact>)
    requires list.Valid()
    modifies list, list.repr`prev, list.repr`next
    ensures list.Valid() && released == old(list.contents) && list.contents == []
  {
    released := [];
    var it := new ListIterator(list);
    while it.current != null
      invariant it.Valid() && fresh(it) && it.list == list && list.repr == old(list.repr)
      invariant it.pos == 0 && (it.current == null ==> list.contents == [])
      invariant released + list.contents == old(list.contents)
      decreases |list.contents|
    {
      ghost var before := list.contents;
      ShiftOne(released, before);
      var c: Contact := it.RemoveCurrent();
      assert list.contents == before[1..];
      released := released + [c];
    }
  }

  lemma DatasOfAddOne(es: seq<Entry>, id: int, d: Data)
    ensures DatasOf(AddOne(es, id, d)) == InsertOne(ByLastname, DatasOf(es), d)
  {
  }

  /** Loading inserts the records one after the other. */
  lemma {:induction false} LoadedDatas(es: seq<Entry>, id: int, file: seq<Entry>, i: nat)
    requires i <= |file|
    ensures DatasOf(AddAll(es, id, file, i)) == InsertAll(ByLastname, DatasOf(es), DatasOf(file)[i..])
    decreases |file| - i
  {
    if i < |file| {
      var d := file[i].data;
      DatasOfAddOne(es, id, d);
      LoadedDatas(AddOne(es, id, d), id + 1, file, i + 1);
      assert DatasOf(file)[i..][1..] == DatasOf(file)[i + 1..];
    }
  }

  /** Whatever the order in the file, an empty store that loads it holds its stable sort. */
  lemma LoadSorts(file: seq<Entry>)
    ensures StableSortOf(DatasOf(AddAll([], 1, file, 0)), DatasOf(file))
  {
    LoadedDatas([], 1, file, 0);
    assert DatasOf(file)[0..] == DatasOf(file);
    InsertAllIsStableSort(DatasOf(file));
  }

  /** A contact no smaller than all before it goes behind them. */
  lemma AddOneLast(es: seq<Entry>, id: int, d: Data)
    requires Sorted(DatasOf(es) + [d])
    ensures AddOne(es, id, d) == es + [Entry(id, d)]
  {
    var s := DatasOf(es);
    forall i | 0 <= i < |s| ensures ByLastname.Compare(d, s[i]) >= 0 {
      assert (s + [d])[i] == s[i] && (s + [d])[|s|] == d;
      StrcmpFlip(s[i].lastname, d.lastname);
    }
    PositionIs(ByLastname, s, d, |s|);
  }

  /** The first `i` records of a file as they are in a store, maybe under other ids. */
  ghost predicate Loaded(es: seq<Entry>, file: seq<Entry>, i: nat) {
    |es| == i <= |file| && forall j :: 0 <= j < i ==> es[j].data == file[j].data
  }

  lemma SortedSoFar(es: seq<Entry>, file: seq<Entry>, i: nat)
    requires i < |file| && Loaded(es, file, i) && Ordered(file)
    ensures Sorted(DatasOf(es) + [file[i].data])
  {
    assert DatasOf(es) + [file[i].data] == DatasOf(file)[..i + 1];
  }

  lemma LoadedNext(es: seq<Entry>, id: int, file: seq<Entry>, i: nat)
    requires i < |file| && Loaded(es, file, i)
    ensures Loaded(es + [Entry(id, file[i].data)], file, i + 1)
  {
  }

  /** The next record of a sorted file, when those before it were loaded, is such a contact. */
  lemma NextIsLast(es: seq<Entry>, id: int, file: seq<Entry>, i: nat)
    requires i < |file| && Loaded(es, file, i) && Ordered(file)
    ensures AddOne(es, id, file[i].data) == es + [Entry(id, file[i].data)]
    ensures Loaded(es + [Entry(id, file[i].data)], file, i + 1)
  {
    hide AddOne, Ordered, Sorted, Loaded;
    SortedSoFar(es, file, i);
    AddOneLast(es, id, file[i].data);
    LoadedNext(es, id, file, i);
  }

  /** The entries of records `i` on when nothing is reordered. */
  function Renumbered(id: int, file: seq<Entry>, i: nat): (es: seq<Entry>)
    requires i <= |file|
    ensures |es| == |file| - i && forall j :: 0 <= j < |es| ==> es[j] == Entry(id + j, file[i + j].data)
    decreases |file| - i
  {
    if i == |file| then [] else [Entry(id, file[i].data)] + Renumbered(id + 1, file, i + 1)
  }

  /** Loading a sorted file only ever appends. */
  lemma {:induction false} LoadSorted(es: seq<Entry>, id: int, file: seq<Entry>, i: nat)
    requires i <= |file| && Loaded(es, file, i) && Ordered(file)
    ensures AddAll(es, id, file, i) == es + Renumbered(id, file, i)
    decreases |file| - i
  {
    if i < |file| {
      hide AddOne, AddAll, Ordered, Loaded;
      var e := Entry(id, file[i].data);
      NextIsLast(es, id, file, i);
      AddAllNext(es, id, file, i, e.data);
      LoadSorted(es + [e], id + 1, file, i + 1);
      CatAssoc(es, [e], Renumbered(id + 1, file, i + 1));
    }
  }

  /** A dump of a sorted store loads back as the same contacts in the same order, numbered 1 to n. */
  lemma DumpThenLoad(file: seq<Entry>)
    requires Ordered(file)
    ensures AddAll([], 1, file, 0) == Renumbered(1, file, 0)
  {
    LoadSorted([], 1, file, 0);
  }

  lemma MirrorsTwice(cs: seq<Contact>, es: seq<Entry>, file: seq<Entry>)
    requires Mirrors(cs, es) && Mirrors(cs, file)
    ensures es == file
  {
  }

  /**
    From one store to another: what one dumps a new one loads.  The new store always holds the stable
    sort of the old one's contacts; if the old one was in order, that is the same contacts in the
    same order with the ids 1 to n.
   */
  method Reload(from: ContactStorage) returns (to: ContactStorage)
    requires from.Counted() && from.Numbered()
    ensures fresh(to) && to.Counted() && to.Numbered() && to.InOrder()
    ensures StableSortOf(DatasOf(to.entries), DatasOf(from.entries)) && Alphabetical(DatasOf(to.entries))
    ensures from.InOrder() ==> to.entries == Renumbered(1, from.entries, 0)
  {
    var file := from.DumpData();
    MirrorsTwice(from.Contents(), from.entries, file);
    to := new ContactStorage();
    var _ := to.LoadData(file);
    LoadSorts(file);
    SortedIsAlphabetical(DatasOf(to.entries));
    if from.InOrder() { DumpThenLoad(file); }
  }
}
