/**
  Contacts of program 03 and the order their list is kept in: strcmp over NUL-terminated 64-byte
  fields, insertion before the first greater element, and why that is a stable sort.
 */
module ContactOrder {
  import opened CStrings
  import opened Sequences

  const FIELD_SIZE: nat := 64

  type Field = f: seq<char> | |f| == FIELD_SIZE && f[FIELD_SIZE - 1] == NUL
    witness seq(FIELD_SIZE, _ => NUL)

  /** set_value: strncpy pads with NULs, and the last byte is always one. */
  function SetValue(value: string): (f: Field)
    ensures NUL !in value ==> CStr(f) == value[..if |value| < FIELD_SIZE then |value| else FIELD_SIZE - 1]
  {
    var kept := value[..if |value| < FIELD_SIZE then |value| else FIELD_SIZE - 1];
    var pad := seq(FIELD_SIZE - |kept| - 1, _ => NUL);
    assert NUL !in value ==> CStr(kept + [NUL] + pad) == kept by { if NUL !in value { CStrOf(kept, pad); } }
    kept + [NUL] + pad
  }

  datatype Data = Data(
    firstname: Field, lastname: Field, middlename: Field, job: Field, position: Field, phones: seq<Field>)

  // --------------------------------------------------------------- strcmp

  function Strcmp(a: seq<char>, b: seq<char>): int
    requires NUL in a && NUL in b
  {
    if a[0] != b[0] then a[0] as int - b[0] as int
    else if a[0] == NUL then 0
    else Strcmp(a[1..], b[1..])
  }

  /** strcmp only looks at the strings the two slices start with. */
  lemma {:induction false} StrcmpEqual(a: seq<char>, b: seq<char>)
    requires NUL in a && NUL in b
    ensures Strcmp(a, b) == 0 <==> CStr(a) == CStr(b)
  {
    if a[0] == b[0] && a[0] != NUL {
      StrcmpEqual(a[1..], b[1..]);
      assert CStr(a)[1..] == CStr(a[1..]) && CStr(b)[1..] == CStr(b[1..]);
    }
  }

  lemma {:induction false} StrcmpFlip(a: seq<char>, b: seq<char>)
    requires NUL in a && NUL in b
    ensures Strcmp(b, a) == -Strcmp(a, b)
  {
    if a[0] == b[0] && a[0] != NUL { StrcmpFlip(a[1..], b[1..]); }
  }

  lemma {:induction false} StrcmpTransitive(a: seq<char>, b: seq<char>, c: seq<char>)
    requires NUL in a && NUL in b && NUL in c
    requires Strcmp(a, b) <= 0 && Strcmp(b, c) <= 0
    ensures Strcmp(a, c) <= 0
    ensures Strcmp(a, b) < 0 || Strcmp(b, c) < 0 ==> Strcmp(a, c) < 0
  {
    if a[0] == b[0] == c[0] && a[0] != NUL { StrcmpTransitive(a[1..], b[1..], c[1..]); }
  }

  /** Dictionary order: `x` ends, or has the smaller character, where the two first differ. */
  ghost predicate Precedes(x: string, y: string) { exists k: nat :: DiffersAt(x, y, k) }

  ghost predicate DiffersAt(x: string, y: string, k: nat) {
    k <= |x| && k < |y| && x[..k] == y[..k] && (k == |x| || x[k] < y[k])
  }

  lemma DiffersBehind(x: string, y: string, c: char, k: nat)
    ensures DiffersAt([c] + x, [c] + y, k + 1) <==> DiffersAt(x, y, k)
  {
    var x', y' := [c] + x, [c] + y;
    if k <= |x| && k < |y| {
      assert x'[..k + 1] == [c] + x[..k] && y'[..k + 1] == [c] + y[..k];
      assert x'[..k + 1][1..] == x[..k] && y'[..k + 1][1..] == y[..k];
    }
  }

  lemma NotAtFirst(x: string, y: string, c: char)
    ensures !DiffersAt([c] + x, [c] + y, 0)
  {
  }

  lemma PrecedesBehind(x: string, y: string, c: char)
    ensures Precedes([c] + x, [c] + y) <==> Precedes(x, y)
  {
    if Precedes(x, y) {
      var k: nat :| DiffersAt(x, y, k);
      DiffersBehind(x, y, c, k);
    }
    if Precedes([c] + x, [c] + y) {
      var k: nat :| DiffersAt([c] + x, [c] + y, k);
      NotAtFirst(x, y, c);
      DiffersBehind(x, y, c, k - 1);
    }
  }

  /** Strings that differ only behind their first characters have these in common. */
  lemma SameBefore(x: string, y: string, k: nat)
    ensures DiffersAt(x, y, k) && k > 0 ==> x != [] && y != [] && x[0] == y[0]
  {
    if DiffersAt(x, y, k) && k > 0 { assert x[..k][0] == y[..k][0]; }
  }

  lemma PrecedesFirst(x: string, y: string)
    requires x == [] || y == [] || x[0] != y[0]
    ensures Precedes(x, y) <==> y != [] && (x == [] || x[0] < y[0])
  {
    if y != [] && (x == [] || x[0] < y[0]) { assert DiffersAt(x, y, 0); }
    if Precedes(x, y) {
      var k: nat :| DiffersAt(x, y, k);
      SameBefore(x, y, k);
    }
  }

  /** strcmp is negative exactly if the first string comes before the second in dictionary order. */
  lemma {:induction false} StrcmpIsDictionaryOrder(a: seq<char>, b: seq<char>)
    requires NUL in a && NUL in b
    ensures Strcmp(a, b) < 0 <==> Precedes(CStr(a), CStr(b))
  {
    if a[0] == b[0] && a[0] != NUL {
      StrcmpIsDictionaryOrder(a[1..], b[1..]);
      PrecedesBehind(CStr(a[1..]), CStr(b[1..]), a[0]);
    } else {
      PrecedesFirst(CStr(a), CStr(b));
    }
  }

  // ------------------------------------------------------------ insertion

  /** The comparison a list was created with; without one, the default says "before" every time. */
  datatype Cmp = Default | ByLastname {
    function Compare(left: Data, right: Data): int {
      match this
      case Default => -1
      case ByLastname => Strcmp(left.lastname, right.lastname)
    }
  }

  /** The first position whose element `v` compares below; the end if there is none. */
  function Position(c: Cmp, s: seq<Data>, v: Data): (k: nat)
    ensures k <= |s| && (k < |s| ==> c.Compare(v, s[k]) < 0)
    ensures forall i :: 0 <= i < k ==> c.Compare(v, s[i]) >= 0
  {
    if s == [] || c.Compare(v, s[0]) < 0 then 0 else 1 + Position(c, s[1..], v)
  }

  lemma {:induction false} PositionIs(c: Cmp, s: seq<Data>, v: Data, k: nat)
    requires k <= |s| && (k < |s| ==> c.Compare(v, s[k]) < 0)
    requires forall i :: 0 <= i < k ==> c.Compare(v, s[i]) >= 0
    ensures k == Position(c, s, v)
  {
    if k > 0 { PositionIs(c, s[1..], v, k - 1); }
  }

  /** The list `s` after one insertion. */
  function InsertOne(c: Cmp, s: seq<Data>, v: Data): seq<Data> {
    InsertAt(s, Position(c, s, v), v)
  }

  /** The list `s` after inserting all of `vs` into it, in order. */
  function InsertAll(c: Cmp, s: seq<Data>, vs: seq<Data>): seq<Data>
    decreases vs
  {
    if vs == [] then s else InsertAll(c, InsertOne(c, s, vs[0]), vs[1..])
  }

  // -------------------------------------------------------- a stable sort

  ghost predicate Sorted(s: seq<Data>) {
    forall i, j :: 0 <= i < j < |s| ==> Strcmp(s[i].lastname, s[j].lastname) <= 0
  }

  /** From A to Z: no later last name comes before an earlier one. */
  ghost predicate Alphabetical(s: seq<Data>) {
    forall i, j :: 0 <= i < j < |s| ==> !Precedes(CStr(s[j].lastname), CStr(s[i].lastname))
  }

  lemma SortedIsAlphabetical(s: seq<Data>)
    ensures Sorted(s) <==> Alphabetical(s)
  {
    hide Precedes, Strcmp;
    forall i, j | 0 <= i < j < |s|
      ensures Strcmp(s[i].lastname, s[j].lastname) <= 0 <==> !Precedes(CStr(s[j].lastname), CStr(s[i].lastname))
    {
      StrcmpFlip(s[i].lastname, s[j].lastname);
      StrcmpIsDictionaryOrder(s[j].lastname, s[i].lastname);
    }
  }

  /** The contacts with the same last name as `key`, in the order they are in. */
  function Namesakes(s: seq<Data>, key: Data): seq<Data> {
    if s == [] then [] else
      (if Strcmp(s[0].lastname, key.lastname) == 0 then [s[0]] else []) + Namesakes(s[1..], key)
  }

  /** `t` is `s` sorted by last name, equal names left in their order. */
  ghost predicate StableSortOf(t: seq<Data>, s: seq<Data>) {
    && Sorted(t)
    && multiset(t) == multiset(s)
    && forall key: Data :: Namesakes(t, key) == Namesakes(s, key)
  }

  lemma {:induction false} NamesakesCat(a: seq<Data>, b: seq<Data>, key: Data)
    ensures Namesakes(a + b, key) == Namesakes(a, key) + Namesakes(b, key)
  {
    if a == [] {
      assert a + b == b;
    } else {
      assert (a + b)[1..] == a[1..] + b;
      NamesakesCat(a[1..], b, key);
    }
  }

  lemma {:induction false} NoNamesakes(s: seq<Data>, key: Data)
    requires forall i :: 0 <= i < |s| ==> Strcmp(s[i].lastname, key.lastname) != 0
    ensures Namesakes(s, key) == []
  {
    if s != [] { NoNamesakes(s[1..], key); }
  }

  lemma NamesakesOne(v: Data, key: Data)
    ensures Namesakes([v], key) == if Strcmp(v.lastname, key.lastname) == 0 then [v] else []
  {
    assert [v][1..] == [];
  }

  /** Behind the insertion position of a sorted list every name is greater. */
  lemma BehindPosition(s: seq<Data>, v: Data)
    requires Sorted(s)
    ensures var k := Position(ByLastname, s, v);
      forall i :: k <= i < |s| ==> Strcmp(v.lastname, s[i].lastname) < 0
  {
    var k := Position(ByLastname, s, v);
    forall i | k <= i < |s| ensures Strcmp(v.lastname, s[i].lastname) < 0 {
      if k < i { StrcmpTransitive(v.lastname, s[k].lastname, s[i].lastname); }
    }
  }

  lemma InsertSorted(s: seq<Data>, v: Data)
    requires Sorted(s)
    ensures Sorted(InsertOne(ByLastname, s, v))
  {
    hide Strcmp;
    var k := Position(ByLastname, s, v);
    BehindPosition(s, v);
    forall i | 0 <= i < k ensures Strcmp(s[i].lastname, v.lastname) <= 0 {
      StrcmpFlip(v.lastname, s[i].lastname);
    }
    assert s == s[..k] + s[k..];
    SortedAround(s[..k], v, s[k..]);
  }

  lemma SortedAround(a: seq<Data>, v: Data, b: seq<Data>)
    requires Sorted(a + b)
    requires forall i :: 0 <= i < |a| ==> Strcmp(a[i].lastname, v.lastname) <= 0
    requires forall i :: 0 <= i < |b| ==> Strcmp(v.lastname, b[i].lastname) <= 0
    ensures Sorted(a + [v] + b)
  {
    var s, t := a + b, a + [v] + b;
    forall i, j | 0 <= i < j < |t| ensures Strcmp(t[i].lastname, t[j].lastname) <= 0 {
      if i != |a| && j != |a| {
        var i', j' := if i < |a| then i else i - 1, if j < |a| then j else j - 1;
        assert t[i] == s[i'] && t[j] == s[j'];
      }
    }
  }

  lemma GreaterIsNoNamesake(v: Data, key: Data, w: Data)
    requires Strcmp(v.lastname, key.lastname) == 0 && Strcmp(v.lastname, w.lastname) < 0
    ensures Strcmp(w.lastname, key.lastname) != 0
  {
    StrcmpEqual(v.lastname, key.lastname);
    StrcmpEqual(w.lastname, key.lastname);
    StrcmpEqual(v.lastname, w.lastname);
  }

  lemma NamesakesSwap(a: seq<Data>, v: Data, b: seq<Data>, key: Data)
    requires Strcmp(v.lastname, key.lastname) != 0 || Namesakes(b, key) == []
    ensures Namesakes(a + [v] + b, key) == Namesakes(a + b, key) + Namesakes([v], key)
  {
    NamesakesCat(a + [v], b, key);
    NamesakesCat(a, [v], key);
    NamesakesCat(a, b, key);
    NamesakesOne(v, key);
  }

  /** A new contact goes behind every contact of the same name. */
  lemma InsertKeepsNamesakes(s: seq<Data>, v: Data, key: Data)
    requires Sorted(s)
    ensures Namesakes(InsertOne(ByLastname, s, v), key) == Namesakes(s, key) + Namesakes([v], key)
  {
    var k := Position(ByLastname, s, v);
    if Strcmp(v.lastname, key.lastname) == 0 {
      BehindPosition(s, v);
      forall i | k <= i < |s| ensures Strcmp(s[i].lastname, key.lastname) != 0 {
        GreaterIsNoNamesake(v, key, s[i]);
      }
      NoNamesakes(s[k..], key);
    }
    NamesakesSwap(s[..k], v, s[k..], key);
    assert s == s[..k] + s[k..];
  }

  lemma StableSortStep(front: seq<Data>, s: seq<Data>, v: Data)
    requires StableSortOf(s, front)
    ensures StableSortOf(InsertOne(ByLastname, s, v), front + [v])
  {
    var k := Position(ByLastname, s, v);
    InsertSorted(s, v);
    assert s == s[..k] + s[k..];
    forall key: Data ensures Namesakes(InsertAt(s, k, v), key) == Namesakes(front + [v], key) {
      InsertKeepsNamesakes(s, v, key);
      NamesakesCat(front, [v], key);
    }
  }

  lemma {:induction false} InsertAllKeepsStable(done: seq<Data>, s: seq<Data>, vs: seq<Data>)
    requires StableSortOf(s, done)
    ensures StableSortOf(InsertAll(ByLastname, s, vs), done + vs)
    decreases vs
  {
    if vs == [] {
      assert done + vs == done;
    } else {
      StableSortStep(done, s, vs[0]);
      InsertAllKeepsStable(done + [vs[0]], InsertOne(ByLastname, s, vs[0]), vs[1..]);
      ShiftOne(done, vs);
    }
  }

  /** Inserting one contact after another into an empty list sorts them stably. */
  lemma InsertAllIsStableSort(vs: seq<Data>)
    ensures StableSortOf(InsertAll(ByLastname, [], vs), vs)
    ensures Alphabetical(InsertAll(ByLastname, [], vs))
  {
    InsertAllKeepsStable([], [], vs);
    assert [] + vs == vs;
    SortedIsAlphabetical(InsertAll(ByLastname, [], vs));
  }

  lemma {:induction false} FirstNamesake(s: seq<Data>, key: Data)
    requires Namesakes(s, key) != []
    ensures Namesakes(s, key)[0] in s && Strcmp(Namesakes(s, key)[0].lastname, key.lastname) == 0
  {
    if Strcmp(s[0].lastname, key.lastname) != 0 { FirstNamesake(s[1..], key); }
  }

  lemma HeadIsFirstNamesake(s: seq<Data>)
    requires s != []
    ensures Namesakes(s, s[0]) != [] && Namesakes(s, s[0])[0] == s[0]
  {
    StrcmpEqual(s[0].lastname, s[0].lastname);
  }

  /** Sorted lists with the same namesakes of every name start with the same contact. */
  lemma SameHead(s: seq<Data>, t: seq<Data>)
    requires Sorted(s) && Sorted(t) && s != []
    requires forall key: Data :: Namesakes(t, key) == Namesakes(s, key)
    ensures t != [] && t[0] == s[0]
  {
    HeadIsFirstNamesake(s);
    assert Namesakes(t, s[0]) == Namesakes(s, s[0]);
    FirstNamesake(t, s[0]);
    HeadIsFirstNamesake(t);
    assert Namesakes(t, t[0]) == Namesakes(s, t[0]);
    FirstNamesake(s, t[0]);
    var i :| 0 <= i < |s| && s[i] == t[0];
    var j :| 0 <= j < |t| && t[j] == s[0];
    StrcmpEqual(s[0].lastname, s[0].lastname);
    StrcmpEqual(t[0].lastname, t[0].lastname);
    assert Strcmp(s[0].lastname, t[0].lastname) <= 0;
    assert Strcmp(t[0].lastname, s[0].lastname) <= 0;
    StrcmpFlip(s[0].lastname, t[0].lastname);
    SameNamesakes(s, s[0], t[0]);
  }

  lemma {:induction false} SameNamesakes(s: seq<Data>, a: Data, b: Data)
    requires Strcmp(a.lastname, b.lastname) == 0
    ensures Namesakes(s, a) == Namesakes(s, b)
  {
    if s != [] {
      SameNamesakes(s[1..], a, b);
      StrcmpEqual(a.lastname, b.lastname);
      StrcmpEqual(s[0].lastname, a.lastname);
      StrcmpEqual(s[0].lastname, b.lastname);
    }
  }

  /** There is only one stable sort. */
  lemma {:induction false} StableSortIsUnique(s: seq<Data>, t: seq<Data>)
    requires Sorted(s) && Sorted(t)
    requires forall key: Data :: Namesakes(t, key) == Namesakes(s, key)
    ensures s == t
  {
    if s == [] {
      if t != [] { SameHead(t, s); }
    } else {
      SameHead(s, t);
      forall key: Data ensures Namesakes(t[1..], key) == Namesakes(s[1..], key) {
        var head := if Strcmp(s[0].lastname, key.lastname) == 0 then [s[0]] else [];
        assert Namesakes(t, key) == head + Namesakes(t[1..], key);
        assert Namesakes(s, key) == head + Namesakes(s[1..], key);
        assert (head + Namesakes(t[1..], key))[|head|..] == Namesakes(t[1..], key);
        assert (head + Namesakes(s[1..], key))[|head|..] == Namesakes(s[1..], key);
      }
      StableSortIsUnique(s[1..], t[1..]);
      assert s == [s[0]] + s[1..] && t == [t[0]] + t[1..];
    }
  }

  /** A list that is still sorted comes back unchanged from being inserted again. */
  lemma InsertAllOfSorted(s: seq<Data>)
    requires Sorted(s)
    ensures InsertAll(ByLastname, [], s) == s
  {
    InsertAllIsStableSort(s);
    StableSortIsUnique(InsertAll(ByLastname, [], s), s);
  }

  function Reversed(vs: seq<Data>): (r: seq<Data>)
    ensures |r| == |vs| && forall i :: 0 <= i < |vs| ==> r[i] == vs[|vs| - 1 - i]
  {
    if vs == [] then [] else Reversed(vs[1..]) + [vs[0]]
  }

  /** Without a comparison every insertion goes to the front, so the list runs backwards. */
  lemma {:induction false} InsertAllByDefault(s: seq<Data>, vs: seq<Data>)
    ensures InsertAll(Default, s, vs) == Reversed(vs) + s
    decreases vs
  {
    if vs != [] {
      assert InsertOne(Default, s, vs[0]) == [vs[0]] + s;
      InsertAllByDefault([vs[0]] + s, vs[1..]);
      assert Reversed(vs) + s == Reversed(vs[1..]) + ([vs[0]] + s);
    }
  }
}
