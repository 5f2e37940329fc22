/** Options, and sequences: putting one element in, taking one out, finding a key. */
module Sequences {
  datatype Option<+T> = None | Some(value: T)

  function InsertAt<T>(s: seq<T>, k: nat, v: T): seq<T>
    requires k <= |s|
  {
    s[..k] + [v] + s[k..]
  }

  function RemoveAt<T>(s: seq<T>, k: nat): (r: seq<T>)
    requires k < |s|
    ensures |r| == |s| - 1
  {
    s[..k] + s[k + 1..]
  }

  /** Moves the boundary between two sequences by one element. */
  lemma ShiftOne<T>(a: seq<T>, b: seq<T>)
    requires b != []
    ensures a + b == (a + [b[0]]) + b[1..]
  {
  }

  lemma LastApart<T>(s: seq<T>)
    requires s != []
    ensures s == s[..|s| - 1] + [s[|s| - 1]]
  {
  }

  lemma CatAssoc<T>(a: seq<T>, b: seq<T>, c: seq<T>)
    ensures (a + b) + c == a + (b + c)
  {
  }

  /** The first place of a key, if it is there. */
  function IndexOf(keys: seq<int>, key: int): (r: Option<nat>)
    ensures r.None? <==> forall i :: 0 <= i < |keys| ==> keys[i] != key
    ensures r.Some? ==>
      r.value < |keys| && keys[r.value] == key && forall i :: 0 <= i < r.value ==> keys[i] != key
  {
    if keys == [] then None
    else if keys[0] == key then Some(0)
    else match IndexOf(keys[1..], key) case None => None case Some(k) => Some(k + 1)
  }
}
