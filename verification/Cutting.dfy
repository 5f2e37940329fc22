/**
  Strings that strtok calls have cut out of one buffer: where they are, and that further cuts
  elsewhere leave them alone.
 */
module Cutting {
  import opened CStrings

  function Args(mem: seq<char>, ps: seq<nat>): (r: seq<string>)
    ensures |r| == |ps| && forall i :: 0 <= i < |ps| ==> r[i] == At(mem, ps[i])
  {
    seq(|ps|, i requires 0 <= i < |ps| => At(mem, ps[i]))
  }

  /** All these strings end, with a NUL, no later than at `bound`. */
  ghost predicate EndBy(mem: seq<char>, ps: seq<nat>, bound: nat) {
    bound < |mem| && forall i :: 0 <= i < |ps| ==> ps[i] + |At(mem, ps[i])| <= bound
  }

  /** The same memory outside of what lies between `lo` and `hi`. */
  ghost predicate Untouched(was: seq<char>, now: seq<char>, lo: nat, hi: nat) {
    |was| == |now| && lo <= hi <= |was| && was[..lo] == now[..lo] && was[hi..] == now[hi..]
  }

  lemma UntouchedTwice(a: seq<char>, b: seq<char>, c: seq<char>, lo: nat, mid: nat, hi: nat)
    requires lo <= mid && Untouched(a, b, lo, hi) && Untouched(b, c, mid, hi)
    ensures Untouched(a, c, lo, hi)
  {
    assert b[..lo] == b[..mid][..lo] && c[..lo] == c[..mid][..lo];
  }

  lemma AtKept(mem: seq<char>, p: nat, at: nat)
    requires p + |At(mem, p)| < at < |mem|
    ensures At(mem[at := NUL], p) == At(mem, p)
  {
    var t, mem' := At(mem, p), mem[at := NUL];
    var stop := p + |t|;
    assert t == mem[p..stop];
    assert mem[p..][|t|] == mem[stop];
    assert mem'[p..stop] == mem[p..stop];
    AtToken(mem', p, stop);
  }

  /** Cutting a buffer behind some strings does not touch them. */
  lemma ArgsKept(mem: seq<char>, ps: seq<nat>, bound: nat, at: nat)
    requires EndBy(mem, ps, bound) && bound < at < |mem|
    ensures Args(mem[at := NUL], ps) == Args(mem, ps) && EndBy(mem[at := NUL], ps, bound)
  {
    forall i | 0 <= i < |ps| ensures At(mem[at := NUL], ps[i]) == At(mem, ps[i]) {
      AtKept(mem, ps[i], at);
    }
  }

  /** A token in hand, inside what the scanner has passed. */
  ghost predicate InHand(scanner: Scanner, token: Token)
    reads scanner, scanner.buf
  {
    && scanner.Valid()
    && (token.Token? ==>
      && token.start <= token.stop <= scanner.save
      && At(scanner.buf[..], token.start) == scanner.buf[token.start..token.stop])
  }

  /** strtok: what it cut before and what lies beyond the string it scans stay as they were. */
  method Cut(scanner: Scanner, d: set<char>, ghost ps: seq<nat>) returns (token: Token)
    requires scanner.Valid() && NUL !in d && EndBy(scanner.buf[..], ps, scanner.save)
    modifies scanner`save, scanner.buf
    ensures InHand(scanner, token) && old(scanner.save) <= scanner.save
    ensures Tokens(old(scanner.Rest()), d) == Coming(scanner, token, d)
    ensures Args(scanner.buf[..], ps) == old(Args(scanner.buf[..], ps)) && EndBy(scanner.buf[..], ps, scanner.save)
    ensures token.Token? ==> EndBy(scanner.buf[..], ps, token.start)
    ensures Untouched(old(scanner.buf[..]), scanner.buf[..], old(scanner.save), scanner.end)
  {
    ghost var mem, bound := scanner.buf[..], scanner.save;
    token := scanner.Next(d);
    if token.Token? {
      ArgsKept(mem, ps, bound, token.stop);
      CutToken(mem, token.start, token.stop);
    }
  }

  lemma CutToken(mem: seq<char>, start: nat, stop: nat)
    requires start <= stop < |mem| && NUL !in mem[start..stop]
    ensures At(mem[stop := NUL], start) == mem[start..stop] == mem[stop := NUL][start..stop]
  {
    assert mem[stop := NUL][start..stop] == mem[start..stop];
    AtToken(mem[stop := NUL], start, stop);
  }

  lemma ArgsSnoc(mem: seq<char>, ps: seq<nat>, p: nat)
    ensures Args(mem, ps + [p]) == Args(mem, ps) + [At(mem, p)]
  {
  }

  lemma SuffixKept(was: seq<char>, now: seq<char>, end: nat, p: nat)
    requires |was| == |now| && end <= p <= |was| && was[end..] == now[end..]
    ensures was[p..] == now[p..]
  {
    assert was[p..] == was[end..][p - end..] && now[p..] == now[end..][p - end..];
  }
}
