/**
  The C library routines the programs lean on, over sequences of characters:
  NUL-terminated strings, decimal printing ("%d"), and the scanners strtok
  (section 7.24.5.8 of ISO C11) and strtol (section 7.22.1.4).
  A `seq<char>` is a memory slice; a `string` is a slice known to hold no NUL.
 */
module CStrings {
  const NUL: char := '\0'
  /** isspace: the blank and the five characters from tab to carriage return. */
  const SPACES: set<char> := set c: char | c == ' ' || '\t' <= c <= '\r'
  const DIGITS: set<char> := set c: char | '0' <= c <= '9'
  const LONG_MAX: int := 0x7FFF_FFFF_FFFF_FFFF
  const INT_MAX: int := 0x7FFF_FFFF

  /** What strtok delivers: nothing, or where a token starts and where its NUL is. */
  datatype Token = NoToken | Token(start: nat, stop: nat)

  /** The C string that starts a slice: everything before the first NUL. */
  function CStr(s: seq<char>): (r: string)
    ensures NUL !in r && r <= s && (|r| < |s| ==> s[|r|] == NUL)
  {
    if s == [] || s[0] == NUL then [] else [s[0]] + CStr(s[1..])
  }

  /** A string followed by NUL, whatever comes after it, reads back as itself. */
  lemma {:induction false} CStrOf(t: string, junk: seq<char>)
    requires NUL !in t
    ensures CStr(t) == t && CStr(t + [NUL] + junk) == t
  {
    if t == [] {
      assert (t + [NUL] + junk)[0] == NUL;
    } else {
      assert (t + [NUL] + junk)[1..] == t[1..] + [NUL] + junk;
      CStrOf(t[1..], junk);
    }
  }

  /** The string a pointer into a buffer points to. */
  function At(mem: seq<char>, p: nat): string {
    if p <= |mem| then CStr(mem[p..]) else []
  }

  lemma AtToken(mem: seq<char>, start: nat, stop: nat)
    requires start <= stop < |mem| && mem[stop] == NUL && NUL !in mem[start..stop]
    ensures At(mem, start) == mem[start..stop]
  {
    assert mem[start..] == mem[start..stop] + [NUL] + mem[stop + 1..];
    CStrOf(mem[start..stop], mem[stop + 1..]);
  }

  // ---------------------------------------------------------------- strtok

  /** strspn: the length of the longest prefix made of characters of `d`. */
  function Span(s: seq<char>, d: set<char>): (n: nat)
    ensures n <= |s| && (forall i :: 0 <= i < n ==> s[i] in d) && (n < |s| ==> s[n] !in d)
  {
    if s == [] || s[0] !in d then 0 else 1 + Span(s[1..], d)
  }

  /** strcspn: the length of the longest prefix free of characters of `d`. */
  function CSpan(s: seq<char>, d: set<char>): (n: nat)
    ensures n <= |s| && (forall i :: 0 <= i < n ==> s[i] !in d) && (n < |s| ==> s[n] in d)
  {
    if s == [] || s[0] in d then 0 else 1 + CSpan(s[1..], d)
  }

  lemma {:induction false} SpanIs(s: seq<char>, d: set<char>, n: nat)
    requires n <= |s| && (forall i :: 0 <= i < n ==> s[i] in d) && (n < |s| ==> s[n] !in d)
    ensures Span(s, d) == n
  {
    if n > 0 { SpanIs(s[1..], d, n - 1); }
  }

  lemma {:induction false} CSpanIs(s: seq<char>, d: set<char>, n: nat)
    requires n <= |s| && (forall i :: 0 <= i < n ==> s[i] !in d) && (n < |s| ==> s[n] in d)
    ensures CSpan(s, d) == n
  {
    if n > 0 { CSpanIs(s[1..], d, n - 1); }
  }

  /** The tokens successive strtok calls deliver: maximal runs of non-delimiters. */
  function Tokens(s: string, d: set<char>): (ts: seq<string>)
    decreases |s|
  {
    if s == [] then [] else if s[0] in d then Tokens(s[1..], d) else
      var e := CSpan(s, d);
      [s[..e]] + Tokens(s[e..], d)
  }

  ghost predicate AllIn(s: string, d: set<char>) { forall i :: 0 <= i < |s| ==> s[i] in d }
  ghost predicate NoneIn(s: string, d: set<char>) { forall i :: 0 <= i < |s| ==> s[i] !in d }
  /** A word strtok can deliver: not empty and free of delimiters. */
  ghost predicate Word(w: string, d: set<char>) { w != [] && NoneIn(w, d) }

  /** Leading delimiters are invisible. */
  lemma {:induction false} TokensSkip(g: string, s: string, d: set<char>)
    requires AllIn(g, d)
    ensures Tokens(g + s, d) == Tokens(s, d)
  {
    if g == [] {
      assert g + s == s;
    } else {
      assert (g + s)[1..] == g[1..] + s;
      TokensSkip(g[1..], s, d);
    }
  }

  /** A string of delimiters holds no token. */
  lemma TokensOfGap(g: string, d: set<char>)
    requires AllIn(g, d)
    ensures Tokens(g, d) == []
  {
    TokensSkip(g, [], d);
    assert g + [] == g;
  }

  /** A gap, a word and whatever a delimiter starts: the word is the first token. */
  lemma TokensCons(g: string, w: string, rest: string, d: set<char>)
    requires AllIn(g, d) && Word(w, d)
    requires rest == [] || rest[0] in d
    ensures Tokens(g + w + rest, d) == [w] + Tokens(rest, d)
  {
    var s := w + rest;
    assert g + w + rest == g + s;
    TokensSkip(g, s, d);
    assert s[0] == w[0];
    CSpanIs(s, d, |w|);
    assert s[..|w|] == w && s[|w|..] == rest;
  }

  /**
    strtok over one buffer: `save` is the pointer strtok keeps between calls, `end` the
    position of the NUL that ends the string being scanned.
   */
  class Scanner {
    const buf: array<char>
    var save: nat
    ghost var end: nat

    ghost predicate Valid()
      reads this, buf
    {
      save <= end < buf.Length && buf[end] == NUL && NUL !in buf[save..end]
    }

    /** What is left to scan. */
    ghost function Rest(): string
      reads this, buf
      requires Valid()
    {
      buf[save..end]
    }

    constructor (buf: array<char>, start: nat)
      requires start < buf.Length && NUL in buf[start..]
      ensures Valid() && this.buf == buf && save == start && Rest() == CStr(buf[start..])
    {
      this.buf := buf;
      save := start;
      ghost var rest := CStr(buf[start..]);
      assert |rest| < |buf[start..]|;
      end := start + |rest|;
      assert buf[start..start + |rest|] == rest;
    }

    /** Moves the pointer over delimiters, as strtok does before a token. */
    method Skip(d: set<char>)
      requires Valid() && NUL !in d
      modifies this`save
      ensures Valid() && old(save) <= save
      ensures AllIn(buf[old(save)..save], d) && buf[save] !in d
    {
      ghost var origin := save;
      while buf[save] in d
        invariant origin <= save <= end
        invariant AllIn(buf[origin..save], d)
        decreases end - save
      {
        save := save + 1;
      }
    }

    /** The end of the word the pointer stands on: the next delimiter, or the NUL. */
    method WordEnd(d: set<char>) returns (stop: nat)
      requires Valid() && NUL !in d
      ensures save <= stop <= end && NoneIn(buf[save..stop], d)
      ensures if stop < end then buf[stop] in d else buf[stop] == NUL
    {
      stop := save;
      while buf[stop] != NUL && buf[stop] !in d
        invariant save <= stop <= end && NoneIn(buf[save..stop], d)
        decreases end - stop
      {
        stop := stop + 1;
      }
    }

    /** Ends the word before `stop` with a NUL and goes on behind it. */
    method CutAt(stop: nat)
      requires Valid() && save <= stop <= end
      modifies this`save, buf
      ensures Valid() && stop <= save && buf[..] == old(buf[..])[stop := NUL] && stop < buf.Length
      ensures Rest() == old(buf[if stop < end then stop + 1 else stop..end])
    {
      ghost var mem := buf[..];
      if buf[stop] == NUL {
        save := stop;
      } else {
        buf[stop] := NUL;
        save := stop + 1;
      }
      assert buf[save..end] == mem[save..end];
      assert buf[..] == mem[stop := NUL];
    }

    /** One strtok call: delivers the next token, cuts it off with a NUL, and writes nowhere else. */
    method Next(d: set<char>) returns (token: Token)
      requires Valid() && NUL !in d
      modifies this`save, buf
      ensures Valid() && old(save) <= save
      ensures token.NoToken? ==> Tokens(old(Rest()), d) == [] && Rest() == [] && buf[..] == old(buf[..])
      ensures token.Token? ==>
        && old(save) <= token.start < token.stop <= save && token.stop < buf.Length
        && NUL !in buf[token.start..token.stop] && AllIn(buf[old(save)..token.start], d)
        && Tokens(old(Rest()), d) == [buf[token.start..token.stop]] + Tokens(Rest(), d)
        && buf[..] == old(buf[..])[token.stop := NUL]
    {
      ghost var origin, mem := save, buf[..];
      Skip(d);
      if buf[save] == NUL {
        TokensOfGap(buf[origin..save], d);
        return NoToken;
      }
      var start := save;
      var stop := WordEnd(d);
      TokensBetween(mem, d, origin, start, stop, end);
      CutAt(stop);
      assert buf[start..stop] == mem[start..stop] && buf[origin..start] == mem[origin..start];
      return Token(start, stop);
    }
  }

  /** The tokens still to come: the one in hand, if any, and those strtok has not reached. */
  ghost function Coming(scanner: Scanner, token: Token, d: set<char>): seq<string>
    reads scanner, scanner.buf
    requires scanner.Valid() && (token.Token? ==> token.start <= token.stop <= scanner.buf.Length)
  {
    match token
    case NoToken => []
    case Token(start, stop) => [scanner.buf[start..stop]] + Tokens(scanner.Rest(), d)
  }

  lemma TokensBetween(mem: seq<char>, d: set<char>, origin: nat, start: nat, stop: nat, end: nat)
    requires origin <= start < stop <= end <= |mem|
    requires AllIn(mem[origin..start], d) && NoneIn(mem[start..stop], d)
    requires stop < end ==> mem[stop] in d
    ensures Tokens(mem[origin..end], d) ==
      [mem[start..stop]] + Tokens(mem[if stop < end then stop + 1 else stop..end], d)
  {
    assert mem[origin..end] == mem[origin..start] + mem[start..stop] + mem[stop..end];
    TokensCons(mem[origin..start], mem[start..stop], mem[stop..end], d);
    if stop < end {
      assert mem[stop..end] == [mem[stop]] + mem[stop + 1..end];
      TokensSkip([mem[stop]], mem[stop + 1..end], d);
    }
  }

  // ------------------------------------------------- decimal text and strtol

  function Digit(n: nat): (c: char)
    requires n < 10
    ensures c in DIGITS && c as int - '0' as int == n
  {
    '0' + n as char
  }

  /** "%d" of a number that is not negative. */
  function Dec(n: nat): (s: string)
    ensures |s| > 0 && AllIn(s, DIGITS)
  {
    if n < 10 then [Digit(n)] else Dec(n / 10) + [Digit(n % 10)]
  }

  /** "%d". */
  function DecInt(i: int): string
  {
    if i < 0 then "-" + Dec(-i) else Dec(i)
  }

  /** The number a run of digits denotes. */
  function Value(s: string): nat
    requires AllIn(s, DIGITS)
  {
    if s == [] then 0 else 10 * Value(s[..|s| - 1]) + (s[|s| - 1] as int - '0' as int)
  }

  lemma {:induction false} ValueOfDec(n: nat)
    ensures Value(Dec(n)) == n
  {
    if n >= 10 {
      ValueOfDec(n / 10);
      assert Dec(n)[..|Dec(n)| - 1] == Dec(n / 10);
    } else {
      assert Dec(n)[..0] == [];
    }
  }

  function Pow10(k: nat): (p: nat)
    ensures p > 0
  {
    if k == 0 then 1 else 10 * Pow10(k - 1)
  }

  lemma {:induction false} DecLength(n: nat, k: nat)
    requires k > 0 && n < Pow10(k)
    ensures |Dec(n)| <= k
  {
    if n >= 10 {
      assert Pow10(1) == 10 * Pow10(0);
      DecLength(n / 10, k - 1);
    }
  }

  function Clamp(v: int): int
  {
    if v > LONG_MAX then LONG_MAX else if v < -LONG_MAX - 1 then -LONG_MAX - 1 else v
  }

  /** Storing a long in an int keeps the low 32 bits. */
  function ToInt(v: int): (r: int)
    ensures -INT_MAX - 1 <= r <= INT_MAX && (-INT_MAX - 1 <= v <= INT_MAX ==> r == v)
  {
    (v + 0x8000_0000) % 0x1_0000_0000 - 0x8000_0000
  }

  predicate Signed(s: string) {
    var w := Span(s, SPACES);
    w < |s| && s[w] in {'+', '-'}
  }

  /** Where the digits of a number start: behind blanks and a sign. */
  function NumberStart(s: string): (p: nat)
    ensures p <= |s|
  {
    if Signed(s) then Span(s, SPACES) + 1 else Span(s, SPACES)
  }

  predicate Negative(s: string) { Signed(s) && s[Span(s, SPACES)] == '-' }

  function Bounded(negative: bool, v: int): int { Clamp(if negative then -v else v) }

  /** The number a run of digits and a sign denote, as far as a long can hold it. */
  function Signedly(negative: bool, digits: string): int
    requires AllIn(digits, DIGITS)
  {
    Bounded(negative, Value(digits))
  }

  /** The number at the start of `t`, where a text continues after `p` characters. */
  function NumberIn(negative: bool, p: nat, t: string): (r: (int, nat))
    ensures r.1 <= p + |t|
  {
    var n := Span(t, DIGITS);
    if n == 0 then (0, 0) else (Signedly(negative, t[..n]), p + n)
  }

  /** strtol(s, &end, 10): the value, and how many characters were consumed (0 if no number starts `s`). */
  function Strtol(s: string): (r: (int, nat))
    ensures r.1 <= |s|
  {
    NumberIn(Negative(s), NumberStart(s), s[NumberStart(s)..])
  }

  lemma DigitsStartAtOnce(s: string)
    requires s != [] && s[0] in DIGITS
    ensures NumberStart(s) == 0 && !Negative(s) && s[0..] == s
  {
    SpanIs(s, SPACES, 0);
  }

  lemma NumberInIs(negative: bool, p: nat, t: string, digits: string)
    requires AllIn(digits, DIGITS) && |digits| == Span(t, DIGITS) && t[..|digits|] == digits
    ensures NumberIn(negative, p, t) == if digits == [] then (0, 0) else (Signedly(negative, digits), p + |digits|)
  {
  }

  lemma SpanEnds(t: string, x: string)
    requires Span(t, DIGITS) < |t| || x == [] || x[0] !in DIGITS
    ensures Span(t + x, DIGITS) == Span(t, DIGITS) && (t + x)[..Span(t, DIGITS)] == t[..Span(t, DIGITS)]
  {
    SpanIs(t + x, DIGITS, Span(t, DIGITS));
  }

  /** A number ends where its digits end. */
  lemma NumberInCat(negative: bool, p: nat, t: string, x: string)
    requires Span(t, DIGITS) < |t| || x == [] || x[0] !in DIGITS
    ensures NumberIn(negative, p, t + x) == NumberIn(negative, p, t)
  {
    var digits := t[..Span(t, DIGITS)];
    SpanEnds(t, x);
    NumberInIs(negative, p, t, digits);
    NumberInIs(negative, p, t + x, digits);
  }

  lemma NumberInDigits(d: string)
    requires d != [] && AllIn(d, DIGITS)
    ensures NumberIn(false, 0, d) == (Clamp(Value(d)), |d|)
  {
    SpanIs(d, DIGITS, |d|);
    NumberInIs(false, 0, d, d);
  }

  /** strtol on digits, alone or followed by something else. */
  lemma StrtolOfDigits(d: string, rest: string)
    requires d != [] && AllIn(d, DIGITS)
    requires rest == [] || rest[0] !in DIGITS
    ensures Strtol(d + rest) == (Clamp(Value(d)), |d|)
  {
    DigitsStartAtOnce(d + rest);
    NumberInCat(false, 0, d, rest);
    NumberInDigits(d);
  }

  /** strtol reads a printed number back, and stops where the number stops. */
  lemma StrtolOfDec(n: nat, rest: string)
    requires n <= LONG_MAX
    requires rest == [] || rest[0] !in DIGITS
    ensures Strtol(Dec(n) + rest) == (n, |Dec(n)|)
  {
    ValueOfDec(n);
    StrtolOfDigits(Dec(n), rest);
  }

  lemma StrtolOfPrinted(n: nat)
    requires n <= LONG_MAX
    ensures Strtol(Dec(n)) == (n, |Dec(n)|)
  {
    assert Dec(n) + [] == Dec(n);
    StrtolOfDec(n, []);
  }

  lemma MinusStarts(digits: string)
    ensures NumberStart("-" + digits) == 1 && Negative("-" + digits) && ("-" + digits)[1..] == digits
  {
    SpanIs("-" + digits, SPACES, 0);
  }

  /** So it does any number printed with "%d" that a long can hold, with its sign. */
  lemma StrtolOfInt(i: int, rest: string)
    requires -LONG_MAX - 1 <= i <= LONG_MAX
    requires rest == [] || rest[0] !in DIGITS
    ensures Strtol(DecInt(i) + rest) == (i, |DecInt(i)|)
  {
    if i >= 0 {
      StrtolOfDec(i, rest);
    } else {
      var d := Dec(-i);
      MinusStarts(d + rest);
      assert "-" + d + rest == "-" + (d + rest);
      NumberInCat(true, 1, d, rest);
      SpanIs(d, DIGITS, |d|);
      NumberInIs(true, 1, d, d);
      ValueOfDec(-i);
    }
  }

  /** No sign, a plus or a minus. */
  predicate OneSign(sign: string) { sign == [] || (|sign| == 1 && sign[0] in {'+', '-'}) }

  predicate Minus(sign: string) { |sign| == 1 && sign[0] == '-' }

  /** Where the digits start behind white space and maybe a sign. */
  lemma StartOfSigned(blanks: string, sign: string, tail: string)
    requires AllIn(blanks, SPACES) && OneSign(sign)
    requires sign == [] && tail != [] ==> tail[0] !in SPACES && tail[0] !in {'+', '-'}
    ensures var s := blanks + sign + tail;
      && NumberStart(s) == |blanks + sign| && (Negative(s) <==> Minus(sign)) && s[|blanks + sign|..] == tail
  {
    var s := blanks + sign + tail;
    SpanIs(s, SPACES, |blanks|);
    assert sign != [] ==> s[|blanks|] == sign[0];
    assert sign == [] && tail != [] ==> s[|blanks|] == tail[0];
  }

  /**
    strtol on any text: behind white space, a plus, a minus or no sign, and at least one digit, it gives
    the number these denote, cut off at the limits of a long, and stops behind the last digit.
   */
  lemma StrtolIs(blanks: string, sign: string, digits: string, rest: string)
    requires AllIn(blanks, SPACES) && OneSign(sign) && digits != [] && AllIn(digits, DIGITS)
    requires rest == [] || rest[0] !in DIGITS
    ensures var v: int := Value(digits);
      Strtol(blanks + sign + (digits + rest)) == (Clamp(if Minus(sign) then -v else v), |blanks + sign| + |digits|)
  {
    hide *;
    DigitIsNoBlank(digits, rest);
    StartOfSigned(blanks, sign, digits + rest);
    StrtolAt(blanks + sign + (digits + rest), digits, rest);
  }

  lemma DigitIsNoBlank(digits: string, rest: string)
    requires digits != [] && AllIn(digits, DIGITS)
    ensures digits + rest != [] && (digits + rest)[0] !in SPACES && (digits + rest)[0] !in {'+', '-'}
  {
  }

  lemma StrtolAt(s: string, digits: string, rest: string)
    requires digits != [] && AllIn(digits, DIGITS) && (rest == [] || rest[0] !in DIGITS)
    requires s[NumberStart(s)..] == digits + rest
    ensures var v: int := Value(digits);
      Strtol(s) == (Clamp(if Negative(s) then -v else v), NumberStart(s) + |digits|)
  {
    NumberInRun(Negative(s), NumberStart(s), digits, rest);
  }

  lemma NumberInRun(negative: bool, p: nat, digits: string, rest: string)
    requires digits != [] && AllIn(digits, DIGITS) && (rest == [] || rest[0] !in DIGITS)
    ensures NumberIn(negative, p, digits + rest) == (Signedly(negative, digits), p + |digits|)
  {
    NumberInCat(negative, p, digits, rest);
    SpanIs(digits, DIGITS, |digits|);
    NumberInIs(negative, p, digits, digits);
  }

  /** Without a digit there it gives 0 and stops at the start. */
  lemma StrtolOfNothing(blanks: string, sign: string, rest: string)
    requires AllIn(blanks, SPACES) && OneSign(sign)
    requires rest != [] ==> rest[0] !in DIGITS
    requires sign == [] && rest != [] ==> rest[0] !in SPACES && rest[0] !in {'+', '-'}
    ensures Strtol(blanks + sign + rest) == (0, 0)
  {
    StartOfSigned(blanks, sign, rest);
    SpanIs(rest, DIGITS, 0);
  }

  /** Where strtol stops looking: behind the blanks, the sign and the digits a text starts with. */
  function ScanEnd(s: seq<char>): (n: nat)
    ensures n <= |s|
  {
    NumberStart(s) + Span(s[NumberStart(s)..], DIGITS)
  }

  lemma ScanEndIs(s: seq<char>)
    requires Strtol(s).1 > 0
    ensures ScanEnd(s) == Strtol(s).1
  {
  }

  lemma SpanCat(a: seq<char>, x: seq<char>, d: set<char>)
    requires Span(a, d) < |a|
    ensures Span(a + x, d) == Span(a, d)
  {
    SpanIs(a + x, d, Span(a, d));
  }

  lemma NumberStartCat(a: seq<char>, x: seq<char>)
    requires Span(a, SPACES) < |a|
    ensures NumberStart(a + x) == NumberStart(a) && (Negative(a + x) <==> Negative(a))
  {
    SpanCat(a, x, SPACES);
  }

  /** If that is inside a text, what follows the text is not looked at. */
  lemma StrtolStops(a: seq<char>, x: seq<char>)
    requires ScanEnd(a) < |a|
    ensures Strtol(a + x) == Strtol(a)
  {
    var p := NumberStart(a);
    NumberStartCat(a, x);
    NumberInCat(Negative(a), p, a[p..], x);
    assert (a + x)[p..] == a[p..] + x;
  }

  lemma ScanEndOfDigits(s: seq<char>)
    requires s != [] && AllIn(s, DIGITS)
    ensures ScanEnd(s) == |s|
  {
    DigitsStartAtOnce(s);
    SpanIs(s, DIGITS, |s|);
  }

  lemma ValueSnoc(t: string, c: char)
    requires AllIn(t, DIGITS) && c in DIGITS
    ensures AllIn(t + [c], DIGITS) && Value(t + [c]) == 10 * Value(t) + (c as int - '0' as int)
  {
    assert (t + [c])[..|t|] == t;
  }

  /** Further digits make a number at least ten times as large. */
  lemma {:induction false} ValueGrows(t: string, more: string)
    requires AllIn(t, DIGITS) && AllIn(more, DIGITS) && more != []
    ensures AllIn(t + more, DIGITS) && Value(t + more) >= 10 * Value(t)
  {
    var front, last := more[..|more| - 1], more[|more| - 1];
    if front == [] {
      assert more == [last];
      ValueSnoc(t, last);
    } else {
      ValueGrows(t, front);
      ValueSnoc(t + front, last);
      assert t + more == t + front + [last];
    }
  }

  lemma ToIntNext(v: int)
    ensures ToInt(v) != ToInt(v + 1)
  {
  }

  /** A number with one more digit, as an int. */
  function WithDigit(negative: bool, v: nat, d: nat): int { ToInt(Bounded(negative, 10 * v + d)) }

  /** Below a tenth of the limit of a long, a 0 and a 1 as next digit make different numbers, also as ints. */
  lemma NextDigitsDiffer(negative: bool, v: nat)
    requires 10 * v <= LONG_MAX
    ensures WithDigit(negative, v, 0) != WithDigit(negative, v, 1)
  {
    ToIntNext(if negative then -(10 * v + 1) else 10 * v);
  }

  /** The limits of a long as ints. */
  lemma BeyondLong(negative: bool, v: nat)
    requires v > LONG_MAX
    ensures ToInt(Bounded(negative, v)) == if negative then 0 else -1
  {
  }

  /** A text made up of blanks, a sign and digits, each of which may be missing. */
  lemma AllDigits(a: seq<char>)
    requires ScanEnd(a) == |a|
    ensures AllIn(a[NumberStart(a)..], DIGITS) && NUL !in a
  {
    var p := NumberStart(a);
    forall i | 0 <= i < |a| ensures a[i] != NUL {
      if i >= p { assert a[i] == a[p..][i - p]; }
    }
  }

  /** Digits behind such a text do not change where its number starts. */
  lemma NumberStartDigits(a: seq<char>, more: string)
    requires ScanEnd(a) == |a| && AllIn(more, DIGITS) && more != []
    ensures NumberStart(a + more) == NumberStart(a) && (Negative(a + more) <==> Negative(a))
  {
    if Span(a, SPACES) < |a| { NumberStartCat(a, more); } else { SpanIs(a + more, SPACES, |a|); }
  }

  lemma StrtolOfOpen(s: string, digits: string)
    requires s[NumberStart(s)..] == digits && AllIn(digits, DIGITS) && digits != []
    ensures Strtol(s).0 == Signedly(Negative(s), digits)
  {
    SpanIs(digits, DIGITS, |digits|);
    NumberInIs(Negative(s), NumberStart(s), digits, digits);
  }

  /** With at least one digit, what follows the digits does not matter. */
  lemma StrtolUpTo(a: seq<char>, x: seq<char>)
    requires NumberStart(a) < |a| && (x == [] || x[0] !in DIGITS)
    ensures Strtol(a + x) == Strtol(a)
  {
    var p := NumberStart(a);
    NumberStartCat(a, x);
    NumberInCat(Negative(a), p, a[p..], x);
    assert (a + x)[p..] == a[p..] + x;
  }

  lemma StrtolLonger(a: seq<char>, more: string)
    requires ScanEnd(a) == |a| && AllIn(more, DIGITS) && more != []
    ensures AllIn(a[NumberStart(a)..] + more, DIGITS)
    ensures Strtol(a + more).0 == Signedly(Negative(a), a[NumberStart(a)..] + more)
  {
    AllDigits(a);
    NumberStartDigits(a, more);
    StrtolOfOpen(a + more, a[NumberStart(a)..] + more);
  }

  /** What follows further digits is not looked at. */
  lemma StrtolUpToDigits(a: seq<char>, y: string)
    requires ScanEnd(a) == |a| && NumberStart(a) < |a|
    ensures Strtol(a + y) == Strtol(a + y[..Span(y, DIGITS)])
  {
    var more, x := y[..Span(y, DIGITS)], y[Span(y, DIGITS)..];
    if more == [] { assert a + more == a; } else { NumberStartDigits(a, more); }
    StrtolUpTo(a + more, x);
    CutBehind(a, y, |more|);
  }

  lemma CutBehind(a: seq<char>, y: seq<char>, n: nat)
    requires n <= |y|
    ensures a + y == a + y[..n] + y[n..]
  {
  }

  lemma {:induction false} CStrCat(a: seq<char>, x: seq<char>)
    ensures CStr(a + x) == if NUL in a then CStr(a) else a + CStr(x)
    ensures NUL !in a ==> CStr(a) == a
  {
    if a == [] {
      assert a + x == x;
    } else {
      assert (a + x)[1..] == a[1..] + x;
      CStrCat(a[1..], x);
    }
  }
}
