/**
  The text record of program 09: how the writer prints a batch of random numbers into a
  1024-byte record, and how the reader copies, tokenises and parses it again.
 */
module RecordText {
  import opened CStrings

  const LINE_MAX: nat := 1024
  const BLANK: set<char> := {' '}

  /** What rand() returns. */
  type Random = n: int | 0 <= n <= INT_MAX

  /** The whole text of a batch: every number printed with "%d ". */
  function Printed(ns: seq<Random>): (t: string)
    ensures NUL !in t
  {
    if ns == [] then [] else Printed(ns[..|ns| - 1]) + Dec(ns[|ns| - 1]) + " "
  }

  /** `k` is the length of the longest prefix of the batch whose text fits the record. */
  ghost predicate Fits(ns: seq<Random>, k: nat) {
    && k <= |ns| && |Printed(ns[..k])| <= LINE_MAX
    && (k < |ns| ==> |Printed(ns[..k + 1])| > LINE_MAX)
  }

  /** How many numbers of the batch the writer keeps. */
  function Kept(ns: seq<Random>): (k: nat)
    ensures Fits(ns, k)
  {
    if ns == [] then 0 else
      var front := ns[..|ns| - 1];
      var k := Kept(front);
      assert front[..k] == ns[..k] && (k < |front| ==> front[..k + 1] == ns[..k + 1]);
      assert ns[..|ns|] == ns;
      if k == |front| && |Printed(ns)| <= LINE_MAX then |ns| else k
  }

  /** No other length is the longest that fits. */
  lemma KeptIsTheOnlyFit(ns: seq<Random>, k: nat)
    requires Fits(ns, k)
    ensures k == Kept(ns)
  {
    var j := Kept(ns);
    if j < k { PrintedGrows(ns, j + 1, k); }
    if k < j { PrintedGrows(ns, k + 1, j); }
  }

  lemma {:induction false} PrintedGrows(ns: seq<Random>, i: nat, j: nat)
    requires i <= j <= |ns|
    ensures |Printed(ns[..i])| <= |Printed(ns[..j])|
  {
    if i < j {
      assert ns[..j][..j - 1] == ns[..j - 1];
      PrintedGrows(ns, i, j - 1);
    }
  }

  /** The record on disk: the text, NULs up to the end, and a newline as the very last byte. */
  function Record(text: string): (r: seq<char>)
    requires |text| <= LINE_MAX
    ensures |r| == LINE_MAX
  {
    Padded(text, LINE_MAX)[LINE_MAX - 1 := '\n']
  }

  // ------------------------------------------------------------ the writer

  method Strlen(buffer: array<char>) returns (length: nat)
    requires NUL in buffer[..]
    ensures length == |CStr(buffer[..])| < buffer.Length
  {
    ghost var text := CStr(buffer[..]);
    assert forall i :: 0 <= i < |text| ==> text[i] == buffer[..][i];
    length := 0;
    while buffer[length] != NUL
      invariant length <= |text| < buffer.Length
      decreases |text| - length
    {
      length := length + 1;
    }
  }

  /** Memory `was` with `s` written at `at`. */
  function Spliced(was: seq<char>, at: nat, s: seq<char>): (r: seq<char>)
    requires at + |s| <= |was|
    ensures |r| == |was|
  {
    was[..at] + s + was[at + |s|..]
  }

  lemma SplicedStep(was: seq<char>, at: nat, s: seq<char>, c: char)
    requires at + |s| < |was|
    ensures Spliced(was, at, s)[at + |s| := c] == Spliced(was, at, s + [c])
  {
  }

  /** strncat: the string goes where the NUL was, with a new NUL behind it. */
  method Strncat(buffer: array<char>, s: string, n: nat)
    requires NUL in buffer[..] && |s| <= n && NUL !in s
    requires |CStr(buffer[..])| + |s| < buffer.Length
    modifies buffer
    ensures buffer[..] == Spliced(old(buffer[..]), |old(CStr(buffer[..]))|, s + [NUL])
  {
    ghost var was := buffer[..];
    var length := Strlen(buffer);
    for i := 0 to |s|
      invariant buffer[..] == Spliced(was, length, s[..i])
    {
      buffer[length + i] := s[i];
      SplicedStep(was, length, s[..i], s[i]);
      assert s[..i + 1] == s[..i] + [s[i]];
    }
    buffer[length + |s|] := NUL;
    assert s[..|s|] == s;
    SplicedStep(was, length, s, NUL);
  }

  /** A text in a buffer that is all NULs behind it. */
  function Padded(text: string, size: nat): (r: seq<char>)
    requires |text| <= size
    ensures |r| == size
  {
    text + seq(size - |text|, _ => NUL)
  }

  /**
    The writer's buffer and the byte behind it, which belongs to something else and was `beyond`:
    a text that fills the buffer puts its NUL there.
   */
  function Memory(text: string, beyond: char): (r: seq<char>)
    requires |text| <= LINE_MAX
    ensures |r| == LINE_MAX + 1
  {
    if |text| < LINE_MAX then Padded(text, LINE_MAX) + [beyond] else text + [NUL]
  }

  lemma MemoryIsCStr(text: string, beyond: char)
    requires NUL !in text && |text| < LINE_MAX
    ensures CStr(Memory(text, beyond)) == text && NUL in Memory(text, beyond)
  {
    var junk := seq(LINE_MAX - |text| - 1, _ => NUL) + [beyond];
    assert Memory(text, beyond) == text + [NUL] + junk;
    CStrOf(text, junk);
    assert Memory(text, beyond)[|text|] == NUL;
  }

  lemma MemorySplice(text: string, s: string, beyond: char)
    requires |text| + |s| <= LINE_MAX && s != []
    ensures Spliced(Memory(text, beyond), |text|, s + [NUL]) == Memory(text + s, beyond)
  {
  }

  /** The text the writer keeps of a batch fills the record to its last byte. */
  predicate Full(ns: seq<Random>) {
    |Printed(ns[..Kept(ns)])| == LINE_MAX
  }

  /**
    The first half of put_data. The random numbers it draws are a parameter, and so is the byte
    behind its 1024-byte buffer, which is the last of `memory`: strncat writes a NUL to it if and
    only if the text is exactly as long as the buffer.
   */
  method BuildRecord(ns: seq<Random>, beyond: char) returns (memory: array<char>)
    ensures memory.Length == LINE_MAX + 1
    ensures memory[..LINE_MAX] == Record(Printed(ns[..Kept(ns)]))
    ensures memory[LINE_MAX] == if Full(ns) then NUL else beyond
  {
    memory := new char[LINE_MAX + 1](_ => NUL);
    memory[LINE_MAX] := beyond;
    var bufferLength, i := 0, 0;
    while i < |ns|
      invariant i <= |ns| && bufferLength == |Printed(ns[..i])| <= LINE_MAX
      invariant memory[..] == Memory(Printed(ns[..i]), beyond)
    {
      var number := Dec(ns[i]) + " ";
      PrintedSnoc(ns, i);
      if bufferLength + |number| > LINE_MAX { break; }
      MemoryIsCStr(Printed(ns[..i]), beyond);
      Strncat(memory, number, LINE_MAX - bufferLength);
      MemorySplice(Printed(ns[..i]), number, beyond);
      bufferLength := bufferLength + |number|;
      i := i + 1;
    }
    KeptIsTheOnlyFit(ns, i);
    ghost var text := Printed(ns[..i]);
    memory[LINE_MAX - 1] := '\n';
    RecordBytes(text, beyond);
  }

  lemma RecordBytes(text: string, beyond: char)
    requires |text| <= LINE_MAX
    ensures Memory(text, beyond)[LINE_MAX - 1 := '\n'][..LINE_MAX] == Record(text)
  {
  }

  /** `k` times the same number. */
  function Repeated(n: Random, k: nat): (ns: seq<Random>)
    ensures |ns| == k && forall i :: 0 <= i < k ==> ns[i] == n
  {
    seq(k, _ => n)
  }

  lemma {:induction false} PrintedRepeated(n: Random, k: nat)
    requires |Dec(n)| == 10
    ensures |Printed(Repeated(n, k))| == 11 * k
  {
    if k > 0 {
      assert Repeated(n, k)[..k - 1] == Repeated(n, k - 1);
      PrintedRepeated(n, k - 1);
    }
  }

  lemma DecOfTenDigits()
    ensures |Dec(1000000000)| == 10 && |Dec(100000000)| == 9 && |Dec(1)| == 1
  {
    assert |Dec(100)| == 3;
    assert |Dec(10000)| == 5;
    assert |Dec(1000000)| == 7;
    assert |Dec(100000000)| == 9;
  }

  /** A batch of a size the writer draws, 50 to 149, for which that happens. */
  lemma RecordCanBeFull() returns (ns: seq<Random>)
    ensures 50 <= |ns| <= 149 && Full(ns)
  {
    var many := Repeated(1000000000, 92);
    DecOfTenDigits();
    PrintedRepeated(1000000000, 92);
    ns := many + [1, 100000000];
    assert ns[..92] == many;
    PrintedSnoc(ns, 92);
    PrintedSnoc(ns, 93);
    assert ns[..94] == ns;
    KeptIsTheOnlyFit(ns, 94);
  }

  lemma PrintedSnoc(ns: seq<Random>, i: nat)
    requires i < |ns|
    ensures Printed(ns[..i + 1]) == Printed(ns[..i]) + (Dec(ns[i]) + " ") && NUL !in Dec(ns[i])
  {
    assert ns[..i + 1][..i] == ns[..i];
    assert forall j :: 0 <= j < |Dec(ns[i])| ==> Dec(ns[i])[j] in DIGITS;
  }

  // ------------------------------------------------------------ the reader

  /** What strncpy_s leaves in a 1024-byte buffer. */
  function Copied(text: seq<char>): (r: seq<char>)
    requires |text| == LINE_MAX
    ensures |r| == LINE_MAX && r[LINE_MAX - 1] == NUL
  {
    Padded(CStr(text), LINE_MAX)[LINE_MAX - 1 := NUL]
  }

  method StrncpyS(dest: array<char>, src: seq<char>)
    requires dest.Length == |src| == LINE_MAX
    modifies dest
    ensures dest[..] == Copied(src)
  {
    ghost var t := CStr(src);
    var i := 0;
    while i < LINE_MAX && src[i] != NUL
      invariant i <= |t| && dest[..i] == t[..i]
    {
      dest[i] := src[i];
      i := i + 1;
    }
    assert t[..i] == t;
    while i < LINE_MAX
      invariant |t| <= i <= LINE_MAX && dest[..i] == t + seq(i - |t|, _ => NUL)
    {
      dest[i] := NUL;
      i := i + 1;
    }
    dest[LINE_MAX - 1] := NUL;
  }

  /** One round of the reader's loop: a token counts only if strtol consumes all of it. */
  function Update(m: (int, int), token: string): (int, int) {
    var (v, end) := Strtol(token);
    var num := ToInt(v);
    if end != |token| then m else (if num < m.0 then num else m.0, if num > m.1 then num else m.1)
  }

  method Consider(min0: int, max0: int, token: string) returns (min: int, max: int)
    ensures (min, max) == Update((min0, max0), token)
  {
    min, max := min0, max0;
    var (v, end) := Strtol(token);
    var num := ToInt(v);
    if end == |token| {
      if num < min { min := num; }
      if num > max { max := num; }
    }
  }

  /** The loop from the running values `m` on. */
  function MinMaxFrom(m: (int, int), ts: seq<string>): (int, int)
    decreases ts
  {
    if ts == [] then m else MinMaxFrom(Update(m, ts[0]), ts[1..])
  }

  /** What the reader makes of a record. */
  function Report(record: seq<char>): (int, int)
    requires |record| == LINE_MAX
  {
    MinMaxFrom((INT_MAX, -1), Tokens(CStr(Copied(record)), BLANK))
  }

  /** get_min_max; strtok must find a first token, for the loop uses it before testing it. */
  method GetMinMax(text: seq<char>) returns (min: int, max: int)
    requires |text| == LINE_MAX && Tokens(CStr(Copied(text)), BLANK) != []
    ensures (min, max) == Report(text)
  {
    var buffer := new char[LINE_MAX];
    StrncpyS(buffer, text);
    assert buffer[0..] == Copied(text);
    var scanner := new Scanner(buffer, 0);
    min, max := ScanMinMax(scanner);
  }

  method ScanMinMax(scanner: Scanner) returns (min: int, max: int)
    requires scanner.Valid()
    modifies scanner, scanner.buf
    ensures (min, max) == MinMaxFrom((INT_MAX, -1), Tokens(old(scanner.Rest()), BLANK))
  {
    ghost var result := MinMaxFrom((INT_MAX, -1), Tokens(scanner.Rest(), BLANK));
    var token := scanner.Next(BLANK);
    min, max := INT_MAX, -1;
    while token.Token?
      invariant scanner.Valid() && (token.Token? ==> token.start <= token.stop <= scanner.buf.Length)
      invariant MinMaxFrom((min, max), Coming(scanner, token, BLANK)) == result
      decreases |Coming(scanner, token, BLANK)|
    {
      min, max := Consider(min, max, scanner.buf[token.start..token.stop]);
      token := scanner.Next(BLANK);
    }
  }

  // ------------------------------------------------------- the round trip

  ghost predicate IsMin(m: int, ns: seq<Random>) { m in ns && forall n :: n in ns ==> m <= n }
  ghost predicate IsMax(m: int, ns: seq<Random>) { m in ns && forall n :: n in ns ==> n <= m }

  function Words(ns: seq<Random>): (ws: seq<string>)
    ensures |ws| == |ns|
  {
    seq(|ns|, i requires 0 <= i < |ns| => Dec(ns[i]))
  }

  lemma DecIsWord(n: nat)
    ensures Word(Dec(n), BLANK)
  {
    var w := Dec(n);
    forall i | 0 <= i < |w| ensures w[i] !in BLANK { assert w[i] in DIGITS; }
  }

  lemma TokensOfNumber(n: nat, rest: string)
    ensures Tokens(Dec(n), BLANK) == [Dec(n)]
    ensures Tokens(Dec(n) + " " + rest, BLANK) == [Dec(n)] + Tokens(rest, BLANK)
  {
    var w := Dec(n);
    DecIsWord(n);
    assert [] + w + [] == w;
    TokensCons([], w, [], BLANK);
    assert [] + w + (" " + rest) == w + " " + rest;
    TokensCons([], w, " " + rest, BLANK);
    TokensSkip(" ", rest, BLANK);
  }

  /** Splitting at spaces undoes the printing, whatever follows. */
  lemma {:induction false} TokensOfPrinted(ns: seq<Random>, rest: string)
    ensures Tokens(Printed(ns) + rest, BLANK) == Words(ns) + Tokens(rest, BLANK)
  {
    if ns == [] {
      assert Printed(ns) + rest == rest;
    } else {
      var front, n := ns[..|ns| - 1], ns[|ns| - 1];
      assert Printed(ns) + rest == Printed(front) + (Dec(n) + " " + rest);
      TokensOfPrinted(front, Dec(n) + " " + rest);
      TokensOfNumber(n, rest);
      assert Words(ns) == Words(front) + [Dec(n)];
    }
  }

  /** A text whose last character was cut off still holds the same tokens. */
  lemma TokensOfCut(ns: seq<Random>, n: nat)
    requires ns != [] && |Printed(ns)| - 1 <= n <= |Printed(ns)|
    ensures Tokens(Printed(ns)[..n], BLANK) == Words(ns)
  {
    if n == |Printed(ns)| {
      assert Printed(ns)[..n] == Printed(ns) + [];
      TokensOfPrinted(ns, []);
    } else {
      var front, last := ns[..|ns| - 1], ns[|ns| - 1];
      assert Printed(ns)[..n] == Printed(front) + Dec(last);
      TokensOfPrinted(front, Dec(last));
      TokensOfNumber(last, []);
      assert Words(ns) == Words(front) + [Dec(last)];
    }
  }

  /** The reader's copy loses at most the last character of the text: the byte the newline took. */
  lemma CopyOfRecord(text: string)
    requires NUL !in text && |text| <= LINE_MAX
    ensures CStr(Copied(Record(text))) == text[..if |text| == LINE_MAX then LINE_MAX - 1 else |text|]
  {
    var r := Record(text);
    if |text| < LINE_MAX - 1 {
      var junk := r[|text| + 1..];
      assert r == text + [NUL] + junk;
      CStrOf(text, junk);
      assert Copied(r) == text + [NUL] + Copied(r)[|text| + 1..];
      CStrOf(text, Copied(r)[|text| + 1..]);
      assert text[..|text|] == text;
    } else {
      var t := text[..LINE_MAX - 1];
      assert r == t + ['\n'];
      CStrOf(r, []);
      assert Copied(r) == t + [NUL] + [];
      CStrOf(t, []);
    }
  }

  lemma UpdateWithNumber(m: (int, int), n: nat)
    requires n <= INT_MAX
    ensures Update(m, Dec(n)) == (if n < m.0 then n else m.0, if n > m.1 then n else m.1)
  {
    StrtolOfPrinted(n);
  }

  ghost predicate IsLeast(m: int, start: int, ns: seq<Random>) {
    && (m == start || m in ns) && m <= start && forall n :: n in ns ==> m <= n
  }

  ghost predicate IsGreatest(m: int, start: int, ns: seq<Random>) {
    && (m == start || m in ns) && m >= start && forall n :: n in ns ==> m >= n
  }

  lemma {:induction false} MinMaxOfWords(m: (int, int), ns: seq<Random>)
    decreases ns
    ensures var r := MinMaxFrom(m, Words(ns)); IsLeast(r.0, m.0, ns) && IsGreatest(r.1, m.1, ns)
  {
    if ns != [] {
      var n, rest := ns[0], ns[1..];
      assert Words(ns)[0] == Dec(n) && Words(ns)[1..] == Words(rest);
      UpdateWithNumber(m, n);
      MinMaxOfWords(Update(m, Dec(n)), rest);
      assert ns == [n] + rest;
    }
  }

  lemma FirstFits(ns: seq<Random>)
    requires ns != []
    ensures Kept(ns) > 0
  {
    assert Pow10(2) == 100 && Pow10(4) == 10000 && Pow10(6) == 1000000 && Pow10(8) == 100000000;
    assert Pow10(10) == 10000000000;
    DecLength(ns[0], 10);
    PrintedSnoc(ns, 0);
  }

  /** Reading a record splits it into exactly the numbers that were printed. */
  lemma TokensOfRecord(kept: seq<Random>)
    requires kept != [] && |Printed(kept)| <= LINE_MAX
    ensures Tokens(CStr(Copied(Record(Printed(kept)))), BLANK) == Words(kept)
  {
    var text := Printed(kept);
    CopyOfRecord(text);
    TokensOfCut(kept, if |text| == LINE_MAX then LINE_MAX - 1 else |text|);
  }

  /** The reader's report on a record is the minimum and the maximum of the numbers in it. */
  lemma ReportOfRecord(kept: seq<Random>)
    requires kept != [] && |Printed(kept)| <= LINE_MAX
    ensures IsMin(Report(Record(Printed(kept))).0, kept) && IsMax(Report(Record(Printed(kept))).1, kept)
  {
    TokensOfRecord(kept);
    MinMaxOfWords((INT_MAX, -1), kept);
    ExtremesOf(Report(Record(Printed(kept))), kept);
  }

  /** The starting values INT_MAX and -1 never outlive the first number. */
  lemma ExtremesOf(r: (int, int), ns: seq<Random>)
    requires ns != [] && IsLeast(r.0, INT_MAX, ns) && IsGreatest(r.1, -1, ns)
    ensures IsMin(r.0, ns) && IsMax(r.1, ns)
  {
    assert ns[0] in ns;
  }

  /**
    The record round trip: of any batch the reader reports exactly the minimum and the maximum of
    the numbers that fitted, also when the text fills the record to its last or last but one byte.
   */
  lemma RoundTrip(ns: seq<Random>)
    requires ns != []
    ensures ns[..Kept(ns)] != [] && |Printed(ns[..Kept(ns)])| <= LINE_MAX
    ensures var record := Record(Printed(ns[..Kept(ns)]));
      && Tokens(CStr(Copied(record)), BLANK) != []
      && IsMin(Report(record).0, ns[..Kept(ns)])
      && IsMax(Report(record).1, ns[..Kept(ns)])
  {
    FirstFits(ns);
    TokensOfRecord(ns[..Kept(ns)]);
    ReportOfRecord(ns[..Kept(ns)]);
  }
}
