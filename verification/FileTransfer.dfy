/**
  Sending one file to the servers of programs 13 and 15: the header a client prints and a server
  takes apart, the client's sending loop, and the blocking receiver of program 13.
 */
module FileTransfer {
  import opened CStrings
  import opened Cutting
  import opened Sequences

  const MESSAGE_SIZE: nat := 1024
  const FILENAME_SIZE: nat := 256
  const COLON: set<char> := {':'}
  const SLASH: set<char> := {'/'}

  // ---------------------------------------------------------- the header

  datatype Header = NoSize | BadSize | Header(name: string, size: nat)

  /** Storing a long in a size_t. */
  function ToSize(v: int): (r: nat)
    ensures 0 <= v <= LONG_MAX ==> r == v
    ensures -LONG_MAX - 1 <= v < 0 ==> r == v + 0x1_0000_0000_0000_0000
  {
    v % 0x1_0000_0000_0000_0000
  }

  function Last(ts: seq<string>): string
    requires ts != []
  {
    ts[|ts| - 1]
  }

  /** A header from what stands before and behind the first colon. */
  function HeaderFrom(path: string, digits: string): Header
    requires Tokens(path, SLASH) != []
  {
    var (v, end) := Strtol(digits);
    if end != |digits| then BadSize else Header(Last(Tokens(path, SLASH)), ToSize(v))
  }

  /** What a server makes of a header; a file name must have something besides slashes. */
  function ParseHeader(text: string): Header
    requires Named(text)
  {
    var ts := Tokens(text, COLON);
    if |ts| < 2 then NoSize else HeaderFrom(ts[0], ts[1])
  }

  predicate Named(text: string) {
    |Tokens(text, COLON)| >= 2 ==> Tokens(Tokens(text, COLON)[0], SLASH) != []
  }

  lemma HeaderOfTokens(text: string, path: string, rest: seq<string>)
    requires Tokens(text, COLON) == [path] + rest && Named(text)
    ensures rest != [] ==> Tokens(path, SLASH) != []
    ensures ParseHeader(text) == if rest == [] then NoSize else HeaderFrom(path, rest[0])
  {
    assert ([path] + rest)[0] == path;
  }

  lemma NoHeader(text: string)
    requires Tokens(text, COLON) == []
    ensures Named(text) && ParseHeader(text) == NoSize
  {
  }

  /** One round of the loop over the components: the next one is taken, and the one after it fetched. */
  method NextComponent(scanner: Scanner, next: Token) returns (name: string, next': Token)
    requires InHand(scanner, next) && next.Token?
    modifies scanner`save, scanner.buf
    ensures InHand(scanner, next') && old(scanner.save) <= scanner.save
    ensures old(Coming(scanner, next, SLASH)) == [name] + Coming(scanner, next', SLASH)
    ensures Untouched(old(scanner.buf[..]), scanner.buf[..], old(scanner.save), scanner.end)
  {
    name := scanner.buf[next.start..next.stop];
    next' := Cut(scanner, SLASH, []);
  }

  lemma LastOfRest(name: string, rest: seq<string>)
    ensures Last([name] + rest) == if rest == [] then name else Last(rest)
  {
  }

  /** The string the last strtok call delivers. */
  method LastToken(scanner: Scanner) returns (name: string)
    requires scanner.Valid() && Tokens(scanner.Rest(), SLASH) != []
    modifies scanner`save, scanner.buf
    ensures name == Last(Tokens(old(scanner.Rest()), SLASH))
    ensures Untouched(old(scanner.buf[..]), scanner.buf[..], old(scanner.save), old(scanner.end))
  {
    ghost var start, was := scanner.save, scanner.buf[..];
    ghost var last := Last(Tokens(scanner.Rest(), SLASH));
    var next := Cut(scanner, SLASH, []);
    name := [];
    while next.Token?
      invariant InHand(scanner, next) && start <= scanner.save
      invariant Untouched(was, scanner.buf[..], start, scanner.end)
      invariant last == if next.Token? then Last(Coming(scanner, next, SLASH)) else name
      decreases |Coming(scanner, next, SLASH)|
    {
      ghost var before, from := scanner.buf[..], scanner.save;
      name, next := NextComponent(scanner, next);
      LastOfRest(name, Coming(scanner, next, SLASH));
      UntouchedTwice(was, before, scanner.buf[..], start, from, scanner.end);
    }
  }

  /** The second strtok pass, over the name; the digits behind it are still there afterwards. */
  method LastComponentAt(buffer: array<char>, nameStart: nat, ghost sizeStart: nat) returns (name: string)
    requires nameStart + |At(buffer[..], nameStart)| <= sizeStart < buffer.Length
    requires Tokens(At(buffer[..], nameStart), SLASH) != []
    modifies buffer
    ensures name == Last(Tokens(old(At(buffer[..], nameStart)), SLASH))
    ensures At(buffer[..], sizeStart) == old(At(buffer[..], sizeStart))
  {
    ghost var was := buffer[..];
    ghost var stop := nameStart + |At(was, nameStart)|;
    assert was[nameStart..][stop - nameStart] == was[stop] == NUL;
    var names := new Scanner(buffer, nameStart);
    assert names.end == stop;
    name := LastToken(names);
    SuffixKept(was, buffer[..], stop, sizeStart);
  }

  /** Name and size. */
  method TakeApart(buffer: array<char>, nameStart: nat, sizeStart: nat) returns (h: Header)
    requires nameStart + |At(buffer[..], nameStart)| <= sizeStart < buffer.Length
    requires Tokens(At(buffer[..], nameStart), SLASH) != []
    modifies buffer
    ensures h == HeaderFrom(old(At(buffer[..], nameStart)), old(At(buffer[..], sizeStart)))
  {
    var name := LastComponentAt(buffer, nameStart, sizeStart);
    var digits := At(buffer[..], sizeStart);
    var (size, end) := Strtol(digits);
    h := if end != |digits| then BadSize else Header(name, ToSize(size));
  }

  /** What comes behind the name: the size, if there is anything. */
  method ParseBehindName(scanner: Scanner, nameStart: nat) returns (h: Header)
    requires scanner.Valid() && EndBy(scanner.buf[..], [nameStart], scanner.save)
    requires Tokens(scanner.Rest(), COLON) != [] ==> Tokens(At(scanner.buf[..], nameStart), SLASH) != []
    modifies scanner`save, scanner.buf
    ensures var (path, rest) := (old(At(scanner.buf[..], nameStart)), Tokens(old(scanner.Rest()), COLON));
      if rest == [] then h == NoSize else Tokens(path, SLASH) != [] && h == HeaderFrom(path, rest[0])
  {
    ghost var path := At(scanner.buf[..], nameStart);
    assert Args(scanner.buf[..], [nameStart])[0] == path;
    var sizeToken := Cut(scanner, COLON, [nameStart]);
    if sizeToken.NoToken? {
      return NoSize;
    }
    assert Args(scanner.buf[..], [nameStart])[0] == path;
    h := TakeApart(scanner.buf, nameStart, sizeToken.start);
  }

  /** The first pass finds the name and the size, the second cuts up the name. */
  method ParseMessage(buffer: array<char>) returns (h: Header)
    requires NUL in buffer[..] && Named(At(buffer[..], 0))
    modifies buffer
    ensures h == ParseHeader(old(At(buffer[..], 0)))
  {
    hide ParseHeader, HeaderFrom, Named;
    ghost var text := At(buffer[..], 0);
    assert buffer[0..] == buffer[..];
    var scanner := new Scanner(buffer, 0);
    var nameToken := Cut(scanner, COLON, []);
    if nameToken.NoToken? {
      NoHeader(text);
      return NoSize;
    }
    HeaderOfTokens(text, At(buffer[..], nameToken.start), Tokens(scanner.Rest(), COLON));
    h := ParseBehindName(scanner, nameToken.start);
  }

  /** What the client prints. */
  function HeaderText(path: string, size: nat): string { path + ":" + Dec(size) }

  /** The last component of a path: what stands behind its last slash. */
  lemma {:induction false} LastComponent(dir: string, base: string)
    requires Word(base, SLASH) && (dir == [] || dir[|dir| - 1] == '/')
    ensures Tokens(dir + base, SLASH) != [] && Last(Tokens(dir + base, SLASH)) == base
    decreases |dir|
  {
    var path := dir + base;
    if dir == [] {
      assert [] + base + [] == path;
      TokensCons([], base, [], SLASH);
    } else if dir[0] == '/' {
      assert path[1..] == dir[1..] + base;
      LastComponent(dir[1..], base);
    } else {
      var e := CSpan(path, SLASH);
      assert path[|dir| - 1] == '/';
      assert path[e..] == dir[e..] + base;
      LastComponent(dir[e..], base);
    }
  }

  lemma TokensOfHeader(path: string, size: nat)
    requires Word(path, COLON)
    ensures Tokens(HeaderText(path, size), COLON) == [path] + [Dec(size)]
  {
    DecIsFree(size, []);
    assert Dec(size) + [] == Dec(size);
    TokensOfPair(path, Dec(size));
  }

  /** The server gets back the file's size and the last component of its path. */
  lemma HeaderRoundTrip(dir: string, base: string, size: nat)
    requires Word(base, SLASH) && (dir == [] || dir[|dir| - 1] == '/')
    requires NoneIn(dir + base, COLON) && size <= LONG_MAX
    ensures Named(HeaderText(dir + base, size))
    ensures ParseHeader(HeaderText(dir + base, size)) == Header(base, size)
    ensures HeaderText(dir + base, size) == dir + base + ":" + Dec(size)
  {
    TokensOfHeader(dir + base, size);
    HeaderFromPrinted(dir, base, size);
  }

  /** A header in which something other than a digit follows the size is refused, and so is one without a colon. */
  lemma BadHeaders(path: string, size: nat, junk: string)
    requires Word(path, COLON) && Tokens(path, SLASH) != [] && NoneIn(junk, COLON)
    requires junk != [] && junk[0] !in DIGITS && size <= LONG_MAX
    ensures Named(HeaderText(path, size) + junk) && ParseHeader(HeaderText(path, size) + junk) == BadSize
    ensures Named(path) && ParseHeader(path) == NoSize
  {
    DecIsFree(size, junk);
    TokensOfPair(path, Dec(size) + junk);
    assert HeaderText(path, size) + junk == path + ":" + (Dec(size) + junk);
    StrtolOfDec(size, junk);
    TokensOfOne(path);
  }

  lemma DecIsFree(n: nat, junk: string)
    requires NoneIn(junk, COLON)
    ensures Word(Dec(n) + junk, COLON)
  {
    var w := Dec(n);
    assert forall i :: 0 <= i < |w| ==> w[i] in DIGITS;
  }

  lemma TokensOfOne(path: string)
    requires Word(path, COLON)
    ensures Tokens(path, COLON) == [path]
  {
    assert [] + path + [] == path;
    TokensCons([], path, [], COLON);
  }

  lemma TokensOfPair(path: string, w: string)
    requires Word(path, COLON) && Word(w, COLON)
    ensures Tokens(path + ":" + w, COLON) == [path] + [w]
  {
    hide Tokens;
    assert [] + path + (":" + w) == path + ":" + w;
    TokensCons([], path, ":" + w, COLON);
    assert ":" + w + [] == ":" + w;
    TokensCons(":", w, [], COLON);
    TokensOfGap([], COLON);
  }

  lemma HeaderFromPrinted(dir: string, base: string, size: nat)
    requires Word(base, SLASH) && (dir == [] || dir[|dir| - 1] == '/') && size <= LONG_MAX
    ensures Tokens(dir + base, SLASH) != [] && HeaderFrom(dir + base, Dec(size)) == Header(base, size)
  {
    LastComponent(dir, base);
    StrtolOfPrinted(size);
  }

  // ------------------------------------------------------------- the body

  type Chunks = seq<seq<char>>

  function Flatten(chunks: Chunks): seq<char> {
    if chunks == [] then [] else chunks[0] + Flatten(chunks[1..])
  }

  /** Chunks as read calls deliver them before the end of the stream. */
  ghost predicate Reads(chunks: Chunks) {
    forall i :: 0 <= i < |chunks| ==> 0 < |chunks[i]| <= MESSAGE_SIZE
  }

  /** What the blocking receiver writes when `size` bytes are still to come. */
  function Received(size: int, chunks: Chunks): seq<char> {
    if size <= 0 || chunks == [] || chunks[0] == [] then [] else chunks[0] + Received(size - |chunks[0]|, chunks[1..])
  }

  /** The loop of program 13's receive_file; `arriving` is what the read calls return, then nothing. */
  method ReceiveFile(size: nat, arriving: Chunks) returns (file: seq<char>)
    ensures file == Received(size, arriving)
  {
    file := [];
    var totalRead, i := 0, 0;
    while size > totalRead
      invariant i <= |arriving| && file + Received(size - totalRead, arriving[i..]) == Received(size, arriving)
      decreases |arriving| - i
    {
      var buffer := if i < |arriving| then arriving[i] else [];
      if |buffer| == 0 {
        break;
      }
      ghost var rest := Received(size - totalRead - |buffer|, arriving[i..][1..]);
      assert arriving[i..][1..] == arriving[i + 1..];
      CatAssoc(file, buffer, rest);
      file := file + buffer;
      totalRead := totalRead + |buffer|;
      i := i + 1;
    }
  }

  /** It writes the chunks up to the first with which the size is reached. */
  lemma {:induction false} ReceivedIs(size: int, chunks: Chunks, k: nat)
    requires Reads(chunks) && k <= |chunks|
    requires k < |chunks| ==> |Flatten(chunks[..k])| >= size
    requires k > 0 ==> |Flatten(chunks[..k - 1])| < size
    ensures Received(size, chunks) == Flatten(chunks[..k])
    decreases k
  {
    if k == 0 {
      assert chunks[..0] == [];
    } else {
      assert chunks[..k][1..] == chunks[1..][..k - 1];
      if k == 1 {
        assert chunks[..0] == [] && chunks[1..][..0] == [];
      } else {
        assert chunks[..k - 1][1..] == chunks[1..][..k - 2];
      }
      ReceivedIs(size - |chunks[0]|, chunks[1..], k - 1);
    }
  }

  /** A body of the announced size arrives whole, however it was cut up. */
  lemma {:induction false} WholeBody(chunks: Chunks)
    requires Reads(chunks)
    ensures Received(|Flatten(chunks)|, chunks) == Flatten(chunks)
  {
    if chunks != [] { WholeBody(chunks[1..]); }
  }

  lemma {:induction false} FlattenSnoc(chunks: Chunks, c: seq<char>)
    ensures Flatten(chunks + [c]) == Flatten(chunks) + c
  {
    if chunks == [] {
      assert [c][1..] == [];
    } else {
      assert (chunks + [c])[1..] == chunks[1..] + [c];
      FlattenSnoc(chunks[1..], c);
    }
  }

  /** send_file: the header in a message of its own, then the file; the last read finds nothing. */
  method SendFile(path: string, source: seq<char>) returns (header: seq<char>, body: Chunks)
    requires NUL !in path && |path| < FILENAME_SIZE && |source| <= LONG_MAX
    ensures |header| == MESSAGE_SIZE && CStr(header) == HeaderText(path, |source|)
    ensures Reads(body) && Flatten(body) == source
  {
    var text := HeaderText(path, |source|);
    HeaderFits(path, |source|);
    header := text + [NUL] + seq(MESSAGE_SIZE - |text| - 1, _ => NUL);
    CStrOf(text, seq(MESSAGE_SIZE - |text| - 1, _ => NUL));
    body := [];
    var offset := 0;
    while true
      invariant offset <= |source| && Reads(body) && Flatten(body) == source[..offset]
      decreases |source| - offset
    {
      var bytesRead := if |source| - offset < MESSAGE_SIZE then |source| - offset else MESSAGE_SIZE;
      if bytesRead == 0 {
        break;
      }
      FlattenSnoc(body, source[offset..offset + bytesRead]);
      body := body + [source[offset..offset + bytesRead]];
      offset := offset + bytesRead;
    }
  }

  lemma HeaderHasNoNul(path: string, size: nat)
    requires NUL !in path
    ensures NUL !in HeaderText(path, size)
  {
    var w := Dec(size);
    assert forall i :: 0 <= i < |w| ==> w[i] in DIGITS;
  }

  lemma HeaderFits(path: string, size: nat)
    requires NUL !in path && |path| < FILENAME_SIZE && size <= LONG_MAX
    ensures NUL !in HeaderText(path, size) && |HeaderText(path, size)| < MESSAGE_SIZE
  {
    HeaderHasNoNul(path, size);
    TwentyDigits();
    DecLength(size, 20);
  }

  lemma TwentyDigits()
    ensures LONG_MAX < Pow10(20)
  {
    assert Pow10(4) == 10000 && Pow10(8) == 100000000 && Pow10(12) == 1000000000000;
    assert Pow10(16) == 10000000000000000 && Pow10(20) == 100000000000000000000;
  }

  /**
    From file to file: whatever way the body is cut up on its way, program 13 recovers the last
    component of the path, the size, and the file.
   */
  lemma FileRoundTrip(dir: string, base: string, source: seq<char>, chunks: Chunks)
    requires Word(base, SLASH) && (dir == [] || dir[|dir| - 1] == '/') && NoneIn(dir + base, COLON)
    requires |source| <= LONG_MAX && Reads(chunks) && Flatten(chunks) == source
    ensures Named(HeaderText(dir + base, |source|))
    ensures var h := ParseHeader(HeaderText(dir + base, |source|));
      h == Header(base, |source|) && Received(h.size, chunks) == source
  {
    HeaderRoundTrip(dir, base, |source|);
    WholeBody(chunks);
  }
}
