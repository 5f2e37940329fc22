/**
  The texts of the chat of program 06: what a client prints into a message and what the server
  parses out of it.
 */
module ChatText {
  import opened CStrings

  const TEXT_MAX: nat := 1024
  const BUFFER_SIZE: nat := TEXT_MAX - 32 - 3
  const COLON: set<char> := {':'}

  /** What try_parse_message makes of a text: a failure, an id alone, or an id and a body. */
  datatype Parsed = NoId | IdOnly(id: int) | IdAndBody(id: int, body: string)

  /** What strncpy and the final NUL leave of a message text. */
  function Copied(text: seq<char>): (r: string)
    ensures r <= CStr(text) && |r| < TEXT_MAX && (|CStr(text)| < TEXT_MAX ==> r == CStr(text))
    ensures |CStr(text)| >= TEXT_MAX ==> |r| == 1023
  {
    var t := CStr(text);
    if |t| < TEXT_MAX then t else t[..TEXT_MAX - 1]
  }

  function Parse(text: seq<char>): Parsed {
    var ts := Tokens(Copied(text), COLON);
    if ts == [] then NoId else
      var (id, end) := Strtol(ts[0]);
      if end != |ts[0]| then NoId else if |ts| == 1 then IdOnly(id) else IdAndBody(id, ts[1])
  }

  /** A handshake text. */
  function Hello(pid: nat): string { Dec(pid) + ":" }
  /** The text of something a client says. */
  function Line(pid: nat, body: string): string { Dec(pid) + ":" + body }

  /** What a client can say: a line fgets delivers, not empty, without a colon. */
  ghost predicate Sayable(pid: nat, body: string) {
    Word(body, COLON) && NUL !in body && |body| < BUFFER_SIZE && pid <= INT_MAX
  }

  lemma DecIsWord(n: nat)
    ensures Word(Dec(n), COLON) && NUL !in Dec(n)
  {
    var w := Dec(n);
    assert forall i :: 0 <= i < |w| ==> w[i] in DIGITS;
  }

  lemma DecIsShort(pid: nat)
    requires pid <= INT_MAX
    ensures |Dec(pid)| <= 10
  {
    assert Pow10(2) == 100 && Pow10(4) == 10000 && Pow10(6) == 1000000 && Pow10(8) == 100000000;
    assert Pow10(10) == 10000000000;
    DecLength(pid, 10);
  }

  lemma CopiedShort(text: string)
    requires NUL !in text && |text| < TEXT_MAX
    ensures Copied(text) == text
  {
    CStrOf(text, []);
  }

  lemma TokensOfHello(pid: nat)
    ensures Tokens(Hello(pid), COLON) == [Dec(pid)]
  {
    var w := Dec(pid);
    DecIsWord(pid);
    assert [] + w + ":" == Hello(pid);
    TokensCons([], w, ":", COLON);
    TokensOfGap(":", COLON);
  }

  lemma HelloIsShort(pid: nat)
    requires pid <= INT_MAX
    ensures NUL !in Hello(pid) && |Hello(pid)| < TEXT_MAX
  {
    DecIsWord(pid);
    DecIsShort(pid);
  }

  /** A handshake parses to the pid alone. */
  lemma ParseOfHello(pid: nat)
    requires pid <= INT_MAX
    ensures Parse(Hello(pid)) == IdOnly(pid)
  {
    HelloIsShort(pid);
    CopiedShort(Hello(pid));
    TokensOfHello(pid);
    StrtolOfPrinted(pid);
  }

  lemma TokensOfLine(pid: nat, body: string)
    requires Word(body, COLON)
    ensures Tokens(Line(pid, body), COLON) == [Dec(pid), body]
  {
    hide Tokens;
    var w := Dec(pid);
    DecIsWord(pid);
    TokensOfGap([], COLON);
    assert [] + w + (":" + body) == Line(pid, body);
    TokensCons([], w, ":" + body, COLON);
    assert ":" + body + [] == ":" + body;
    TokensCons(":", body, [], COLON);
  }

  lemma LineIsShort(pid: nat, body: string)
    requires Sayable(pid, body)
    ensures NUL !in Line(pid, body) && |Line(pid, body)| < TEXT_MAX
  {
    DecIsWord(pid);
    DecIsShort(pid);
  }

  /** What a client says parses to its pid and what it said. */
  lemma ParseOfLine(pid: nat, body: string)
    requires Sayable(pid, body)
    ensures Parse(Line(pid, body)) == IdAndBody(pid, body)
  {
    LineIsShort(pid, body);
    CopiedShort(Line(pid, body));
    TokensOfLine(pid, body);
    StrtolOfPrinted(pid);
  }

  lemma ParseOfTokens(text: seq<char>, first: string, rest: seq<string>)
    requires Tokens(Copied(text), COLON) == [first] + rest
    ensures var (id, end) := Strtol(first);
      Parse(text) ==
        if end != |first| then NoId else if rest == [] then IdOnly(id) else IdAndBody(id, rest[0])
  {
    assert ([first] + rest)[0] == first && (rest != [] ==> ([first] + rest)[1] == rest[0]);
  }

  /** The local copy of a text: as much of it as fits, and a NUL. */
  method LocalCopy(text: seq<char>) returns (buffer: array<char>)
    ensures fresh(buffer) && buffer.Length == TEXT_MAX && NUL in buffer[0..] && CStr(buffer[0..]) == Copied(text)
  {
    var copy := Copied(text);
    buffer := new char[TEXT_MAX](i => if 0 <= i < |copy| then copy[i] else NUL);
    assert buffer[0..] == copy + [NUL] + seq(TEXT_MAX - |copy| - 1, _ => NUL);
    CStrOf(copy, seq(TEXT_MAX - |copy| - 1, _ => NUL));
    assert buffer[0..][|copy|] == NUL;
  }

  /** try_parse_message over a local copy of the text; strtok must find a first token in it. */
  method TryParseMessage(text: seq<char>) returns (code: int, id: int, body: string)
    requires Tokens(Copied(text), COLON) != []
    ensures code == -1 <==> Parse(text).NoId?
    ensures code == 0 <==> Parse(text) == IdOnly(id)
    ensures code == 1 <==> Parse(text) == IdAndBody(id, body)
  {
    hide Parse;
    var buffer := LocalCopy(text);
    var scanner := new Scanner(buffer, 0);
    var token := scanner.Next(COLON);
    var first := buffer[token.start..token.stop];
    ParseOfTokens(text, first, Tokens(scanner.Rest(), COLON));
    var (value, end) := Strtol(first);
    id, body := value, [];
    if end != |first| {
      return -1, id, body;
    }
    token := scanner.Next(COLON);
    if token.NoToken? {
      return 0, id, body;
    }
    body := buffer[token.start..token.stop];
    return 1, id, body;
  }
}
