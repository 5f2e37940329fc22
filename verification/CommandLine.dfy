/**
  The command line of the shell of program 04: cutting a line at the pipe signs and each piece at
  white space, both with strtok in the same buffer.
 */
module CommandLine {
  import opened CStrings
  import opened Cutting
  import opened Pipeline
  import opened Sequences

  const MAX_ARGV_SIZE: nat := 8192
  const MAX_COMMANDS: nat := 8192
  const FILENAME_MAX: nat := 4096
  const PIPE_DELIM: set<char> := {'|'}
  const NOTHING: Command := Command([], "", "", false)

  predicate Operator(t: string) { t == "<" || t == ">" || t == ">>" }

  /**
    parse_command is defined on these tokens: every operator it reaches has a file name behind it,
    and one that fits its buffer.
   */
  predicate Defined(argc: nat, ts: seq<string>)
    decreases |ts|
  {
    if ts == [] || argc >= MAX_ARGV_SIZE then true
    else if Operator(ts[0]) then |ts| >= 2 && |ts[1]| < FILENAME_MAX && Defined(argc, ts[2..])
    else Defined(argc + 1, ts[1..])
  }

  /** A redirection read into a command: the last one of each side wins. */
  function Redirected(c: Command, op: string, name: string): (r: Command)
    ensures r.argv == c.argv
  {
    if op == "<" then c.(input := name) else c.(output := name, append := op == ">>")
  }

  /** What the loop of parse_command makes of the tokens to come, when it has `c` already. */
  function ParseFrom(c: Command, ts: seq<string>): Command
    requires Defined(|c.argv|, ts)
    decreases |ts|
  {
    if ts == [] || |c.argv| >= MAX_ARGV_SIZE then c
    else if Operator(ts[0]) then ParseFrom(Redirected(c, ts[0], ts[1]), ts[2..])
    else ParseFrom(c.(argv := c.argv + [ts[0]]), ts[1..])
  }

  /** The command read so far: `argv` holds pointers into the buffer. */
  function SoFar(mem: seq<char>, argv: seq<nat>, input: string, output: string, append: bool): Command {
    Command(Args(mem, argv), input, output, append)
  }

  lemma ParseArgument(c: Command, word: string, rest: seq<string>)
    requires |c.argv| < MAX_ARGV_SIZE && !Operator(word) && Defined(|c.argv|, [word] + rest)
    ensures Defined(|c.argv| + 1, rest)
    ensures ParseFrom(c, [word] + rest) == ParseFrom(c.(argv := c.argv + [word]), rest)
  {
    assert ([word] + rest)[1..] == rest;
  }

  lemma ParseRedirection(c: Command, op: string, name: string, rest: seq<string>)
    requires |c.argv| < MAX_ARGV_SIZE && Operator(op) && Defined(|c.argv|, [op] + ([name] + rest))
    ensures Defined(|c.argv|, rest)
    ensures ParseFrom(c, [op] + ([name] + rest)) == ParseFrom(Redirected(c, op, name), rest)
  {
    assert ([op] + ([name] + rest))[2..] == rest;
  }

  /** The file name behind an operator, copied out of the buffer. */
  method Operand(scanner: Scanner, ghost argv: seq<nat>) returns (name: string)
    requires scanner.Valid() && EndBy(scanner.buf[..], argv, scanner.save)
    requires Tokens(scanner.Rest(), SPACES) != []
    modifies scanner`save, scanner.buf
    ensures scanner.Valid() && old(scanner.save) <= scanner.save
    ensures Tokens(old(scanner.Rest()), SPACES) == [name] + Tokens(scanner.Rest(), SPACES)
    ensures Args(scanner.buf[..], argv) == old(Args(scanner.buf[..], argv)) && EndBy(scanner.buf[..], argv, scanner.save)
    ensures Untouched(old(scanner.buf[..]), scanner.buf[..], old(scanner.save), scanner.end)
  {
    var token := Cut(scanner, SPACES, argv);
    name := scanner.buf[token.start..token.stop];
  }

  /**
    The branches of parse_command's loop on the word in hand; `todo` is the word and what is still
    to scan. The file names are copied out, the arguments stay in the buffer.
   */
  method Consume(scanner: Scanner, start: nat, word: string, argv: seq<nat>, input: string, output: string, append: bool)
    returns (argv': seq<nat>, input': string, output': string, append': bool)
    requires scanner.Valid() && At(scanner.buf[..], start) == word && start + |word| <= scanner.save
    requires |argv| < MAX_ARGV_SIZE && Defined(|argv|, [word] + Tokens(scanner.Rest(), SPACES))
    requires EndBy(scanner.buf[..], argv, scanner.save)
    modifies scanner`save, scanner.buf
    ensures scanner.Valid() && old(scanner.save) <= scanner.save
    ensures EndBy(scanner.buf[..], argv', scanner.save)
    ensures |Tokens(scanner.Rest(), SPACES)| <= |Tokens(old(scanner.Rest()), SPACES)|
    ensures Defined(|argv'|, Tokens(scanner.Rest(), SPACES))
    ensures ParseFrom(SoFar(scanner.buf[..], argv', input', output', append'), Tokens(scanner.Rest(), SPACES))
      == ParseFrom(SoFar(old(scanner.buf[..]), argv, input, output, append), [word] + Tokens(old(scanner.Rest()), SPACES))
    ensures Untouched(old(scanner.buf[..]), scanner.buf[..], old(scanner.save), scanner.end)
  {
    ghost var c := SoFar(scanner.buf[..], argv, input, output, append);
    argv', input', output', append' := argv, input, output, append;
    if Operator(word) {
      var name := Operand(scanner, argv);
      ParseRedirection(c, word, name, Tokens(scanner.Rest(), SPACES));
      if word == "<" {
        input' := name;
      } else {
        output', append' := name, word == ">>";
      }
    } else {
      ParseArgument(c, word, Tokens(scanner.Rest(), SPACES));
      ArgsSnoc(scanner.buf[..], argv, start);
      argv' := argv + [start];
    }
  }

  /** One round of the loop: the word in hand is dealt with, and the next one fetched. */
  method Round(scanner: Scanner, token: Token, argv: seq<nat>, input: string, output: string, append: bool)
    returns (token': Token, argv': seq<nat>, input': string, output': string, append': bool)
    requires InHand(scanner, token) && token.Token? && EndBy(scanner.buf[..], argv, scanner.save)
    requires |argv| < MAX_ARGV_SIZE && Defined(|argv|, Coming(scanner, token, SPACES))
    modifies scanner`save, scanner.buf
    ensures InHand(scanner, token') && old(scanner.save) <= scanner.save && EndBy(scanner.buf[..], argv', scanner.save)
    ensures |Coming(scanner, token', SPACES)| < |old(Coming(scanner, token, SPACES))|
    ensures Defined(|argv'|, Coming(scanner, token', SPACES))
    ensures ParseFrom(SoFar(scanner.buf[..], argv', input', output', append'), Coming(scanner, token', SPACES))
      == old(ParseFrom(SoFar(scanner.buf[..], argv, input, output, append), Coming(scanner, token, SPACES)))
    ensures Untouched(old(scanner.buf[..]), scanner.buf[..], old(scanner.save), scanner.end)
  {
    ghost var was, lo := scanner.buf[..], scanner.save;
    argv', input', output', append' :=
      Consume(scanner, token.start, scanner.buf[token.start..token.stop], argv, input, output, append);
    ghost var before, mid := scanner.buf[..], scanner.save;
    token' := Cut(scanner, SPACES, argv');
    UntouchedTwice(was, before, scanner.buf[..], lo, mid, scanner.end);
  }

  /** The loop of parse_command over a scanner. */
  method ParseLoop(scanner: Scanner) returns (argv: seq<nat>, input: string, output: string, append: bool)
    requires scanner.Valid() && Defined(0, Tokens(scanner.Rest(), SPACES))
    modifies scanner`save, scanner.buf
    ensures SoFar(scanner.buf[..], argv, input, output, append)
      == ParseFrom(NOTHING, Tokens(old(scanner.Rest()), SPACES))
    ensures Untouched(old(scanner.buf[..]), scanner.buf[..], old(scanner.save), scanner.end)
  {
    ghost var start, was := scanner.save, scanner.buf[..];
    ghost var goal := ParseFrom(NOTHING, Tokens(scanner.Rest(), SPACES));
    argv, input, output, append := [], "", "", false;
    var token := Cut(scanner, SPACES, argv);
    while token.Token? && |argv| < MAX_ARGV_SIZE
      invariant InHand(scanner, token) && start <= scanner.save && EndBy(scanner.buf[..], argv, scanner.save)
      invariant Defined(|argv|, Coming(scanner, token, SPACES))
      invariant ParseFrom(SoFar(scanner.buf[..], argv, input, output, append), Coming(scanner, token, SPACES)) == goal
      invariant Untouched(was, scanner.buf[..], start, scanner.end)
      decreases |Coming(scanner, token, SPACES)|
    {
      ghost var before, from := scanner.buf[..], scanner.save;
      token, argv, input, output, append := Round(scanner, token, argv, input, output, append);
      UntouchedTwice(was, before, scanner.buf[..], start, from, scanner.end);
    }
  }

  /** One piece of a line is a command parse_command is defined on. */
  predicate Parsable(piece: string) {
    Tokens(piece, SPACES) != [] && Defined(0, Tokens(piece, SPACES))
  }

  function Parse(piece: string): Command
    requires Parsable(piece)
  {
    ParseFrom(NOTHING, Tokens(piece, SPACES))
  }

  /**
    parse_command on the piece at `start`; a first word must be there.  It cuts that piece up and
    touches nothing else in the buffer.
   */
  method ParseCommand(buf: array<char>, start: nat, ghost piece: string)
    returns (argv: seq<nat>, input: string, output: string, append: bool)
    requires start + |piece| < buf.Length && At(buf[..], start) == piece && Parsable(piece)
    modifies buf
    ensures SoFar(buf[..], argv, input, output, append) == Parse(piece)
    ensures Untouched(old(buf[..]), buf[..], start, start + |piece|)
  {
    assert buf[start..][|piece|] == NUL;
    var scanner := new Scanner(buf, start);
    argv, input, output, append := ParseLoop(scanner);
  }

  // ------------------------------------------------------ the whole line

  /** Strings at these places do not overlap: each begins no earlier than where the one before ends. */
  ghost predicate Apart(ps: seq<nat>, texts: seq<string>) {
    |ps| == |texts| && forall i, j :: 0 <= i < j < |ps| ==> ps[i] + |texts[i]| <= ps[j]
  }

  lemma EndBySnoc(mem: seq<char>, ps: seq<nat>, start: nat, bound: nat)
    requires EndBy(mem, ps, bound) && start + |At(mem, start)| <= bound
    ensures EndBy(mem, ps + [start], bound)
  {
  }

  lemma ApartSnoc(mem: seq<char>, ps: seq<nat>, start: nat)
    requires Apart(ps, Args(mem, ps)) && EndBy(mem, ps, start)
    ensures Apart(ps + [start], Args(mem, ps) + [At(mem, start)])
  {
  }

  function FirstCommands(ts: seq<string>): seq<string> {
    if |ts| <= MAX_COMMANDS then ts else ts[..MAX_COMMANDS]
  }

  /** The piece in hand goes to the others, and the next one is fetched. */
  method TakePiece(scanner: Scanner, token: Token, commands: seq<nat>) returns (token': Token, commands': seq<nat>)
    requires InHand(scanner, token) && token.Token? && EndBy(scanner.buf[..], commands, token.start)
    requires Apart(commands, Args(scanner.buf[..], commands))
    modifies scanner`save, scanner.buf
    ensures InHand(scanner, token') && |commands'| == |commands| + 1
    ensures EndBy(scanner.buf[..], commands', scanner.save)
    ensures token'.Token? ==> EndBy(scanner.buf[..], commands', token'.start)
    ensures Args(scanner.buf[..], commands') + Coming(scanner, token', PIPE_DELIM)
      == old(Args(scanner.buf[..], commands) + Coming(scanner, token, PIPE_DELIM))
    ensures |Coming(scanner, token', PIPE_DELIM)| < |old(Coming(scanner, token, PIPE_DELIM))|
    ensures Apart(commands', Args(scanner.buf[..], commands'))
  {
    ShiftOne(Args(scanner.buf[..], commands), Coming(scanner, token, PIPE_DELIM));
    ApartSnoc(scanner.buf[..], commands, token.start);
    ArgsSnoc(scanner.buf[..], commands, token.start);
    EndBySnoc(scanner.buf[..], commands, token.start, scanner.save);
    commands' := commands + [token.start];
    token' := Cut(scanner, PIPE_DELIM, commands');
  }

  /** The first loop of run: cuts the line at the pipe signs; there must be something between them. */
  method SplitCommands(buf: array<char>) returns (commands: seq<nat>)
    requires NUL in buf[..] && Tokens(At(buf[..], 0), PIPE_DELIM) != []
    modifies buf
    ensures Args(buf[..], commands) == FirstCommands(Tokens(old(At(buf[..], 0)), PIPE_DELIM))
    ensures Apart(commands, Args(buf[..], commands)) && EndBy(buf[..], commands, buf.Length - 1)
  {
    assert buf[0..] == buf[..];
    ghost var ts := Tokens(At(buf[..], 0), PIPE_DELIM);
    var scanner := new Scanner(buf, 0);
    commands := [];
    var token := Cut(scanner, PIPE_DELIM, commands);
    while token.Token? && |commands| < MAX_COMMANDS
      invariant scanner.buf == buf && InHand(scanner, token) && |commands| <= MAX_COMMANDS
      invariant EndBy(buf[..], commands, scanner.save) && (token.Token? ==> EndBy(buf[..], commands, token.start))
      invariant Args(buf[..], commands) + Coming(scanner, token, PIPE_DELIM) == ts
      invariant Apart(commands, Args(buf[..], commands))
      decreases |Coming(scanner, token, PIPE_DELIM)|
    {
      token, commands := TakePiece(scanner, token, commands);
    }
  }

  predicate Runnable(pieces: seq<string>) {
    pieces != [] && forall i :: 0 <= i < |pieces| ==> Parsable(pieces[i])
  }

  /** The commands of a line cut into pieces. */
  function ParseAll(pieces: seq<string>): (cs: seq<Command>)
    requires forall i :: 0 <= i < |pieces| ==> Parsable(pieces[i])
    ensures |cs| == |pieces| && forall i :: 0 <= i < |pieces| ==> cs[i] == Parse(pieces[i])
  {
    seq(|pieces|, i requires 0 <= i < |pieces| => Parse(pieces[i]))
  }

  /** The pieces from `i` on are still whole in the buffer. */
  ghost predicate Intact(mem: seq<char>, commands: seq<nat>, pieces: seq<string>, i: nat) {
    |commands| == |pieces| &&
    forall j :: i <= j < |commands| ==> At(mem, commands[j]) == pieces[j] && commands[j] + |pieces[j]| < |mem|
  }

  /** Parsing one piece leaves those behind it alone, although strtok works in the same buffer. */
  lemma OthersIntact(was: seq<char>, now: seq<char>, commands: seq<nat>, pieces: seq<string>, i: nat)
    requires i < |commands| && Intact(was, commands, pieces, i) && Apart(commands, pieces)
    requires Untouched(was, now, commands[i], commands[i] + |pieces[i]|)
    ensures Intact(now, commands, pieces, i + 1)
  {
    var end := commands[i] + |pieces[i]|;
    forall j | i < j < |commands| ensures At(now, commands[j]) == pieces[j] {
      SuffixKept(was, now, end, commands[j]);
    }
  }

  lemma ParsedSnoc(pieces: seq<string>, i: nat)
    requires i < |pieces| && forall j :: 0 <= j < |pieces| ==> Parsable(pieces[j])
    ensures ParseAll(pieces)[..i + 1] == ParseAll(pieces)[..i] + [Parse(pieces[i])]
  {
  }

  /** The parsing part of one round of run's second loop. */
  method ReadPiece(buf: array<char>, commands: seq<nat>, i: nat, ghost pieces: seq<string>) returns (c: Command)
    requires i < |commands| && Intact(buf[..], commands, pieces, i) && Apart(commands, pieces)
    requires Parsable(pieces[i])
    modifies buf
    ensures c == Parse(pieces[i]) && Intact(buf[..], commands, pieces, i + 1)
  {
    ghost var was := buf[..];
    var argv, input, output, append := ParseCommand(buf, commands[i], pieces[i]);
    OthersIntact(was, buf[..], commands, pieces, i);
    c := SoFar(buf[..], argv, input, output, append);
  }

  /**
    What run reads out of its input: it cuts the line, then each piece. The commands are those of
    the line as it was, although the second scan runs in the buffer the first one has cut up.
   */
  method ReadLine(buf: array<char>) returns (cs: seq<Command>)
    requires NUL in buf[..] && Runnable(FirstCommands(Tokens(At(buf[..], 0), PIPE_DELIM)))
    modifies buf
    ensures cs == ParseAll(FirstCommands(Tokens(old(At(buf[..], 0)), PIPE_DELIM)))
  {
    ghost var pieces := FirstCommands(Tokens(At(buf[..], 0), PIPE_DELIM));
    var commands := SplitCommands(buf);
    cs := [];
    for i := 0 to |commands|
      invariant |cs| == i && cs == ParseAll(pieces)[..i]
      invariant Intact(buf[..], commands, pieces, i)
    {
      var c := ReadPiece(buf, commands, i, pieces);
      ParsedSnoc(pieces, i);
      cs := cs + [c];
    }
  }

  /** run: every command of the line reaches its start connected to its neighbours. */
  method Run(shell: Process, buf: array<char>) returns (cs: seq<Command>, children: seq<Fds>)
    requires STDIN in shell.fds && STDOUT in shell.fds
    requires NUL in buf[..] && Runnable(FirstCommands(Tokens(At(buf[..], 0), PIPE_DELIM)))
    modifies shell, buf
    ensures cs == ParseAll(FirstCommands(Tokens(old(At(buf[..], 0)), PIPE_DELIM)))
    ensures shell.fds == old(shell.fds) && |children| == |cs|
    ensures forall i :: 0 <= i < |cs| ==>
      children[i] == Wired(shell.fds, cs, i) && StartsRight(shell.fds, cs, i, children[i])
  {
    cs := ReadLine(buf);
    children := shell.Run(cs);
  }

  // ------------------------------------------------------ the round trip

  /** A command: arguments and redirections in any order. */
  datatype Part = Argument(word: string) | In(word: string) | Out(word: string) | Append(word: string)

  ghost predicate GoodPart(p: Part) {
    && Word(p.word, SPACES) && NoneIn(p.word, PIPE_DELIM) && NUL !in p.word
    && if p.Argument? then !Operator(p.word) else |p.word| < FILENAME_MAX
  }

  ghost predicate GoodCommand(parts: seq<Part>) {
    && parts != [] && (forall i :: 0 <= i < |parts| ==> GoodPart(parts[i]))
    && |Arguments(parts)| < MAX_ARGV_SIZE
  }

  function Sign(p: Part): string {
    match p case Argument(_) => "" case In(_) => "<" case Out(_) => ">" case Append(_) => ">>"
  }

  /** Words with gaps before, between and behind them. */
  function Spread(words: seq<string>, gaps: seq<string>): string
    requires |gaps| == |words| + 1
  {
    if words == [] then gaps[0] else gaps[0] + words[0] + Spread(words[1..], gaps[1..])
  }

  /** Gaps are made of delimiters, and between two words there is at least one. */
  ghost predicate Gaps(words: seq<string>, gaps: seq<string>, d: set<char>) {
    && |gaps| == |words| + 1
    && (forall i :: 0 <= i < |gaps| ==> AllIn(gaps[i], d))
    && (forall i :: 0 < i < |words| ==> gaps[i] != [])
  }

  /** A command as it is typed: words with any white space between and around them. */
  datatype Typed = Typed(parts: seq<Part>, gaps: seq<string>)

  ghost predicate GoodTyped(c: Typed) {
    GoodCommand(c.parts) && Gaps(WordsOf(c.parts), c.gaps, SPACES)
  }

  ghost function Text(c: Typed): string
    requires GoodTyped(c)
  {
    Spread(WordsOf(c.parts), c.gaps)
  }

  ghost function Texts(cs: seq<Typed>): (r: seq<string>)
    requires forall i :: 0 <= i < |cs| ==> GoodTyped(cs[i])
    ensures |r| == |cs| && forall i :: 0 <= i < |cs| ==> r[i] == Text(cs[i])
  {
    seq(|cs|, i requires 0 <= i < |cs| => Text(cs[i]))
  }

  /** What a command means: its arguments in order, and on each side the last redirection. */
  function Arguments(parts: seq<Part>): seq<string> {
    if parts == [] then [] else
      Arguments(parts[..|parts| - 1])
      + if parts[|parts| - 1].Argument? then [parts[|parts| - 1].word] else []
  }

  function Input(parts: seq<Part>): string {
    if parts == [] then "" else
      if parts[|parts| - 1].In? then parts[|parts| - 1].word else Input(parts[..|parts| - 1])
  }

  /** The last output redirection, if there is one. */
  function LastOut(parts: seq<Part>): Option<Part> {
    if parts == [] then None else
      if parts[|parts| - 1].Out? || parts[|parts| - 1].Append? then Some(parts[|parts| - 1])
      else LastOut(parts[..|parts| - 1])
  }

  function Meaning(parts: seq<Part>): Command {
    var out := LastOut(parts);
    Command(Arguments(parts), Input(parts),
            if out.Some? then out.value.word else "", out.Some? && out.value.Append?)
  }

  function WordsOf(parts: seq<Part>): seq<string> {
    if parts == [] then [] else
      (if parts[0].Argument? then [parts[0].word] else [Sign(parts[0])] + [parts[0].word]) + WordsOf(parts[1..])
  }

  /** Splitting gives the words back, whatever the gaps between and around them are. */
  lemma {:induction false} TokensOfSpread(words: seq<string>, gaps: seq<string>, d: set<char>)
    requires (forall i :: 0 <= i < |words| ==> Word(words[i], d)) && Gaps(words, gaps, d)
    ensures Tokens(Spread(words, gaps), d) == words
  {
    if words == [] {
      TokensOfGap(gaps[0], d);
    } else {
      TokensOfSpread(words[1..], gaps[1..], d);
      StartsWithGap(words, gaps, d);
      TokensCons(gaps[0], words[0], Spread(words[1..], gaps[1..]), d);
    }
  }

  lemma StartsWithGap(words: seq<string>, gaps: seq<string>, d: set<char>)
    requires words != [] && Gaps(words, gaps, d)
    ensures var rest := Spread(words[1..], gaps[1..]); rest == [] || rest[0] in d
  {
    if |words| > 1 { assert gaps[1..][0] == gaps[1] != []; }
  }

  lemma {:induction false} SpreadFree(words: seq<string>, gaps: seq<string>, bad: set<char>)
    requires |gaps| == |words| + 1
    requires forall i :: 0 <= i < |words| ==> NoneIn(words[i], bad)
    requires forall i :: 0 <= i < |gaps| ==> NoneIn(gaps[i], bad)
    ensures NoneIn(Spread(words, gaps), bad)
  {
    if words != [] { SpreadFree(words[1..], gaps[1..], bad); }
  }

  lemma {:induction false} ArgumentsCat(a: seq<Part>, b: seq<Part>)
    ensures Arguments(a + b) == Arguments(a) + Arguments(b)
  {
    if b == [] {
      assert a + b == a;
    } else {
      assert (a + b)[..|a + b| - 1] == a + b[..|b| - 1];
      ArgumentsCat(a, b[..|b| - 1]);
    }
  }

  /** One more part does to the meaning what one round of the parser does to the command. */
  lemma MeaningSnoc(done: seq<Part>, p: Part)
    requires GoodPart(p)
    ensures Meaning(done + [p]) ==
      if p.Argument? then Meaning(done).(argv := Arguments(done) + [p.word])
      else Redirected(Meaning(done), Sign(p), p.word)
  {
    assert (done + [p])[..|done|] == done;
  }

  lemma ParsePart(done: seq<Part>, p: Part, rest: seq<string>)
    requires GoodPart(p) && |Arguments(done)| + (if p.Argument? then 1 else 0) < MAX_ARGV_SIZE
    requires Defined(|Arguments(done + [p])|, rest)
    ensures var ts := (if p.Argument? then [p.word] else [Sign(p)] + [p.word]) + rest;
      && Defined(|Arguments(done)|, ts)
      && ParseFrom(Meaning(done), ts) == ParseFrom(Meaning(done + [p]), rest)
  {
    MeaningSnoc(done, p);
    if p.Argument? {
      assert ([p.word] + rest)[1..] == rest;
      ParseArgument(Meaning(done), p.word, rest);
    } else {
      CatAssoc([Sign(p)], [p.word], rest);
      assert ([Sign(p)] + ([p.word] + rest))[2..] == rest;
      ParseRedirection(Meaning(done), Sign(p), p.word, rest);
    }
  }

  lemma {:induction false} ParseWords(done: seq<Part>, todo: seq<Part>)
    requires forall i :: 0 <= i < |todo| ==> GoodPart(todo[i])
    requires |Arguments(done)| + |Arguments(todo)| < MAX_ARGV_SIZE
    ensures Defined(|Arguments(done)|, WordsOf(todo))
    ensures ParseFrom(Meaning(done), WordsOf(todo)) == Meaning(done + todo)
    decreases todo
  {
    if todo == [] {
      assert done + todo == done;
    } else {
      var p := todo[0];
      assert [p] + todo[1..] == todo;
      ArgumentsCat([p], todo[1..]);
      ArgumentsCat(done, [p]);
      ArgumentsOne(p);
      ParseWords(done + [p], todo[1..]);
      ParsePart(done, p, WordsOf(todo[1..]));
      ShiftOne(done, todo);
    }
  }

  lemma ArgumentsOne(p: Part)
    ensures Arguments([p]) == if p.Argument? then [p.word] else []
  {
    assert [p][..0] == [];
  }

  /** What can stand in a piece: no pipe sign and no NUL. */
  ghost predicate Plain(s: string) { NoneIn(s, PIPE_DELIM + {NUL}) }

  lemma SignIsPlain(p: Part)
    requires GoodPart(p)
    ensures Word(p.word, SPACES) && Plain(p.word)
    ensures !p.Argument? ==> Word(Sign(p), SPACES) && Plain(Sign(p))
  {
  }

  lemma {:induction false} WordsArePlain(parts: seq<Part>)
    requires forall i :: 0 <= i < |parts| ==> GoodPart(parts[i])
    ensures forall i :: 0 <= i < |WordsOf(parts)| ==> Word(WordsOf(parts)[i], SPACES) && Plain(WordsOf(parts)[i])
    ensures parts != [] ==> WordsOf(parts) != []
  {
    if parts != [] {
      WordsArePlain(parts[1..]);
      SignIsPlain(parts[0]);
    }
  }

  lemma TypedIsPlain(c: Typed)
    requires GoodTyped(c)
    ensures Plain(Text(c)) && Text(c) != []
  {
    WordsArePlain(c.parts);
    SpreadFree(WordsOf(c.parts), c.gaps, PIPE_DELIM + {NUL});
  }

  lemma TypedIsParsed(c: Typed)
    requires GoodTyped(c)
    ensures Parsable(Text(c)) && Parse(Text(c)) == Meaning(c.parts)
  {
    WordsArePlain(c.parts);
    TokensOfSpread(WordsOf(c.parts), c.gaps, SPACES);
    ParseWords([], c.parts);
    assert [] + c.parts == c.parts;
  }

  lemma PiecesOfLine(cs: seq<Typed>, bars: seq<string>)
    requires forall i :: 0 <= i < |cs| ==> GoodTyped(cs[i])
    requires Gaps(Texts(cs), bars, PIPE_DELIM)
    ensures NUL !in Spread(Texts(cs), bars) && Tokens(Spread(Texts(cs), bars), PIPE_DELIM) == Texts(cs)
  {
    forall i | 0 <= i < |cs| ensures Word(Texts(cs)[i], PIPE_DELIM) && NoneIn(Texts(cs)[i], {NUL}) {
      TypedIsPlain(cs[i]);
    }
    TokensOfSpread(Texts(cs), bars, PIPE_DELIM);
    SpreadFree(Texts(cs), bars, {NUL});
  }

  /**
    Parsing undoes printing: from any line in which the commands of a pipeline stand, with
    redirections in any positions, any white space between the words, any white space or none around
    the pipe signs, and more pipe signs than one or not, cutting and parsing give back every command
    with its arguments, the last redirection of each side, and whether that one appends.
   */
  lemma ParsingUndoesPrinting(cs: seq<Typed>, bars: seq<string>)
    requires 0 < |cs| <= MAX_COMMANDS && forall i :: 0 <= i < |cs| ==> GoodTyped(cs[i])
    requires Gaps(Texts(cs), bars, PIPE_DELIM)
    ensures NUL !in Spread(Texts(cs), bars)
    ensures var pieces := FirstCommands(Tokens(Spread(Texts(cs), bars), PIPE_DELIM));
      && Runnable(pieces) && |pieces| == |cs|
      && forall i :: 0 <= i < |cs| ==> ParseAll(pieces)[i] == Meaning(cs[i].parts)
  {
    PiecesOfLine(cs, bars);
    forall i | 0 <= i < |cs| ensures Parsable(Texts(cs)[i]) && Parse(Texts(cs)[i]) == Meaning(cs[i].parts) {
      TypedIsParsed(cs[i]);
    }
  }

  // --------------------------------------------- typed redirections, started

  function Count(parts: seq<Part>): nat {
    if parts == [] then 0 else Count(parts[..|parts| - 1]) + if parts[|parts| - 1].Argument? then 1 else 0
  }

  /** The arguments in the order typed: each is behind as many as were typed before it. */
  ghost predicate ArgumentsAsTyped(parts: seq<Part>, argv: seq<string>) {
    && |argv| == Count(parts)
    && forall k :: 0 <= k < |parts| && parts[k].Argument? ==>
      Count(parts[..k]) < |argv| && argv[Count(parts[..k])] == parts[k].word
  }

  lemma {:induction false} ArgumentsInOrder(parts: seq<Part>)
    ensures ArgumentsAsTyped(parts, Arguments(parts))
  {
    if parts != [] {
      var front := parts[..|parts| - 1];
      ArgumentsInOrder(front);
      forall k | 0 <= k < |parts| && parts[k].Argument?
        ensures Count(parts[..k]) < |Arguments(parts)| && Arguments(parts)[Count(parts[..k])] == parts[k].word
      {
        if k < |front| { assert front[..k] == parts[..k] && front[k] == parts[k]; }
      }
    }
  }

  predicate Outward(p: Part) { p.Out? || p.Append? }

  /** The last part that is redirected output, or input: the one that counts. */
  ghost predicate LastOutward(parts: seq<Part>, k: nat) {
    k < |parts| && Outward(parts[k]) && forall j :: k < j < |parts| ==> !Outward(parts[j])
  }

  ghost predicate LastInward(parts: seq<Part>, k: nat) {
    k < |parts| && parts[k].In? && forall j :: k < j < |parts| ==> !parts[j].In?
  }

  lemma {:induction false} LastOutIs(parts: seq<Part>, k: nat)
    requires LastOutward(parts, k)
    ensures LastOut(parts) == Some(parts[k])
  {
    if k < |parts| - 1 { LastOutIs(parts[..|parts| - 1], k); }
  }

  lemma {:induction false} NoneOut(parts: seq<Part>)
    requires forall j :: 0 <= j < |parts| ==> !Outward(parts[j])
    ensures LastOut(parts) == None
  {
    if parts != [] { NoneOut(parts[..|parts| - 1]); }
  }

  lemma {:induction false} LastInIs(parts: seq<Part>, k: nat)
    requires LastInward(parts, k)
    ensures Input(parts) == parts[k].word
  {
    if k < |parts| - 1 { LastInIs(parts[..|parts| - 1], k); }
  }

  lemma {:induction false} NoneInward(parts: seq<Part>)
    requires forall j :: 0 <= j < |parts| ==> !parts[j].In?
    ensures Input(parts) == ""
  {
    if parts != [] { NoneInward(parts[..|parts| - 1]); }
  }

  /** Standard output of a typed command: ">" and ">>" lead to the file named, and only ">>" appends. */
  ghost predicate OutputAsTyped(base: Fds, parts: seq<Part>, i: nat, last: bool, child: Fds)
    requires STDOUT in base
  {
    && STDOUT in child
    && (forall k: nat :: LastOutward(parts, k) ==> child[STDOUT] == Sink(parts[k].word, parts[k].Append?))
    && ((forall j :: 0 <= j < |parts| ==> !Outward(parts[j])) ==>
      child[STDOUT] == if last then base[STDOUT] else WriteEnd(i))
  }

  ghost predicate InputAsTyped(base: Fds, parts: seq<Part>, i: nat, child: Fds)
    requires STDIN in base
  {
    && STDIN in child
    && (forall k: nat :: LastInward(parts, k) ==> child[STDIN] == Source(parts[k].word))
    && ((forall j :: 0 <= j < |parts| ==> !parts[j].In?) ==>
      child[STDIN] == if i == 0 then base[STDIN] else ReadEnd(i - 1))
  }

  lemma OutputOfMeaning(base: Fds, parts: seq<Part>, i: nat, last: bool, child: Fds)
    requires STDOUT in base && GoodCommand(parts) && OutputRight(base, Meaning(parts), i, last, child)
    ensures OutputAsTyped(base, parts, i, last, child)
  {
    forall k: nat | LastOutward(parts, k) ensures child[STDOUT] == Sink(parts[k].word, parts[k].Append?) {
      LastOutIs(parts, k);
      assert GoodPart(parts[k]);
    }
    if forall j :: 0 <= j < |parts| ==> !Outward(parts[j]) { NoneOut(parts); }
  }

  lemma InputOfMeaning(base: Fds, parts: seq<Part>, i: nat, child: Fds)
    requires STDIN in base && GoodCommand(parts) && InputRight(base, Meaning(parts), i, child)
    ensures InputAsTyped(base, parts, i, child)
  {
    forall k: nat | LastInward(parts, k) ensures child[STDIN] == Source(parts[k].word) {
      LastInIs(parts, k);
      assert GoodPart(parts[k]);
    }
    if forall j :: 0 <= j < |parts| ==> !parts[j].In? { NoneInward(parts); }
  }

  /**
    From what is typed to what is started: run on a line in which these commands stand starts one child
    for each, with its redirections, its neighbours' pipes, and otherwise the shell's own descriptors.
   */
  method RunTyped(shell: Process, buf: array<char>, ghost cs: seq<Typed>, ghost bars: seq<string>)
    returns (commands: seq<Command>, children: seq<Fds>)
    requires STDIN in shell.fds && STDOUT in shell.fds
    requires 0 < |cs| <= MAX_COMMANDS && forall i :: 0 <= i < |cs| ==> GoodTyped(cs[i])
    requires Gaps(Texts(cs), bars, PIPE_DELIM)
    requires NUL in buf[..] && At(buf[..], 0) == Spread(Texts(cs), bars)
    modifies shell, buf
    ensures shell.fds == old(shell.fds) && |children| == |commands| == |cs|
    ensures forall i :: 0 <= i < |cs| ==>
      && ArgumentsAsTyped(cs[i].parts, commands[i].argv)
      && OutputAsTyped(shell.fds, cs[i].parts, i, i == |cs| - 1, children[i])
      && InputAsTyped(shell.fds, cs[i].parts, i, children[i])
      && RestInherited(shell.fds, children[i])
  {
    ParsingUndoesPrinting(cs, bars);
    commands, children := Run(shell, buf);
    forall i | 0 <= i < |cs|
      ensures ArgumentsAsTyped(cs[i].parts, commands[i].argv)
      ensures OutputAsTyped(shell.fds, cs[i].parts, i, i == |cs| - 1, children[i])
      ensures InputAsTyped(shell.fds, cs[i].parts, i, children[i])
      ensures RestInherited(shell.fds, children[i])
    {
      assert commands[i] == Meaning(cs[i].parts) && StartsRight(shell.fds, commands, i, children[i]);
      ArgumentsInOrder(cs[i].parts);
      OutputOfMeaning(shell.fds, cs[i].parts, i, i == |cs| - 1, children[i]);
      InputOfMeaning(shell.fds, cs[i].parts, i, children[i]);
    }
  }
}
