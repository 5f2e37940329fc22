/**
  The event-driven server of program 15: what it does for one client, one message after another.
  A message is what one read call returned; it lies at the start of a buffer of 1024 bytes whose
  rest may hold anything.
 */
module Sessions {
  import opened CStrings
  import opened FileTransfer
  import opened Sequences

  /** The messages are written with their final NUL. */
  const STR1: string := "Enter 1 parameter\r\n\0"
  const STR2: string := "Enter 2 parameter\r\n\0"
  const STR3: string := "Enter op (+,-,*,/)\r\n\0"
  const NOT_FOUND: string := "No such operation available.\r\n\0"
  const ZERO_DIVISION: string := "error: zero division\n"

  datatype Status = StatusOk | StatusFatal | StatusFin
  datatype Phase =
    | Unassigned | MathWaitA | MathWaitOp | MathWaitB | MathDone
    | FileWaitName | FileReceive | FileDone
  /** Before a service is chosen, and in an arithmetic session until it ends. */
  const ARITHMETIC: set<Phase> := {Unassigned, MathWaitA, MathWaitOp, MathWaitB}
  datatype Op = Sum | Sub | Mul | Divide

  /** A client's slot, the contents of its file, and all that was written to its socket. */
  datatype Session = Session(
    phase: Phase, mathA: int, mathB: int, mathOp: Option<Op>,
    filename: string, fileSize: nat, fileReceived: nat, file: seq<char>, sent: seq<string>)

  /** add_client clears the slot. */
  const NEW_SESSION: Session := Session(Unassigned, 0, 0, None, "", 0, 0, [], [])

  // ------------------------------------------------------------ arithmetic

  /** C's division truncates towards zero. */
  function Quotient(a: int, b: int): int
    requires b != 0
  {
    if a >= 0 then a / b else -((-a) / b)
  }

  function Compute(op: Op, a: int, b: int): int
    requires op == Divide ==> b != 0
  {
    match op case Sum => a + b case Sub => a - b case Mul => a * b case Divide => Quotient(a, b)
  }

  /** What the client is told. */
  function ResultText(op: Op, a: int, b: int): string {
    if op == Divide && b == 0 then ZERO_DIVISION else DecInt(Compute(op, a, b)) + "\n"
  }

  /** atoi. */
  function Atoi(bytes: seq<char>): int { ToInt(Strtol(CStr(bytes)).0) }

  function OpOf(c: char): Option<Op> {
    if c == '+' then Some(Sum) else if c == '-' then Some(Sub)
    else if c == '*' then Some(Mul) else if c == '/' then Some(Divide) else None
  }

  function Abs(n: int): nat { if n < 0 then -n else n }

  /** The quotient of a division that truncates towards zero, with its remainder. */
  ghost predicate Divides(a: int, b: int, q: int, r: int) {
    a == q * b + r && Abs(r) < Abs(b) && (r == 0 || (r < 0 <==> a < 0))
  }

  lemma QuotientDivides(a: int, b: int) returns (r: int)
    requires b != 0
    ensures Divides(a, b, Quotient(a, b), r)
  {
    r := if a >= 0 then a % b else -((-a) % b);
  }

  /** What the client must be told about two numbers and an operation. */
  ghost predicate RightReply(c: char, a: int, b: int, reply: string) {
    && c in {'+', '-', '*', '/'}
    && (c == '+' ==> reply == DecInt(a + b) + "\n")
    && (c == '-' ==> reply == DecInt(a - b) + "\n")
    && (c == '*' ==> reply == DecInt(a * b) + "\n")
    && (c == '/' && b == 0 ==> reply == "error: zero division\n")
    && (c == '/' && b != 0 ==> exists q: int, r: int :: Divides(a, b, q, r) && reply == DecInt(q) + "\n")
  }

  lemma ResultIsRight(c: char, a: int, b: int)
    requires OpOf(c).Some?
    ensures RightReply(c, a, b, ResultText(OpOf(c).value, a, b))
  {
    if c == '/' && b != 0 { var r := QuotientDivides(a, b); }
  }

  predicate IsInt(v: int) { -INT_MAX - 1 <= v <= INT_MAX }

  // ------------------------------------------------------- one message

  /** A number ends inside its message, for instance before a newline. */
  predicate Ends(bytes: seq<char>) { ScanEnd(bytes) < |bytes| }

  /** The digits of a number that does not. */
  function Open(bytes: seq<char>): (t: string)
    requires !Ends(bytes)
    ensures AllIn(t, DIGITS)
  {
    bytes[NumberStart(bytes)..]
  }

  /**
    It may be so long that every further digit brings it to the limit of a long, and already have the
    limit's value as an int.
   */
  predicate Capped(bytes: seq<char>)
    requires !Ends(bytes)
  {
    10 * Value(Open(bytes)) > LONG_MAX && Atoi(bytes) == if Negative(bytes) then 0 else -1
  }

  /** A number that what lies behind its message in the buffer cannot change. */
  predicate Settled(bytes: seq<char>) { Ends(bytes) || Capped(bytes) }

  /** A number that ends inside its message is read the same whatever lies behind the message. */
  lemma AtoiIgnoresStale(bytes: seq<char>, stale: seq<char>)
    requires Ends(bytes)
    ensures Atoi(bytes + stale) == Atoi(bytes)
  {
    CStrCat(bytes, stale);
    if NUL !in bytes { StrtolStops(bytes, CStr(stale)); }
  }

  lemma AtoiOfCat(bytes: seq<char>, stale: seq<char>)
    requires NUL !in bytes
    ensures Atoi(bytes + stale) == ToInt(Strtol(bytes + CStr(stale)).0)
  {
    CStrCat(bytes, stale);
  }

  lemma AtoiLonger(bytes: seq<char>, more: seq<char>)
    requires !Ends(bytes) && AllIn(more, DIGITS) && more != []
    ensures AllIn(Open(bytes) + more, DIGITS)
    ensures Atoi(bytes + more) == ToInt(Signedly(Negative(bytes), Open(bytes) + more))
  {
    AllDigits(bytes);
    AtoiOfCat(bytes, more);
    CStrOf(more, []);
    StrtolLonger(bytes, more);
  }

  lemma OneMoreDigit(bytes: seq<char>, d: nat)
    requires !Ends(bytes) && d < 10
    ensures Atoi(bytes + [Digit(d)]) == WithDigit(Negative(bytes), Value(Open(bytes)), d)
  {
    AtoiLonger(bytes, [Digit(d)]);
    ValueSnoc(Open(bytes), Digit(d));
  }

  /** A number below a tenth of the limit reads differently with a 0 and with a 1 behind it. */
  lemma DigitsDiffer(bytes: seq<char>)
    requires !Ends(bytes) && 10 * Value(Open(bytes)) <= LONG_MAX
    ensures Atoi(bytes + [Digit(0)]) != Atoi(bytes + [Digit(1)])
  {
    OneMoreDigit(bytes, 0);
    OneMoreDigit(bytes, 1);
    NextDigitsDiffer(Negative(bytes), Value(Open(bytes)));
  }

  /** Above it, the number is at the limit with any further digits. */
  lemma AtTheLimit(bytes: seq<char>, more: string)
    requires !Ends(bytes) && AllIn(more, DIGITS) && more != [] && 10 * Value(Open(bytes)) > LONG_MAX
    ensures Atoi(bytes + more) == if Negative(bytes) then 0 else -1
  {
    AtoiLonger(bytes, more);
    ValueGrows(Open(bytes), more);
    BeyondLong(Negative(bytes), Value(Open(bytes) + more));
  }

  /** What follows the further digits is not looked at. */
  lemma UpToTheDigits(bytes: seq<char>, stale: seq<char>)
    requires !Ends(bytes) && Open(bytes) != []
    ensures var more := CStr(stale)[..Span(CStr(stale), DIGITS)];
      AllIn(more, DIGITS) && Atoi(bytes + stale) == Atoi(bytes + more)
  {
    var y := CStr(stale);
    AllDigits(bytes);
    AtoiOfCat(bytes, stale);
    AtoiOfCat(bytes, y[..Span(y, DIGITS)]);
    CStrOf(y[..Span(y, DIGITS)], []);
    StrtolUpToDigits(bytes, y);
  }

  lemma CappedIgnoresStale(bytes: seq<char>, stale: seq<char>)
    requires !Ends(bytes) && Capped(bytes)
    ensures Atoi(bytes + stale) == Atoi(bytes)
  {
    var more := CStr(stale)[..Span(CStr(stale), DIGITS)];
    UpToTheDigits(bytes, stale);
    if more == [] { assert bytes + more == bytes; } else { AtTheLimit(bytes, more); }
  }

  /**
    Exactly when what lies behind a message in the buffer does not matter to the number in it: the
    number ends inside the message, or no further digit could change it.
   */
  lemma NumberIsSettled(bytes: seq<char>)
    ensures Settled(bytes) <==> forall stale :: Atoi(bytes + stale) == Atoi(bytes)
  {
    if Settled(bytes) {
      forall stale ensures Atoi(bytes + stale) == Atoi(bytes) { SettledIgnoresStale(bytes, stale); }
    } else if 10 * Value(Open(bytes)) <= LONG_MAX {
      DigitsDiffer(bytes);
    } else {
      AtTheLimit(bytes, [Digit(0)]);
    }
  }

  lemma SettledIgnoresStale(bytes: seq<char>, stale: seq<char>)
    requires Settled(bytes)
    ensures Atoi(bytes + stale) == Atoi(bytes)
  {
    if Ends(bytes) { AtoiIgnoresStale(bytes, stale); } else { CappedIgnoresStale(bytes, stale); }
  }

  /** For numbers an int can hold that is the end inside the message alone. */
  lemma IntIsSettled(bytes: seq<char>)
    requires !Ends(bytes) ==> Value(Open(bytes)) <= INT_MAX
    ensures Ends(bytes) <==> forall stale :: Atoi(bytes + stale) == Atoi(bytes)
  {
    NumberIsSettled(bytes);
  }

  /** The digits left over continue the number. */
  lemma StaleDigitsCount(n: nat, d: nat)
    requires 0 < n && d < 10 && 10 * n + d <= INT_MAX
    ensures !Ends(Dec(n))
    ensures Atoi(Dec(n) + [NUL]) == n && Atoi(Dec(n) + [Digit(d), NUL]) == 10 * n + d
  {
    hide Atoi, Dec;
    ScanEndOfDigits(Dec(n));
    AtoiOfDec(n);
    AtoiOfDec(10 * n + d);
    DecSnoc(n, d);
  }

  lemma DecSnoc(n: nat, d: nat)
    requires 0 < n && d < 10
    ensures Dec(10 * n + d) + [NUL] == Dec(n) + [Digit(d), NUL]
  {
    assert Dec(10 * n + d) == Dec(n) + [Digit(d)];
  }

  lemma AtoiOfDec(n: nat)
    requires n <= INT_MAX
    ensures Atoi(Dec(n) + [NUL]) == n
  {
    var w := Dec(n);
    assert forall i :: 0 <= i < |w| ==> w[i] in DIGITS;
    assert w + [NUL] == w + [NUL] + [];
    CStrOf(w, []);
    StrtolOfPrinted(n);
  }

  /** What the code looks at is there: a first byte, a file name, an operation chosen before. */
  predicate Readable(s: Session, bytes: seq<char>) {
    && (s.phase in {Unassigned, MathWaitOp} ==> bytes != [])
    && (s.phase == FileWaitName ==> Named(CStr(bytes)))
    && (s.phase in {MathWaitB, MathDone} ==> s.mathOp.Some?)
  }

  /**
    The code is defined on a message, whatever the rest of its buffer holds: it looks at a byte only
    of a message that has one, numbers are settled, a header is a string with a file name, and
    results fit an int.
   */
  predicate Defined(s: Session, bytes: seq<char>) {
    && Readable(s, bytes) && |bytes| <= MESSAGE_SIZE
    && (s.phase in {MathWaitA, MathWaitB} ==> Settled(bytes))
    && (s.phase == FileWaitName ==> NUL in bytes)
    && (s.phase == MathWaitB ==> Fits(s.mathOp.value, s.mathA, Atoi(bytes)))
    && (s.phase == MathDone ==> Fits(s.mathOp.value, s.mathA, s.mathB))
  }

  predicate Fits(op: Op, a: int, b: int) {
    !(op == Divide && b == 0) ==> IsInt(Compute(op, a, b))
  }

  /** "storage/%d-%s" in a buffer of 256 bytes. */
  function FileName(pid: nat, name: string): string {
    var text := "storage/" + Dec(pid) + "-" + name;
    if |text| < FILENAME_SIZE then text else text[..FILENAME_SIZE - 1]
  }

  /** How many characters of a name there is room for behind "storage/", the pid and "-". */
  function Room(pid: nat): nat {
    var n := |"storage/" + Dec(pid) + "-"|;
    if n < FILENAME_SIZE then FILENAME_SIZE - 1 - n else 0
  }

  function CutTo(name: string, n: nat): string { if |name| <= n then name else name[..n] }

  /** Names that the file system of a server does not tell apart. */
  predicate Alike(pid: nat, a: string, b: string) { CutTo(a, Room(pid)) == CutTo(b, Room(pid)) }

  lemma FileNameParts(pid: nat, name: string)
    ensures var front := "storage/" + Dec(pid) + "-";
      FileName(pid, name) ==
        if |front| < FILENAME_SIZE then front + CutTo(name, Room(pid)) else front[..FILENAME_SIZE - 1]
  {
    var front := "storage/" + Dec(pid) + "-";
    if |front| < FILENAME_SIZE && |name| > Room(pid) {
      assert (front + name)[..FILENAME_SIZE - 1] == front + name[..Room(pid)];
    }
  }

  /** Two names lead to the same file exactly if they agree as far as there is room. */
  lemma SameFileIffAlike(pid: nat, a: string, b: string)
    ensures FileName(pid, a) == FileName(pid, b) <==> Alike(pid, a, b)
  {
    hide FileName;
    var front := "storage/" + Dec(pid) + "-";
    FileNameParts(pid, a);
    FileNameParts(pid, b);
    if |front| < FILENAME_SIZE {
      assert (front + CutTo(a, Room(pid)))[|front|..] == CutTo(a, Room(pid));
      assert (front + CutTo(b, Room(pid)))[|front|..] == CutTo(b, Room(pid));
    }
  }

  /** A name that fits is there in full, so names that fit lead to the same file only if they are equal. */
  lemma FittingNames(pid: nat, a: string, b: string)
    requires 0 < |a| <= Room(pid) && |b| <= Room(pid)
    ensures FileName(pid, a) == "storage/" + Dec(pid) + "-" + a
    ensures FileName(pid, a) == FileName(pid, b) <==> a == b
  {
    FullName(pid, a);
    SameFileIffAlike(pid, a, b);
  }

  lemma FullName(pid: nat, name: string)
    requires 0 < |name| <= Room(pid)
    ensures FileName(pid, name) == "storage/" + Dec(pid) + "-" + name
  {
    FileNameParts(pid, name);
  }

  /** There is always room for 236 characters. */
  lemma RoomForMost(pid: nat)
    requires pid <= INT_MAX
    ensures Room(pid) >= 236
  {
    assert Pow10(2) == 100 && Pow10(4) == 10000 && Pow10(6) == 1000000 && Pow10(8) == 100000000;
    assert Pow10(10) == 10000000000;
    DecLength(pid, 10);
  }

  /** The name in a header, if the server can take it apart. */
  function NameIn(bytes: seq<char>): Option<string> {
    if Named(CStr(bytes)) && ParseHeader(CStr(bytes)).Header? then Some(ParseHeader(CStr(bytes)).name) else None
  }

  /** The file a header asks for. */
  function Wanted(pid: nat, bytes: seq<char>): Option<string> {
    if Named(CStr(bytes)) && ParseHeader(CStr(bytes)).Header?
    then Some(FileName(pid, ParseHeader(CStr(bytes)).name)) else None
  }

  /** A header opens the file it names, unless that exists. */
  function Opening(pid: nat, files: set<string>, s: Session, h: Header): (Session, Status) {
    if !h.Header? || FileName(pid, h.name) in files then (s, StatusFatal)
    else (s.(phase := FileReceive, filename := FileName(pid, h.name), fileSize := h.size), StatusOk)
  }

  /** What dostuff does to a client when these files exist, and its status. */
  function Handle(pid: nat, files: set<string>, s: Session, bytes: seq<char>): (Session, Status)
    requires Readable(s, bytes)
  {
    match s.phase
    case Unassigned =>
      if bytes[0] == '1' then (s.(phase := MathWaitA, sent := s.sent + [STR1]), StatusOk)
      else if bytes[0] == '2' then (s.(phase := FileWaitName), StatusOk)
      else (s.(sent := s.sent + [NOT_FOUND]), StatusFatal)
    case MathWaitA =>
      (s.(phase := MathWaitOp, mathA := Atoi(bytes), sent := s.sent + [STR3]), StatusOk)
    case MathWaitOp =>
      var op := OpOf(bytes[0]);
      if op.None? then (s, StatusFatal)
      else (s.(phase := MathWaitB, mathOp := op, sent := s.sent + [STR2]), StatusOk)
    case MathWaitB =>
      var b := Atoi(bytes);
      (s.(phase := MathDone, mathB := b, sent := s.sent + [ResultText(s.mathOp.value, s.mathA, b)]), StatusFin)
    case MathDone =>
      (s.(sent := s.sent + [ResultText(s.mathOp.value, s.mathA, s.mathB)]), StatusFin)
    case FileWaitName =>
      Opening(pid, files, s, ParseHeader(CStr(bytes)))
    case FileReceive =>
      var received := s.fileReceived + |bytes|;
      (s.(phase := if received >= s.fileSize then FileDone else FileReceive,
          fileReceived := received, file := s.file + bytes), StatusOk)
    case FileDone => (s.(sent := s.sent + [NOT_FOUND]), StatusFatal)
  }

  /** Whatever lies behind these bytes in the buffer, the client is served in the same way. */
  ghost predicate Certain(pid: nat, files: set<string>, s: Session, bytes: seq<char>)
    requires s.phase in ARITHMETIC && (s.phase == MathWaitB ==> s.mathOp.Some?)
  {
    forall x: seq<char>, y: seq<char> | x != [] && y != [] ::
      Handle(pid, files, s, bytes + x) == Handle(pid, files, s, bytes + y)
  }

  lemma FirstByteDecides(pid: nat, files: set<string>, s: Session, bytes: seq<char>)
    requires s.phase in {Unassigned, MathWaitOp}
    ensures Certain(pid, files, s, bytes) <==> bytes != []
  {
    if bytes == [] {
      var x, y := if s.phase == Unassigned then "1" else "+", if s.phase == Unassigned then "2" else "-";
      assert bytes + x == x && bytes + y == y;
      assert Handle(pid, files, s, x) != Handle(pid, files, s, y);
    }
  }

  /** Handling a number depends on it, and on nothing else in the buffer. */
  lemma NumberDecides(pid: nat, files: set<string>, s: Session, a: seq<char>, b: seq<char>)
    requires s.phase in {MathWaitA, MathWaitB} && (s.phase == MathWaitB ==> s.mathOp.Some?)
    ensures Handle(pid, files, s, a) == Handle(pid, files, s, b) <==> Atoi(a) == Atoi(b)
  {
  }

  lemma AtoiBeforeNul(bytes: seq<char>)
    ensures Atoi(bytes + [NUL]) == Atoi(bytes)
  {
    hide Strtol, ToInt;
    CStrCat(bytes, [NUL]);
    assert CStr([NUL]) == [] && bytes + [] == bytes;
  }

  /** Some two things behind a number that is not settled make a difference. */
  lemma UnsettledDiffers(bytes: seq<char>) returns (x: seq<char>, y: seq<char>)
    requires !Settled(bytes)
    ensures x != [] && y != [] && Atoi(bytes + x) != Atoi(bytes + y)
  {
    if 10 * Value(Open(bytes)) <= LONG_MAX {
      x, y := [Digit(0)], [Digit(1)];
      DigitsDiffer(bytes);
    } else {
      x, y := [Digit(0)], [NUL];
      AtTheLimit(bytes, [Digit(0)]);
      AtoiBeforeNul(bytes);
    }
  }

  lemma CertainNumber(pid: nat, files: set<string>, s: Session, bytes: seq<char>)
    requires s.phase in {MathWaitA, MathWaitB} && (s.phase == MathWaitB ==> s.mathOp.Some?)
    ensures Certain(pid, files, s, bytes) <==> Settled(bytes)
  {
    if Settled(bytes) {
      forall x: seq<char>, y: seq<char> | x != [] && y != []
        ensures Handle(pid, files, s, bytes + x) == Handle(pid, files, s, bytes + y)
      {
        SettledIgnoresStale(bytes, x);
        SettledIgnoresStale(bytes, y);
        NumberDecides(pid, files, s, bytes + x, bytes + y);
      }
    } else {
      var x, y := UnsettledDiffers(bytes);
      NumberDecides(pid, files, s, bytes + x, bytes + y);
    }
  }

  /**
    Exactly when a message in an arithmetic session, or before a service is chosen, decides by itself
    what happens: a choice or an operation if it has a byte at all, a number if it is settled. An
    empty read, as of a client that has gone, never does.
   */
  lemma WhenCertain(pid: nat, files: set<string>, s: Session, bytes: seq<char>)
    requires s.phase in ARITHMETIC && (s.phase == MathWaitB ==> s.mathOp.Some?)
    ensures Certain(pid, files, s, bytes) <==> if s.phase in {MathWaitA, MathWaitB} then Settled(bytes) else bytes != []
    ensures !Certain(pid, files, s, [])
  {
    if s.phase in {MathWaitA, MathWaitB} {
      CertainNumber(pid, files, s, bytes);
      CertainNumber(pid, files, s, []);
      NothingIsUnsettled();
    } else {
      FirstByteDecides(pid, files, s, bytes);
      FirstByteDecides(pid, files, s, []);
    }
  }

  lemma NothingIsUnsettled()
    ensures !Settled([])
  {
  }

  /** The file a client has created, if it is receiving one or has. */
  predicate Uploading(s: Session) { s.phase in {FileReceive, FileDone} }

  /** The files that exist after a client has gone from `s` to `t`. */
  function FilesAfter(files: set<string>, s: Session, t: Session): set<string> {
    if !Uploading(s) && Uploading(t) then files + {t.filename} else files
  }

  /** The server's storage directory. */
  class Storage {
    var names: set<string>

    constructor (names: set<string>)
      ensures this.names == names
    {
      this.names := names;
    }

    /** open with O_CREAT and O_EXCL fails if and only if the file exists. */
    method Create(name: string) returns (ok: bool)
      modifies this
      ensures ok <==> name !in old(names)
      ensures names == old(names) + if ok then {name} else {}
    {
      ok := name !in names;
      names := names + {name};
    }
  }

  /** atoi on the buffer reads the number in the message. */
  method ReadNumber(buffer: seq<char>, ghost bytes: seq<char>) returns (v: int)
    requires bytes <= buffer && Settled(bytes)
    ensures v == Atoi(bytes)
  {
    assert buffer == bytes + buffer[|bytes|..];
    SettledIgnoresStale(bytes, buffer[|bytes|..]);
    v := Atoi(buffer);
  }

  /** The strtok passes on the buffer read the header in the message. */
  method ReadHeader(buffer: seq<char>, ghost bytes: seq<char>) returns (h: Header)
    requires bytes <= buffer && NUL in bytes && Named(CStr(bytes))
    ensures h == ParseHeader(CStr(bytes))
  {
    var cells := new char[|buffer|](i requires 0 <= i < |buffer| => buffer[i]);
    assert cells[..] == buffer == bytes + buffer[|bytes|..];
    assert cells[..][0..] == cells[..];
    CStrCat(bytes, buffer[|bytes|..]);
    h := ParseMessage(cells);
  }

  class Client {
    const sockfd: int
    var phase: Phase
    var mathA: int
    var mathB: int
    var mathOp: Option<Op>
    var filename: string
    var fileSize: nat
    var fileReceived: nat
    var file: seq<char>
    var sent: seq<string>

    ghost function Value(): Session
      reads this
    {
      Session(phase, mathA, mathB, mathOp, filename, fileSize, fileReceived, file, sent)
    }

    constructor (sockfd: int)
      ensures Value() == NEW_SESSION && this.sockfd == sockfd
    {
      this.sockfd := sockfd;
      phase, mathA, mathB, mathOp := Unassigned, 0, 0, None;
      filename, fileSize, fileReceived, file, sent := "", 0, 0, [], [];
    }

    method Write(text: string)
      modifies this`sent
      ensures sent == old(sent) + [text]
    {
      sent := sent + [text];
    }

    /** do_math on a buffer: a message and whatever lies behind it. */
    method DoMath(pid: nat, buffer: seq<char>, ghost bytes: seq<char>, ghost files: set<string>)
      returns (status: Status)
      requires phase in {MathWaitA, MathWaitOp, MathWaitB, MathDone} && Defined(Value(), bytes)
      requires bytes <= buffer && |buffer| == MESSAGE_SIZE
      modifies this
      ensures (Value(), status) == Handle(pid, files, old(Value()), bytes)
      ensures old(phase) == MathWaitB ==> status == StatusFin && |sent| == |old(sent)| + 1
      ensures old(phase) == MathWaitB ==>
        forall c :: OpOf(c) == old(mathOp) ==> RightReply(c, old(mathA), Atoi(bytes), sent[|sent| - 1])
    {
      hide RightReply, ResultText, Atoi, OpOf;
      if phase == MathWaitB { ResultsAreRight(mathOp, mathA, Atoi(bytes)); }
      if phase == MathWaitA {
        mathA := ReadNumber(buffer, bytes);
        phase := MathWaitOp;
        Write(STR3);
        return StatusOk;
      }
      if phase == MathWaitOp {
        var op := OpOf(buffer[0]);
        if op.None? {
          return StatusFatal;
        }
        mathOp := op;
        phase := MathWaitB;
        Write(STR2);
        return StatusOk;
      }
      if phase == MathWaitB {
        mathB := ReadNumber(buffer, bytes);
        phase := MathDone;
      }
      Write(ResultText(mathOp.value, mathA, mathB));
      return StatusFin;
    }

    /** What receive_file does with a header that was taken apart. */
    method OpenFile(pid: nat, storage: Storage, h: Header) returns (status: Status)
      requires phase == FileWaitName
      modifies this, storage
      ensures (Value(), status) == Opening(pid, old(storage.names), old(Value()), h)
      ensures status == StatusOk && 0 < |h.name| <= Room(pid) ==>
        filename == "storage/" + Dec(pid) + "-" + h.name
      ensures storage.names == FilesAfter(old(storage.names), old(Value()), Value())
    {
      if !h.Header? {
        return StatusFatal;
      }
      if 0 < |h.name| <= Room(pid) { FullName(pid, h.name); }
      var ok := storage.Create(FileName(pid, h.name));
      if !ok {
        return StatusFatal;
      }
      filename, fileSize := FileName(pid, h.name), h.size;
      phase := FileReceive;
      return StatusOk;
    }

    method ReceiveFile(pid: nat, storage: Storage, buffer: seq<char>, bytesRead: nat) returns (status: Status)
      requires bytesRead <= |buffer| == MESSAGE_SIZE
      requires phase in {FileWaitName, FileReceive} && Defined(Value(), buffer[..bytesRead])
      modifies this, storage
      ensures (Value(), status) == Handle(pid, old(storage.names), old(Value()), buffer[..bytesRead])
      ensures storage.names == FilesAfter(old(storage.names), old(Value()), Value())
    {
      if phase == FileWaitName {
        var h := ReadHeader(buffer, buffer[..bytesRead]);
        status := OpenFile(pid, storage, h);
        return;
      }
      file := file + buffer[..bytesRead];
      fileReceived := fileReceived + bytesRead;
      if fileReceived >= fileSize {
        phase := FileDone;
      }
      return StatusOk;
    }

    /**
      dostuff: chooses the service, or passes the message on to the one chosen.  The message is the
      first `bytesRead` bytes of a buffer whose rest holds anything, and that rest never matters.
     */
    method DoStuff(pid: nat, storage: Storage, buffer: seq<char>, bytesRead: nat) returns (status: Status)
      requires bytesRead <= |buffer| == MESSAGE_SIZE && Defined(Value(), buffer[..bytesRead])
      modifies this, storage
      ensures (Value(), status) == Handle(pid, old(storage.names), old(Value()), buffer[..bytesRead])
      ensures storage.names == FilesAfter(old(storage.names), old(Value()), Value())
    {
      if phase == Unassigned {
        if buffer[0] == '1' {
          phase := MathWaitA;
          Write(STR1);
          return StatusOk;
        } else if buffer[0] == '2' {
          phase := FileWaitName;
          return StatusOk;
        }
        Write(NOT_FOUND);
        return StatusFatal;
      }
      if phase in {MathWaitA, MathWaitB, MathWaitOp, MathDone} {
        status := DoMath(pid, buffer, buffer[..bytesRead], storage.names);
      } else if phase in {FileWaitName, FileReceive} {
        status := ReceiveFile(pid, storage, buffer, bytesRead);
      } else {
        Write(NOT_FOUND);
        status := StatusFatal;
      }
    }
  }

  // --------------------------------------------------- a client on its own

  /**
    A server with only this client, which sends these messages; a session ends with a status other
    than OK. `files` are the files that exist at the start: a client opens no file after its first.
   */
  function Alone(pid: nat, files: set<string>, inputs: seq<seq<char>>): Option<(Session, Status)> {
    if inputs == [] then Some((NEW_SESSION, StatusOk)) else
      var before := Alone(pid, files, inputs[..|inputs| - 1]);
      if before.Some? && before.value.1 == StatusOk && Defined(before.value.0, inputs[|inputs| - 1])
      then Some(Handle(pid, files, before.value.0, inputs[|inputs| - 1])) else None
  }

  lemma AloneSnoc(pid: nat, files: set<string>, inputs: seq<seq<char>>, last: seq<char>)
    requires Alone(pid, files, inputs + [last]).Some?
    ensures Alone(pid, files, inputs).Some? && Alone(pid, files, inputs).value.1 == StatusOk
    ensures Defined(Alone(pid, files, inputs).value.0, last)
    ensures Alone(pid, files, inputs + [last]) == Some(Handle(pid, files, Alone(pid, files, inputs).value.0, last))
  {
    assert (inputs + [last])[..|inputs|] == inputs;
  }

  /** Phases that can still come: along the service chosen, never back. */
  predicate Later(p: Phase, q: Phase) {
    match p
    case Unassigned => true
    case MathWaitA => q in {MathWaitA, MathWaitOp, MathWaitB, MathDone}
    case MathWaitOp => q in {MathWaitOp, MathWaitB, MathDone}
    case MathWaitB => q in {MathWaitB, MathDone}
    case MathDone => q == MathDone
    case FileWaitName => q in {FileWaitName, FileReceive, FileDone}
    case FileReceive => q in {FileReceive, FileDone}
    case FileDone => q == FileDone
  }

  /** Whatever a client sends, its phase only ever moves forward along one of the two paths. */
  lemma {:induction false} PhasesMoveForward(pid: nat, files: set<string>, inputs: seq<seq<char>>, n: nat)
    requires n <= |inputs| && Alone(pid, files, inputs).Some?
    ensures Alone(pid, files, inputs[..n]).Some?
    ensures Later(Alone(pid, files, inputs[..n]).value.0.phase, Alone(pid, files, inputs).value.0.phase)
  {
    if n == |inputs| {
      assert inputs[..n] == inputs;
    } else {
      var front := inputs[..|inputs| - 1];
      PhasesMoveForward(pid, files, front, n);
      assert front[..n] == inputs[..n];
    }
  }

  /** What a math session has told its client by the time it waits for its n-th message. */
  ghost predicate Prompted(s: Session, inputs: seq<seq<char>>) {
    match s.phase
    case Unassigned => inputs == [] && s == NEW_SESSION
    case MathWaitA => |inputs| == 1 && s.sent == [STR1]
    case MathWaitOp => |inputs| == 2 && s.sent == [STR1] + [STR3] && s.mathA == Atoi(inputs[1])
    case MathWaitB =>
      && |inputs| == 3 && s.sent == [STR1] + [STR3] + [STR2] && s.mathA == Atoi(inputs[1])
      && inputs[2] != [] && s.mathOp == OpOf(inputs[2][0]) && s.mathOp.Some?
    case MathDone => MathAnswered(s, inputs)
    case _ => s.sent == []
  }

  /** The operation chosen by the third message applied to the numbers in the second and the fourth. */
  ghost predicate MathAnswered(s: Session, inputs: seq<seq<char>>) {
    && |inputs| == 4 && inputs[2] != [] && OpOf(inputs[2][0]).Some?
    && s.sent == [STR1] + [STR3] + [STR2]
      + [ResultText(OpOf(inputs[2][0]).value, Atoi(inputs[1]), Atoi(inputs[3]))]
  }

  lemma AnsweredIsRight(s: Session, inputs: seq<seq<char>>)
    requires MathAnswered(s, inputs)
    ensures |s.sent| == 4 && RightReply(inputs[2][0], Atoi(inputs[1]), Atoi(inputs[3]), s.sent[3])
  {
    hide RightReply, ResultText, Atoi, OpOf;
    ResultIsRight(inputs[2][0], Atoi(inputs[1]), Atoi(inputs[3]));
  }

  lemma PromptedStep(pid: nat, files: set<string>, s: Session, inputs: seq<seq<char>>)
    requires inputs != [] && Prompted(s, inputs[..|inputs| - 1]) && s.phase != MathDone
    requires Defined(s, inputs[|inputs| - 1])
    ensures var (t, status) := Handle(pid, files, s, inputs[|inputs| - 1]);
      status != StatusFatal ==> Prompted(t, inputs) && (status == StatusOk <==> t.phase != MathDone)
  {
    if s.phase == Unassigned { assert [] + [STR1] == [STR1]; }
  }

  lemma {:induction false} PromptedAlone(pid: nat, files: set<string>, inputs: seq<seq<char>>)
    requires Alone(pid, files, inputs).Some? && Alone(pid, files, inputs).value.1 != StatusFatal
    ensures Prompted(Alone(pid, files, inputs).value.0, inputs)
    ensures Alone(pid, files, inputs).value.1 == StatusOk <==> Alone(pid, files, inputs).value.0.phase != MathDone
  {
    if inputs != [] {
      PromptedAlone(pid, files, inputs[..|inputs| - 1]);
      PromptedStep(pid, files, Alone(pid, files, inputs[..|inputs| - 1]).value.0, inputs);
    }
  }

  lemma FirstChoice(pid: nat, files: set<string>, inputs: seq<seq<char>>, c: char)
    requires inputs != [] && Alone(pid, files, inputs).Some?
    requires inputs[0] != [] && inputs[0][0] == c && c in {'1', '2'}
    ensures Later(if c == '1' then MathWaitA else FileWaitName, Alone(pid, files, inputs).value.0.phase)
  {
    PhasesMoveForward(pid, files, inputs, 1);
    assert inputs[..1][..0] == [] && inputs[..1][0] == inputs[0];
  }

  /**
    A client that chose arithmetic and has sent four messages is done: it was told the result of the
    operation it named third on the numbers it sent second and fourth, or that it divided by zero.
   */
  lemma MathSession(pid: nat, files: set<string>, inputs: seq<seq<char>>)
    requires |inputs| == 4 && Alone(pid, files, inputs).Some?
    requires inputs[0] != [] && inputs[0][0] == '1'
    ensures Alone(pid, files, inputs).value.1 == StatusFin && MathAnswered(Alone(pid, files, inputs).value.0, inputs)
    ensures RightReply(inputs[2][0], Atoi(inputs[1]), Atoi(inputs[3]), Alone(pid, files, inputs).value.0.sent[3])
  {
    hide RightReply, ResultText, Atoi, OpOf;
    var front := inputs[..3];
    PromptedAlone(pid, files, front);
    FirstChoice(pid, files, front, '1');
    PromptedAlone(pid, files, inputs);
    AnsweredIsRight(Alone(pid, files, inputs).value.0, inputs);
  }

  // ------------------------------------------------ sessions in plain numbers

  lemma ResultsAreRight(op: Option<Op>, a: int, b: int)
    requires op.Some?
    ensures forall c :: OpOf(c) == op ==> RightReply(c, a, b, ResultText(op.value, a, b))
  {
    forall c | OpOf(c) == op ensures RightReply(c, a, b, ResultText(op.value, a, b)) { ResultIsRight(c, a, b); }
  }

  /** A printed number and what ends it: anything that is not a digit. */
  ghost predicate Sent(message: seq<char>, n: int) {
    IsInt(n) && DecInt(n) < message && message[|DecInt(n)|] !in DIGITS && |message| <= MESSAGE_SIZE
  }

  lemma IntHasNoNul(n: int)
    ensures NUL !in DecInt(n)
  {
    var w := Dec(if n < 0 then -n else n);
    assert forall i :: 0 <= i < |w| ==> w[i] in DIGITS;
  }

  lemma StrtolOfSent(message: seq<char>, n: int)
    requires Sent(message, n)
    ensures Strtol(message) == (n, |DecInt(n)|) && Ends(message)
  {
    var w := DecInt(n);
    assert message == w + message[|w|..];
    StrtolOfInt(n, message[|w|..]);
    ScanEndIs(message);
  }

  /** It is read back, sign and all, and settled. */
  lemma AtoiOfSent(message: seq<char>, n: int)
    requires Sent(message, n)
    ensures Atoi(message) == n && Settled(message)
  {
    var w, rest := DecInt(n), message[|DecInt(n)|..];
    hide Strtol, DecInt;
    assert message == w + rest;
    IntHasNoNul(n);
    CStrCat(w, rest);
    StrtolOfInt(n, CStr(rest));
    StrtolOfSent(message, n);
  }

  /** The prompts and the reply of a session in which `a`, an operation and `b` were sent. */
  ghost predicate Told(s: Session, m2: seq<char>, a: int, b: int) {
    && |s.sent| == 4 && m2 != [] && RightReply(m2[0], a, b, s.sent[3])
    && s.sent[..3] == ["Enter 1 parameter\r\n\0", "Enter op (+,-,*,/)\r\n\0", "Enter 2 parameter\r\n\0"]
  }

  lemma AnswerIsTold(s: Session, m0: seq<char>, m1: seq<char>, m2: seq<char>, m3: seq<char>, a: int, b: int)
    requires MathAnswered(s, [m0, m1, m2, m3]) && Sent(m1, a) && Sent(m3, b)
    ensures Told(s, m2, a, b)
  {
    hide RightReply, Sent, Atoi, ResultText, OpOf;
    AtoiOfSent(m1, a);
    AtoiOfSent(m3, b);
    ResultIsRight(m2[0], a, b);
  }

  /** The result fits an int. */
  predicate Computable(c: char, a: int, b: int) {
    match c
    case '+' => IsInt(a + b)
    case '-' => IsInt(a - b)
    case '*' => IsInt(a * b)
    case '/' => !(a == -INT_MAX - 1 && b == -1)
    case _ => false
  }

  lemma AbsOfProduct(q: int, b: int)
    ensures Abs(q * b) == Abs(q) * Abs(b)
  {
  }

  lemma LargeProduct(q: nat, b: nat, k: nat)
    requires q >= k
    ensures q * b >= k * b
  {
    assert q * b - k * b == (q - k) * b;
  }

  /** A quotient too large for an int belongs to a larger dividend, unless the divisor is 1 or -1. */
  lemma SmallQuotient(a: int, b: int, q: int, r: int, product: int)
    requires product == q * b && a == product + r && Abs(r) < Abs(b) && IsInt(a)
    requires !(a == -INT_MAX - 1 && b == -1)
    ensures IsInt(q)
  {
    if b == 1 || b == -1 {
      assert product == if b == 1 then q else -q;
    } else if Abs(q) > INT_MAX {
      AbsOfProduct(q, b);
      LargeProduct(Abs(q), Abs(b), INT_MAX + 1);
    }
  }

  lemma ComputableFits(c: char, a: int, b: int)
    requires IsInt(a) && IsInt(b) && Computable(c, a, b)
    ensures OpOf(c).Some? && Fits(OpOf(c).value, a, b)
  {
    if c == '/' && b != 0 {
      var r := QuotientDivides(a, b);
      SmallQuotient(a, b, Quotient(a, b), r, Quotient(a, b) * b);
    }
  }

  lemma TwoMessages(pid: nat, files: set<string>, m0: seq<char>, m1: seq<char>, a: int)
    requires 0 < |m0| <= MESSAGE_SIZE && m0[0] == '1' && Sent(m1, a)
    ensures Alone(pid, files, [m0] + [m1]).Some?
    ensures var (s, status) := Alone(pid, files, [m0] + [m1]).value;
      status == StatusOk && s.phase == MathWaitOp && s.mathA == a && s.sent == [STR1] + [STR3]
  {
    hide Sent, Settled, Atoi;
    assert [m0] == [] + [m0] && [] + [STR1] == [STR1];
    AtoiOfSent(m1, a);
    SentFits(m1, a);
    AloneNext(pid, files, [], m0);
    AloneNext(pid, files, [m0], m1);
  }

  /** Any other operation ends the session, without a word. */
  lemma WrongOperation(pid: nat, files: set<string>, m0: seq<char>, m1: seq<char>, m2: seq<char>, a: int)
    requires 0 < |m0| <= MESSAGE_SIZE && m0[0] == '1' && Sent(m1, a)
    requires 0 < |m2| <= MESSAGE_SIZE && m2[0] !in {'+', '-', '*', '/'}
    ensures Alone(pid, files, [m0] + [m1] + [m2]).Some?
    ensures var (s, status) := Alone(pid, files, [m0] + [m1] + [m2]).value;
      status == StatusFatal && s.sent == [STR1] + [STR3]
  {
    TwoMessages(pid, files, m0, m1, a);
    AloneNext(pid, files, [m0] + [m1], m2);
  }

  lemma ThreeMessages(pid: nat, files: set<string>, m0: seq<char>, m1: seq<char>, m2: seq<char>, a: int)
    requires 0 < |m0| <= MESSAGE_SIZE && m0[0] == '1' && Sent(m1, a)
    requires 0 < |m2| <= MESSAGE_SIZE && OpOf(m2[0]).Some?
    ensures Alone(pid, files, [m0] + [m1] + [m2]).Some?
    ensures var (s, status) := Alone(pid, files, [m0] + [m1] + [m2]).value;
      status == StatusOk && s.phase == MathWaitB && s.mathA == a && s.mathOp == OpOf(m2[0])
  {
    TwoMessages(pid, files, m0, m1, a);
    AloneNext(pid, files, [m0] + [m1], m2);
  }

  lemma SentFits(message: seq<char>, n: int)
    requires Sent(message, n)
    ensures |message| <= MESSAGE_SIZE && IsInt(n)
  {
  }

  /**
    An arithmetic session in plain numbers: two ints sent as they are printed, each with anything but a
    digit behind it, and an operation whose result fits an int, always end with the right reply.
   */
  lemma PrintedSession(pid: nat, files: set<string>, m0: seq<char>, m1: seq<char>, m2: seq<char>, m3: seq<char>,
                       a: int, b: int)
    requires 0 < |m0| <= MESSAGE_SIZE && m0[0] == '1' && Sent(m1, a)
    requires 0 < |m2| <= MESSAGE_SIZE && Sent(m3, b) && Computable(m2[0], a, b)
    ensures Alone(pid, files, [m0, m1, m2, m3]).Some?
    ensures var (s, status) := Alone(pid, files, [m0, m1, m2, m3]).value;
      status == StatusFin && Told(s, m2, a, b)
  {
    hide Sent, Settled, Atoi, OpOf, Fits, Computable;
    SentFits(m1, a);
    SentFits(m3, b);
    AtoiOfSent(m3, b);
    ComputableFits(m2[0], a, b);
    ThreeMessages(pid, files, m0, m1, m2, a);
    AloneNext(pid, files, [m0] + [m1] + [m2], m3);
    assert [m0, m1, m2, m3] == [m0] + [m1] + [m2] + [m3];
    MathSession(pid, files, [m0, m1, m2, m3]);
    AnswerIsTold(Alone(pid, files, [m0, m1, m2, m3]).value.0, m0, m1, m2, m3, a, b);
  }

  // ---------------------------------------------------------- file sessions

  lemma SnocOfTail(chunks: Chunks, x: seq<char>)
    requires chunks != []
    ensures (chunks + [x])[0] == chunks[0] && (chunks + [x])[1..] == chunks[1..] + [x]
  {
  }

  lemma {:induction false} ReceivedSnoc(size: int, chunks: Chunks, x: seq<char>)
    requires Reads(chunks) && x != []
    ensures Received(size, chunks + [x]) ==
      if |Flatten(chunks)| < size then Flatten(chunks) + x else Received(size, chunks)
    ensures |Flatten(chunks)| < size ==> Received(size, chunks) == Flatten(chunks)
  {
    if chunks == [] {
      assert ([] + [x])[1..] == [];
    } else if size > 0 {
      var c, rest := chunks[0], chunks[1..];
      SnocOfTail(chunks, x);
      ReceivedSnoc(size - |c|, rest, x);
      CatAssoc(c, Flatten(rest), x);
    }
  }

  /** A client whose header was accepted, after the chunks it has sent since. */
  ghost predicate Receiving(s: Session, chunks: Chunks) {
    && s.fileReceived == |s.file|
    && (s.fileSize > 0 ==>
      && s.file == Received(s.fileSize, chunks)
      && (s.phase == FileReceive ==> s.file == Flatten(chunks) && |s.file| < s.fileSize)
      && (s.phase == FileDone ==> |Flatten(chunks)| >= s.fileSize))
    && (s.fileSize == 0 ==>
      && (s.phase == FileReceive <==> chunks == [])
      && s.file == if chunks == [] then [] else chunks[0])
    && s.phase in {FileReceive, FileDone}
  }

  lemma ReceivingStep(pid: nat, files: set<string>, s: Session, chunks: Chunks, input: seq<char>)
    requires Receiving(s, chunks) && Reads(chunks) && input != [] && Defined(s, input)
    ensures Receiving(Handle(pid, files, s, input).0, chunks + [input])
    ensures var t := Handle(pid, files, s, input).0; t.fileSize == s.fileSize && t.filename == s.filename
  {
    ReceivedSnoc(s.fileSize, chunks, input);
    FlattenSnoc(chunks, input);
  }

  /** After the second message: the file is open under the name and size in the header. */
  lemma HeaderAccepted(pid: nat, files: set<string>, m0: seq<char>, header: seq<char>)
    requires Alone(pid, files, [m0, header]).Some? && Alone(pid, files, [m0, header]).value.0.phase == FileReceive
    ensures NUL in header && Named(CStr(header)) && ParseHeader(CStr(header)).Header?
    ensures var s, h := Alone(pid, files, [m0, header]).value.0, ParseHeader(CStr(header));
      s == NEW_SESSION.(phase := FileReceive, fileSize := h.size, filename := FileName(pid, h.name))
  {
    assert [m0, header] == [m0] + [header] && [m0] == [] + [m0];
    AloneSnoc(pid, files, [m0], header);
    AloneSnoc(pid, files, [], m0);
  }

  lemma LastOfBoth(a: seq<seq<char>>, b: seq<seq<char>>)
    requires b != []
    ensures b == b[..|b| - 1] + [b[|b| - 1]] && a + b == (a + b[..|b| - 1]) + [b[|b| - 1]]
  {
  }

  lemma {:induction false} ReceivingAlone(pid: nat, files: set<string>, m0: seq<char>, header: seq<char>, more: Chunks)
    requires Alone(pid, files, [m0, header] + more).Some? && Reads(more)
    requires Alone(pid, files, [m0, header]).Some? && Alone(pid, files, [m0, header]).value.0.phase == FileReceive
    ensures var s, start := Alone(pid, files, [m0, header] + more).value.0, Alone(pid, files, [m0, header]).value.0;
      Receiving(s, more) && s.fileSize == start.fileSize && s.filename == start.filename
    decreases |more|
  {
    if more == [] {
      assert [m0, header] + more == [m0, header];
      HeaderAccepted(pid, files, m0, header);
    } else {
      var front, last := more[..|more| - 1], more[|more| - 1];
      LastOfBoth([m0, header], more);
      AloneSnoc(pid, files, [m0, header] + front, last);
      ReadsSnoc(front, last);
      ReceivingAlone(pid, files, m0, header, front);
      ReceivingStep(pid, files, Alone(pid, files, [m0, header] + front).value.0, front, last);
    }
  }

  lemma ReadsSnoc(chunks: Chunks, c: seq<char>)
    requires Reads(chunks + [c])
    ensures Reads(chunks) && c != []
  {
    assert (chunks + [c])[|chunks|] == c;
    assert forall i :: 0 <= i < |chunks| ==> (chunks + [c])[i] == chunks[i];
  }

  /**
    However the bytes after an accepted header are cut up, the event-driven server has written what
    the blocking loop of program 13 writes, if and only if the announced size is positive or nothing
    has come yet: of a file announced as empty it writes the first chunk all the same.
   */
  lemma WritesLikeBlockingLoop(pid: nat, files: set<string>, m0: seq<char>, header: seq<char>, more: Chunks)
    requires Alone(pid, files, [m0, header] + more).Some? && Reads(more)
    requires Alone(pid, files, [m0, header]).Some? && Alone(pid, files, [m0, header]).value.0.phase == FileReceive
    ensures Named(CStr(header)) && ParseHeader(CStr(header)).Header?
    ensures var s, size := Alone(pid, files, [m0, header] + more).value.0, ParseHeader(CStr(header)).size;
      s.file == Received(size, more) <==> size > 0 || more == []
  {
    HeaderAccepted(pid, files, m0, header);
    ReceivingAlone(pid, files, m0, header, more);
  }

  /** A client has sent one header at most, and its file is named after it. */
  ghost predicate OneHeader(pid: nat, s: Session, status: Status, inputs: seq<seq<char>>) {
    && (s.phase == Unassigned && status == StatusOk ==> inputs == [])
    && (s.phase == FileWaitName && status == StatusOk ==> |inputs| == 1)
    && (Uploading(s) ==>
      |inputs| >= 2 && NameIn(inputs[1]).Some? && s.filename == FileName(pid, NameIn(inputs[1]).value))
  }

  /** A file gets its name from the header that opens it, and keeps it. */
  lemma HandleKeepsName(pid: nat, files: set<string>, s: Session, bytes: seq<char>)
    requires Defined(s, bytes)
    ensures var t := Handle(pid, files, s, bytes).0;
      && (Uploading(s) ==> t.filename == s.filename)
      && (Uploading(t) && !Uploading(s) ==>
        s.phase == FileWaitName && NameIn(bytes).Some? && t.filename == FileName(pid, NameIn(bytes).value))
  {
  }

  lemma OneHeaderStep(pid: nat, files: set<string>, s: Session, inputs: seq<seq<char>>, last: seq<char>)
    requires OneHeader(pid, s, StatusOk, inputs) && Defined(s, last)
    ensures OneHeader(pid, Handle(pid, files, s, last).0, Handle(pid, files, s, last).1, inputs + [last])
  {
    if |inputs| >= 2 { assert (inputs + [last])[1] == inputs[1]; }
    HandleKeepsName(pid, files, s, last);
  }

  lemma {:induction false} OneHeaderOnly(pid: nat, files: set<string>, inputs: seq<seq<char>>)
    requires Alone(pid, files, inputs).Some?
    ensures OneHeader(pid, Alone(pid, files, inputs).value.0, Alone(pid, files, inputs).value.1, inputs)
  {
    if inputs != [] {
      var front, last := inputs[..|inputs| - 1], inputs[|inputs| - 1];
      LastApart(inputs);
      AloneSnoc(pid, files, front, last);
      OneHeaderOnly(pid, files, front);
      OneHeaderStep(pid, files, Alone(pid, files, front).value.0, front, last);
    }
  }

  /** A header without a size, or with one that is no number, ends the session without a word or a file. */
  lemma WrongHeader(pid: nat, files: set<string>, m0: seq<char>, header: seq<char>)
    requires 0 < |m0| <= MESSAGE_SIZE && m0[0] == '2'
    requires |header| <= MESSAGE_SIZE && NUL in header && Named(CStr(header)) && NameIn(header).None?
    ensures Alone(pid, files, [m0] + [header]) ==
      Some((NEW_SESSION.(phase := FileWaitName), StatusFatal))
  {
    assert [m0] == [] + [m0];
    AloneNext(pid, files, [], m0);
    AloneNext(pid, files, [m0], header);
  }

  /** Whatever comes behind a whole file is refused, and the file stays as it is. */
  lemma NothingBehindFile(pid: nat, files: set<string>, inputs: seq<seq<char>>, last: seq<char>)
    requires Alone(pid, files, inputs).Some? && Alone(pid, files, inputs).value.1 == StatusOk
    requires Alone(pid, files, inputs).value.0.phase == FileDone && |last| <= MESSAGE_SIZE
    ensures Alone(pid, files, inputs + [last]).Some?
    ensures var (s, t) := (Alone(pid, files, inputs).value.0, Alone(pid, files, inputs + [last]).value.0);
      && Alone(pid, files, inputs + [last]).value.1 == StatusFatal
      && t.file == s.file && t.filename == s.filename && t.sent == s.sent + ["No such operation available.\r\n\0"]
  {
    AloneNext(pid, files, inputs, last);
  }

  /** A first message that chooses no service is refused in these words. */
  lemma WrongChoice(pid: nat, files: set<string>, m0: seq<char>)
    requires 0 < |m0| <= MESSAGE_SIZE && m0[0] !in {'1', '2'}
    ensures Alone(pid, files, [m0]) ==
      Some((NEW_SESSION.(sent := ["No such operation available.\r\n\0"]), StatusFatal))
  {
    assert [m0] == [] + [m0];
    AloneNext(pid, files, [], m0);
    assert [] + [NOT_FOUND] == [NOT_FOUND];
  }

  lemma AloneNext(pid: nat, files: set<string>, inputs: seq<seq<char>>, last: seq<char>)
    requires Alone(pid, files, inputs).Some? && Alone(pid, files, inputs).value.1 == StatusOk
    requires Defined(Alone(pid, files, inputs).value.0, last)
    ensures Alone(pid, files, inputs + [last]) == Some(Handle(pid, files, Alone(pid, files, inputs).value.0, last))
  {
    assert (inputs + [last])[..|inputs|] == inputs;
  }

  /** Choosing a transfer and sending a header opens the file. */
  lemma HeaderOpensFile(pid: nat, files: set<string>, m0: seq<char>, header: seq<char>)
    requires 0 < |m0| <= MESSAGE_SIZE && m0[0] == '2'
    requires |header| == MESSAGE_SIZE && NUL in header
    requires Named(CStr(header)) && ParseHeader(CStr(header)).Header?
    requires FileName(pid, ParseHeader(CStr(header)).name) !in files
    ensures Alone(pid, files, [m0, header]).Some? && Alone(pid, files, [m0, header]).value.1 == StatusOk
    ensures Alone(pid, files, [m0, header]).value.0.phase == FileReceive
  {
    assert [m0, header] == [m0] + [header] && [m0] == [] + [m0];
    AloneNext(pid, files, [], m0);
    AloneNext(pid, files, [m0], header);
  }

  /** As long as less than the announced size had come before, the next chunk is taken. */
  lemma {:induction false} KeepsReceiving(pid: nat, files: set<string>, m0: seq<char>, header: seq<char>, more: Chunks)
    requires Alone(pid, files, [m0, header]).Some? && Alone(pid, files, [m0, header]).value.1 == StatusOk
    requires Alone(pid, files, [m0, header]).value.0.phase == FileReceive && Reads(more)
    requires more != [] ==>
      |Flatten(more[..|more| - 1])| < Alone(pid, files, [m0, header]).value.0.fileSize
    ensures Alone(pid, files, [m0, header] + more).Some? && Alone(pid, files, [m0, header] + more).value.1 == StatusOk
    decreases |more|
  {
    if more == [] {
      assert [m0, header] + more == [m0, header];
    } else {
      var front, last := more[..|more| - 1], more[|more| - 1];
      LastOfBoth([m0, header], more);
      ReadsSnoc(front, last);
      if front != [] { ShorterBefore(front); }
      KeepsReceiving(pid, files, m0, header, front);
      ReceivingAlone(pid, files, m0, header, front);
      AloneNext(pid, files, [m0, header] + front, last);
    }
  }

  lemma ShorterBefore(inputs: seq<seq<char>>)
    requires inputs != []
    ensures |Flatten(inputs[..|inputs| - 1])| <= |Flatten(inputs)|
  {
    var front, last := inputs[..|inputs| - 1], inputs[|inputs| - 1];
    assert inputs == front + [last];
    FlattenSnoc(front, last);
  }

  /**
    A transfer by send_file always completes, however its body is cut up on the way: the server has
    the same file, named after the last component of the path.
   */
  lemma FileSession(pid: nat, files: set<string>, m0: seq<char>, dir: string, base: string, source: seq<char>,
                    header: seq<char>, more: Chunks)
    requires Word(base, SLASH) && (dir == [] || dir[|dir| - 1] == '/') && NoneIn(dir + base, COLON)
    requires 0 < |m0| <= MESSAGE_SIZE && m0[0] == '2'
    requires |header| == MESSAGE_SIZE && NUL in header && FileName(pid, base) !in files
    requires CStr(header) == HeaderText(dir + base, |source|) && |source| <= LONG_MAX
    requires Reads(more) && Flatten(more) == source
    ensures Alone(pid, files, [m0, header] + more).Some?
    ensures var (s, status) := Alone(pid, files, [m0, header] + more).value;
      && s.file == source && s.filename == FileName(pid, base)
      && (|base| <= Room(pid) ==> s.filename == "storage/" + Dec(pid) + "-" + base)
      && status == StatusOk && (source != [] ==> s.phase == FileDone)
  {
    if |base| <= Room(pid) { FullName(pid, base); }
    HeaderRoundTrip(dir, base, |source|);
    HeaderOpensFile(pid, files, m0, header);
    HeaderAccepted(pid, files, m0, header);
    if source == [] { NothingToSend(more); } else { LastChunkCompletes(more); }
    KeepsReceiving(pid, files, m0, header, more);
    ReceivingAlone(pid, files, m0, header, more);
    WholeBody(more);
  }

  lemma LastChunkCompletes(inputs: seq<seq<char>>)
    requires Reads(inputs) && Flatten(inputs) != []
    ensures inputs != [] && |Flatten(inputs[..|inputs| - 1])| < |Flatten(inputs)|
  {
    var front, last := inputs[..|inputs| - 1], inputs[|inputs| - 1];
    assert inputs == front + [last];
    ReadsSnoc(front, last);
    FlattenSnoc(front, last);
  }

  lemma NothingToSend(chunks: Chunks)
    requires Reads(chunks) && Flatten(chunks) == []
    ensures chunks == []
  {
  }
}
