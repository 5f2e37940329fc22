/**
  The event handlers of a driver process of program cross2: answering one request read from its
  pipe, and its one-shot timer.
 */
module DriverRoutine {
  import opened CStrings

  const PIPE_BUFFER_SIZE: nat := 128
  const COLON: set<char> := {':'}

  datatype Status = AVAILABLE | BUSY
  /** A one-shot timer; `Expired` until the expiration is read. */
  datatype Timer = Off | Armed | Expired
  datatype Request = AskStatus | Task(time: nat)
  datatype Reply = Available | Busy(time: nat) | Accepted

  /** What the master writes for a request, without its padding; `time` is an int. */
  function RequestText(r: Request): string {
    match r case AskStatus => "status:" case Task(time) => "task:" + Dec(time)
  }

  function ReplyText(r: Reply): string {
    match r case Available => "Available" case Busy(time) => "Busy " + Dec(time) case Accepted => "ok"
  }

  /** What a driver answers; only an available driver accepts a task. */
  function Answer(status: Status, tvSec: nat, r: Request): Reply {
    if status == BUSY then Busy(tvSec) else if r.AskStatus? then Available else Accepted
  }

  /** What a request changes in a driver: the state it is in, the time it last set, and its timer. */
  datatype Mode = Mode(status: Status, tvSec: nat, timer: Timer)

  function Served(m: Mode, r: Request): Mode {
    if m.status == BUSY || r.AskStatus? then m
    else Mode(BUSY, r.time, if r.time > 0 then Armed else Off)
  }

  lemma DecFits(n: nat)
    requires n <= INT_MAX
    ensures |Dec(n)| <= 10 && NUL !in Dec(n) && Word(Dec(n), COLON)
  {
    var w := Dec(n);
    assert forall i :: 0 <= i < |w| ==> w[i] in DIGITS;
    assert Pow10(2) == 100 && Pow10(4) == 10000 && Pow10(6) == 1000000 && Pow10(8) == 100000000;
    assert Pow10(10) == 10000000000;
    DecLength(n, 10);
  }

  function FirstWordOf(r: Request): string { if r.AskStatus? then "status" else "task" }
  function MoreOf(r: Request): seq<string> { if r.AskStatus? then [] else [Dec(r.time)] }

  /** A request is a new task for an available driver, or it changes nothing. */
  lemma WhatIsDone(m: Mode, r: Request)
    ensures var accepted := m.status == AVAILABLE && r.Task?;
      && Answer(m.status, m.tvSec, r) ==
        (if accepted then Accepted else if m.status == BUSY then Busy(m.tvSec) else Available)
      && Served(m, r) == if accepted then Mode(BUSY, r.time, if r.time > 0 then Armed else Off) else m
  {
  }

  lemma FirstWordTells(r: Request)
    ensures (FirstWordOf(r) == "status" <==> r.AskStatus?) && (FirstWordOf(r) == "task" <==> r.Task?)
    ensures r.Task? ==> MoreOf(r) == [Dec(r.time)]
  {
    assert FirstWordOf(r)[0] == if r.AskStatus? then 's' else 't';
  }

  lemma TokensBehindColon(v: string)
    requires NoneIn(v, COLON)
    ensures Tokens(":" + v, COLON) == if v == [] then [] else [v]
  {
    hide Tokens;
    if v == [] {
      TokensOfGap(":" + v, COLON);
    } else {
      assert ":" + v + [] == ":" + v;
      TokensCons(":", v, [], COLON);
      TokensOfGap([], COLON);
    }
  }

  /** A word, a colon and maybe a second word. */
  lemma TokensOfPair(w: string, v: string)
    requires Word(w, COLON) && NoneIn(v, COLON)
    ensures Tokens(w + (":" + v), COLON) == [w] + if v == [] then [] else [v]
  {
    hide Tokens;
    assert [] + w + (":" + v) == w + (":" + v);
    TokensCons([], w, ":" + v, COLON);
    TokensBehindColon(v);
  }

  /** How strtok cuts up a request. */
  lemma TokensOfRequest(r: Request)
    requires r.Task? ==> r.time <= INT_MAX
    ensures NUL !in RequestText(r) && 0 < |RequestText(r)| < 16 && RequestText(r)[0] !in COLON
    ensures Tokens(RequestText(r), COLON) == [FirstWordOf(r)] + MoreOf(r)
  {
    match r
    case AskStatus =>
      assert "status" + (":" + "") == "status:";
      TokensOfPair("status", "");
    case Task(time) =>
      DecFits(time);
      assert "task" + (":" + Dec(time)) == "task:" + Dec(time);
      TokensOfPair("task", Dec(time));
  }

  /** memset and snprintf: the buffer holds the text and nothing else. */
  method Fill(buffer: array<char>, text: string)
    requires |text| < buffer.Length && NUL !in text
    modifies buffer
    ensures At(buffer[..], 0) == text
  {
    forall i | 0 <= i < buffer.Length { buffer[i] := NUL; }
    forall i | 0 <= i < |text| { buffer[i] := text[i]; }
    assert buffer[..][0..|text|] == text;
    AtToken(buffer[..], 0, |text|);
  }

  lemma ReplyFits(r: Reply)
    requires r.Busy? ==> r.time <= INT_MAX
    ensures NUL !in ReplyText(r) && |ReplyText(r)| < 16 && ReplyText(r) != "task"
  {
    if r.Busy? {
      DecFits(r.time);
      assert ReplyText(r)[0] == 'B';
    }
  }

  lemma SameHead(a: string, rest: seq<string>, b: string, more: seq<string>)
    requires [a] + rest == [b] + more
    ensures a == b && rest == more
  {
    assert a == ([a] + rest)[0] && b == ([b] + more)[0];
    assert rest == ([a] + rest)[1..] && more == ([b] + more)[1..];
  }

  /** A strtok call that is known to find the word `w`. */
  method NextWord(scanner: Scanner, ghost w: string, ghost more: seq<string>) returns (start: nat, word: string)
    requires scanner.Valid() && Tokens(scanner.Rest(), COLON) == [w] + more
    modifies scanner`save, scanner.buf
    ensures scanner.Valid() && Tokens(scanner.Rest(), COLON) == more
    ensures word == w && At(scanner.buf[..], start) == w
    ensures old(scanner.save) <= start <= scanner.buf.Length
    ensures AllIn(old(scanner.buf[..])[old(scanner.save)..start], COLON)
  {
    ghost var mem, from := scanner.buf[..], scanner.save;
    var token := scanner.Next(COLON);
    assert scanner.buf[from..token.start] == mem[from..token.start];
    start, word := token.start, scanner.buf[token.start..token.stop];
    SameHead(word, Tokens(scanner.Rest(), COLON), w, more);
    AtToken(scanner.buf[..], start, token.stop);
  }

  lemma NothingSkipped(mem: seq<char>, start: nat)
    requires start <= |mem| && AllIn(mem[0..start], COLON) && mem != [] && mem[0] !in COLON
    ensures start == 0
  {
  }

  /** The first strtok on a text that starts with the word `w`: the word starts where the buffer does. */
  method FirstWord(buffer: array<char>, ghost text: string, ghost w: string, ghost more: seq<string>)
    returns (scanner: Scanner, start: nat)
    requires 0 < |text| < buffer.Length && At(buffer[..], 0) == text && text[0] !in COLON
    requires Tokens(text, COLON) == [w] + more
    modifies buffer
    ensures fresh(scanner) && scanner.Valid() && scanner.buf == buffer
    ensures start == 0 && At(buffer[..], 0) == w && Tokens(scanner.Rest(), COLON) == more
  {
    assert buffer[0..] == buffer[..] && buffer[..][|text|] == NUL && buffer[0] == text[0];
    ghost var mem := buffer[..];
    scanner := new Scanner(buffer, 0);
    var word;
    start, word := NextWord(scanner, w, more);
    NothingSkipped(mem, start);
  }

  class Driver {
    var status: Status
    var tvSec: nat
    var timer: Timer

    ghost predicate Valid()
      reads this
    {
      tvSec <= INT_MAX
    }

    constructor ()
      ensures Valid() && status == AVAILABLE && timer == Off && tvSec == 0
    {
      status, tvSec, timer := AVAILABLE, 0, Off;
    }

    /** The answer to a status request, or to anything while busy; it overwrites the buffer. */
    method Report(buffer: array<char>) returns (reply: string)
      requires Valid() && buffer.Length == PIPE_BUFFER_SIZE
      modifies buffer
      ensures reply == if status == BUSY then "Busy " + Dec(tvSec) else "Available"
      ensures At(buffer[..], 0) == reply != "task"
    {
      reply := if status == AVAILABLE then "Available" else "Busy " + Dec(tvSec);
      ReplyFits(if status == BUSY then Busy(tvSec) else Available);
      Fill(buffer, reply);
    }

    /** timerfd_settime: zero seconds switch the timer off. */
    method SetTime(time: nat)
      modifies this`timer
      ensures timer == if time > 0 then Armed else Off
    {
      timer := if time > 0 then Armed else Off;
    }

    /** The branch for tasks: the scanner is behind the word "task", so the time comes next. */
    method Accept(scanner: Scanner, ghost time: nat)
      requires scanner.Valid() && Tokens(scanner.Rest(), COLON) == [Dec(time)] && time <= INT_MAX
      modifies this, scanner`save, scanner.buf
      ensures Valid() && status == BUSY && tvSec == time && timer == if time > 0 then Armed else Off
    {
      assert [Dec(time)] + [] == [Dec(time)];
      var _, word := NextWord(scanner, Dec(time), []);
      var (value, _) := Strtol(word);
      StrtolOfPrinted(time);
      tvSec := ToInt(value);
      SetTime(tvSec);
      status := BUSY;
    }

    /**
      A request read from the pipe. `replies` is all that is written back: exactly one reply, for a
      report overwrites the buffer the first token points into, so that it no longer reads "task".
     */
    method OnRequest(buffer: array<char>, ghost r: Request) returns (replies: seq<string>)
      requires Valid() && buffer.Length == PIPE_BUFFER_SIZE && (r.Task? ==> r.time <= INT_MAX)
      requires At(buffer[..], 0) == RequestText(r)
      modifies this, buffer
      ensures Valid() && replies == [ReplyText(Answer(old(status), old(tvSec), r))]
      ensures Mode(status, tvSec, timer) == Served(old(Mode(status, tvSec, timer)), r)
    {
      hide RequestText, FirstWordOf, MoreOf, Answer, Served;
      WhatIsDone(Mode(status, tvSec, timer), r);
      replies := [];
      TokensOfRequest(r);
      FirstWordTells(r);
      var scanner, token := FirstWord(buffer, RequestText(r), FirstWordOf(r), MoreOf(r));
      if At(buffer[..], token) == "status" || status == BUSY {
        var reply := Report(buffer);
        replies := replies + [reply];
      }
      if At(buffer[..], token) == "task" {
        Accept(scanner, r.time);
        replies := replies + ["ok"];
      }
    }

    /** The timer has expired: reading it makes the driver available again. */
    method OnTimer()
      requires timer == Expired
      modifies this
      ensures timer == Off && status == AVAILABLE && tvSec == old(tvSec)
    {
      timer := Off;
      status := AVAILABLE;
    }
  }
}
