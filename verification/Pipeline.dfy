/**
  The descriptors of the shell of program 04: how `run` connects the commands of a pipeline.
  A process is its descriptor table; every call succeeds.
 */
module Pipeline {
  const STDIN: nat := 0
  const STDOUT: nat := 1

  /** A parsed command; an empty file name means that side is not redirected. */
  datatype Command = Command(argv: seq<string>, input: string, output: string, append: bool)

  /** What a descriptor refers to. `ReadEnd(i)` and `WriteEnd(i)` belong to the i-th pipe of this run. */
  datatype Target =
    | Inherited(id: int) | ReadEnd(pipe: nat) | WriteEnd(pipe: nat)
    | Source(name: string) | Sink(name: string, append: bool)

  type Fds = map<nat, Target>

  ghost function InUse(fds: Fds, k: nat): set<nat> { set fd | fd in fds && fd >= k }

  /** The lowest descriptor from `k` on that is not in use. */
  function FreeFrom(fds: Fds, k: nat): (fd: nat)
    ensures fd >= k && fd !in fds && forall j :: k <= j < fd ==> j in fds
    decreases InUse(fds, k)
  {
    if k !in fds then k else
      assert k in InUse(fds, k) && k !in InUse(fds, k + 1);
      FreeFrom(fds, k + 1)
  }

  /** A table with the standard streams open and no pipe end of this run in it. */
  ghost predicate Proper(base: Fds) {
    STDIN in base && STDOUT in base && forall fd :: fd in base ==> base[fd].Inherited?
  }

  /** The table command `i` should start with: its two streams connected, all else as in the shell. */
  function Wired(base: Fds, commands: seq<Command>, i: nat): Fds
    requires STDIN in base && STDOUT in base && i < |commands|
  {
    var c := commands[i];
    base
      [STDIN := if c.input != "" then Source(c.input) else if i > 0 then ReadEnd(i - 1) else base[STDIN]]
      [STDOUT := if c.output != "" then Sink(c.output, c.append)
                 else if i < |commands| - 1 then WriteEnd(i) else base[STDOUT]]
  }

  /** Standard input of command `i`: the file it names, else the pipe before it, else what the shell has. */
  ghost predicate InputRight(base: Fds, c: Command, i: nat, child: Fds)
    requires STDIN in base
  {
    && STDIN in child
    && (c.input != "" ==> child[STDIN] == Source(c.input))
    && (c.input == "" && i > 0 ==> child[STDIN] == ReadEnd(i - 1))
    && (c.input == "" && i == 0 ==> child[STDIN] == base[STDIN])
  }

  /**
    Standard output of command `i`: the file it names, opened for appending exactly if it says so, else
    the pipe behind it, else what the shell has.
   */
  ghost predicate OutputRight(base: Fds, c: Command, i: nat, last: bool, child: Fds)
    requires STDOUT in base
  {
    && STDOUT in child
    && (c.output != "" ==> child[STDOUT].Sink? && child[STDOUT].name == c.output)
    && (c.output != "" && c.append ==> child[STDOUT].append)
    && (c.output != "" && !c.append ==> !child[STDOUT].append)
    && (c.output == "" && !last ==> child[STDOUT] == WriteEnd(i))
    && (c.output == "" && last ==> child[STDOUT] == base[STDOUT])
  }

  /** Everything else a child has open is what the shell had, and the other way round. */
  ghost predicate RestInherited(base: Fds, child: Fds) {
    forall fd: nat :: fd != STDIN && fd != STDOUT ==>
      (fd in child <==> fd in base) && (fd in base ==> child[fd] == base[fd])
  }

  /** What a child has open is right in all three respects. */
  ghost predicate StartsRight(base: Fds, commands: seq<Command>, i: nat, child: Fds)
    requires STDIN in base && STDOUT in base && i < |commands|
  {
    && InputRight(base, commands[i], i, child)
    && OutputRight(base, commands[i], i, i == |commands| - 1, child)
    && RestInherited(base, child)
  }

  lemma WiredIsRight(base: Fds, commands: seq<Command>, i: nat)
    requires STDIN in base && STDOUT in base && i < |commands|
    ensures StartsRight(base, commands, i, Wired(base, commands, i))
  {
  }

  /** The pipe ends the shell holds while it starts command `i`: of the pipe before it, and of the one behind it. */
  ghost predicate EndsAre(base: Fds, prev: int, infd: int, outfd: int, notLast: bool, i: nat) {
    && (prev == -1 <==> i == 0) && (prev != -1 ==> prev >= 0 && prev !in base)
    && (notLast ==> infd >= 0 && outfd >= 0 && infd !in base && outfd !in base)
    && (notLast ==> infd != outfd && prev != infd && prev != outfd)
  }

  /** The shell's table with those ends in it. */
  ghost function WithEnds(base: Fds, prev: int, infd: int, outfd: int, notLast: bool, i: nat): Fds
    requires EndsAre(base, prev, infd, outfd, notLast, i)
  {
    var m := if prev != -1 then base[prev := ReadEnd(i - 1)] else base;
    if notLast then m[infd := ReadEnd(i)][outfd := WriteEnd(i)] else m
  }

  class Process {
    var fds: Fds

    constructor (fds: Fds)
      ensures this.fds == fds
    {
      this.fds := fds;
    }

    method Pipe(id: nat) returns (infd: nat, outfd: nat)
      modifies this
      ensures infd !in old(fds) && outfd !in old(fds) && infd != outfd
      ensures fds == old(fds)[infd := ReadEnd(id)][outfd := WriteEnd(id)]
    {
      infd := FreeFrom(fds, 0);
      fds := fds[infd := ReadEnd(id)];
      outfd := FreeFrom(fds, 0);
      fds := fds[outfd := WriteEnd(id)];
    }

    method Open(target: Target) returns (fd: nat)
      modifies this
      ensures fd !in old(fds) && fds == old(fds)[fd := target]
    {
      fd := FreeFrom(fds, 0);
      fds := fds[fd := target];
    }

    method Dup2(from: nat, to: nat)
      requires from in fds
      modifies this
      ensures fds == old(fds)[to := old(fds)[from]]
    {
      fds := fds[to := fds[from]];
    }

    method Close(fd: nat)
      requires fd in fds
      modifies this
      ensures fds == old(fds) - {fd}
    {
      fds := fds - {fd};
    }

    method Fork() returns (child: Process)
      ensures fresh(child) && child.fds == fds
    {
      child := new Process(fds);
    }

    /** Moves a descriptor just opened to `to`. */
    method MoveTo(fd: nat, to: nat, ghost rest: Fds, target: Target)
      requires fd !in rest && to in rest && fds == rest[fd := target]
      modifies this
      ensures fds == rest[to := target]
    {
      Dup2(fd, to);
      Close(fd);
    }

    /** The child's part of execute_command up to execvp: `prev`, `infd` and `outfd` are the pipe ends it got. */
    method ConnectPipes(prev: int, infd: int, outfd: int, notLast: bool, ghost base: Fds, ghost i: nat)
      requires STDIN in base && STDOUT in base
      requires EndsAre(base, prev, infd, outfd, notLast, i)
      requires fds == WithEnds(base, prev, infd, outfd, notLast, i)
      modifies this
      ensures fds == base[STDIN := if i > 0 then ReadEnd(i - 1) else base[STDIN]]
                         [STDOUT := if notLast then WriteEnd(i) else base[STDOUT]]
    {
      if prev != -1 {
        Dup2(prev, STDIN);
        Close(prev);
      }
      if notLast {
        Dup2(outfd, STDOUT);
        Close(infd);
        Close(outfd);
      }
    }

    method Redirect(c: Command)
      requires STDIN in fds && STDOUT in fds
      modifies this
      ensures fds == old(fds)
        [STDIN := if c.input != "" then Source(c.input) else old(fds)[STDIN]]
        [STDOUT := if c.output != "" then Sink(c.output, c.append) else old(fds)[STDOUT]]
    {
      if c.input != "" {
        ghost var rest := fds;
        var fd := Open(Source(c.input));
        MoveTo(fd, STDIN, rest, Source(c.input));
      }
      if c.output != "" {
        ghost var rest := fds;
        var fd := Open(Sink(c.output, c.append));
        MoveTo(fd, STDOUT, rest, Sink(c.output, c.append));
      }
    }

    /** execute_command: the shell's own table stays; `atExec` is the child's when it reaches execvp. */
    method Execute(commands: seq<Command>, i: nat, prev: int, infd: int, outfd: int, notLast: bool, ghost base: Fds)
      returns (atExec: Fds)
      requires STDIN in base && STDOUT in base && i < |commands| && (notLast <==> i < |commands| - 1)
      requires EndsAre(base, prev, infd, outfd, notLast, i)
      requires fds == WithEnds(base, prev, infd, outfd, notLast, i)
      ensures atExec == Wired(base, commands, i) && StartsRight(base, commands, i, atExec)
    {
      WiredIsRight(base, commands, i);
      var child := Fork();
      child.ConnectPipes(prev, infd, outfd, notLast, base, i);
      child.Redirect(commands[i]);
      atExec := child.fds;
    }

    /** run: starts every command, and leaves the shell's table as it was. */
    method Run(commands: seq<Command>) returns (children: seq<Fds>)
      requires STDIN in fds && STDOUT in fds
      modifies this
      ensures fds == old(fds)
      ensures |children| == |commands|
      ensures forall i :: 0 <= i < |commands| ==>
        children[i] == Wired(old(fds), commands, i) && StartsRight(old(fds), commands, i, children[i])
    {
      hide StartsRight;
      ghost var base := fds;
      children := [];
      var infd: int, outfd: int, prev: int := -1, -1, -1;
      for i := 0 to |commands|
        invariant |children| == i
        invariant forall j :: 0 <= j < i ==>
          children[j] == Wired(base, commands, j) && StartsRight(base, commands, j, children[j])
        invariant i < |commands| ==> EndsAre(base, prev, -1, -1, false, i)
        invariant fds == if i < |commands| then WithEnds(base, prev, -1, -1, false, i) else base
      {
        var notLast := i < |commands| - 1;
        if notLast {
          infd, outfd := Pipe(i);
        }
        var child := Execute(commands, i, prev, infd, outfd, notLast, base);
        children := children + [child];
        if prev != -1 {
          Close(prev);
        }
        if notLast {
          Close(outfd);
          prev := infd;
        }
      }
    }
  }

  /** Only redirections make a child's streams files. */
  lemma FilesAreRedirections(base: Fds, commands: seq<Command>, i: nat, child: Fds, fd: nat)
    requires Proper(base) && i < |commands| && StartsRight(base, commands, i, child)
    ensures fd in child ==> (child[fd].Source? <==> fd == STDIN && commands[i].input != "")
    ensures fd in child ==> (child[fd].Sink? <==> fd == STDOUT && commands[i].output != "")
  {
  }

  /**
    Which children hold a pipe end when they start: the write end of pipe `j` only command `j`, as
    its standard output, the read end only the next one, as its standard input, and neither if that
    side is redirected. So a pipe's reader sees the end of the data as soon as its one writer ends.
   */
  lemma NoStrayEnds(base: Fds, commands: seq<Command>, i: nat, fd: nat, j: nat)
    requires Proper(base) && i < |commands|
    ensures Wired(base, commands, i).Keys == base.Keys
    ensures fd in base ==>
      (Wired(base, commands, i)[fd] == WriteEnd(j) <==>
        fd == STDOUT && i == j && j < |commands| - 1 && commands[i].output == "")
    ensures fd in base ==>
      (Wired(base, commands, i)[fd] == ReadEnd(j) <==>
        fd == STDIN && i == j + 1 && commands[i].input == "")
  {
    if fd in base { assert base[fd].Inherited?; }
  }

  /** What is left of a run: the processes and their tables; the shell's own comes first. */
  ghost predicate Holds(tables: seq<Fds>, k: nat, t: Target) {
    k < |tables| && exists fd :: fd in tables[k] && tables[k][fd] == t
  }

  /** Every pipe has exactly one process at each end that is not redirected, and none at the others. */
  lemma PipesConnectNeighbours(base: Fds, commands: seq<Command>, children: seq<Fds>, j: nat, k: nat)
    requires Proper(base) && |children| == |commands| && j < |commands| - 1
    requires forall i :: 0 <= i < |commands| ==> children[i] == Wired(base, commands, i)
    ensures Holds([base] + children, k, WriteEnd(j)) <==> k == j + 1 && commands[j].output == ""
    ensures Holds([base] + children, k, ReadEnd(j)) <==> k == j + 2 && commands[j + 1].input == ""
  {
    var tables := [base] + children;
    if 0 < k < |tables| {
      assert tables[k] == Wired(base, commands, k - 1);
      NoStrayEnds(base, commands, k - 1, STDIN, j);
      NoStrayEnds(base, commands, k - 1, STDOUT, j);
      forall fd | fd in tables[k] ensures
        (tables[k][fd] == WriteEnd(j) ==> k == j + 1 && commands[j].output == "")
        && (tables[k][fd] == ReadEnd(j) ==> k == j + 2 && commands[j + 1].input == "")
      {
        NoStrayEnds(base, commands, k - 1, fd, j);
      }
    }
  }
}
