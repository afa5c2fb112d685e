/** The descriptor plumbing of execute_pipe_command: one pipe between neighbours, n commands. */
module Pipeline {

  /** What a descriptor refers to: something the shell had open before, or an end of pipe k. */
  datatype File = Inherited(id: int) | ReadEnd(pipe: nat) | WriteEnd(pipe: nat)

  type Fds = map<int, File>

  const STDIN: int := 0
  const STDOUT: int := 1

  function Dup2(fds: Fds, from: int, to: int): Fds
    requires from in fds
  {
    fds[to := fds[from]]
  }

  function CloseIfOpen(fds: Fds, fd: int): Fds {
    if fd != -1 then fds - {fd} else fds
  }

  /** The child's part of the loop body, from fork to exec. */
  function ChildFds(fds: Fds, i: nat, n: nat, prev: int, r: int, w: int): Fds
    requires i > 0 ==> prev in fds
    requires i < n - 1 ==> w in fds
  {
    var in0 := if i > 0 then Dup2(fds, prev, STDIN) else fds;
    var out1 := if i < n - 1 then Dup2(in0, w, STDOUT) else in0;
    CloseIfOpen(CloseIfOpen(CloseIfOpen(out1, prev), r), w)
  }

  /** What command i should run with: its input from pipe i-1, its output to pipe i, nothing else new. */
  function Wired(base: Fds, i: nat, n: nat): Fds {
    var in0 := if i > 0 then base[STDIN := ReadEnd(i - 1)] else base;
    if i < n - 1 then in0[STDOUT := WriteEnd(i)] else in0
  }

  /** The shell's own table at the top of iteration i: at most one pipe descriptor, the last read end. */
  function Between(base: Fds, i: nat, prev: int): Fds {
    if i > 0 && prev != -1 then base[prev := ReadEnd(i - 1)] else base
  }

  /** The table both processes have after pipe() and fork(). */
  function Forked(base: Fds, i: nat, n: nat, prev: int, r: int, w: int): Fds {
    var t := Between(base, i, prev);
    if i < n - 1 then t[r := ReadEnd(i)][w := WriteEnd(i)] else t
  }

  /** New descriptors, as pipe() hands them out. */
  predicate FreshPair(t: Fds, r: int, w: int) { r >= 0 && w >= 0 && r != w && r !in t && w !in t }

  /** The lowest free descriptor, and then the lowest other one. */
  ghost predicate LowestPair(t: Fds, r: int, w: int) {
    && (forall k :: 0 <= k < r ==> k in t)
    && (forall k :: 0 <= k < w && k != r ==> k in t)
  }

  predicate Opened(base: Fds, i: nat, n: nat, prev: int, r: int, w: int) {
    && (if i > 0 then prev >= 0 && prev !in base else prev == -1)
    && (if i < n - 1 then FreshPair(Between(base, i, prev), r, w) else r == -1 && w == -1)
  }

  /** None of the pipes' descriptors takes the place of a standard one that command i is to be given. */
  predicate Clear(i: nat, n: nat, prev: int, r: int, w: int) {
    && (i > 0 ==> STDIN !in {prev, r, w})
    && (i < n - 1 ==> STDOUT !in {prev, r, w})
  }

  /**
   A child, first, last or in between, ends up wired exactly then: what dup2 put on 0 or 1 is
   otherwise closed again.
   */
  lemma WiredExactlyWhen(base: Fds, i: nat, n: nat, prev: int, r: int, w: int)
    requires i < n && Opened(base, i, n, prev, r, w)
    ensures ChildFds(Forked(base, i, n, prev, r, w), i, n, prev, r, w) == Wired(base, i, n)
       <==> Clear(i, n, prev, r, w)
  {
    var child := ChildFds(Forked(base, i, n, prev, r, w), i, n, prev, r, w);
    var wired := Wired(base, i, n);
    if i > 0 && STDIN in {prev, r, w} {
      assert STDIN !in child && STDIN in wired;
    } else if i < n - 1 && STDOUT in {prev, r, w} {
      assert STDOUT !in child && STDOUT in wired;
    }
  }

  /**
   A shell started without standard input, and a pipeline of two: pipe() hands out 0 as the read end,
   so the second command's input is closed right after dup2 put the pipe there.
   */
  lemma ClosedInputSpoils() returns (base: Fds, child: Fds)
    ensures base == map[1 := Inherited(1), 2 := Inherited(2)]
    ensures LowestPair(base, 0, 3) && Opened(base, 0, 2, -1, 0, 3) && Opened(base, 1, 2, 0, -1, -1)
    ensures child == ChildFds(Forked(base, 1, 2, 0, -1, -1), 1, 2, 0, -1, -1)
    ensures STDIN !in child && Wired(base, 1, 2) == base[STDIN := ReadEnd(0)]
  {
    base := map[1 := Inherited(1), 2 := Inherited(2)];
    child := ChildFds(Forked(base, 1, 2, 0, -1, -1), 1, 2, 0, -1, -1);
  }

  /** The shell closes the write end and the read end before; of all pipes it then holds one read end at most. */
  lemma ShellKeepsReadEnd(base: Fds, i: nat, n: nat, prev: int, r: int, w: int)
    requires i < n && Opened(base, i, n, prev, r, w) && -1 !in base
    ensures CloseIfOpen(CloseIfOpen(Forked(base, i, n, prev, r, w), w), prev) == Between(base, i + 1, r)
    ensures NoPipeEnds(base) ==> OnlyPipeEnd(Between(base, i + 1, r), r)
  {
  }

  /** Child i holds file f. */
  predicate Holds(children: seq<Fds>, i: nat, f: File) {
    i < |children| && exists fd :: fd in children[i] && children[i][fd] == f
  }

  predicate NoPipeEnds(base: Fds) { forall fd :: fd in base ==> base[fd].Inherited? }

  /** No descriptor but this one refers to a pipe. */
  predicate OnlyPipeEnd(t: Fds, only: int) { forall fd :: fd in t && !t[fd].Inherited? ==> fd == only }

  predicate AllWired(base: Fds, children: seq<Fds>) {
    forall i :: 0 <= i < |children| ==> children[i] == Wired(base, i, |children|)
  }

  /** Each pipe is written by exactly one process and read by exactly one, its two neighbours. */
  lemma OneWriterOneReader(base: Fds, children: seq<Fds>, k: nat, i: nat)
    requires NoPipeEnds(base) && AllWired(base, children) && k + 1 < |children|
    ensures Holds(children, i, WriteEnd(k)) <==> i == k
    ensures Holds(children, i, ReadEnd(k)) <==> i == k + 1
    ensures children[k][STDOUT] == WriteEnd(k) && children[k + 1][STDIN] == ReadEnd(k)
  {
    assert children[k] == Wired(base, k, |children|) && children[k + 1] == Wired(base, k + 1, |children|);
    assert STDOUT in children[k] && STDIN in children[k + 1];
    if i < |children| { assert children[i] == Wired(base, i, |children|); }
  }

  /** A wired command keeps every other descriptor of the shell, the first its input and the last its output. */
  lemma RestIsInherited(base: Fds, children: seq<Fds>, i: nat, fd: int)
    requires AllWired(base, children) && i < |children|
    requires !(fd == 0 && i > 0) && !(fd == 1 && i < |children| - 1)
    ensures fd in children[i] <==> fd in base
    ensures fd in base ==> children[i][fd] == base[fd]
  {
    assert children[i] == Wired(base, i, |children|);
  }

  class Shell {
    var fds: Fds

    constructor (base: Fds)
      ensures fds == base
    {
      fds := base;
    }

    /** The lowest descriptor that is not open, which is what the system hands out. */
    method LowestFree() returns (fd: int)
      ensures fd >= 0 && fd !in fds && forall k :: 0 <= k < fd ==> k in fds
    {
      fd := 0;
      ghost var above := fds.Keys;
      while fd in fds
        invariant fd >= 0 && forall k :: 0 <= k < fd ==> k in fds
        invariant forall k :: k in fds && k >= fd ==> k in above
        decreases above
      {
        above := above - {fd};
        fd := fd + 1;
      }
    }

    /** pipe(), for pipe number i: the two lowest descriptors that are free. */
    method Pipe(i: nat) returns (r: int, w: int)
      modifies this
      ensures FreshPair(old(fds), r, w) && fds == old(fds)[r := ReadEnd(i)][w := WriteEnd(i)]
      ensures LowestPair(old(fds), r, w)
    {
      r := LowestFree();
      fds := fds[r := ReadEnd(i)];
      w := LowestFree();
      forall k | 0 <= k < w && k != r ensures k in old(fds) { assert k in fds; }
      fds := fds[w := WriteEnd(i)];
    }

    /** One pass of the loop: child is the table command i executes with, next the read end kept open. */
    method StartCommand(ghost base: Fds, i: nat, n: nat, prev: int)
      returns (child: Fds, next: int, ghost r: int, ghost w: int)
      requires i < n && fds == Between(base, i, prev) && -1 !in base
      requires if i > 0 then prev >= 0 && prev !in base else prev == -1
      modifies this
      ensures Opened(base, i, n, prev, r, w) && next == r
      ensures i < n - 1 ==> LowestPair(Between(base, i, prev), r, w)
      ensures child == Wired(base, i, n) <==> Clear(i, n, prev, r, w)
      ensures child == ChildFds(Forked(base, i, n, prev, r, w), i, n, prev, r, w)
      ensures fds == Between(base, i + 1, next)
      ensures NoPipeEnds(base) ==> OnlyPipeEnd(fds, next)
    {
      var pipe0, pipe1 := -1, -1;
      if i < n - 1 {
        pipe0, pipe1 := Pipe(i);
      }
      r, w := pipe0, pipe1;
      WiredExactlyWhen(base, i, n, prev, pipe0, pipe1);
      child := ChildFds(fds, i, n, prev, pipe0, pipe1);
      ShellKeepsReadEnd(base, i, n, prev, pipe0, pipe1);
      fds := CloseIfOpen(fds, pipe1);
      fds := CloseIfOpen(fds, prev);
      next := pipe0;
    }

    /**
     execute_pipe_command for n commands; children[i] is the table command i executes with. They are
     all wired exactly if there is no pipe or the shell was started with descriptors 0 and 1 open.
     */
    method ExecutePipeCommand(n: nat) returns (children: seq<Fds>)
      requires -1 !in fds
      modifies this
      ensures fds == old(fds) && |children| == n
      ensures AllWired(old(fds), children) <==> n <= 1 || {STDIN, STDOUT} <= old(fds).Keys
    {
      ghost var base := fds;
      var prevReadFd := -1;
      children := [];
      for i := 0 to n
        invariant |children| == i
        invariant fds == Between(base, i, prevReadFd)
        invariant if 0 < i < n then prevReadFd >= 0 && prevReadFd !in base else prevReadFd == -1
        invariant n <= 1 || {STDIN, STDOUT} <= base.Keys ==> forall k :: 0 <= k < i ==> children[k] == Wired(base, k, n)
        invariant Spoils(base, n, i, prevReadFd, children)
      {
        var child, next, r, w := StartCommand(base, i, n, prevReadFd);
        children := children + [child];
        prevReadFd := next;
      }
      if n >= 2 && STDOUT !in base {
        assert STDOUT in Wired(base, 0, n);
      } else if n >= 2 && STDIN !in base {
        assert STDIN in Wired(base, 1, n);
      }
    }
  }

  /**
   With 1 closed the first pipe takes it and the first child has no output; with only 0 closed the
   first pipe's read end takes it and the second child has no input.
   */
  ghost predicate Spoils(base: Fds, n: nat, i: nat, prev: int, children: seq<Fds>)
    requires |children| == i
  {
    && (n >= 2 && STDOUT !in base && i > 0 ==> STDOUT !in children[0])
    && (n >= 2 && STDIN !in base && STDOUT in base ==>
          (i == 1 ==> prev == STDIN) && (i > 1 ==> STDIN !in children[1]))
  }
}
