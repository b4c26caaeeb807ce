// Descriptor wiring of run_process in Channels/Bash_with_pipe/main.c: every
// process has its own descriptor table and fork copies the parent's.
module PipeWiring {

  datatype File = Outside(id: int) | ReadEnd(pipe: nat) | WriteEnd(pipe: nat)
  type Table = map<nat, File>

  const STDIN := 0
  const STDOUT := 1

  // The shell's own table: standard input and output are open, no pipe is.
  predicate ShellTable(t: Table) {
    STDIN in t && STDOUT in t && forall fd :: fd in t ==> t[fd].Outside?
  }

  // The descriptors the kernel chose for the pipes, read end first: unused and
  // all different.
  predicate FreshPairs(t: Table, fds: seq<(nat, nat)>) {
    (forall i :: 0 <= i < |fds| ==> fds[i].0 !in t && fds[i].1 !in t && fds[i].0 != fds[i].1) &&
    (forall i, j :: 0 <= i < j < |fds| ==>
       fds[i].0 != fds[j].0 && fds[i].0 != fds[j].1 && fds[i].1 != fds[j].0 && fds[i].1 != fds[j].1)
  }

  predicate Holds(t: Table, fd: nat, f: File) {
    fd in t && t[fd] == f
  }

  // What stage i of n should run with: only its two neighbours' pipe ends.
  function StageTable(shell: Table, n: nat, i: nat): Table
    requires STDIN in shell && STDOUT in shell && i < n
  {
    shell[STDIN := if i > 0 then ReadEnd(i - 1) else shell[STDIN]]
         [STDOUT := if i < n - 1 then WriteEnd(i) else shell[STDOUT]]
  }

  // The descriptors of the first n pipes, and the shell's table with them open.
  function PairSet(fds: seq<(nat, nat)>, n: nat): set<nat>
    requires n <= |fds|
  {
    if n == 0 then {} else PairSet(fds, n - 1) + {fds[n - 1].0, fds[n - 1].1}
  }

  function Opened(shell: Table, fds: seq<(nat, nat)>, n: nat): Table
    requires n <= |fds|
  {
    if n == 0 then shell
    else Opened(shell, fds, n - 1)[fds[n - 1].0 := ReadEnd(n - 1)][fds[n - 1].1 := WriteEnd(n - 1)]
  }

  lemma {:induction false} PairSetFresh(shell: Table, fds: seq<(nat, nat)>, n: nat)
    requires FreshPairs(shell, fds) && n <= |fds|
    ensures PairSet(fds, n) !! shell.Keys
    ensures n < |fds| ==> fds[n].0 !in PairSet(fds, n) && fds[n].1 !in PairSet(fds, n)
    decreases n
  {
    if n > 0 {
      PairSetFresh(shell, fds, n - 1);
      if n < |fds| {
        PairSetApart(fds, n - 1, n);
      }
    }
  }

  lemma {:induction false} PairSetApart(fds: seq<(nat, nat)>, m: nat, n: nat)
    requires FreshPairs(map[], fds) && m < n < |fds|
    ensures fds[n].0 !in PairSet(fds, m) && fds[n].1 !in PairSet(fds, m)
  {
    if m > 0 {
      PairSetApart(fds, m - 1, n);
    }
  }

  // Every opened pipe is found under its own descriptors.
  lemma {:induction false} OpenedAt(shell: Table, fds: seq<(nat, nat)>, n: nat, i: nat)
    requires FreshPairs(shell, fds) && i < n <= |fds|
    ensures Holds(Opened(shell, fds, n), fds[i].0, ReadEnd(i))
    ensures Holds(Opened(shell, fds, n), fds[i].1, WriteEnd(i))
    decreases n
  {
    if i < n - 1 {
      OpenedAt(shell, fds, n - 1, i);
    }
  }

  // Closing every pipe end leaves the shell's table.
  lemma {:induction false} ClosedIsShell(shell: Table, fds: seq<(nat, nat)>, n: nat)
    requires FreshPairs(shell, fds) && n <= |fds|
    ensures Opened(shell, fds, n) - PairSet(fds, n) == shell
    decreases n
  {
    if n == 0 {
      assert shell - {} == shell;
    } else {
      ClosedIsShell(shell, fds, n - 1);
      PairSetFresh(shell, fds, n);
      SetTwo(Opened(shell, fds, n - 1), fds[n - 1].0, ReadEnd(n - 1), fds[n - 1].1, WriteEnd(n - 1),
             PairSet(fds, n - 1));
      assert shell - {fds[n - 1].0, fds[n - 1].1} == shell;
    }
  }

  lemma SetTwo(t: Table, a: nat, f: File, b: nat, g: File, gone: set<nat>)
    ensures t[a := f][b := g] - (gone + {a, b}) == (t - gone) - {a, b}
  {
  }

  lemma SetKept(t: Table, a: nat, f: File, gone: set<nat>)
    requires a !in gone
    ensures t[a := f] - gone == (t - gone)[a := f]
  {
  }

  // close_Chanalles
  method CloseAll(t: Table, fds: seq<(nat, nat)>) returns (r: Table)
    ensures r == t - PairSet(fds, |fds|)
  {
    r := t;
    assert t - {} == t;
    for i := 0 to |fds|
      invariant r == t - PairSet(fds, i)
    {
      r := r - {fds[i].0};
      r := r - {fds[i].1};
      assert PairSet(fds, i + 1) == PairSet(fds, i) + {fds[i].0} + {fds[i].1};
    }
  }

  method OpenPipes(shell: Table, fds: seq<(nat, nat)>) returns (t: Table)
    ensures t == Opened(shell, fds, |fds|)
  {
    t := shell;
    for i := 0 to |fds|
      invariant t == Opened(shell, fds, i)
    {
      t := t[fds[i].0 := ReadEnd(i)];
      t := t[fds[i].1 := WriteEnd(i)];
    }
  }

  // The child of the i-th fork, up to execvp.
  method Child(parent: Table, ghost shell: Table, fds: seq<(nat, nat)>, i: nat) returns (t: Table)
    requires ShellTable(shell) && FreshPairs(shell, fds) && parent == Opened(shell, fds, |fds|) && i <= |fds|
    ensures t == StageTable(shell, |fds| + 1, i)
  {
    t := parent;
    ghost var gone := PairSet(fds, |fds|);
    PairSetFresh(shell, fds, |fds|);
    ClosedIsShell(shell, fds, |fds|);
    if i > 0 {
      OpenedAt(shell, fds, |fds|, i - 1);
      t := t[STDIN := t[fds[i - 1].0]];
      SetKept(parent, STDIN, ReadEnd(i - 1), gone);
    }
    if i < |fds| {
      OpenedAt(shell, fds, |fds|, i);
      SetKept(t, STDOUT, WriteEnd(i), gone);
      t := t[STDOUT := t[fds[i].1]];
    }
    t := CloseAll(t, fds);
  }

  // run_process: the parent's table afterwards and the table of every stage.
  method RunProcess(shell: Table, fds: seq<(nat, nat)>) returns (parent: Table, stages: seq<Table>)
    requires ShellTable(shell) && FreshPairs(shell, fds)
    ensures parent == shell
    ensures |stages| == |fds| + 1
    ensures forall i: nat :: i < |stages| ==> stages[i] == StageTable(shell, |stages|, i)
    ensures forall i: nat :: i < |stages| ==> STDIN in stages[i] && STDOUT in stages[i]
    ensures stages[0][STDIN] == shell[STDIN] && stages[|fds|][STDOUT] == shell[STDOUT]
    ensures forall i: nat :: i < |fds| ==>
              stages[i][STDOUT] == WriteEnd(i) && stages[i + 1][STDIN] == ReadEnd(i)
    ensures forall i: nat, fd: nat :: i < |stages| && fd > 1 ==>
              (fd in stages[i] <==> fd in shell) && (fd in shell ==> stages[i][fd] == shell[fd])
  {
    var open := OpenPipes(shell, fds);
    stages := [];
    for i := 0 to |fds| + 1
      invariant |stages| == i
      invariant forall k: nat :: k < i ==> stages[k] == StageTable(shell, |fds| + 1, k)
    {
      var child := Child(open, shell, fds, i);
      stages := stages + [child];
    }
    parent := CloseAll(open, fds);
    ClosedIsShell(shell, fds, |fds|);
  }

  // ----- what the wiring is for

  // Pipe j is written by nobody but stage j's standard output and read by nobody
  // but stage j+1's standard input.
  lemma OneWriterOneReader(shell: Table, n: nat, i: nat, fd: nat, j: nat)
    requires ShellTable(shell) && i < n
    ensures Holds(StageTable(shell, n, i), fd, WriteEnd(j)) <==> i == j && j < n - 1 && fd == STDOUT
    ensures Holds(StageTable(shell, n, i), fd, ReadEnd(j)) <==> i == j + 1 && fd == STDIN
    ensures !Holds(shell, fd, WriteEnd(j)) && !Holds(shell, fd, ReadEnd(j))
  {
  }

  // A process that still holds the write end keeps end-of-file from its reader.
  ghost predicate WriterLeft(shell: Table, n: nat, exited: set<nat>, j: nat)
    requires ShellTable(shell)
  {
    (exists fd: nat :: Holds(shell, fd, WriteEnd(j))) ||
    (exists i: nat, fd: nat :: i < n && i !in exited && Holds(StageTable(shell, n, i), fd, WriteEnd(j)))
  }

  // The reader of pipe j sees end-of-file exactly when stage j has exited,
  // whatever the other stages do.
  lemma EndOfFilePropagates(shell: Table, n: nat, exited: set<nat>, j: nat)
    requires ShellTable(shell) && j + 1 < n
    ensures WriterLeft(shell, n, exited, j) <==> j !in exited
  {
    OneWriterOneReader(shell, n, j, STDOUT, j);
    if j !in exited {
      assert Holds(StageTable(shell, n, j), STDOUT, WriteEnd(j));
    } else {
      forall i: nat, fd: nat | i < n && i !in exited
        ensures !Holds(StageTable(shell, n, i), fd, WriteEnd(j))
      {
        OneWriterOneReader(shell, n, i, fd, j);
      }
    }
  }
}
