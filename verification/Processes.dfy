/** Descriptor tables, pipes and child processes, as pipe2(2), fork(2), close(2) and waitpid(2)
    change them. Descriptors and process ids are never handed out twice. */
module Processes {

  /** What a descriptor refers to. */
  datatype Obj = PipeIn(id: nat) | PipeOut(id: nat) | Output | Other

  datatype Entry = Entry(obj: Obj, cloexec: bool)

  type Table = map<nat, Entry>

  datatype Proc = Proc(cmd: string, fds: Table)

  /** This process's table, its children that have not been waited for, those that were killed,
      the log of waitpid() and of close() on descriptors that were not open, and the descriptor
      that open_devnull() keeps (or -1). */
  datatype Sys = Sys(table: Table, children: map<nat, Proc>, killed: set<nat>, reaped: seq<nat>, badCloses: nat,
                     nullFd: int, nextFd: nat, nextPipe: nat, nextPid: nat)

  /** What survives exec(). */
  function Inherited(t: Table): Table {
    map f | f in t && !t[f].cloexec :: t[f]
  }

  /** pipe2(pipefd, O_CLOEXEC): the read end is descriptor nextFd, the write end the next one. */
  function Pipe(s: Sys): Sys {
    s.(table := s.table[s.nextFd := Entry(PipeIn(s.nextPipe), true)][s.nextFd + 1 := Entry(PipeOut(s.nextPipe), true)],
       nextFd := s.nextFd + 2, nextPipe := s.nextPipe + 1)
  }

  /** fork(), then dup2(infd, 0), dup2(outfd, 1) and exec() in the child. */
  function Spawn(s: Sys, cmd: string, infd: nat, outfd: nat): Sys
    requires infd in s.table && outfd in s.table
  {
    var fds := Inherited(s.table)[0 := Entry(s.table[infd].obj, false)][1 := Entry(s.table[outfd].obj, false)];
    s.(children := s.children[s.nextPid := Proc(cmd, fds)], nextPid := s.nextPid + 1)
  }

  function Close(s: Sys, fd: nat): Sys {
    if fd in s.table then s.(table := s.table - {fd}) else s.(badCloses := s.badCloses + 1)
  }

  /** open() of an output, close-on-exec. */
  function OpenFile(s: Sys): Sys {
    s.(table := s.table[s.nextFd := Entry(Output, true)], nextFd := s.nextFd + 1)
  }

  /** open_devnull() on its first call: a descriptor that is kept, and not close-on-exec. */
  function KeepNull(s: Sys): Sys {
    s.(table := s.table[s.nextFd := Entry(Other, false)], nextFd := s.nextFd + 1, nullFd := s.nextFd)
  }

  /** dup() of the descriptor that is kept. */
  function DupNull(s: Sys): Sys {
    s.(table := s.table[s.nextFd := Entry(Other, false)], nextFd := s.nextFd + 1)
  }

  // ---------- which calls fail ----------

  /** Whether the next call that needs resources fails, and what is left for the calls after it. */
  predicate Next(faults: seq<bool>) {
    faults != [] && faults[0]
  }

  function Later(faults: seq<bool>): seq<bool> {
    if faults == [] then [] else faults[1..]
  }

  /** open_devnull(): the system, the descriptor or -1, and the faults that are left. */
  function NullDevice(s: Sys, faults: seq<bool>): (Sys, int, seq<bool>) {
    var none: int := -1;
    if s.nullFd < 0 && Next(faults) then (s, none, Later(faults))
    else
      var (kept, rest) := if s.nullFd < 0 then (KeepNull(s), Later(faults)) else (s, faults);
      var fd: int := kept.nextFd;
      if Next(rest) then (kept, none, Later(rest)) else (DupNull(kept), fd, Later(rest))
  }

  function Kill(s: Sys, pid: nat): Sys {
    s.(killed := s.killed + {pid})
  }

  function Reap(s: Sys, pid: nat): Sys {
    s.(children := s.children - {pid}, reaped := s.reaped + [pid])
  }

  predicate TableHolds(t: Table, o: Obj) {
    exists f :: f in t && t[f].obj == o
  }

  /** No descriptor anywhere is the write end of this pipe. */
  predicate NoWriter(s: Sys, pipe: nat) {
    && !TableHolds(s.table, PipeOut(pipe))
    && forall p :: p in s.children ==> !TableHolds(s.children[p].fds, PipeOut(pipe))
  }

  /** waitpid() comes back: the child was killed, or reads a pipe whose end it has reached. */
  predicate Finishes(s: Sys, pid: nat) {
    && pid in s.children
    && (pid in s.killed ||
        (0 in s.children[pid].fds && s.children[pid].fds[0].obj.PipeIn? && NoWriter(s, s.children[pid].fds[0].obj.id)))
  }

  predicate PipesBelow(t: Table, n: nat) {
    forall f :: f in t ==> (t[f].obj.PipeIn? || t[f].obj.PipeOut? ==> t[f].obj.id < n)
  }

  /** Numbers are handed out in order, and every pipe descriptor of this process is
      close-on-exec. */
  ghost predicate ValidSys(s: Sys) {
    && (forall f :: f in s.table ==> f < s.nextFd)
    && (forall f :: f in s.table ==> (s.table[f].obj.PipeIn? || s.table[f].obj.PipeOut? ==> s.table[f].cloexec))
    && PipesBelow(s.table, s.nextPipe)
    && (forall p :: p in s.children ==> p < s.nextPid && PipesBelow(s.children[p].fds, s.nextPipe))
    && (forall p :: p in s.killed ==> p < s.nextPid)
  }

  class Machine {
    var sys: Sys
    /** Whether the next calls that need resources fail. */
    var faults: seq<bool>

    constructor (sys: Sys, faults: seq<bool>)
      ensures this.sys == sys && this.faults == faults
    {
      this.sys, this.faults := sys, faults;
    }

    method Fault() returns (f: bool)
      modifies this`faults
      ensures f == Next(old(faults)) && faults == Later(old(faults))
    {
      f := false;
      if faults != [] {
        f, faults := faults[0], faults[1..];
      }
    }

    method PipeCall() returns (ok: bool, infd: nat, outfd: nat)
      modifies this
      ensures ok == !Next(old(faults)) && faults == Later(old(faults))
      ensures ok ==> sys == Pipe(old(sys)) && infd == old(sys).nextFd && outfd == infd + 1
      ensures !ok ==> sys == old(sys)
    {
      var f := Fault();
      ok, infd, outfd := !f, sys.nextFd, sys.nextFd + 1;
      if ok {
        sys := Pipe(sys);
      }
    }

    method MallocCall() returns (ok: bool)
      modifies this`faults
      ensures ok == !Next(old(faults)) && faults == Later(old(faults))
    {
      var f := Fault();
      ok := !f;
    }

    /** spawn_proc(): -1 when fork() fails. */
    method SpawnCall(cmd: string, infd: nat, outfd: nat) returns (pid: int)
      requires infd in sys.table && outfd in sys.table
      modifies this
      ensures (pid >= 0) == !Next(old(faults)) && faults == Later(old(faults))
      ensures pid >= 0 ==> pid == old(sys).nextPid && sys == Spawn(old(sys), cmd, infd, outfd)
      ensures pid < 0 ==> sys == old(sys)
    {
      var f := Fault();
      if f {
        return -1;
      }
      pid := sys.nextPid;
      sys := Spawn(sys, cmd, infd, outfd);
    }

    method OpenCall() returns (fd: nat)
      modifies this`sys
      ensures sys == OpenFile(old(sys)) && fd == old(sys).nextFd
    {
      fd := sys.nextFd;
      sys := OpenFile(sys);
    }

    method CloseCall(fd: nat)
      modifies this`sys
      ensures sys == Close(old(sys), fd)
    {
      sys := Close(sys, fd);
    }

    /** open_devnull() */
    method OpenDevNull() returns (fd: int)
      modifies this
      ensures (sys, fd, faults) == NullDevice(old(sys), old(faults))
    {
      if sys.nullFd < 0 {
        var f := Fault();
        if f {
          return -1;
        }
        sys := KeepNull(sys);
      }
      var f := Fault();
      if f {
        return -1;
      }
      fd := sys.nextFd;
      sys := DupNull(sys);
    }

    method KillCall(pid: nat)
      modifies this`sys
      ensures sys == Kill(old(sys), pid)
    {
      sys := Kill(sys, pid);
    }

    /** waitpid(); callers have to show that it comes back. */
    method WaitCall(pid: nat)
      requires Finishes(sys, pid)
      modifies this`sys
      ensures sys == Reap(old(sys), pid)
    {
      sys := Reap(sys, pid);
    }
  }
}
