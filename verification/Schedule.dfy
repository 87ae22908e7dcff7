/** What numbered pipes are for, stated without any table: `cmd |N` feeds the N-th later command
    of the same client. Both implementations in the repository (the countdown table of project2
    and the shifting list of project1) are proved to refine this reference. */
module Schedule {
  import opened Descriptors

  /** One command line as the pipe scheduler sees it. `runs` is false for a line that never reaches
      the stage loop (a builtin, or a line rejected because of a user pipe). */
  datatype Cmd = Cmd(fd: nat, suffix: Option<nat>, runs: bool, stages: nat) {
    predicate Valid() {
      stages >= 1 && (suffix.Some? ==> suffix.value >= 1)
    }
  }

  /** `done` counts the commands a client has run; `due` maps (client, index of a command) to the
      pipe which that command reads. Entries are never removed. */
  datatype Sched = Sched(clock: nat, done: map<nat, nat>, due: map<(nat, nat), Pipe>) {
    function Done(fd: nat): nat {
      if fd in done then done[fd] else 0
    }

    function Key(cmd: Cmd): (nat, nat)
      requires cmd.suffix.Some?
    {
      (cmd.fd, Done(cmd.fd) + cmd.suffix.value)
    }

    function Step(cmd: Cmd): Sched
      requires cmd.Valid()
    {
      if !cmd.runs then this.(clock := clock + 1) else
        Sched(clock + 1,
              done[cmd.fd := Done(cmd.fd) + 1],
              if cmd.suffix.Some? && Key(cmd) !in due
              then due[Key(cmd) := Pipe(clock, cmd.stages - 1)] else due)
    }

    /** The pipe this command reads at its first stage. */
    function Reads(cmd: Cmd): Option<Pipe> {
      var key := (cmd.fd, Done(cmd.fd));
      if cmd.runs && key in due then Some(due[key]) else None
    }

    /** The pipe this command's last stage writes because of its suffix. */
    function Writes(cmd: Cmd): Option<Pipe>
      requires cmd.Valid()
    {
      if !cmd.runs || cmd.suffix.None? then None
      else if Key(cmd) in due then Some(due[Key(cmd)])
      else Some(Pipe(clock, cmd.stages - 1))
    }

    /** Every pipe is older than the clock, and no pipe is due twice. */
    ghost predicate Inv() {
      && (forall k <- due :: due[k].line < clock)
      && (forall k <- due, l <- due :: due[k] == due[l] ==> k == l)
    }
  }

  const EMPTY := Sched(0, map[], map[])

  ghost predicate ValidRun(cmds: seq<Cmd>) {
    forall i | 0 <= i < |cmds| :: cmds[i].Valid()
  }

  /** The reference state after the first n commands. */
  ghost function After(cmds: seq<Cmd>, n: nat): Sched
    requires ValidRun(cmds) && n <= |cmds|
  {
    if n == 0 then EMPTY else After(cmds, n - 1).Step(cmds[n - 1])
  }

  /** How many commands client fd ran among the first n lines. */
  function Index(cmds: seq<Cmd>, fd: nat, n: nat): nat
    requires n <= |cmds|
  {
    if n == 0 then 0
    else Index(cmds, fd, n - 1) + if cmds[n - 1].fd == fd && cmds[n - 1].runs then 1 else 0
  }

  lemma {:induction false} IndexMonotone(cmds: seq<Cmd>, fd: nat, m: nat, n: nat)
    requires m <= n <= |cmds|
    ensures Index(cmds, fd, m) <= Index(cmds, fd, n)
    ensures m < n && cmds[m].fd == fd && cmds[m].runs ==> Index(cmds, fd, m) < Index(cmds, fd, n)
  {
    if m < n { IndexMonotone(cmds, fd, m, n - 1); }
  }

  lemma {:induction false} AfterInv(cmds: seq<Cmd>, n: nat)
    requires ValidRun(cmds) && n <= |cmds|
    ensures After(cmds, n).Inv() && After(cmds, n).clock == n
    ensures forall fd :: After(cmds, n).Done(fd) == Index(cmds, fd, n)
  {
    if n > 0 { AfterInv(cmds, n - 1); }
  }

  /** An entry of the schedule, once made, never changes. */
  lemma {:induction false} DueGrows(cmds: seq<Cmd>, m: nat, n: nat)
    requires ValidRun(cmds) && m <= n <= |cmds|
    ensures forall k <- After(cmds, m).due ::
              k in After(cmds, n).due && After(cmds, n).due[k] == After(cmds, m).due[k]
  {
    if m < n { DueGrows(cmds, m, n - 1); }
  }

  /** The pipe line i writes is the one filed under its target, for ever after. */
  lemma WritesFiled(cmds: seq<Cmd>, i: nat)
    requires ValidRun(cmds) && i < |cmds| && cmds[i].runs && cmds[i].suffix.Some?
    ensures var key := (cmds[i].fd, Index(cmds, cmds[i].fd, i) + cmds[i].suffix.value);
            && key in After(cmds, i + 1).due
            && After(cmds, i).Writes(cmds[i]) == Some(After(cmds, i + 1).due[key])
            && key in After(cmds, |cmds|).due
            && After(cmds, |cmds|).due[key] == After(cmds, i + 1).due[key]
  {
    AfterInv(cmds, i);
    DueGrows(cmds, i + 1, |cmds|);
  }

  /** Exact delivery over a whole run with interleaved clients: line j reads what line i wrote
      exactly when both belong to the same client and j is that client's N-th later command. */
  lemma ExactDelivery(cmds: seq<Cmd>, i: nat, j: nat)
    requires ValidRun(cmds) && i < |cmds| && j < |cmds|
    requires cmds[i].runs && cmds[i].suffix.Some? && cmds[j].runs
    ensures After(cmds, j).Reads(cmds[j]) == After(cmds, i).Writes(cmds[i]) <==>
            && cmds[i].fd == cmds[j].fd
            && Index(cmds, cmds[j].fd, j) == Index(cmds, cmds[i].fd, i) + cmds[i].suffix.value
  {
    var fd := cmds[i].fd;
    var key := (fd, Index(cmds, fd, i) + cmds[i].suffix.value);
    AfterInv(cmds, j);
    AfterInv(cmds, |cmds|);
    WritesFiled(cmds, i);
    DueGrows(cmds, j, |cmds|);
    if cmds[j].fd == fd && Index(cmds, fd, j) == key.1 {
      if j <= i {
        IndexMonotone(cmds, fd, j, i);
        assert false;
      } else {
        DueGrows(cmds, i + 1, j);
      }
    }
  }

  /** Whatever a command reads was written, earlier, by a command of the same client. */
  lemma ReadHasWriter(cmds: seq<Cmd>, j: nat) returns (i: nat)
    requires ValidRun(cmds) && j < |cmds| && After(cmds, j).Reads(cmds[j]).Some?
    ensures i < j && cmds[i].runs && cmds[i].suffix.Some? && cmds[i].fd == cmds[j].fd
    ensures After(cmds, i).Writes(cmds[i]) == After(cmds, j).Reads(cmds[j])
  {
    var key := (cmds[j].fd, After(cmds, j).Done(cmds[j].fd));
    i := FirstFiled(cmds, j, key);
    WritesFiled(cmds, i);
    DueGrows(cmds, i + 1, j);
    AfterInv(cmds, i);
  }

  lemma {:induction false} FirstFiled(cmds: seq<Cmd>, n: nat, key: (nat, nat)) returns (i: nat)
    requires ValidRun(cmds) && n <= |cmds| && key in After(cmds, n).due
    ensures i < n && cmds[i].runs && cmds[i].suffix.Some?
    ensures cmds[i].fd == key.0 && Index(cmds, key.0, i) + cmds[i].suffix.value == key.1
  {
    if key in After(cmds, n - 1).due {
      i := FirstFiled(cmds, n - 1, key);
    } else {
      i := n - 1;
      AfterInv(cmds, i);
    }
  }

  /** A pipe that is due was made by the line it is named after, the first to name that target. */
  lemma {:induction false} DueOrigin(cmds: seq<Cmd>, n: nat, key: (nat, nat))
    requires ValidRun(cmds) && n <= |cmds| && key in After(cmds, n).due
    ensures var p := After(cmds, n).due[key];
            && p.line < n && cmds[p.line].runs && cmds[p.line].suffix.Some?
            && p == Pipe(p.line, cmds[p.line].stages - 1)
            && After(cmds, p.line).Key(cmds[p.line]) == key && key !in After(cmds, p.line).due
  {
    AfterInv(cmds, n - 1);
    if key in After(cmds, n - 1).due { DueOrigin(cmds, n - 1, key); }
  }

  /** Command j reads a pipe made before line a exactly when that pipe was already due after a lines. */
  lemma EarlierIff(cmds: seq<Cmd>, a: nat, j: nat)
    requires ValidRun(cmds) && a <= j < |cmds| && cmds[j].runs
    ensures var r := After(cmds, j).Reads(cmds[j]);
            r.Some? && r.value.line < a <==> (cmds[j].fd, Index(cmds, cmds[j].fd, j)) in After(cmds, a).due
  {
    var key := (cmds[j].fd, Index(cmds, cmds[j].fd, j));
    AfterInv(cmds, a);
    AfterInv(cmds, j);
    DueGrows(cmds, a, j);
    if key in After(cmds, j).due {
      DueOrigin(cmds, j, key);
      var c := After(cmds, j).due[key].line;
      if c < a {
        AfterInv(cmds, c);
        DueGrows(cmds, c + 1, a);
      }
    }
  }

  /** No pipe is read by two commands. */
  lemma ReadOnce(cmds: seq<Cmd>, i: nat, j: nat)
    requires ValidRun(cmds) && i < j < |cmds|
    requires After(cmds, i).Reads(cmds[i]).Some?
    ensures After(cmds, i).Reads(cmds[i]) != After(cmds, j).Reads(cmds[j])
  {
    AfterInv(cmds, i);
    AfterInv(cmds, j);
    DueGrows(cmds, i, j);
    IndexMonotone(cmds, cmds[i].fd, i, j);
  }
}
