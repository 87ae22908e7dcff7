/** Whole runs of np_single_proc: clients come and go, rename themselves and run command lines, in any
    interleaving the select loop can produce. */
module ServerRuns {
  import opened Descriptors
  import opened CountdownRing
  import opened Pipeline
  import opened ChatServer
  import R = Registry
  import RR = RingRuns

  datatype Event =
    | Login(fd: nat)
    | Logout(fd: nat)
    | Name(fd: nat, cmd: string)
    | Exec(line: Line)

  function Start(): Server {
    Server(RR.Initial(MAX_PIPE_NUM), R.Nobody(), NoPipes(), {}, 0)
  }

  function NoPipes(): Matrix {
    map k | k in Pairs() :: UserPipe(false, Terminal)
  }

  /** What the kernel and the client guarantee: an accepted descriptor is new, input arrives only from
      logged-in clients, and `name` has an operand. What the arrays hold: sixty clients, and user pipes
      for ids up to thirty. */
  ghost predicate Enabled(s: Server, e: Event)
    requires s.Shape()
  {
    match e
    case Login(fd) => fd != 0 && !s.reg.Live(fd) && s.reg.HasRoom(0)
    case Logout(fd) => s.reg.Live(fd) && IsId(s.reg.IdOf(fd))
    case Name(fd, cmd) => s.reg.Live(fd) && |R.Tokens(cmd)| >= 2
    case Exec(l) => s.LiveLine(l)
  }

  function Step(s: Server, e: Event): Server
    requires s.Shape() && Enabled(s, e)
  {
    match e
    case Login(fd) => s.(reg := s.reg.Login(fd))
    case Logout(fd) =>
      s.(reg := s.reg.Logout(fd), up := ClearUser(s.up, s.reg.IdOf(fd)))
    case Name(fd, cmd) =>
      s.(reg := s.reg.Rename(fd, R.Tokens(cmd)[1]))
    case Exec(l) => s.Exec(l)
  }

  ghost predicate IsRun(states: seq<Server>, events: seq<Event>) {
    && |states| == |events| + 1 && states[0] == Start()
    && forall i | 0 <= i < |events| :: IsStep(states[i], events[i], states[i + 1])
  }

  ghost predicate IsStep(s: Server, e: Event, s': Server) {
    s.Shape() && Enabled(s, e) && s' == Step(s, e)
  }

  // --- what every run keeps ---

  /** Ids, names, flags and the age of all descriptors, whatever lines are run. */
  ghost predicate Always(s: Server) {
    s.Sound() && s.reg.NamesDistinct()
  }

  lemma InitialAlways()
    ensures Always(Start()) && Start().Good()
  {
  }

  /** These facts only look at who is logged in, not at names. */
  lemma ClientsKeepSound(s: Server, reg: R.Reg)
    requires s.Sound() && reg.Inv() && forall id :: s.reg.LiveId(id) ==> reg.LiveId(id)
    ensures s.(reg := reg).Sound()
  {
    var s' := s.(reg := reg);
    forall j | 0 <= j < MAX_PIPE_NUM ensures s'.EndsOld(s'.ring.slots[j].ends) {
      assert s.EndsOld(s.ring.slots[j].ends);
    }
    forall a, b ensures s'.FlagOld(a, b) { assert s.FlagOld(a, b); }
  }

  lemma LogoutKeepsAlways(s: Server, fd: nat)
    requires Always(s) && Enabled(s, Logout(fd))
    ensures Always(Step(s, Logout(fd)))
  {
    R.LogoutInv(s.reg, fd);
    var s' := Step(s, Logout(fd));
    assert Full(s'.up);
    forall j | 0 <= j < MAX_PIPE_NUM ensures s'.EndsOld(s'.ring.slots[j].ends) {
      assert s.EndsOld(s.ring.slots[j].ends);
    }
    forall a, b ensures s'.FlagOld(a, b) { assert s.FlagOld(a, b); }
    forall a, b, c, d | Flagged(s'.up, a, b) && Flagged(s'.up, c, d) && (a, b) != (c, d)
      ensures s'.up[(a, b)].fd != s'.up[(c, d)].fd
    {
      assert Flagged(s.up, a, b) && Flagged(s.up, c, d);
    }
  }

  /** Every event keeps them, every command line included. */
  lemma StepKeepsAlways(s: Server, e: Event)
    requires Always(s) && Enabled(s, e)
    ensures Always(Step(s, e))
  {
    match e
    case Login(fd) =>
      R.LoginInv(s.reg, fd);
      ClientsKeepSound(s, s.reg.Login(fd));
    case Logout(fd) => LogoutKeepsAlways(s, fd);
    case Name(fd, cmd) =>
      R.RenameInv(s.reg, fd, cmd);
      ClientsKeepSound(s, s.reg.Rename(fd, R.Tokens(cmd)[1]));
    case Exec(l) => ExecKeepsSound(s, l);
  }

  /** In every reachable state: ids and live descriptors determine each other, two users share a name
      only while both are unnamed, and a set flag joins two logged-in users. */
  lemma {:induction false} RunAlways(states: seq<Server>, events: seq<Event>, n: nat)
    requires IsRun(states, events) && n <= |events|
    ensures Always(states[n])
  {
    if n == 0 {
      InitialAlways();
    } else {
      RunAlways(states, events, n - 1);
      assert IsStep(states[n - 1], events[n - 1], states[n]);
      StepKeepsAlways(states[n - 1], events[n - 1]);
    }
  }

  /** End-of-file safety of any line of any run, as a condition on the line's own input and output. */
  lemma RunChildrenSafeIff(states: seq<Server>, events: seq<Event>, n: nat)
    requires IsRun(states, events) && n < |events| && events[n].Exec?
    ensures states[n].Shape() && states[n].LiveLine(events[n].line)
    ensures var s, l := states[n], events[n].line;
            (forall c <- s.Children(l) :: Safe(c)) <==>
            !s.Runs(l) || GoodEnds(s.PlanOf(l), s.Input(l), s.HeldAtStart(l))
  {
    RunAlways(states, events, n);
    assert IsStep(states[n], events[n], states[n + 1]);
    ChildrenSafeIff(states[n], events[n].line);
  }

  // --- ids ---

  /** In every run, a login gets the lowest free id, and within the matrix that id starts with no user
      pipe in either direction. */
  lemma LoginStartsEmpty(states: seq<Server>, events: seq<Event>, n: nat, other: int)
    requires IsRun(states, events) && n < |events| && events[n].Login?
    ensures states[n + 1].Shape()
    ensures var fd, reg, id := events[n].fd, states[n].reg, states[n + 1].reg.IdOf(events[n].fd);
            && 1 <= id <= R.MAX_USER_NUM && |reg.fds| == R.MAX_USER_NUM
            && states[n + 1].reg.fds[id - 1] == fd && reg.fds[id - 1] == 0
            && (forall j :: 0 <= j < id - 1 ==> reg.fds[j] != 0)
            && !Flagged(states[n + 1].up, id, other) && !Flagged(states[n + 1].up, other, id)
  {
    var s := states[n];
    RunAlways(states, events, n);
    RunAlways(states, events, n + 1);
    assert IsStep(s, events[n], states[n + 1]);
    R.LoginInv(s.reg, events[n].fd);
    var id := states[n + 1].reg.IdOf(events[n].fd);
    assert s.FlagOld(id, other) && s.FlagOld(other, id);
  }

  lemma StepKeepsId(s: Server, e: Event, fd: nat)
    requires Always(s) && Enabled(s, e) && s.reg.Live(fd) && e != Logout(fd)
    ensures Always(Step(s, e)) && Step(s, e).reg.Live(fd) && Step(s, e).reg.IdOf(fd) == s.reg.IdOf(fd)
  {
    StepKeepsAlways(s, e);
    R.FindLive(s.reg, fd);
    var i := s.reg.Find(fd, 0);
    match e
    case Login(other) =>
      R.LoginInv(s.reg, other);
      assert s.reg.Login(other).fds[i] == fd;
      R.FindLive(s.reg.Login(other), fd);
    case Logout(other) =>
      R.LogoutInv(s.reg, other);
    case Name(other, cmd) =>
      R.RenameInv(s.reg, other, cmd);
      R.FindLive(s.reg.Rename(other, R.Tokens(cmd)[1]), fd);
    case Exec(l) =>
  }

  /** What can always happen next: a new descriptor logs in while one of the sixty slots is free; a client leaves,
      renames itself, or runs any line. A client whose id is beyond 30 runs no line with `<` or `>`. */
  lemma AlwaysEnabled(s: Server, fd: nat, cmd: string, l: Line)
    requires s.Shape() && fd != 0
    ensures fd !in s.reg.fds && 0 in s.reg.fds ==> Enabled(s, Login(fd))
    ensures fd in s.reg.fds && s.reg.IdOf(fd) <= 30 ==> Enabled(s, Logout(fd))
    ensures fd in s.reg.fds && |R.Tokens(cmd)| >= 2 ==> Enabled(s, Name(fd, cmd))
    ensures fd in s.reg.fds && l.fd == fd && l.Valid() && (s.reg.IdOf(fd) <= 30 || (l.recv.None? && l.send.None?)) ==>
              Enabled(s, Exec(l))
  {
    if fd in s.reg.fds { R.FindLive(s.reg, fd); }
  }

  /** Over any stretch of a run without its own logout, a user keeps the same id, whatever lines it or
      others run. */
  lemma {:induction false} IdStable(states: seq<Server>, events: seq<Event>, fd: nat, m: nat, n: nat)
    requires IsRun(states, events) && m <= n <= |events| && states[m].reg.Live(fd)
    requires forall i | m <= i < n :: events[i] != Logout(fd)
    ensures Always(states[m]) && Always(states[n])
    ensures states[n].reg.Live(fd) && states[n].reg.IdOf(fd) == states[m].reg.IdOf(fd)
  {
    RunAlways(states, events, m);
    if m < n {
      IdStable(states, events, fd, m, n - 1);
      assert IsStep(states[n - 1], events[n - 1], states[n]);
      StepKeepsId(states[n - 1], events[n - 1], fd);
    }
  }

  // --- names ---

  /** The user on this descriptor has this name. */
  ghost predicate Named(s: Server, fd: nat, name: string) {
    exists i :: 0 <= i < |s.reg.fds| == |s.reg.names| && s.reg.fds[i] == fd && fd != 0 && s.reg.names[i] == name
  }

  /** A logged-in user has exactly one name. */
  lemma OneName(s: Server, fd: nat, name: string)
    requires s.reg.Inv() && s.reg.Live(fd)
    ensures s.reg.Find(fd, 0) != -1 && (Named(s, fd, name) <==> s.reg.names[s.reg.Find(fd, 0)] == name)
  {
    R.FindLive(s.reg, fd);
  }

  /** In every run, `name x` gives the user this name exactly when no other logged-in user has it, and
      otherwise leaves everything as it was. */
  lemma RunRenameIff(states: seq<Server>, events: seq<Event>, n: nat)
    requires IsRun(states, events) && n < |events| && events[n].Name? && |R.Tokens(events[n].cmd)| >= 2
    ensures var fd, name := events[n].fd, R.Tokens(events[n].cmd)[1];
            && (Named(states[n + 1], fd, name) <==>
                Named(states[n], fd, name) || forall other | other != fd :: !Named(states[n], other, name))
            && (!Named(states[n + 1], fd, name) ==> states[n + 1] == states[n])
            && (forall other, x | other != fd :: Named(states[n + 1], other, x) <==> Named(states[n], other, x))
  {
    var s, fd, name := states[n], events[n].fd, R.Tokens(events[n].cmd)[1];
    RunAlways(states, events, n);
    assert IsStep(s, events[n], states[n + 1]);
    R.RenameInv(s.reg, fd, events[n].cmd);
    OneName(s, fd, name);
    OneName(states[n + 1], fd, name);
    forall i | 0 <= i < |s.reg.fds| && s.reg.fds[i] != 0 && s.reg.fds[i] != fd
      ensures s.reg.names[i] == name ==> Named(s, s.reg.fds[i], name)
    {
    }
    forall other, x | other != fd ensures Named(states[n + 1], other, x) <==> Named(s, other, x) {
      R.FindLive(s.reg, fd);
    }
  }

  /** After the only user of a name has left, it is free: another user's rename to it succeeds. */
  lemma FreedName(states: seq<Server>, events: seq<Event>, n: nat, name: string)
    requires IsRun(states, events) && n + 1 < |events| && events[n].Logout? && events[n + 1].Name?
    requires |R.Tokens(events[n + 1].cmd)| >= 2 && R.Tokens(events[n + 1].cmd)[1] == name
    requires forall other | other != events[n].fd :: !Named(states[n], other, name)
    ensures Named(states[n + 2], events[n + 1].fd, name)
  {
    RunAlways(states, events, n);
    assert IsStep(states[n], events[n], states[n + 1]);
    R.LogoutInv(states[n].reg, events[n].fd);
    var s' := states[n + 1];
    forall other ensures !Named(s', other, name) {
      if Named(s', other, name) {
        assert other != events[n].fd && Named(states[n], other, name);
      }
    }
    RunRenameIff(states, events, n + 1);
  }

  lemma StepKeepsName(s: Server, e: Event, fd: nat, name: string)
    requires Always(s) && Enabled(s, e) && s.reg.Live(fd) && e != Logout(fd) && !(e.Name? && e.fd == fd)
    ensures Step(s, e).reg.Live(fd) && (Named(Step(s, e), fd, name) <==> Named(s, fd, name))
  {
    StepKeepsId(s, e, fd);
    StepKeepsAlways(s, e);
    OneName(s, fd, name);
    OneName(Step(s, e), fd, name);
    match e
    case Login(other) => R.LoginInv(s.reg, other);
    case Logout(other) => R.LogoutInv(s.reg, other);
    case Name(other, cmd) =>
      R.RenameInv(s.reg, other, cmd);
      R.FindLive(s.reg, other);
    case Exec(l) =>
  }

  /** Over any stretch of a run in which a user neither leaves nor renames itself, it keeps its name. */
  lemma {:induction false} NameStable(states: seq<Server>, events: seq<Event>, fd: nat, name: string, m: nat, n: nat)
    requires IsRun(states, events) && m <= n <= |events| && states[m].reg.Live(fd)
    requires forall i | m <= i < n :: events[i] != Logout(fd) && !(events[i].Name? && events[i].fd == fd)
    ensures states[n].reg.Live(fd) && (Named(states[n], fd, name) <==> Named(states[m], fd, name))
  {
    if m < n {
      NameStable(states, events, fd, name, m, n - 1);
      RunAlways(states, events, n - 1);
      assert IsStep(states[n - 1], events[n - 1], states[n]);
      StepKeepsName(states[n - 1], events[n - 1], fd, name);
    }
  }

  // --- children ---

  /** The first table entry of the line's client with countdown N+1, where the merge scan looks. */
  ghost predicate WaitsAt(s: Server, l: Line, j: nat) {
    && l.suffix.Some? && j < MAX_PIPE_NUM - 1 < |s.ring.slots|
    && s.ring.slots[j].owner == l.fd && s.ring.slots[j].count == l.suffix.value + 1
    && forall i | 0 <= i < j :: s.ring.slots[i].owner != l.fd || s.ring.slots[i].count != l.suffix.value + 1
  }

  /** What child i of a line is connected to, apart from the input of the first: each stage writes the pipe
      that the next one reads; the last writes the user pipe, the socket of its own client, the entry its
      suffix joins, or a new pipe; and errors go to the client's socket, unless `!` or a joined entry sends
      them elsewhere. */
  ghost predicate WiredTo(s: Server, l: Line, i: nat, io: Io) {
    var own, last := Pipe(s.line, i), i == l.stages - 1;
    && (i > 0 ==> io.stdin == Rd(Pipe(s.line, i - 1)))
    && (!last || l.send.Some? ==> io.stdout == Wr(own))
    && (last && l.send.None? && l.suffix.None? ==> io.stdout == Socket(l.fd))
    && (last && l.send.None? && l.suffix.Some? && (forall j: nat :: !WaitsAt(s, l, j)) ==> io.stdout == Wr(own))
    && (forall j: nat | last && l.send.None? && WaitsAt(s, l, j) :: io.stdout == s.ring.slots[j].ends.outNum)
    && (forall j: nat | last && WaitsAt(s, l, j) :: io.stderr == s.ring.slots[j].ends.outNum)
    && (!last || (forall j: nat :: !WaitsAt(s, l, j)) ==> io.stderr == if l.bang then Wr(own) else Socket(l.fd))
  }

  /** Wiring over every run, with the sockets of the clients, in terms of the line and the table alone. */
  lemma RunChildrenWired(states: seq<Server>, events: seq<Event>, n: nat, i: nat)
    requires IsRun(states, events) && n < |events| && events[n].Exec? && states[n].Shape()
    requires states[n].Runs(events[n].line) && i < events[n].line.stages
    ensures states[n].LiveLine(events[n].line)
    ensures |states[n].Children(events[n].line)| == events[n].line.stages
    ensures WiredTo(states[n], events[n].line, i, states[n].Children(events[n].line)[i].io)
  {
    var s, l := states[n], events[n].line;
    RunAlways(states, events, n);
    assert IsStep(s, events[n], states[n + 1]);
    ChildrenWired(s, l, i);
    if l.suffix.Some? { JoinsWaiting(s, l); }
  }

  lemma JoinsWaiting(s: Server, l: Line)
    requires s.Shape() && l.suffix.Some?
    ensures s.ring.Fresh(BOUND, s.CmdOf(l)) <==> forall j: nat :: !WaitsAt(s, l, j)
    ensures forall j: nat | WaitsAt(s, l, j) :: s.ring.Find(BOUND, s.CmdOf(l)) == j
  {
    var f := s.ring.Find(BOUND, s.CmdOf(l));
    if f != -1 {
      assert forall i | 0 <= i < f :: !Matches(s.ring.slots[i], l.fd, l.suffix.value + 1);
      assert WaitsAt(s, l, f);
    }
    forall j: nat | WaitsAt(s, l, j) ensures f == j {
      assert Matches(s.ring.slots[j], l.fd, l.suffix.value + 1);
    }
  }

  /** The input of the first child: the read end of an entry that comes due, or else the pipe a user sent, or
      else what the server itself has. */
  lemma FirstChildInput(states: seq<Server>, events: seq<Event>, n: nat)
    requires IsRun(states, events) && n < |events| && events[n].Exec? && states[n].Shape()
    requires states[n].Runs(events[n].line)
    ensures states[n].LiveLine(events[n].line) && |states[n].Children(events[n].line)| >= 1
    ensures var s, l := states[n], events[n].line;
            var stdin := s.Children(l)[0].io.stdin;
            && (s.Matured(l).Some? ==> stdin == s.Matured(l).value.inNum)
            && (s.Matured(l).None? && l.recv.Some? ==>
                  (l.recv.value, s.reg.IdOf(l.fd)) in s.up && stdin == s.up[(l.recv.value, s.reg.IdOf(l.fd))].fd)
            && (s.Matured(l).None? && l.recv.None? ==> stdin == Terminal)
  {
    var s, l := states[n], events[n].line;
    RunAlways(states, events, n);
    assert IsStep(s, events[n], states[n + 1]);
    ChildrenWired(s, l, 0);
  }

  // --- clean runs ---

  ghost predicate CleanAt(s: Server, e: Event) {
    s.Shape() && (e.Exec? ==> s.Clean(e.line))
  }

  /** The first n events are clean. */
  ghost predicate CleanRun(states: seq<Server>, events: seq<Event>, n: nat)
    requires n <= |events| < |states|
  {
    forall i | 0 <= i < n :: CleanAt(states[i], events[i])
  }

  lemma ClientsKeepGood(s: Server, reg: R.Reg)
    requires s.Good() && reg.Inv() && forall id :: s.reg.LiveId(id) ==> reg.LiveId(id)
    ensures s.(reg := reg).Good()
  {
    var s' := s.(reg := reg);
    ClientsKeepSound(s, reg);
    forall j | 0 <= j < MAX_PIPE_NUM ensures s'.EntryGood(s'.ring.slots[j]) { assert s.EntryGood(s.ring.slots[j]); }
    forall a, b ensures s'.FlagGood(a, b) { assert s.FlagGood(a, b); }
  }

  lemma LogoutKeepsGood(s: Server, fd: nat)
    requires s.Good() && s.reg.NamesDistinct() && Enabled(s, Logout(fd))
    ensures Step(s, Logout(fd)).Good()
  {
    LogoutKeepsAlways(s, fd);
    var s' := Step(s, Logout(fd));
    forall j | 0 <= j < MAX_PIPE_NUM ensures s'.EntryGood(s'.ring.slots[j]) { assert s.EntryGood(s.ring.slots[j]); }
    forall a, b ensures s'.FlagGood(a, b) { assert s.FlagGood(a, b); }
  }

  /** An event keeps the descriptor invariants exactly when it is clean. */
  lemma StepKeepsGoodIff(s: Server, e: Event)
    requires s.Good() && s.reg.NamesDistinct() && Enabled(s, e)
    ensures Step(s, e).Good() <==> CleanAt(s, e)
  {
    match e
    case Login(fd) =>
      R.LoginInv(s.reg, fd);
      ClientsKeepGood(s, s.reg.Login(fd));
    case Logout(fd) => LogoutKeepsGood(s, fd);
    case Name(fd, cmd) =>
      R.RenameInv(s.reg, fd, cmd);
      ClientsKeepGood(s, s.reg.Rename(fd, R.Tokens(cmd)[1]));
    case Exec(l) => ExecKeepsGoodIff(s, l);
  }

  ghost predicate AllGood(states: seq<Server>, n: nat)
    requires n < |states|
  {
    forall i | 0 <= i <= n :: states[i].Good()
  }

  /** Over whole runs: the descriptor invariants hold in every state up to the n-th exactly when every
      event before it is clean. */
  lemma {:induction false} RunGoodIff(states: seq<Server>, events: seq<Event>, n: nat)
    requires IsRun(states, events) && n <= |events|
    ensures AllGood(states, n) <==> CleanRun(states, events, n)
  {
    if n == 0 {
      InitialAlways();
    } else {
      RunGoodIff(states, events, n - 1);
      RunAlways(states, events, n - 1);
      assert IsStep(states[n - 1], events[n - 1], states[n]);
      assert AllGood(states, n) <==> AllGood(states, n - 1) && states[n].Good();
      assert CleanRun(states, events, n) <==>
             CleanRun(states, events, n - 1) && CleanAt(states[n - 1], events[n - 1]);
      if states[n - 1].Good() { StepKeepsGoodIff(states[n - 1], events[n - 1]); }
    }
  }

  /** End-of-file safety: after a clean start of a run no child of the next line, of whatever kind,
      inherits a write end of the pipe it reads. */
  lemma RunChildrenSafe(states: seq<Server>, events: seq<Event>, n: nat)
    requires IsRun(states, events) && n < |events| && CleanRun(states, events, n) && events[n].Exec?
    ensures states[n].Shape() && states[n].LiveLine(events[n].line)
    ensures forall c <- states[n].Children(events[n].line) :: Safe(c)
  {
    RunGoodIff(states, events, n);
    assert IsStep(states[n], events[n], states[n + 1]);
    ChildrenSafe(states[n], events[n].line);
  }
}
