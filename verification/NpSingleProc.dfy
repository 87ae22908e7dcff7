/** np_single_proc on its global arrays: login, logout and name as the select loop calls them, and
    do_exec with its scans, its user-pipe checks and its stage loop. Every method is tied to the step
    on values that ServerRuns reasons about. */
module NpSingleProc {
  import opened Descriptors
  import opened Schedule
  import opened CountdownRing
  import opened Pipeline
  import opened ChatServer
  import R = Registry
  import SR = ServerRuns

  class Process {
    const clientPipe: array<Slot>
    const fdSet: array<nat>
    const nickname: array<string>
    const userPipe: array2<UserPipe>
    var pos: nat
    var size: nat
    var held: set<Desc>  // the pipe ends this process has open
    var line: nat        // names the pipes of the next command line

    ghost predicate Valid()
      reads this`pos, this`size
    {
      && clientPipe.Length == MAX_PIPE_NUM && fdSet.Length == nickname.Length == R.MAX_USER_NUM
      && userPipe.Length0 == userPipe.Length1 == R.MAX_ID + 1
      && pos <= LAST && size <= R.MAX_USER_NUM
    }

    ghost function Table(): Ring
      reads this`pos, clientPipe
    {
      Ring(clientPipe[..], pos)
    }

    ghost function Clients(): R.Reg
      reads this`size, fdSet, nickname
    {
      R.Reg(fdSet[..], nickname[..], size)
    }

    ghost function Users(): Matrix
      requires Valid()
      reads this`pos, this`size, userPipe
    {
      map k | k in Pairs() :: userPipe[k.0, k.1]
    }

    ghost function State(): Server
      requires Valid()
      reads this, clientPipe, fdSet, nickname, userPipe
    {
      Server(Table(), Clients(), Users(), held, line)
    }

    constructor ()
      ensures Valid() && State() == SR.Start()
    {
      clientPipe := new Slot[MAX_PIPE_NUM](_ => Slot(Ends(Terminal, Terminal), 0, 0));
      fdSet := new nat[R.MAX_USER_NUM](_ => 0);
      nickname := new string[R.MAX_USER_NUM](_ => "");
      userPipe := new UserPipe[R.MAX_ID + 1, R.MAX_ID + 1]((_, _) => UserPipe(false, Terminal));
      pos, size, held, line := 0, 0, {}, 0;
    }

    // --- clients ---

    method Login(ssock: nat)
      requires Valid() && Clients().Inv() && SR.Enabled(State(), SR.Login(ssock))
      modifies this`size, fdSet, nickname
      ensures Valid() && State() == SR.Step(old(State()), SR.Login(ssock))
    {
      var i := 0;
      while i <= size
        invariant 0 <= i <= size
        invariant Clients() == old(Clients())
        invariant Clients().HasRoom(i) && Clients().FirstFree(0) == Clients().FirstFree(i)
        decreases size - i
      {
        if fdSet[i] == 0 {
          ghost var r := Clients();
          fdSet[i] := ssock;
          nickname[i] := R.NO_NAME;
          if i == size { size := size + 1; }
          assert Clients() == r.Login(ssock);
          return;
        }
        i := i + 1;
      }
    }

    method FindUser(fd: nat) returns (cid: nat)
      requires Valid() && Clients().Inv() && Clients().Live(fd)
      ensures cid == Clients().Find(fd, 0) && fdSet[cid] == fd
    {
      cid := 0;
      while fdSet[cid] != fd
        invariant 0 <= cid < size
        invariant Clients().Find(fd, 0) == Clients().Find(fd, cid)
        decreases size - cid
      {
        cid := cid + 1;
      }
    }

    method Logout(fd: nat)
      requires Valid() && State().Shape() && SR.Enabled(State(), SR.Logout(fd))
      modifies fdSet, userPipe
      ensures Valid() && State() == SR.Step(old(State()), SR.Logout(fd))
    {
      var i := FindUser(fd);
      fdSet[i] := 0;
      assert Clients() == old(Clients()).Logout(fd);
      BroadcastLogout(i + 1);
    }

    static function ClearedUpTo(u: UserPipe, k: (int, int), cid: nat, n: int): UserPipe {
      if (k.0 == cid && 1 <= k.1 < n) || (k.1 == cid && 1 <= k.0 < n) then u.(flag := false) else u
    }

    /** The bookkeeping part of broadcast_logout. */
    method BroadcastLogout(cid: nat)
      requires Valid() && IsId(cid)
      modifies userPipe
      ensures Users() == ClearUser(old(Users()), cid)
    {
      ghost var before := Users();
      var i := 1;
      while i <= 30
        invariant 1 <= i <= 31
        invariant forall k <- Pairs() :: Users()[k] == ClearedUpTo(before[k], k, cid, i)
      {
        userPipe[cid, i] := userPipe[cid, i].(flag := false);
        userPipe[i, cid] := userPipe[i, cid].(flag := false);
        i := i + 1;
      }
    }

    method ExecuteName(fd: nat, cmd: string)
      requires Valid() && State().Shape() && SR.Enabled(State(), SR.Name(fd, cmd))
      modifies nickname
      ensures Valid() && State() == SR.Step(old(State()), SR.Name(fd, cmd))
    {
      var name := R.Tokens(cmd)[1];
      var cid := 0;
      var i := 0;
      while i < size
        invariant 0 <= i <= size
        invariant forall j :: 0 <= j < i && fdSet[j] == fd ==> j == cid
        invariant forall j :: 0 <= j < i && fdSet[j] != fd && fdSet[j] != 0 ==> nickname[j] != name
      {
        if fdSet[i] == fd { cid := i; }
        if fdSet[i] != fd && fdSet[i] != 0 && nickname[i] == name {
          assert Clients().Taken(fd, name);
          return;
        }
        i := i + 1;
      }
      assert !Clients().Taken(fd, name);
      R.FindLive(Clients(), fd);
      nickname[cid] := name;
      assert Clients() == old(Clients()).Rename(fd, name);
    }

    // --- numbered pipes ---

    method MergeScan(fd: nat, pipeNumber: nat) returns (found: int)
      requires Valid()
      ensures found == FindPending(Table().slots, 0, BOUND, fd, pipeNumber + 1)
    {
      var i := 0;
      while i < MAX_PIPE_NUM - 1
        invariant 0 <= i <= BOUND
        invariant FindPending(Table().slots, 0, BOUND, fd, pipeNumber + 1)
               == FindPending(Table().slots, i, BOUND, fd, pipeNumber + 1)
      {
        if clientPipe[i].count == pipeNumber + 1 && clientPipe[i].owner == fd { return i; }
        i := i + 1;
      }
      return -1;
    }

    method AgeScan(fd: nat) returns (matured: Option<Ends>)
      requires Valid()
      modifies clientPipe
      ensures Table() == old(Table()).Age(fd)
      ensures var j := FindMatured(old(Table()).slots, SCAN, fd);
              matured == if j == -1 then None else Some(old(Table()).slots[j].ends)
    {
      ghost var before := Table().slots;
      matured := None;
      var j := 0;
      while j < 1000
        invariant 0 <= j <= SCAN
        invariant Table().slots == Aged(before, j, fd)
        invariant var m := FindMatured(before, j, fd);
                  matured == if m == -1 then None else Some(before[m].ends)
      {
        if clientPipe[j].count == 1 && clientPipe[j].owner == fd { matured := Some(clientPipe[j].ends); }
        if clientPipe[j].owner == fd { clientPipe[j] := clientPipe[j].(count := clientPipe[j].count - 1); }
        j := j + 1;
      }
    }

    /** getInput and outputFd as do_exec sets them before the stage loop. */
    method PlanOutput(l: Line) returns (getInput: int, outputFd: Desc)
      requires Valid() && State().Shape() && State().LiveLine(l)
      modifies clientPipe
      ensures Table() == old(Table()).Reserved(BOUND, old(State()).CmdOf(l))
      ensures getInput == old(State()).PlanOf(l).getInput && outputFd == old(State()).PlanOf(l).outputFd
    {
      getInput, outputFd := 0, Socket(l.fd);
      if l.suffix.Some? {
        var found := MergeScan(l.fd, l.suffix.value);
        if found != -1 {
          outputFd := clientPipe[found].ends.outNum;
          getInput := 1;
        } else {
          clientPipe[pos] := clientPipe[pos].(count := l.suffix.value + 1, owner := l.fd);
          getInput := 2;
        }
      }
    }

    method Commit(p: Pipe)
      requires Valid()
      modifies this`pos, clientPipe
      ensures Valid() && Table() == old(Table()).Commit(PipeEnds(p))
    {
      clientPipe[pos] := clientPipe[pos].(ends := Ends(Rd(p), Wr(p)));
      pos := pos + 1;
      if pos > 1000 { pos := 0; }
    }

    // --- user pipes ---

    /** The checks for `<k` and `>k`; the incoming pipe is marked taken before `>k` is looked at. */
    method CheckUserPipes(l: Line) returns (ok: bool, input: Desc)
      requires Valid() && State().Shape() && State().LiveLine(l)
      modifies userPipe
      ensures ok == old(State()).Accepted(l) && Users() == old(State()).AfterRecv(l)
      ensures ok && l.recv.Some? ==> input == old(Users())[(l.recv.value, old(State()).Me(l))].fd
      ensures l.recv.None? ==> input == Terminal
    {
      input := Terminal;
      var cid := FindUser(l.fd);
      var me := cid + 1;
      if l.recv.Some? {
        var sendid := l.recv.value;
        if sendid <= 0 || sendid > 30 || fdSet[sendid - 1] == 0 { return false, input; }
        if !userPipe[sendid, me].flag { return false, input; }
        userPipe[sendid, me] := userPipe[sendid, me].(flag := false);
        assert Users() == Lower(old(Users()), sendid, me);
        input := userPipe[sendid, me].fd;
      }
      if l.send.Some? {
        var recvid := l.send.value;
        if recvid <= 0 || recvid > 30 || fdSet[recvid - 1] == 0 { return false, input; }
        if userPipe[me, recvid].flag { return false, input; }
      }
      return true, input;
    }

    /** parser's bookkeeping after the fork of the last stage, whose pipe is p. */
    method MarkUserPipe(l: Line, p: Pipe)
      requires Valid() && Clients().Inv() && Clients().Live(l.fd)
      requires IsId(Clients().IdOf(l.fd)) && l.send.Some? && IsId(l.send.value) && (l.recv.Some? ==> IsId(l.recv.value))
      requires var me := Clients().IdOf(l.fd);
               !Flagged(Users(), me, l.send.value) && (l.recv.Some? ==> !Flagged(Users(), l.recv.value, me))
      modifies userPipe
      ensures var me := Clients().IdOf(l.fd);
              var drop := l.stages == 1 && l.recv == Some(me) && l.send == Some(me);
              Users() == old(Users())[(me, l.send.value) := UserPipe(!drop, Rd(p))]
    {
      var cid := FindUser(l.fd);
      var me := cid + 1;
      userPipe[me, l.send.value] := UserPipe(true, Rd(p));
      assert Users() == old(Users())[(me, l.send.value) := UserPipe(true, Rd(p))];
      if l.stages == 1 && l.recv.Some? && userPipe[l.recv.value, me].flag {
        assert Flagged(Users(), l.recv.value, me);
        userPipe[l.recv.value, me] := userPipe[l.recv.value, me].(flag := false);
      }
    }

    // --- the stage loop ---

    method RunStages(plan: Plan, firstInput: Desc) returns (children: seq<Child>)
      requires plan.stages >= 1
      modifies this`held
      ensures (children, held) == StageLoop(plan, 0, firstInput, old(held))
    {
      children := [];
      ghost var (all, end) := StageLoop(plan, 0, firstInput, held);
      var input := firstInput;
      var i := 0;
      while i < plan.stages
        invariant 0 <= i <= plan.stages && children == all[..i]
        invariant i < plan.stages ==> (all[i..], end) == StageLoop(plan, i, input, held)
        invariant i == plan.stages ==> held == end
      {
        var last := i == plan.stages - 1;
        var rd, wr := plan.Rd(i), plan.Wr(i);
        ghost var before := held;
        held := held + {rd, wr};
        var io := Dup2Table(i == 0, last, plan.GetInputAt(i), plan.enter && i == 0, plan.bang, input, plan.outputFd,
                            plan.sock, wr, last && plan.toUser);
        children := children + [Child(io, held)];
        if last && plan.drop { held := held - {rd}; }
        if input != Terminal { held := held - {input}; }
        if !(last && plan.getInput != 0) { held := held - {wr}; }
        assert held == HeldAfter(plan, i, input, before);
        assert all[i..][1..] == all[i + 1..];
        input := rd;
        i := i + 1;
      }
      assert all[..i] == all;
    }

    /** The first pass of the stage loop up to the fork: age the table, choose the input, close the
        write end of a matured pipe. s is the state in which the line began. */
    method PlanStages(l: Line, getInput: int, outputFd: Desc, userInput: Desc, ghost s: Server)
      returns (plan: Plan, input: Desc)
      requires Valid() && s.Shape() && s.LiveLine(l) && s.Runs(l)
      requires Table() == s.ring.Reserved(BOUND, s.CmdOf(l)) && Clients() == s.reg
      requires held == s.held && line == s.line
      requires getInput == s.PlanOf(l).getInput && outputFd == s.PlanOf(l).outputFd
      requires userInput == if l.recv.Some? then s.up[(l.recv.value, s.Me(l))].fd else Terminal
      modifies this`held, clientPipe
      ensures Table() == s.ring.Reserved(BOUND, s.CmdOf(l)).Age(l.fd)
      ensures plan == s.PlanOf(l) && input == s.Input(l) && held == s.HeldAtStart(l)
    {
      var matured := AgeScan(l.fd);
      assert matured == s.Matured(l);
      input := userInput;
      if matured.Some? {
        input := matured.value.inNum;
        held := held - {matured.value.outNum};
      }
      var cid := FindUser(l.fd);
      var me := cid + 1;
      var drop := l.stages == 1 && l.recv == Some(me) && l.send == Some(me);
      plan := Plan(line, l.stages, Socket(l.fd), getInput, outputFd, matured.Some?, l.bang, l.send.Some?, drop);
    }

    method ExecAccepted(l: Line, getInput: int, outputFd: Desc, userInput: Desc, ghost s: Server)
      returns (children: seq<Child>)
      requires Valid() && s.Shape() && s.LiveLine(l) && s.Runs(l)
      requires Table() == s.ring.Reserved(BOUND, s.CmdOf(l)) && Clients() == s.reg && Users() == s.AfterRecv(l)
      requires held == s.held && line == s.line
      requires getInput == s.PlanOf(l).getInput && outputFd == s.PlanOf(l).outputFd
      requires userInput == if l.recv.Some? then s.up[(l.recv.value, s.Me(l))].fd else Terminal
      modifies this`pos, this`held, clientPipe, userPipe
      ensures Valid() && Table() == s.ring.Step(BOUND, s.CmdOf(l), s.line) && Users() == s.MatrixThen(l)
      ensures held == s.HeldThen(l) && children == s.Children(l)
    {
      var plan, input := PlanStages(l, getInput, outputFd, userInput, s);
      children := RunStages(plan, input);
      assert children == s.Children(l) && held == s.HeldThen(l);
      FinishUsers(l, s);
      FinishTable(l, getInput, s);
    }

    method FinishUsers(l: Line, ghost s: Server)
      requires Valid() && s.Shape() && s.LiveLine(l) && s.Runs(l)
      requires Clients() == s.reg && Users() == s.AfterRecv(l) && line == s.line
      modifies userPipe
      ensures Users() == s.MatrixThen(l)
    {
      if l.send.Some? {
        SenderInMatrix(s, l);
        R.FindLive(s.reg, l.fd);
        MarkUserPipe(l, Pipe(line, l.stages - 1));
      }
    }

    method FinishTable(l: Line, getInput: int, ghost s: Server)
      requires Valid() && s.Shape() && s.LiveLine(l) && s.Runs(l) && line == s.line
      requires getInput == s.PlanOf(l).getInput
      requires Table() == s.ring.Reserved(BOUND, s.CmdOf(l)).Age(l.fd)
      modifies this`pos, clientPipe
      ensures Valid() && Table() == s.ring.Step(BOUND, s.CmdOf(l), s.line)
    {
      if getInput == 2 { Commit(Pipe(line, l.stages - 1)); }
    }

    /** The head of do_exec: the suffix, then the user pipes. */
    method Prepare(l: Line) returns (getInput: int, outputFd: Desc, ok: bool, input: Desc)
      requires Valid() && State().Shape() && State().LiveLine(l)
      modifies clientPipe, userPipe
      ensures Table() == old(State()).ring.Reserved(BOUND, old(State()).CmdOf(l))
      ensures Users() == old(State()).AfterRecv(l) && ok == old(State()).Accepted(l)
      ensures getInput == old(State()).PlanOf(l).getInput && outputFd == old(State()).PlanOf(l).outputFd
      ensures ok ==> input == if l.recv.Some? then old(State()).up[(l.recv.value, old(State()).Me(l))].fd else Terminal
    {
      ghost var s := State();
      getInput, outputFd := PlanOutput(l);
      assert State() == s.(ring := s.ring.Reserved(BOUND, s.CmdOf(l)));
      ChecksIgnoreTable(s, s.ring.Reserved(BOUND, s.CmdOf(l)), l);
      ok, input := CheckUserPipes(l);
    }

    /** One command line of one client. */
    method DoExec(l: Line) returns (children: seq<Child>)
      requires Valid() && State().Shape() && State().LiveLine(l)
      modifies this`pos, this`held, this`line, clientPipe, userPipe
      ensures Valid() && State() == old(State()).Exec(l) && children == old(State()).Children(l)
    {
      ghost var s := State();
      children := [];
      var getInput, outputFd, ok, input := Prepare(l);
      if ok && !l.builtin {
        children := ExecAccepted(l, getInput, outputFd, input, s);
      } else {
        IdleExec(s, l);
      }
      line := line + 1;
    }

    static lemma ChecksIgnoreTable(s: Server, ring: Ring, l: Line)
      requires s.Shape() && ring.Shape() && |ring.slots| == MAX_PIPE_NUM && s.LiveLine(l)
      ensures var s' := s.(ring := ring);
              && s'.Shape() && s'.LiveLine(l) && s'.Me(l) == s.Me(l)
              && s'.Accepted(l) == s.Accepted(l) && s'.AfterRecv(l) == s.AfterRecv(l)
    {
    }

    /** A line that does not run leaves its reservation and its `<` check behind. */
    static lemma IdleExec(s: Server, l: Line)
      requires s.Shape() && s.LiveLine(l) && !s.Runs(l)
      ensures s.Exec(l) == Server(s.ring.Reserved(BOUND, s.CmdOf(l)), s.reg, s.AfterRecv(l), s.held, s.line + 1)
      ensures s.Children(l) == []
    {
    }
  }
}
