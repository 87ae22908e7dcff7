/** Short runs from the start of np_single_proc that show the failing cases: a child that never sees end of
    file, a session that reads what an earlier one wrote, and user pipes that nobody reads. */
module ServerExamples {
  import opened Descriptors
  import opened CountdownRing
  import opened Pipeline
  import opened ChatServer
  import opened ServerRuns
  import R = Registry
  import RR = RingRuns
  import UP = UserPipes

  ghost predicate Reached(s: Server) {
    exists states, events | IsRun(states, events) :: states[|events|] == s
  }

  lemma StartReached()
    ensures Reached(Start()) && Always(Start())
  {
    InitialAlways();
    var events: seq<Event> := [];
    assert IsRun([Start()], events) && [Start()][|events|] == Start();
  }

  /** One more event. */
  lemma Then(s: Server, e: Event)
    requires Reached(s) && Always(s) && Enabled(s, e)
    ensures Reached(Step(s, e)) && Always(Step(s, e))
  {
    var states, events :| IsRun(states, events) && states[|events|] == s;
    var more, last := states + [Step(s, e)], events + [e];
    forall i | 0 <= i < |last| ensures IsStep(more[i], last[i], more[i + 1]) {
      assert i < |events| ==> IsStep(states[i], events[i], states[i + 1]);
    }
    assert IsRun(more, last) && more[|last|] == Step(s, e);
    StepKeepsAlways(s, e);
  }

  /** What a line of a client does in a state with nothing pending for it: its entry, if any, stands
      ready at N, and its pipe is Pipe(line, 0). */
  lemma OneStage(s: Server, l: Line)
    requires s.Sound() && s.LiveLine(l) && s.Runs(l) && l.stages == 1 && s.Matured(l).None? && l.recv.None?
    requires forall j | 0 <= j < MAX_PIPE_NUM :: s.ring.slots[j].owner != l.fd
    ensures s.Exec(l).Shape()
    ensures s.Exec(l).held == s.held + {Rd(Pipe(s.line, 0))} + (if l.suffix.Some? then {Wr(Pipe(s.line, 0))} else {})
    ensures l.suffix.Some? && s.ring.pos < SCAN ==>
              && s.Exec(l).ring.slots[s.ring.pos] == Slot(PipeEnds(Pipe(s.line, 0)), l.suffix.value, l.fd)
              && forall j | 0 <= j < MAX_PIPE_NUM && j != s.ring.pos :: s.Exec(l).ring.slots[j] == s.ring.slots[j]
    ensures l.suffix.None? ==> s.Exec(l).ring.slots == s.ring.slots
  {
    ShapeKept(s, l);
    HeldAfterLine(s, l);
    StepSlots(s.ring, BOUND, s.CmdOf(l), s.line);
  }

  /** Clients on descriptors 4 and 5 have ids 1 and 2, and nothing has happened yet. */
  ghost predicate TwoUsers(s: Server) {
    && Reached(s) && Always(s) && s.reg.Live(4) && s.reg.Live(5) && s.reg.IdOf(4) == 1 && s.reg.IdOf(5) == 2
    && s.reg.LiveId(1) && s.reg.LiveId(2) && !s.reg.LiveId(9)
    && s.reg.fds[0] == 4 && s.reg.fds[1] == 5 && (forall i :: 2 <= i < R.MAX_USER_NUM ==> s.reg.fds[i] == 0)
    && s.reg.names[0] == s.reg.names[1] == R.NO_NAME
    && s.ring == RR.Initial(MAX_PIPE_NUM) && s.up == NoPipes() && s.held == {} && s.line == 0
  }

  lemma Two() returns (s: Server)
    ensures TwoUsers(s)
  {
    StartReached();
    var s0 := Start();
    assert s0.reg.fds[0] == 0;
    R.LoginInv(s0.reg, 4);
    Then(s0, Login(4));
    var s1 := Step(s0, Login(4));
    assert s1.reg.fds[1] == 0 && s1.reg.fds[0] == 4;
    R.LoginInv(s1.reg, 5);
    Then(s1, Login(5));
    s := Step(s1, Login(5));
    assert s.reg.fds[0] == 4 && s.reg.fds[1] == 5;
    R.FindLive(s.reg, 4);
    R.FindLive(s.reg, 5);
    assert s.reg.fds[8] == 0;
  }

  /** `cat >2 |1` by user 1, then `cat <1` by user 2: the reader inherits the write end of its own input. */
  lemma SharedPipeExample() returns (s: Server, l: Line)
    ensures Reached(s) && s.Shape() && s.LiveLine(l)
    ensures exists c <- s.Children(l) :: !Safe(c)
  {
    var s0 := Two();
    var first := Line(4, Some(1), false, None, Some(2), false, 1);
    Then(s0, Exec(first));
    OneStage(s0, first);
    s := Step(s0, Exec(first));
    l := Line(5, None, false, Some(1), None, false, 1);
    var p := Pipe(0, 0);
    assert Flagged(s.up, 1, 2) && s.up[(1, 2)].fd == Rd(p);
    assert s.Runs(l) && s.Matured(l).None? && s.Input(l) == Rd(p);
    ChildrenWired(s, l, 0);
    assert s.Children(l)[0] in s.Children(l) && !Safe(s.Children(l)[0]);
  }

  /** `cat |1`, a logout, a login on the same descriptor, and any command: it reads what the earlier
      session wrote. s is the state before the logout. */
  lemma InheritedExample() returns (s: Server, l: Line)
    ensures Reached(s) && s.Shape() && Enabled(s, Logout(4)) && Step(s, Logout(4)).Shape()
    ensures Enabled(Step(s, Logout(4)), Login(4))
    ensures var s' := Step(Step(s, Logout(4)), Login(4));
            && s'.Shape() && s'.LiveLine(l) && l.fd == 4 && |s'.Children(l)| == 1
            && s'.Children(l)[0].io.stdin == Rd(Pipe(0, 0)) && 0 < s'.line
  {
    var s0 := Two();
    var first := Line(4, Some(1), false, None, None, false, 1);
    Then(s0, Exec(first));
    OneStage(s0, first);
    s := Step(s0, Exec(first));
    R.LogoutInv(s.reg, 4);
    Then(s, Logout(4));
    var s1 := Step(s, Logout(4));
    assert s1.reg.fds[0] == 0;
    R.LoginInv(s1.reg, 4);
    Then(s1, Login(4));
    var s' := Step(s1, Login(4));
    l := Line(4, None, false, None, None, false, 1);
    assert Matches(s'.ring.slots[0], 4, 1);
    assert forall j | 0 < j < MAX_PIPE_NUM :: s'.ring.slots[j].owner == 0;
    assert s'.Matured(l) == Some(PipeEnds(Pipe(0, 0)));
    ChildrenWired(s', l, 0);
  }

  /** The line takes pipe p out of the matrix, none of its children reads it, and afterwards nobody can. */
  ghost predicate Loses(s: Server, l: Line, p: Pipe) {
    && s.Shape() && s.LiveLine(l) && UP.Takes(s, Exec(l)) == Some(p)
    && !UP.ReadBy(s.Children(l), p) && UP.Gone(s.Exec(l), p) && !UP.KeepsMail(s, Exec(l))
  }

  lemma LosesTaken(s: Server, l: Line, p: Pipe)
    requires Always(s) && s.LiveLine(l) && UP.Takes(s, Exec(l)) == Some(p) && !UP.KeepsMail(s, Exec(l))
    requires !(s.Runs(l) && s.SelfDrop(l))
    ensures Loses(s, l, p)
  {
    UP.TakenIsReadIff(s, l);
    UP.TakenIsGone(s, Exec(l), p);
  }

  /** After `cat |1` by user 2 and `cat >2` by user 1. */
  ghost predicate PipeWaits(s: Server) {
    && Reached(s) && Always(s) && s.reg.Live(5) && s.Shape() && s.reg.IdOf(5) == 2
    && s.reg.LiveId(1) && s.reg.LiveId(2) && !s.reg.LiveId(9)
    && Flagged(s.up, 1, 2) && s.up[(1, 2)].fd == Rd(Pipe(1, 0))
    && Matches(s.ring.slots[0], 5, 1) && s.ring.slots[0].ends.inNum == Rd(Pipe(0, 0))
    && forall j | 0 < j < MAX_PIPE_NUM :: s.ring.slots[j].owner != 5
  }

  lemma OneWaits() returns (s: Server)
    ensures PipeWaits(s)
  {
    var s0 := Two();
    var first := Line(5, Some(1), false, None, None, false, 1);
    Then(s0, Exec(first));
    OneStage(s0, first);
    var s1 := Step(s0, Exec(first));
    var second := Line(4, None, false, None, Some(2), false, 1);
    assert s1.Runs(second) && s1.Matured(second).None?;
    Then(s1, Exec(second));
    OneStage(s1, second);
    s := Step(s1, Exec(second));
  }

  /** In that state `cat <1 >9`, `who <1` and plain `cat <1` by user 2 all lose the pipe of user 1. */
  lemma LostPipeExamples() returns (s: Server)
    ensures PipeWaits(s)
    ensures Loses(s, Line(5, None, false, Some(1), Some(9), false, 1), Pipe(1, 0))
    ensures Loses(s, Line(5, None, false, Some(1), None, true, 1), Pipe(1, 0))
    ensures Loses(s, Line(5, None, false, Some(1), None, false, 1), Pipe(1, 0))
  {
    s := OneWaits();
    LosesTaken(s, Line(5, None, false, Some(1), Some(9), false, 1), Pipe(1, 0));
    LosesTaken(s, Line(5, None, false, Some(1), None, true, 1), Pipe(1, 0));
    MaturesFirst(s, Line(5, None, false, Some(1), None, false, 1));
    LosesTaken(s, Line(5, None, false, Some(1), None, false, 1), Pipe(1, 0));
  }

  lemma MaturesFirst(s: Server, l: Line)
    requires s.Shape() && s.LiveLine(l) && s.Runs(l) && l.suffix.None? && Matches(s.ring.slots[0], l.fd, 1)
    requires forall j | 0 < j < MAX_PIPE_NUM :: s.ring.slots[j].owner != l.fd
    ensures s.Matured(l) == Some(s.ring.slots[0].ends)
  {
  }

  /** `cat >1` and then `cat <1 >1`, both by user 1: the second pipe is waiting for nobody. */
  lemma SelfPipeExample() returns (s: Server, l: Line)
    ensures Reached(s) && s.Shape() && s.LiveLine(l) && s.Runs(l) && l.send == Some(s.Me(l))
    ensures s.Exec(l).Shape() && !Flagged(s.Exec(l).up, s.Me(l), s.Me(l)) && !UP.KeepsMail(s, Exec(l))
  {
    var s0 := Two();
    var first := Line(4, None, false, None, Some(1), false, 1);
    Then(s0, Exec(first));
    s := Step(s0, Exec(first));
    l := Line(4, None, false, Some(1), Some(1), false, 1);
    assert Flagged(s.up, 1, 1);
    ShapeKept(s, l);
  }

  /** User 2 calls itself bob and leaves, and then user 1 can have the name. s is the state before the last
      command; the name still stands in the free slot. */
  lemma FreedNameExample() returns (s: Server)
    ensures Reached(s) && s.Shape() && Enabled(s, Name(4, "name bob"))
    ensures exists i :: 0 <= i < |s.reg.names| == |s.reg.fds| && s.reg.fds[i] == 0 && s.reg.names[i] == "bob"
    ensures Named(Step(s, Name(4, "name bob")), 4, "bob")
  {
    var cmd := "name bob";
    assert cmd == "name" + " " + "bob";
    R.TwoTokens("name", "bob");
    var s0 := Two();
    R.FindLive(s0.reg, 5);
    R.RenameInv(s0.reg, 5, cmd);
    Then(s0, Name(5, cmd));
    var s1 := Step(s0, Name(5, cmd));
    R.LogoutInv(s1.reg, 5);
    Then(s1, Logout(5));
    s := Step(s1, Logout(5));
    R.RenameInv(s.reg, 4, cmd);
    OneName(Step(s, Name(4, cmd)), 4, "bob");
  }
}
