/** np_single_proc as a value: the shared countdown table, the clients, the user-pipe matrix, and the
    pipe ends the one server process holds. One step per event of the select loop. */
module ChatServer {
  import opened Descriptors
  import opened Schedule
  import opened CountdownRing
  import opened Pipeline
  import R = Registry

  const MAX_PIPE_NUM: nat := 2048
  /** The merge scan visits all but the last entry. */
  const BOUND: nat := MAX_PIPE_NUM - 1

  datatype UserPipe = UserPipe(flag: bool, fd: Desc)

  /** user_pipe[s][r], with rows and columns 0..30; row and column 0 are unused. */
  type Matrix = map<(int, int), UserPipe>

  function Pairs(): set<(int, int)> {
    set a, b | 0 <= a <= R.MAX_ID && 0 <= b <= R.MAX_ID :: (a, b)
  }

  predicate IsId(id: int) {
    1 <= id <= R.MAX_ID
  }

  ghost predicate Full(m: Matrix) {
    m.Keys == Pairs()
  }

  function Flagged(m: Matrix, a: int, b: int): bool {
    (a, b) in m && m[(a, b)].flag
  }

  function Lower(m: Matrix, a: int, b: int): Matrix {
    if (a, b) in m then m[(a, b) := m[(a, b)].(flag := false)] else m
  }

  /** broadcast_logout: nothing is left to or from this id. */
  function ClearUser(m: Matrix, id: int): Matrix {
    map k | k in m ::
      if (k.0 == id && IsId(k.1)) || (k.1 == id && IsId(k.0)) then m[k].(flag := false) else m[k]
  }

  /** One command line. recv is the k of `<k` (on the first stage), send that of `>k` (on the last). */
  datatype Line = Line(fd: nat, suffix: Option<nat>, bang: bool, recv: Option<int>, send: Option<int>,
                       builtin: bool, stages: nat)
  {
    predicate Valid() {
      && stages >= 1 && (suffix.Some? ==> suffix.value >= 1)
      && (bang ==> suffix.Some?) && (builtin ==> stages == 1)
    }
  }

  datatype Server = Server(ring: Ring, reg: R.Reg, up: Matrix, held: set<Desc>, line: nat) {

    ghost predicate Shape() {
      ring.Shape() && |ring.slots| == MAX_PIPE_NUM && reg.Inv() && Full(up)
    }

    /** A line of a logged-in client. An id beyond 30 has no place in the matrix, so such a client's line
        must not get as far as looking there. */
    predicate LiveLine(l: Line)
      requires Shape()
    {
      l.Valid() && reg.Live(l.fd) && (LooksUp(l) ==> IsId(Me(l)))
    }

    function Me(l: Line): int
      requires Shape()
    {
      reg.IdOf(l.fd)
    }

    /** The first user-pipe check of the line reaches the matrix. */
    predicate LooksUp(l: Line)
      requires Shape()
    {
      if l.recv.Some? then reg.LiveId(l.recv.value) else l.send.Some? && reg.LiveId(l.send.value)
    }

    // --- the two user-pipe checks at the head of do_exec ---

    predicate RecvOk(l: Line)
      requires Shape()
    {
      l.recv.Some? ==> reg.LiveId(l.recv.value) && Flagged(up, l.recv.value, Me(l))
    }

    /** The incoming pipe is marked taken as soon as its own check passes. */
    function AfterRecv(l: Line): Matrix
      requires Shape()
    {
      if l.recv.Some? && RecvOk(l) then Lower(up, l.recv.value, Me(l)) else up
    }

    predicate SendOk(l: Line)
      requires Shape()
    {
      l.send.Some? ==> reg.LiveId(l.send.value) && !Flagged(AfterRecv(l), Me(l), l.send.value)
    }

    predicate Accepted(l: Line)
      requires Shape()
    {
      RecvOk(l) && SendOk(l)
    }

    predicate Runs(l: Line)
      requires Shape()
    {
      Accepted(l) && !l.builtin
    }

    /** The line as the countdown table sees it. */
    function CmdOf(l: Line): Cmd
      requires Shape()
    {
      Cmd(l.fd, l.suffix, Runs(l), l.stages)
    }

    // --- the stage loop ---

    function Matured(l: Line): Option<Ends>
      requires Shape()
    {
      ring.Reads(BOUND, CmdOf(l))
    }

    /** The first stage's input: a matured pipe, else the user pipe, else nothing. */
    function Input(l: Line): Desc
      requires Shape()
    {
      if Matured(l).Some? then Matured(l).value.inNum
      else if l.recv.Some? && RecvOk(l) then up[(l.recv.value, Me(l))].fd
      else Terminal
    }

    /** The write end of a matured pipe is closed before the first fork. */
    function HeldAtStart(l: Line): set<Desc>
      requires Shape()
    {
      if Matured(l).Some? then held - {Matured(l).value.outNum} else held
    }

    /** `<k >k` with k the user's own id, on one stage: the new pipe is dropped again. */
    predicate SelfDrop(l: Line)
      requires Shape()
    {
      l.stages == 1 && l.recv == Some(Me(l)) && l.send == Some(Me(l))
    }

    function PlanOf(l: Line): Plan
      requires Shape()
    {
      var getInput := if l.suffix.None? then 0 else if ring.Fresh(BOUND, CmdOf(l)) then 2 else 1;
      Plan(line, l.stages, Socket(l.fd), getInput,
           if getInput == 1 then ring.slots[ring.Find(BOUND, CmdOf(l))].ends.outNum else Socket(l.fd),
           Matured(l).Some?, l.bang, l.send.Some?, SelfDrop(l))
    }

    function Children(l: Line): seq<Child>
      requires Shape() && LiveLine(l)
    {
      if Runs(l) then StageLoop(PlanOf(l), 0, Input(l), HeldAtStart(l)).0 else []
    }

    function HeldThen(l: Line): set<Desc>
      requires Shape() && LiveLine(l)
    {
      if Runs(l) then StageLoop(PlanOf(l), 0, Input(l), HeldAtStart(l)).1 else held
    }

    /** parser marks the last stage's read end as the user pipe. */
    function MatrixThen(l: Line): Matrix
      requires Shape() && LiveLine(l)
    {
      if Runs(l) && l.send.Some? && !SelfDrop(l)
      then AfterRecv(l)[(Me(l), l.send.value) := UserPipe(true, Rd(Pipe(line, l.stages - 1)))]
      else if Runs(l) && l.send.Some?
      then AfterRecv(l)[(Me(l), l.send.value) := UserPipe(false, Rd(Pipe(line, l.stages - 1)))]
      else AfterRecv(l)
    }

    function Exec(l: Line): Server
      requires Shape() && LiveLine(l)
    {
      Server(ring.Step(BOUND, CmdOf(l), line), reg, MatrixThen(l), HeldThen(l), line + 1)
    }

    // --- what holds whatever lines are run ---

    ghost predicate HeldOld() {
      forall d <- held :: (d.Rd? || d.Wr?) && d.pipe.line < line
    }

    /** An entry holds the two ends of an earlier line's pipe, or what it was initialised with. */
    ghost predicate EndsOld(e: Ends) {
      e == Ends(Terminal, Terminal) || (e.inNum.Rd? && e == PipeEnds(e.inNum.pipe) && e.inNum.pipe.line < line)
    }

    /** A set flag joins two logged-in ids, and stores the read end of an earlier line's pipe. */
    ghost predicate FlagOld(a: int, b: int)
      requires Shape()
    {
      Flagged(up, a, b) ==>
        && IsId(a) && IsId(b) && reg.LiveId(a) && reg.LiveId(b)
        && up[(a, b)].fd.Rd? && up[(a, b)].fd.pipe.line < line
    }

    ghost predicate FlagsOld()
      requires Shape()
    {
      && (forall a, b :: FlagOld(a, b))
      && (forall a, b, c, d | Flagged(up, a, b) && Flagged(up, c, d) && (a, b) != (c, d) ::
            up[(a, b)].fd != up[(c, d)].fd)
    }

    ghost predicate Sound() {
      && Shape() && HeldOld() && FlagsOld()
      && forall j | 0 <= j < MAX_PIPE_NUM :: EndsOld(ring.slots[j].ends)
    }

    // --- what clean lines keep ---

    /** A live entry holds both open ends of one pipe; a dead one holds no open write end. */
    ghost predicate EntryGood(e: Slot) {
      if e.count > 0 then e.ends.inNum.Rd? && e.ends.inNum in held && e.ends.outNum in held
      else e.ends.outNum !in held
    }

    /** The write end of a waiting user pipe is closed. */
    ghost predicate FlagGood(a: int, b: int) {
      Flagged(up, a, b) ==> up[(a, b)].fd.Rd? && up[(a, b)].fd in held && Wr(up[(a, b)].fd.pipe) !in held
    }

    ghost predicate EntriesGood()
      requires Shape()
    {
      && ring.Unique()
      && (forall j | 0 <= j < MAX_PIPE_NUM :: EntryGood(ring.slots[j]))
      && (forall i, j | 0 <= i < j < MAX_PIPE_NUM && ring.slots[i].count > 0 && ring.slots[j].count > 0 ::
            ring.slots[i].ends != ring.slots[j].ends)
    }

    ghost predicate Good() {
      Sound() && EntriesGood() && forall a, b :: FlagGood(a, b)
    }

    /** What a line must avoid: making a dead entry live without running, and giving the same pipe both to
        a user and to a numbered suffix. */
    predicate Clean(l: Line)
      requires Shape()
    {
      && (ring.Fresh(BOUND, CmdOf(l)) ==> Runs(l) || ring.slots[ring.pos].count > 0)
      && !(Runs(l) && l.send.Some? && l.suffix.Some?
           && (ring.Fresh(BOUND, CmdOf(l)) || !SelfDrop(l)))
    }
  }

  lemma ShapeKept(s: Server, l: Line)
    requires s.Shape() && s.LiveLine(l)
    ensures s.Exec(l).Shape()
  {
    StepSlots(s.ring, BOUND, s.CmdOf(l), s.line);
    if s.Runs(l) && l.send.Some? { SenderInMatrix(s, l); }
  }

  lemma SenderInMatrix(s: Server, l: Line)
    requires s.Shape() && s.LiveLine(l) && s.Runs(l) && l.send.Some?
    ensures IsId(s.Me(l)) && IsId(l.send.value) && s.reg.LiveId(s.Me(l)) && s.reg.LiveId(l.send.value)
  {
    R.FindLive(s.reg, l.fd);
  }

  // --- any line ---

  /** Whatever ran before, the loop starts from descriptors older than the line. */
  lemma LineStarts(s: Server, l: Line)
    requires s.Sound() && s.LiveLine(l) && s.Runs(l)
    ensures Starts(s.PlanOf(l), s.Input(l), s.HeldAtStart(l))
  {
    var cmd := s.CmdOf(l);
    var r1 := s.ring.Reserved(BOUND, cmd);
    var m := FindMatured(r1.slots, SCAN, l.fd);
    if m != -1 { assert r1.slots[m].ends == s.ring.slots[m].ends && s.EndsOld(s.ring.slots[m].ends); }
    if l.suffix.Some? && !s.ring.Fresh(BOUND, cmd) {
      assert s.EndsOld(s.ring.slots[s.ring.Find(BOUND, cmd)].ends);
    }
    if l.recv.Some? { assert s.FlagOld(l.recv.value, s.Me(l)); }
  }

  /** Wiring of any line, in closed form. */
  lemma ChildrenWired(s: Server, l: Line, i: nat)
    requires s.Sound() && s.LiveLine(l) && s.Runs(l) && i < l.stages
    ensures |s.Children(l)| == l.stages
    ensures s.Children(l)[i] == ChildOf(s.PlanOf(l), s.Input(l), s.HeldAtStart(l), i)
    ensures s.HeldThen(l) == HeldAtEnd(s.PlanOf(l), s.Input(l), s.HeldAtStart(l))
  {
    LineStarts(s, l);
    LoopWired(s.PlanOf(l), 0, s.Input(l), s.HeldAtStart(l));
  }

  /** The parent's ends after a line. */
  lemma HeldAfterLine(s: Server, l: Line)
    requires s.Sound() && s.LiveLine(l) && s.Runs(l)
    ensures var p := Pipe(s.line, l.stages - 1);
            s.HeldThen(l) == s.HeldAtStart(l) - {s.Input(l)}
                             + (if s.SelfDrop(l) then {} else {Rd(p)})
                             + (if l.suffix.Some? then {Wr(p)} else {})
  {
    ChildrenWired(s, l, 0);
  }

  /** End-of-file safety of any line, whatever ran before: every child inherits the read end it uses and
      no write end of that pipe exactly when the line's input is open, with its write end closed, and
      its pending output is open. */
  lemma ChildrenSafeIff(s: Server, l: Line)
    requires s.Sound() && s.LiveLine(l)
    ensures (forall c <- s.Children(l) :: Safe(c)) <==>
            !s.Runs(l) || GoodEnds(s.PlanOf(l), s.Input(l), s.HeldAtStart(l))
  {
    if s.Runs(l) {
      LineStarts(s, l);
      LoopSafe(s.PlanOf(l), s.Input(l), s.HeldAtStart(l));
    }
  }

  /** A pair that stays flagged keeps its pipe. */
  lemma FlagKept(s: Server, l: Line, a: int, b: int)
    requires s.Shape() && s.LiveLine(l) && Flagged(s.MatrixThen(l), a, b)
    ensures if s.Runs(l) && l.send == Some(b) && a == s.Me(l)
            then s.MatrixThen(l)[(a, b)].fd == Rd(Pipe(s.line, l.stages - 1))
            else Flagged(s.up, a, b) && s.MatrixThen(l)[(a, b)] == s.up[(a, b)]
    ensures !(s.Runs(l) && l.send == Some(b) && a == s.Me(l)) && l.recv.Some? && s.RecvOk(l) ==>
              (a, b) != (l.recv.value, s.Me(l))
  {
  }

  lemma FlagOldThen(s: Server, l: Line, a: int, b: int)
    requires s.Sound() && s.LiveLine(l)
    ensures s.Exec(l).Shape() && s.Exec(l).FlagOld(a, b)
  {
    ShapeKept(s, l);
    if Flagged(s.MatrixThen(l), a, b) {
      FlagKept(s, l, a, b);
      assert s.FlagOld(a, b);
      if s.Runs(l) && l.send == Some(b) && a == s.Me(l) { SenderInMatrix(s, l); }
    }
  }

  lemma FlagsDistinctThen(s: Server, l: Line, a: int, b: int, c: int, d: int)
    requires s.Sound() && s.LiveLine(l)
    requires Flagged(s.MatrixThen(l), a, b) && Flagged(s.MatrixThen(l), c, d) && (a, b) != (c, d)
    ensures s.MatrixThen(l)[(a, b)].fd != s.MatrixThen(l)[(c, d)].fd
  {
    FlagKept(s, l, a, b);
    FlagKept(s, l, c, d);
    assert s.FlagOld(a, b) && s.FlagOld(c, d);
  }

  lemma HeldOldThen(s: Server, l: Line)
    requires s.Sound() && s.LiveLine(l)
    ensures s.Exec(l).HeldOld()
  {
    if s.Runs(l) { HeldAfterLine(s, l); }
  }

  /** Every line, clean or not, keeps these facts. */
  lemma ExecKeepsSound(s: Server, l: Line)
    requires s.Sound() && s.LiveLine(l)
    ensures s.Exec(l).Sound()
  {
    var s' := s.Exec(l);
    ShapeKept(s, l);
    HeldOldThen(s, l);
    forall j | 0 <= j < MAX_PIPE_NUM ensures s'.EndsOld(s'.ring.slots[j].ends) {
      StepEnds(s.ring, BOUND, s.CmdOf(l), s.line, j);
      assert s.EndsOld(s.ring.slots[j].ends);
    }
    forall a, b ensures s'.FlagOld(a, b) { FlagOldThen(s, l, a, b); }
    forall a, b, c, d | Flagged(s'.up, a, b) && Flagged(s'.up, c, d) && (a, b) != (c, d)
      ensures s'.up[(a, b)].fd != s'.up[(c, d)].fd
    {
      FlagsDistinctThen(s, l, a, b, c, d);
    }
  }

  // --- clean lines ---

  /** In a good state every line's input and pending output are usable. */
  lemma EndsUsable(s: Server, l: Line)
    requires s.Good() && s.LiveLine(l) && s.Runs(l)
    ensures GoodEnds(s.PlanOf(l), s.Input(l), s.HeldAtStart(l))
  {
    var cmd := s.CmdOf(l);
    var m := MaturedEntry(s, l);
    if l.suffix.Some? && !s.ring.Fresh(BOUND, cmd) {
      var f := s.ring.Find(BOUND, cmd);
      assert s.EntryGood(s.ring.slots[f]) && s.EndsOld(s.ring.slots[f].ends);
      if m != -1 { assert s.ring.slots[f].ends != s.ring.slots[m].ends; }
    }
    if l.recv.Some? { assert s.FlagGood(l.recv.value, s.Me(l)); }
  }

  /** So every child of every line is safe, be its input an ordinary, a numbered or a user pipe. */
  lemma ChildrenSafe(s: Server, l: Line)
    requires s.Good() && s.LiveLine(l)
    ensures forall c <- s.Children(l) :: Safe(c)
  {
    ChildrenSafeIff(s, l);
    if s.Runs(l) { EndsUsable(s, l); }
  }

  /** The entry that matures, if any, and the input. */
  lemma MaturedEntry(s: Server, l: Line) returns (m: int)
    requires s.Good() && s.LiveLine(l) && s.Runs(l)
    ensures m == FindMatured(s.ring.Reserved(BOUND, s.CmdOf(l)).slots, SCAN, l.fd)
    ensures m == -1 <==> s.Matured(l).None?
    ensures m != -1 ==>
              && 0 <= m < SCAN && Matches(s.ring.slots[m], l.fd, 1) && s.EntryGood(s.ring.slots[m])
              && s.ring.slots[m].ends == PipeEnds(s.ring.slots[m].ends.inNum.pipe)
              && s.Matured(l).value == s.ring.slots[m].ends && s.Input(l) == s.ring.slots[m].ends.inNum
              && s.HeldAtStart(l) == s.held - {s.ring.slots[m].ends.outNum}
    ensures m == -1 ==> s.HeldAtStart(l) == s.held
    ensures m == -1 && s.Input(l) != Terminal ==>
              && l.recv.Some? && Flagged(s.up, l.recv.value, s.Me(l))
              && s.Input(l) == s.up[(l.recv.value, s.Me(l))].fd
  {
    var r1 := s.ring.Reserved(BOUND, s.CmdOf(l));
    m := FindMatured(r1.slots, SCAN, l.fd);
    if m != -1 {
      assert r1.slots[m] == s.ring.slots[m];
      assert s.EntryGood(s.ring.slots[m]) && s.EndsOld(s.ring.slots[m].ends);
    }
  }

  /** What the input is not: an end of any other live entry. */
  lemma InputApart(s: Server, l: Line, j: nat)
    requires s.Good() && s.LiveLine(l) && s.Runs(l) && j < MAX_PIPE_NUM
    requires s.ring.slots[j].count > 0 && !(j < SCAN && Matches(s.ring.slots[j], l.fd, 1))
    ensures s.EntryGood(s.ring.slots[j])
    ensures s.ring.slots[j].ends.inNum in s.HeldAtStart(l) - {s.Input(l)}
    ensures s.ring.slots[j].ends.outNum in s.HeldAtStart(l) - {s.Input(l)}
  {
    assert s.EntryGood(s.ring.slots[j]) && s.EndsOld(s.ring.slots[j].ends);
    var m := MaturedEntry(s, l);
    if m == -1 && s.Input(l) != Terminal { assert s.FlagGood(l.recv.value, s.Me(l)); }
  }

  lemma EntryStays(s: Server, l: Line, j: nat)
    requires s.Good() && s.LiveLine(l) && s.Runs(l) && j < MAX_PIPE_NUM
    requires !(s.ring.Fresh(BOUND, s.CmdOf(l)) && j == s.ring.pos)
    ensures s.Exec(l).Shape() && s.Exec(l).EntryGood(s.Exec(l).ring.slots[j])
  {
    var cmd, e := s.CmdOf(l), s.ring.slots[j];
    StepSlots(s.ring, BOUND, cmd, s.line);
    ShapeKept(s, l);
    HeldAfterLine(s, l);
    assert s.EntryGood(e) && s.EndsOld(e.ends);
    var m := MaturedEntry(s, l);
    if e.count > 0 && !(j < SCAN && Matches(e, l.fd, 1)) {
      InputApart(s, l, j);
    } else if e.count > 0 {
      MaturedIsUnique(s, l, j);
    }
  }

  lemma MaturedIsUnique(s: Server, l: Line, j: nat)
    requires s.Good() && s.LiveLine(l) && s.Runs(l) && j < SCAN
    requires !(s.ring.Fresh(BOUND, s.CmdOf(l)) && j == s.ring.pos)
    requires Matches(s.ring.slots[j], l.fd, 1)
    ensures FindMatured(s.ring.Reserved(BOUND, s.CmdOf(l)).slots, SCAN, l.fd) == j
  {
    var r1 := s.ring.Reserved(BOUND, s.CmdOf(l));
    var m := FindMatured(r1.slots, SCAN, l.fd);
    assert Matches(r1.slots[j], l.fd, 1);
    assert m != -1 && r1.slots[m] == s.ring.slots[m];
  }

  lemma FlagGoodThen(s: Server, l: Line, a: int, b: int)
    requires s.Good() && s.LiveLine(l) && s.Runs(l) && s.Clean(l)
    ensures s.Exec(l).FlagGood(a, b)
  {
    HeldAfterLine(s, l);
    if Flagged(s.MatrixThen(l), a, b) {
      FlagKept(s, l, a, b);
      assert s.FlagGood(a, b) && s.FlagOld(a, b);
      if l.send == Some(b) && a == s.Me(l) {
        assert Wr(Pipe(s.line, l.stages - 1)) !in s.held;
      } else {
        FlagStays(s, l, a, b);
      }
    }
  }

  /** The pipe of a pair that stays flagged is neither the input nor an end of the entry that matures. */
  lemma FlagStays(s: Server, l: Line, a: int, b: int)
    requires s.Good() && s.LiveLine(l) && s.Runs(l)
    requires Flagged(s.up, a, b) && (l.recv.Some? ==> (a, b) != (l.recv.value, s.Me(l)))
    ensures s.up[(a, b)].fd in s.HeldAtStart(l) - {s.Input(l)}
    ensures s.FlagGood(a, b) && Wr(s.up[(a, b)].fd.pipe) !in s.held
  {
    assert s.FlagGood(a, b);
    var m := MaturedEntry(s, l);
  }

  lemma EntriesDistinctThen(s: Server, l: Line, i: nat, j: nat)
    requires s.Good() && s.LiveLine(l) && i < j < MAX_PIPE_NUM && s.Exec(l).Shape()
    requires s.Clean(l) && s.Exec(l).ring.slots[i].count > 0 && s.Exec(l).ring.slots[j].count > 0
    ensures s.Exec(l).ring.slots[i].ends != s.Exec(l).ring.slots[j].ends
  {
    var cmd := s.CmdOf(l);
    StepSlots(s.ring, BOUND, cmd, s.line);
    StepEnds(s.ring, BOUND, cmd, s.line, i);
    StepEnds(s.ring, BOUND, cmd, s.line, j);
    assert s.EndsOld(s.ring.slots[i].ends) && s.EndsOld(s.ring.slots[j].ends);
  }

  lemma RunningKeepsEntries(s: Server, l: Line)
    requires s.Good() && s.LiveLine(l) && s.Runs(l) && s.Clean(l)
    ensures s.Exec(l).Shape() && s.Exec(l).EntriesGood()
  {
    var s', cmd := s.Exec(l), s.CmdOf(l);
    ShapeKept(s, l);
    StepSlots(s.ring, BOUND, cmd, s.line);
    StepUnique(s.ring, BOUND, cmd, s.line);
    forall j | 0 <= j < MAX_PIPE_NUM ensures s'.EntryGood(s'.ring.slots[j]) {
      if s.ring.Fresh(BOUND, cmd) && j == s.ring.pos {
        NewEntryGood(s, l);
      } else {
        EntryStays(s, l, j);
      }
    }
    forall i, j | 0 <= i < j < MAX_PIPE_NUM && s'.ring.slots[i].count > 0 && s'.ring.slots[j].count > 0
      ensures s'.ring.slots[i].ends != s'.ring.slots[j].ends
    {
      EntriesDistinctThen(s, l, i, j);
    }
  }

  lemma NewEntryGood(s: Server, l: Line)
    requires s.Good() && s.LiveLine(l) && s.Runs(l) && s.Clean(l) && s.ring.Fresh(BOUND, s.CmdOf(l))
    ensures s.Exec(l).Shape() && s.Exec(l).EntryGood(s.Exec(l).ring.slots[s.ring.pos])
  {
    ShapeKept(s, l);
    StepSlots(s.ring, BOUND, s.CmdOf(l), s.line);
    StepEnds(s.ring, BOUND, s.CmdOf(l), s.line, s.ring.pos);
    HeldAfterLine(s, l);
    assert !s.SelfDrop(l);
  }

  /** A clean line that runs keeps the invariant. */
  lemma RunningKeepsGood(s: Server, l: Line)
    requires s.Good() && s.LiveLine(l) && s.Runs(l) && s.Clean(l)
    ensures s.Exec(l).Good()
  {
    ExecKeepsSound(s, l);
    RunningKeepsEntries(s, l);
    forall a, b ensures s.Exec(l).FlagGood(a, b) { FlagGoodThen(s, l, a, b); }
  }

  lemma IdleKeepsEntries(s: Server, l: Line)
    requires s.Good() && s.LiveLine(l) && !s.Runs(l) && s.Clean(l)
    ensures s.Exec(l).Shape() && s.Exec(l).EntriesGood()
  {
    var s', cmd := s.Exec(l), s.CmdOf(l);
    ShapeKept(s, l);
    StepSlots(s.ring, BOUND, cmd, s.line);
    StepUnique(s.ring, BOUND, cmd, s.line);
    forall j | 0 <= j < MAX_PIPE_NUM ensures s'.EntryGood(s'.ring.slots[j]) {
      StepEnds(s.ring, BOUND, cmd, s.line, j);
      assert s.EntryGood(s.ring.slots[j]);
    }
    forall i, j | 0 <= i < j < MAX_PIPE_NUM && s'.ring.slots[i].count > 0 && s'.ring.slots[j].count > 0
      ensures s'.ring.slots[i].ends != s'.ring.slots[j].ends
    {
      StepEnds(s.ring, BOUND, cmd, s.line, i);
      StepEnds(s.ring, BOUND, cmd, s.line, j);
    }
  }

  /** So does a clean line that is rejected or a builtin. */
  lemma IdleKeepsGood(s: Server, l: Line)
    requires s.Good() && s.LiveLine(l) && !s.Runs(l) && s.Clean(l)
    ensures s.Exec(l).Good()
  {
    ExecKeepsSound(s, l);
    IdleKeepsEntries(s, l);
    forall a, b ensures s.Exec(l).FlagGood(a, b) { assert s.FlagGood(a, b); }
  }

  /** Making a dead entry live without running breaks it. */
  lemma PhantomBreaks(s: Server, l: Line)
    requires s.Good() && s.LiveLine(l) && s.ring.Fresh(BOUND, s.CmdOf(l))
    requires !s.Runs(l) && s.ring.slots[s.ring.pos].count <= 0
    ensures !s.Exec(l).Good()
  {
    var s' := s.Exec(l);
    ShapeKept(s, l);
    StepSlots(s.ring, BOUND, s.CmdOf(l), s.line);
    StepEnds(s.ring, BOUND, s.CmdOf(l), s.line, s.ring.pos);
    assert s.EntryGood(s.ring.slots[s.ring.pos]);
    assert !s'.EntryGood(s'.ring.slots[s.ring.pos]);
  }

  /** A user pipe that is also the pipe of a suffix keeps its write end in the server, so its reader
      would never see the end of file. */
  lemma SharedPipeBreaks(s: Server, l: Line)
    requires s.Good() && s.LiveLine(l) && s.Runs(l) && l.send.Some? && l.suffix.Some?
    requires s.ring.Fresh(BOUND, s.CmdOf(l)) || !s.SelfDrop(l)
    ensures !s.Exec(l).Good()
  {
    var s', p := s.Exec(l), Pipe(s.line, l.stages - 1);
    ShapeKept(s, l);
    StepSlots(s.ring, BOUND, s.CmdOf(l), s.line);
    HeldAfterLine(s, l);
    if s.SelfDrop(l) {
      StepEnds(s.ring, BOUND, s.CmdOf(l), s.line, s.ring.pos);
      assert !s'.EntryGood(s'.ring.slots[s.ring.pos]);
    } else {
      SenderInMatrix(s, l);
      assert Flagged(s'.up, s.Me(l), l.send.value);
      assert !s'.FlagGood(s.Me(l), l.send.value);
    }
  }

  /** One line keeps every descriptor invariant exactly when it is clean. */
  lemma ExecKeepsGoodIff(s: Server, l: Line)
    requires s.Good() && s.LiveLine(l)
    ensures s.Exec(l).Good() <==> s.Clean(l)
  {
    if s.Clean(l) {
      if s.Runs(l) { RunningKeepsGood(s, l); } else { IdleKeepsGood(s, l); }
    } else if s.ring.Fresh(BOUND, s.CmdOf(l)) && !s.Runs(l) && s.ring.slots[s.ring.pos].count <= 0 {
      PhantomBreaks(s, l);
    } else {
      SharedPipeBreaks(s, l);
    }
  }
}
