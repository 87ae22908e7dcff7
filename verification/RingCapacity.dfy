/** The exact capacity of the ring, and what becomes of entry 1000, which the aging scan never reaches. */
module RingCapacity {
  import opened Descriptors
  import opened Schedule
  import opened CountdownRing
  import opened RingRuns
  import opened RingHistory

  /** The same line `|N`, over and over. */
  function Uniform(fd: nat, n: nat, m: nat): seq<Cmd> {
    seq(m, _ => Cmd(fd, Some(n), true, 1))
  }

  /** After k such lines each has taken a new entry, and the entry of line j has aged since. */
  ghost predicate UniformTable(r: Ring, fd: nat, n: nat, k: nat) {
    && r.Shape() && k <= LAST + 1 && r.pos == (if k == LAST + 1 then 0 else k)
    && (forall j :: 0 <= j < k && j < SCAN ==> r.slots[j] == Slot(PipeEnds(Pipe(j, 0)), n - (k - 1 - j), fd))
    && (k == LAST + 1 ==> r.slots[LAST] == Slot(PipeEnds(Pipe(LAST, 0)), n + 1, fd))
    && (forall j :: k <= j < |r.slots| ==> r.slots[j].count <= 0)
  }

  lemma UniformStep(r: Ring, bound: nat, fd: nat, n: nat, k: nat)
    requires UniformTable(r, fd, n, k) && SCAN <= bound <= |r.slots| && n >= 1 && k <= LAST
    ensures UniformTable(r.Step(bound, Cmd(fd, Some(n), true, 1), k), fd, n, k + 1)
  {
    StepSlots(r, bound, Cmd(fd, Some(n), true, 1), k);
    StepEnds(r, bound, Cmd(fd, Some(n), true, 1), k, r.pos);
  }

  lemma {:induction false} UniformState(size: nat, bound: nat, fd: nat, n: nat, m: nat, k: nat)
    requires LAST < size && SCAN <= bound <= size && n >= 1 && k <= m && k <= LAST + 1
    ensures ValidRun(Uniform(fd, n, m))
    ensures UniformTable(RingAfter(size, bound, Uniform(fd, n, m), k), fd, n, k)
  {
    if k > 0 {
      UniformState(size, bound, fd, n, m, k - 1);
      UniformStep(RingAfter(size, bound, Uniform(fd, n, m), k - 1), bound, fd, n, k - 1);
    }
  }

  // --- capacity ---

  /** A thousand and one lines `|N`, then `|N+1`, then more lines `|N`. */
  function Crowded(fd: nat, n: nat, m: nat): seq<Cmd> {
    Uniform(fd, n, LAST + 1) + ([Cmd(fd, Some(n + 1), true, 1)] + Uniform(fd, n, m))
  }

  lemma {:induction false} CrowdedIndex(fd: nat, n: nat, m: nat, k: nat)
    requires k <= |Crowded(fd, n, m)|
    ensures Index(Crowded(fd, n, m), fd, k) == k && Suffixes(Crowded(fd, n, m), k) == k
  {
    if k > 0 { CrowdedIndex(fd, n, m, k - 1); }
  }

  /** The first of these lines takes entry 0, and so does the 1002nd. */
  lemma CrowdedTakes(t: Trace, fd: nat, n: nat, m: nat)
    requires t.Valid() && t.cmds == Crowded(fd, n, m) && n >= 1
    ensures t.Fills(0, 0) && t.Fills(LAST + 1, 0)
  {
    var first := Uniform(fd, n, LAST + 1);
    var rest := [Cmd(fd, Some(n + 1), true, 1)] + Uniform(fd, n, m);
    UniformState(t.size, t.bound, fd, n, LAST + 1, 0);
    UniformState(t.size, t.bound, fd, n, LAST + 1, LAST + 1);
    RingOfPrefix(t.size, t.bound, first, rest, 0);
    RingOfPrefix(t.size, t.bound, first, rest, LAST + 1);
    assert t.cmds[0] == Cmd(fd, Some(n), true, 1) && t.cmds[LAST + 1] == Cmd(fd, Some(n + 1), true, 1);
    assert UniformTable(t.At(0), fd, n, 0) && UniformTable(t.At(LAST + 1), fd, n, LAST + 1);
  }

  /** The bound is exact: in this run the first pipe reaches the command it was made for if and only if N is
      at most 1000; with a larger N its entry is taken again while it waits. */
  lemma CapacityIff(t: Trace, fd: nat, n: nat, m: nat)
    requires t.Valid() && t.cmds == Crowded(fd, n, m) && n >= 1 && n < |t.cmds|
    ensures t.At(n).Reads(t.bound, t.cmds[n]) == Some(PipeEnds(Pipe(0, 0))) <==> n <= LAST
  {
    CrowdedTakes(t, fd, n, m);
    CrowdedIndex(fd, n, m, 0);
    CrowdedIndex(fd, n, m, 1);
    CrowdedIndex(fd, n, m, n);
    CrowdedIndex(fd, n, m, n + 1);
    if n <= LAST { RoomDelivers(t, 0, 0, n); } else { RetakenIsLost(t, 0, 0, LAST + 1, n); }
  }

  // --- entry 1000 ---

  /** np_single_proc's merge scan reaches entry 1000, whose countdown never moves. */
  ghost predicate Stuck(r: Ring, fd: nat) {
    && r.Shape() && r.slots[LAST] == Slot(PipeEnds(Pipe(LAST, 0)), 2, fd)
    && forall j | 0 <= j < SCAN :: r.slots[j].count <= 0
  }

  lemma StuckStep(r: Ring, bound: nat, fd: nat, clock: nat)
    requires Stuck(r, fd) && LAST < bound <= |r.slots|
    ensures var cmd := Cmd(fd, Some(1), true, 1);
            && !r.Fresh(bound, cmd) && r.Find(bound, cmd) == LAST && r.Reads(bound, cmd).None?
            && Stuck(r.Step(bound, cmd, clock), fd)
  {
    var cmd := Cmd(fd, Some(1), true, 1);
    assert Matches(r.slots[LAST], fd, 2);
    StepSlots(r, bound, cmd, clock);
  }

  lemma {:induction false} StuckState(size: nat, bound: nat, fd: nat, m: nat, k: nat)
    requires LAST < bound <= size && LAST < k <= m
    ensures ValidRun(Uniform(fd, 1, m)) && Stuck(RingAfter(size, bound, Uniform(fd, 1, m), k), fd)
  {
    if k == LAST + 1 {
      UniformState(size, bound, fd, 1, m, k);
    } else {
      StuckState(size, bound, fd, m, k - 1);
      StuckStep(RingAfter(size, bound, Uniform(fd, 1, m), k - 1), bound, fd, k - 1);
    }
  }

  /** Where the merge scan reaches entry 1000: after a thousand and one lines `|1` every further one joins
      the pipe in that entry, for ever, and none of them has any input, although one is due. */
  lemma LastEntryForever(size: nat, bound: nat, fd: nat, m: nat, k: nat)
    requires LAST < bound <= size && LAST < k < m
    ensures ValidRun(Uniform(fd, 1, m))
    ensures var cmds, r := Uniform(fd, 1, m), RingAfter(size, bound, Uniform(fd, 1, m), k);
            && r.Writes(bound, cmds[k], k) == Some(Wr(Pipe(LAST, 0)))
            && r.Reads(bound, cmds[k]).None?
            && After(cmds, k).Reads(cmds[k]) == Some(Pipe(k - 1, 0))
  {
    StuckState(size, bound, fd, m, k);
    StuckStep(RingAfter(size, bound, Uniform(fd, 1, m), k), bound, fd, k);
    UniformDue(fd, m, k);
  }

  /** What the schedule asks of such lines: each reads the pipe of the line before it. */
  lemma {:induction false} UniformDue(fd: nat, m: nat, k: nat)
    requires k < m
    ensures ValidRun(Uniform(fd, 1, m))
    ensures After(Uniform(fd, 1, m), k).Done(fd) == k && After(Uniform(fd, 1, m), k).clock == k
    ensures forall x <- After(Uniform(fd, 1, m), k).due :: x.1 <= k
    ensures After(Uniform(fd, 1, m), k).Reads(Uniform(fd, 1, m)[k]) == if k == 0 then None else Some(Pipe(k - 1, 0))
  {
    if k > 0 { UniformDue(fd, m, k - 1); }
  }

  /** np_simple's merge scan stops short of entry 1000. After k lines `|1`, only the entry of the last one
      waits. */
  ghost predicate TurnTable(r: Ring, fd: nat, k: nat) {
    && r.Shape() && (r.pos > 0 ==> k > 0)
    && forall j | 0 <= j < SCAN ::
         if j == r.pos - 1 then r.slots[j] == Slot(PipeEnds(Pipe(k - 1, 0)), 1, fd) else r.slots[j].count <= 0
  }

  lemma TurnStep(r: Ring, fd: nat, k: nat)
    requires TurnTable(r, fd, k)
    ensures var cmd := Cmd(fd, Some(1), true, 1);
            && r.Fresh(SCAN, cmd) && TurnTable(r.Step(SCAN, cmd, k), fd, k + 1)
            && r.Step(SCAN, cmd, k).pos == if r.pos == LAST then 0 else r.pos + 1
  {
    var cmd := Cmd(fd, Some(1), true, 1);
    StepSlots(r, SCAN, cmd, k);
    PosNext(r, SCAN, cmd, k);
  }

  lemma TurnReads(r: Ring, fd: nat, k: nat)
    requires TurnTable(r, fd, k)
    ensures r.Reads(SCAN, Cmd(fd, Some(1), true, 1)) == if r.pos == 0 then None else Some(PipeEnds(Pipe(k - 1, 0)))
  {
    var r1 := r.Reserved(SCAN, Cmd(fd, Some(1), true, 1));
    TurnStep(r, fd, k);
    if r.pos > 0 { assert Matches(r1.slots[r.pos - 1], fd, 1); }
  }

  lemma {:induction false} TurnState(size: nat, fd: nat, m: nat, k: nat)
    requires LAST < size && k <= m
    ensures ValidRun(Uniform(fd, 1, m)) && TurnTable(RingAfter(size, SCAN, Uniform(fd, 1, m), k), fd, k)
    ensures RingAfter(size, SCAN, Uniform(fd, 1, m), k).pos == k % (LAST + 1)
  {
    if k > 0 {
      TurnState(size, fd, m, k - 1);
      TurnStep(RingAfter(size, SCAN, Uniform(fd, 1, m), k - 1), fd, k - 1);
      OneOn(k - 1);
    }
  }

  /** Where it does not: of these lines one in every 1001 has no input, and all others read the pipe of the
      line before them. */
  lemma TurnLosesOne(size: nat, fd: nat, m: nat, k: nat)
    requires LAST < size && k < m
    ensures ValidRun(Uniform(fd, 1, m))
    ensures RingAfter(size, SCAN, Uniform(fd, 1, m), k).Reads(SCAN, Uniform(fd, 1, m)[k])
         == if k % (LAST + 1) == 0 then None else Some(PipeEnds(Pipe(k - 1, 0)))
  {
    TurnState(size, fd, m, k);
    TurnReads(RingAfter(size, SCAN, Uniform(fd, 1, m), k), fd, k);
  }
}
