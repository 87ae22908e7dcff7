/** Whole runs of the countdown table against the schedule, and what holds of the table in every run. */
module RingRuns {
  import opened Descriptors
  import opened Schedule
  import opened CountdownRing

  /** The table as the program starts: zero-initialised. */
  function Initial(size: nat): Ring {
    Ring(seq(size, _ => Slot(Ends(Terminal, Terminal), 0, 0)), 0)
  }

  /** The table after the first n lines. */
  ghost function RingAfter(size: nat, bound: nat, cmds: seq<Cmd>, n: nat): (r: Ring)
    requires ValidRun(cmds) && n <= |cmds| && LAST < size && bound <= size
    ensures r.Shape() && |r.slots| == size
  {
    if n == 0 then Initial(size) else
      var r := RingAfter(size, bound, cmds, n - 1);
      StepSlots(r, bound, cmds[n - 1], n - 1);
      r.Step(bound, cmds[n - 1], n - 1)
  }

  lemma {:induction false} RingOfPrefix(size: nat, bound: nat, cmds: seq<Cmd>, more: seq<Cmd>, n: nat)
    requires ValidRun(cmds) && ValidRun(cmds + more) && n <= |cmds| && LAST < size && bound <= size
    ensures RingAfter(size, bound, cmds + more, n) == RingAfter(size, bound, cmds, n)
  {
    if n > 0 { RingOfPrefix(size, bound, cmds, more, n - 1); }
  }

  lemma RingExtended(size: nat, bound: nat, cmds: seq<Cmd>, cmd: Cmd)
    requires ValidRun(cmds) && cmd.Valid() && LAST < size && bound <= size
    ensures ValidRun(cmds + [cmd])
    ensures RingAfter(size, bound, cmds + [cmd], |cmds| + 1)
         == RingAfter(size, bound, cmds, |cmds|).Step(bound, cmd, |cmds|)
  {
    RingOfPrefix(size, bound, cmds, [cmd], |cmds|);
  }

  /** Over every run, whatever its lines: each scan has at most one entry to find. The aging scan,
      which keeps the last match, and the merge scan, which stops at the first, find the same. */
  lemma ScansAreUnambiguous(size: nat, bound: nat, cmds: seq<Cmd>, n: nat, i: nat, fd: nat, count: int)
    requires ValidRun(cmds) && n <= |cmds| && LAST < size && SCAN <= bound <= size
    requires i < SCAN && count > 0 && Matches(RingAfter(size, bound, cmds, n).slots[i], fd, count)
    ensures FindPending(RingAfter(size, bound, cmds, n).slots, 0, bound, fd, count) == i
    ensures count == 1 ==> FindMatured(RingAfter(size, bound, cmds, n).slots, SCAN, fd) == i
  {
    UniqueOverRuns(size, bound, cmds, n);
  }

  lemma {:induction false} UniqueOverRuns(size: nat, bound: nat, cmds: seq<Cmd>, n: nat)
    requires ValidRun(cmds) && n <= |cmds| && LAST < size && SCAN <= bound <= size
    ensures RingAfter(size, bound, cmds, n).Unique()
  {
    if n > 0 {
      UniqueOverRuns(size, bound, cmds, n - 1);
      var r := RingAfter(size, bound, cmds, n - 1);
      StepUnique(r, bound, cmds[n - 1], n - 1);
      assert RingAfter(size, bound, cmds, n) == r.Step(bound, cmds[n - 1], n - 1);
    }
  }

  ghost predicate GuardAt(size: nat, bound: nat, cmds: seq<Cmd>, i: nat)
    requires ValidRun(cmds) && i < |cmds| && LAST < size && bound <= size
  {
    RingAfter(size, bound, cmds, i).Guard(bound, cmds[i])
  }

  ghost predicate AgreesAt(size: nat, bound: nat, cmds: seq<Cmd>, i: nat)
    requires ValidRun(cmds) && i < |cmds| && LAST < size && bound <= size
  {
    Agrees(RingAfter(size, bound, cmds, i), After(cmds, i), bound, cmds[i])
  }

  ghost predicate Guarded(size: nat, bound: nat, cmds: seq<Cmd>, n: nat)
    requires ValidRun(cmds) && n <= |cmds| && LAST < size && bound <= size
  {
    forall i | 0 <= i < n :: GuardAt(size, bound, cmds, i)
  }

  ghost predicate Agreeing(size: nat, bound: nat, cmds: seq<Cmd>, n: nat)
    requires ValidRun(cmds) && n <= |cmds| && LAST < size && bound <= size
  {
    forall i | 0 <= i < n :: AgreesAt(size, bound, cmds, i)
  }

  /** Over any run: every line does what the reference asks exactly when every guard holds. */
  lemma {:induction false} RunRefinesIff(size: nat, bound: nat, cmds: seq<Cmd>, n: nat)
    requires ValidRun(cmds) && n <= |cmds| && LAST < size && SCAN <= bound <= size
    ensures Agreeing(size, bound, cmds, n) <==> Guarded(size, bound, cmds, n)
    ensures Guarded(size, bound, cmds, n) ==> RingAfter(size, bound, cmds, n).Rep(After(cmds, n))
  {
    if n > 0 {
      RunRefinesIff(size, bound, cmds, n - 1);
      LastLine(size, bound, cmds, n);
      if Guarded(size, bound, cmds, n - 1) { LineIff(size, bound, cmds, n - 1); }
    }
  }

  lemma LineIff(size: nat, bound: nat, cmds: seq<Cmd>, i: nat)
    requires ValidRun(cmds) && i < |cmds| && LAST < size && SCAN <= bound <= size
    requires RingAfter(size, bound, cmds, i).Rep(After(cmds, i))
    ensures AgreesAt(size, bound, cmds, i) <==> GuardAt(size, bound, cmds, i)
    ensures AgreesAt(size, bound, cmds, i) ==> RingAfter(size, bound, cmds, i + 1).Rep(After(cmds, i + 1))
  {
    AfterInv(cmds, i);
    RefinesIff(RingAfter(size, bound, cmds, i), After(cmds, i), bound, cmds[i]);
  }

  lemma LastLine(size: nat, bound: nat, cmds: seq<Cmd>, n: nat)
    requires ValidRun(cmds) && 0 < n <= |cmds| && LAST < size && bound <= size
    ensures Guarded(size, bound, cmds, n) <==>
            Guarded(size, bound, cmds, n - 1) && GuardAt(size, bound, cmds, n - 1)
    ensures Agreeing(size, bound, cmds, n) <==>
            Agreeing(size, bound, cmds, n - 1) && AgreesAt(size, bound, cmds, n - 1)
  {
  }

  // --- input-level conditions ---

  function Suffixes(cmds: seq<Cmd>, n: nat): nat
    requires n <= |cmds|
  {
    if n == 0 then 0 else Suffixes(cmds, n - 1) + if cmds[n - 1].suffix.Some? then 1 else 0
  }

  ghost predicate SuffixesRun(cmds: seq<Cmd>) {
    forall i :: 0 <= i < |cmds| && cmds[i].suffix.Some? ==> cmds[i].runs
  }

  /** The first thousand numbered lines, of however many clients, all meet the guard. */
  lemma {:induction false} FewSuffixesGuarded(size: nat, bound: nat, cmds: seq<Cmd>, n: nat)
    requires ValidRun(cmds) && SuffixesRun(cmds) && LAST < size && SCAN <= bound <= size
    requires n <= |cmds| && Suffixes(cmds, n) <= SCAN
    ensures Guarded(size, bound, cmds, n)
    ensures RingAfter(size, bound, cmds, n).pos <= Suffixes(cmds, n)
    ensures var r := RingAfter(size, bound, cmds, n);
            forall j :: r.pos <= j < size ==> r.slots[j].count <= 0
  {
    if n > 0 {
      FewSuffixesGuarded(size, bound, cmds, n - 1);
      StepSlots(RingAfter(size, bound, cmds, n - 1), bound, cmds[n - 1], n - 1);
    }
  }

  /** Lines of one client, none asking for more than `most` lines ahead. */
  ghost predicate OneClient(cmds: seq<Cmd>, fd: nat, most: nat) {
    && SuffixesRun(cmds)
    && forall i :: 0 <= i < |cmds| ==>
         cmds[i].fd == fd && (cmds[i].suffix.Some? ==> cmds[i].suffix.value <= most)
  }

  /** How many allocations ago entry j was taken, given the next position. */
  function AgeOf(pos: nat, j: nat): nat
    requires pos <= LAST && j <= LAST
  {
    if j < pos then pos - 1 - j else pos + LAST - j
  }

  /** Ring bound: with one client and every N <= 1000, the entry at `pos` that a new pipe overwrites
      is always dead (within the part of the table the aging scan reaches). */
  lemma {:induction false} OverwrittenIsDead(size: nat, bound: nat, cmds: seq<Cmd>, fd: nat, n: nat)
    requires ValidRun(cmds) && OneClient(cmds, fd, LAST) && LAST < size && SCAN <= bound <= size
    requires n <= |cmds|
    ensures var r := RingAfter(size, bound, cmds, n);
            && (r.pos < SCAN ==> r.slots[r.pos].count <= 0)
            && (forall j :: 0 <= j < SCAN ==>
                  && r.slots[j].count <= LAST - AgeOf(r.pos, j)
                  && (r.slots[j].count > 0 ==> r.slots[j].owner == fd))
  {
    if n > 0 {
      OverwrittenIsDead(size, bound, cmds, fd, n - 1);
      StepSlots(RingAfter(size, bound, cmds, n - 1), bound, cmds[n - 1], n - 1);
    }
  }

  /** `|0` (which is also how `a |b` without a blank is read) takes whatever ends the entry at `pos`
      last held, although nothing is due. */
  lemma ZeroReadsStale(size: nat, bound: nat, fd: nat)
    requires LAST < size && SCAN <= bound <= size && fd > 0
    ensures var cmd := Cmd(fd, Some(0), true, 1);
            && EMPTY.Reads(cmd).None?
            && Initial(size).Reads(bound, cmd) == Some(Ends(Terminal, Terminal))
  {
    var r := Initial(size).Reserve(fd, 0);
    assert Matches(r.slots[0], fd, 1);
  }

  /** A builtin that carries a suffix leaves a live countdown without a pipe; the next line that
      names the same command merges into a descriptor that is no pipe at all. */
  lemma BuiltinSuffixMergesStale(size: nat, bound: nat, fd: nat, n: nat)
    requires LAST < size && SCAN <= bound <= size && fd > 0 && n >= 1
    ensures var builtin, cmd := Cmd(fd, Some(n), false, 1), Cmd(fd, Some(n), true, 1);
            && Initial(size).Step(bound, builtin, 0).Shape()
            && Initial(size).Step(bound, builtin, 0).Writes(bound, cmd, 1) == Some(Terminal)
  {
    var r := Initial(size).Step(bound, Cmd(fd, Some(n), false, 1), 0);
    assert Matches(r.slots[0], fd, n + 1);
  }
}
