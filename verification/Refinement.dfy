/** The two implementations of numbered pipes do the same thing. The countdown table of project2 and
    the shifting list of project1 are run side by side on the same lines of one client. */
module Refinement {
  import opened Descriptors
  import opened Schedule
  import CR = CountdownRing
  import RR = RingRuns
  import SL = ShiftingList
  import opened RingHistory
  import opened RingSchedule

  ghost function ListAfter(cmds: seq<Cmd>, n: nat): SL.Stack
    requires ValidRun(cmds) && n <= |cmds|
  {
    if n == 0 then [] else SL.RunLine(ListAfter(cmds, n - 1), cmds[n - 1], n - 1).1
  }

  ghost predicate OneClient(cmds: seq<Cmd>, fd: nat) {
    forall i | 0 <= i < |cmds| :: cmds[i].fd == fd
  }

  ghost predicate ListGuardAt(cmds: seq<Cmd>, i: nat)
    requires ValidRun(cmds) && i < |cmds|
  {
    SL.Guard(ListAfter(cmds, i), cmds[i])
  }

  ghost predicate ListGuarded(cmds: seq<Cmd>, n: nat)
    requires ValidRun(cmds) && n <= |cmds|
  {
    forall i | 0 <= i < n :: ListGuardAt(cmds, i)
  }

  ghost predicate ListAgrees(cmds: seq<Cmd>, i: nat)
    requires ValidRun(cmds) && i < |cmds|
  {
    SL.Agrees(ListAfter(cmds, i), After(cmds, i), cmds[i])
  }

  ghost predicate ListAgreeing(cmds: seq<Cmd>, n: nat)
    requires ValidRun(cmds) && n <= |cmds|
  {
    forall i | 0 <= i < n :: ListAgrees(cmds, i)
  }

  /** Over any run of one client, every line of the list does what the reference asks exactly when
      no ordinary `|` ever meets an occupied slot behind the front. */
  lemma {:induction false} ListRunRefinesIff(cmds: seq<Cmd>, fd: nat, n: nat)
    requires ValidRun(cmds) && OneClient(cmds, fd) && n <= |cmds|
    ensures ListAgreeing(cmds, n) <==> ListGuarded(cmds, n)
    ensures ListGuarded(cmds, n) ==> SL.Rep(ListAfter(cmds, n), After(cmds, n), fd)
  {
    if n > 0 {
      ListRunRefinesIff(cmds, fd, n - 1);
      AfterInv(cmds, n - 1);
      LastLine(cmds, n);
      if ListGuarded(cmds, n - 1) { ListStepIff(cmds, fd, n - 1); }
    }
  }

  lemma LastLine(cmds: seq<Cmd>, n: nat)
    requires ValidRun(cmds) && 0 < n <= |cmds|
    ensures ListGuarded(cmds, n) <==> ListGuarded(cmds, n - 1) && ListGuardAt(cmds, n - 1)
    ensures ListAgreeing(cmds, n) <==> ListAgreeing(cmds, n - 1) && ListAgrees(cmds, n - 1)
  {
  }

  lemma ListStepIff(cmds: seq<Cmd>, fd: nat, i: nat)
    requires ValidRun(cmds) && OneClient(cmds, fd) && i < |cmds| && After(cmds, i).clock == i
    requires SL.Rep(ListAfter(cmds, i), After(cmds, i), fd)
    ensures ListAgrees(cmds, i) <==> ListGuardAt(cmds, i)
    ensures ListAgrees(cmds, i) ==> SL.Rep(ListAfter(cmds, i + 1), After(cmds, i + 1), fd)
  {
    SL.RefinesIff(ListAfter(cmds, i), After(cmds, i), cmds[i]);
  }

  /** What line i of the list takes as input, and what its last stage writes. */
  ghost function ListInput(cmds: seq<Cmd>, i: nat): Option<Pipe>
    requires ValidRun(cmds) && i < |cmds| && cmds[i].runs
  {
    SL.RunLine(ListAfter(cmds, i), cmds[i], i).0[0].input
  }

  ghost function ListOutput(cmds: seq<Cmd>, i: nat): Option<Pipe>
    requires ValidRun(cmds) && i < |cmds| && cmds[i].runs
  {
    SL.RunLine(ListAfter(cmds, i), cmds[i], i).0[cmds[i].stages - 1].output
  }

  /** Line i takes the same input in both. */
  ghost predicate SameInput(t: Trace, i: nat)
    requires t.Valid() && i < |t.cmds| && t.cmds[i].runs
  {
    t.At(i).Reads(t.bound, t.cmds[i]) == CR.ReadOf(ListInput(t.cmds, i))
  }

  /** Its last stage writes the same pipe in both. */
  ghost predicate SameOutput(t: Trace, i: nat)
    requires t.Valid() && i < |t.cmds| && t.cmds[i].runs
  {
    t.At(i).Writes(t.bound, t.cmds[i], i) == CR.WriteOf(ListOutput(t.cmds, i))
  }

  /** Nobody asking for the target of line i got entry 1000, or line i is the first to ask and takes one. */
  ghost predicate WritesSame(t: Trace, fd: nat, i: nat)
    requires t.Valid() && i < |t.cmds| && t.cmds[i].suffix.Some?
  {
    var key := Ahead(t, fd, i, t.cmds[i].suffix.value);
    Scanned(t, i + 1, key) || (key !in After(t.cmds, i).due && t.At(i).Fresh(t.bound, t.cmds[i]))
  }

  /** The command i places behind the next one. */
  ghost function Ahead(t: Trace, fd: nat, n: nat, i: nat): (nat, nat)
    requires n <= |t.cmds|
  {
    (fd, Index(t.cmds, fd, n) + i)
  }

  /** The relation between the two states: list index i is occupied by pipe p exactly when one entry of the
      client stands at i+1, and that entry holds the two ends of p. It leaves out the commands for which
      somebody got entry 1000. */
  ghost predicate Related(t: Trace, n: nat, stack: SL.Stack, fd: nat)
    requires t.Valid() && n <= |t.cmds|
  {
    && t.At(n).Unique()
    && (forall e | 0 <= e < CR.SCAN :: EntryListed(t, n, stack, fd, e))
    && (forall i: nat | SL.At(stack, i).Some? && Scanned(t, n, Ahead(t, fd, n, i)) :: HasEntry(t.At(n), fd, i))
  }

  ghost predicate EntryListed(t: Trace, n: nat, stack: SL.Stack, fd: nat, e: nat)
    requires t.Valid() && n <= |t.cmds| && e < t.size
  {
    var slot := t.At(n).slots[e];
    slot.count > 0 && slot.owner == fd && Scanned(t, n, Ahead(t, fd, n, slot.count - 1)) ==>
      var p := SL.At(stack, slot.count - 1);
      p.Some? && slot.ends == CR.PipeEnds(p.value)
  }

  ghost predicate HasEntry(r: CR.Ring, fd: nat, i: nat)
    requires r.Shape()
  {
    exists j :: 0 <= j < CR.SCAN && CR.Matches(r.slots[j], fd, i + 1)
  }

  lemma EntryIsListed(t: Trace, n: nat, stack: SL.Stack, fd: nat, e: nat)
    requires t.Valid() && n <= |t.cmds| && e < CR.SCAN && Spares(t, n) && SL.Rep(stack, After(t.cmds, n), fd)
    ensures EntryListed(t, n, stack, fd, e)
  {
    var slot := t.At(n).slots[e];
    if slot.count > 0 && slot.owner == fd && Scanned(t, n, Ahead(t, fd, n, slot.count - 1)) {
      AfterInv(t.cmds, n);
      EntryReady(t, e, n, Ahead(t, fd, n, slot.count - 1));
      assert SL.At(stack, slot.count - 1) == SL.DueAt(After(t.cmds, n), fd, slot.count - 1);
    }
  }

  lemma ListedHasEntry(t: Trace, n: nat, stack: SL.Stack, fd: nat, i: nat)
    requires t.Valid() && n <= |t.cmds| && Spares(t, n) && SL.Rep(stack, After(t.cmds, n), fd)
    requires SL.At(stack, i).Some? && Scanned(t, n, Ahead(t, fd, n, i))
    ensures HasEntry(t.At(n), fd, i)
  {
    AfterInv(t.cmds, n);
    assert SL.At(stack, i) == SL.DueAt(After(t.cmds, n), fd, i);
    var x := StandsReady(t, n, Ahead(t, fd, n, i));
  }

  lemma StatesRelate(t: Trace, n: nat, stack: SL.Stack, fd: nat)
    requires t.Valid() && n <= |t.cmds| && Spares(t, n) && SL.Rep(stack, After(t.cmds, n), fd)
    ensures Related(t, n, stack, fd)
  {
    RR.UniqueOverRuns(t.size, t.bound, t.cmds, n);
    forall e | 0 <= e < CR.SCAN ensures EntryListed(t, n, stack, fd, e) { EntryIsListed(t, n, stack, fd, e); }
    forall i: nat | SL.At(stack, i).Some? && Scanned(t, n, Ahead(t, fd, n, i)) ensures HasEntry(t.At(n), fd, i) {
      ListedHasEntry(t, n, stack, fd, i);
    }
  }

  /** The countdown table refines the shifting list, over runs of one client of any length (the table goes
      round the ring as often as it likes) with numbers up to 1000 and suffixes on running lines, in which no
      ordinary `|` meets an occupied slot. The states stay related; a line takes the same input in both
      exactly when nobody who asked for it got entry 1000; and it writes the same pipe in both exactly when
      nobody asking for its target did, or it is the first to ask and takes an entry. */
  lemma TableRefinesList(t: Trace, fd: nat, i: nat)
    requires t.Valid() && RR.OneClient(t.cmds, fd, CR.LAST) && ListGuarded(t.cmds, |t.cmds|) && i <= |t.cmds|
    ensures Related(t, i, ListAfter(t.cmds, i), fd)
    ensures i < |t.cmds| && t.cmds[i].runs ==> (SameInput(t, i) <==> Scanned(t, i, Ahead(t, fd, i, 0)))
    ensures i < |t.cmds| && t.cmds[i].runs ==>
              (SameOutput(t, i) <==> t.cmds[i].suffix.None? || WritesSame(t, fd, i))
  {
    OneClientSpares(t, fd);
    ListRunRefinesIff(t.cmds, fd, i);
    StatesRelate(t, i, ListAfter(t.cmds, i), fd);
    if i < |t.cmds| && t.cmds[i].runs {
      ListRunRefinesIff(t.cmds, fd, |t.cmds|);
      assert ListAgrees(t.cmds, i);
      InputRefines(t, fd, i);
      OutputRefines(t, fd, i);
    }
  }

  lemma ListIo(cmds: seq<Cmd>, i: nat)
    requires ValidRun(cmds) && i < |cmds| && cmds[i].runs && ListAgrees(cmds, i)
    ensures ListInput(cmds, i) == After(cmds, i).Reads(cmds[i]) && ListOutput(cmds, i) == After(cmds, i).Writes(cmds[i])
  {
    AfterInv(cmds, i);
  }

  lemma InputRefines(t: Trace, fd: nat, i: nat)
    requires t.Valid() && i < |t.cmds| && t.cmds[i].runs && t.cmds[i].fd == fd
    requires Spares(t, i + 1) && ListAgrees(t.cmds, i)
    ensures SameInput(t, i) <==> Scanned(t, i, Ahead(t, fd, i, 0))
  {
    ListIo(t.cmds, i);
    assert Ahead(t, fd, i, 0) == (fd, Index(t.cmds, fd, i));
    ReadsAsScheduledIff(t, i);
  }

  lemma OutputRefines(t: Trace, fd: nat, i: nat)
    requires t.Valid() && i < |t.cmds| && t.cmds[i].runs && t.cmds[i].fd == fd
    requires Spares(t, i + 1) && ListAgrees(t.cmds, i)
    ensures SameOutput(t, i) <==> t.cmds[i].suffix.None? || WritesSame(t, fd, i)
  {
    ListIo(t.cmds, i);
    if t.cmds[i].suffix.Some? { WritesAsScheduledIff(t, i, Ahead(t, fd, i, t.cmds[i].suffix.value)); }
  }

  /** The three lines `a |2`, `b | c`, `d` of one client. */
  function ConsumingLines(fd: nat): seq<Cmd> {
    [Cmd(fd, Some(2), true, 1), Cmd(fd, None, true, 2), Cmd(fd, None, true, 1)]
  }

  /** Run in npshell, `b | c` consumes the slot in which the pipe of `a` waits for `d`: `d` should read it
      and gets no input. */
  lemma ConsumedExample(fd: nat)
    ensures ValidRun(ConsumingLines(fd))
    ensures var cmds := ConsumingLines(fd);
            && After(cmds, 2).Reads(cmds[2]) == Some(Pipe(0, 0))
            && SL.RunLine(ListAfter(cmds, 2), cmds[2], 2).0[0].input.None?
  {
    var cmds, p := ConsumingLines(fd), Some(Pipe(0, 0));
    WritesFiled(cmds, 0);
    DueGrows(cmds, 1, 2);
    AfterInv(cmds, 2);
    assert Index(cmds, fd, 1) == 1 && Index(cmds, fd, 2) == 2;
    var empty: SL.Stack := [];
    assert SL.Padded([None], 2) == [None, None] && SL.Padded(empty, 2) == SL.Padded([None], 2);
    assert SL.Place(SL.Tail(empty), 2, Pipe(0, 0)) == [None, p];
    assert ListAfter(cmds, 0) == empty;
    assert ListAfter(cmds, 1) == [None, p];
    var behind: SL.Stack := [p];
    assert SL.Tail([None, p]) == behind && SL.Link(behind, Pipe(1, 0)) == behind;
    assert SL.RunStages(behind, 1, 1, 2, None).1 == SL.Tail(behind) == empty;
    assert SL.RunStages([None, p], 1, 0, 2, None).1 == empty;
    assert ListAfter(cmds, 2) == empty;
  }
}
