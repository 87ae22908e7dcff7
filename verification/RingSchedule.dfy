/** The countdown table against the schedule, beyond the first turn of the ring: as long as no live entry is
    overwritten, a command reads what the schedule says exactly when nobody who asked for it got entry 1000. */
module RingSchedule {
  import opened Descriptors
  import opened Schedule
  import opened CountdownRing
  import opened RingRuns
  import opened RingHistory

  /** A line needs a new entry only if it runs, and overwrites no entry that is waiting. */
  ghost predicate SparesAt(t: Trace, q: nat)
    requires t.Valid() && q < |t.cmds|
  {
    var r := t.At(q);
    r.Fresh(t.bound, t.cmds[q]) ==> t.cmds[q].runs && (r.pos < SCAN ==> r.slots[r.pos].count <= 0)
  }

  ghost predicate Spares(t: Trace, n: nat)
    requires t.Valid() && n <= |t.cmds|
  {
    forall q | 0 <= q < n :: SparesAt(t, q)
  }

  /** Line i runs and asks for the given command. */
  ghost predicate AsksFor(t: Trace, i: nat, key: (nat, nat))
    requires i < |t.cmds|
  {
    && t.cmds[i].runs && t.cmds[i].suffix.Some?
    && (t.cmds[i].fd, Index(t.cmds, t.cmds[i].fd, i) + t.cmds[i].suffix.value) == key
  }

  /** None of the lines that asked for the command got an entry that the aging scan does not reach. */
  ghost predicate Scanned(t: Trace, n: nat, key: (nat, nat))
    requires t.Valid() && n <= |t.cmds|
  {
    forall i | 0 <= i < n && AsksFor(t, i, key) :: t.Entry(i) < SCAN
  }

  lemma AskedIsDue(t: Trace, i: nat, n: nat, key: (nat, nat))
    requires t.Valid() && i < n <= |t.cmds| && AsksFor(t, i, key)
    ensures key in After(t.cmds, n).due
  {
    WritesFiled(t.cmds, i);
    DueGrows(t.cmds, i + 1, n);
  }

  lemma StillWaits(t: Trace, k: nat, e: nat, n: nat, key: (nat, nat))
    requires t.Valid() && k < n <= |t.cmds| && t.Fills(k, e) && e < SCAN && t.Untaken(e, k + 1, n) && AsksFor(t, k, key)
    ensures t.At(n).slots[e].owner == key.0
    ensures t.At(n).slots[e].count == key.1 - Index(t.cmds, key.0, n) + 1
  {
    TakerIs(t, e, k, n);
    CountIs(t, e, n);
  }

  /** While its command is still to come, nobody takes the entry of a pipe. */
  lemma {:induction false} EntryKept(t: Trace, k: nat, e: nat, n: nat, key: (nat, nat))
    requires t.Valid() && k < n <= |t.cmds| && t.Fills(k, e) && e < SCAN && Spares(t, n) && AsksFor(t, k, key)
    requires Index(t.cmds, key.0, n - 1) <= key.1
    ensures t.Untaken(e, k + 1, n)
  {
    if k + 1 < n {
      IndexMonotone(t.cmds, key.0, n - 2, n - 1);
      EntryKept(t, k, e, n - 1, key);
      StillWaits(t, k, e, n - 1, key);
      assert SparesAt(t, n - 1);
    }
  }

  lemma StandsFor(t: Trace, e: nat, n: nat, key: (nat, nat)) returns (k: nat)
    requires t.Valid() && n <= |t.cmds| && e < SCAN && key.1 >= Index(t.cmds, key.0, n)
    requires Matches(t.At(n).slots[e], key.0, key.1 - Index(t.cmds, key.0, n) + 1)
    ensures t.Taker(e, n) == Some(k) && t.Takes(k, e) && k < n
    ensures t.cmds[k].runs ==> AsksFor(t, k, key)
  {
    CountIs(t, e, n);
    k := t.Taker(e, n).value;
  }

  lemma TakerRuns(t: Trace, e: nat, k: nat, n: nat)
    requires t.Valid() && k < n <= |t.cmds| && Spares(t, n) && t.Takes(k, e)
    ensures t.cmds[k].runs
  {
    assert SparesAt(t, k);
  }

  /** Entries that somebody joins, or that come due, were taken for that command by a line that runs. */
  lemma TakerAsked(t: Trace, e: nat, n: nat, key: (nat, nat))
    requires t.Valid() && n <= |t.cmds| && e < SCAN && Spares(t, n) && key.1 >= Index(t.cmds, key.0, n)
    requires Matches(t.At(n).slots[e], key.0, key.1 - Index(t.cmds, key.0, n) + 1)
    ensures key in After(t.cmds, n).due
    ensures t.Taker(e, n).Some? && AsksFor(t, t.Taker(e, n).value, key)
  {
    var k := StandsFor(t, e, n, key);
    TakerRuns(t, e, k, n);
    AskedIsDue(t, k, n, key);
  }

  /** The line whose pipe is due at a command is the first that asked for it; unless it joined an entry out of
      reach, it took an entry of its own. */
  lemma FirstAsked(t: Trace, n: nat, key: (nat, nat)) returns (k: nat)
    requires t.Valid() && n <= |t.cmds| && Spares(t, n) && key in After(t.cmds, n).due
    ensures k < n && AsksFor(t, k, key) && After(t.cmds, n).due[key] == t.PipeOf(k)
    ensures key !in After(t.cmds, k).due
    ensures t.Entry(k) < SCAN ==> t.Fills(k, t.Entry(k))
  {
    DueOrigin(t.cmds, n, key);
    k := After(t.cmds, n).due[key].line;
    AfterInv(t.cmds, k);
    if t.Entry(k) < SCAN && !t.At(k).Fresh(t.bound, t.cmds[k]) { TakerAsked(t, t.Entry(k), k, key); }
  }

  /** The entry of a pipe that is still due: it stands at the right count and holds the pipe. */
  lemma StandsReady(t: Trace, n: nat, key: (nat, nat)) returns (e: nat)
    requires t.Valid() && n <= |t.cmds| && Spares(t, n) && key in After(t.cmds, n).due
    requires key.1 >= Index(t.cmds, key.0, n) && Scanned(t, n, key)
    ensures e < SCAN && Matches(t.At(n).slots[e], key.0, key.1 - Index(t.cmds, key.0, n) + 1)
    ensures t.At(n).slots[e].ends == PipeEnds(After(t.cmds, n).due[key])
  {
    var k := FirstAsked(t, n, key);
    e := t.Entry(k);
    IndexMonotone(t.cmds, key.0, n - 1, n);
    EntryKept(t, k, e, n, key);
    StillWaits(t, k, e, n, key);
    FillerIs(t, e, k, n);
    EndsAre(t, e, n);
  }

  /** So whatever entry stands at that count holds that pipe. */
  lemma EntryReady(t: Trace, e: nat, n: nat, key: (nat, nat))
    requires t.Valid() && n <= |t.cmds| && e < SCAN && Spares(t, n) && key.1 >= Index(t.cmds, key.0, n)
    requires Matches(t.At(n).slots[e], key.0, key.1 - Index(t.cmds, key.0, n) + 1) && Scanned(t, n, key)
    ensures key in After(t.cmds, n).due && t.At(n).slots[e].ends == PipeEnds(After(t.cmds, n).due[key])
  {
    TakerAsked(t, e, n, key);
    var x := StandsReady(t, n, key);
    UniqueOverRuns(t.size, t.bound, t.cmds, n);
    assert x == e;
  }

  /** A pipe is read only out of a scanned entry that its own line filled. */
  lemma ReadIsFilled(t: Trace, k: nat, j: nat) returns (e: nat)
    requires t.Valid() && k < |t.cmds| && j < |t.cmds| && t.cmds[j].runs
    requires t.At(j).Reads(t.bound, t.cmds[j]) == Some(PipeEnds(t.PipeOf(k)))
    ensures e < SCAN && t.Fills(k, e)
  {
    ReadsIff(t, j);
    e :| e < SCAN && t.Matures(e, j);
    assert t.Filler(e, j) == Some(k);
  }

  /** Later lines that ask for the same command join the same entry. */
  lemma JoinsFirst(t: Trace, k: nat, i: nat, key: (nat, nat))
    requires t.Valid() && k < i < |t.cmds| && Spares(t, i) && AsksFor(t, k, key) && AsksFor(t, i, key)
    requires t.Entry(k) < SCAN && t.Fills(k, t.Entry(k))
    ensures t.Entry(i) == t.Entry(k) && !t.At(i).Fresh(t.bound, t.cmds[i]) && t.Untaken(t.Entry(k), k + 1, i + 1)
  {
    var e := t.Entry(k);
    IndexMonotone(t.cmds, key.0, i - 1, i);
    EntryKept(t, k, e, i, key);
    TakerIs(t, e, k, i);
    StandsIff(t, e, i, key.0, t.cmds[i].suffix.value + 1);
    UniqueOverRuns(t.size, t.bound, t.cmds, i);
  }

  /** If the first to ask got a scanned entry, so did everybody. */
  lemma ScannedIff(t: Trace, n: nat, key: (nat, nat), k: nat)
    requires t.Valid() && k < n <= |t.cmds| && Spares(t, n) && AsksFor(t, k, key) && key !in After(t.cmds, k).due
    requires t.Entry(k) < SCAN ==> t.Fills(k, t.Entry(k))
    ensures Scanned(t, n, key) <==> t.Entry(k) < SCAN
  {
    if t.Entry(k) < SCAN {
      forall i | 0 <= i < n && AsksFor(t, i, key) ensures t.Entry(i) < SCAN {
        if i < k { AskedIsDue(t, i, k, key); }
        if k < i { JoinsFirst(t, k, i, key); }
      }
    }
  }

  /** Over every run that overwrites no waiting entry, however often the ring turns: a command reads what the
      schedule says exactly when none of the lines that asked for it got entry 1000. */
  lemma ReadsAsScheduledIff(t: Trace, j: nat)
    requires t.Valid() && j < |t.cmds| && t.cmds[j].runs && Spares(t, j + 1)
    ensures t.At(j).Reads(t.bound, t.cmds[j]) == ReadOf(After(t.cmds, j).Reads(t.cmds[j])) <==>
            Scanned(t, j, (t.cmds[j].fd, Index(t.cmds, t.cmds[j].fd, j)))
  {
    var key := (t.cmds[j].fd, Index(t.cmds, t.cmds[j].fd, j));
    AfterInv(t.cmds, j);
    if key in After(t.cmds, j).due {
      var k := FirstAsked(t, j, key);
      ScannedIff(t, j, key, k);
      if t.Entry(k) < SCAN {
        FirstDelivers(t, k, j, key);
      } else if t.At(j).Reads(t.bound, t.cmds[j]) == Some(PipeEnds(t.PipeOf(k))) {
        var e := ReadIsFilled(t, k, j);
      }
    } else {
      NotDueNotRead(t, j, key);
    }
  }

  lemma FirstDelivers(t: Trace, k: nat, j: nat, key: (nat, nat))
    requires t.Valid() && k < j < |t.cmds| && t.cmds[j].runs && Spares(t, j + 1) && AsksFor(t, k, key)
    requires key == (t.cmds[j].fd, Index(t.cmds, t.cmds[j].fd, j))
    requires t.Entry(k) < SCAN && t.Fills(k, t.Entry(k))
    ensures t.At(j).Reads(t.bound, t.cmds[j]) == Some(PipeEnds(t.PipeOf(k)))
  {
    EntryKept(t, k, t.Entry(k), j + 1, key);
    TableDelivers(t, k, t.Entry(k), k, j);
  }

  lemma MaturesAsked(t: Trace, e: nat, j: nat, key: (nat, nat))
    requires t.Valid() && j < |t.cmds| && Spares(t, j) && e < SCAN && t.Matures(e, j)
    requires key == (t.cmds[j].fd, Index(t.cmds, t.cmds[j].fd, j))
    ensures key in After(t.cmds, j).due
  {
    StandsIff(t, e, j, key.0, 1);
    TakerAsked(t, e, j, key);
  }

  lemma NotDueNotRead(t: Trace, j: nat, key: (nat, nat))
    requires t.Valid() && j < |t.cmds| && t.cmds[j].runs && Spares(t, j + 1)
    requires key == (t.cmds[j].fd, Index(t.cmds, t.cmds[j].fd, j)) && key !in After(t.cmds, j).due
    ensures t.At(j).Reads(t.bound, t.cmds[j]).None? && Scanned(t, j, key)
  {
    ReadsIff(t, j);
    forall i | 0 <= i < j ensures !AsksFor(t, i, key) {
      if AsksFor(t, i, key) { AskedIsDue(t, i, j, key); }
    }
    forall e: nat | e < SCAN ensures !t.Matures(e, j) {
      if t.Matures(e, j) { MaturesAsked(t, e, j, key); }
    }
  }

  /** And a line writes what the schedule says exactly when none of those asking for its target, itself
      included, got entry 1000, or it is itself the first to ask and takes an entry, whichever. */
  lemma WritesAsScheduledIff(t: Trace, i: nat, key: (nat, nat))
    requires t.Valid() && i < |t.cmds| && Spares(t, i + 1) && AsksFor(t, i, key)
    ensures t.At(i).Writes(t.bound, t.cmds[i], i) == WriteOf(After(t.cmds, i).Writes(t.cmds[i])) <==>
            Scanned(t, i + 1, key) || (key !in After(t.cmds, i).due && t.At(i).Fresh(t.bound, t.cmds[i]))
  {
    ScheduledWrites(t, i, key);
    if key in After(t.cmds, i).due {
      LaterWrites(t, i, key);
    } else {
      FirstWrites(t, i, key);
    }
  }

  lemma ScheduledWrites(t: Trace, i: nat, key: (nat, nat))
    requires t.Valid() && i < |t.cmds| && AsksFor(t, i, key)
    ensures var s := After(t.cmds, i);
            s.Writes(t.cmds[i]) == Some(if key in s.due then s.due[key] else t.PipeOf(i))
  {
    AfterInv(t.cmds, i);
  }

  lemma LaterWrites(t: Trace, i: nat, key: (nat, nat))
    requires t.Valid() && i < |t.cmds| && Spares(t, i + 1) && AsksFor(t, i, key) && key in After(t.cmds, i).due
    ensures t.At(i).Writes(t.bound, t.cmds[i], i) == Some(Wr(After(t.cmds, i).due[key])) <==> Scanned(t, i + 1, key)
  {
    var k := FirstAsked(t, i, key);
    ScannedIff(t, i + 1, key, k);
    if t.Entry(k) < SCAN {
      JoinsFirst(t, k, i, key);
      WritesFiller(t, k, t.Entry(k), i);
    } else {
      NeverJoined(t, k, i, key);
    }
  }

  lemma FirstWrites(t: Trace, i: nat, key: (nat, nat))
    requires t.Valid() && i < |t.cmds| && Spares(t, i + 1) && AsksFor(t, i, key) && key !in After(t.cmds, i).due
    ensures t.At(i).Writes(t.bound, t.cmds[i], i) == Some(Wr(t.PipeOf(i))) <==> t.At(i).Fresh(t.bound, t.cmds[i])
    ensures Scanned(t, i + 1, key) ==> t.At(i).Fresh(t.bound, t.cmds[i])
  {
    if !t.At(i).Fresh(t.bound, t.cmds[i]) {
      EndsAre(t, t.Entry(i), i);
      if t.Entry(i) < SCAN { TakerAsked(t, t.Entry(i), i, key); }
    }
  }

  /** If the first to ask got entry 1000, or joined it, nobody else writes its pipe. */
  lemma NeverJoined(t: Trace, k: nat, i: nat, key: (nat, nat))
    requires t.Valid() && k < i < |t.cmds| && Spares(t, i) && AsksFor(t, k, key) && AsksFor(t, i, key)
    requires t.Entry(k) >= SCAN
    ensures t.At(i).Writes(t.bound, t.cmds[i], i) != Some(Wr(t.PipeOf(k)))
  {
    if !t.At(i).Fresh(t.bound, t.cmds[i]) {
      var e := t.Entry(i);
      EndsAre(t, e, i);
      if t.Filler(e, i) == Some(k) {
        FillerUpToTaker(t, e, i);
        TakerRuns(t, e, t.Taker(e, i).value, i);
        CountFrozen(t, e, i);
        IndexMonotone(t.cmds, key.0, k, i);
      }
    }
  }

  // --- when no waiting entry is overwritten ---

  /** One client, numbers up to 1000, suffixes only on lines that run: never. */
  lemma OneClientSpares(t: Trace, fd: nat)
    requires t.Valid() && OneClient(t.cmds, fd, LAST)
    ensures Spares(t, |t.cmds|)
  {
    forall q | 0 <= q < |t.cmds| ensures SparesAt(t, q) {
      OverwrittenIsDead(t.size, t.bound, t.cmds, fd, q);
    }
  }

  // --- the whole relation ---

  /** Whether line n needs a new entry. */
  ghost predicate FreshAt(t: Trace, n: nat)
    requires t.Valid() && n < |t.cmds|
  {
    t.At(n).Fresh(t.bound, t.cmds[n])
  }

  /** Every line up to n that needs a new entry runs. */
  ghost predicate FreshRun(t: Trace, n: nat)
    requires t.Valid() && n <= |t.cmds|
  {
    forall q | 0 <= q < n && FreshAt(t, q) :: t.cmds[q].runs
  }

  /** All lines agree with the schedule in everything, the state included, exactly when those that need a new
      entry run, and they are at most a thousand in the life of the process. */
  lemma AgreeingIff(t: Trace, n: nat)
    requires t.Valid() && n <= |t.cmds|
    ensures Agreeing(t.size, t.bound, t.cmds, n) <==> FreshRun(t, n) && Filled(t, 0, n) <= SCAN
  {
    RunRefinesIff(t.size, t.bound, t.cmds, n);
    GuardedIff(t, n);
  }

  ghost predicate DeadFromPos(r: Ring)
    requires r.Shape()
  {
    forall j | r.pos <= j < |r.slots| :: r.slots[j].count <= 0
  }

  lemma GuardedNext(r: Ring, bound: nat, cmd: Cmd, clock: nat)
    requires r.Shape() && DeadFromPos(r) && cmd.Valid() && SCAN <= bound <= |r.slots|
    ensures r.Guard(bound, cmd) <==> (r.Fresh(bound, cmd) ==> cmd.runs && r.pos < SCAN)
    ensures r.Guard(bound, cmd) ==>
              && r.Step(bound, cmd, clock).Shape() && DeadFromPos(r.Step(bound, cmd, clock))
              && r.Step(bound, cmd, clock).pos == r.pos + if r.Fresh(bound, cmd) then 1 else 0
  {
    StepSlots(r, bound, cmd, clock);
    PosNext(r, bound, cmd, clock);
  }

  lemma LastFresh(t: Trace, n: nat)
    requires t.Valid() && 0 < n <= |t.cmds|
    ensures FreshRun(t, n) <==>
            FreshRun(t, n - 1) && (FreshAt(t, n - 1) ==> t.cmds[n - 1].runs)
    ensures Filled(t, 0, n) == Filled(t, 0, n - 1) + if t.cmds[n - 1].runs && FreshAt(t, n - 1) then 1 else 0
  {
  }

  lemma {:induction false} GuardedPos(t: Trace, n: nat)
    requires t.Valid() && n <= |t.cmds| && Guarded(t.size, t.bound, t.cmds, n)
    ensures t.At(n).pos == Filled(t, 0, n) && DeadFromPos(t.At(n))
  {
    if n > 0 {
      LastGuarded(t, n);
      GuardedPos(t, n - 1);
      GuardedNext(t.At(n - 1), t.bound, t.cmds[n - 1], n - 1);
    }
  }

  lemma GuardAtIff(t: Trace, n: nat)
    requires t.Valid() && n < |t.cmds| && Guarded(t.size, t.bound, t.cmds, n)
    ensures GuardAt(t.size, t.bound, t.cmds, n) <==> (FreshAt(t, n) ==> t.cmds[n].runs && Filled(t, 0, n) < SCAN)
  {
    GuardedPos(t, n);
    GuardedNext(t.At(n), t.bound, t.cmds[n], n);
  }

  lemma LastGuarded(t: Trace, n: nat)
    requires t.Valid() && 0 < n <= |t.cmds|
    ensures Guarded(t.size, t.bound, t.cmds, n) <==>
            Guarded(t.size, t.bound, t.cmds, n - 1) && GuardAt(t.size, t.bound, t.cmds, n - 1)
  {
  }

  lemma {:induction false} GuardedIff(t: Trace, n: nat)
    requires t.Valid() && n <= |t.cmds|
    ensures Guarded(t.size, t.bound, t.cmds, n) <==> FreshRun(t, n) && Filled(t, 0, n) <= SCAN
  {
    if n > 0 {
      GuardedIff(t, n - 1);
      LastGuarded(t, n);
      LastFresh(t, n);
      if Guarded(t.size, t.bound, t.cmds, n - 1) { GuardAtIff(t, n - 1); }
    }
  }
}
