/** What the countdown table holds after any run, in terms of the lines alone, and so what every line reads:
    no guard, any number of clients, any number of turns of the ring. */
module RingHistory {
  import opened Descriptors
  import opened Schedule
  import opened CountdownRing
  import opened RingRuns

  /** A run of lines on a table of the given size; the merge scan visits the first `bound` entries. */
  datatype Trace = Trace(size: nat, bound: nat, cmds: seq<Cmd>) {
    ghost predicate Valid() {
      ValidRun(cmds) && LAST < size && SCAN <= bound <= size
    }

    ghost function At(n: nat): (r: Ring)
      requires Valid() && n <= |cmds|
      ensures r.Shape() && |r.slots| == size
    {
      RingAfter(size, bound, cmds, n)
    }

    function PipeOf(k: nat): Pipe
      requires k < |cmds| && cmds[k].Valid()
    {
      Pipe(k, cmds[k].stages - 1)
    }

    /** Line k gives entry e a new countdown. */
    ghost predicate Takes(k: nat, e: nat)
      requires Valid() && k < |cmds|
    {
      At(k).Fresh(bound, cmds[k]) && At(k).pos == e
    }

    /** And, since it runs, a new pipe. */
    ghost predicate Fills(k: nat, e: nat)
      requires Valid() && k < |cmds|
    {
      Takes(k, e) && cmds[k].runs
    }

    /** The last line before n that took the entry. */
    ghost function Taker(e: nat, n: nat): (k: Option<nat>)
      requires Valid() && n <= |cmds|
      ensures k.Some? ==> k.value < n && Takes(k.value, e)
      ensures forall q | (if k.Some? then k.value + 1 else 0) <= q < n :: !Takes(q, e)
    {
      if n == 0 then None else if Takes(n - 1, e) then Some(n - 1) else Taker(e, n - 1)
    }

    /** The last line before n that filled the entry. */
    ghost function Filler(e: nat, n: nat): (k: Option<nat>)
      requires Valid() && n <= |cmds|
      ensures k.Some? ==> k.value < n && Fills(k.value, e)
      ensures forall q | (if k.Some? then k.value + 1 else 0) <= q < n :: !Fills(q, e)
    {
      if n == 0 then None else if Fills(n - 1, e) then Some(n - 1) else Filler(e, n - 1)
    }

    /** No line of the stretch takes the entry. */
    ghost predicate Untaken(e: nat, m: nat, n: nat)
      requires Valid() && n <= |cmds|
    {
      forall q | m <= q < n :: !Takes(q, e)
    }

    ghost predicate Unfilled(e: nat, m: nat, n: nat)
      requires Valid() && n <= |cmds|
    {
      forall q | m <= q < n :: !Fills(q, e)
    }

    /** Line i asks for the command that line j is. */
    ghost predicate Names(i: nat, j: nat)
      requires i < |cmds| && j < |cmds|
    {
      && cmds[i].suffix.Some? && cmds[i].fd == cmds[j].fd
      && Index(cmds, cmds[j].fd, j) == Index(cmds, cmds[i].fd, i) + cmds[i].suffix.value
    }

    /** The entry that a line with a suffix writes into: the one it takes, or the one it joins. */
    ghost function Entry(i: nat): (e: nat)
      requires Valid() && i < |cmds| && cmds[i].suffix.Some?
    {
      if At(i).Fresh(bound, cmds[i]) then At(i).pos else At(i).Find(bound, cmds[i])
    }

    /** The last line that took the entry asked for line j, and j leaves it alone. */
    ghost predicate Matures(e: nat, j: nat)
      requires Valid() && j < |cmds|
    {
      Taker(e, j).Some? && Names(Taker(e, j).value, j) && !Takes(j, e)
    }

    /** The ends in an entry: those of its filler, or what it was initialised with. */
    ghost function EndsIn(e: nat, n: nat): Ends
      requires Valid() && n <= |cmds|
    {
      if Filler(e, n).Some? then PipeEnds(PipeOf(Filler(e, n).value)) else Ends(Terminal, Terminal)
    }
  }

  // --- the entries, by history ---

  lemma {:induction false} EndsAre(t: Trace, e: nat, n: nat)
    requires t.Valid() && n <= |t.cmds| && e < t.size
    ensures t.At(n).slots[e].ends == t.EndsIn(e, n)
  {
    if n > 0 {
      EndsAre(t, e, n - 1);
      StepEnds(t.At(n - 1), t.bound, t.cmds[n - 1], n - 1, e);
    }
  }

  lemma SlotNext(r: Ring, bound: nat, cmd: Cmd, clock: nat, e: nat)
    requires r.Shape() && cmd.Valid() && bound <= |r.slots| && e < SCAN
    ensures var slot, slot' := r.slots[e], r.Step(bound, cmd, clock).slots[e];
            if r.Fresh(bound, cmd) && e == r.pos
            then slot'.owner == cmd.fd && slot'.count == cmd.suffix.value + if cmd.runs then 0 else 1
            else && slot'.owner == slot.owner
                 && slot'.count == slot.count - if cmd.runs && slot.owner == cmd.fd then 1 else 0
  {
    StepSlots(r, bound, cmd, clock);
  }

  /** Owner and countdown of a scanned entry: what its last taker asked for, less the commands of that
      client since. */
  lemma {:induction false} CountIs(t: Trace, e: nat, n: nat)
    requires t.Valid() && n <= |t.cmds| && e < SCAN
    ensures var slot, k := t.At(n).slots[e], t.Taker(e, n);
            if k.None? then slot.owner == 0 && slot.count <= 0
            else var cmd := t.cmds[k.value];
                 && slot.owner == cmd.fd && cmd.suffix.Some?
                 && slot.count == cmd.suffix.value + 1 + Index(t.cmds, cmd.fd, k.value) - Index(t.cmds, cmd.fd, n)
  {
    if n > 0 {
      CountIs(t, e, n - 1);
      SlotNext(t.At(n - 1), t.bound, t.cmds[n - 1], n - 1, e);
    }
  }

  /** An entry that the aging scan does not reach keeps the countdown it was given. */
  lemma {:induction false} CountFrozen(t: Trace, e: nat, n: nat)
    requires t.Valid() && n <= |t.cmds| && SCAN <= e < t.size && t.Taker(e, n).Some?
    ensures var cmd := t.cmds[t.Taker(e, n).value];
            cmd.suffix.Some? && Matches(t.At(n).slots[e], cmd.fd, cmd.suffix.value + 1)
  {
    StepSlots(t.At(n - 1), t.bound, t.cmds[n - 1], n - 1);
    if !t.Takes(n - 1, e) { CountFrozen(t, e, n - 1); }
  }

  /** A scanned entry stands at a positive count for a client exactly when its last taker asked for that
      command. */
  lemma StandsIff(t: Trace, e: nat, n: nat, fd: nat, count: nat)
    requires t.Valid() && n <= |t.cmds| && e < SCAN && count > 0
    ensures Matches(t.At(n).slots[e], fd, count) <==>
            && t.Taker(e, n).Some? && t.cmds[t.Taker(e, n).value].fd == fd
            && t.cmds[t.Taker(e, n).value].suffix.Some?
            && Index(t.cmds, fd, t.Taker(e, n).value) + t.cmds[t.Taker(e, n).value].suffix.value
               == Index(t.cmds, fd, n) + count - 1
  {
    CountIs(t, e, n);
  }

  // --- what a line reads ---

  lemma MaturesIff(t: Trace, e: nat, j: nat)
    requires t.Valid() && j < |t.cmds| && e < SCAN
    ensures t.Matures(e, j) <==>
            Matches(t.At(j).Reserved(t.bound, t.cmds[j]).slots[e], t.cmds[j].fd, 1)
  {
    StandsIff(t, e, j, t.cmds[j].fd, 1);
  }

  /** Over every run, what a command reads: there is something to read exactly when some scanned entry was
      last taken by a line that asked for this command, and then it is what is in that entry. */
  lemma ReadsIff(t: Trace, j: nat)
    requires t.Valid() && j < |t.cmds| && t.cmds[j].runs
    ensures t.At(j).Reads(t.bound, t.cmds[j]).Some? <==> exists e: nat | e < SCAN :: t.Matures(e, j)
    ensures forall e: nat | e < SCAN && t.Matures(e, j) ::
              t.At(j).Reads(t.bound, t.cmds[j]) == Some(t.EndsIn(e, j))
  {
    var r1 := t.At(j).Reserved(t.bound, t.cmds[j]);
    var m := FindMatured(r1.slots, SCAN, t.cmds[j].fd);
    if m != -1 {
      MaturesIff(t, m, j);
      EndsAre(t, m, j);
    }
    forall e: nat | e < SCAN && t.Matures(e, j) ensures m == e {
      MaturesIff(t, e, j);
      UniqueOverRuns(t.size, t.bound, t.cmds, j);
      MaturesIff(t, m, j);
      assert r1.slots[e] == t.At(j).slots[e] && r1.slots[m] == t.At(j).slots[m];
    }
  }

  lemma FillerIs(t: Trace, e: nat, k: nat, n: nat)
    requires t.Valid() && k < n <= |t.cmds| && t.Fills(k, e) && t.Unfilled(e, k + 1, n)
    ensures t.Filler(e, n) == Some(k)
  {
    var f := t.Filler(e, n);
    assert f.Some? && !(f.value < k) && !(k < f.value);
  }

  lemma TakerIs(t: Trace, e: nat, k: nat, n: nat)
    requires t.Valid() && k < n <= |t.cmds| && t.Takes(k, e) && t.Untaken(e, k + 1, n)
    ensures t.Taker(e, n) == Some(k)
  {
    var f := t.Taker(e, n);
    assert f.Some? && !(f.value < k) && !(k < f.value);
  }

  lemma FillerUpToTaker(t: Trace, e: nat, n: nat)
    requires t.Valid() && n <= |t.cmds| && t.Filler(e, n).Some?
    ensures t.Taker(e, n).Some? && t.Filler(e, n).value <= t.Taker(e, n).value
    ensures t.Fills(t.Taker(e, n).value, e) ==> t.Filler(e, n) == t.Taker(e, n)
    ensures t.Unfilled(e, t.Filler(e, n).value + 1, n)
  {
    assert t.Takes(t.Filler(e, n).value, e);
  }

  /** Over every run: a command reads the pipe of line k exactly when that line's entry is scanned, no later
      line has put its own pipe there, and the last line that took the entry asked for this command. */
  lemma PipeReadIff(t: Trace, k: nat, e: nat, j: nat)
    requires t.Valid() && k < |t.cmds| && j < |t.cmds| && t.Fills(k, e) && t.cmds[j].runs
    ensures t.At(j).Reads(t.bound, t.cmds[j]) == Some(PipeEnds(t.PipeOf(k))) <==>
            e < SCAN && k < j && t.Unfilled(e, k + 1, j + 1) && t.Matures(e, j)
  {
    ReadsIff(t, j);
    if t.At(j).Reads(t.bound, t.cmds[j]) == Some(PipeEnds(t.PipeOf(k))) {
      var x: nat :| x < SCAN && t.Matures(x, j);
      assert t.Filler(x, j) == Some(k) && x == e;
    }
    if e < SCAN && k < j && t.Unfilled(e, k + 1, j + 1) && t.Matures(e, j) { FillerIs(t, e, k, j); }
  }

  /** Once a later running line has taken the entry, no command reads the pipe again. */
  lemma RetakenIsLost(t: Trace, k: nat, e: nat, q: nat, j: nat)
    requires t.Valid() && k < q <= j < |t.cmds| && t.Fills(k, e) && t.Fills(q, e) && t.cmds[j].runs
    ensures t.At(j).Reads(t.bound, t.cmds[j]) != Some(PipeEnds(t.PipeOf(k)))
  {
    PipeReadIff(t, k, e, j);
  }

  lemma {:induction false} SameTaker(t: Trace, e: nat, m: nat, n: nat)
    requires t.Valid() && m <= n <= |t.cmds| && t.Untaken(e, m, n)
    ensures t.Taker(e, n) == t.Taker(e, m)
  {
    if m < n { SameTaker(t, e, m, n - 1); }
  }

  /** An entry last taken before line m comes due at line j exactly when it stands at the right count at line
      m and nobody takes it. */
  lemma StoodIff(t: Trace, e: nat, m: nat, j: nat, c: nat)
    requires t.Valid() && m <= j < |t.cmds| && e < SCAN && c > 0
    requires Index(t.cmds, t.cmds[j].fd, j) == Index(t.cmds, t.cmds[j].fd, m) + c - 1
    ensures t.Matures(e, j) && t.Taker(e, j).value < m <==>
            t.Untaken(e, m, j + 1) && Matches(t.At(m).slots[e], t.cmds[j].fd, c)
  {
    StandsIff(t, e, m, t.cmds[j].fd, c);
    UntakenLast(t, e, m, j);
    if t.Untaken(e, m, j) { SameTaker(t, e, m, j); }
  }

  lemma UntakenLast(t: Trace, e: nat, m: nat, j: nat)
    requires t.Valid() && m <= j < |t.cmds|
    ensures t.Untaken(e, m, j + 1) <==> t.Untaken(e, m, j) && !t.Takes(j, e)
    ensures t.Taker(e, j).Some? && t.Taker(e, j).value < m ==> t.Untaken(e, m, j)
    ensures t.Untaken(e, m, j) ==> t.Taker(e, j).None? || t.Taker(e, j).value < m
  {
  }

  /** A line that asks for a command comes before it. */
  lemma NamesLater(t: Trace, i: nat, j: nat)
    requires t.Valid() && i < |t.cmds| && j < |t.cmds| && t.Names(i, j)
    ensures i < j
  {
    if j <= i { IndexMonotone(t.cmds, t.cmds[i].fd, j, i); }
  }

  /** A line that joins an entry asks for the same command as the line that took it. */
  lemma JoinsSame(t: Trace, k: nat, e: nat, i: nat, j: nat)
    requires t.Valid() && k <= i < |t.cmds| && j < |t.cmds| && e < SCAN && t.Takes(k, e)
    requires t.cmds[i].suffix.Some? && t.Entry(i) == e && t.Untaken(e, k + 1, i + 1)
    ensures t.Names(i, j) <==> t.Names(k, j)
  {
    if k < i {
      TakerIs(t, e, k, i);
      assert !t.Takes(i, e);
      StandsIff(t, e, i, t.cmds[i].fd, t.cmds[i].suffix.value + 1);
    }
  }

  /** What a line writes: the pipe of the last line that filled its entry, or its own. */
  lemma WritesFiller(t: Trace, k: nat, e: nat, i: nat)
    requires t.Valid() && k <= i < |t.cmds| && t.Fills(k, e) && t.Unfilled(e, k + 1, i + 1)
    requires t.cmds[i].runs && t.cmds[i].suffix.Some? && t.Entry(i) == e
    ensures t.At(i).Writes(t.bound, t.cmds[i], i) == Some(Wr(t.PipeOf(k)))
  {
    if k < i {
      FillerIs(t, e, k, i);
      EndsAre(t, e, i);
      assert !t.Fills(i, e);
    }
  }

  /** Exact delivery in the table, with no guard. Line k made the pipe, line i is k or has joined it, and
      nobody has taken the entry since: then line j takes as input the ends of the very pipe line i writes
      into exactly when j is the N-th later command of the client of line i. */
  lemma TableDelivers(t: Trace, k: nat, e: nat, i: nat, j: nat)
    requires t.Valid() && k <= i < |t.cmds| && j < |t.cmds| && e < SCAN && t.Fills(k, e)
    requires t.cmds[i].runs && t.cmds[i].suffix.Some? && t.Entry(i) == e && t.cmds[j].runs
    requires t.Untaken(e, k + 1, i + 1) && t.Untaken(e, k + 1, j + 1)
    ensures t.At(i).Writes(t.bound, t.cmds[i], i) == Some(Wr(t.PipeOf(k)))
    ensures t.At(j).Reads(t.bound, t.cmds[j]) == Some(PipeEnds(t.PipeOf(k))) <==>
            && t.cmds[i].fd == t.cmds[j].fd
            && Index(t.cmds, t.cmds[j].fd, j) == Index(t.cmds, t.cmds[i].fd, i) + t.cmds[i].suffix.value
  {
    WritesFiller(t, k, e, i);
    PipeReadIff(t, k, e, j);
    JoinsSame(t, k, e, i, j);
    if k < j {
      TakerIs(t, e, k, j);
      assert !t.Takes(j, e);
    } else if t.Names(k, j) {
      NamesLater(t, k, j);
    }
  }

  /** The command that a line asked for reads its pipe exactly when the entry is scanned and not retaken, if
      only running lines have suffixes. */
  lemma DeliveredIff(t: Trace, k: nat, e: nat, j: nat)
    requires t.Valid() && k < |t.cmds| && j < |t.cmds| && t.Fills(k, e) && t.cmds[j].runs && t.Names(k, j)
    requires forall q | k < q <= j && t.Takes(q, e) :: t.cmds[q].runs
    ensures t.At(j).Reads(t.bound, t.cmds[j]) == Some(PipeEnds(t.PipeOf(k))) <==>
            e < SCAN && t.Untaken(e, k + 1, j + 1)
  {
    NamesLater(t, k, j);
    PipeReadIff(t, k, e, j);
    if t.Untaken(e, k + 1, j + 1) {
      TakerIs(t, e, k, j);
      assert !t.Takes(j, e);
    } else {
      var q :| k + 1 <= q < j + 1 && t.Takes(q, e);
      assert t.Fills(q, e);
    }
  }

  // --- capacity ---

  /** How many lines of the stretch filled an entry. */
  ghost function Filled(t: Trace, m: nat, n: nat): nat
    requires t.Valid() && m <= n <= |t.cmds|
  {
    if m == n then 0
    else Filled(t, m, n - 1) + if t.cmds[n - 1].runs && t.At(n - 1).Fresh(t.bound, t.cmds[n - 1]) then 1 else 0
  }

  lemma PosNext(r: Ring, bound: nat, cmd: Cmd, clock: nat)
    requires r.Shape() && bound <= |r.slots| && cmd.Valid()
    ensures r.Step(bound, cmd, clock).pos
         == if cmd.runs && r.Fresh(bound, cmd) then (if r.pos == LAST then 0 else r.pos + 1) else r.pos
  {
  }

  lemma OneOn(a: nat)
    ensures (a + 1) % (LAST + 1) == if a % (LAST + 1) == LAST then 0 else a % (LAST + 1) + 1
  {
  }

  /** `pos` goes round the ring, one entry for each pipe. */
  lemma {:induction false} PosTurns(t: Trace, m: nat, n: nat)
    requires t.Valid() && m <= n <= |t.cmds|
    ensures t.At(n).pos == (t.At(m).pos + Filled(t, m, n)) % (LAST + 1)
  {
    if m < n {
      PosTurns(t, m, n - 1);
      PosNext(t.At(n - 1), t.bound, t.cmds[n - 1], n - 1);
      OneOn(t.At(m).pos + Filled(t, m, n - 1));
    }
  }

  lemma {:induction false} FilledAreSuffixes(t: Trace, m: nat, n: nat)
    requires t.Valid() && m <= n <= |t.cmds|
    ensures Filled(t, m, n) <= Suffixes(t.cmds, n) - Suffixes(t.cmds, m)
  {
    if m < n { FilledAreSuffixes(t, m, n - 1); }
  }

  /** An entry is taken again only after a whole turn. */
  lemma RetakenAfterTurn(t: Trace, k: nat, e: nat, q: nat)
    requires t.Valid() && k < q < |t.cmds| && t.Fills(k, e) && t.Takes(q, e)
    ensures Suffixes(t.cmds, q + 1) - Suffixes(t.cmds, k + 1) > LAST
  {
    PosNext(t.At(k), t.bound, t.cmds[k], k);
    PosTurns(t, k + 1, q);
    FilledAreSuffixes(t, k + 1, q);
    WholeTurn(e, t.At(k + 1).pos, Filled(t, k + 1, q));
  }

  lemma WholeTurn(e: nat, p: nat, f: nat)
    requires e <= LAST && p == (if e == LAST then 0 else e + 1) && (p + f) % (LAST + 1) == e
    ensures f >= LAST
  {
  }

  /** A pipe in a scanned entry reaches the command it was made for, if at most a thousand lines with a suffix
      come in between, of however many clients, that command included. */
  lemma RoomDelivers(t: Trace, k: nat, e: nat, j: nat)
    requires t.Valid() && k < |t.cmds| && j < |t.cmds| && t.Fills(k, e) && e < SCAN
    requires t.cmds[j].runs && t.Names(k, j) && Suffixes(t.cmds, j + 1) - Suffixes(t.cmds, k + 1) <= LAST
    ensures t.At(j).Reads(t.bound, t.cmds[j]) == Some(PipeEnds(t.PipeOf(k)))
  {
    NamesLater(t, k, j);
    forall q | k < q <= j ensures !t.Takes(q, e) {
      if t.Takes(q, e) {
        RetakenAfterTurn(t, k, e, q);
        SuffixesGrow(t.cmds, q + 1, j + 1);
      }
    }
    assert t.Entry(k) == e;
    TableDelivers(t, k, e, k, j);
  }

  lemma {:induction false} SuffixesGrow(cmds: seq<Cmd>, m: nat, n: nat)
    requires m <= n <= |cmds|
    ensures Suffixes(cmds, m) <= Suffixes(cmds, n)
  {
    if m < n { SuffixesGrow(cmds, m, n - 1); }
  }

  /** So it does for every N up to 1000 if only its own client has lines with a suffix in between, all of
      which run. */
  lemma OwnRoomDelivers(t: Trace, k: nat, e: nat, j: nat)
    requires t.Valid() && k < |t.cmds| && j < |t.cmds| && t.Fills(k, e) && e < SCAN && t.cmds[j].runs && t.Names(k, j)
    requires t.cmds[k].suffix.value <= LAST
    requires forall q | k < q <= j && t.cmds[q].suffix.Some? :: t.cmds[q].runs && t.cmds[q].fd == t.cmds[k].fd
    ensures t.At(j).Reads(t.bound, t.cmds[j]) == Some(PipeEnds(t.PipeOf(k)))
  {
    NamesLater(t, k, j);
    SuffixesOfOne(t.cmds, t.cmds[k].fd, k + 1, j + 1);
    RoomDelivers(t, k, e, j);
  }

  lemma {:induction false} SuffixesOfOne(cmds: seq<Cmd>, fd: nat, m: nat, n: nat)
    requires m <= n <= |cmds|
    requires forall q | m <= q < n && cmds[q].suffix.Some? :: cmds[q].runs && cmds[q].fd == fd
    ensures Suffixes(cmds, n) - Suffixes(cmds, m) <= Index(cmds, fd, n) - Index(cmds, fd, m)
  {
    if m < n { SuffixesOfOne(cmds, fd, m, n - 1); }
  }
}
