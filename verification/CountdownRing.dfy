/** The countdown table of project2, as a value. A line ending in `|N` takes the entry at `pos` with
    countdown N+1 (or joins the entry of the same client that already has that countdown); every
    command of a client ages the client's entries by one, and an entry found at 1 is the command's
    input. np_single_proc shares one table between clients; np_simple is the case of one client. */
module CountdownRing {
  import opened Descriptors
  import opened Schedule

  /** The aging scan visits entries 0..999 only. */
  const SCAN: nat := 1000
  /** `pos` wraps to 0 only after passing 1000, so entry 1000 is allocated but never aged. */
  const LAST: nat := 1000

  datatype Ends = Ends(inNum: Desc, outNum: Desc)

  datatype Slot = Slot(ends: Ends, count: int, owner: nat)

  predicate Matches(s: Slot, fd: nat, count: int) {
    s.owner == fd && s.count == count
  }

  /** The merge scan: the first matching entry in [from, bound), or -1. */
  function FindPending(slots: seq<Slot>, from: nat, bound: nat, fd: nat, count: int): (r: int)
    requires from <= bound <= |slots|
    ensures r == -1 || (from <= r < bound && Matches(slots[r], fd, count))
    ensures forall i :: from <= i < (if r == -1 then bound else r) ==> !Matches(slots[i], fd, count)
    decreases bound - from
  {
    if from == bound then -1
    else if Matches(slots[from], fd, count) then from
    else FindPending(slots, from + 1, bound, fd, count)
  }

  /** The aging scan keeps the last entry of the client that stands at 1. */
  function FindMatured(slots: seq<Slot>, n: nat, fd: nat): (r: int)
    requires n <= |slots|
    ensures r == -1 || (0 <= r < n && Matches(slots[r], fd, 1))
    ensures forall i :: r < i < n ==> !Matches(slots[i], fd, 1)
  {
    if n == 0 then -1
    else if Matches(slots[n - 1], fd, 1) then n - 1
    else FindMatured(slots, n - 1, fd)
  }

  function AgedSlot(s: Slot, fd: nat): Slot {
    if s.owner == fd then s.(count := s.count - 1) else s
  }

  /** The first n entries aged by one command of fd. */
  function Aged(slots: seq<Slot>, n: nat, fd: nat): (r: seq<Slot>)
    requires n <= |slots|
  {
    seq(|slots|, j requires 0 <= j < |slots| => if j < n then AgedSlot(slots[j], fd) else slots[j])
  }

  datatype Ring = Ring(slots: seq<Slot>, pos: nat) {
    ghost predicate Shape() {
      |slots| > LAST && pos <= LAST
    }

    function Find(bound: nat, cmd: Cmd): int
      requires bound <= |slots| && cmd.suffix.Some?
    {
      FindPending(slots, 0, bound, cmd.fd, cmd.suffix.value + 1)
    }

    /** A suffix that joins no pending pipe needs a new entry. */
    predicate Fresh(bound: nat, cmd: Cmd)
      requires bound <= |slots|
    {
      cmd.suffix.Some? && Find(bound, cmd) == -1
    }

    /** The countdown is written before anything else is known about the line. */
    function Reserve(fd: nat, n: nat): Ring
      requires Shape()
    {
      this.(slots := slots[pos := slots[pos].(count := n + 1, owner := fd)])
    }

    function Reserved(bound: nat, cmd: Cmd): Ring
      requires Shape() && bound <= |slots|
    {
      if Fresh(bound, cmd) then Reserve(cmd.fd, cmd.suffix.value) else this
    }

    function Age(fd: nat): Ring
      requires Shape()
    {
      this.(slots := Aged(slots, SCAN, fd))
    }

    /** The new pipe's ends are stored only after the last stage was started. */
    function Commit(ends: Ends): Ring
      requires Shape()
    {
      Ring(slots[pos := slots[pos].(ends := ends)], if pos + 1 > LAST then 0 else pos + 1)
    }

    function Step(bound: nat, cmd: Cmd, clock: nat): Ring
      requires Shape() && bound <= |slots| && cmd.Valid()
    {
      var r := Reserved(bound, cmd);
      if !cmd.runs then r
      else if Fresh(bound, cmd) then r.Age(cmd.fd).Commit(PipeEnds(Pipe(clock, cmd.stages - 1)))
      else r.Age(cmd.fd)
    }

    /** The ends the first stage takes as input, if an entry has matured. */
    function Reads(bound: nat, cmd: Cmd): Option<Ends>
      requires Shape() && bound <= |slots|
    {
      var r := Reserved(bound, cmd);
      var j := FindMatured(r.slots, SCAN, cmd.fd);
      if cmd.runs && j != -1 then Some(r.slots[j].ends) else None
    }

    /** The descriptor the last stage writes because of its suffix. */
    function Writes(bound: nat, cmd: Cmd, clock: nat): Option<Desc>
      requires bound <= |slots| && cmd.Valid()
    {
      if !cmd.runs || cmd.suffix.None? then None
      else if Fresh(bound, cmd) then Some(Wr(Pipe(clock, cmd.stages - 1)))
      else Some(slots[Find(bound, cmd)].ends.outNum)
    }

    /** What a caller can check before the call: a new entry is needed only by a line that runs,
        only where the aging scan will see it, and only over an entry that is dead. */
    predicate Guard(bound: nat, cmd: Cmd)
      requires Shape() && bound <= |slots|
    {
      Fresh(bound, cmd) ==> cmd.runs && pos < SCAN && slots[pos].count <= 0
    }

    // --- the refinement relation ---

    /** The command of the owner at which a live entry will be read. */
    ghost function Target(s: Sched, j: nat): (nat, nat)
      requires j < |slots| && slots[j].count > 0
    {
      (slots[j].owner, s.Done(slots[j].owner) + slots[j].count - 1)
    }

    ghost predicate Backed(s: Sched, j: nat)
      requires j < |slots|
    {
      slots[j].count > 0 ==>
        && Target(s, j) in s.due
        && slots[j].ends == PipeEnds(s.due[Target(s, j)])
    }

    ghost predicate Waits(s: Sched, key: (nat, nat))
      requires |slots| > LAST
    {
      exists j :: 0 <= j < SCAN && slots[j].count > 0 && Target(s, j) == key
    }

    /** No two live entries of one client share a countdown. */
    ghost predicate Unique()
      requires |slots| > LAST
    {
      forall i, j | 0 <= i < j < SCAN && slots[i].count > 0 && slots[i].owner == slots[j].owner ::
        slots[i].count != slots[j].count
    }

    /** A live entry for every pipe still due, backed by that pipe, and no two with one target. */
    ghost predicate Rep(s: Sched) {
      && Shape() && s.Inv()
      && (forall j :: 0 <= j < SCAN ==> Backed(s, j))
      && (forall j :: SCAN <= j < |slots| ==> slots[j].count <= 0)
      && (forall key <- s.due :: key.1 >= s.Done(key.0) ==> Waits(s, key))
      && Unique()
    }
  }

  function PipeEnds(p: Pipe): Ends {
    Ends(Rd(p), Wr(p))
  }

  ghost function ReadOf(p: Option<Pipe>): Option<Ends> {
    if p.Some? then Some(PipeEnds(p.value)) else None
  }

  ghost function WriteOf(p: Option<Pipe>): Option<Desc> {
    if p.Some? then Some(Wr(p.value)) else None
  }

  /** The ring's step agrees with the reference: same input, same output, related states. */
  ghost predicate Agrees(r: Ring, s: Sched, bound: nat, cmd: Cmd)
    requires r.Shape() && bound <= |r.slots| && cmd.Valid()
  {
    && r.Step(bound, cmd, s.clock).Rep(s.Step(cmd))
    && r.Reads(bound, cmd) == ReadOf(s.Reads(cmd))
    && r.Writes(bound, cmd, s.clock) == WriteOf(s.Writes(cmd))
  }

  /** Under the relation the merge scan finds an entry exactly when the target is already due. */
  lemma FreshIffNotDue(r: Ring, s: Sched, bound: nat, cmd: Cmd)
    requires r.Rep(s) && cmd.Valid() && SCAN <= bound <= |r.slots| && cmd.suffix.Some?
    ensures r.Fresh(bound, cmd) <==> s.Key(cmd) !in s.due
    ensures !r.Fresh(bound, cmd) ==>
              r.Find(bound, cmd) < SCAN && r.slots[r.Find(bound, cmd)].ends == PipeEnds(s.due[s.Key(cmd)])
  {
    var f := r.Find(bound, cmd);
    if s.Key(cmd) in s.due {
      var j :| 0 <= j < SCAN && r.slots[j].count > 0 && r.Target(s, j) == s.Key(cmd);
      assert Matches(r.slots[j], cmd.fd, cmd.suffix.value + 1);
    }
    if f != -1 {
      assert r.Backed(s, f);
    }
  }

  /** The aging scan finds exactly the pipe due now. */
  lemma MaturedIsDue(r: Ring, s: Sched, bound: nat, cmd: Cmd)
    requires r.Rep(s) && cmd.Valid() && SCAN <= bound <= |r.slots| && r.Guard(bound, cmd)
    ensures r.Reads(bound, cmd) == ReadOf(s.Reads(cmd))
  {
    var r1 := r.Reserved(bound, cmd);
    var m := FindMatured(r1.slots, SCAN, cmd.fd);
    var key := (cmd.fd, s.Done(cmd.fd));
    if key in s.due {
      var j :| 0 <= j < SCAN && r.slots[j].count > 0 && r.Target(s, j) == key;
      assert Matches(r1.slots[j], cmd.fd, 1);
    }
    if m != -1 {
      assert r1.slots[m] == r.slots[m];
      assert r.Backed(s, m);
    }
  }

  /** What one line leaves in each entry. */
  lemma StepSlots(r: Ring, bound: nat, cmd: Cmd, clock: nat)
    requires r.Shape() && cmd.Valid() && bound <= |r.slots|
    ensures var r' := r.Step(bound, cmd, clock);
            && r'.Shape() && |r'.slots| == |r.slots|
            && (forall j :: 0 <= j < |r.slots| && !(r.Fresh(bound, cmd) && j == r.pos) ==>
                 r'.slots[j] == if cmd.runs && j < SCAN then AgedSlot(r.slots[j], cmd.fd) else r.slots[j])
            && (r.Fresh(bound, cmd) && cmd.runs && r.pos < SCAN ==>
                 r'.slots[r.pos] == Slot(PipeEnds(Pipe(clock, cmd.stages - 1)), cmd.suffix.value, cmd.fd))
            && (r.Fresh(bound, cmd) && !(cmd.runs && r.pos < SCAN) ==>
                 r'.slots[r.pos].count == cmd.suffix.value + 1 && r'.slots[r.pos].owner == cmd.fd)
  {
  }

  /** The only ends a line ever stores are those of its own new pipe, at `pos`. */
  lemma StepEnds(r: Ring, bound: nat, cmd: Cmd, clock: nat, j: nat)
    requires r.Shape() && cmd.Valid() && bound <= |r.slots| && j < |r.slots|
    ensures var r' := r.Step(bound, cmd, clock);
            && |r'.slots| == |r.slots|
            && r'.slots[j].ends == if r.Fresh(bound, cmd) && cmd.runs && j == r.pos
                                   then PipeEnds(Pipe(clock, cmd.stages - 1)) else r.slots[j].ends
  {
  }

  lemma StepBacked(r: Ring, s: Sched, bound: nat, cmd: Cmd, j: nat)
    requires r.Shape() && j < SCAN && r.Backed(s, j)
    requires cmd.Valid() && bound <= |r.slots| && r.Guard(bound, cmd)
    requires r.Fresh(bound, cmd) ==> s.Key(cmd) !in s.due
    ensures r.Step(bound, cmd, s.clock).Shape() && r.Step(bound, cmd, s.clock).Backed(s.Step(cmd), j)
  {
    StepSlots(r, bound, cmd, s.clock);
  }

  lemma StepWaits(r: Ring, s: Sched, bound: nat, cmd: Cmd, key: (nat, nat))
    requires r.Shape() && cmd.Valid() && bound <= |r.slots| && r.Guard(bound, cmd)
    requires key in s.due && key.1 >= s.Done(key.0) ==> r.Waits(s, key)
    requires cmd.suffix.Some? && !r.Fresh(bound, cmd) ==> s.Key(cmd) in s.due
    requires key in s.Step(cmd).due && key.1 >= s.Step(cmd).Done(key.0)
    ensures r.Step(bound, cmd, s.clock).Shape() && r.Step(bound, cmd, s.clock).Waits(s.Step(cmd), key)
  {
    var r', s' := r.Step(bound, cmd, s.clock), s.Step(cmd);
    StepSlots(r, bound, cmd, s.clock);
    if key in s.due {
      var j :| 0 <= j < SCAN && r.slots[j].count > 0 && r.Target(s, j) == key;
      assert r'.slots[j] == if cmd.runs then AgedSlot(r.slots[j], cmd.fd) else r.slots[j];
      assert r'.Target(s', j) == key;
    } else {
      assert r'.Target(s', r.pos) == key;
    }
  }

  /** Countdown uniqueness: no line, guarded or not, gives two entries of a client the same positive
      countdown (among those the aging scan visits). */
  lemma StepUnique(r: Ring, bound: nat, cmd: Cmd, clock: nat)
    requires r.Shape() && r.Unique() && cmd.Valid() && SCAN <= bound <= |r.slots|
    ensures r.Step(bound, cmd, clock).Shape() && r.Step(bound, cmd, clock).Unique()
  {
    StepSlots(r, bound, cmd, clock);
    var r' := r.Step(bound, cmd, clock);
    forall i, j | 0 <= i < j < SCAN && r'.slots[i].count > 0 && r'.slots[i].owner == r'.slots[j].owner
      ensures r'.slots[i].count != r'.slots[j].count
    {
      if r.Fresh(bound, cmd) {
        var other := if i == r.pos then j else i;
        assert !Matches(r.slots[other], cmd.fd, cmd.suffix.value + 1);
      }
    }
  }

  /** With the guard, one line keeps the relation. */
  lemma StepKeepsRep(r: Ring, s: Sched, bound: nat, cmd: Cmd)
    requires r.Rep(s) && cmd.Valid() && SCAN <= bound <= |r.slots| && r.Guard(bound, cmd)
    ensures r.Step(bound, cmd, s.clock).Rep(s.Step(cmd))
  {
    var r', s' := r.Step(bound, cmd, s.clock), s.Step(cmd);
    StepSlots(r, bound, cmd, s.clock);
    StepUnique(r, bound, cmd, s.clock);
    if cmd.suffix.Some? { FreshIffNotDue(r, s, bound, cmd); }
    forall j | 0 <= j < SCAN ensures r'.Backed(s', j) {
      StepBacked(r, s, bound, cmd, j);
    }
    forall key | key in s'.due && key.1 >= s'.Done(key.0) ensures r'.Waits(s', key) {
      StepWaits(r, s, bound, cmd, key);
    }
  }

  /** Overwriting a live entry loses the pipe it stands for (over runs: RingHistory.RetakenIsLost): if it was due
      now, it is not read. */
  lemma OverwriteLosesRead(r: Ring, s: Sched, bound: nat, cmd: Cmd)
    requires r.Rep(s) && cmd.Valid() && SCAN <= bound <= |r.slots|
    requires r.Fresh(bound, cmd) && cmd.runs && r.pos < SCAN
    requires Matches(r.slots[r.pos], cmd.fd, 1)
    ensures r.Reads(bound, cmd) != ReadOf(s.Reads(cmd))
  {
    var r1 := r.Reserved(bound, cmd);
    var m := FindMatured(r1.slots, SCAN, cmd.fd);
    assert r.Backed(s, r.pos);
    assert m != r.pos;
  }

  /** Overwriting a live entry loses the pipe it stands for: if it is due later, nothing waits for it. */
  lemma OverwriteLosesEntry(r: Ring, s: Sched, bound: nat, cmd: Cmd)
    requires r.Rep(s) && cmd.Valid() && SCAN <= bound <= |r.slots|
    requires r.Fresh(bound, cmd) && cmd.runs && r.pos < SCAN && r.slots[r.pos].count > 0
    requires !Matches(r.slots[r.pos], cmd.fd, 1)
    ensures var key := r.Target(s, r.pos);
            && key in s.due && key.1 >= s.Step(cmd).Done(key.0)
            && !r.Step(bound, cmd, s.clock).Waits(s.Step(cmd), key)
  {
    var r', s' := r.Step(bound, cmd, s.clock), s.Step(cmd);
    var key := r.Target(s, r.pos);
    StepSlots(r, bound, cmd, s.clock);
    assert r.Backed(s, r.pos);
    forall j | 0 <= j < SCAN && r'.slots[j].count > 0 ensures r'.Target(s', j) != key {
      if j != r.pos {
        assert r'.slots[j] == AgedSlot(r.slots[j], cmd.fd);
      }
    }
  }

  /** An entry taken by a line that does not run, or out of the aging scan's reach, stays live
      with no pipe due behind it. */
  lemma PhantomEntry(r: Ring, s: Sched, bound: nat, cmd: Cmd)
    requires r.Rep(s) && cmd.Valid() && SCAN <= bound <= |r.slots|
    requires r.Fresh(bound, cmd) && (!cmd.runs || r.pos == LAST)
    ensures !r.Step(bound, cmd, s.clock).Rep(s.Step(cmd))
  {
    var r', s' := r.Step(bound, cmd, s.clock), s.Step(cmd);
    StepSlots(r, bound, cmd, s.clock);
    FreshIffNotDue(r, s, bound, cmd);
    if r.pos < SCAN {
      assert r'.Target(s', r.pos) == s.Key(cmd);
      assert !r'.Backed(s', r.pos);
    }
  }

  /** One line of the countdown table does what the reference asks exactly when the guard holds. */
  lemma RefinesIff(r: Ring, s: Sched, bound: nat, cmd: Cmd)
    requires r.Rep(s) && cmd.Valid() && SCAN <= bound <= |r.slots|
    ensures Agrees(r, s, bound, cmd) <==> r.Guard(bound, cmd)
  {
    if r.Guard(bound, cmd) {
      StepKeepsRep(r, s, bound, cmd);
      MaturedIsDue(r, s, bound, cmd);
      if cmd.suffix.Some? { FreshIffNotDue(r, s, bound, cmd); }
    } else if !cmd.runs || r.pos == LAST {
      PhantomEntry(r, s, bound, cmd);
    } else if Matches(r.slots[r.pos], cmd.fd, 1) {
      OverwriteLosesRead(r, s, bound, cmd);
    } else {
      OverwriteLosesEntry(r, s, bound, cmd);
    }
  }
}
