/** npshell's list of pipe slots, as a value. Index i holds the pipe which the command i positions
    ahead will read. Every command pops the front; an ordinary `|` inserts at the front; `|N` fills
    index N-1. */
module ShiftingList {
  import opened Descriptors
  import opened Schedule

  type Stack = seq<Option<Pipe>>

  function At(stack: Stack, i: nat): Option<Pipe> {
    if i < |stack| then stack[i] else None
  }

  /** getPipe: the front slot, empty or not, and the list without it. */
  function Front(stack: Stack): Option<Pipe> {
    At(stack, 0)
  }

  function Tail(stack: Stack): Stack {
    if stack == [] then [] else stack[1..]
  }

  /** The pipe an ordinary `|` writes: the front slot if it is occupied, else the new pipe p. */
  function LinkPipe(stack: Stack, p: Pipe): Pipe {
    if Front(stack).Some? then Front(stack).value else p
  }

  function Link(stack: Stack, p: Pipe): Stack {
    if Front(stack).Some? then stack else [Some(p)] + stack
  }

  /** The pipe `|N` writes: the one waiting at index N-1, else the new pipe p. */
  function PlacePipe(stack: Stack, n: nat, p: Pipe): Pipe
    requires n >= 1
  {
    if At(stack, n - 1).Some? then At(stack, n - 1).value else p
  }

  function Padded(stack: Stack, n: nat): (r: Stack)
    ensures |r| == if n > |stack| then n else |stack|
    ensures forall i: nat :: At(r, i) == At(stack, i)
    decreases n - |stack|
  {
    if n > |stack| then Padded(stack + [None], n) else stack
  }

  function Place(stack: Stack, n: nat, p: Pipe): Stack
    requires n >= 1
  {
    Padded(stack, n)[n - 1 := Some(PlacePipe(stack, n, p))]
  }

  /** What one stage's child is connected to. */
  datatype StageIo = StageIo(input: Option<Pipe>, output: Option<Pipe>)

  /** The last stage of a line: after the pop, `|N` fills its slot, anything else leaves the list. */
  function Last(stack: Stack, suffix: Option<nat>, p: Pipe): Stack
    requires suffix.Some? ==> suffix.value >= 1
  {
    if suffix.Some? then Place(stack, suffix.value, p) else stack
  }

  function LastPipe(stack: Stack, suffix: Option<nat>, p: Pipe): Option<Pipe>
    requires suffix.Some? ==> suffix.value >= 1
  {
    if suffix.Some? then Some(PlacePipe(stack, suffix.value, p)) else None
  }

  /** Stages i..k-1 of a line: all but the last end in an ordinary `|`. */
  function RunStages(stack: Stack, line: nat, i: nat, k: nat, suffix: Option<nat>): (r: (seq<StageIo>, Stack))
    requires i < k && (suffix.Some? ==> suffix.value >= 1)
    ensures |r.0| == k - i
    decreases k - i
  {
    var rest, p := Tail(stack), Pipe(line, i);
    if i == k - 1 then ([StageIo(Front(stack), LastPipe(rest, suffix, p))], Last(rest, suffix, p))
    else
      var (ios, out) := RunStages(Link(rest, p), line, i + 1, k, suffix);
      ([StageIo(Front(stack), Some(LinkPipe(rest, p)))] + ios, out)
  }

  /** A builtin pops nothing. */
  function RunLine(stack: Stack, cmd: Cmd, line: nat): (seq<StageIo>, Stack)
    requires cmd.Valid()
  {
    if cmd.runs then RunStages(stack, line, 0, cmd.stages, cmd.suffix) else ([], stack)
  }

  /** Within a line, each stage reads the pipe the stage before it writes, whatever the list held. */
  lemma {:induction false} StagesChain(stack: Stack, line: nat, i: nat, k: nat, suffix: Option<nat>, j: nat)
    requires i < k && i <= j < k - 1 && (suffix.Some? ==> suffix.value >= 1)
    ensures var ios := RunStages(stack, line, i, k, suffix).0;
            ios[j - i].output.Some? && ios[j - i + 1].input == ios[j - i].output
    decreases k - i
  {
    if i < j { StagesChain(Link(Tail(stack), Pipe(line, i)), line, i + 1, k, suffix, j); }
  }

  /** With nothing waiting right behind the front, k pops and k-1 inserts amount to one pop: every
      pending pipe moves forward by exactly one position, whatever k is. */
  lemma {:induction false} OnePosition(stack: Stack, line: nat, i: nat, k: nat, suffix: Option<nat>)
    requires i < k && (suffix.Some? ==> suffix.value >= 1)
    requires i == k - 1 || At(stack, 1).None?
    ensures var (ios, out) := RunStages(stack, line, i, k, suffix);
            && out == Last(Tail(stack), suffix, Pipe(line, k - 1))
            && ios[0].input == Front(stack)
            && ios[k - 1 - i].output == LastPipe(Tail(stack), suffix, Pipe(line, k - 1))
    decreases k - i
  {
    if i < k - 1 {
      var next := Link(Tail(stack), Pipe(line, i));
      assert Tail(next) == Tail(stack);
      OnePosition(next, line, i + 1, k, suffix);
    }
  }

  /** Whatever is in the list afterwards was behind the front before, or was made by this line. */
  lemma {:induction false} NothingResurfaces(stack: Stack, line: nat, i: nat, k: nat, suffix: Option<nat>, q: Pipe)
    requires i < k && (suffix.Some? ==> suffix.value >= 1)
    requires q.line != line && forall j: nat :: At(Tail(stack), j) != Some(q)
    ensures forall j: nat :: At(RunStages(stack, line, i, k, suffix).1, j) != Some(q)
    decreases k - i
  {
    if i < k - 1 {
      var next := Link(Tail(stack), Pipe(line, i));
      forall j: nat ensures At(Tail(next), j) != Some(q) {
        assert At(Tail(stack), j) != Some(q) && At(Tail(stack), j + 1) != Some(q);
      }
      NothingResurfaces(next, line, i + 1, k, suffix, q);
    } else if suffix.Some? {
      forall j: nat ensures At(Place(Tail(stack), suffix.value, Pipe(line, i)), j) != Some(q) {
        assert At(Padded(Tail(stack), suffix.value), j) == At(Tail(stack), j) != Some(q);
      }
    }
  }

  // --- refinement of the reference schedule, for the one client npshell has ---

  ghost function DueAt(s: Sched, fd: nat, i: nat): Option<Pipe> {
    var key := (fd, s.Done(fd) + i);
    if key in s.due then Some(s.due[key]) else None
  }

  /** Index i is occupied exactly when something is due i commands ahead, and by that pipe. */
  ghost predicate Rep(stack: Stack, s: Sched, fd: nat) {
    s.Inv() && forall i: nat :: At(stack, i) == DueAt(s, fd, i)
  }

  ghost predicate Agrees(stack: Stack, s: Sched, cmd: Cmd)
    requires cmd.Valid()
  {
    var (ios, out) := RunLine(stack, cmd, s.clock);
    && Rep(out, s.Step(cmd), cmd.fd)
    && (cmd.runs ==> ios[0].input == s.Reads(cmd) && ios[cmd.stages - 1].output == s.Writes(cmd))
  }

  /** An ordinary `|` must not find a numbered pipe waiting for the very next line. */
  predicate Guard(stack: Stack, cmd: Cmd) {
    cmd.runs && cmd.stages > 1 ==> At(stack, 1).None?
  }

  lemma ShiftKeepsRep(stack: Stack, s: Sched, cmd: Cmd)
    requires Rep(stack, s, cmd.fd) && cmd.Valid() && cmd.runs
    ensures Rep(Last(Tail(stack), cmd.suffix, Pipe(s.clock, cmd.stages - 1)), s.Step(cmd), cmd.fd)
    ensures Front(stack) == s.Reads(cmd)
    ensures LastPipe(Tail(stack), cmd.suffix, Pipe(s.clock, cmd.stages - 1)) == s.Writes(cmd)
  {
    var out := Last(Tail(stack), cmd.suffix, Pipe(s.clock, cmd.stages - 1));
    assert Front(stack) == DueAt(s, cmd.fd, 0);
    if cmd.suffix.Some? {
      assert At(stack, cmd.suffix.value) == DueAt(s, cmd.fd, cmd.suffix.value);
    }
    forall i: nat ensures At(out, i) == DueAt(s.Step(cmd), cmd.fd, i) {
      assert At(stack, i + 1) == DueAt(s, cmd.fd, i + 1);
      assert At(Tail(stack), i) == At(stack, i + 1);
      if cmd.suffix.Some? {
        assert At(Padded(Tail(stack), cmd.suffix.value), i) == At(Tail(stack), i);
      }
    }
  }

  /** A line that finds an occupied slot behind the front consumes it: two positions for one line. */
  lemma TwoPositionsLose(stack: Stack, s: Sched, cmd: Cmd)
    requires Rep(stack, s, cmd.fd) && cmd.Valid() && cmd.runs && cmd.stages > 1 && At(stack, 1).Some?
    ensures !Rep(RunLine(stack, cmd, s.clock).1, s.Step(cmd), cmd.fd)
  {
    var q := At(stack, 1).value;
    assert At(stack, 1) == DueAt(s, cmd.fd, 1);
    var next := Tail(stack);
    forall j: nat ensures At(Tail(next), j) != Some(q) {
      assert At(Tail(next), j) == At(stack, j + 2) == DueAt(s, cmd.fd, j + 2);
    }
    NothingResurfaces(next, s.clock, 1, cmd.stages, cmd.suffix, q);
    var out := RunLine(stack, cmd, s.clock).1;
    assert Link(next, Pipe(s.clock, 0)) == next;
    assert out == RunStages(next, s.clock, 1, cmd.stages, cmd.suffix).1;
    assert At(out, 0) != Some(q);
    assert DueAt(s.Step(cmd), cmd.fd, 0) == Some(q);
  }

  /** One line of the list does what the reference asks exactly when the guard holds. */
  lemma RefinesIff(stack: Stack, s: Sched, cmd: Cmd)
    requires Rep(stack, s, cmd.fd) && cmd.Valid()
    ensures Agrees(stack, s, cmd) <==> Guard(stack, cmd)
  {
    if !cmd.runs {
      forall i: nat ensures At(stack, i) == DueAt(s.Step(cmd), cmd.fd, i) {
        assert At(stack, i) == DueAt(s, cmd.fd, i);
      }
    } else if Guard(stack, cmd) {
      ShiftKeepsRep(stack, s, cmd);
      OnePosition(stack, s.clock, 0, cmd.stages, cmd.suffix);
    } else {
      TwoPositionsLose(stack, s, cmd);
    }
  }
}
