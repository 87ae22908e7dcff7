/** Who owns a pipe object in npshell. An object is in the list of slots until it is popped, then in
    `recycle` until cleanPipes frees it. */
module PipeOwnership {
  import opened Descriptors
  import opened Schedule
  import opened ShiftingList

  /** cleanPipes keeps this many popped pipes. */
  const KEEP: nat := 10

  /** How one stage of a line ends. BadSymbol is a `!` without a number: the front is popped before
      the error is noticed. Skip is a builtin or a line that does not parse. */
  datatype Kind = Run | Redirect | BadSymbol | Ordinary | Numbered(n: nat) | Skip {
    predicate Valid() {
      Numbered? ==> n >= 1
    }
  }

  /** `made` and `freed` record what makeNewPipe and cleanPipes have done so far; (line, stage)
      names the next pipe. */
  datatype Shell = Shell(stack: Stack, recycle: seq<Pipe>, made: seq<Pipe>, freed: seq<Pipe>,
                         line: nat, stage: nat) {
    function Next(): Pipe {
      Pipe(line, stage)
    }

    function GetPipe(): Shell {
      this.(stack := Tail(stack),
            recycle := if Front(stack).Some? then recycle + [Front(stack).value] else recycle)
    }

    /** How many of the popped pipes cleanPipes frees. */
    function Excess(): nat {
      if |recycle| > KEEP then |recycle| - KEEP else 0
    }

    function Clean(): Shell {
      this.(freed := freed + recycle[..Excess()], recycle := recycle[Excess()..])
    }

    /** pipe() may fail; then cleanPipes runs before it is tried again. */
    function MakePipe(failed: bool): Shell {
      var s := if failed then Clean() else this;
      s.(made := made + [Next()])
    }

    function LinkFront(failed: bool): Shell {
      if Front(stack).Some? then this
      else MakePipe(failed).(stack := Link(stack, Next()))
    }

    function PlaceAt(n: nat, failed: bool): Shell
      requires n >= 1
    {
      if At(stack, n - 1).Some? then this.(stack := Padded(stack, n))
      else MakePipe(failed).(stack := Place(stack, n, Next()))
    }

    function Stage(kind: Kind, failed: bool): Shell
      requires kind.Valid()
    {
      var s := if kind.Skip? then this
               else if kind.Ordinary? then GetPipe().LinkFront(failed)
               else if kind.Numbered? then GetPipe().PlaceAt(kind.n, failed)
               else GetPipe();
      s.(stage := stage + 1)
    }

    function EndLine(): Shell {
      this.(line := line + 1, stage := 0)
    }

    function Older(p: Pipe): bool {
      p.line < line || (p.line == line && p.stage < stage)
    }

    /** An object that was made is in exactly one place, once; no other object is anywhere. */
    ghost predicate Accounted(p: Pipe) {
      && multiset(made)[p] <= 1 && (p in made ==> Older(p))
      && multiset(made)[p] == Pipes(stack)[p] + multiset(recycle)[p] + multiset(freed)[p]
    }

    ghost predicate Owned() {
      forall p :: Accounted(p)
    }

    /** The objects in the order in which they were popped. */
    function Retired(): seq<Pipe> {
      freed + recycle
    }
  }

  const START := Shell([], [], [], [], 0, 0)

  ghost function Pipes(stack: Stack): multiset<Pipe> {
    if stack == [] then multiset{}
    else (if stack[0].Some? then multiset{stack[0].value} else multiset{}) + Pipes(stack[1..])
  }

  lemma {:induction false} PipesSplit(a: Stack, b: Stack)
    ensures Pipes(a + b) == Pipes(a) + Pipes(b)
  {
    if a == [] {
      assert a + b == b;
    } else {
      assert (a + b)[1..] == a[1..] + b;
      PipesSplit(a[1..], b);
    }
  }

  lemma {:induction false} PipesPadded(stack: Stack, n: nat)
    ensures Pipes(Padded(stack, n)) == Pipes(stack)
    decreases n - |stack|
  {
    if n > |stack| {
      PipesPadded(stack + [None], n);
      PipesSplit(stack, [None]);
      assert Pipes([None]) == multiset{};
    }
  }

  /** Filling an empty slot adds exactly one object. */
  lemma PipesFilled(stack: Stack, i: nat, p: Pipe)
    requires i < |stack| && stack[i].None?
    ensures Pipes(stack[i := Some(p)]) == Pipes(stack) + multiset{p}
  {
    var before, after := stack[..i], stack[i + 1..];
    assert stack == before + ([None] + after);
    assert stack[i := Some(p)] == before + ([Some(p)] + after);
    PipesSplit(before, [None] + after);
    PipesSplit(before, [Some(p)] + after);
    PipesSplit([None], after);
    PipesSplit([Some(p)], after);
    assert Pipes([None]) == multiset{} && Pipes([Some(p)]) == multiset{p};
  }

  lemma GetPipeOwned(s: Shell)
    requires s.Owned()
    ensures s.GetPipe().Owned() && s.Retired() <= s.GetPipe().Retired()
  {
    if Front(s.stack).Some? {
      var q := Front(s.stack).value;
      assert s.GetPipe().Retired() == s.Retired() + [q];
      assert multiset(s.recycle + [q]) == multiset(s.recycle) + multiset{q};
    }
    forall p ensures s.GetPipe().Accounted(p) { assert s.Accounted(p); }
  }

  /** cleanPipes frees from the front, so objects are freed in the order they were popped. */
  lemma CleanOwned(s: Shell)
    requires s.Owned()
    ensures s.Clean().Owned() && s.Clean().Retired() == s.Retired()
    ensures s.freed <= s.Clean().freed && |s.Clean().recycle| <= KEEP
  {
    var gone, kept := s.recycle[..s.Excess()], s.recycle[s.Excess()..];
    assert s.recycle == gone + kept;
    assert s.freed + (gone + kept) == (s.freed + gone) + kept;
    assert multiset(s.freed + gone) == multiset(s.freed) + multiset(gone);
    assert multiset(s.recycle) == multiset(gone) + multiset(kept);
    forall p ensures s.Clean().Accounted(p) { assert s.Accounted(p); }
  }

  lemma EndLineOwned(s: Shell)
    requires s.Owned()
    ensures s.EndLine().Owned() && s.EndLine().Retired() == s.Retired()
  {
    forall p ensures s.EndLine().Accounted(p) { assert s.Accounted(p); }
  }

  lemma CleanTwice(s: Shell)
    ensures s.Clean().Clean() == s.Clean()
  {
    assert s.Clean().Excess() == 0;
  }

  /** cleanPipes keeps the last ten popped pipes, and all of them if there are no more. */
  lemma CleanKeepsLast(s: Shell)
    ensures var kept := s.Clean().recycle;
            && |kept| == (if |s.recycle| <= 10 then |s.recycle| else 10)
            && kept == s.recycle[|s.recycle| - |kept|..]
            && (|s.recycle| <= 10 ==> s.Clean() == s)
  {
    if |s.recycle| <= KEEP { assert s.recycle[..0] == [] && s.freed + [] == s.freed; }
  }

  /** Every stage but a builtin pops the front of the list; and the pipe that it pops, which its child reads, is
      the last popped one and outlives the cleaning after the stage, even if pipe() failed in between. */
  lemma PoppedSurvives(s: Shell, kind: Kind, failed: bool)
    requires kind.Valid() && !kind.Skip? && Front(s.stack).Some?
    ensures var t := StageAndClean(s, kind, failed);
            && |t.recycle| > 0 && t.recycle[|t.recycle| - 1] == Front(s.stack).value
            && |t.freed| <= |s.freed| + (if |s.recycle| + 1 > KEEP then |s.recycle| + 1 - KEEP else 0)
  {
    var popped := s.GetPipe();
    var t := s.Stage(kind, failed);
    StageRecycles(s, kind, failed);
    CleanAgain(popped, t);
    CleanKeepsLast(popped);
  }

  /** Within a stage, only the cleaning after a failed pipe() frees anything. */
  lemma StageRecycles(s: Shell, kind: Kind, failed: bool)
    requires kind.Valid() && !kind.Skip?
    ensures var popped, t := s.GetPipe(), s.Stage(kind, failed);
            || (t.recycle == popped.recycle && t.freed == popped.freed)
            || (t.recycle == popped.Clean().recycle && t.freed == popped.Clean().freed)
  {
  }

  lemma CleanAgain(popped: Shell, t: Shell)
    requires || (t.recycle == popped.recycle && t.freed == popped.freed)
             || (t.recycle == popped.Clean().recycle && t.freed == popped.Clean().freed)
    ensures t.Clean().recycle == popped.Clean().recycle && t.Clean().freed == popped.Clean().freed
  {
    CleanTwice(popped);
  }

  /** What each kind of stage leaves of the list: the pop moves everything forward by one; an ordinary `|` then
      inserts a new front unless the front is occupied; `|N` sees to it that index N-1 is. */
  lemma StagePops(s: Shell, kind: Kind, failed: bool, i: nat)
    requires kind.Valid()
    ensures var stack := s.Stage(kind, failed).stack;
            && (kind.Skip? ==> stack == s.stack)
            && (kind.Ordinary? ==> At(stack, 0).Some?)
            && (kind.Ordinary? && i > 0 ==> At(stack, i) == At(s.stack, if At(s.stack, 1).Some? then i + 1 else i))
            && (kind.Numbered? ==> At(stack, kind.n - 1).Some?)
            && (kind.Numbered? && i != kind.n - 1 ==> At(stack, i) == At(s.stack, i + 1))
            && (kind.Run? || kind.Redirect? || kind.BadSymbol? ==> At(stack, i) == At(s.stack, i + 1))
  {
    var rest := Tail(s.stack);
    assert forall j: nat :: At(rest, j) == At(s.stack, j + 1);
    if kind.Ordinary? && i > 0 && Front(rest).None? { assert At([Some(s.Next())] + rest, i) == At(rest, i - 1); }
    if kind.Numbered? { assert At(Padded(rest, kind.n), i) == At(rest, i); }
  }

  /** One stage and the cleaning after it, as the main loop runs them. */
  function StageAndClean(s: Shell, kind: Kind, failed: bool): Shell
    requires kind.Valid()
  {
    s.Stage(kind, failed).Clean()
  }

  lemma StageThenClean(s: Shell, kind: Kind, failed: bool)
    requires s.Owned() && kind.Valid()
    ensures var t := StageAndClean(s, kind, failed);
            t.Owned() && s.Retired() <= t.Retired() && |t.recycle| <= KEEP
  {
    StageOwned(s, kind, failed);
    CleanOwned(s.Stage(kind, failed));
  }

  lemma MakePipeOwned(s: Shell, failed: bool, stack: Stack)
    requires s.Owned() && Pipes(stack) == Pipes(s.stack) + multiset{s.Next()}
    ensures s.MakePipe(failed).(stack := stack, stage := s.stage + 1).Owned()
    ensures s.MakePipe(failed).Retired() == s.Retired()
  {
    CleanOwned(s);
    var c := if failed then s.Clean() else s;
    AddedOwned(c, stack);
  }

  lemma AddedOwned(c: Shell, stack: Stack)
    requires c.Owned() && Pipes(stack) == Pipes(c.stack) + multiset{c.Next()}
    ensures c.(made := c.made + [c.Next()], stack := stack, stage := c.stage + 1).Owned()
  {
    var p := c.Next();
    var r := c.(made := c.made + [p], stack := stack, stage := c.stage + 1);
    assert c.Accounted(p) && p !in c.made;
    assert multiset(r.made) == multiset(c.made) + multiset{p};
    forall q ensures r.Accounted(q) { assert c.Accounted(q); }
  }

  lemma SameOwned(s: Shell, stack: Stack)
    requires s.Owned() && Pipes(stack) == Pipes(s.stack)
    ensures s.(stack := stack, stage := s.stage + 1).Owned()
  {
    var r := s.(stack := stack, stage := s.stage + 1);
    forall q ensures r.Accounted(q) { assert s.Accounted(q); }
  }

  /** One stage keeps every object in exactly one place, and only ever appends to the popped order. */
  lemma StageOwned(s: Shell, kind: Kind, failed: bool)
    requires s.Owned() && kind.Valid()
    ensures s.Stage(kind, failed).Owned()
    ensures s.Retired() <= s.Stage(kind, failed).Retired()
  {
    if kind.Skip? {
      SameOwned(s, s.stack);
    } else {
      GetPipeOwned(s);
      if kind.Ordinary? {
        LinkOwned(s.GetPipe(), failed);
      } else if kind.Numbered? {
        PlaceOwned(s.GetPipe(), kind.n, failed);
      } else {
        SameOwned(s.GetPipe(), s.GetPipe().stack);
      }
    }
  }

  lemma LinkOwned(t: Shell, failed: bool)
    requires t.Owned()
    ensures var u := t.LinkFront(failed); u.(stage := u.stage + 1).Owned() && u.Retired() == t.Retired()
  {
    if Front(t.stack).Some? {
      SameOwned(t, t.stack);
    } else {
      assert Pipes(Link(t.stack, t.Next())) == Pipes(t.stack) + multiset{t.Next()} by {
        assert Link(t.stack, t.Next())[1..] == t.stack;
      }
      MakePipeOwned(t, failed, Link(t.stack, t.Next()));
    }
  }

  lemma PlaceOwned(t: Shell, n: nat, failed: bool)
    requires t.Owned() && n >= 1
    ensures var u := t.PlaceAt(n, failed); u.(stage := u.stage + 1).Owned() && u.Retired() == t.Retired()
  {
    if At(t.stack, n - 1).Some? {
      PipesPadded(t.stack, n);
      SameOwned(t, Padded(t.stack, n));
    } else {
      PlaceAdds(t.stack, n, t.Next());
      MakePipeOwned(t, failed, Place(t.stack, n, t.Next()));
    }
  }

  lemma PlaceAdds(stack: Stack, n: nat, p: Pipe)
    requires n >= 1 && At(stack, n - 1).None?
    ensures Pipes(Place(stack, n, p)) == Pipes(stack) + multiset{p}
  {
    PipesPadded(stack, n);
    assert At(Padded(stack, n), n - 1).None?;
    PipesFilled(Padded(stack, n), n - 1, p);
  }

  /** Stage i of a line; `end` is how its last stage ends without a suffix: plainly or with `>`. */
  function KindOf(cmd: Cmd, i: nat, end: Kind): Kind {
    if i + 1 < cmd.stages then Ordinary
    else if cmd.suffix.Some? then Numbered(cmd.suffix.value) else end
  }

  predicate EndsLine(kind: Kind) {
    kind.Run? || kind.Redirect?
  }

  /** What the main loop does: stages with a cleaning after each, and the end of a line. */
  datatype Op = Stage(kind: Kind, failed: bool) | Clean | EndLine

  function Do(s: Shell, op: Op): Shell
    requires op.Stage? ==> op.kind.Valid()
  {
    match op
    case Stage(kind, failed) => s.Stage(kind, failed)
    case Clean => s.Clean()
    case EndLine => s.EndLine()
  }

  ghost predicate ValidOps(ops: seq<Op>) {
    forall i | 0 <= i < |ops| && ops[i].Stage? :: ops[i].kind.Valid()
  }

  ghost function RunOps(ops: seq<Op>): Shell
    requires ValidOps(ops)
  {
    if ops == [] then START else Do(RunOps(ops[..|ops| - 1]), ops[|ops| - 1])
  }

  lemma DoOwned(s: Shell, op: Op)
    requires s.Owned() && (op.Stage? ==> op.kind.Valid())
    ensures Do(s, op).Owned() && s.Retired() <= Do(s, op).Retired()
  {
    match op
    case Stage(kind, failed) => StageOwned(s, kind, failed);
    case Clean => CleanOwned(s);
    case EndLine => EndLineOwned(s);
  }

  /** Over every run: one owner per object, nothing freed twice, and freed oldest first (the freed
      objects are always the first ones popped, in that order). */
  lemma {:induction false} OwnershipOverRuns(ops: seq<Op>, n: nat)
    requires ValidOps(ops) && n <= |ops|
    ensures RunOps(ops).Owned()
    ensures ValidOps(ops[..n]) && RunOps(ops[..n]).Retired() <= RunOps(ops).Retired()
    ensures forall p :: multiset(RunOps(ops).freed)[p] <= 1
    decreases |ops|
  {
    if n == |ops| {
      assert ops[..n] == ops;
      OwnedAfter(ops);
    } else {
      var init := ops[..|ops| - 1];
      OwnershipOverRuns(init, n);
      assert init[..n] == ops[..n];
      DoOwned(RunOps(init), ops[|ops| - 1]);
    }
    FreedOnce(RunOps(ops));
  }

  lemma {:induction false} OwnedAfter(ops: seq<Op>)
    requires ValidOps(ops)
    ensures RunOps(ops).Owned()
    decreases |ops|
  {
    if ops == [] {
      forall p ensures START.Accounted(p) {}
    } else {
      OwnedAfter(ops[..|ops| - 1]);
      DoOwned(RunOps(ops[..|ops| - 1]), ops[|ops| - 1]);
    }
  }

  lemma FreedOnce(s: Shell)
    requires s.Owned()
    ensures forall p :: multiset(s.freed)[p] <= 1
  {
    forall p ensures multiset(s.freed)[p] <= 1 { assert s.Accounted(p); }
  }
}
