/** npshell on its two global vectors. fork is reduced to recording what the child is connected to. */
module NpShell {
  import opened Descriptors
  import opened Schedule
  import opened ShiftingList
  import PO = PipeOwnership

  class Shell {
    var pipeStack: Stack
    var recycle: seq<Pipe>
    var line: nat
    var stage: nat
    ghost var made: seq<Pipe>
    ghost var freed: seq<Pipe>

    ghost function State(): PO.Shell
      reads this
    {
      PO.Shell(pipeStack, recycle, made, freed, line, stage)
    }

    constructor ()
      ensures State() == PO.START
    {
      pipeStack, recycle := [], [];
      line, stage := 0, 0;
      made, freed := [], [];
    }

    method CleanPipes()
      modifies this`recycle, this`freed
      ensures State() == old(State()).Clean()
    {
      ghost var n := 0;
      while |recycle| > 10
        invariant 0 <= n <= old(State()).Excess()
        invariant recycle == old(recycle)[n..] && freed == old(freed) + old(recycle)[..n]
      {
        freed := freed + [recycle[0]];
        recycle := recycle[1..];
        n := n + 1;
      }
    }

    method GetPipe() returns (p: Option<Pipe>)
      modifies this`pipeStack, this`recycle
      ensures State() == old(State()).GetPipe() && p == Front(old(pipeStack))
    {
      if |pipeStack| != 0 {
        p := pipeStack[0];
        if p.Some? { recycle := recycle + [p.value]; }
        pipeStack := pipeStack[1..];
      } else {
        p := None;
      }
    }

    /** pipe() fails `failures` times before it succeeds. */
    method MakeNewPipe(failures: nat) returns (p: Pipe)
      modifies this`recycle, this`freed, this`made
      ensures State() == old(State()).MakePipe(failures > 0) && p == old(State()).Next()
    {
      var left := failures;
      while left > 0
        invariant 0 <= left <= failures
        invariant State() == if left == failures then old(State()) else old(State()).Clean()
      {
        PO.CleanTwice(old(State()));
        CleanPipes();
        left := left - 1;
      }
      p := Pipe(line, stage);
      made := made + [p];
    }

    method ExecuteCMD(kind: PO.Kind, failures: nat) returns (io: StageIo)
      requires kind.Valid()
      modifies this`pipeStack, this`recycle, this`freed, this`made, this`stage
      ensures State() == old(State()).Stage(kind, failures > 0)
      ensures kind.Skip? ==> io == StageIo(None, None)
      ensures !kind.Skip? ==> io.input == Front(old(pipeStack))
      ensures kind.Ordinary? ==> io.output == Some(LinkPipe(Tail(old(pipeStack)), old(State()).Next()))
      ensures kind.Numbered? ==> io.output == Some(PlacePipe(Tail(old(pipeStack)), kind.n, old(State()).Next()))
      ensures !kind.Ordinary? && !kind.Numbered? ==> io.output == None
    {
      io := StageIo(None, None);
      if !kind.Skip? {
        var prevPipe := GetPipe();
        io := StageIo(prevPipe, None);
        if kind.Numbered? {
          ghost var popped := State();
          while kind.n > |pipeStack|
            invariant Padded(pipeStack, kind.n) == Padded(popped.stack, kind.n)
            invariant State() == popped.(stack := pipeStack)
            decreases kind.n - |pipeStack|
          {
            pipeStack := pipeStack + [None];
          }
          assert pipeStack == Padded(popped.stack, kind.n);
          assert At(pipeStack, kind.n - 1) == At(popped.stack, kind.n - 1);
          if pipeStack[kind.n - 1].None? {
            var currentPipe := MakeNewPipe(failures);
            pipeStack := pipeStack[kind.n - 1 := Some(currentPipe)];
            io := StageIo(prevPipe, Some(currentPipe));
          } else {
            io := StageIo(prevPipe, pipeStack[kind.n - 1]);
          }
        } else if kind.Ordinary? {
          if |pipeStack| == 0 || pipeStack[0].None? {
            var currentPipe := MakeNewPipe(failures);
            pipeStack := [Some(currentPipe)] + pipeStack;
            io := StageIo(prevPipe, Some(currentPipe));
          } else {
            io := StageIo(prevPipe, pipeStack[0]);
          }
        }
      }
      stage := stage + 1;
    }

    /** Stage i of a line of k stages, and the cleaning after it. */
    method RunStage(cmd: Cmd, i: nat, end: PO.Kind, failures: nat) returns (io: StageIo)
      requires cmd.Valid() && PO.EndsLine(end) && State().Owned() && i < cmd.stages && stage == i
      modifies this`pipeStack, this`recycle, this`freed, this`made, this`stage
      ensures State() == PO.StageAndClean(old(State()), PO.KindOf(cmd, i, end), failures > 0)
      ensures State().Owned() && old(State()).Retired() <= State().Retired() && |recycle| <= PO.KEEP
      ensures var all := RunStages(old(pipeStack), line, i, cmd.stages, cmd.suffix);
              if i == cmd.stages - 1 then all.0 == [io] && all.1 == pipeStack
              else var rest := RunStages(pipeStack, line, i + 1, cmd.stages, cmd.suffix);
                   all.0 == [io] + rest.0 && all.1 == rest.1
    {
      PO.StageThenClean(State(), PO.KindOf(cmd, i, end), failures > 0);
      io := ExecuteCMD(PO.KindOf(cmd, i, end), failures);
      CleanPipes();
    }

    /** The loop in main that executes the rest of the line after each stage. It keeps the ownership
        of every pipe object and ends with at most ten popped ones. failures says how often pipe() fails
        at each stage. */
    method RunCommandLine(cmd: Cmd, end: PO.Kind, failures: seq<nat>) returns (ios: seq<StageIo>)
      requires cmd.Valid() && PO.EndsLine(end) && |failures| == cmd.stages && State().Owned() && stage == 0
      modifies this
      ensures (ios, pipeStack) == RunLine(old(pipeStack), cmd, old(line))
      ensures State().Owned() && |recycle| <= PO.KEEP && line == old(line) + 1 && stage == 0
      ensures old(State()).Retired() <= State().Retired()
    {
      ios := [];
      if cmd.runs {
        ios := RunAllStages(cmd, end, failures);
      }
      PO.CleanOwned(State());
      CleanPipes();
      PO.EndLineOwned(State());
      line, stage := line + 1, 0;
    }

    method RunAllStages(cmd: Cmd, end: PO.Kind, failures: seq<nat>) returns (ios: seq<StageIo>)
      requires cmd.Valid() && PO.EndsLine(end) && |failures| == cmd.stages && State().Owned() && stage == 0
      modifies this`pipeStack, this`recycle, this`freed, this`made, this`stage
      ensures (ios, pipeStack) == RunStages(old(pipeStack), line, 0, cmd.stages, cmd.suffix)
      ensures State().Owned() && old(State()).Retired() <= State().Retired()
    {
      ios := [];
      ghost var all := RunStages(pipeStack, line, 0, cmd.stages, cmd.suffix);
      assert all.0 == [] + all.0;
      var i := 0;
      while i < cmd.stages
        invariant 0 <= i <= cmd.stages && stage == i
        invariant State().Owned() && old(State()).Retired() <= State().Retired()
        invariant if i == cmd.stages then all.0 == ios && all.1 == pipeStack
                  else var rest := RunStages(pipeStack, line, i, cmd.stages, cmd.suffix);
                       all.0 == ios + rest.0 && all.1 == rest.1
      {
        ghost var before := ios;
        var io := RunStage(cmd, i, end, failures[i]);
        ios := ios + [io];
        i := i + 1;
        if i < cmd.stages {
          Regroup(before, io, RunStages(pipeStack, line, i, cmd.stages, cmd.suffix).0);
        }
      }
    }

    static lemma Regroup(before: seq<StageIo>, io: StageIo, rest: seq<StageIo>)
      ensures before + ([io] + rest) == (before + [io]) + rest
    {
    }
  }
}
