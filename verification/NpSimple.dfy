/** np_simple's do_exec as it works on its three global arrays. The stage loop is reduced to what the
    arrays see of it: which ends the first stage takes, and the new pipe made by the last stage. */
module NpSimple {
  import opened Descriptors
  import opened Schedule
  import opened CountdownRing
  import opened RingRuns

  const BUFFER_SIZE_S: nat := 1024

  class Shell {
    var inputNum: array<Desc>
    var inputCount: array<int>
    var outputNum: array<Desc>
    var pos: nat
    var lines: nat  // names the pipes: one line makes at most one pipe per stage

    ghost predicate Valid()
      reads this
    {
      && inputNum.Length == inputCount.Length == outputNum.Length == BUFFER_SIZE_S
      && inputNum != outputNum
      && pos <= LAST
    }

    ghost function View(): (r: Ring)
      requires Valid()
      reads this, inputNum, inputCount, outputNum
      ensures r.Shape() && |r.slots| == BUFFER_SIZE_S
    {
      Ring(seq(BUFFER_SIZE_S, j requires 0 <= j < BUFFER_SIZE_S reads this, inputNum, inputCount, outputNum
                              requires Valid() =>
                 Slot(Ends(inputNum[j], outputNum[j]), inputCount[j], 0)), pos)
    }

    constructor ()
      ensures Valid() && View() == Initial(BUFFER_SIZE_S) && lines == 0
      ensures fresh(inputNum) && fresh(inputCount) && fresh(outputNum)
    {
      inputNum := new Desc[BUFFER_SIZE_S](_ => Terminal);
      inputCount := new int[BUFFER_SIZE_S](_ => 0);
      outputNum := new Desc[BUFFER_SIZE_S](_ => Terminal);
      pos, lines := 0, 0;
    }

    /** The scan for a pending pipe with the same target: stops at the first. */
    method MergeScan(pipeNumber: nat) returns (found: int)
      requires Valid()
      ensures found == FindPending(View().slots, 0, SCAN, 0, pipeNumber + 1)
    {
      var i := 0;
      while i < 1000
        invariant 0 <= i <= SCAN
        invariant FindPending(View().slots, 0, SCAN, 0, pipeNumber + 1)
               == FindPending(View().slots, i, SCAN, 0, pipeNumber + 1)
      {
        if inputCount[i] == pipeNumber + 1 { return i; }
        i := i + 1;
      }
      return -1;
    }

    /** The aging scan: remembers the last entry standing at 1, and takes one off every entry. */
    method AgeScan() returns (matured: Option<Ends>)
      requires Valid()
      modifies inputCount
      ensures View() == old(View()).Age(0)
      ensures var j := FindMatured(old(View().slots), SCAN, 0);
              matured == if j == -1 then None else Some(old(View().slots)[j].ends)
    {
      ghost var before := View().slots;
      matured := None;
      var j := 0;
      while j < 1000
        invariant 0 <= j <= SCAN
        invariant View().slots == Aged(before, j, 0)
        invariant var m := FindMatured(before, j, 0);
                  matured == if m == -1 then None else Some(before[m].ends)
      {
        assert View().slots[j] == before[j];
        if inputCount[j] == 1 { matured := Some(Ends(inputNum[j], outputNum[j])); }
        ghost var now := View().slots;
        inputCount[j] := inputCount[j] - 1;
        assert View().slots == now[j := AgedSlot(now[j], 0)];
        j := j + 1;
      }
    }

    method Reserve(pipeNumber: nat)
      requires Valid()
      modifies inputCount
      ensures View() == old(View()).Reserve(0, pipeNumber)
    {
      ghost var now := View().slots;
      inputCount[pos] := pipeNumber + 1;
      assert View().slots == now[pos := now[pos].(count := pipeNumber + 1, owner := 0)];
    }

    method Commit(p: Pipe)
      requires Valid()
      modifies this`pos, inputNum, outputNum
      ensures Valid() && View() == old(View()).Commit(PipeEnds(p))
    {
      ghost var now := View().slots;
      inputNum[pos] := Rd(p);
      outputNum[pos] := Wr(p);
      assert View().slots == now[pos := now[pos].(ends := PipeEnds(p))];
      pos := pos + 1;
      if pos > 1000 { pos := 0; }
    }

    /** A suffix joins the pending pipe with the same target, or takes the entry at `pos`. */
    method PlanOutput(cmd: Cmd) returns (isNew: bool, lastOutput: Option<Desc>)
      requires Valid() && cmd.Valid() && cmd.fd == 0
      modifies inputCount
      ensures isNew == old(View()).Fresh(SCAN, cmd)
      ensures lastOutput == if cmd.suffix.Some? && !isNew
                            then Some(old(View()).slots[old(View()).Find(SCAN, cmd)].ends.outNum) else None
      ensures View() == old(View()).Reserved(SCAN, cmd)
    {
      isNew, lastOutput := false, None;
      if cmd.suffix.Some? {
        var found := MergeScan(cmd.suffix.value);
        if found != -1 {
          lastOutput := Some(outputNum[found]);
        } else {
          isNew := true;
          Reserve(cmd.suffix.value);
        }
      }
    }

    /** One command line: reserve or merge, age, run the stages, store the new pipe's ends. */
    method DoExec(cmd: Cmd) returns (input: Option<Ends>, output: Option<Desc>)
      requires Valid() && cmd.Valid() && cmd.fd == 0
      modifies this`pos, this`lines, inputNum, inputCount, outputNum
      ensures Valid() && lines == old(lines) + 1
      ensures View() == old(View()).Step(SCAN, cmd, old(lines))
      ensures input == old(View()).Reads(SCAN, cmd)
      ensures output == old(View()).Writes(SCAN, cmd, old(lines))
    {
      input, output := None, None;
      ghost var r := View();
      var isNew, lastOutput := PlanOutput(cmd);
      if cmd.runs { input, output := RunLine(cmd, isNew, lastOutput, r); }
      lines := lines + 1;
    }

    /** The stage loop of a line that runs; r is the table in which the line began. */
    method RunLine(cmd: Cmd, isNew: bool, lastOutput: Option<Desc>, ghost r: Ring)
      returns (input: Option<Ends>, output: Option<Desc>)
      requires Valid() && cmd.Valid() && cmd.fd == 0 && cmd.runs && r.Shape() && |r.slots| == BUFFER_SIZE_S
      requires View() == r.Reserved(SCAN, cmd) && isNew == r.Fresh(SCAN, cmd)
      requires lastOutput == if cmd.suffix.Some? && !isNew then Some(r.slots[r.Find(SCAN, cmd)].ends.outNum) else None
      modifies this`pos, inputNum, inputCount, outputNum
      ensures Valid() && View() == r.Step(SCAN, cmd, lines)
      ensures input == r.Reads(SCAN, cmd) && output == r.Writes(SCAN, cmd, lines)
    {
      input := AgeScan();
      output := lastOutput;
      if isNew {
        var p := Pipe(lines, cmd.stages - 1);
        Commit(p);
        output := Some(Wr(p));
      }
    }
  }
}
