/** The stage loop of np_single_proc's do_exec together with parser: which pipes are made, what each
    child's three standard descriptors become, and what the parent still holds at each fork. */
module Pipeline {
  import opened Descriptors

  datatype Io = Io(stdin: Desc, stdout: Desc, stderr: Desc)

  /** A forked child: its standard descriptors, and the pipe ends it inherits from the parent. */
  datatype Child = Child(io: Io, inherited: set<Desc>)

  /** What do_exec has decided before the loop. getInput is 0 without a suffix, 1 when the suffix
      joins a pending pipe, 2 when it needs a new one; outputFd is the socket, or the pending pipe.
      enter: a matured pipe is the input. toUser: the last stage carries `>k`. drop: the line is a
      single stage that pipes from and to its own user. */
  datatype Plan = Plan(line: nat, stages: nat, sock: Desc, getInput: int, outputFd: Desc,
                       enter: bool, bang: bool, toUser: bool, drop: bool) {
    predicate Valid() {
      && stages >= 1 && 0 <= getInput <= 2 && (bang ==> getInput != 0)
      && sock.Socket? && (getInput == 1 ==> outputFd.Wr? || outputFd == Terminal) && (getInput != 1 ==> outputFd == sock)
      && (drop ==> stages == 1 && toUser)
    }

    function Rd(i: nat): Desc {
      Desc.Rd(Pipe(line, i))
    }

    function Wr(i: nat): Desc {
      Desc.Wr(Pipe(line, i))
    }

    /** On the last stage 1 becomes 3 and 2 becomes 4. */
    function GetInputAt(i: nat): int {
      if i == stages - 1 && getInput != 0 then getInput + 2 else getInput
    }
  }

  /** The dup2 calls of parser's child, in order. Without the branch that matches, a descriptor keeps
      what the server itself has there. */
  function Dup2Table(first: bool, last: bool, getInput: int, enter: bool, bang: bool,
                     input: Desc, output: Desc, sock: Desc, wr: Desc, toUser: bool): Io
  {
    var io := Io(Terminal, sock, Terminal);
    var io := if first && !last && input == Terminal then io.(stdout := wr, stderr := sock)
              else if !first && !last && input != Terminal then Io(input, wr, sock)
              else if first && last && getInput == 4 && input == Terminal then io.(stdout := wr, stderr := sock)
              else if first && last && getInput == 4 && input != Terminal then Io(input, wr, sock)
              else if first && !last && input != Terminal then Io(input, wr, sock)
              else Io(input, output, output);
    var io := if bang && getInput != 3 then io.(stderr := wr)
              else if bang && getInput == 3 then io.(stderr := output)
              else io;
    var io := if enter then io.(stdin := input) else io;
    var io := if last && getInput == 4 then io.(stdout := wr)
              else if last && getInput == 3 then io.(stdout := output)
              else io;
    if toUser then io.(stdout := wr) else io
  }

  /** Stage i: pipe(), fork, then the parent closes what it no longer needs. */
  function StageChild(plan: Plan, i: nat, input: Desc, held: set<Desc>): Child {
    var last := i == plan.stages - 1;
    Child(Dup2Table(i == 0, last, plan.GetInputAt(i), plan.enter && i == 0, plan.bang, input, plan.outputFd,
                    plan.sock, plan.Wr(i), last && plan.toUser),
          held + {plan.Rd(i), plan.Wr(i)})
  }

  function HeldAfter(plan: Plan, i: nat, input: Desc, held: set<Desc>): set<Desc> {
    var last := i == plan.stages - 1;
    var made := held + {plan.Rd(i), plan.Wr(i)};
    var kept := if last && plan.drop then made - {plan.Rd(i)} else made;
    var kept := if input != Terminal then kept - {input} else kept;
    if last && plan.getInput != 0 then kept else kept - {plan.Wr(i)}
  }

  /** The loop from stage i on: the children, and what the parent holds at the end. */
  function StageLoop(plan: Plan, i: nat, input: Desc, held: set<Desc>): (r: (seq<Child>, set<Desc>))
    requires i < plan.stages
    ensures |r.0| == plan.stages - i
    decreases plan.stages - i
  {
    var child, after := StageChild(plan, i, input, held), HeldAfter(plan, i, input, held);
    if i == plan.stages - 1 then ([child], after)
    else
      var (children, end) := StageLoop(plan, i + 1, plan.Rd(i), after);
      ([child] + children, end)
  }

  // --- what the wiring is meant to be ---

  /** Stage i reads the pipe of stage i-1; the first stage reads the given input. */
  function StdinOf(plan: Plan, input: Desc, i: nat): Desc {
    if i == 0 then input else plan.Rd(i - 1)
  }

  /** Every stage but the last writes its own pipe, which the next one reads; the last writes the
      new pipe, the pending pipe, or the socket. */
  function StdoutOf(plan: Plan, i: nat): Desc {
    if i < plan.stages - 1 || plan.getInput == 2 || plan.toUser then plan.Wr(i)
    else plan.outputFd
  }

  /** The error stream: the socket, except that `!N` sends every stage's errors into that stage's
      pipe, and that a last stage which joins a pending pipe sends its errors there even for `|N`. */
  function StderrOf(plan: Plan, i: nat): Desc {
    if i == plan.stages - 1 && plan.getInput == 1 then plan.outputFd
    else if plan.bang then plan.Wr(i)
    else plan.sock
  }

  /** What the parent holds when stage i forks. */
  function HeldAtFork(plan: Plan, input: Desc, held: set<Desc>, i: nat): set<Desc> {
    if i == 0 then held + {plan.Rd(0), plan.Wr(0)}
    else held - {input} + {plan.Rd(i - 1), plan.Rd(i), plan.Wr(i)}
  }

  /** What the parent holds after the line: of all the pipes made, at most the last one's ends. */
  function HeldAtEnd(plan: Plan, input: Desc, held: set<Desc>): set<Desc>
    requires plan.stages >= 1
  {
    var k := plan.stages - 1;
    held - {input} + (if plan.drop then {} else {plan.Rd(k)}) + (if plan.getInput != 0 then {plan.Wr(k)} else {})
  }

  function ChildOf(plan: Plan, input: Desc, held: set<Desc>, i: nat): Child {
    Child(Io(StdinOf(plan, input, i), StdoutOf(plan, i), StderrOf(plan, i)), HeldAtFork(plan, input, held, i))
  }

  /** The descriptors a line starts with: no pipe of this line yet, and an input that is no socket.
      A stale table entry may still hold Terminal, the value it was initialised with. */
  ghost predicate Starts(plan: Plan, input: Desc, held: set<Desc>) {
    && plan.Valid()
    && (input == Terminal || (input.Rd? && input.pipe.line < plan.line))
    && (plan.getInput == 1 && plan.outputFd.Wr? ==> plan.outputFd.pipe.line < plan.line)
    && (forall d <- held :: (d.Rd? || d.Wr?) && d.pipe.line < plan.line)
  }

  /** One stage does what the wiring asks. */
  lemma StageWired(plan: Plan, i: nat, input: Desc, held: set<Desc>)
    requires Starts(plan, input, held) && i < plan.stages
    ensures StageChild(plan, i, StdinOf(plan, input, i), HeldBefore(plan, input, held, i))
         == ChildOf(plan, input, held, i)
    ensures i < plan.stages - 1 ==>
              HeldAfter(plan, i, StdinOf(plan, input, i), HeldBefore(plan, input, held, i))
              == HeldBefore(plan, input, held, i + 1)
    ensures i == plan.stages - 1 ==>
              HeldAfter(plan, i, StdinOf(plan, input, i), HeldBefore(plan, input, held, i))
              == HeldAtEnd(plan, input, held)
  {
  }

  function HeldBefore(plan: Plan, input: Desc, held: set<Desc>, i: nat): set<Desc> {
    if i == 0 then held else held - {input} + {plan.Rd(i - 1)}
  }

  /** Wiring, for every number of stages: the loop makes exactly the children described above, and
      leaves the parent with exactly the ends described above. */
  lemma {:induction false} LoopWired(plan: Plan, i: nat, input: Desc, held: set<Desc>)
    requires Starts(plan, input, held) && i < plan.stages
    ensures var (children, end) := StageLoop(plan, i, StdinOf(plan, input, i), HeldBefore(plan, input, held, i));
            && (forall j :: i <= j < plan.stages ==> children[j - i] == ChildOf(plan, input, held, j))
            && end == HeldAtEnd(plan, input, held)
    decreases plan.stages - i
  {
    StageWired(plan, i, input, held);
    if i < plan.stages - 1 { LoopWired(plan, i + 1, input, held); }
  }

  /** End of file will reach the child: it inherits the read end it uses and no write end of that
      pipe. And it writes only where its parent still has the write end open. */
  predicate Safe(c: Child) {
    && (c.io.stdin.Rd? ==> c.io.stdin in c.inherited && Desc.Wr(c.io.stdin.pipe) !in c.inherited)
    && (c.io.stdout.Wr? ==> c.io.stdout in c.inherited)
    && (c.io.stderr.Wr? ==> c.io.stderr in c.inherited)
  }

  /** The line's own input and its pending output are usable. */
  predicate GoodEnds(plan: Plan, input: Desc, held: set<Desc>) {
    && (input.Rd? ==> input in held && Desc.Wr(input.pipe) !in held)
    && (plan.getInput == 1 && plan.outputFd.Wr? ==> plan.outputFd in held)
  }

  lemma ChildSafe(plan: Plan, input: Desc, held: set<Desc>, i: nat)
    requires Starts(plan, input, held) && i < plan.stages
    ensures GoodEnds(plan, input, held) ==> Safe(ChildOf(plan, input, held, i))
    ensures i == 0 && Safe(ChildOf(plan, input, held, i)) && input.Rd? ==>
              input in held && Desc.Wr(input.pipe) !in held
    ensures i == plan.stages - 1 && Safe(ChildOf(plan, input, held, i)) ==>
              (plan.getInput == 1 && plan.outputFd.Wr? ==> plan.outputFd in held)
  {
  }

  /** Every child of a line is safe exactly when the line's input and its pending output are. */
  lemma LoopSafe(plan: Plan, input: Desc, held: set<Desc>)
    requires Starts(plan, input, held)
    ensures (forall c <- StageLoop(plan, 0, input, held).0 :: Safe(c)) <==> GoodEnds(plan, input, held)
  {
    LoopWired(plan, 0, input, held);
    var children := StageLoop(plan, 0, input, held).0;
    if GoodEnds(plan, input, held) {
      forall c <- children ensures Safe(c) {
        var j :| 0 <= j < |children| && children[j] == c;
        ChildSafe(plan, input, held, j);
      }
    } else {
      ChildSafe(plan, input, held, 0);
      ChildSafe(plan, input, held, plan.stages - 1);
      assert children[0] in children && children[plan.stages - 1] in children;
    }
  }
}
