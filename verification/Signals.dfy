/** np_multi_proc's message passing as interleaved steps. Each logged-in user is a process with a main
    program (broadcast or tell) and a SIGUSR1 handler. A sender fills a slot and then signals the
    receiver; signals coalesce, are held back while the handler runs, and the handler visits the
    300 slots one by one. The set of logged-in users is fixed. */
module Signals {
  import opened Descriptors
  import opened Mailbox

  const MAX_USERS: nat := 30
  const CELLS: nat := MAX_USERS * MAX_MSG_NUM

  /** rest: the receivers still to be served. MustKill: a slot of target is filled, the signal not
      yet sent. */
  datatype Main = Idle | Sending(rest: seq<nat>) | MustKill(target: nat, rest: seq<nat>)

  /** handler: the next of the 300 slots to visit, in row-major order, while the handler runs. */
  datatype Proc = Proc(main: Main, pending: bool, handler: Option<nat>)

  datatype Event =
    | Broadcast(s: nat) | Tell(s: nat, r: nat)              // a command starts
    | Deposit(s: nat) | Kill(s: nat) | Finish(s: nat)       // its steps
    | Catch(r: nat) | Visit(r: nat) | Return(r: nat)        // the handler's steps
  {
    /** The process that moves. */
    function Who(): nat {
      match this
      case Broadcast(s) => s
      case Tell(s, _) => s
      case Deposit(s) => s
      case Kill(s) => s
      case Finish(s) => s
      case Catch(r) => r
      case Visit(r) => r
      case Return(r) => r
    }

    predicate Starts() {
      Broadcast? || Tell?
    }
  }

  /** The logged-in users from i on, as the loop of broadcast meets them. */
  function Targets(live: set<nat>, i: nat): (r: seq<nat>)
    ensures forall t <- r :: t in live && t >= i
    ensures forall t <- live :: i <= t < MAX_USERS ==> t in r
    ensures forall a, b :: 0 <= a < b < |r| ==> r[a] < r[b]
    decreases MAX_USERS - i, live
  {
    if i >= MAX_USERS then []
    else
      var rest := Targets(live, i + 1);
      assert forall b | 0 <= b < |rest| :: rest[b] in rest && rest[b] > i;
      if i in live then [i] + rest else rest
  }

  datatype Sys = Sys(live: set<nat>, procs: seq<Proc>, boxes: map<(nat, nat), Box>) {
    /** Boxes are named (receiver, sender). */
    ghost predicate Shape() {
      && |procs| == MAX_USERS
      && (forall u <- live :: u < MAX_USERS)
      && (forall r, s | r in live && s in live :: (r, s) in boxes)
      && (forall k <- boxes :: k.0 in live && k.1 in live)
      && (forall u | 0 <= u < MAX_USERS :: ProcOk(procs[u]))
    }

    ghost predicate ProcOk(p: Proc) {
      && (p.main.Sending? ==> forall t <- p.main.rest :: t in live)
      && (p.main.MustKill? ==> p.main.target in live && forall t <- p.main.rest :: t in live)
      && (p.handler.Some? ==> p.handler.value <= CELLS)
    }

    /** A handler interrupts its own process: the main program waits until it returns. */
    predicate Enabled(e: Event)
      requires |procs| == MAX_USERS
    {
      && e.Who() in live && e.Who() < MAX_USERS
      && var p := procs[e.Who()];
      match e
      case Broadcast(_) => p.handler.None? && p.main.Idle?
      case Tell(_, r) => p.handler.None? && p.main.Idle? && r in live
      case Deposit(_) => p.handler.None? && p.main.Sending? && p.main.rest != []
      case Kill(_) => p.handler.None? && p.main.MustKill?
      case Finish(_) => p.handler.None? && p.main.Sending? && p.main.rest == []
      case Catch(_) => p.handler.None? && p.pending
      case Visit(_) => p.handler.Some? && p.handler.value < CELLS
      case Return(_) => p.handler.Some? && p.handler.value == CELLS
    }

    function SetProc(u: nat, p: Proc): Sys
      requires u < |procs|
    {
      this.(procs := procs[u := p])
    }

    function SetBox(key: (nat, nat), b: Box): Sys {
      this.(boxes := boxes[key := b])
    }

    /** The slot is filled and the process goes on to signal; or there was no slot, and it does not. */
    function DoDeposit(s: nat): Sys
      requires Shape() && Enabled(Deposit(s))
    {
      assert ProcOk(procs[s]);
      var t, rest := procs[s].main.rest[0], procs[s].main.rest[1..];
      assert t in procs[s].main.rest;
      var b := boxes[(t, s)];
      var m := if FirstEmpty(b.slots, 0) == -1 then Sending(rest) else MustKill(t, rest);
      SetProc(s, procs[s].(main := m)).SetBox((t, s), b.Put())
    }

    /** The signal becomes pending at the target, which may be the sender itself. */
    function DoKill(s: nat): Sys
      requires Shape() && Enabled(Kill(s))
    {
      assert ProcOk(procs[s]);
      var t := procs[s].main.target;
      var rest := procs[s].main.rest;
      var y := SetProc(t, procs[t].(pending := true));
      y.SetProc(s, y.procs[s].(main := Sending(rest)))
    }

    /** One slot is looked at, and emptied if it was full. */
    function DoVisit(r: nat): Sys
      requires Shape() && Enabled(Visit(r))
    {
      var c := procs[r].handler.value;
      var key := (r, c / MAX_MSG_NUM);
      var y := SetProc(r, procs[r].(handler := Some(c + 1)));
      if key in boxes then y.SetBox(key, boxes[key].Drain(c % MAX_MSG_NUM)) else y
    }

    function Step(e: Event): Sys
      requires Shape() && Enabled(e)
    {
      var p := procs[e.Who()];
      match e
      case Broadcast(s) => SetProc(s, p.(main := Sending(Targets(live, 0))))
      case Tell(s, r) => SetProc(s, p.(main := Sending([r])))
      case Deposit(s) => DoDeposit(s)
      case Kill(s) => DoKill(s)
      case Finish(s) => SetProc(s, p.(main := Idle))
      case Catch(r) => SetProc(r, p.(pending := false, handler := Some(0)))
      case Visit(r) => DoVisit(r)
      case Return(r) => SetProc(r, p.(handler := None))
    }

    /** Slot j of (r, s) will be looked at: a signal is pending, or the sender has yet to send it, or
        a running handler has yet to reach the slot. */
    ghost predicate Awaited(r: nat, s: nat, j: nat)
      requires |procs| == MAX_USERS && r < MAX_USERS && s < MAX_USERS
    {
      || procs[r].pending
      || (procs[s].main.MustKill? && procs[s].main.target == r)
      || (procs[r].handler.Some? && procs[r].handler.value <= MAX_MSG_NUM * s + j)
    }

    ghost predicate NoLostWakeUp()
      requires Shape()
    {
      forall r, s, j | (r, s) in boxes && 0 <= j < MAX_MSG_NUM && boxes[(r, s)].slots[j].Some? :: Awaited(r, s, j)
    }

    ghost predicate Inv() {
      Shape() && NoLostWakeUp() && forall k <- boxes :: boxes[k].Conserved()
    }

    ghost predicate Quiescent()
      requires |procs| == MAX_USERS
    {
      forall u <- live | u < MAX_USERS :: procs[u].main.Idle? && !procs[u].pending && procs[u].handler.None?
    }
  }

  /** Nobody has sent anything yet. */
  ghost predicate Initial(y: Sys) {
    && y.Shape() && y.Quiescent()
    && forall k <- y.boxes :: y.boxes[k] == EmptyBox()
  }

  lemma InitialInv(y: Sys)
    requires Initial(y)
    ensures y.Inv()
  {
    assert Filled(EmptyBox().slots) == [] by { FilledEmpty(EmptyBox().slots); }
  }

  lemma StartsInitial(y: Sys, users: set<nat>)
    requires y.live == users && |y.procs| == MAX_USERS && forall u <- users :: u < MAX_USERS
    requires forall u | 0 <= u < MAX_USERS :: y.procs[u] == Proc(Idle, false, None)
    requires forall r, s :: (r, s) in y.boxes <==> r in users && s in users
    requires forall k <- y.boxes :: y.boxes[k] == EmptyBox()
    ensures Initial(y)
  {
  }

  lemma SetProcShape(y: Sys, u: nat, p: Proc)
    requires y.Shape() && u < MAX_USERS && y.ProcOk(p)
    ensures y.SetProc(u, p).Shape()
  {
    var y' := y.SetProc(u, p);
    forall v | 0 <= v < MAX_USERS ensures y'.ProcOk(y'.procs[v]) { assert y.ProcOk(y.procs[v]); }
  }

  lemma SetBoxShape(y: Sys, key: (nat, nat), b: Box)
    requires y.Shape() && key in y.boxes
    ensures y.SetBox(key, b).Shape() && y.SetBox(key, b).boxes.Keys == y.boxes.Keys
  {
    var y' := y.SetBox(key, b);
    forall v | 0 <= v < MAX_USERS ensures y'.ProcOk(y'.procs[v]) { assert y.ProcOk(y.procs[v]); }
  }

  lemma StepShape(y: Sys, e: Event)
    requires y.Shape() && y.Enabled(e)
    ensures y.Step(e).Shape() && y.Step(e).live == y.live && y.Step(e).boxes.Keys == y.boxes.Keys
  {
    var p := y.procs[e.Who()];
    assert y.ProcOk(p);
    match e
    case Broadcast(s) => SetProcShape(y, s, p.(main := Sending(Targets(y.live, 0))));
    case Tell(s, r) => SetProcShape(y, s, p.(main := Sending([r])));
    case Deposit(s) => DepositShape(y, s);
    case Kill(s) =>
      var t := p.main.target;
      assert y.ProcOk(y.procs[t]);
      SetProcShape(y, t, y.procs[t].(pending := true));
      var y1 := y.SetProc(t, y.procs[t].(pending := true));
      SetProcShape(y1, s, y1.procs[s].(main := Sending(p.main.rest)));
    case Finish(s) => SetProcShape(y, s, p.(main := Idle));
    case Catch(r) => SetProcShape(y, r, p.(pending := false, handler := Some(0)));
    case Visit(r) => VisitShape(y, r);
    case Return(r) => SetProcShape(y, r, p.(handler := None));
  }

  lemma DepositShape(y: Sys, s: nat)
    requires y.Shape() && y.Enabled(Deposit(s))
    ensures y.DoDeposit(s).Shape() && y.DoDeposit(s).boxes.Keys == y.boxes.Keys
  {
    var p := y.procs[s];
    assert y.ProcOk(p);
    var t, rest := p.main.rest[0], p.main.rest[1..];
    assert t in p.main.rest;
    var b := y.boxes[(t, s)];
    var m := if FirstEmpty(b.slots, 0) == -1 then Sending(rest) else MustKill(t, rest);
    SetProcShape(y, s, p.(main := m));
    SetBoxShape(y.SetProc(s, p.(main := m)), (t, s), b.Put());
  }

  lemma VisitShape(y: Sys, r: nat)
    requires y.Shape() && y.Enabled(Visit(r))
    ensures y.DoVisit(r).Shape() && y.DoVisit(r).boxes.Keys == y.boxes.Keys
  {
    var p := y.procs[r];
    assert y.ProcOk(p);
    var c := p.handler.value;
    var key := (r, c / MAX_MSG_NUM);
    SetProcShape(y, r, p.(handler := Some(c + 1)));
    if key in y.boxes {
      SetBoxShape(y.SetProc(r, p.(handler := Some(c + 1))), key, y.boxes[key].Drain(c % MAX_MSG_NUM));
    }
  }

  /** What a step does to one box: at most one message is offered, or one slot visited. */
  lemma StepBox(y: Sys, e: Event, key: (nat, nat))
    requires y.Shape() && y.Enabled(e) && key in y.boxes
    ensures key in y.Step(e).boxes
    ensures var b, b' := y.boxes[key], y.Step(e).boxes[key];
            b' == if e.Deposit? && key == (y.procs[e.s].main.rest[0], e.s) then b.Put()
                  else if e.Visit? && key == (e.r, y.procs[e.r].handler.value / MAX_MSG_NUM)
                  then b.Drain(y.procs[e.r].handler.value % MAX_MSG_NUM)
                  else b
  {
  }

  lemma StepConserves(y: Sys, e: Event, key: (nat, nat))
    requires y.Shape() && y.Enabled(e) && key in y.boxes && y.boxes[key].Conserved()
    ensures key in y.Step(e).boxes && y.Step(e).boxes[key].Conserved()
  {
    StepBox(y, e, key);
    PutConserves(y.boxes[key]);
    if e.Visit? { DrainConserves(y.boxes[key], y.procs[e.r].handler.value % MAX_MSG_NUM); }
  }

  /** A deposit is followed by the signal. */
  lemma AwaitedDeposit(y: Sys, u: nat, r: nat, s: nat, j: nat)
    requires y.Shape() && y.Enabled(Deposit(u)) && (r, s) in y.boxes && j < MAX_MSG_NUM
    requires y.boxes[(r, s)].slots[j].Some? ==> y.Awaited(r, s, j)
    requires y.DoDeposit(u).boxes[(r, s)].slots[j].Some?
    ensures y.DoDeposit(u).Awaited(r, s, j)
  {
    assert y.ProcOk(y.procs[u]);
  }

  /** The signal is pending once it is sent. */
  lemma AwaitedKill(y: Sys, u: nat, r: nat, s: nat, j: nat)
    requires y.Shape() && y.Enabled(Kill(u)) && (r, s) in y.boxes && j < MAX_MSG_NUM
    requires y.Awaited(r, s, j)
    ensures y.DoKill(u).Awaited(r, s, j)
  {
    assert y.ProcOk(y.procs[u]);
  }

  /** The handler leaves a slot only after looking at it. */
  lemma AwaitedVisit(y: Sys, u: nat, r: nat, s: nat, j: nat)
    requires y.Shape() && y.Enabled(Visit(u)) && (r, s) in y.boxes && j < MAX_MSG_NUM
    requires y.boxes[(r, s)].slots[j].Some? ==> y.Awaited(r, s, j)
    requires y.DoVisit(u).boxes[(r, s)].slots[j].Some?
    ensures y.DoVisit(u).Awaited(r, s, j)
  {
    VisitEmpties(y, u, s, j);
    if u != r || y.procs[r].handler.value != MAX_MSG_NUM * s + j { VisitElsewhere(y, u, r, s, j); }
  }

  lemma VisitEmpties(y: Sys, u: nat, s: nat, j: nat)
    requires y.Shape() && y.Enabled(Visit(u)) && j < MAX_MSG_NUM
    ensures (u, s) in y.boxes && y.procs[u].handler.value == MAX_MSG_NUM * s + j ==>
              (u, s) in y.DoVisit(u).boxes && y.DoVisit(u).boxes[(u, s)].slots[j].None?
  {
    CellOf(s, j);
  }

  lemma CellOf(s: nat, j: nat)
    requires j < MAX_MSG_NUM
    ensures (MAX_MSG_NUM * s + j) / MAX_MSG_NUM == s && (MAX_MSG_NUM * s + j) % MAX_MSG_NUM == j
  {
  }

  lemma VisitElsewhere(y: Sys, u: nat, r: nat, s: nat, j: nat)
    requires y.Shape() && y.Enabled(Visit(u)) && (r, s) in y.boxes && j < MAX_MSG_NUM
    requires !(u == r && y.procs[r].handler.value == MAX_MSG_NUM * s + j)
    requires y.boxes[(r, s)].slots[j].Some? ==> y.Awaited(r, s, j)
    requires y.DoVisit(u).boxes[(r, s)].slots[j].Some?
    ensures y.DoVisit(u).Awaited(r, s, j)
  {
    assert y.boxes[(r, s)].slots[j].Some?;
  }

  /** One slot that is full after a step is still awaited. */
  lemma StaysAwaited(y: Sys, e: Event, r: nat, s: nat, j: nat)
    requires y.Shape() && y.Enabled(e) && (r, s) in y.boxes && j < MAX_MSG_NUM && y.Step(e).Shape()
    requires y.boxes[(r, s)].slots[j].Some? ==> y.Awaited(r, s, j)
    requires (r, s) in y.Step(e).boxes && y.Step(e).boxes[(r, s)].slots[j].Some?
    ensures y.Step(e).Awaited(r, s, j)
  {
    match e
    case Deposit(u) => AwaitedDeposit(y, u, r, s, j);
    case Kill(u) => AwaitedKill(y, u, r, s, j);
    case Visit(u) => AwaitedVisit(y, u, r, s, j);
    case _ =>
  }

  /** No lost wake-up: every step of every interleaving keeps it, together with conservation. */
  lemma StepKeepsInv(y: Sys, e: Event)
    requires y.Inv() && y.Enabled(e)
    ensures y.Step(e).Inv()
  {
    StepShape(y, e);
    var y' := y.Step(e);
    forall k <- y'.boxes ensures y'.boxes[k].Conserved() { StepConserves(y, e, k); }
    forall r, s, j | (r, s) in y'.boxes && 0 <= j < MAX_MSG_NUM && y'.boxes[(r, s)].slots[j].Some?
      ensures y'.Awaited(r, s, j)
    {
      assert y.boxes[(r, s)].slots[j].Some? ==> y.Awaited(r, s, j);
      StaysAwaited(y, e, r, s, j);
    }
  }

  /** When nothing is left to do, every mailbox is empty, and every message of every pair has been
      delivered once, or dropped because all ten slots were full. */
  lemma QuiescentIsEmpty(y: Sys, r: nat, s: nat)
    requires y.Inv() && y.Quiescent() && r in y.live && s in y.live
    ensures forall j :: 0 <= j < MAX_MSG_NUM ==> y.boxes[(r, s)].slots[j].None?
    ensures multiset(y.boxes[(r, s)].delivered) + multiset(y.boxes[(r, s)].dropped) == UpTo(y.boxes[(r, s)].sent)
  {
    forall j | 0 <= j < MAX_MSG_NUM ensures y.boxes[(r, s)].slots[j].None? {
      assert y.boxes[(r, s)].slots[j].Some? ==> y.Awaited(r, s, j);
    }
    FilledEmpty(y.boxes[(r, s)].slots);
  }

  // --- progress ---

  /** What a process still has to do, as a bound on steps. A visit to all slots costs CELLS + 2. */
  function Work(p: Proc): nat {
    (match p.main
     case Idle => 0
     case Sending(rest) => 1 + (CELLS + 5) * |rest|
     case MustKill(_, rest) => CELLS + 4 + (CELLS + 5) * |rest|)
    + (if p.pending then CELLS + 2 else 0)
    + (if p.handler.Some? && p.handler.value <= CELLS then CELLS + 1 - p.handler.value else 0)
  }

  function TotalWork(procs: seq<Proc>): nat {
    if procs == [] then 0 else Work(procs[0]) + TotalWork(procs[1..])
  }

  lemma {:induction false} TotalWorkUpdate(procs: seq<Proc>, u: nat, p: Proc)
    requires u < |procs|
    ensures TotalWork(procs[u := p]) == TotalWork(procs) - Work(procs[u]) + Work(p)
  {
    if u == 0 {
      assert procs[u := p][1..] == procs[1..];
    } else {
      assert procs[u := p][1..] == procs[1..][u - 1 := p];
      TotalWorkUpdate(procs[1..], u - 1, p);
    }
  }

  lemma DepositWork(y: Sys, s: nat)
    requires y.Shape() && y.Enabled(Deposit(s))
    ensures TotalWork(y.DoDeposit(s).procs) < TotalWork(y.procs)
  {
    var p := y.procs[s];
    assert y.ProcOk(p);
    var t, rest := p.main.rest[0], p.main.rest[1..];
    assert t in p.main.rest;
    var m := if FirstEmpty(y.boxes[(t, s)].slots, 0) == -1 then Sending(rest) else MustKill(t, rest);
    LessWork(p, m);
    TotalWorkUpdate(y.procs, s, p.(main := m));
  }

  lemma LessWork(p: Proc, m: Main)
    requires p.main.Sending? && p.main.rest != []
    requires m == Sending(p.main.rest[1..]) || m == MustKill(p.main.rest[0], p.main.rest[1..])
    ensures Work(p.(main := m)) < Work(p)
  {
    assert |p.main.rest[1..]| == |p.main.rest| - 1;
  }

  lemma KillWork(y: Sys, s: nat)
    requires y.Shape() && y.Enabled(Kill(s))
    ensures TotalWork(y.DoKill(s).procs) < TotalWork(y.procs)
  {
    assert y.ProcOk(y.procs[s]);
    var t := y.procs[s].main.target;
    var q := y.procs[t].(pending := true);
    var procs := y.procs[t := q];
    TotalWorkUpdate(y.procs, t, q);
    TotalWorkUpdate(procs, s, procs[s].(main := Sending(y.procs[s].main.rest)));
  }

  lemma VisitWork(y: Sys, r: nat)
    requires y.Shape() && y.Enabled(Visit(r))
    ensures TotalWork(y.DoVisit(r).procs) < TotalWork(y.procs)
  {
    var q := y.procs[r].(handler := Some(y.procs[r].handler.value + 1));
    assert y.DoVisit(r).procs == y.procs[r := q];
    assert Work(q) < Work(y.procs[r]);
    TotalWorkUpdate(y.procs, r, q);
  }

  /** Every step except the start of a new command leaves less to do ... */
  lemma StepsRunOut(y: Sys, e: Event)
    requires y.Shape() && y.Enabled(e) && !e.Starts()
    ensures TotalWork(y.Step(e).procs) < TotalWork(y.procs)
  {
    var p := y.procs[e.Who()];
    match e
    case Deposit(s) => DepositWork(y, s);
    case Kill(s) => KillWork(y, s);
    case Visit(r) => VisitWork(y, r);
    case Finish(s) => TotalWorkUpdate(y.procs, s, p.(main := Idle));
    case Catch(r) => TotalWorkUpdate(y.procs, r, p.(pending := false, handler := Some(0)));
    case Return(r) => TotalWorkUpdate(y.procs, r, p.(handler := None));
  }

  /** ... and as long as something is left, some process can move: no deadlock. */
  lemma SomeoneMoves(y: Sys) returns (e: Event)
    requires y.Shape() && !y.Quiescent()
    ensures !e.Starts() && y.Enabled(e)
  {
    var u :| u in y.live && u < MAX_USERS
             && !(y.procs[u].main.Idle? && !y.procs[u].pending && y.procs[u].handler.None?);
    var p := y.procs[u];
    assert y.ProcOk(p);
    e := if p.handler.Some? then (if p.handler.value < CELLS then Visit(u) else Return(u))
         else if p.pending then Catch(u)
         else if p.main.MustKill? then Kill(u)
         else if p.main.rest != [] then Deposit(u) else Finish(u);
  }

  /** A run: the events in order, and the state before and after each. */
  ghost predicate IsRun(states: seq<Sys>, events: seq<Event>) {
    && |states| == |events| + 1 && Initial(states[0])
    && forall i | 0 <= i < |events| :: IsStep(states[i], events[i], states[i + 1])
  }

  ghost predicate IsStep(y: Sys, e: Event, y': Sys) {
    y.Shape() && y.Enabled(e) && y' == y.Step(e)
  }

  lemma {:induction false} RunInv(states: seq<Sys>, events: seq<Event>, n: nat)
    requires IsRun(states, events) && n <= |events|
    ensures states[n].Inv()
  {
    if n == 0 {
      InitialInv(states[0]);
    } else {
      RunInv(states, events, n - 1);
      assert IsStep(states[n - 1], events[n - 1], states[n]);
      StepKeepsInv(states[n - 1], events[n - 1]);
    }
  }

  lemma StuckIsEmpty(y: Sys)
    requires y.Inv() && forall e: Event :: !e.Starts() ==> !y.Enabled(e)
    ensures forall r, s | r in y.live && s in y.live :: Filled(y.boxes[(r, s)].slots) == []
  {
    if !y.Quiescent() { var e := SomeoneMoves(y); assert false; }
    forall r, s | r in y.live && s in y.live ensures Filled(y.boxes[(r, s)].slots) == [] {
      QuiescentIsEmpty(y, r, s);
      FilledEmpty(y.boxes[(r, s)].slots);
    }
  }

  /** Once no new command starts, a run has at most as many steps as there is work; and a run that
      cannot be continued has delivered or dropped everything, with every mailbox empty. */
  lemma {:induction false} RunEnds(states: seq<Sys>, events: seq<Event>, m: nat, n: nat)
    requires IsRun(states, events) && m <= n <= |events|
    requires forall i :: m <= i < n ==> !events[i].Starts()
    ensures n - m <= TotalWork(states[m].procs) - TotalWork(states[n].procs)
    ensures states[n].Inv()
    ensures (forall e: Event :: !e.Starts() ==> !states[n].Enabled(e)) ==>
              forall r, s | r in states[n].live && s in states[n].live ::
                Filled(states[n].boxes[(r, s)].slots) == []
  {
    if m < n {
      RunEnds(states, events, m, n - 1);
      assert IsStep(states[n - 1], events[n - 1], states[n]);
      StepsRunOut(states[n - 1], events[n - 1]);
    }
    RunInv(states, events, n);
    if forall e: Event :: !e.Starts() ==> !states[n].Enabled(e) { StuckIsEmpty(states[n]); }
  }

  // --- order ---

  /** Where r's handler stands within the row of sender s. */
  function Column(y: Sys, r: nat, s: nat): (c: nat)
    requires |y.procs| == MAX_USERS && r < MAX_USERS
    ensures c <= MAX_MSG_NUM
  {
    var h := y.procs[r].handler;
    if h.None? || h.value <= MAX_MSG_NUM * s then 0
    else if h.value >= MAX_MSG_NUM * (s + 1) then MAX_MSG_NUM
    else h.value - MAX_MSG_NUM * s
  }

  /** The full slots, seen from a handler at column c: a prefix of the row outside a pass, a stretch
      starting at c (with nothing behind it) during one. */
  ghost predicate RowOk(b: Box, c: nat)
    requires c <= MAX_MSG_NUM
  {
    && InOrder(b, c)
    && (if c == 0 || c == MAX_MSG_NUM then Prefix(b.slots)
        else (forall j | 0 <= j < c :: b.slots[j].None?) && Prefix(b.slots[c..]))
  }

  /** A deposit that does not fall inside the receiver's visit to this sender's row. */
  predicate Calm(y: Sys, e: Event)
    requires |y.procs| == MAX_USERS
  {
    e.Deposit? && y.Enabled(e) && y.procs[e.s].main.rest[0] < MAX_USERS ==>
      var c := Column(y, y.procs[e.s].main.rest[0], e.s);
      c == 0 || c == MAX_MSG_NUM
  }

  ghost predicate Ordered(y: Sys)
    requires y.Shape()
  {
    forall r, s | (r, s) in y.boxes :: RowOk(y.boxes[(r, s)], Column(y, r, s))
  }

  lemma DrainKeepsRow(b: Box, c: nat)
    requires c < MAX_MSG_NUM && RowOk(b, c)
    ensures RowOk(b.Drain(c), c + 1)
  {
    DrainKeepsOrder(b, c);
    DrainKeepsPrefix(b.slots, b.Drain(c).slots, c);
  }

  /** The slots part of it. */
  lemma DrainKeepsPrefix(s: Slots, s': Slots, c: nat)
    requires c < MAX_MSG_NUM && s'[c].None?
    requires forall j | 0 <= j < MAX_MSG_NUM && j != c :: s'[j] == s[j]
    requires if c == 0 then Prefix(s)
             else (forall j | 0 <= j < c :: s[j].None?) && Prefix(s[c..])
    ensures if c + 1 == MAX_MSG_NUM then Prefix(s')
            else (forall j | 0 <= j < c + 1 :: s'[j].None?) && Prefix(s'[c + 1..])
  {
    forall j | 0 <= j < c + 1 ensures s'[j].None? {
      assert j < c ==> s'[j] == s[j];
    }
    var before, now := s[c..], s'[c + 1..];
    assert c == 0 ==> before == s;
    forall i, j | 0 <= i < j < |now| && now[j].Some? ensures now[i].Some? {
      assert now[i] == s'[c + 1 + i] == s[c + 1 + i] == before[i + 1];
      assert now[j] == s'[c + 1 + j] == s[c + 1 + j] == before[j + 1];
    }
  }

  /** How the handler's column in a row moves: by one with each visit to the row, and back to the
      start when the handler returns. */
  lemma StepColumn(y: Sys, e: Event, r: nat, s: nat)
    requires y.Shape() && y.Enabled(e) && r < MAX_USERS && s < MAX_USERS && |y.Step(e).procs| == MAX_USERS
    ensures var c, c' := Column(y, r, s), Column(y.Step(e), r, s);
            if e == Visit(r) && y.procs[r].handler.value / MAX_MSG_NUM == s
            then c == y.procs[r].handler.value % MAX_MSG_NUM && c' == c + 1
            else c' == c || (c == MAX_MSG_NUM && c' == 0)
  {
    if e.Deposit? || e.Kill? { assert y.ProcOk(y.procs[e.s]); }
  }

  lemma StepKeepsRow(y: Sys, e: Event, r: nat, s: nat)
    requires y.Shape() && y.Enabled(e) && Calm(y, e) && (r, s) in y.boxes
    requires y.boxes[(r, s)].Conserved() && RowOk(y.boxes[(r, s)], Column(y, r, s))
    ensures y.Step(e).Shape() && (r, s) in y.Step(e).boxes
    ensures RowOk(y.Step(e).boxes[(r, s)], Column(y.Step(e), r, s))
  {
    StepShape(y, e);
    StepBox(y, e, (r, s));
    StepColumn(y, e, r, s);
    RowStep(y.boxes[(r, s)], Column(y, r, s), y.Step(e).boxes[(r, s)], Column(y.Step(e), r, s));
  }

  /** A message put outside a pass, a slot drained at the handler's column, or a pass that wraps. */
  lemma RowStep(b: Box, c: nat, b': Box, c': nat)
    requires c <= MAX_MSG_NUM && c' <= MAX_MSG_NUM && b.Conserved() && RowOk(b, c)
    requires || (b' == b && (c' == c || (c == MAX_MSG_NUM && c' == 0)))
             || (b' == b.Put() && c' == c && (c == 0 || c == MAX_MSG_NUM))
             || (c < MAX_MSG_NUM && b' == b.Drain(c) && c' == c + 1)
    ensures RowOk(b', c')
  {
    if c < MAX_MSG_NUM && b' == b.Drain(c) && c' == c + 1 {
      DrainKeepsRow(b, c);
    } else if b' == b.Put() && c' == c {
      PrefixSend(b, c);
      PutKeepsOrderIff(b, c);
    } else {
      PassWraps(b);
    }
  }

  ghost predicate CalmAt(y: Sys, e: Event) {
    |y.procs| == MAX_USERS && Calm(y, e)
  }

  ghost predicate CalmRun(states: seq<Sys>, events: seq<Event>)
    requires |states| == |events| + 1
  {
    forall i | 0 <= i < |events| :: CalmAt(states[i], events[i])
  }

  lemma {:induction false} RunOrdered(states: seq<Sys>, events: seq<Event>, n: nat)
    requires IsRun(states, events) && CalmRun(states, events) && n <= |events|
    ensures states[n].Shape() && Ordered(states[n])
  {
    if n == 0 {
      InitialOrdered(states[0]);
    } else {
      RunOrdered(states, events, n - 1);
      RunInv(states, events, n - 1);
      assert IsStep(states[n - 1], events[n - 1], states[n]) && CalmAt(states[n - 1], events[n - 1]);
      StepKeepsOrdered(states[n - 1], events[n - 1]);
    }
  }

  lemma InitialOrdered(y: Sys)
    requires Initial(y)
    ensures Ordered(y)
  {
    FilledEmpty(EmptyBox().slots);
    FilledEmpty([]);
    assert EmptyBox().slots[0..] == EmptyBox().slots;
  }

  lemma StepKeepsOrdered(y: Sys, e: Event)
    requires y.Inv() && Ordered(y) && y.Enabled(e) && Calm(y, e)
    ensures y.Step(e).Shape() && Ordered(y.Step(e))
  {
    StepShape(y, e);
    var y' := y.Step(e);
    forall r, s | (r, s) in y'.boxes ensures RowOk(y'.boxes[(r, s)], Column(y', r, s)) {
      StepKeepsRow(y, e, r, s);
    }
  }
}
