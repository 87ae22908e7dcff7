/** When np_multi_proc delivers in sending order: the exact condition on whole runs, and a run that does not. */
module DeliveryOrder {
  import opened Descriptors
  import opened Mailbox
  import opened Signals

  /** If the event stores a message from s for r, it stores it where it will be read last. */
  predicate Timely(y: Sys, e: Event, r: nat, s: nat)
    requires |y.procs| == MAX_USERS && r < MAX_USERS && s < MAX_USERS && (r, s) in y.boxes
  {
    e.Deposit? && e.s == s && y.procs[s].main.Sending? && y.procs[s].main.rest != [] && y.procs[s].main.rest[0] == r ==>
      LastInTurn(y.boxes[(r, s)].slots, Column(y, r, s))
  }

  /** One step: the messages of s for r are in order afterwards exactly when they were before and a
      message just stored comes last. */
  lemma StepOrderIff(y: Sys, e: Event, r: nat, s: nat)
    requires y.Shape() && y.Enabled(e) && (r, s) in y.boxes && y.boxes[(r, s)].Conserved()
    ensures y.Step(e).Shape() && (r, s) in y.Step(e).boxes
    ensures InOrder(y.Step(e).boxes[(r, s)], Column(y.Step(e), r, s)) <==>
            InOrder(y.boxes[(r, s)], Column(y, r, s)) && Timely(y, e, r, s)
  {
    StepShape(y, e);
    StepBox(y, e, (r, s));
    StepColumn(y, e, r, s);
    var stored := e.Deposit? && e.s == s && y.procs[s].main.rest[0] == r;
    OrderStep(y.boxes[(r, s)], Column(y, r, s), y.Step(e).boxes[(r, s)], Column(y.Step(e), r, s), stored);
  }

  /** A message stored, a slot drained at the handler's column, or a pass that wraps. */
  lemma OrderStep(b: Box, c: nat, b': Box, c': nat, stored: bool)
    requires c <= MAX_MSG_NUM && c' <= MAX_MSG_NUM && b.Conserved()
    requires if stored then b' == b.Put() && (c' == c || (c == MAX_MSG_NUM && c' == 0))
             else || (b' == b && (c' == c || (c == MAX_MSG_NUM && c' == 0)))
                  || (c < MAX_MSG_NUM && b' == b.Drain(c) && c' == c + 1)
    ensures InOrder(b', c') <==> InOrder(b, c) && (stored ==> LastInTurn(b.slots, c))
  {
    PassWraps(b');
    if stored {
      if InOrder(b, c) { PutKeepsOrderIff(b, c); } else { PutKeepsDisorder(b, c); }
    } else if c < MAX_MSG_NUM {
      DrainKeepsOrder(b, c);
    }
  }

  ghost predicate TimelyAt(y: Sys, e: Event, r: nat, s: nat) {
    |y.procs| == MAX_USERS && r < MAX_USERS && s < MAX_USERS && (r, s) in y.boxes && Timely(y, e, r, s)
  }

  ghost predicate TimelyRun(states: seq<Sys>, events: seq<Event>, r: nat, s: nat, n: nat)
    requires n <= |events| < |states|
  {
    forall i | 0 <= i < n :: TimelyAt(states[i], events[i], r, s)
  }

  lemma BoxInRun(states: seq<Sys>, events: seq<Event>, r: nat, s: nat, n: nat)
    requires IsRun(states, events) && n <= |events| && states[n].Shape() && (r, s) in states[n].boxes
    ensures states[n].boxes[(r, s)].Conserved()
  {
    RunInv(states, events, n);
  }

  lemma StartsInOrder()
    ensures InOrder(EmptyBox(), 0)
  {
    var slots := EmptyBox().slots;
    FilledEmpty(slots);
    FilledEmpty(slots[..0]);
    assert slots[0..] == slots;
  }

  lemma {:induction false} RunOrderIff(states: seq<Sys>, events: seq<Event>, r: nat, s: nat, n: nat)
    requires IsRun(states, events) && n <= |events| && (r, s) in states[0].boxes
    ensures states[n].Shape() && (r, s) in states[n].boxes
    ensures InOrder(states[n].boxes[(r, s)], Column(states[n], r, s)) <==> TimelyRun(states, events, r, s, n)
  {
    if n > 0 {
      RunOrderIff(states, events, r, s, n - 1);
      BoxInRun(states, events, r, s, n - 1);
      assert IsStep(states[n - 1], events[n - 1], states[n]);
      StepOrderIff(states[n - 1], events[n - 1], r, s);
      LastTimely(states, events, r, s, n);
    } else {
      StartsInOrder();
    }
  }

  lemma LastTimely(states: seq<Sys>, events: seq<Event>, r: nat, s: nat, n: nat)
    requires 0 < n <= |events| < |states|
    ensures TimelyRun(states, events, r, s, n) <==>
            TimelyRun(states, events, r, s, n - 1) && TimelyAt(states[n - 1], events[n - 1], r, s)
  {
  }

  lemma EmptyOrder(b: Box, c: nat)
    requires c <= MAX_MSG_NUM && forall j :: 0 <= j < MAX_MSG_NUM ==> b.slots[j].None?
    ensures InOrder(b, c) <==> Increasing(b.delivered)
  {
    FilledEmpty(b.slots[..c]);
    FilledEmpty(b.slots[c..]);
    assert b.delivered + [] == b.delivered;
  }

  lemma RestIsEmpty(states: seq<Sys>, events: seq<Event>, r: nat, s: nat)
    requires IsRun(states, events) && states[|events|].Shape() && (r, s) in states[|events|].boxes
    requires states[|events|].Quiescent()
    ensures forall j :: 0 <= j < MAX_MSG_NUM ==> states[|events|].boxes[(r, s)].slots[j].None?
  {
    RunInv(states, events, |events|);
    QuiescentIsEmpty(states[|events|], r, s);
  }

  /** Over every run that has come to rest: r has been given the messages of s in sending order exactly
      when every one of them was stored where r's handler would read it after all that were waiting. */
  lemma DeliveredInOrderIff(states: seq<Sys>, events: seq<Event>, r: nat, s: nat)
    requires IsRun(states, events) && (r, s) in states[0].boxes
    requires states[|events|].Shape() && states[|events|].Quiescent()
    ensures (r, s) in states[|events|].boxes
    ensures Increasing(states[|events|].boxes[(r, s)].delivered) <==>
            TimelyRun(states, events, r, s, |events|)
  {
    RunOrderIff(states, events, r, s, |events|);
    RestIsEmpty(states, events, r, s);
    EmptyOrder(states[|events|].boxes[(r, s)], Column(states[|events|], r, s));
  }

  // --- a run that reorders ---

  ghost predicate Reached(y: Sys) {
    exists states: seq<Sys>, events: seq<Event> | IsRun(states, events) :: states[|events|] == y
  }

  lemma Then(y: Sys, e: Event)
    requires Reached(y) && y.Shape() && y.Enabled(e)
    ensures Reached(y.Step(e)) && y.Step(e).Shape()
  {
    var states: seq<Sys>, events: seq<Event> :| IsRun(states, events) && states[|events|] == y;
    var more, last := states + [y.Step(e)], events + [e];
    forall i | 0 <= i < |last| ensures IsStep(more[i], last[i], more[i + 1]) {
      assert i < |events| ==> IsStep(states[i], events[i], states[i + 1]);
    }
    assert IsRun(more, last) && more[|last|] == y.Step(e);
    StepShape(y, e);
  }

  /** Users 0 and 1 are logged in and user 0 is idle; p is user 1's process, b what user 0 has sent it. */
  ghost predicate Now(y: Sys, p: Proc, b: Box) {
    && Reached(y) && y.Shape() && y.live == {0, 1} && (1, 0) in y.boxes
    && y.procs[0].main == Idle && y.procs[0].handler.None? && y.procs[1] == p && y.boxes[(1, 0)] == b
  }

  lemma StartReached(y: Sys)
    requires Initial(y)
    ensures Reached(y)
  {
    var events: seq<Event> := [];
    assert IsRun([y], events) && [y][|events|] == y;
  }

  ghost function TwoUsers(): Sys {
    Sys({0, 1}, seq(MAX_USERS, _ => Proc(Idle, false, None)),
        map r: nat, s: nat | r in {0, 1} && s in {0, 1} :: (r, s) := EmptyBox())
  }

  lemma Begin() returns (y: Sys)
    ensures Now(y, Proc(Idle, false, None), EmptyBox())
  {
    y := TwoUsers();
    StartsInitial(y, {0, 1});
    StartReached(y);
    assert 0 in y.live && 1 in y.live;
  }

  /** User 0 tells user 1 something, without a pause. */
  lemma TellOne(y: Sys, p: Proc, b: Box) returns (z: Sys)
    requires Now(y, p, b) && FirstEmpty(b.slots, 0) != -1
    ensures Now(z, p.(pending := true), b.Put())
  {
    Then(y, Tell(0, 1));
    var y1 := y.Step(Tell(0, 1));
    Then(y1, Deposit(0));
    DepositOne(y1, b);
    z := SignalOne(y1.Step(Deposit(0)), p, b.Put());
  }

  lemma SignalOne(y: Sys, p: Proc, b: Box) returns (z: Sys)
    requires Reached(y) && y.Shape() && y.live == {0, 1} && (1, 0) in y.boxes && y.boxes[(1, 0)] == b
    requires y.procs[0].main == MustKill(1, []) && y.procs[0].handler.None? && y.procs[1] == p
    ensures Now(z, p.(pending := true), b)
  {
    Then(y, Kill(0));
    var y1 := y.Step(Kill(0));
    Then(y1, Finish(0));
    z := y1.Step(Finish(0));
  }

  lemma DepositOne(y: Sys, b: Box)
    requires y.Shape() && y.Enabled(Deposit(0)) && y.procs[0].main == Sending([1]) && (1, 0) in y.boxes
    requires y.boxes[(1, 0)] == b && FirstEmpty(b.slots, 0) != -1
    ensures var z := y.Step(Deposit(0));
            && z.live == y.live && z.procs == y.procs[0 := y.procs[0].(main := MustKill(1, []))]
            && z.boxes == y.boxes[(1, 0) := b.Put()]
  {
    assert [1][1..] == [];
  }

  lemma LookOne(y: Sys, p: Proc, b: Box, c: nat) returns (z: Sys)
    requires Now(y, p, b) && p.handler == Some(c) && c < MAX_MSG_NUM
    ensures Now(z, p.(handler := Some(c + 1)), b.Drain(c))
  {
    Then(y, Visit(1));
    z := y.Step(Visit(1));
    CellOf(0, c);
  }

  lemma CatchOne(y: Sys, p: Proc, b: Box) returns (z: Sys)
    requires Now(y, p, b) && p.handler.None? && p.pending
    ensures Now(z, p.(pending := false, handler := Some(0)), b)
  {
    Then(y, Catch(1));
    z := y.Step(Catch(1));
  }

  function AfterOne(): Box {
    EmptyBox().Put().Drain(0)
  }

  lemma RoomLeft()
    ensures FirstEmpty(EmptyBox().slots, 0) == 0 && FirstEmpty(AfterOne().slots, 0) == 0
    ensures FirstEmpty(AfterOne().Put().slots, 0) == 1
  {
    assert AfterOne().slots[0].None?;
    assert AfterOne().Put().slots[1].None?;
  }

  /** The first message has been delivered and the handler is about to look at slot 1. */
  lemma OneDelivered() returns (y: Sys)
    ensures Now(y, Proc(Idle, false, Some(1)), AfterOne())
  {
    var y0 := OneCaught();
    y := LookOne(y0, Proc(Idle, false, Some(0)), EmptyBox().Put(), 0);
  }

  lemma OneCaught() returns (y: Sys)
    ensures Now(y, Proc(Idle, false, Some(0)), EmptyBox().Put())
  {
    RoomLeft();
    var y0 := Begin();
    var y1 := TellOne(y0, Proc(Idle, false, None), EmptyBox());
    y := CatchOne(y1, Proc(Idle, true, None), EmptyBox().Put());
  }

  /** The second message is stored behind the handler; the third is delivered before it. */
  lemma ReorderingRun() returns (y: Sys)
    ensures Reached(y) && y.Shape() && (1, 0) in y.boxes
    ensures y.boxes[(1, 0)].delivered == [0, 2] && y.boxes[(1, 0)].slots[0] == Some(1)
    ensures !InOrder(y.boxes[(1, 0)], Column(y, 1, 0))
  {
    RoomLeft();
    y := OneDelivered();
    y := TellOne(y, Proc(Idle, false, Some(1)), AfterOne());
    y := TellOne(y, Proc(Idle, true, Some(1)), AfterOne().Put());
    y := LookOne(y, Proc(Idle, true, Some(1)), AfterOne().Put().Put(), 1);
    ReorderingExample();
    BehindIsLate(AfterOne().Put().Put().Drain(1));
  }

  lemma BehindIsLate(b: Box)
    requires b.delivered == [0, 2] && b.slots[0] == Some(1)
    ensures !InOrder(b, 2)
  {
    var behind := b.slots[..2];
    assert behind == [b.slots[0]] + b.slots[1..2];
    FilledSplit([b.slots[0]], b.slots[1..2]);
    assert Filled([b.slots[0]]) == [1];
    var u := b.delivered + Queue(b.slots, 2);
    var k := 2 + |Filled(b.slots[2..])|;
    assert u[1] == 2 && u[k] == 1;
  }
}
