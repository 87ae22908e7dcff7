/** np_multi_proc on its shared memory: the slots msg[receiver][sender][j], and for each logged-in user
    the state of its process. Every method is one atomic step of the interleaving, except SigHandler,
    which is the handler's two nested loops run without interruption. */
module NpMultiProc {
  import opened Descriptors
  import opened Mailbox
  import opened Signals

  class Shared {
    const live: set<nat>          // clients[i].id > 0
    const procs: array<Proc>
    const msg: array2<Box>        // [receiver, sender]: the ten slots, and what has passed through them

    ghost predicate Valid() {
      && procs.Length == msg.Length0 == msg.Length1 == MAX_USERS
      && forall u <- live :: u < MAX_USERS
    }

    ghost function Boxes(): map<(nat, nat), Box>
      requires Valid()
      reads msg
    {
      map r: nat, s: nat | r in live && s in live :: (r, s) := msg[r, s]
    }

    ghost function State(): Sys
      requires Valid()
      reads procs, msg
    {
      Sys(live, procs[..], Boxes())
    }

    /** The users who are logged in, and nothing sent yet. */
    constructor (users: set<nat>)
      requires forall u <- users :: u < MAX_USERS
      ensures Valid() && live == users && Initial(State())
    {
      live := users;
      procs := new Proc[MAX_USERS](_ => Proc(Idle, false, None));
      msg := new Box[MAX_USERS, MAX_USERS]((_, _) => EmptyBox());
      new;
      StartsInitial(State(), users);
    }

    // --- broadcast and tell ---

    method StartBroadcast(s: nat)
      requires Valid() && State().Shape() && State().Enabled(Broadcast(s))
      modifies procs
      ensures Valid() && State() == old(State()).Step(Broadcast(s))
    {
      procs[s] := procs[s].(main := Sending(Targets(live, 0)));
    }

    method StartTell(s: nat, r: nat)
      requires Valid() && State().Shape() && State().Enabled(Tell(s, r))
      modifies procs
      ensures Valid() && State() == old(State()).Step(Tell(s, r))
    {
      procs[s] := procs[s].(main := Sending([r]));
    }

    /** The inner loop: the first empty slot takes the message. */
    method Store(r: nat, s: nat) returns (stored: bool)
      requires Valid() && r in live && s in live
      modifies msg
      ensures Valid()
      ensures stored == (FirstEmpty(old(msg[r, s]).slots, 0) != -1)
      ensures Boxes() == old(Boxes())[(r, s) := old(Boxes())[(r, s)].Put()]
    {
      var box := msg[r, s];
      var j := 0;
      while j < 10
        invariant 0 <= j <= MAX_MSG_NUM
        invariant FirstEmpty(box.slots, 0) == FirstEmpty(box.slots, j)
      {
        if box.slots[j].None? {
          msg[r, s] := box.(slots := box.slots[j := Some(box.sent)], sent := box.sent + 1);
          return true;
        }
        j := j + 1;
      }
      msg[r, s] := box.(dropped := box.dropped + [box.sent], sent := box.sent + 1);
      return false;
    }

    method DepositMessage(s: nat)
      requires Valid() && State().Shape() && State().Enabled(Deposit(s))
      modifies procs, msg
      ensures Valid() && State() == old(State()).Step(Deposit(s))
    {
      DepositCell(State(), s);
      var t, rest := procs[s].main.rest[0], procs[s].main.rest[1..];
      var stored := Store(t, s);
      procs[s] := procs[s].(main := if stored then MustKill(t, rest) else Sending(rest));
    }

    method SendSignal(s: nat)
      requires Valid() && State().Shape() && State().Enabled(Kill(s))
      modifies procs
      ensures Valid() && State() == old(State()).Step(Kill(s))
    {
      assert State().ProcOk(State().procs[s]);
      var t, rest := procs[s].main.target, procs[s].main.rest;
      procs[t] := procs[t].(pending := true);
      procs[s] := procs[s].(main := Sending(rest));
    }

    method FinishCommand(s: nat)
      requires Valid() && State().Shape() && State().Enabled(Finish(s))
      modifies procs
      ensures Valid() && State() == old(State()).Step(Finish(s))
    {
      procs[s] := procs[s].(main := Idle);
    }

    // --- the handler ---

    method CatchSignal(r: nat)
      requires Valid() && State().Shape() && State().Enabled(Catch(r))
      modifies procs
      ensures Valid() && State() == old(State()).Step(Catch(r))
    {
      procs[r] := procs[r].(pending := false, handler := Some(0));
    }

    method ReturnFromHandler(r: nat)
      requires Valid() && State().Shape() && State().Enabled(Return(r))
      modifies procs
      ensures Valid() && State() == old(State()).Step(Return(r))
    {
      procs[r] := procs[r].(handler := None);
    }

    /** The body of the two loops: the handler of r looks at slot j of sender i. */
    method VisitSlot(r: nat, i: nat, j: nat)
      requires Valid() && State().Shape() && State().Enabled(Visit(r))
      requires j < MAX_MSG_NUM && State().procs[r].handler.value == MAX_MSG_NUM * i + j
      modifies procs, msg
      ensures Valid() && State() == old(State()).Step(Visit(r))
    {
      VisitCell(State(), r, i, j);
      Look(r, i, j);
    }

    method Look(r: nat, i: nat, j: nat)
      requires Valid() && r in live && j < MAX_MSG_NUM && procs[r].handler.Some?
      modifies procs, msg
      ensures Valid() && State() == Looked(old(State()), r, i, j)
    {
      ghost var y := State();
      procs[r] := procs[r].(handler := Some(procs[r].handler.value + 1));
      assert procs[..] == y.procs[r := procs[r]] && Boxes() == y.boxes;
      if i in live { Empty(r, i, j); }
    }

    method Empty(r: nat, s: nat, j: nat)
      requires Valid() && r in live && s in live && j < MAX_MSG_NUM
      modifies msg
      ensures Valid()
      ensures Boxes() == old(Boxes())[(r, s) := old(Boxes())[(r, s)].Drain(j)]
    {
      var box := msg[r, s];
      if box.slots[j].Some? {
        msg[r, s] := box.(slots := box.slots[j := None], delivered := box.delivered + [box.slots[j].value]);
      }
    }

    /** The inner loop, over the slots of sender i. */
    method VisitRow(r: nat, i: nat, ghost y: Sys, ghost n: nat)
      requires Valid() && At(y, r, 0) && i < MAX_USERS && n == MAX_MSG_NUM * i && State() == Visited(y, r, n)
      modifies procs, msg
      ensures Valid() && State() == Visited(y, r, n + MAX_MSG_NUM)
    {
      var j := 0;
      ghost var m := n;
      while j < 10
        invariant 0 <= j <= MAX_MSG_NUM && Valid() && m == n + j
        invariant State() == Visited(y, r, m)
      {
        VisitNext(r, i, j, y, m);
        j, m := j + 1, m + 1;
      }
    }

    method VisitNext(r: nat, i: nat, j: nat, ghost y: Sys, ghost n: nat)
      requires Valid() && At(y, r, 0) && i < MAX_USERS && j < MAX_MSG_NUM && n == MAX_MSG_NUM * i + j
      requires State() == Visited(y, r, n)
      modifies procs, msg
      ensures Valid() && State() == Visited(y, r, n + 1)
    {
      VisitedNext(y, r, i, j, n);
      VisitSlot(r, i, j);
    }

    /** sig_handler for SIGUSR1, run without interruption. */
    method SigHandler(r: nat)
      requires Valid() && State().Shape() && State().Enabled(Catch(r))
      modifies procs, msg
      ensures Valid() && At(old(State()).Step(Catch(r)), r, 0)
      ensures State() == Visited(old(State()).Step(Catch(r)), r, CELLS).SetProc(r, old(procs[r]).(pending := false))
    {
      StepShape(State(), Catch(r));
      CatchSignal(r);
      ghost var y := State();
      VisitedNone(y, r);
      var i := 0;
      ghost var n: nat := 0;
      while i < 30
        invariant 0 <= i <= MAX_USERS && Valid()
        invariant n == MAX_MSG_NUM * i && State() == Visited(y, r, n)
      {
        VisitRow(r, i, y, n);
        i, n := i + 1, n + MAX_MSG_NUM;
      }
      VisitedAt(y, r, CELLS);
      ReturnFromHandler(r);
    }
  }

  lemma DepositCell(y: Sys, s: nat)
    requires y.Shape() && y.Enabled(Deposit(s))
    ensures var t, rest := y.procs[s].main.rest[0], y.procs[s].main.rest[1..];
            && (t, s) in y.boxes
            && var b := y.boxes[(t, s)];
               var m := if FirstEmpty(b.slots, 0) == -1 then Sending(rest) else MustKill(t, rest);
               y.Step(Deposit(s)) == Sys(y.live, y.procs[s := y.procs[s].(main := m)], y.boxes[(t, s) := b.Put()])
  {
    assert y.ProcOk(y.procs[s]);
    assert y.procs[s].main.rest[0] in y.procs[s].main.rest;
  }

  /** A visit, with the slot named by its row and column. */
  ghost function Looked(y: Sys, r: nat, i: nat, j: nat): Sys
    requires r < |y.procs| && y.procs[r].handler.Some? && j < MAX_MSG_NUM
  {
    var p := y.procs[r];
    Sys(y.live, y.procs[r := p.(handler := Some(p.handler.value + 1))],
        if (r, i) in y.boxes then y.boxes[(r, i) := y.boxes[(r, i)].Drain(j)] else y.boxes)
  }

  lemma VisitCell(y: Sys, r: nat, i: nat, j: nat)
    requires y.Shape() && y.Enabled(Visit(r)) && j < MAX_MSG_NUM
    requires y.procs[r].handler.value == MAX_MSG_NUM * i + j
    ensures y.Step(Visit(r)) == Looked(y, r, i, j)
  {
    CellOf(i, j);
  }

  /** y's handler at r is about to make visit n. */
  ghost predicate At(y: Sys, r: nat, n: nat) {
    y.Shape() && r in y.live && r < MAX_USERS && y.procs[r].handler == Some(n)
  }

  /** A mailbox whose first c slots have been looked at. */
  function DrainedTo(b: Box, c: nat): (d: Box)
    requires c <= MAX_MSG_NUM
  {
    b.(slots := seq(MAX_MSG_NUM, j requires 0 <= j < MAX_MSG_NUM => if j < c then None else b.slots[j]),
       delivered := b.delivered + Filled(b.slots[..c]))
  }

  /** How many slots of sender s's row a handler has looked at after n visits. */
  function Seen(n: nat, s: nat): (c: nat)
    ensures c <= MAX_MSG_NUM
  {
    if n <= MAX_MSG_NUM * s then 0 else if n >= MAX_MSG_NUM * (s + 1) then MAX_MSG_NUM else n - MAX_MSG_NUM * s
  }

  /** y after the first n visits of r's handler, when nothing interrupts it: r's mailboxes are emptied
      in order, each sender's messages are written in slot order, and nobody else's are touched. */
  ghost function Visited(y: Sys, r: nat, n: nat): Sys
    requires r < |y.procs|
  {
    y.(procs := y.procs[r := y.procs[r].(handler := Some(n))],
       boxes := map k | k in y.boxes :: if k.0 == r then DrainedTo(y.boxes[k], Seen(n, k.1)) else y.boxes[k])
  }

  lemma DrainNext(b: Box, c: nat)
    requires c < MAX_MSG_NUM
    ensures DrainedTo(b, c).Drain(c) == DrainedTo(b, c + 1)
  {
    assert b.slots[..c + 1] == b.slots[..c] + [b.slots[c]];
    FilledSplit(b.slots[..c], [b.slots[c]]);
    assert DrainedTo(b, c).Drain(c).slots == DrainedTo(b, c + 1).slots;
  }

  lemma DrainNone(b: Box)
    ensures DrainedTo(b, 0) == b
  {
    assert DrainedTo(b, 0).slots == b.slots;
    assert b.slots[..0] == [];
  }

  lemma SeenNext(n: nat, s: nat)
    ensures Seen(n + 1, s) == if n / MAX_MSG_NUM == s then Seen(n, s) + 1 else Seen(n, s)
    ensures n / MAX_MSG_NUM == s ==> n % MAX_MSG_NUM == Seen(n, s) < MAX_MSG_NUM
  {
  }

  lemma VisitedAt(y: Sys, r: nat, n: nat)
    requires At(y, r, 0) && n <= CELLS
    ensures At(Visited(y, r, n), r, n)
  {
    var z := Visited(y, r, n);
    forall u | 0 <= u < MAX_USERS ensures z.ProcOk(z.procs[u]) { assert y.ProcOk(y.procs[u]); }
  }

  lemma VisitedNone(y: Sys, r: nat)
    requires At(y, r, 0)
    ensures Visited(y, r, 0) == y
  {
    forall k | k in y.boxes ensures Visited(y, r, 0).boxes[k] == y.boxes[k] { DrainNone(y.boxes[k]); }
    assert Visited(y, r, 0).boxes == y.boxes;
    assert Visited(y, r, 0).procs == y.procs;
  }

  /** The closed form is what the steps of the interleaving do, one visit after the other. */
  lemma VisitedNext(y: Sys, r: nat, i: nat, j: nat, n: nat)
    requires At(y, r, 0) && i < MAX_USERS && j < MAX_MSG_NUM && n == MAX_MSG_NUM * i + j
    ensures At(Visited(y, r, n), r, n) && Visited(y, r, n).Step(Visit(r)) == Visited(y, r, n + 1)
  {
    VisitedAt(y, r, n);
    VisitCell(Visited(y, r, n), r, i, j);
    LookedNext(y, r, i, j, n);
  }

  lemma LookedNext(y: Sys, r: nat, i: nat, j: nat, n: nat)
    requires r < |y.procs| && j < MAX_MSG_NUM && n == MAX_MSG_NUM * i + j
    ensures Looked(Visited(y, r, n), r, i, j) == Visited(y, r, n + 1)
  {
    BoxesNext(y, r, i, j, n);
    ProcsNext(y, r, n);
  }

  lemma ProcsNext(y: Sys, r: nat, n: nat)
    requires r < |y.procs|
    ensures var procs := Visited(y, r, n).procs;
            procs[r := procs[r].(handler := Some(n + 1))] == Visited(y, r, n + 1).procs
  {
  }

  lemma BoxesNext(y: Sys, r: nat, i: nat, j: nat, n: nat)
    requires r < |y.procs| && j < MAX_MSG_NUM && n == MAX_MSG_NUM * i + j
    ensures var key, boxes := (r, i), Visited(y, r, n).boxes;
            Visited(y, r, n + 1).boxes == if key in boxes then boxes[key := boxes[key].Drain(j)] else boxes
  {
    CellOf(i, j);
    forall k | k in y.boxes
      ensures Visited(y, r, n + 1).boxes[k]
           == if k == (r, i) then Visited(y, r, n).boxes[k].Drain(j) else Visited(y, r, n).boxes[k]
    {
      SeenNext(n, k.1);
      if k == (r, i) { DrainNext(y.boxes[k], j); }
    }
  }

  /** So at its end the handler has emptied every mailbox of its user, and written every message. */
  lemma HandlerDelivers(y: Sys, r: nat, s: nat)
    requires y.Shape() && y.Enabled(Catch(r)) && s in y.live
    ensures var b, after := y.boxes[(r, s)], Visited(y.Step(Catch(r)), r, CELLS).boxes[(r, s)];
            && (forall j :: 0 <= j < MAX_MSG_NUM ==> after.slots[j].None?)
            && after.delivered == b.delivered + Filled(b.slots)
            && after.sent == b.sent && after.dropped == b.dropped
  {
    assert s < MAX_USERS;
    var b := y.boxes[(r, s)];
    assert b.slots[..MAX_MSG_NUM] == b.slots;
  }
}
