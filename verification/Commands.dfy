/** Whom the commands of np_multi_proc reach: between the start of a broadcast or a tell and its end, whatever
    the other processes do meanwhile. */
module Commands {
  import opened Descriptors
  import opened Mailbox
  import opened Signals

  /** The receivers a process has yet to serve. */
  function Rest(p: Proc): seq<nat> {
    match p.main
    case Idle => []
    case Sending(rest) => rest
    case MustKill(_, rest) => rest
  }

  /** What one step does to the list of receivers of user s: a deposit of its own takes the first off, a new
      command or its end replaces it, and nothing else touches it. */
  lemma StepRest(y: Sys, e: Event, s: nat)
    requires y.Shape() && y.Enabled(e) && s < MAX_USERS
    requires e != Broadcast(s) && e != Finish(s) && forall r: nat :: e != Tell(s, r)
    ensures y.Step(e).Shape() && (y.procs[s].main.Idle? <==> y.Step(e).procs[s].main.Idle?)
    ensures if e == Deposit(s) then Rest(y.procs[s]) != [] && Rest(y.Step(e).procs[s]) == Rest(y.procs[s])[1..]
            else Rest(y.Step(e).procs[s]) == Rest(y.procs[s])
  {
    StepShape(y, e);
  }

  /** Only a deposit of user s for user r adds to what s has offered r. */
  lemma StepSent(y: Sys, e: Event, r: nat, s: nat)
    requires y.Shape() && y.Enabled(e) && (r, s) in y.boxes && s < MAX_USERS
    ensures (r, s) in y.Step(e).boxes
    ensures y.Step(e).boxes[(r, s)].sent
         == y.boxes[(r, s)].sent + if e == Deposit(s) && Rest(y.procs[s])[0] == r then 1 else 0
  {
    StepBox(y, e, (r, s));
  }

  /** Events m+1..n are the middle of a command of user s. */
  ghost predicate During(events: seq<Event>, s: nat, m: nat, n: nat)
    requires m < n <= |events|
  {
    forall i | m < i < n :: events[i] != Finish(s)
  }

  /** No user starts a command in the middle of another of its own. */
  lemma NotRestarted(y: Sys, e: Event, s: nat)
    requires y.Shape() && y.Enabled(e) && s < MAX_USERS && !y.procs[s].main.Idle?
    ensures e != Broadcast(s) && forall r: nat :: e != Tell(s, r)
  {
  }

  /** Since state y0, user s has offered one message to each of these users and none to anybody else. */
  ghost predicate Offered(y0: Sys, y: Sys, s: nat, served: seq<nat>)
    requires y0.Shape() && y.Shape() && y.live == y0.live && s in y.live
  {
    forall r | r in y.live :: y.boxes[(r, s)].sent == y0.boxes[(r, s)].sent + if r in served then 1 else 0
  }

  ghost predicate Distinct(targets: seq<nat>) {
    forall a, b | 0 <= a < b < |targets| :: targets[a] != targets[b]
  }

  /** How far a command of user s has got: of the targets, the first k are served, and nobody else. */
  ghost predicate Served(y0: Sys, y: Sys, s: nat, targets: seq<nat>, k: nat) {
    && y0.Shape() && y.Shape() && y.live == y0.live && s in y.live && s < MAX_USERS && !y.procs[s].main.Idle?
    && k <= |targets| && Rest(y.procs[s]) == targets[k..] && Offered(y0, y, s, targets[..k])
  }

  lemma OfferedNext(y0: Sys, y: Sys, e: Event, s: nat, served: seq<nat>, more: seq<nat>)
    requires y0.Shape() && y.Shape() && y.live == y0.live && s in y.live && s < MAX_USERS && Offered(y0, y, s, served)
    requires y.Enabled(e) && y.Step(e).Shape() && y.Step(e).live == y.live
    requires if e == Deposit(s) then Rest(y.procs[s]) != [] && Rest(y.procs[s])[0] !in served
                                     && more == served + [Rest(y.procs[s])[0]]
             else more == served
    ensures Offered(y0, y.Step(e), s, more)
  {
    forall r | r in y.live
      ensures y.Step(e).boxes[(r, s)].sent == y0.boxes[(r, s)].sent + if r in more then 1 else 0
    {
      StepSent(y, e, r, s);
    }
  }

  lemma ServeNext(y0: Sys, y: Sys, e: Event, y': Sys, s: nat, targets: seq<nat>, k: nat) returns (k': nat)
    requires Served(y0, y, s, targets, k) && IsStep(y, e, y') && e != Finish(s) && Distinct(targets)
    ensures Served(y0, y', s, targets, k')
  {
    NotRestarted(y, e, s);
    StepRest(y, e, s);
    StepShape(y, e);
    k' := if e == Deposit(s) then k + 1 else k;
    if e == Deposit(s) { assert targets[..k + 1] == targets[..k] + [targets[k]]; }
    OfferedNext(y0, y, e, s, targets[..k], targets[..k']);
  }

  /** The receivers of a command. */
  function TargetsOf(y: Sys, e: Event): seq<nat>
    requires e.Starts()
  {
    if e.Tell? then [e.r] else Targets(y.live, 0)
  }

  lemma TargetsDistinct(y: Sys, e: Event)
    requires e.Starts()
    ensures Distinct(TargetsOf(y, e))
  {
  }

  lemma {:induction false} ServedSoFar(states: seq<Sys>, events: seq<Event>, s: nat, m: nat, n: nat, targets: seq<nat>)
    returns (k: nat)
    requires IsRun(states, events) && m < n <= |events| && During(events, s, m, n)
    requires Served(states[m], states[m + 1], s, targets, 0)
    requires Distinct(targets)
    ensures Served(states[m], states[n], s, targets, k)
  {
    if n == m + 1 {
      k := 0;
    } else {
      var j := ServedSoFar(states, events, s, m, n - 1, targets);
      k := ServeNext(states[m], states[n - 1], events[n - 1], states[n], s, targets, j);
    }
  }

  /** At the end of a command all its targets have been served. */
  lemma AllServed(states: seq<Sys>, events: seq<Event>, s: nat, m: nat, n: nat, targets: seq<nat>)
    requires IsRun(states, events) && m < n < |events| && During(events, s, m, n) && events[n] == Finish(s)
    requires events[m].Starts() && events[m].Who() == s && targets == TargetsOf(states[m], events[m])
    ensures states[m].Shape() && states[n + 1].Shape() && states[n + 1].live == states[m].live && s in states[m].live
    ensures Offered(states[m], states[n + 1], s, targets)
  {
    NoneServed(states[m], events[m], states[m + 1], s);
    TargetsDistinct(states[m], events[m]);
    var k := ServedSoFar(states, events, s, m, n, targets);
    LastServed(states[m], states[n], states[n + 1], s, targets, k);
  }

  lemma LastServed(y0: Sys, y: Sys, y': Sys, s: nat, targets: seq<nat>, k: nat)
    requires Served(y0, y, s, targets, k) && IsStep(y, Finish(s), y')
    ensures y'.Shape() && y'.live == y0.live && Offered(y0, y', s, targets)
  {
    StepShape(y, Finish(s));
    assert k == |targets| && targets[..k] == targets;
    OfferedNext(y0, y, Finish(s), s, targets, targets);
  }

  lemma NoneServed(y: Sys, e: Event, y': Sys, s: nat)
    requires IsStep(y, e, y') && e.Starts() && e.Who() == s
    ensures Served(y, y', s, TargetsOf(y, e), 0)
  {
    StepShape(y, e);
    var targets := TargetsOf(y, e);
    assert targets[0..] == targets && targets[..0] == [];
    forall r | r in y.live ensures y'.boxes[(r, s)].sent == y.boxes[(r, s)].sent { StepSent(y, e, r, s); }
  }

  /** In every run: between its start and its end a broadcast of user s offers every logged-in user exactly one
      message, s itself included, whatever happens in between. */
  lemma BroadcastReachesAll(states: seq<Sys>, events: seq<Event>, s: nat, m: nat, n: nat, r: nat)
    requires IsRun(states, events) && m < n < |events| && events[m] == Broadcast(s) && events[n] == Finish(s)
    requires During(events, s, m, n) && r in states[m].live
    ensures (r, s) in states[m].boxes && (r, s) in states[n + 1].boxes
    ensures states[n + 1].boxes[(r, s)].sent == states[m].boxes[(r, s)].sent + 1
  {
    AllServed(states, events, s, m, n, Targets(states[m].live, 0));
    assert IsStep(states[m], events[m], states[m + 1]);
  }

  /** And a tell offers its receiver exactly one message, and nobody else any. */
  lemma TellReachesOne(states: seq<Sys>, events: seq<Event>, s: nat, to: nat, m: nat, n: nat, r: nat)
    requires IsRun(states, events) && m < n < |events| && events[m] == Tell(s, to) && events[n] == Finish(s)
    requires During(events, s, m, n) && r in states[m].live
    ensures (r, s) in states[m].boxes && (r, s) in states[n + 1].boxes
    ensures states[n + 1].boxes[(r, s)].sent == states[m].boxes[(r, s)].sent + if r == to then 1 else 0
  {
    AllServed(states, events, s, m, n, [to]);
  }

  /** When nothing is going on, every logged-in user can broadcast, and can tell every logged-in user, itself
      included. And while a handler runs, it is all its process does. */
  lemma CanStart(y: Sys, s: nat, r: nat, e: Event)
    requires y.Shape() && s in y.live && r in y.live
    ensures y.Quiescent() ==> y.Enabled(Broadcast(s)) && y.Enabled(Tell(s, r))
    ensures y.Enabled(e) && y.procs[e.Who()].handler.Some? ==> e.Visit? || e.Return?
  {
  }
}
