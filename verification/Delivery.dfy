/** Numbered pipes over runs of the whole server: which child reads what which child wrote, for one
    descriptor and for one session on it. */
module Delivery {
  import opened Descriptors
  import opened Schedule
  import opened CountdownRing
  import opened Pipeline
  import opened ChatServer
  import opened ServerRuns
  import opened RingHistory
  import RR = RingRuns
  import UP = UserPipes

  // --- the command lines of a run ---

  /** What one event adds to the command lines the countdown table sees. */
  ghost function Lines(s: Server, e: Event): seq<Cmd>
    requires s.Shape() && Enabled(s, e)
  {
    if e.Exec? then [s.CmdOf(e.line)] else []
  }

  /** The command lines among the first n events. */
  ghost function Cmds(states: seq<Server>, events: seq<Event>, n: nat): seq<Cmd>
    requires IsRun(states, events) && n <= |events|
  {
    if n == 0 then [] else
      assert IsStep(states[n - 1], events[n - 1], states[n]);
      Cmds(states, events, n - 1) + Lines(states[n - 1], events[n - 1])
  }

  /** The server's table is the table of its command lines: logins, logouts and names never move it. */
  lemma {:induction false} TableOfRun(states: seq<Server>, events: seq<Event>, n: nat)
    requires IsRun(states, events) && n <= |events|
    ensures ValidRun(Cmds(states, events, n)) && states[n].line == |Cmds(states, events, n)|
    ensures states[n].ring ==
            RR.RingAfter(MAX_PIPE_NUM, BOUND, Cmds(states, events, n), |Cmds(states, events, n)|)
  {
    if n > 0 {
      TableOfRun(states, events, n - 1);
      assert IsStep(states[n - 1], events[n - 1], states[n]);
      TableStep(states[n - 1], events[n - 1], Cmds(states, events, n - 1));
    }
  }

  lemma TableStep(s: Server, e: Event, before: seq<Cmd>)
    requires s.Shape() && Enabled(s, e) && ValidRun(before) && s.line == |before|
    requires s.ring == RR.RingAfter(MAX_PIPE_NUM, BOUND, before, |before|)
    ensures var now := before + Lines(s, e);
            && ValidRun(now) && Step(s, e).line == |now|
            && Step(s, e).ring == RR.RingAfter(MAX_PIPE_NUM, BOUND, now, |now|)
  {
    if e.Exec? {
      RR.RingExtended(MAX_PIPE_NUM, BOUND, before, s.CmdOf(e.line));
    } else {
      assert before + [] == before;
    }
  }

  lemma {:induction false} CmdsPrefix(states: seq<Server>, events: seq<Event>, m: nat, n: nat)
    requires IsRun(states, events) && m <= n <= |events|
    ensures Cmds(states, events, m) <= Cmds(states, events, n)
  {
    if m < n {
      CmdsPrefix(states, events, m, n - 1);
      assert IsStep(states[n - 1], events[n - 1], states[n]);
      PrefixGrows(Cmds(states, events, m), Cmds(states, events, n - 1), Lines(states[n - 1], events[n - 1]));
    }
  }

  lemma PrefixGrows<T>(a: seq<T>, b: seq<T>, more: seq<T>)
    requires a <= b
    ensures a <= b + more
  {
    assert (b + more)[..|a|] == b[..|a|];
  }

  /** What a run's command lines are, by index: event i's line stands at states[i].line, and the table it
      meets is the one the lines before it leave. */
  ghost predicate Logged(states: seq<Server>, events: seq<Event>, cmds: seq<Cmd>) {
    && |states| == |events| + 1 && ValidRun(cmds) && states[|events|].line == |cmds|
    && states[0].line == 0
    && (forall i | 0 <= i < |events| :: LoggedAt(states[i], events[i], states[i + 1], cmds))
    && (forall i | 0 <= i <= |events| :: TableIs(states[i], cmds))
  }

  ghost predicate LoggedAt(s: Server, e: Event, s': Server, cmds: seq<Cmd>) {
    && s'.line == s.line + (if e.Exec? then 1 else 0)
    && (e.Exec? ==> s.Shape() && s.LiveLine(e.line) && s.line < |cmds| && cmds[s.line] == s.CmdOf(e.line))
  }

  ghost predicate TableIs(s: Server, cmds: seq<Cmd>) {
    && ValidRun(cmds) && s.line <= |cmds|
    && s.ring == RR.RingAfter(MAX_PIPE_NUM, BOUND, cmds, s.line)
  }

  lemma PrefixTable(s: Server, before: seq<Cmd>, all: seq<Cmd>)
    requires TableIs(s, before) && s.line == |before| && before <= all && ValidRun(all)
    ensures TableIs(s, all)
  {
    assert all == before + all[|before|..];
    RR.RingOfPrefix(MAX_PIPE_NUM, BOUND, before, all[|before|..], |before|);
  }

  lemma PrefixLine(s: Server, e: Event, s': Server, before: seq<Cmd>, all: seq<Cmd>)
    requires IsStep(s, e, s') && s.line == |before| && before + Lines(s, e) <= all
    ensures LoggedAt(s, e, s', all)
  {
    if e.Exec? {
      assert (before + Lines(s, e))[|before|] == s.CmdOf(e.line);
    }
  }

  lemma TableInLog(states: seq<Server>, events: seq<Event>, i: nat)
    requires IsRun(states, events) && i <= |events| && ValidRun(Cmds(states, events, |events|))
    ensures TableIs(states[i], Cmds(states, events, |events|))
  {
    TableOfRun(states, events, i);
    CmdsPrefix(states, events, i, |events|);
    PrefixTable(states[i], Cmds(states, events, i), Cmds(states, events, |events|));
  }

  lemma NextCmds(states: seq<Server>, events: seq<Event>, i: nat)
    requires IsRun(states, events) && i < |events|
    ensures IsStep(states[i], events[i], states[i + 1])
    ensures Cmds(states, events, i + 1) == Cmds(states, events, i) + Lines(states[i], events[i])
    ensures states[i].line == |Cmds(states, events, i)|
  {
    assert IsStep(states[i], events[i], states[i + 1]);
    TableOfRun(states, events, i);
  }

  lemma LineInLog(states: seq<Server>, events: seq<Event>, i: nat)
    requires IsRun(states, events) && i < |events|
    ensures LoggedAt(states[i], events[i], states[i + 1], Cmds(states, events, |events|))
  {
    NextCmds(states, events, i);
    CmdsPrefix(states, events, i + 1, |events|);
    PrefixLine(states[i], events[i], states[i + 1], Cmds(states, events, i), Cmds(states, events, |events|));
  }

  /** Every run has such a log. */
  lemma LogOf(states: seq<Server>, events: seq<Event>) returns (cmds: seq<Cmd>)
    requires IsRun(states, events)
    ensures Logged(states, events, cmds)
  {
    cmds := Cmds(states, events, |events|);
    TableOfRun(states, events, |events|);
    forall i | 0 <= i <= |events| ensures TableIs(states[i], cmds) { TableInLog(states, events, i); }
    forall i | 0 <= i < |events| ensures LoggedAt(states[i], events[i], states[i + 1], cmds) {
      LineInLog(states, events, i);
    }
  }

  /** The run of the countdown table. */
  function TraceOf(cmds: seq<Cmd>): Trace {
    Trace(MAX_PIPE_NUM, BOUND, cmds)
  }

  /** What is known at the line of event i. */
  ghost predicate AtLine(s: Server, l: Line, cmds: seq<Cmd>) {
    && s.Sound() && s.LiveLine(l) && s.line < |cmds| && TraceOf(cmds).Valid()
    && cmds[s.line] == s.CmdOf(l) && TraceOf(cmds).At(s.line) == s.ring
  }

  lemma LineAt(states: seq<Server>, events: seq<Event>, cmds: seq<Cmd>, i: nat)
    requires IsRun(states, events) && Logged(states, events, cmds) && i < |events| && events[i].Exec?
    ensures AtLine(states[i], events[i].line, cmds)
  {
    RunAlways(states, events, i);
    assert LoggedAt(states[i], events[i], states[i + 1], cmds) && TableIs(states[i], cmds);
  }

  // --- counting commands over events ---

  ghost predicate RanAt(s: Server, e: Event, fd: nat) {
    s.Shape() && e.Exec? && e.line.fd == fd && s.Runs(e.line)
  }

  /** How many command lines were run on descriptor fd by the events from m up to n. */
  ghost function Ran(states: seq<Server>, events: seq<Event>, fd: nat, m: nat, n: nat): nat
    requires m <= n <= |events| < |states|
  {
    if m == n then 0 else Ran(states, events, fd, m, n - 1) + if RanAt(states[n - 1], events[n - 1], fd) then 1 else 0
  }

  lemma {:induction false} RanIsIndex(states: seq<Server>, events: seq<Event>, cmds: seq<Cmd>, fd: nat, m: nat, n: nat)
    requires Logged(states, events, cmds) && m <= n <= |events|
    ensures states[m].line <= states[n].line <= |cmds|
    ensures Index(cmds, fd, states[n].line) == Index(cmds, fd, states[m].line) + Ran(states, events, fd, m, n)
  {
    assert TableIs(states[n], cmds);
    if m < n {
      RanIsIndex(states, events, cmds, fd, m, n - 1);
      assert LoggedAt(states[n - 1], events[n - 1], states[n], cmds);
    }
  }

  lemma {:induction false} EventOfLine(states: seq<Server>, events: seq<Event>, cmds: seq<Cmd>, n: nat, c: nat)
    returns (e: nat)
    requires Logged(states, events, cmds) && n <= |events| && c < states[n].line
    ensures e < n && events[e].Exec? && states[e].line == c
  {
    assert LoggedAt(states[n - 1], events[n - 1], states[n], cmds);
    if c < states[n - 1].line { e := EventOfLine(states, events, cmds, n - 1, c); } else { e := n - 1; }
  }

  /** The N-th later command, by its index among all lines and by counting events. */
  lemma IndexIsRan(states: seq<Server>, events: seq<Event>, cmds: seq<Cmd>, fd: nat, i: nat, j: nat, n: nat)
    requires Logged(states, events, cmds) && i < |events| && j < |events| && n >= 1
    ensures states[i].line <= |cmds| && states[j].line <= |cmds|
    ensures Index(cmds, fd, states[j].line) == Index(cmds, fd, states[i].line) + n <==>
            i < j && Ran(states, events, fd, i, j) == n
  {
    if i <= j {
      RanIsIndex(states, events, cmds, fd, i, j);
    } else {
      RanIsIndex(states, events, cmds, fd, j, i);
    }
  }

  lemma NextLine(states: seq<Server>, events: seq<Event>, cmds: seq<Cmd>, i: nat)
    requires Logged(states, events, cmds) && i < |events| && events[i].Exec?
    ensures states[i + 1].line == states[i].line + 1 <= |cmds|
  {
    assert LoggedAt(states[i], events[i], states[i + 1], cmds);
  }

  /** Only one event has a given line. */
  lemma LineOfOne(states: seq<Server>, events: seq<Event>, cmds: seq<Cmd>, i: nat, j: nat)
    requires Logged(states, events, cmds) && i < |events| && j < |events| && events[i].Exec? && events[j].Exec?
    ensures states[i].line < states[j].line <==> i < j
    ensures states[i].line == states[j].line <==> i == j
  {
    assert LoggedAt(states[i], events[i], states[i + 1], cmds);
    assert LoggedAt(states[j], events[j], states[j + 1], cmds);
    if i < j { RanIsIndex(states, events, cmds, 0, i + 1, j); }
    if j < i { RanIsIndex(states, events, cmds, 0, j + 1, i); }
  }

  /** Line i asks for the command that line j is: the N-th later one run on its descriptor. */
  ghost predicate NamesAt(states: seq<Server>, events: seq<Event>, i: nat, j: nat)
    requires |events| < |states|
  {
    && i < j < |events| && events[i].Exec? && events[j].Exec?
    && events[i].line.suffix.Some? && events[i].line.fd == events[j].line.fd
    && Ran(states, events, events[i].line.fd, i, j) == events[i].line.suffix.value
  }

  lemma NamesInLog(states: seq<Server>, events: seq<Event>, cmds: seq<Cmd>, i: nat, j: nat)
    requires Logged(states, events, cmds) && i < |events| && j < |events|
    requires events[i].Exec? && events[j].Exec? && AtLine(states[i], events[i].line, cmds)
    requires AtLine(states[j], events[j].line, cmds)
    ensures NamesAt(states, events, i, j) <==> TraceOf(cmds).Names(states[i].line, states[j].line)
  {
    if events[i].line.suffix.Some? {
      IndexIsRan(states, events, cmds, events[i].line.fd, i, j, events[i].line.suffix.value);
    }
  }

  // --- entries taken, by events ---

  /** The event gives entry x a new countdown. */
  ghost predicate TakesAt(s: Server, e: Event, x: nat) {
    s.Shape() && e.Exec? && s.ring.Fresh(BOUND, s.CmdOf(e.line)) && s.ring.pos == x
  }

  /** And a new pipe. */
  ghost predicate FillsAt(s: Server, e: Event, x: nat) {
    TakesAt(s, e, x) && s.Runs(e.line)
  }

  ghost predicate UntakenBy(states: seq<Server>, events: seq<Event>, x: nat, m: nat, n: nat)
    requires n <= |events| < |states|
  {
    forall q | m <= q < n :: !TakesAt(states[q], events[q], x)
  }

  ghost predicate UnfilledBy(states: seq<Server>, events: seq<Event>, x: nat, m: nat, n: nat)
    requires n <= |events| < |states|
  {
    forall q | m <= q < n :: !FillsAt(states[q], events[q], x)
  }

  lemma TakesInLog(states: seq<Server>, events: seq<Event>, cmds: seq<Cmd>, x: nat, m: nat, n: nat, q: nat)
    requires IsRun(states, events) && Logged(states, events, cmds) && m <= q < n <= |events| && events[q].Exec?
    ensures TraceOf(cmds).Valid() && states[m].line <= states[q].line < states[n].line <= |cmds|
    ensures TakesAt(states[q], events[q], x) <==> TraceOf(cmds).Takes(states[q].line, x)
    ensures FillsAt(states[q], events[q], x) <==> TraceOf(cmds).Fills(states[q].line, x)
  {
    LineAt(states, events, cmds, q);
    RanIsIndex(states, events, cmds, 0, m, q);
    RanIsIndex(states, events, cmds, 0, q + 1, n);
    assert LoggedAt(states[q], events[q], states[q + 1], cmds);
  }

  /** The event of a line within a stretch. */
  lemma EventBetween(states: seq<Server>, events: seq<Event>, cmds: seq<Cmd>, m: nat, n: nat, c: nat)
    returns (q: nat)
    requires Logged(states, events, cmds) && m <= n <= |events| && states[m].line <= c < states[n].line
    ensures m <= q < n && events[q].Exec? && states[q].line == c
  {
    q := EventOfLine(states, events, cmds, n, c);
    if q < m {
      assert LoggedAt(states[q], events[q], states[q + 1], cmds);
      RanIsIndex(states, events, cmds, 0, q + 1, m);
    }
  }

  /** Stretches of events and of lines. */
  lemma UntakenInLog(states: seq<Server>, events: seq<Event>, cmds: seq<Cmd>, x: nat, m: nat, n: nat)
    requires IsRun(states, events) && Logged(states, events, cmds) && m <= n <= |events|
    ensures TraceOf(cmds).Valid() && states[n].line <= |cmds|
    ensures UntakenBy(states, events, x, m, n) <==> TraceOf(cmds).Untaken(x, states[m].line, states[n].line)
  {
    RanIsIndex(states, events, cmds, 0, m, n);
    if UntakenBy(states, events, x, m, n) {
      forall c | states[m].line <= c < states[n].line ensures !TraceOf(cmds).Takes(c, x) {
        var q := EventBetween(states, events, cmds, m, n, c);
        TakesInLog(states, events, cmds, x, m, n, q);
      }
    } else {
      var q :| m <= q < n && TakesAt(states[q], events[q], x);
      TakesInLog(states, events, cmds, x, m, n, q);
    }
  }

  lemma UnfilledInLog(states: seq<Server>, events: seq<Event>, cmds: seq<Cmd>, x: nat, m: nat, n: nat)
    requires IsRun(states, events) && Logged(states, events, cmds) && m <= n <= |events|
    ensures TraceOf(cmds).Valid() && states[n].line <= |cmds|
    ensures UnfilledBy(states, events, x, m, n) <==> TraceOf(cmds).Unfilled(x, states[m].line, states[n].line)
  {
    RanIsIndex(states, events, cmds, 0, m, n);
    if UnfilledBy(states, events, x, m, n) {
      forall c | states[m].line <= c < states[n].line ensures !TraceOf(cmds).Fills(c, x) {
        var q := EventBetween(states, events, cmds, m, n, c);
        TakesInLog(states, events, cmds, x, m, n, q);
      }
    } else {
      var q :| m <= q < n && FillsAt(states[q], events[q], x);
      TakesInLog(states, events, cmds, x, m, n, q);
    }
  }

  // --- the ends of a line's children ---

  lemma FirstInput(s: Server, l: Line)
    requires s.Sound() && s.LiveLine(l) && s.Runs(l)
    ensures |s.Children(l)| == l.stages >= 1 && s.Children(l)[0].io.stdin == s.Input(l)
  {
    ChildrenWired(s, l, 0);
  }

  lemma LastOutput(s: Server, l: Line)
    requires s.Sound() && s.LiveLine(l) && s.Runs(l) && l.suffix.Some? && l.send.None?
    ensures |s.Children(l)| == l.stages >= 1
    ensures s.ring.Writes(BOUND, s.CmdOf(l), s.line) == Some(s.Children(l)[l.stages - 1].io.stdout)
  {
    ChildrenWired(s, l, l.stages - 1);
  }

  /** The pipe of the last stage of a line. */
  function LastPipe(s: Server, l: Line): Pipe
    requires l.stages >= 1
  {
    Pipe(s.line, l.stages - 1)
  }

  /** A waiting user pipe that some table entry also holds was given both to the user and to the suffix, by
      one line. */
  lemma NumberedApart(states: seq<Server>, events: seq<Event>, n: nat, x: nat, a: int, b: int) returns (e: nat)
    requires IsRun(states, events) && n <= |events| && x < MAX_PIPE_NUM && Flagged(states[n].up, a, b)
    requires states[n].ring.Shape() && |states[n].ring.slots| == MAX_PIPE_NUM
    requires states[n].ring.slots[x].ends.inNum == states[n].up[(a, b)].fd
    ensures e < n && states[e].Shape() && UP.Posts(states[e], events[e], a, b) && FillsAt(states[e], events[e], x)
  {
    var cmds := LogOf(states, events);
    assert TableIs(states[n], cmds);
    EndsAre(TraceOf(cmds), x, states[n].line);
    e := UP.FlagOrigin(states, events, n, a, b);
    var f := TraceOf(cmds).Filler(x, states[n].line).value;
    assert f == states[e].line;
    TakesInLog(states, events, cmds, x, e, n, e);
  }

  /** The table gives line b the pipe of line a. */
  ghost predicate GivesPipe(cmds: seq<Cmd>, a: nat, b: nat)
    requires TraceOf(cmds).Valid() && a < |cmds| && b < |cmds|
  {
    TraceOf(cmds).At(b).Reads(BOUND, cmds[b]) == Some(PipeEnds(TraceOf(cmds).PipeOf(a)))
  }

  lemma GivesInLog(s: Server, l: Line, s': Server, l': Line, cmds: seq<Cmd>)
    requires AtLine(s, l, cmds) && AtLine(s', l', cmds)
    ensures GivesPipe(cmds, s.line, s'.line) <==> s'.Matured(l') == Some(PipeEnds(LastPipe(s, l)))
  {
  }

  /** The last pipe of a line that pipes to no user is read by the first child of line j exactly when the table
      gives it to line j. */
  lemma ReadsPipeIff(states: seq<Server>, events: seq<Event>, cmds: seq<Cmd>, k: nat, j: nat)
    requires IsRun(states, events) && Logged(states, events, cmds) && k < |events| && j < |events|
    requires events[k].Exec? && events[j].Exec? && AtLine(states[k], events[k].line, cmds)
    requires events[k].line.send.None? && AtLine(states[j], events[j].line, cmds) && states[j].Runs(events[j].line)
    ensures var s, l, p := states[j], events[j].line, LastPipe(states[k], events[k].line);
            && |s.Children(l)| == l.stages >= 1
            && (s.Children(l)[0].io.stdin == Rd(p) <==> GivesPipe(cmds, states[k].line, s.line))
  {
    var s, l, p := states[j], events[j].line, LastPipe(states[k], events[k].line);
    FirstInput(s, l);
    GivesInLog(states[k], events[k].line, s, l, cmds);
    if s.Matured(l).Some? {
      var m := FindMatured(s.ring.Reserved(BOUND, s.CmdOf(l)).slots, SCAN, l.fd);
      assert s.EndsOld(s.ring.slots[m].ends);
    } else if s.Input(l) == Rd(p) {
      var e := UP.FlagOrigin(states, events, j, l.recv.value, s.Me(l));
      LineOfOne(states, events, cmds, e, k);
    }
  }

  // --- delivery ---

  /** The entry a line with a suffix writes into. */
  ghost predicate WritesInto(s: Server, l: Line, x: nat) {
    && s.Shape() && l.suffix.Some?
    && (if s.ring.Fresh(BOUND, s.CmdOf(l)) then s.ring.pos == x else s.ring.Find(BOUND, s.CmdOf(l)) == x)
  }

  /** Exact delivery on the server, in every run. Line k has made the pipe in entry x, line i is line k or
      has joined it, nobody has taken the entry since, and neither pipes to a user. Then the first child of
      line j reads the pipe which the last child of line i writes exactly when j is the N-th later command
      run on the same descriptor, whatever everybody else did in between. */
  lemma ServerDelivers(states: seq<Server>, events: seq<Event>, k: nat, x: nat, i: nat, j: nat)
    requires IsRun(states, events) && k <= i < |events| && j < |events| && x < SCAN
    requires FillsAt(states[k], events[k], x) && events[k].line.send.None?
    requires events[i].Exec? && WritesInto(states[i], events[i].line, x) && states[i].Runs(events[i].line)
    requires events[i].line.send.None?
    requires events[j].Exec? && states[j].Shape() && states[j].Runs(events[j].line)
    requires UntakenBy(states, events, x, k + 1, i + 1) && (k < j ==> UntakenBy(states, events, x, k + 1, j + 1))
    ensures states[i].LiveLine(events[i].line) && states[j].LiveLine(events[j].line)
    ensures var l, l' := events[i].line, events[j].line;
            && |states[i].Children(l)| == l.stages >= 1 && |states[j].Children(l')| == l'.stages >= 1
            && var last := states[i].Children(l)[l.stages - 1].io.stdout;
            && last.Wr?
            && (states[j].Children(l')[0].io.stdin == Rd(last.pipe) <==>
                && l.fd == l'.fd && i < j && Ran(states, events, l.fd, i, j) == l.suffix.value)
  {
    var cmds := LogOf(states, events);
    LineAt(states, events, cmds, k);
    LineAt(states, events, cmds, i);
    LineAt(states, events, cmds, j);
    LastOutput(states[i], events[i].line);
    ReadsPipeIff(states, events, cmds, k, j);
    NamesInLog(states, events, cmds, i, j);
    DeliversInLog(states, events, cmds, k, x, i, j);
  }

  lemma DeliversInLog(states: seq<Server>, events: seq<Event>, cmds: seq<Cmd>, k: nat, x: nat, i: nat, j: nat)
    requires IsRun(states, events) && Logged(states, events, cmds) && k <= i < |events| && j < |events| && x < SCAN
    requires FillsAt(states[k], events[k], x)
    requires events[i].Exec? && WritesInto(states[i], events[i].line, x) && states[i].Runs(events[i].line)
    requires events[j].Exec? && states[j].Shape() && states[j].Runs(events[j].line)
    requires UntakenBy(states, events, x, k + 1, i + 1) && (k < j ==> UntakenBy(states, events, x, k + 1, j + 1))
    ensures AtLine(states[k], events[k].line, cmds) && AtLine(states[i], events[i].line, cmds)
    ensures AtLine(states[j], events[j].line, cmds)
    ensures TraceOf(cmds).At(states[i].line).Writes(BOUND, cmds[states[i].line], states[i].line)
         == Some(Wr(TraceOf(cmds).PipeOf(states[k].line)))
    ensures GivesPipe(cmds, states[k].line, states[j].line) <==>
            TraceOf(cmds).Names(states[i].line, states[j].line)
  {
    LineAt(states, events, cmds, k);
    LineAt(states, events, cmds, i);
    LineAt(states, events, cmds, j);
    LinesSince(states, events, cmds, x, k, i);
    LinesSince(states, events, cmds, x, k, j);
    TakesInLog(states, events, cmds, x, k, k + 1, k);
    EntryInLog(states[i], events[i].line, cmds, x);
    TableDelivers(TraceOf(cmds), states[k].line, x, states[i].line, states[j].line);
  }

  lemma EntryInLog(s: Server, l: Line, cmds: seq<Cmd>, x: nat)
    requires AtLine(s, l, cmds) && WritesInto(s, l, x)
    ensures TraceOf(cmds).Entry(s.line) == x
  {
  }

  /** The stretch of lines after event k up to and including event j. */
  lemma LinesSince(states: seq<Server>, events: seq<Event>, cmds: seq<Cmd>, x: nat, k: nat, j: nat)
    requires IsRun(states, events) && Logged(states, events, cmds) && k < |events| && j < |events|
    requires events[k].Exec? && events[j].Exec?
    ensures TraceOf(cmds).Valid() && states[j].line < |cmds|
    ensures if k <= j
            then states[k].line <= states[j].line
                 && (UntakenBy(states, events, x, k + 1, j + 1) <==>
                     TraceOf(cmds).Untaken(x, states[k].line + 1, states[j].line + 1))
            else states[j].line < states[k].line
  {
    LineAt(states, events, cmds, j);
    LineOfOne(states, events, cmds, k, j);
    assert LoggedAt(states[k], events[k], states[k + 1], cmds);
    assert LoggedAt(states[j], events[j], states[j + 1], cmds);
    if k <= j { UntakenInLog(states, events, cmds, x, k + 1, j + 1); }
  }

  /** So the command that line k asked for reads its pipe exactly when the aging scan reaches the entry and
      nobody has taken it since, if only running lines take it. */
  lemma ServerDeliveredIff(states: seq<Server>, events: seq<Event>, k: nat, x: nat, j: nat)
    requires IsRun(states, events) && j < |events| && NamesAt(states, events, k, j)
    requires FillsAt(states[k], events[k], x) && events[k].line.send.None?
    requires states[j].Shape() && states[j].Runs(events[j].line)
    requires forall q | k < q <= j && TakesAt(states[q], events[q], x) :: states[q].Runs(events[q].line)
    ensures states[k].LiveLine(events[k].line) && states[j].LiveLine(events[j].line)
    ensures |states[j].Children(events[j].line)| >= 1
    ensures states[j].Children(events[j].line)[0].io.stdin == Rd(LastPipe(states[k], events[k].line)) <==>
            x < SCAN && UntakenBy(states, events, x, k + 1, j + 1)
  {
    var cmds := LogOf(states, events);
    LineAt(states, events, cmds, k);
    LineAt(states, events, cmds, j);
    ReadsPipeIff(states, events, cmds, k, j);
    NamesInLog(states, events, cmds, k, j);
    DeliveredInLog(states, events, cmds, k, x, j);
  }

  lemma DeliveredInLog(states: seq<Server>, events: seq<Event>, cmds: seq<Cmd>, k: nat, x: nat, j: nat)
    requires IsRun(states, events) && Logged(states, events, cmds) && k < j < |events|
    requires FillsAt(states[k], events[k], x)
    requires events[j].Exec? && AtLine(states[k], events[k].line, cmds) && AtLine(states[j], events[j].line, cmds)
    requires states[j].Runs(events[j].line) && TraceOf(cmds).Names(states[k].line, states[j].line)
    requires forall q | k < q <= j && TakesAt(states[q], events[q], x) :: states[q].Runs(events[q].line)
    ensures GivesPipe(cmds, states[k].line, states[j].line) <==>
            x < SCAN && UntakenBy(states, events, x, k + 1, j + 1)
  {
    LinesSince(states, events, cmds, x, k, j);
    TakesInLog(states, events, cmds, x, k, k + 1, k);
    TakersRun(states, events, cmds, x, k, j);
    DeliveredIff(TraceOf(cmds), states[k].line, x, states[j].line);
  }

  lemma TakersRun(states: seq<Server>, events: seq<Event>, cmds: seq<Cmd>, x: nat, k: nat, j: nat)
    requires IsRun(states, events) && Logged(states, events, cmds) && k < j < |events|
    requires events[k].Exec? && events[j].Exec? && TraceOf(cmds).Valid() && states[j].line < |cmds|
    requires forall q | k < q <= j && TakesAt(states[q], events[q], x) :: states[q].Runs(events[q].line)
    ensures forall c | states[k].line < c <= states[j].line && TraceOf(cmds).Takes(c, x) :: cmds[c].runs
  {
    assert LoggedAt(states[k], events[k], states[k + 1], cmds);
    assert LoggedAt(states[j], events[j], states[j + 1], cmds);
    forall c | states[k].line < c <= states[j].line && TraceOf(cmds).Takes(c, x) ensures cmds[c].runs {
      var q := EventBetween(states, events, cmds, k + 1, j + 1, c);
      TakesInLog(states, events, cmds, x, k + 1, j + 1, q);
      LineAt(states, events, cmds, q);
    }
  }

  /** How many lines with a suffix, of whatever client, the events from m up to n carry. */
  function Suffixed(events: seq<Event>, m: nat, n: nat): nat
    requires m <= n <= |events|
  {
    if m == n then 0
    else Suffixed(events, m, n - 1) + if events[n - 1].Exec? && events[n - 1].line.suffix.Some? then 1 else 0
  }

  lemma {:induction false} SuffixedInLog(states: seq<Server>, events: seq<Event>, cmds: seq<Cmd>, m: nat, n: nat)
    requires Logged(states, events, cmds) && m <= n <= |events|
    ensures states[m].line <= states[n].line <= |cmds|
    ensures RR.Suffixes(cmds, states[n].line) == RR.Suffixes(cmds, states[m].line) + Suffixed(events, m, n)
  {
    assert TableIs(states[n], cmds);
    if m < n {
      SuffixedInLog(states, events, cmds, m, n - 1);
      assert LoggedAt(states[n - 1], events[n - 1], states[n], cmds);
    }
  }

  /** And it does, in every run, if at most a thousand lines with a suffix come in between. */
  lemma ServerRoomDelivers(states: seq<Server>, events: seq<Event>, k: nat, x: nat, j: nat)
    requires IsRun(states, events) && j < |events| && NamesAt(states, events, k, j) && x < SCAN
    requires FillsAt(states[k], events[k], x) && events[k].line.send.None?
    requires states[j].Shape() && states[j].Runs(events[j].line) && Suffixed(events, k + 1, j + 1) <= LAST
    ensures states[k].LiveLine(events[k].line) && states[j].LiveLine(events[j].line)
    ensures |states[j].Children(events[j].line)| >= 1
    ensures states[j].Children(events[j].line)[0].io.stdin == Rd(LastPipe(states[k], events[k].line))
  {
    var cmds := LogOf(states, events);
    LineAt(states, events, cmds, k);
    LineAt(states, events, cmds, j);
    ReadsPipeIff(states, events, cmds, k, j);
    NamesInLog(states, events, cmds, k, j);
    RoomInLog(states, events, cmds, k, x, j);
  }

  lemma RoomInLog(states: seq<Server>, events: seq<Event>, cmds: seq<Cmd>, k: nat, x: nat, j: nat)
    requires IsRun(states, events) && Logged(states, events, cmds) && k < j < |events| && x < SCAN
    requires FillsAt(states[k], events[k], x)
    requires events[j].Exec? && AtLine(states[k], events[k].line, cmds) && AtLine(states[j], events[j].line, cmds)
    requires states[j].Runs(events[j].line) && TraceOf(cmds).Names(states[k].line, states[j].line)
    requires Suffixed(events, k + 1, j + 1) <= LAST
    ensures GivesPipe(cmds, states[k].line, states[j].line)
  {
    TakesInLog(states, events, cmds, x, k, k + 1, k);
    SuffixedSince(states, events, cmds, k, j);
    RoomDelivers(TraceOf(cmds), states[k].line, x, states[j].line);
  }

  lemma {:induction false} SuffixedSince(states: seq<Server>, events: seq<Event>, cmds: seq<Cmd>, k: nat, j: nat)
    requires Logged(states, events, cmds) && k < j < |events| && events[k].Exec? && events[j].Exec?
    ensures states[k].line < |cmds| && states[j].line < |cmds|
    ensures RR.Suffixes(cmds, states[j].line + 1) - RR.Suffixes(cmds, states[k].line + 1)
         == Suffixed(events, k + 1, j + 1)
  {
    SuffixedInLog(states, events, cmds, k + 1, j + 1);
    NextLine(states, events, cmds, k);
    NextLine(states, events, cmds, j);
  }

  // --- sessions ---

  /** Entry x comes due at line j: either it stood at the right count at event m and nobody has taken it
      since, or the last line to take it since then asked for line j. */
  ghost predicate ComesDue(states: seq<Server>, events: seq<Event>, x: nat, m: nat, j: nat)
    requires m <= j < |events| < |states| && events[j].Exec? && states[m].Shape() && x < SCAN
  {
    || StoodDue(states, events, x, m, j)
    || exists q | m <= q < j :: TakenFor(states, events, x, q, j)
  }

  ghost predicate StoodDue(states: seq<Server>, events: seq<Event>, x: nat, m: nat, j: nat)
    requires m <= j < |events| < |states| && events[j].Exec? && states[m].Shape() && x < SCAN
  {
    && UntakenBy(states, events, x, m, j + 1)
    && Matches(states[m].ring.slots[x], events[j].line.fd, Ran(states, events, events[j].line.fd, m, j) + 1)
  }

  ghost predicate TakenFor(states: seq<Server>, events: seq<Event>, x: nat, q: nat, j: nat)
    requires j < |events| < |states|
  {
    && q < j && TakesAt(states[q], events[q], x) && UntakenBy(states, events, x, q + 1, j + 1)
    && NamesAt(states, events, q, j)
  }

  lemma StoodInLog(states: seq<Server>, events: seq<Event>, cmds: seq<Cmd>, x: nat, m: nat, j: nat)
    requires IsRun(states, events) && Logged(states, events, cmds) && m <= j < |events| && events[j].Exec? && x < SCAN
    ensures states[m].Shape() && TraceOf(cmds).Valid() && states[m].line <= states[j].line < |cmds|
    ensures StoodDue(states, events, x, m, j) <==>
            && TraceOf(cmds).Matures(x, states[j].line)
            && TraceOf(cmds).Taker(x, states[j].line).value < states[m].line
  {
    RunAlways(states, events, m);
    LineAt(states, events, cmds, j);
    assert TableIs(states[m], cmds) && LoggedAt(states[j], events[j], states[j + 1], cmds);
    UntakenInLog(states, events, cmds, x, m, j + 1);
    RanIsIndex(states, events, cmds, events[j].line.fd, m, j);
    StoodIff(TraceOf(cmds), x, states[m].line, states[j].line, Ran(states, events, events[j].line.fd, m, j) + 1);
  }

  lemma TakenInLog(states: seq<Server>, events: seq<Event>, cmds: seq<Cmd>, x: nat, m: nat, j: nat)
    requires IsRun(states, events) && Logged(states, events, cmds) && m <= j < |events| && events[j].Exec? && x < SCAN
    ensures TraceOf(cmds).Valid() && states[m].line <= states[j].line < |cmds|
    ensures (exists q | m <= q < j :: TakenFor(states, events, x, q, j)) <==>
            && TraceOf(cmds).Matures(x, states[j].line)
            && TraceOf(cmds).Taker(x, states[j].line).value >= states[m].line
  {
    var t, a, b := TraceOf(cmds), states[m].line, states[j].line;
    LineAt(states, events, cmds, j);
    RanIsIndex(states, events, cmds, 0, m, j);
    if t.Matures(x, b) && t.Taker(x, b).value >= a {
      var q := EventBetween(states, events, cmds, m, j, t.Taker(x, b).value);
      TakenForInLog(states, events, cmds, x, q, j);
      assert TakenFor(states, events, x, q, j);
    }
    if exists q | m <= q < j :: TakenFor(states, events, x, q, j) {
      var q :| m <= q < j && TakenFor(states, events, x, q, j);
      TakenForInLog(states, events, cmds, x, q, j);
      RanIsIndex(states, events, cmds, 0, m, q);
    }
  }

  lemma TakenForInLog(states: seq<Server>, events: seq<Event>, cmds: seq<Cmd>, x: nat, q: nat, j: nat)
    requires IsRun(states, events) && Logged(states, events, cmds) && q < j < |events|
    requires events[q].Exec? && events[j].Exec?
    ensures TraceOf(cmds).Valid() && states[q].line < states[j].line < |cmds|
    ensures TakenFor(states, events, x, q, j) <==>
            TraceOf(cmds).Matures(x, states[j].line) && TraceOf(cmds).Taker(x, states[j].line) == Some(states[q].line)
  {
    var t, k, b := TraceOf(cmds), states[q].line, states[j].line;
    LineAt(states, events, cmds, q);
    LineAt(states, events, cmds, j);
    LineOfOne(states, events, cmds, q, j);
    LinesSince(states, events, cmds, x, q, j);
    NamesInLog(states, events, cmds, q, j);
    TakesInLog(states, events, cmds, x, q, q + 1, q);
    if t.Takes(k, x) && t.Untaken(x, k + 1, b + 1) {
      assert !t.Takes(b, x);
      TakerIs(t, x, k, b);
    }
  }

  /** Whichever way, that is what it means for the entry to mature. */
  lemma MaturesInLog(states: seq<Server>, events: seq<Event>, cmds: seq<Cmd>, x: nat, m: nat, j: nat)
    requires IsRun(states, events) && Logged(states, events, cmds) && m <= j < |events| && events[j].Exec? && x < SCAN
    ensures states[m].Shape() && TraceOf(cmds).Valid() && states[m].line <= states[j].line < |cmds|
    ensures ComesDue(states, events, x, m, j) <==> TraceOf(cmds).Matures(x, states[j].line)
  {
    StoodInLog(states, events, cmds, x, m, j);
    TakenInLog(states, events, cmds, x, m, j);
  }

  /** The first child of the line reads a numbered pipe that was made before line a. */
  ghost predicate ReadsOlder(s: Server, l: Line, a: nat)
    requires s.Shape() && s.LiveLine(l)
  {
    && s.Matured(l).Some? && |s.Children(l)| >= 1
    && var input := s.Children(l)[0].io.stdin;
       input.Rd? && input.pipe.line < a
  }

  ghost predicate FilledBefore(cmds: seq<Cmd>, x: nat, a: nat, b: nat)
    requires TraceOf(cmds).Valid() && b <= |cmds|
  {
    TraceOf(cmds).Filler(x, b).Some? && TraceOf(cmds).Filler(x, b).value < a
  }

  /** In the trace: the entry that matures was filled before line a. */
  lemma OlderInLog(s: Server, l: Line, cmds: seq<Cmd>, a: nat)
    requires AtLine(s, l, cmds) && s.Runs(l) && a <= s.line
    ensures ReadsOlder(s, l, a) <==>
            exists x: nat | x < SCAN && TraceOf(cmds).Matures(x, s.line) :: FilledBefore(cmds, x, a, s.line)
  {
    var t := TraceOf(cmds);
    FirstInput(s, l);
    ReadsIff(t, s.line);
    if ReadsOlder(s, l, a) {
      var x: nat :| x < SCAN && t.Matures(x, s.line);
      assert FilledBefore(cmds, x, a, s.line);
    }
  }

  lemma {:induction false} SameFiller(t: Trace, x: nat, a: nat, b: nat)
    requires t.Valid() && a <= b <= |t.cmds| && t.Unfilled(x, a, b)
    ensures t.Filler(x, b) == t.Filler(x, a)
  {
    if a < b { SameFiller(t, x, a, b - 1); }
  }

  /** Filled before line a, seen from the table at line a. */
  lemma FilledBeforeIff(cmds: seq<Cmd>, x: nat, a: nat, b: nat)
    requires TraceOf(cmds).Valid() && a <= b < |cmds| && x < SCAN && !TraceOf(cmds).Takes(b, x)
    ensures FilledBefore(cmds, x, a, b) <==>
            TraceOf(cmds).Unfilled(x, a, b + 1) && TraceOf(cmds).At(a).slots[x].ends.inNum.Rd?
  {
    var t := TraceOf(cmds);
    EndsAre(t, x, a);
    assert t.Unfilled(x, a, b + 1) <==> t.Unfilled(x, a, b);
    if t.Unfilled(x, a, b) { SameFiller(t, x, a, b); }
  }

  /** Entry x still holds a pipe that it held at event m, and comes due at line j. */
  ghost predicate Inherits(states: seq<Server>, events: seq<Event>, x: nat, m: nat, j: nat)
    requires m <= j < |events| < |states| && events[j].Exec? && states[m].Shape() && x < SCAN
  {
    && states[m].ring.slots[x].ends.inNum.Rd? && UnfilledBy(states, events, x, m, j + 1)
    && ComesDue(states, events, x, m, j)
  }

  /** Sessions, in every run. A command of a session reads a numbered pipe made before the login exactly when
      some entry still holds a pipe of that time, and either stood at the command's count at the login and was
      left alone, or was last taken, by a line of the session that did not run, for this command. */
  lemma SessionInheritsIff(states: seq<Server>, events: seq<Event>, m: nat, j: nat)
    requires IsRun(states, events) && m < j < |events| && events[m].Login?
    requires events[j].Exec? && events[j].line.fd == events[m].fd
    requires states[j].Shape() && states[j].Runs(events[j].line)
    ensures states[j].LiveLine(events[j].line) && states[m].Shape()
    ensures ReadsOlder(states[j], events[j].line, states[m].line) <==>
            exists x: nat | x < SCAN :: Inherits(states, events, x, m, j)
  {
    var cmds := LogOf(states, events);
    LineAt(states, events, cmds, j);
    RunAlways(states, events, m);
    RanIsIndex(states, events, cmds, 0, m, j);
    OlderInLog(states[j], events[j].line, cmds, states[m].line);
    forall x: nat | x < SCAN
      ensures Inherits(states, events, x, m, j) <==>
              TraceOf(cmds).Matures(x, states[j].line) && FilledBefore(cmds, x, states[m].line, states[j].line)
    {
      InheritsInLog(states, events, cmds, x, m, j);
    }
    if ReadsOlder(states[j], events[j].line, states[m].line) {
      var x: nat :| x < SCAN && TraceOf(cmds).Matures(x, states[j].line)
                    && FilledBefore(cmds, x, states[m].line, states[j].line);
      assert Inherits(states, events, x, m, j);
    }
  }

  lemma InheritsInLog(states: seq<Server>, events: seq<Event>, cmds: seq<Cmd>, x: nat, m: nat, j: nat)
    requires IsRun(states, events) && Logged(states, events, cmds) && m < j < |events| && events[j].Exec? && x < SCAN
    ensures states[m].Shape() && TraceOf(cmds).Valid() && states[j].line < |cmds|
    ensures Inherits(states, events, x, m, j) <==>
            TraceOf(cmds).Matures(x, states[j].line) && FilledBefore(cmds, x, states[m].line, states[j].line)
  {
    MaturesInLog(states, events, cmds, x, m, j);
    UnfilledInLog(states, events, cmds, x, m, j + 1);
    NextLine(states, events, cmds, j);
    assert TableIs(states[m], cmds);
    if TraceOf(cmds).Matures(x, states[j].line) { FilledBeforeIff(cmds, x, states[m].line, states[j].line); }
  }

  /** Otherwise what a command of the session reads was written in the same session: by the last line i to
      fill an entry that, later on, line q took for exactly this command; and q is i itself if q runs. */
  lemma SessionReadsOwn(states: seq<Server>, events: seq<Event>, m: nat, j: nat) returns (x: nat, i: nat, q: nat)
    requires IsRun(states, events) && m < j < |events| && events[m].Login?
    requires events[j].Exec? && events[j].line.fd == events[m].fd
    requires states[j].Shape() && states[j].Runs(events[j].line) && states[j].LiveLine(events[j].line)
    requires states[j].Matured(events[j].line).Some? && states[j].Matured(events[j].line).value.inNum.Rd?
    requires !ReadsOlder(states[j], events[j].line, states[m].line)
    ensures m < i <= q < j && FillsAt(states[i], events[i], x) && UnfilledBy(states, events, x, i + 1, j + 1)
    ensures states[i].LiveLine(events[i].line) && TakenFor(states, events, x, q, j)
    ensures FillsAt(states[q], events[q], x) ==> i == q
    ensures |states[j].Children(events[j].line)| >= 1
    ensures states[j].Children(events[j].line)[0].io.stdin == Rd(LastPipe(states[i], events[i].line))
  {
    var cmds := LogOf(states, events);
    var t, b := TraceOf(cmds), states[j].line;
    LineAt(states, events, cmds, j);
    FirstInput(states[j], events[j].line);
    RanIsIndex(states, events, cmds, 0, m, j);
    OlderInLog(states[j], events[j].line, cmds, states[m].line);
    ReadsIff(t, b);
    x :| x < SCAN && t.Matures(x, b);
    assert !FilledBefore(cmds, x, states[m].line, b);
    i, q := OwnWriter(states, events, cmds, x, m, j);
  }

  lemma OwnWriter(states: seq<Server>, events: seq<Event>, cmds: seq<Cmd>, x: nat, m: nat, j: nat)
    returns (i: nat, q: nat)
    requires IsRun(states, events) && Logged(states, events, cmds) && m < j < |events| && events[m].Login?
    requires events[j].Exec? && AtLine(states[j], events[j].line, cmds) && x < SCAN
    requires TraceOf(cmds).Matures(x, states[j].line) && states[m].line <= states[j].line
    requires TraceOf(cmds).Filler(x, states[j].line).Some? && !FilledBefore(cmds, x, states[m].line, states[j].line)
    ensures m < i <= q < j && FillsAt(states[i], events[i], x) && UnfilledBy(states, events, x, i + 1, j + 1)
    ensures AtLine(states[i], events[i].line, cmds) && states[i].line == TraceOf(cmds).Filler(x, states[j].line).value
    ensures TakenFor(states, events, x, q, j) && (FillsAt(states[q], events[q], x) ==> i == q)
  {
    var t, b := TraceOf(cmds), states[j].line;
    FillerUpToTaker(t, x, b);
    i := EventBetween(states, events, cmds, m, j, t.Filler(x, b).value);
    q := EventBetween(states, events, cmds, m, j, t.Taker(x, b).value);
    LineAt(states, events, cmds, i);
    TakesInLog(states, events, cmds, x, m, j, i);
    TakesInLog(states, events, cmds, x, m, j, q);
    TakenForInLog(states, events, cmds, x, q, j);
    LineOfOne(states, events, cmds, i, q);
    UnfilledSince(states, events, cmds, x, i, j);
  }

  lemma UnfilledSince(states: seq<Server>, events: seq<Event>, cmds: seq<Cmd>, x: nat, i: nat, j: nat)
    requires IsRun(states, events) && Logged(states, events, cmds) && i < j < |events|
    requires events[i].Exec? && events[j].Exec? && TraceOf(cmds).Valid() && states[j].line < |cmds|
    requires TraceOf(cmds).Unfilled(x, states[i].line + 1, states[j].line) && !TraceOf(cmds).Takes(states[j].line, x)
    ensures UnfilledBy(states, events, x, i + 1, j + 1)
  {
    UnfilledInLog(states, events, cmds, x, i + 1, j + 1);
    NextLine(states, events, cmds, i);
    NextLine(states, events, cmds, j);
  }

  // --- user pipes ---

  /** Exact delivery between users, in every run: a pipe posted by a line that makes no numbered pipe of it is
      read by a child of line j exactly when line j takes it, runs, and has no numbered pipe due. */
  lemma PostedReadIff(states: seq<Server>, events: seq<Event>, i: nat, j: nat, a: int, b: int)
    requires IsRun(states, events) && i < |events| && j < |events| && states[i].Shape() && states[j].Shape()
    requires UP.Posts(states[i], events[i], a, b) && events[j].Exec?
    requires !states[i].ring.Fresh(BOUND, states[i].CmdOf(events[i].line))
    ensures states[j].LiveLine(events[j].line)
    ensures UP.ReadBy(states[j].Children(events[j].line), UP.PostedPipe(states[i], events[i].line)) <==>
            && UP.Takes(states[j], events[j]) == Some(UP.PostedPipe(states[i], events[i].line))
            && states[j].Runs(events[j].line) && states[j].Matured(events[j].line).None?
  {
    var cmds := LogOf(states, events);
    var s, l, p := states[j], events[j].line, UP.PostedPipe(states[i], events[i].line);
    LineAt(states, events, cmds, i);
    LineAt(states, events, cmds, j);
    LineOfOne(states, events, cmds, i, j);
    UP.ReadByIff(s, l, p);
    if s.Matured(l).Some? {
      NeverNumbered(states, events, cmds, i, j);
      var m := FindMatured(s.ring.Reserved(BOUND, s.CmdOf(l)).slots, SCAN, l.fd);
    }
  }

  /** No entry ever holds the pipe of a line that does not fill one. */
  lemma NeverNumbered(states: seq<Server>, events: seq<Event>, cmds: seq<Cmd>, i: nat, j: nat)
    requires IsRun(states, events) && Logged(states, events, cmds) && i < |events| && j < |events|
    requires events[i].Exec? && events[j].Exec?
    requires AtLine(states[i], events[i].line, cmds) && AtLine(states[j], events[j].line, cmds)
    requires !states[i].ring.Fresh(BOUND, states[i].CmdOf(events[i].line))
    ensures forall x: nat | x < MAX_PIPE_NUM ::
              states[j].ring.slots[x].ends.inNum != Rd(LastPipe(states[i], events[i].line))
  {
    forall x: nat | x < MAX_PIPE_NUM
      ensures states[j].ring.slots[x].ends.inNum != Rd(LastPipe(states[i], events[i].line))
    {
      EndsAre(TraceOf(cmds), x, states[j].line);
    }
  }
}
