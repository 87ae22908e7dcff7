/** User pipes over runs of np_single_proc, against their own reference: letters. `>k` posts one,
    and it is gone only when a child of a `<k` line reads it, or one of the two users leaves. */
module UserPipes {
  import opened Descriptors
  import opened Pipeline
  import opened ChatServer
  import opened ServerRuns
  import R = Registry

  datatype Letter = Letter(from: int, to: int, pipe: Pipe)

  /** The letters posted and not yet read. */
  type Mail = set<Letter>

  ghost predicate Waiting(mail: Mail, a: int, b: int) {
    exists x <- mail :: x.from == a && x.to == b
  }

  /** Some child has this pipe as its input. */
  ghost predicate ReadBy(children: seq<Child>, p: Pipe) {
    exists c <- children :: c.io.stdin == Rd(p)
  }

  /** Whether the line is accepted, by what is really waiting. */
  ghost predicate MailOk(s: Server, mail: Mail, l: Line)
    requires s.Shape()
  {
    var me := s.Me(l);
    && (l.recv.Some? ==> s.reg.LiveId(l.recv.value) && Waiting(mail, l.recv.value, me))
    && (l.send.Some? ==> s.reg.LiveId(l.send.value)
                         && (!Waiting(mail, me, l.send.value) || (l.recv == Some(me) && l.send == Some(me))))
  }

  /** The letters addressed to this line that one of its children reads. */
  ghost function ReadLetters(s: Server, mail: Mail, l: Line): Mail
    requires s.Shape() && s.LiveLine(l)
  {
    set x <- mail | l.recv == Some(x.from) && x.to == s.Me(l) && ReadBy(s.Children(l), x.pipe)
  }

  ghost function MailStep(s: Server, mail: Mail, e: Event): Mail
    requires s.Shape() && Enabled(s, e)
  {
    match e
    case Exec(l) =>
      if !MailOk(s, mail, l) then mail
      else mail - ReadLetters(s, mail, l)
           + (if l.send.Some? && !l.builtin
              then {Letter(s.Me(l), l.send.value, Pipe(s.line, l.stages - 1))} else {})
    case Logout(fd) =>
      set x <- mail | x.from != s.reg.IdOf(fd) && x.to != s.reg.IdOf(fd)
    case _ => mail
  }

  /** The matrix holds exactly the letters. */
  ghost predicate MailRep(s: Server, mail: Mail) {
    && (forall x <- mail :: Flagged(s.up, x.from, x.to) && s.up[(x.from, x.to)].fd == Rd(x.pipe))
    && (forall a, b | Flagged(s.up, a, b) :: s.up[(a, b)].fd.Rd? && Letter(a, b, s.up[(a, b)].fd.pipe) in mail)
  }

  /** The line takes a pipe out of the matrix. */
  predicate Granted(s: Server, l: Line)
    requires s.Shape()
  {
    l.recv.Some? && s.RecvOk(l)
  }

  function TakenFd(s: Server, l: Line): Desc
    requires s.Shape() && Granted(s, l)
  {
    s.up[(l.recv.value, s.Me(l))].fd
  }

  /** The ways in which a line loses a letter: its `<` was granted but it does not run (its `>` is
      refused, or it is a builtin); its `<` was granted but a matured pipe takes the place of the input;
      or it pipes from itself to itself on one stage. */
  predicate KeepsMail(s: Server, e: Event)
    requires s.Shape()
  {
    e.Exec? ==>
      && (Granted(s, e.line) ==>
            s.Runs(e.line)
            && (s.Matured(e.line).None? || s.Matured(e.line).value.inNum == TakenFd(s, e.line)))
      && !(s.Runs(e.line) && e.line.stages == 1
           && e.line.recv == Some(s.reg.IdOf(e.line.fd)) && e.line.send == Some(s.reg.IdOf(e.line.fd)))
  }

  // --- who reads a taken pipe ---

  /** Which earlier pipes are read by some child of a line. */
  lemma ReadByIff(s: Server, l: Line, p: Pipe)
    requires s.Sound() && s.LiveLine(l) && (p.line == s.line ==> p.stage >= l.stages - 1)
    ensures ReadBy(s.Children(l), p) <==> s.Runs(l) && s.Input(l) == Rd(p)
  {
    if s.Runs(l) {
      var children := s.Children(l);
      forall i: nat | i < l.stages ensures children[i].io.stdin == StdinOf(s.PlanOf(l), s.Input(l), i) {
        ChildrenWired(s, l, i);
      }
      ChildrenWired(s, l, 0);
      if s.Input(l) == Rd(p) { assert children[0] in children; }
    }
  }

  /** In any reachable state: a pipe taken by `<k` is read by a child exactly when the line runs and no
      other pipe matures on it. */
  lemma TakenIsReadIff(s: Server, l: Line)
    requires s.Sound() && s.LiveLine(l) && Granted(s, l)
    ensures TakenFd(s, l).Rd?
    ensures ReadBy(s.Children(l), TakenFd(s, l).pipe) <==>
            s.Runs(l) && (s.Matured(l).None? || s.Matured(l).value.inNum == TakenFd(s, l))
  {
    assert s.FlagOld(l.recv.value, s.Me(l));
    ReadByIff(s, l, TakenFd(s, l).pipe);
  }

  /** While all lines are clean no matured pipe is a user pipe, and the child that reads is the first. */
  lemma TakenIsReadClean(s: Server, l: Line)
    requires s.Good() && s.LiveLine(l) && Granted(s, l)
    ensures |s.Children(l)| > 0 && s.Children(l)[0].io.stdin == TakenFd(s, l) <==>
            s.Runs(l) && s.Matured(l).None?
    ensures TakenFd(s, l).Rd?
    ensures ReadBy(s.Children(l), TakenFd(s, l).pipe) <==> s.Runs(l) && s.Matured(l).None?
  {
    TakenIsReadIff(s, l);
    if s.Runs(l) {
      ChildrenWired(s, l, 0);
      assert s.FlagGood(l.recv.value, s.Me(l));
      var m := MaturedEntry(s, l);
    }
  }

  // --- one event ---

  lemma MailOkIffAccepted(s: Server, mail: Mail, l: Line)
    requires s.Sound() && s.LiveLine(l) && MailRep(s, mail)
    ensures MailOk(s, mail, l) <==> s.Accepted(l)
  {
    forall a, b ensures Waiting(mail, a, b) <==> Flagged(s.up, a, b) {
      if Flagged(s.up, a, b) { assert Letter(a, b, s.up[(a, b)].fd.pipe) in mail; }
    }
    R.FindLive(s.reg, l.fd);
  }

  /** A letter that waits at the pair a line takes from is the one it takes. */
  lemma ReadIsTaken(s: Server, mail: Mail, l: Line, x: Letter)
    requires s.Sound() && s.LiveLine(l) && MailRep(s, mail) && x in mail
    ensures x in ReadLetters(s, mail, l) ==> Granted(s, l) && Rd(x.pipe) == TakenFd(s, l)
    ensures Granted(s, l) && l.recv == Some(x.from) && x.to == s.Me(l) && KeepsMail(s, Exec(l)) ==>
              x in ReadLetters(s, mail, l)
  {
    assert s.FlagOld(x.from, x.to);
    if Granted(s, l) { TakenIsReadIff(s, l); }
  }

  lemma LetterKept(s: Server, mail: Mail, l: Line, x: Letter)
    requires s.Sound() && s.LiveLine(l) && MailRep(s, mail) && KeepsMail(s, Exec(l))
    requires (MailOk(s, mail, l) <==> s.Accepted(l)) && x in MailStep(s, mail, Exec(l))
    ensures Flagged(s.MatrixThen(l), x.from, x.to) && s.MatrixThen(l)[(x.from, x.to)].fd == Rd(x.pipe)
  {
    if x in mail {
      ReadIsTaken(s, mail, l, x);
      assert Flagged(s.up, x.from, x.to);
      NotReplaced(s, l, x.from, x.to);
    } else {
      SenderInMatrix(s, l);
    }
  }

  /** A running line sets only a flag that was down, or the one it has just taken. */
  lemma NotReplaced(s: Server, l: Line, a: int, b: int)
    requires s.Shape() && s.LiveLine(l) && Flagged(s.up, a, b)
    ensures s.Runs(l) && a == s.Me(l) && l.send == Some(b) ==> Granted(s, l) && l.recv == Some(a) && a == b
  {
  }

  lemma FlagHasLetter(s: Server, mail: Mail, l: Line, a: int, b: int)
    requires s.Sound() && s.LiveLine(l) && MailRep(s, mail) && KeepsMail(s, Exec(l))
    requires (MailOk(s, mail, l) <==> s.Accepted(l)) && Flagged(s.MatrixThen(l), a, b)
    ensures var fd := s.MatrixThen(l)[(a, b)].fd;
            fd.Rd? && Letter(a, b, fd.pipe) in MailStep(s, mail, Exec(l))
  {
    FlagKept(s, l, a, b);
    if !(s.Runs(l) && l.send == Some(b) && a == s.Me(l)) {
      var x := Letter(a, b, s.up[(a, b)].fd.pipe);
      assert x in mail;
      ReadIsTaken(s, mail, l, x);
    }
  }

  lemma LineKeepsMail(s: Server, mail: Mail, l: Line)
    requires s.Sound() && s.LiveLine(l) && MailRep(s, mail) && KeepsMail(s, Exec(l))
    ensures MailRep(s.Exec(l), MailStep(s, mail, Exec(l)))
  {
    MailOkIffAccepted(s, mail, l);
    var s', mail' := s.Exec(l), MailStep(s, mail, Exec(l));
    forall x <- mail' ensures Flagged(s'.up, x.from, x.to) && s'.up[(x.from, x.to)].fd == Rd(x.pipe) {
      LetterKept(s, mail, l, x);
    }
    forall a, b | Flagged(s'.up, a, b)
      ensures s'.up[(a, b)].fd.Rd? && Letter(a, b, s'.up[(a, b)].fd.pipe) in mail'
    {
      FlagHasLetter(s, mail, l, a, b);
    }
  }

  lemma LineLosesMail(s: Server, mail: Mail, l: Line)
    requires s.Sound() && s.LiveLine(l) && MailRep(s, mail) && !KeepsMail(s, Exec(l))
    ensures !MailRep(s.Exec(l), MailStep(s, mail, Exec(l)))
  {
    MailOkIffAccepted(s, mail, l);
    var me, s', mail' := s.Me(l), s.Exec(l), MailStep(s, mail, Exec(l));
    if s.Runs(l) && s.SelfDrop(l) {
      assert Letter(me, me, Pipe(s.line, l.stages - 1)) in mail' && !Flagged(s'.up, me, me);
    } else {
      TakenIsReadIff(s, l);
      var x := Letter(l.recv.value, me, TakenFd(s, l).pipe);
      assert x in mail && x !in ReadLetters(s, mail, l);
      TakenLeaves(s, l);
      assert x in mail';
    }
  }

  /** After the line, what it took is no longer in the matrix at that pair. */
  lemma TakenLeaves(s: Server, l: Line)
    requires s.Sound() && s.LiveLine(l) && Granted(s, l)
    ensures var k := (l.recv.value, s.Me(l));
            Flagged(s.MatrixThen(l), k.0, k.1) ==> s.MatrixThen(l)[k].fd != TakenFd(s, l)
  {
    var k := (l.recv.value, s.Me(l));
    assert s.FlagOld(k.0, k.1);
    if Flagged(s.MatrixThen(l), k.0, k.1) { FlagKept(s, l, k.0, k.1); }
  }

  lemma LogoutKeepsMail(s: Server, mail: Mail, fd: nat)
    requires Always(s) && Enabled(s, Logout(fd)) && MailRep(s, mail)
    ensures MailRep(Step(s, Logout(fd)), MailStep(s, mail, Logout(fd)))
  {
    var s', mail' := Step(s, Logout(fd)), MailStep(s, mail, Logout(fd));
    forall a, b ensures Flagged(s'.up, a, b) <==>
                        Flagged(s.up, a, b) && a != s.reg.IdOf(fd) && b != s.reg.IdOf(fd)
    {
      assert s.FlagOld(a, b);
    }
  }

  /** The matrix holds exactly the letters posted and not yet read: each event, in any reachable state,
      keeps this exactly when it is not one of the losing lines. */
  lemma StepMailIff(s: Server, mail: Mail, e: Event)
    requires Always(s) && Enabled(s, e) && MailRep(s, mail)
    ensures MailRep(Step(s, e), MailStep(s, mail, e)) <==> KeepsMail(s, e)
  {
    match e
    case Exec(l) =>
      if KeepsMail(s, e) { LineKeepsMail(s, mail, l); } else { LineLosesMail(s, mail, l); }
    case Logout(fd) => LogoutKeepsMail(s, mail, fd);
    case Login(fd) =>
    case Name(fd, cmd) =>
  }

  // --- runs ---

  /** The letters after the first n events. */
  ghost function MailAfter(states: seq<Server>, events: seq<Event>, n: nat): Mail
    requires IsRun(states, events) && n <= |events|
  {
    if n == 0 then {} else
      assert IsStep(states[n - 1], events[n - 1], states[n]);
      MailStep(states[n - 1], MailAfter(states, events, n - 1), events[n - 1])
  }

  ghost predicate KeepsAt(s: Server, e: Event) {
    s.Shape() && KeepsMail(s, e)
  }

  ghost predicate Keeping(states: seq<Server>, events: seq<Event>, n: nat)
    requires n <= |events| < |states|
  {
    forall i | 0 <= i < n :: KeepsAt(states[i], events[i])
  }

  /** In the first n states and the n-th, the matrix holds exactly the letters. */
  ghost predicate AllRep(states: seq<Server>, events: seq<Event>, n: nat)
    requires IsRun(states, events) && n <= |events|
  {
    MailRep(states[n], MailAfter(states, events, n)) && (n > 0 ==> AllRep(states, events, n - 1))
  }

  /** Over every run, clean or not: the matrix holds exactly the unread letters in every state up to the
      n-th exactly when none of the events before it loses one. */
  lemma {:induction false} RunMailIff(states: seq<Server>, events: seq<Event>, n: nat)
    requires IsRun(states, events) && n <= |events|
    ensures AllRep(states, events, n) <==> Keeping(states, events, n)
  {
    if n > 0 {
      RunMailIff(states, events, n - 1);
      RunAlways(states, events, n - 1);
      assert IsStep(states[n - 1], events[n - 1], states[n]);
      LastKeeps(states, events, n);
      if AllRep(states, events, n - 1) {
        StepMailIff(states[n - 1], MailAfter(states, events, n - 1), events[n - 1]);
      }
    }
  }

  lemma LastKeeps(states: seq<Server>, events: seq<Event>, n: nat)
    requires 0 < n <= |events| < |states|
    ensures Keeping(states, events, n) <==>
            Keeping(states, events, n - 1) && KeepsAt(states[n - 1], events[n - 1])
  {
  }

  /** Some logged-in client has this id. */
  ghost predicate HasClient(s: Server, id: int)
    requires s.Shape()
  {
    1 <= id <= R.MAX_ID && exists fd :: s.reg.Live(fd) && s.reg.IdOf(fd) == id
  }

  /** Which lines run, over every run that has lost no letter yet: no builtin; `<k` needs a client k whose
      letter waits; `>k` needs a client k for whom none waits, but for the one this line takes itself. */
  lemma RunsIff(states: seq<Server>, events: seq<Event>, n: nat)
    requires IsRun(states, events) && n < |events| && Keeping(states, events, n) && events[n].Exec?
    ensures states[n].Shape() && states[n].LiveLine(events[n].line)
    ensures var s, mail, l := states[n], MailAfter(states, events, n), events[n].line;
            var me := s.reg.IdOf(l.fd);
            s.Runs(l) <==>
            && !l.builtin
            && (l.recv.Some? ==> HasClient(s, l.recv.value) && Waiting(mail, l.recv.value, me))
            && (l.send.Some? ==> HasClient(s, l.send.value)
                                 && (!Waiting(mail, me, l.send.value) || (l.recv == Some(me) && l.send == Some(me))))
  {
    var s, l := states[n], events[n].line;
    RunMailIff(states, events, n);
    RunAlways(states, events, n);
    assert IsStep(s, events[n], states[n + 1]);
    MailOkIffAccepted(s, MailAfter(states, events, n), l);
    if l.recv.Some? { R.LiveIdIff(s.reg, l.recv.value); }
    if l.send.Some? { R.LiveIdIff(s.reg, l.send.value); }
  }

  // --- a pipe is taken once ---

  /** The pipe a line takes out of the matrix. */
  function Takes(s: Server, e: Event): Option<Pipe>
    requires s.Shape()
  {
    if e.Exec? && Granted(s, e.line) && TakenFd(s, e.line).Rd? then Some(TakenFd(s, e.line).pipe) else None
  }

  ghost predicate Gone(s: Server, p: Pipe) {
    p.line < s.line && forall a, b | Flagged(s.up, a, b) :: s.up[(a, b)].fd != Rd(p)
  }

  lemma StepStaysGone(s: Server, e: Event, p: Pipe)
    requires s.Shape() && Enabled(s, e) && Gone(s, p)
    ensures Gone(Step(s, e), p)
  {
    var s' := Step(s, e);
    forall a, b | Flagged(s'.up, a, b) ensures s'.up[(a, b)].fd != Rd(p) {
      if e.Exec? { FlagKept(s, e.line, a, b); }
      assert Flagged(s.up, a, b) ==> s.up[(a, b)].fd != Rd(p);
    }
  }

  lemma TakenIsGone(s: Server, e: Event, p: Pipe)
    requires Always(s) && Enabled(s, e) && Takes(s, e) == Some(p)
    ensures Gone(Step(s, e), p)
  {
    var l := e.line;
    var from := (l.recv.value, s.Me(l));
    assert s.FlagOld(from.0, from.1);
    var s' := Step(s, e);
    forall a, b | Flagged(s'.up, a, b) ensures s'.up[(a, b)].fd != Rd(p) {
      FlagKept(s, l, a, b);
    }
  }

  lemma {:induction false} StaysGone(states: seq<Server>, events: seq<Event>, m: nat, n: nat, p: Pipe)
    requires IsRun(states, events) && m <= n <= |events| && Gone(states[m], p)
    ensures Gone(states[n], p)
  {
    if m < n {
      StaysGone(states, events, m, n - 1, p);
      assert IsStep(states[n - 1], events[n - 1], states[n]);
      StepStaysGone(states[n - 1], events[n - 1], p);
    }
  }

  /** Over every run, no user pipe is taken by two lines. */
  lemma TakenOnce(states: seq<Server>, events: seq<Event>, i: nat, j: nat)
    requires IsRun(states, events) && i < j < |events|
    ensures states[i].Shape() && states[j].Shape()
    ensures Takes(states[i], events[i]).Some? ==> Takes(states[i], events[i]) != Takes(states[j], events[j])
  {
    RunAlways(states, events, i);
    RunAlways(states, events, j);
    assert IsStep(states[i], events[i], states[i + 1]);
    if Takes(states[i], events[i]).Some? {
      TakenIsGone(states[i], events[i], Takes(states[i], events[i]).value);
      StaysGone(states, events, i + 1, j, Takes(states[i], events[i]).value);
    }
  }

  // --- who wrote what a line takes ---

  /** The event is a running line of user a that ends in `>b`. */
  ghost predicate Posts(s: Server, e: Event, a: int, b: int)
    requires s.Shape()
  {
    e.Exec? && s.LiveLine(e.line) && s.Runs(e.line) && e.line.send == Some(b) && a == s.Me(e.line)
  }

  /** The pipe between the last stage of a line and its `>k`. */
  function PostedPipe(s: Server, l: Line): Pipe
    requires l.stages >= 1
  {
    Pipe(s.line, l.stages - 1)
  }

  lemma FlagSource(s: Server, e: Event, a: int, b: int)
    requires s.Shape() && Enabled(s, e) && Flagged(Step(s, e).up, a, b)
    ensures if Posts(s, e, a, b) then Step(s, e).up[(a, b)].fd == Rd(PostedPipe(s, e.line))
            else Flagged(s.up, a, b) && Step(s, e).up[(a, b)].fd == s.up[(a, b)].fd
  {
    if e.Exec? { FlagKept(s, e.line, a, b); }
  }

  /** The event that set a flag. */
  lemma {:induction false} FlagOrigin(states: seq<Server>, events: seq<Event>, n: nat, a: int, b: int) returns (e: nat)
    requires IsRun(states, events) && n <= |events| && Flagged(states[n].up, a, b)
    ensures e < n && states[e].Shape() && Posts(states[e], events[e], a, b)
    ensures states[n].up[(a, b)].fd == Rd(PostedPipe(states[e], events[e].line))
  {
    assert states[0] == Start();
    assert IsStep(states[n - 1], events[n - 1], states[n]);
    FlagSource(states[n - 1], events[n - 1], a, b);
    if Posts(states[n - 1], events[n - 1], a, b) {
      e := n - 1;
    } else {
      e := FlagOrigin(states, events, n - 1, a, b);
    }
  }

  /** The last child of a posting line writes the pipe that it posts. */
  lemma PosterWrites(s: Server, l: Line)
    requires s.Sound() && s.LiveLine(l) && s.Runs(l) && l.send.Some?
    ensures |s.Children(l)| == l.stages
    ensures s.Children(l)[l.stages - 1].io.stdout == Wr(PostedPipe(s, l))
  {
    ChildrenWired(s, l, l.stages - 1);
  }

  /** Delivery between users, over every run: the first child of a line that takes a pipe from user a, runs,
      and has no numbered pipe due, reads the pipe which the last child of a line of a wrote for this user. */
  lemma UserPipeDelivers(states: seq<Server>, events: seq<Event>, j: nat) returns (i: nat)
    requires IsRun(states, events) && j < |events| && events[j].Exec?
    requires states[j].Shape() && Granted(states[j], events[j].line) && states[j].Runs(events[j].line)
    requires states[j].Matured(events[j].line).None?
    ensures i < j && states[i].Shape() && states[j].LiveLine(events[j].line)
    ensures Posts(states[i], events[i], events[j].line.recv.value, states[j].Me(events[j].line))
    ensures var from, to := states[i].Children(events[i].line), states[j].Children(events[j].line);
            && |from| > 0 && |to| > 0 && from[|from| - 1].io.stdout.Wr?
            && to[0].io.stdin == Rd(from[|from| - 1].io.stdout.pipe)
  {
    var s, l := states[j], events[j].line;
    assert IsStep(s, events[j], states[j + 1]);
    RunAlways(states, events, j);
    i := FlagOrigin(states, events, j, l.recv.value, s.Me(l));
    RunAlways(states, events, i);
    PosterWrites(states[i], events[i].line);
    ChildrenWired(s, l, 0);
  }
}
