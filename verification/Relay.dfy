/** socks_bridge and socks_bind as state machines over completions. The program only ever runs inside a
    completion callback, so a step is: some outstanding operation completes, in any order the event
    loop likes, and its callback starts further operations. */
module Relay {
  import opened Descriptors

  type Byte = x: int | 0 <= x < 256

  const MAX_LENGTH: nat := 1024
  const REPLY_LENGTH: nat := 8

  /** Up is from the client to the server, Down the other way. */
  datatype Dir = Up | Down

  datatype Kind = Bridge | Bind

  datatype SetUpOp = Resolve | Connect | Accept | Reply(first: bool)

  datatype StreamOp = Read | Write(length: nat)

  /** One direction: the operations now using its buffer, the buffer, all bytes read so far, and all
      bytes sent so far. */
  datatype Stream = Stream(ops: multiset<StreamOp>, buffer: seq<Byte>, taken: seq<Byte>, sent: seq<Byte>)

  /** setUp: the outstanding operations before the relay; replies: the reply packets sent so far;
      accepts: how many connections were accepted. */
  datatype Session = Session(kind: Kind, setUp: multiset<SetUpOp>, up: Stream, down: Stream,
                             reply: seq<Byte>, replies: seq<seq<Byte>>, accepts: nat)
  {
    function Get(d: Dir): Stream {
      if d.Up? then up else down
    }

    function Put(d: Dir, t: Stream): Session {
      if d.Up? then this.(up := t) else this.(down := t)
    }

    /** How many replies precede the relay. */
    function Goal(): nat {
      if kind.Bridge? then 1 else 2
    }
  }

  /** A completion. data: the bytes a read put into the buffer; count: how many bytes a send took. */
  datatype Done =
    | SetUpDone(setUpOp: SetUpOp, ok: bool, count: nat)
    | StreamDone(dir: Dir, op: StreamOp, ok: bool, data: seq<Byte>, count: nat)
  {
    /** What the sockets guarantee. */
    predicate Possible(y: Session) {
      match this
      case SetUpDone(o, _, n) => o in y.setUp && n <= REPLY_LENGTH
      case StreamDone(d, o, _, data, n) =>
        && o in y.Get(d).ops
        && (o.Read? ==> 1 <= |data| <= MAX_LENGTH)
        && (o.Write? ==> n <= o.length && (o.length > 0 ==> n > 0))
    }

    /** A reply that was sent whole. */
    predicate WholeReply() {
      SetUpDone? && ok && setUpOp.Reply? ==> count == REPLY_LENGTH
    }

    /** A send that took everything it was given. */
    predicate Full() {
      match this
      case SetUpDone(o, ok, n) => ok && o.Reply? ==> n == REPLY_LENGTH
      case StreamDone(_, o, ok, _, n) => ok && o.Write? ==> n == o.length
    }
  }

  function Idle(): Stream {
    Stream(multiset{}, seq(MAX_LENGTH, _ => 0), [], [])
  }

  function Start(kind: Kind, reply: seq<Byte>): Session {
    Session(kind, multiset{if kind.Bridge? then Resolve else Reply(true)}, Idle(), Idle(), reply, [], 0)
  }

  function Overwrite(buffer: seq<Byte>, data: seq<Byte>): seq<Byte>
    requires |data| <= |buffer|
  {
    data + buffer[|data|..]
  }

  /** do_read's callback, then do_write's. Only socks_bind looks at how much was sent; it then sends
      the remaining number of bytes, from the front of the buffer again. */
  function StreamStep(kind: Kind, t: Stream, op: StreamOp, ok: bool, data: seq<Byte>, count: nat): Stream
    requires |data| <= |t.buffer| && (op.Write? ==> count <= op.length <= |t.buffer|)
  {
    var rest := t.ops - multiset{op};
    if !ok then t.(ops := rest)
    else if op.Read? then
      Stream(rest + multiset{Write(|data|)}, Overwrite(t.buffer, data), t.taken + data, t.sent)
    else
      var next := if kind.Bind? && count != op.length then Write(op.length - count) else Read;
      Stream(rest + multiset{next}, t.buffer, t.taken, t.sent + t.buffer[..count])
  }

  function BeginRead(t: Stream): Stream {
    t.(ops := t.ops + multiset{Read})
  }

  /** The callbacks before the relay. */
  function SetUpStep(y: Session, op: SetUpOp, ok: bool, count: nat): Session
    requires count <= |y.reply|
  {
    var z := y.(setUp := y.setUp - multiset{op});
    if !ok then z
    else match op
      case Resolve => z.(setUp := z.setUp + multiset{Connect})
      case Connect => z.(setUp := z.setUp + multiset{Reply(false)})
      case Accept => z.(setUp := z.setUp + multiset{Reply(false)}, accepts := z.accepts + 1)
      case Reply(first) =>
        var r := z.(replies := z.replies + [y.reply[..count]]);
        if first then r.(setUp := r.setUp + multiset{Accept})
        else r.(up := BeginRead(r.up), down := BeginRead(r.down))
  }

  ghost predicate Shape(y: Session) {
    StreamShape(y.up) && StreamShape(y.down) && |y.reply| == REPLY_LENGTH
  }

  ghost predicate StreamShape(t: Stream) {
    |t.buffer| == MAX_LENGTH && forall op <- t.ops :: op.Write? ==> op.length <= MAX_LENGTH
  }

  function Step(y: Session, d: Done): Session
    requires Shape(y) && d.Possible(y)
  {
    match d
    case SetUpDone(op, ok, count) => SetUpStep(y, op, ok, count)
    case StreamDone(dir, op, ok, data, count) =>
      var bytes := if op.Read? then data else [];
      y.Put(dir, StreamStep(y.kind, y.Get(dir), op, ok, bytes, count))
  }

  // --- one direction ---

  /** Waiting for bytes: everything read so far has been sent. */
  ghost predicate Reading(t: Stream) {
    t.ops == multiset{Read} && t.sent == t.taken
  }

  /** Sending n bytes from the buffer: they are exactly what is still missing. */
  ghost predicate Writing(t: Stream, n: nat) {
    t.ops == multiset{Write(n)} && n <= |t.buffer| && t.taken == t.sent + t.buffer[..n]
  }

  /** No operation: not started, or stopped by an error with at most a chunk unsent. */
  ghost predicate Stopped(t: Stream) {
    t.ops == multiset{} && t.sent <= t.taken && |t.taken| <= |t.sent| + MAX_LENGTH
  }

  /** At most one operation uses the buffer, and what was sent is a prefix of what was read, at most
      one chunk behind. */
  ghost predicate StreamOk(t: Stream) {
    |t.buffer| == MAX_LENGTH && (Reading(t) || Stopped(t) || exists n: nat :: Writing(t, n))
  }

  /** The one operation of a direction tells which state it is in. */
  lemma OpOfStream(t: Stream, op: StreamOp)
    requires StreamOk(t) && op in t.ops
    ensures t.ops - multiset{op} == multiset{}
    ensures if op.Read? then Reading(t) else Writing(t, op.length)
  {
    if n: nat :| Writing(t, n) { assert op == Write(n); }
  }

  /** A completed read hands exactly the new bytes to the send. */
  lemma ReadStep(kind: Kind, t: Stream, data: seq<Byte>)
    requires StreamOk(t) && Read in t.ops && |data| <= MAX_LENGTH
    ensures Writing(StreamStep(kind, t, Read, true, data, 0), |data|)
  {
    OpOfStream(t, Read);
    assert Overwrite(t.buffer, data)[..|data|] == data;
  }

  /** A failed operation stops its direction with what was sent still a prefix. */
  lemma ErrorStep(kind: Kind, t: Stream, op: StreamOp)
    requires StreamOk(t) && op in t.ops
    ensures op.Write? ==> op.length <= |t.buffer|
    ensures Stopped(StreamStep(kind, t, op, false, [], 0))
  {
    OpOfStream(t, op);
  }

  /** A completed send of the bridge keeps the prefix property exactly when it was full: its callback
      ignores the count. */
  lemma BridgeWriteIff(t: Stream, n: nat, count: nat)
    requires StreamOk(t) && Write(n) in t.ops && count <= n
    ensures n <= |t.buffer|
    ensures StreamOk(StreamStep(Bridge, t, Write(n), true, [], count)) <==> count == n
  {
    OpOfStream(t, Write(n));
    var u := StreamStep(Bridge, t, Write(n), true, [], count);
    assert u.ops == multiset{Read} && Read in u.ops;
    assert |u.sent| == |t.sent| + count;
    if count == n { assert Reading(u); }
  }

  /** A short send of the bind relay starts again at the front of the buffer: the rest of the chunk is
      still right exactly when the chunk repeats itself with the period of the short send. */
  lemma BindWriteIff(t: Stream, n: nat, count: nat)
    requires StreamOk(t) && Write(n) in t.ops && 0 < count <= n
    ensures n <= |t.buffer|
    ensures StreamOk(StreamStep(Bind, t, Write(n), true, [], count)) <==>
              count == n || t.buffer[count..n] == t.buffer[..n - count]
  {
    OpOfStream(t, Write(n));
    var u := StreamStep(Bind, t, Write(n), true, [], count);
    if count == n {
      assert Reading(u);
    } else {
      assert u.ops == multiset{Write(n - count)} && Write(n - count) in u.ops;
      assert t.buffer[..n] == t.buffer[..count] + t.buffer[count..n];
      assert u.taken == u.sent + t.buffer[count..n];
      if t.buffer[count..n] == t.buffer[..n - count] {
        assert Writing(u, n - count);
      } else {
        assert (u.sent + t.buffer[count..n])[|u.sent|..] == t.buffer[count..n];
        assert (u.sent + t.buffer[..n - count])[|u.sent|..] == t.buffer[..n - count];
        assert !Writing(u, n - count);
      }
    }
  }

  /** With full sends every completion keeps its direction in order. */
  lemma StreamStepOk(kind: Kind, t: Stream, op: StreamOp, ok: bool, data: seq<Byte>, count: nat)
    requires StreamOk(t) && op in t.ops && |data| <= MAX_LENGTH
    requires op.Write? ==> data == [] && count <= op.length && (ok ==> count == op.length)
    ensures op.Write? ==> op.length <= |t.buffer|
    ensures StreamOk(StreamStep(kind, t, op, ok, data, count))
  {
    OpOfStream(t, op);
    var u := StreamStep(kind, t, op, ok, data, count);
    if !ok { assert Stopped(u); }
    else if op.Read? { ReadStep(kind, t, data); assert Writing(u, |data|); }
    else { assert Reading(u); }
  }

  // --- the whole session ---

  /** Before the last reply at most one set-up operation is outstanding and neither direction has
      begun; each operation has its place in the protocol. */
  ghost predicate SetUpOk(y: Session) {
    && (y.setUp == multiset{} || exists op :: y.setUp == multiset{op} && InPlace(y, op))
    && (forall r <- y.replies :: r == y.reply)
    && |y.replies| <= y.Goal() && (|y.replies| == y.Goal() ==> y.setUp == multiset{})
    && (|y.replies| < y.Goal() ==> y.up == y.down == Idle())
    && (y.kind.Bridge? ==> y.accepts == 0)
    && (y.kind.Bind? ==> y.accepts <= 1 && y.accepts <= |y.replies| <= y.accepts + 1)
  }

  ghost predicate InPlace(y: Session, op: SetUpOp) {
    match op
    case Resolve => y.kind.Bridge? && |y.replies| == 0
    case Connect => y.kind.Bridge? && |y.replies| == 0
    case Accept => y.kind.Bind? && |y.replies| == 1 && y.accepts == 0
    case Reply(first) =>
      if first then y.kind.Bind? && |y.replies| == 0 && y.accepts == 0
      else |y.replies| == y.Goal() - 1 && (y.kind.Bind? ==> y.accepts == 1)
  }

  ghost predicate Inv(y: Session) {
    |y.reply| == REPLY_LENGTH && SetUpOk(y) && StreamOk(y.up) && StreamOk(y.down)
  }

  lemma StartInv(kind: Kind, reply: seq<Byte>)
    requires |reply| == REPLY_LENGTH
    ensures Inv(Start(kind, reply))
  {
    var y := Start(kind, reply);
    assert Stopped(Idle());
    assert InPlace(y, if kind.Bridge? then Resolve else Reply(true));
  }

  lemma SetUpStepInv(y: Session, op: SetUpOp, ok: bool, count: nat)
    requires Inv(y) && op in y.setUp && count <= REPLY_LENGTH && (ok && op.Reply? ==> count == REPLY_LENGTH)
    ensures Inv(SetUpStep(y, op, ok, count))
  {
    var only :| y.setUp == multiset{only} && InPlace(y, only);
    assert op == only;
    var z := SetUpStep(y, op, ok, count);
    assert y.setUp - multiset{op} == multiset{};
    if ok {
      match op
      case Resolve => assert z.setUp == multiset{Connect} && InPlace(z, Connect);
      case Connect => assert z.setUp == multiset{Reply(false)} && InPlace(z, Reply(false));
      case Accept => assert z.setUp == multiset{Reply(false)} && InPlace(z, Reply(false));
      case Reply(first) =>
        assert y.reply[..count] == y.reply;
        if first {
          assert z.setUp == multiset{Accept} && InPlace(z, Accept);
        } else {
          assert Reading(z.up) && Reading(z.down);
        }
    }
  }

  /** Changing one direction keeps the set-up in place once the relay has begun. */
  lemma PutKeepsInv(y: Session, dir: Dir, t: Stream)
    requires Inv(y) && StreamOk(t) && |y.replies| == y.Goal()
    ensures Inv(y.Put(dir, t))
  {
  }

  lemma StreamStepInv(y: Session, dir: Dir, op: StreamOp, ok: bool, data: seq<Byte>, count: nat)
    requires Inv(y) && op in y.Get(dir).ops && |data| <= MAX_LENGTH
    requires op.Write? ==> data == [] && count <= op.length && (ok ==> count == op.length)
    ensures op.Write? ==> op.length <= MAX_LENGTH
    ensures |y.Get(dir).buffer| == MAX_LENGTH
    ensures Inv(y.Put(dir, StreamStep(y.kind, y.Get(dir), op, ok, data, count)))
  {
    assert Idle().ops == multiset{};
    StreamStepOk(y.kind, y.Get(dir), op, ok, data, count);
    PutKeepsInv(y, dir, StreamStep(y.kind, y.Get(dir), op, ok, data, count));
  }

  /** Relay correctness for every interleaving: full sends keep the invariant. */
  lemma StepKeepsInv(y: Session, d: Done)
    requires Inv(y) && Shape(y) && d.Possible(y) && d.Full()
    ensures Inv(Step(y, d))
  {
    match d
    case SetUpDone(op, ok, count) => SetUpStepInv(y, op, ok, count);
    case StreamDone(dir, op, ok, data, count) =>
      StreamStepInv(y, dir, op, ok, if op.Read? then data else [], count);
  }

  lemma StepFrame(y: Session, d: Done)
    requires Shape(y) && d.Possible(y)
    ensures Step(y, d).kind == y.kind && Step(y, d).reply == y.reply
  {
  }

  // --- runs ---

  /** Every order of completions, with sends of any size; only the eight bytes of a reply go whole. */
  ghost predicate IsRun(kind: Kind, reply: seq<Byte>, states: seq<Session>, dones: seq<Done>) {
    && |states| == |dones| + 1 && states[0] == Start(kind, reply)
    && forall i | 0 <= i < |dones| :: IsStep(states[i], dones[i], states[i + 1])
  }

  ghost predicate IsStep(y: Session, d: Done, z: Session) {
    Shape(y) && d.Possible(y) && d.WholeReply() && z == Step(y, d)
  }

  ghost predicate FullSends(dones: seq<Done>) {
    forall i | 0 <= i < |dones| :: dones[i].Full()
  }

  lemma {:induction false} RunInv(kind: Kind, reply: seq<Byte>, states: seq<Session>, dones: seq<Done>, n: nat)
    requires IsRun(kind, reply, states, dones) && FullSends(dones) && |reply| == REPLY_LENGTH && n <= |dones|
    ensures Inv(states[n]) && states[n].kind == kind && states[n].reply == reply
  {
    if n == 0 {
      StartInv(kind, reply);
    } else {
      RunInv(kind, reply, states, dones, n - 1);
      NextInv(states[n - 1], dones[n - 1], states[n]);
    }
  }

  lemma NextInv(y: Session, d: Done, z: Session)
    requires IsStep(y, d, z) && d.Full() && Inv(y)
    ensures Inv(z) && z.kind == y.kind && z.reply == y.reply
  {
    StepKeepsInv(y, d);
    StepFrame(y, d);
  }

  /** In every run with full sends, in both directions: what was sent is a prefix of what was read and at
      most one chunk behind; the buffer serves one operation at a time; and nothing is read or relayed before
      the last reply. */
  lemma RelayCorrect(kind: Kind, reply: seq<Byte>, states: seq<Session>, dones: seq<Done>, n: nat, d: Dir)
    requires IsRun(kind, reply, states, dones) && FullSends(dones) && |reply| == REPLY_LENGTH && n <= |dones|
    ensures var t := states[n].Get(d);
            && t.sent <= t.taken && |t.taken| <= |t.sent| + MAX_LENGTH && |t.ops| <= 1
            && (|states[n].replies| < (if kind.Bridge? then 1 else 2) ==> t.taken == [] && t.ops == multiset{})
    ensures forall r <- states[n].replies :: r == reply
  {
    RunInv(kind, reply, states, dones, n);
  }

  // --- sends of any size ---

  /** A send of n bytes is under way. socks_bind owes exactly these n bytes; socks_bridge, which forgets
      what a short send left, at least that many. */
  ghost predicate Owes(kind: Kind, t: Stream, n: nat) {
    && t.ops == multiset{Write(n)} && 1 <= n <= MAX_LENGTH
    && (if kind.Bind? then |t.taken| == |t.sent| + n else |t.sent| + n <= |t.taken|)
  }

  /** One operation per buffer, and the count of bytes. */
  ghost predicate Counted(kind: Kind, t: Stream) {
    && |t.buffer| == MAX_LENGTH && |t.sent| <= |t.taken|
    && (kind.Bind? ==> |t.taken| <= |t.sent| + MAX_LENGTH)
    && (|| t.ops == multiset{}
        || (t.ops == multiset{Read} && (kind.Bind? ==> |t.sent| == |t.taken|))
        || exists n: nat :: Owes(kind, t, n))
  }

  lemma OpOfCounted(kind: Kind, t: Stream, op: StreamOp)
    requires Counted(kind, t) && op in t.ops
    ensures t.ops == multiset{op} && (op.Write? ==> Owes(kind, t, op.length))
  {
    if n: nat :| Owes(kind, t, n) { assert op == Write(n); }
  }

  lemma CountedStep(kind: Kind, t: Stream, op: StreamOp, ok: bool, data: seq<Byte>, count: nat)
    requires Counted(kind, t) && op in t.ops && |data| <= MAX_LENGTH
    requires if op.Read? then |data| >= 1 else data == [] && 1 <= count <= op.length
    ensures op.Write? ==> op.length <= |t.buffer|
    ensures Counted(kind, StreamStep(kind, t, op, ok, data, count))
  {
    OpOfCounted(kind, t, op);
    var u := StreamStep(kind, t, op, ok, data, count);
    assert t.ops - multiset{op} == multiset{};
    if ok && op.Read? {
      assert Owes(kind, u, |data|);
    } else if ok && kind.Bind? && count != op.length {
      assert Owes(kind, u, op.length - count);
    }
  }

  ghost predicate CountInv(y: Session) {
    |y.reply| == REPLY_LENGTH && SetUpOk(y) && Counted(y.kind, y.up) && Counted(y.kind, y.down)
  }

  lemma SetUpCounted(y: Session, op: SetUpOp, ok: bool, count: nat)
    requires CountInv(y) && op in y.setUp && count <= REPLY_LENGTH && (ok && op.Reply? ==> count == REPLY_LENGTH)
    ensures CountInv(SetUpStep(y, op, ok, count))
  {
    var z := SetUpStep(y, op, ok, count);
    var only :| y.setUp == multiset{only} && InPlace(y, only);
    assert op == only && y.up == y.down == Idle();
    assert Stopped(Idle());
    SetUpStepInv(y, op, ok, count);
    if ok && op.Reply? && !op.first {
      assert z.up.ops == multiset{Read} && z.down.ops == multiset{Read};
    }
  }

  lemma StreamCounted(y: Session, dir: Dir, op: StreamOp, ok: bool, data: seq<Byte>, count: nat)
    requires CountInv(y) && op in y.Get(dir).ops && |data| <= MAX_LENGTH
    requires if op.Read? then |data| >= 1 else data == [] && 1 <= count <= op.length
    ensures |y.Get(dir).buffer| == MAX_LENGTH && (op.Write? ==> op.length <= MAX_LENGTH)
    ensures CountInv(y.Put(dir, StreamStep(y.kind, y.Get(dir), op, ok, data, count)))
  {
    assert Idle().ops == multiset{};
    CountedStep(y.kind, y.Get(dir), op, ok, data, count);
  }

  /** Whatever the sends take, every completion keeps one operation per buffer, the order of the set-up
      and the byte counts. */
  lemma StepKeepsCount(y: Session, d: Done, z: Session)
    requires IsStep(y, d, z) && CountInv(y)
    ensures CountInv(z) && z.kind == y.kind && z.reply == y.reply
  {
    StepFrame(y, d);
    match d
    case SetUpDone(op, ok, count) => SetUpCounted(y, op, ok, count);
    case StreamDone(dir, op, ok, data, count) =>
      OpOfCounted(y.kind, y.Get(dir), op);
      StreamCounted(y, dir, op, ok, if op.Read? then data else [], count);
  }

  lemma {:induction false} RunCounted(kind: Kind, reply: seq<Byte>, states: seq<Session>, dones: seq<Done>, n: nat)
    requires IsRun(kind, reply, states, dones) && |reply| == REPLY_LENGTH && n <= |dones|
    ensures CountInv(states[n]) && states[n].kind == kind && states[n].reply == reply
  {
    if n == 0 {
      StartInv(kind, reply);
    } else {
      RunCounted(kind, reply, states, dones, n - 1);
      StepKeepsCount(states[n - 1], dones[n - 1], states[n]);
    }
  }

  // --- progress ---

  /** What a successful completion of a stream leads to: a read to a send of what was read; a send back to the
      next read, except that socks_bind first sends what a short send left. */
  lemma GoesOn(kind: Kind, t: Stream, op: StreamOp, data: seq<Byte>, count: nat)
    requires Counted(kind, t) && op in t.ops && |data| <= MAX_LENGTH
    requires if op.Read? then |data| >= 1 else data == [] && 1 <= count <= op.length
    ensures op.Write? ==> op.length <= |t.buffer|
    ensures var u := StreamStep(kind, t, op, true, data, count);
            && (op.Read? ==> u.ops == multiset{Write(|data|)} && u.buffer[..|data|] == data)
            && (op.Write? && (count == op.length || kind.Bridge?) ==> u.ops == multiset{Read})
            && (op.Write? && count < op.length && kind.Bind? ==> u.ops == multiset{Write(op.length - count)})
            && (op.Write? ==> u.sent == t.sent + t.buffer[..count] && u.buffer == t.buffer)
  {
    OpOfCounted(kind, t, op);
    assert t.ops - multiset{op} == multiset{};
    if op.Read? { assert Overwrite(t.buffer, data)[..|data|] == data; }
  }

  /** The set-up waits for one operation, or it is over and each direction waits for one. */
  ghost predicate Alive(y: Session) {
    || (|y.setUp| == 1 && y.up.ops == y.down.ops == multiset{})
    || (y.setUp == multiset{} && |y.replies| == y.Goal() && |y.up.ops| == |y.down.ops| == 1)
  }

  /** The operation that follows a successful one of the set-up; after the last reply, reading both ways. */
  function NextOp(op: SetUpOp): Option<SetUpOp> {
    match op
    case Resolve => Some(Connect)
    case Connect => Some(Reply(false))
    case Accept => Some(Reply(false))
    case Reply(first) => if first then Some(Accept) else None
  }

  lemma SetUpGoesOn(y: Session, op: SetUpOp, count: nat)
    requires CountInv(y) && op in y.setUp && count <= REPLY_LENGTH && (op.Reply? ==> count == REPLY_LENGTH)
    ensures var z := SetUpStep(y, op, true, count);
            && Alive(z)
            && (NextOp(op).Some? ==> z.setUp == multiset{NextOp(op).value})
            && (NextOp(op).None? ==> z.setUp == multiset{} && z.up.ops == z.down.ops == multiset{Read})
  {
    var only :| y.setUp == multiset{only} && InPlace(y, only);
    assert op == only && y.up == y.down == Idle();
    assert y.setUp - multiset{op} == multiset{};
  }

  lemma StreamGoesOn(y: Session, d: Done, z: Session)
    requires IsStep(y, d, z) && CountInv(y) && Alive(y) && d.StreamDone? && d.ok
    ensures Alive(z)
  {
    OpOfCounted(y.kind, y.Get(d.dir), d.op);
    GoesOn(y.kind, y.Get(d.dir), d.op, if d.op.Read? then d.data else [], d.count);
    StepFrame(y, d);
  }

  lemma StartAlive(kind: Kind, reply: seq<Byte>)
    ensures Alive(Start(kind, reply))
  {
  }

  lemma StepGoesOn(y: Session, d: Done, z: Session)
    requires IsStep(y, d, z) && CountInv(y) && Alive(y) && d.ok
    ensures Alive(z)
  {
    match d
    case SetUpDone(op, ok, count) => SetUpGoesOn(y, op, count);
    case StreamDone(_, _, _, _, _) => StreamGoesOn(y, d, z);
  }

  /** A session never stalls: in every run without errors, with sends of any size, there is always one
      operation of the set-up under way or, after it, one of each direction. */
  lemma {:induction false} NeverStalls(kind: Kind, reply: seq<Byte>, states: seq<Session>, dones: seq<Done>, n: nat)
    requires IsRun(kind, reply, states, dones) && |reply| == REPLY_LENGTH && n <= |dones|
    requires forall i | 0 <= i < n :: dones[i].ok
    ensures Alive(states[n])
  {
    if n == 0 {
      StartAlive(kind, reply);
    } else {
      NeverStalls(kind, reply, states, dones, n - 1);
      RunCounted(kind, reply, states, dones, n - 1);
      StepGoesOn(states[n - 1], dones[n - 1], states[n]);
    }
  }

  /** The BIND protocol (SOCKS 4, section 2), in every run, retries included: both replies are the same
      packet and carry the bound port, the second follows an accept, relaying follows the second; each
      buffer serves one operation at a time; and the bytes read exceed the bytes sent by exactly what
      the outstanding send still has to deliver. */
  lemma BindProtocol(port: nat, reply: seq<Byte>, states: seq<Session>, dones: seq<Done>, n: nat, d: Dir)
    requires |reply| == REPLY_LENGTH && port < 65536 && n <= |dones|
    requires IsRun(Bind, WithPort(reply, port), states, dones)
    ensures forall r <- states[n].replies ::
              && |r| == REPLY_LENGTH && r[2] * 256 + r[3] == port
              && forall k | 0 <= k < REPLY_LENGTH && k != 2 && k != 3 :: r[k] == reply[k]
    ensures |states[n].replies| <= 2 && (|states[n].replies| == 2 ==> states[n].accepts == 1)
    ensures states[n].accepts == 1 ==> |states[n].replies| >= 1
    ensures var t := states[n].Get(d);
            && (t.taken != [] || t.ops != multiset{} ==> |states[n].replies| == 2) && |t.ops| <= 1
            && (Read in t.ops ==> |t.taken| == |t.sent|)
            && (forall k: nat :: Write(k) in t.ops ==> k >= 1 && |t.taken| == |t.sent| + k)
  {
    RunCounted(Bind, WithPort(reply, port), states, dones, n);
    var t := states[n].Get(d);
    assert Idle().ops == multiset{} && Idle().taken == [];
    forall k: nat | Write(k) in t.ops ensures k >= 1 && |t.taken| == |t.sent| + k { OpOfCounted(Bind, t, Write(k)); }
  }

  /** do_bind: the port of the listening socket goes into bytes 2 and 3. */
  function WithPort(reply: seq<Byte>, port: nat): seq<Byte>
    requires |reply| == REPLY_LENGTH && port < 65536
  {
    reply[2 := port / 256][3 := port % 256]
  }

  // --- the retries of socks_bind ---

  /** What reaches the other side when one chunk is sent in pieces of the given sizes. */
  function Retried(chunk: seq<Byte>, sizes: seq<nat>): seq<Byte>
    requires Schedule(|chunk|, sizes)
  {
    if sizes == [] then [] else chunk[..sizes[0]] + Retried(chunk[..|chunk| - sizes[0]], sizes[1..])
  }

  /** The sizes a socket may take, one after the other, until nothing is left. */
  predicate Schedule(length: nat, sizes: seq<nat>) {
    if sizes == [] then length == 0
    else 1 <= sizes[0] <= length && Schedule(length - sizes[0], sizes[1..])
  }

  lemma {:induction false} RetriedLength(chunk: seq<Byte>, sizes: seq<nat>)
    requires Schedule(|chunk|, sizes)
    ensures |Retried(chunk, sizes)| == |chunk| && |sizes| <= |chunk|
  {
    if sizes != [] { RetriedLength(chunk[..|chunk| - sizes[0]], sizes[1..]); }
  }

  /** How much each completion of one direction, from m up to q, took. */
  function Sizes(dones: seq<Done>, d: Dir, m: nat, q: nat): seq<nat>
    requires m <= q <= |dones|
    decreases q - m
  {
    if m == q then [] else (if Of(dones[m], d) then [dones[m].count] else []) + Sizes(dones, d, m + 1, q)
  }

  predicate Of(done: Done, d: Dir) {
    done.StreamDone? && done.dir == d
  }

  /** Nothing else touches a direction while its send is under way. */
  lemma OtherStep(y: Session, done: Done, z: Session, d: Dir, n: nat)
    requires IsStep(y, done, z) && CountInv(y) && Write(n) in y.Get(d).ops && !Of(done, d)
    ensures z.Get(d) == y.Get(d)
  {
    assert Idle().ops == multiset{};
    assert y.setUp == multiset{};
  }

  /** A successful completion of a send of socks_bind. */
  lemma RetryStep(y: Session, done: Done, z: Session, d: Dir, n: nat)
    requires IsStep(y, done, z) && CountInv(y) && y.kind.Bind? && Write(n) in y.Get(d).ops
    requires Of(done, d) && done.ok
    ensures 1 <= done.count <= n <= |y.Get(d).buffer|
    ensures var t := y.Get(d);
            z.Get(d) == Stream(multiset{if done.count == n then Read else Write(n - done.count)},
                               t.buffer, t.taken, t.sent + t.buffer[..done.count])
  {
    OpOfCounted(Bind, y.Get(d), Write(n));
    assert done.op == Write(n);
    assert y.Get(d).ops - multiset{Write(n)} == multiset{};
  }

  /** From t to u, n bytes were sent from the front of t's buffer, in pieces of the given sizes. */
  ghost predicate SentInPieces(t: Stream, u: Stream, n: nat, sizes: seq<nat>) {
    && n <= |t.buffer| && |sizes| <= n && Schedule(n, sizes)
    && u.sent == t.sent + Retried(t.buffer[..n], sizes) && |u.sent| == |t.sent| + n
  }

  lemma LastPiece(t: Stream, u: Stream, n: nat)
    requires 1 <= n <= |t.buffer| && u.sent == t.sent + t.buffer[..n]
    ensures SentInPieces(t, u, n, [n])
  {
    var sizes, chunk := [n], t.buffer[..n];
    assert sizes[1..] == [] && chunk[..n] == chunk && chunk[..0] == [];
    assert Schedule(0, []) && Schedule(n, sizes);
    assert Retried(chunk, sizes) == chunk[..n] + Retried(chunk[..0], []);
  }

  lemma FirstPiece(t: Stream, v: Stream, u: Stream, n: nat, c: nat, rest: seq<nat>)
    requires 1 <= c < n <= |t.buffer| && v.buffer == t.buffer && v.sent == t.sent + t.buffer[..c]
    requires SentInPieces(v, u, n - c, rest)
    ensures SentInPieces(t, u, n, [c] + rest)
  {
    var sizes, chunk := [c] + rest, t.buffer[..n];
    assert sizes[0] == c && sizes[1..] == rest;
    assert chunk[..c] == t.buffer[..c] && chunk[..n - c] == t.buffer[..n - c];
    assert Schedule(n, sizes);
    assert Retried(chunk, sizes) == chunk[..c] + Retried(chunk[..n - c], rest);
  }

  lemma SizesFirst(dones: seq<Done>, d: Dir, m: nat, q: nat)
    requires m < q <= |dones|
    ensures Sizes(dones, d, m, q)
         == if Of(dones[m], d) then [dones[m].count] + Sizes(dones, d, m + 1, q) else Sizes(dones, d, m + 1, q)
  {
  }

  /** What one completion does to a direction that has a send of some n bytes under way. */
  ghost predicate PieceStep(t: Stream, done: Done, u: Stream, d: Dir) {
    forall n: nat | Write(n) in t.ops ::
      && 1 <= n <= |t.buffer| && Read !in t.ops
      && (!Of(done, d) ==> u == t)
      && (Of(done, d) && done.ok ==> Piece(t, u, n, done.count))
  }

  ghost predicate Piece(t: Stream, u: Stream, n: nat, c: nat)
    requires n <= |t.buffer|
  {
    && 1 <= c <= n && u.buffer == t.buffer && u.sent == t.sent + t.buffer[..c]
    && u.ops == multiset{if c == n then Read else Write(n - c)}
  }

  lemma NextPiece(y: Session, done: Done, z: Session, d: Dir)
    requires IsStep(y, done, z) && CountInv(y) && y.kind.Bind?
    ensures PieceStep(y.Get(d), done, z.Get(d), d)
  {
    forall n: nat | Write(n) in y.Get(d).ops
      ensures 1 <= n <= |y.Get(d).buffer| && Read !in y.Get(d).ops
      ensures !Of(done, d) ==> z.Get(d) == y.Get(d)
      ensures Of(done, d) && done.ok ==> Piece(y.Get(d), z.Get(d), n, done.count)
    {
      OpOfCounted(Bind, y.Get(d), Write(n));
      if !Of(done, d) { OtherStep(y, done, z, d, n); }
      else if done.ok { RetryStep(y, done, z, d, n); }
    }
  }

  ghost predicate PieceRun(ts: seq<Stream>, dones: seq<Done>, d: Dir) {
    && |ts| == |dones| + 1
    && forall i | 0 <= i < |dones| :: PieceStep(ts[i], dones[i], ts[i + 1], d)
  }

  lemma PieceOf(t: Stream, done: Done, u: Stream, d: Dir, n: nat)
    requires PieceStep(t, done, u, d) && Write(n) in t.ops
    ensures n <= |t.buffer| && Read !in t.ops
    ensures if Of(done, d) then done.ok ==> Piece(t, u, n, done.count) else u == t
  {
  }

  lemma {:induction false} PiecesEnd(ts: seq<Stream>, dones: seq<Done>, d: Dir, m: nat, q: nat, n: nat)
    returns (j: nat, sizes: seq<nat>)
    requires PieceRun(ts, dones, d) && m <= q <= |dones|
    requires Write(n) in ts[m].ops && n >= 1 && |Sizes(dones, d, m, q)| >= n
    requires forall i | m <= i < q && Of(dones[i], d) :: dones[i].ok
    ensures m < j <= q && ts[j].ops == multiset{Read}
    ensures forall i | m <= i < j :: Read !in ts[i].ops
    ensures sizes == Sizes(dones, d, m, j) && SentInPieces(ts[m], ts[j], n, sizes)
    decreases q - m
  {
    assert Sizes(dones, d, q, q) == [];
    SizesFirst(dones, d, m, q);
    PieceOf(ts[m], dones[m], ts[m + 1], d, n);
    if Of(dones[m], d) && dones[m].count == n {
      j, sizes := m + 1, [n];
      LastPiece(ts[m], ts[j], n);
    } else if Of(dones[m], d) {
      var rest;
      j, rest := PiecesEnd(ts, dones, d, m + 1, q, n - dones[m].count);
      sizes := [dones[m].count] + rest;
      FirstPiece(ts[m], ts[m + 1], ts[j], n, dones[m].count, rest);
    } else {
      j, sizes := PiecesEnd(ts, dones, d, m + 1, q, n);
    }
    SizesFirst(dones, d, m, j);
  }

  /** The retries of socks_bind, in any run: from a send of n bytes, and with no error in this direction,
      at most n completions of the direction lead back to reading. Exactly n bytes have been sent by
      then: those which the sizes of the sends take from the front of the buffer, again and again. */
  lemma RetriesEnd(reply: seq<Byte>, states: seq<Session>, dones: seq<Done>, d: Dir,
                                      m: nat, q: nat, n: nat) returns (j: nat)
    requires IsRun(Bind, reply, states, dones) && |reply| == REPLY_LENGTH && m <= q <= |dones|
    requires Write(n) in states[m].Get(d).ops && |Sizes(dones, d, m, q)| >= n
    requires forall i | m <= i < q && Of(dones[i], d) :: dones[i].ok
    ensures m < j <= q && states[j].Get(d).ops == multiset{Read}
    ensures forall i | m <= i < j :: Read !in states[i].Get(d).ops
    ensures SentInPieces(states[m].Get(d), states[j].Get(d), n, Sizes(dones, d, m, j))
  {
    var ts := seq(|states|, i requires 0 <= i < |states| => states[i].Get(d));
    forall i | 0 <= i < |dones| ensures PieceStep(ts[i], dones[i], ts[i + 1], d) {
      RunCounted(Bind, reply, states, dones, i);
      assert IsStep(states[i], dones[i], states[i + 1]);
      NextPiece(states[i], dones[i], states[i + 1], d);
    }
    RunCounted(Bind, reply, states, dones, m);
    OpOfCounted(Bind, states[m].Get(d), Write(n));
    assert ts[m] == states[m].Get(d);
    var sizes;
    j, sizes := PiecesEnd(ts, dones, d, m, q, n);
    forall i | m <= i < j ensures Read !in states[i].Get(d).ops { assert ts[i] == states[i].Get(d); }
  }

  lemma FirstIsShort(length: nat, sizes: seq<nat>)
    requires Schedule(length, sizes) && length > 0 && sizes != [length]
    ensures sizes[0] < length
  {
    if sizes[1..] == [] { assert sizes == [sizes[0]]; }
  }

  /** A schedule delivers every chunk of its length intact exactly when the first send is full. */
  lemma RetriesIntactIff(length: nat, sizes: seq<nat>)
    requires Schedule(length, sizes) && length > 0
    ensures (forall chunk: seq<Byte> :: |chunk| == length ==> Retried(chunk, sizes) == chunk) <==> sizes == [length]
  {
    if sizes == [length] {
      forall chunk: seq<Byte> | |chunk| == length ensures Retried(chunk, sizes) == chunk {
        assert sizes[1..] == [] && chunk[..length] == chunk;
      }
    } else {
      FirstIsShort(length, sizes);
      var chunk := ShortLoses(length, sizes);
      assert |chunk| == length && Retried(chunk, sizes) != chunk;
    }
  }

  /** A chunk that the schedule does not deliver intact: its first byte is sent twice. */
  lemma ShortLoses(length: nat, sizes: seq<nat>) returns (chunk: seq<Byte>)
    requires Schedule(length, sizes) && length > 0 && sizes[0] < length
    ensures |chunk| == length && Retried(chunk, sizes) != chunk
  {
    chunk := seq(length, i => if i == 0 then 1 else 0);
    var n := sizes[0];
    var rest := chunk[..length - n];
    FirstByte(rest, sizes[1..]);
    assert Retried(chunk, sizes) == chunk[..n] + Retried(rest, sizes[1..]);
    assert Retried(chunk, sizes)[n] == 1 != chunk[n];
  }

  lemma FirstByte(chunk: seq<Byte>, sizes: seq<nat>)
    requires Schedule(|chunk|, sizes) && |chunk| > 0
    ensures |Retried(chunk, sizes)| == |chunk| && Retried(chunk, sizes)[0] == chunk[0]
  {
    RetriedLength(chunk, sizes);
  }
}
