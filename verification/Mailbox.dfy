/** One mailbox of np_multi_proc: the ten message slots one sender has at one receiver in shared memory.
    Messages are numbered by the sender in the order in which it offers them. */
module Mailbox {
  import opened Descriptors

  const MAX_MSG_NUM: nat := 10

  type Slots = s: seq<Option<nat>> | |s| == MAX_MSG_NUM witness seq(MAX_MSG_NUM, _ => None)

  /** slots in shared memory; sent, dropped and delivered record what has happened so far. */
  datatype Box = Box(slots: Slots, sent: nat, dropped: seq<nat>, delivered: seq<nat>) {
    /** The sender's attempt: the first empty slot, or nowhere when all ten are full. */
    function Put(): Box {
      var f := FirstEmpty(slots, 0);
      if f == -1 then this.(sent := sent + 1, dropped := dropped + [sent])
      else this.(sent := sent + 1, slots := slots[f := Some(sent)])
    }

    /** The handler at slot j: a waiting message is written out and the slot emptied. */
    function Drain(j: nat): Box
      requires j < MAX_MSG_NUM
    {
      if slots[j].None? then this
      else this.(slots := slots[j := None], delivered := delivered + [slots[j].value])
    }

    /** Every message offered is in exactly one place: waiting, delivered or dropped. */
    ghost predicate Conserved() {
      multiset(delivered) + multiset(dropped) + Waiting(slots) == UpTo(sent)
    }
  }

  function EmptyBox(): Box {
    Box(seq(MAX_MSG_NUM, _ => None), 0, [], [])
  }

  function FirstEmpty(slots: seq<Option<nat>>, from: nat): (r: int)
    requires from <= |slots|
    ensures r == -1 || (from <= r < |slots| && slots[r].None?)
    ensures forall j :: from <= j < (if r == -1 then |slots| else r) ==> slots[j].Some?
    decreases |slots| - from
  {
    if from == |slots| then -1 else if slots[from].None? then from else FirstEmpty(slots, from + 1)
  }

  /** The messages in a stretch of slots, in slot order. */
  function Filled(slots: seq<Option<nat>>): seq<nat> {
    if slots == [] then []
    else (if slots[0].Some? then [slots[0].value] else []) + Filled(slots[1..])
  }

  ghost function Waiting(slots: seq<Option<nat>>): multiset<nat> {
    multiset(Filled(slots))
  }

  ghost function UpTo(n: nat): multiset<nat> {
    if n == 0 then multiset{} else UpTo(n - 1) + multiset{n - 1}
  }

  lemma {:induction false} UpToCount(n: nat, k: nat)
    ensures UpTo(n)[k] == if k < n then 1 else 0
  {
    if n > 0 { UpToCount(n - 1, k); }
  }

  lemma {:induction false} FilledSplit(a: seq<Option<nat>>, b: seq<Option<nat>>)
    ensures Filled(a + b) == Filled(a) + Filled(b)
  {
    if a == [] {
      assert a + b == b;
    } else {
      assert (a + b)[0] == a[0] && (a + b)[1..] == a[1..] + b;
      FilledSplit(a[1..], b);
      assert Filled(a) == (if a[0].Some? then [a[0].value] else []) + Filled(a[1..]);
    }
  }

  /** What the slots hold, seen around slot j. */
  lemma FilledAround(slots: seq<Option<nat>>, j: nat, v: Option<nat>)
    requires j < |slots|
    ensures Filled(slots[j := v]) == Filled(slots[..j]) + (if v.Some? then [v.value] else []) + Filled(slots[j + 1..])
  {
    assert slots[j := v] == slots[..j] + ([v] + slots[j + 1..]);
    FilledSplit(slots[..j], [v] + slots[j + 1..]);
    FilledSplit([v], slots[j + 1..]);
  }

  /** Filling an empty slot adds one waiting message. */
  lemma WaitingFilled(slots: seq<Option<nat>>, f: nat, m: nat)
    requires f < |slots| && slots[f].None?
    ensures Waiting(slots[f := Some(m)]) == Waiting(slots) + multiset{m}
  {
    FilledAround(slots, f, Some(m));
    FilledAround(slots, f, None);
    assert slots[f := None] == slots;
    var before, after := Filled(slots[..f]), Filled(slots[f + 1..]);
    assert multiset(before + [m] + after) == multiset(before + [] + after) + multiset{m};
  }

  lemma PutFits(b: Box, f: nat)
    requires b.Conserved() && f < MAX_MSG_NUM && b.slots[f].None?
    ensures b.(sent := b.sent + 1, slots := b.slots[f := Some(b.sent)]).Conserved()
  {
    WaitingFilled(b.slots, f, b.sent);
  }

  lemma PutDrops(b: Box)
    requires b.Conserved()
    ensures b.(sent := b.sent + 1, dropped := b.dropped + [b.sent]).Conserved()
  {
    assert multiset(b.dropped + [b.sent]) == multiset(b.dropped) + multiset{b.sent};
  }

  /** Conservation, sending: a message goes to the first empty slot, and is dropped only when none of
      the ten is empty. */
  lemma PutConserves(b: Box)
    requires b.Conserved()
    ensures b.Put().Conserved()
    ensures b.Put().dropped == if exists j :: 0 <= j < MAX_MSG_NUM && b.slots[j].None?
                               then b.dropped else b.dropped + [b.sent]
  {
    var f := FirstEmpty(b.slots, 0);
    if f != -1 {
      assert b.Put() == b.(sent := b.sent + 1, slots := b.slots[f := Some(b.sent)]);
      PutFits(b, f);
    } else {
      assert b.Put() == b.(sent := b.sent + 1, dropped := b.dropped + [b.sent]);
      PutDrops(b);
    }
  }

  /** Conservation, delivering. */
  lemma DrainConserves(b: Box, j: nat)
    requires b.Conserved() && j < MAX_MSG_NUM
    ensures b.Drain(j).Conserved()
  {
    if b.slots[j].Some? {
      FilledAround(b.slots, j, None);
      FilledAround(b.slots, j, b.slots[j]);
      assert b.slots[j := b.slots[j]] == b.slots;
    }
  }

  /** So nothing is delivered twice, nothing is delivered and dropped, nothing is invented. */
  lemma DeliveredOnce(b: Box, k: nat)
    requires b.Conserved()
    ensures multiset(b.delivered)[k] + multiset(b.dropped)[k] + Waiting(b.slots)[k] == if k < b.sent then 1 else 0
  {
    UpToCount(b.sent, k);
  }

  // --- order of delivery ---

  /** The order in which a handler standing at slot c will meet the waiting messages: the rest of
      this pass, then the slots behind it on the next. */
  function Queue(slots: Slots, c: nat): seq<nat>
    requires c <= MAX_MSG_NUM
  {
    Filled(slots[c..]) + Filled(slots[..c])
  }

  ghost predicate Increasing(s: seq<nat>) {
    forall i, j | 0 <= i < j < |s| :: s[i] < s[j]
  }

  /** Everything delivered, and everything waiting in reading order, is in the order it was sent. */
  ghost predicate InOrder(b: Box, c: nat)
    requires c <= MAX_MSG_NUM
  {
    Increasing(b.delivered + Queue(b.slots, c))
  }

  /** The handler's look at its next slot neither breaks nor mends the order. */
  lemma DrainKeepsOrder(b: Box, c: nat)
    requires c < MAX_MSG_NUM
    ensures InOrder(b.Drain(c), c + 1) <==> InOrder(b, c)
  {
    var ahead, behind, s := b.slots[c + 1..], b.slots[..c], b.Drain(c).slots;
    assert b.slots[c..] == [b.slots[c]] + ahead;
    FilledSplit([b.slots[c]], ahead);
    assert s[c + 1..] == ahead && s[..c + 1] == behind + [None];
    FilledSplit(behind, [None]);
    assert b.delivered + Queue(b.slots, c) == b.Drain(c).delivered + Queue(s, c + 1);
  }

  /** The end of a pass is the start of the next. */
  lemma PassWraps(b: Box)
    ensures InOrder(b, MAX_MSG_NUM) <==> InOrder(b, 0)
  {
    assert b.slots[MAX_MSG_NUM..] == [] && b.slots[..MAX_MSG_NUM] == b.slots;
    assert b.slots[0..] == b.slots && b.slots[..0] == [];
    assert Queue(b.slots, MAX_MSG_NUM) == Filled(b.slots) == Queue(b.slots, 0);
  }

  /** Where slot j comes in the reading order of a handler at c. */
  function Turn(j: nat, c: nat): int {
    if j >= c then j - c else j - c + MAX_MSG_NUM
  }

  /** The slot a new message would take is read after every slot that is full now. */
  predicate LastInTurn(slots: Slots, c: nat) {
    var f := FirstEmpty(slots, 0);
    f == -1 || forall j | 0 <= j < MAX_MSG_NUM && slots[j].Some? :: Turn(j, c) < Turn(f, c)
  }

  lemma {:induction false} FilledEmpty(slots: seq<Option<nat>>)
    ensures Filled(slots) == [] <==> forall j :: 0 <= j < |slots| ==> slots[j].None?
  {
    if slots != [] {
      FilledEmpty(slots[1..]);
      if forall j :: 0 <= j < |slots| ==> slots[j].None? {
        assert forall j :: 0 <= j < |slots| - 1 ==> slots[1..][j] == slots[j + 1];
      } else if slots[0].None? {
        var j :| 0 <= j < |slots| && slots[j].Some?;
        assert slots[1..][j - 1] == slots[j];
      }
    }
  }

  /** A sequence followed by a larger number stays increasing; followed by anything after it, not. */
  lemma AppendLargest(s: seq<nat>, n: nat, t: seq<nat>)
    requires forall k <- s + t :: k < n
    ensures Increasing(s + [n] + t) <==> Increasing(s) && t == []
  {
    var u := s + [n] + t;
    if t != [] {
      assert u[|s|] == n && u[|s| + 1] == t[0] && t[0] in s + t;
    } else {
      assert u == s + [n];
      forall i | 0 <= i < |s| ensures s[i] < n { assert s[i] in s + t; }
      if Increasing(u) { assert forall i | 0 <= i < |s| :: u[i] == s[i]; }
    }
  }

  /** A send keeps the order exactly when its slot comes last in turn: this is what a message stored
      behind a handler in mid-pass breaks. */
  lemma PutKeepsOrderIff(b: Box, c: nat)
    requires c <= MAX_MSG_NUM && b.Conserved() && InOrder(b, c)
    ensures InOrder(b.Put(), c) <==> LastInTurn(b.slots, c)
  {
    var f := FirstEmpty(b.slots, 0);
    if f != -1 {
      if f >= c {
        PutAhead(b, c, f);
      } else {
        PutBehind(b, c, f);
      }
    }
  }

  /** Disorder stays: a send cannot mend it. */
  lemma PutKeepsDisorder(b: Box, c: nat)
    requires c <= MAX_MSG_NUM && !InOrder(b, c)
    ensures !InOrder(b.Put(), c)
  {
    var f, s := FirstEmpty(b.slots, 0), b.slots;
    if f != -1 {
      assert s[f := None] == s;
      if f >= c {
        QueueAhead(s, c, f, Some(b.sent));
        QueueAhead(s, c, f, None);
        WithoutOne(b.delivered, Filled(s[c..f]), b.sent, Filled(s[f + 1..]) + Filled(s[..c]),
                   Queue(s, c), Queue(b.Put().slots, c));
      } else {
        QueueBehind(s, c, f, Some(b.sent));
        QueueBehind(s, c, f, None);
        WithoutOne(b.delivered, Filled(s[c..]) + Filled(s[..f]), b.sent, Filled(s[f + 1..c]),
                   Queue(s, c), Queue(b.Put().slots, c));
      }
    }
  }

  lemma WithoutOne(done: seq<nat>, front: seq<nat>, m: nat, back: seq<nat>, q: seq<nat>, q': seq<nat>)
    requires q == front + [] + back && q' == front + [m] + back
    ensures Increasing(done + q') ==> Increasing(done + q)
  {
    var u, v, k := done + q', done + q, |done| + |front|;
    if Increasing(u) {
      forall i, j | 0 <= i < j < |v| ensures v[i] < v[j] {
        assert v[i] == u[if i < k then i else i + 1] && v[j] == u[if j < k then j else j + 1];
      }
    }
  }

  lemma AllBelow(b: Box)
    requires b.Conserved()
    ensures forall k <- b.delivered :: k < b.sent
    ensures forall k <- Filled(b.slots) :: k < b.sent
  {
    forall k | k in b.delivered || k in Filled(b.slots) ensures k < b.sent {
      DeliveredOnce(b, k);
      assert k in multiset(b.delivered) || k in Waiting(b.slots);
    }
  }

  /** For a first empty slot at or after c: what comes after it in turn. */
  lemma TurnAhead(s: Slots, c: nat, f: nat)
    requires c <= f && FirstEmpty(s, 0) == f
    ensures LastInTurn(s, c) <==> Filled(s[f + 1..]) + Filled(s[..c]) == []
  {
    var after, behind := s[f + 1..], s[..c];
    FilledEmpty(after);
    FilledEmpty(behind);
    if Filled(after) + Filled(behind) == [] {
      forall j | f < j < MAX_MSG_NUM ensures s[j].None? { assert s[j] == after[j - f - 1]; }
    } else if Filled(after) != [] {
      var j :| 0 <= j < |after| && after[j].Some?;
      assert s[f + 1 + j].Some? && Turn(f + 1 + j, c) > Turn(f, c);
    } else {
      var j :| 0 <= j < |behind| && behind[j].Some?;
      assert s[j].Some? && Turn(j, c) > Turn(f, c);
    }
  }

  /** The same for a first empty slot before c. */
  lemma TurnBehind(s: Slots, c: nat, f: nat)
    requires f < c <= MAX_MSG_NUM && FirstEmpty(s, 0) == f
    ensures LastInTurn(s, c) <==> Filled(s[f + 1..c]) == []
  {
    var after := s[f + 1..c];
    FilledEmpty(after);
    if Filled(after) == [] {
      forall j | f < j < c ensures s[j].None? { assert s[j] == after[j - f - 1]; }
    } else {
      var j :| 0 <= j < |after| && after[j].Some?;
      assert s[f + 1 + j].Some? && Turn(f + 1 + j, c) > Turn(f, c);
    }
  }

  lemma QueueAhead(s: Slots, c: nat, f: nat, v: Option<nat>)
    requires c <= f < MAX_MSG_NUM
    ensures Queue(s[f := v], c)
         == Filled(s[c..f]) + (if v.Some? then [v.value] else []) + (Filled(s[f + 1..]) + Filled(s[..c]))
  {
    assert s[f := v][c..] == s[c..f] + ([v] + s[f + 1..]);
    assert s[f := v][..c] == s[..c];
    FilledSplit(s[c..f], [v] + s[f + 1..]);
    FilledSplit([v], s[f + 1..]);
  }

  lemma QueueBehind(s: Slots, c: nat, f: nat, v: Option<nat>)
    requires f < c <= MAX_MSG_NUM
    ensures Queue(s[f := v], c)
         == Filled(s[c..]) + Filled(s[..f]) + (if v.Some? then [v.value] else []) + Filled(s[f + 1..c])
  {
    assert s[f := v][..c] == s[..f] + ([v] + s[f + 1..c]);
    assert s[f := v][c..] == s[c..];
    FilledSplit(s[..f], [v] + s[f + 1..c]);
    FilledSplit([v], s[f + 1..c]);
  }

  lemma PutAhead(b: Box, c: nat, f: nat)
    requires c <= f < MAX_MSG_NUM && b.Conserved() && InOrder(b, c) && FirstEmpty(b.slots, 0) == f
    ensures InOrder(b.Put(), c) <==> LastInTurn(b.slots, c)
  {
    var s := b.slots;
    TurnAhead(s, c, f);
    QueueAhead(s, c, f, Some(b.sent));
    QueueAhead(s, c, f, None);
    assert s[f := None] == s;
    QueueBelow(b, c);
    PutInQueue(b, Filled(s[c..f]), Filled(s[f + 1..]) + Filled(s[..c]), Queue(s, c), Queue(b.Put().slots, c));
  }

  lemma PutBehind(b: Box, c: nat, f: nat)
    requires f < c <= MAX_MSG_NUM && b.Conserved() && InOrder(b, c) && FirstEmpty(b.slots, 0) == f
    ensures InOrder(b.Put(), c) <==> LastInTurn(b.slots, c)
  {
    var s := b.slots;
    TurnBehind(s, c, f);
    QueueBehind(s, c, f, Some(b.sent));
    QueueBehind(s, c, f, None);
    assert s[f := None] == s;
    QueueBelow(b, c);
    PutInQueue(b, Filled(s[c..]) + Filled(s[..f]), Filled(s[f + 1..c]), Queue(s, c), Queue(b.Put().slots, c));
  }

  /** A newest message put between two parts of the queue. */
  lemma PutInQueue(b: Box, front: seq<nat>, back: seq<nat>, q: seq<nat>, q': seq<nat>)
    requires q == front + [] + back && q' == front + [b.sent] + back
    requires (forall k <- b.delivered + q :: k < b.sent) && Increasing(b.delivered + q)
    ensures Increasing(b.delivered + q') <==> back == []
  {
    assert b.delivered + q == (b.delivered + front) + back;
    assert b.delivered + q' == (b.delivered + front) + [b.sent] + back;
    AppendLargest(b.delivered + front, b.sent, back);
    if back == [] { assert b.delivered + q == b.delivered + front; }
  }

  lemma QueueBelow(b: Box, c: nat)
    requires b.Conserved() && c <= MAX_MSG_NUM
    ensures forall k <- b.delivered + Queue(b.slots, c) :: k < b.sent
  {
    AllBelow(b);
    assert b.slots == b.slots[..c] + b.slots[c..];
    FilledSplit(b.slots[..c], b.slots[c..]);
    forall k <- b.delivered + Queue(b.slots, c) ensures k < b.sent {
      assert k in b.delivered || k in Filled(b.slots[c..]) || k in Filled(b.slots[..c]);
      assert k in b.delivered || k in Filled(b.slots);
    }
  }

  /** The full slots form a prefix. */
  ghost predicate Prefix(slots: seq<Option<nat>>) {
    forall i, j | 0 <= i < j < |slots| && slots[j].Some? :: slots[i].Some?
  }

  /** Outside a pass (or on either side of it) a prefix is extended by its next slot, in order. */
  lemma PrefixSend(b: Box, c: nat)
    requires Prefix(b.slots) && (c == 0 || c == MAX_MSG_NUM)
    ensures LastInTurn(b.slots, c) && Prefix(b.Put().slots)
  {
  }

  /** Slot-by-slot draining reorders: message 1 is stored behind the handler, message 2 ahead of it. */
  lemma ReorderingExample()
    ensures EmptyBox().Put().Drain(0).Put().Put().Drain(1).delivered == [0, 2]
    ensures EmptyBox().Put().Drain(0).Put().Put().Drain(1).slots[0] == Some(1)
    ensures 1 in EmptyBox().Put().Drain(0).Put().Put().Drain(1).Drain(0).delivered
  {
    var b := EmptyBox().Put();
    assert b.slots[0] == Some(0);
    var b1 := b.Drain(0).Put();
    assert b1.slots[0] == Some(1);
    var b2 := b1.Put();
    assert b2.slots[0] == Some(1) && b2.slots[1] == Some(2);
    assert b2.Drain(1).delivered == [0, 2];
    assert b2.Drain(1).Drain(0).delivered == [0, 2] + [1];
  }
}
