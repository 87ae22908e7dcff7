/** socks_bridge and socks_bind as objects whose callbacks update their buffers. The two classes of the
    source differ in how the relay is set up and in what do_write's callback does with a short send;
    here `kind` tells them apart. Starting an operation is adding it to the outstanding ones. */
module SocksSession {
  import opened Relay

  const TO_CLIENT: int := 1
  const TO_SERVER: int := 2
  const FROM_CLIENT: int := 1
  const FROM_SERVER: int := 2

  predicate Side(n: int) {
    n == 1 || n == 2
  }

  function DirFrom(side: int): Dir {
    if side == FROM_CLIENT then Up else Down
  }

  function DirTo(side: int): Dir {
    if side == TO_SERVER then Up else Down
  }

  class Socks {
    const kind: Kind
    const upstreamData: array<Byte>
    const downstreamData: array<Byte>
    const replyBytes: array<Byte>
    var setUp: multiset<SetUpOp>
    var upOps: multiset<StreamOp>
    var downOps: multiset<StreamOp>
    // what has passed through the two sockets
    var fromClient: seq<Byte>
    var fromServer: seq<Byte>
    var toClient: seq<Byte>
    var toServer: seq<Byte>
    var replies: seq<seq<Byte>>
    var accepts: nat

    ghost predicate Valid() {
      && upstreamData.Length == downstreamData.Length == MAX_LENGTH && replyBytes.Length == REPLY_LENGTH
      && upstreamData != downstreamData && upstreamData != replyBytes && downstreamData != replyBytes
    }

    ghost function State(): Session
      reads this, upstreamData, downstreamData, replyBytes
    {
      Session(kind, setUp, Stream(upOps, upstreamData[..], fromClient, toServer),
              Stream(downOps, downstreamData[..], fromServer, toClient), replyBytes[..], replies, accepts)
    }

    /** start(): the bridge resolves its target; bind has its port already and sends the first reply. */
    constructor (kind: Kind, reply: array<Byte>, bindPort: nat)
      requires reply.Length == REPLY_LENGTH && bindPort < 65536
      ensures Valid()
      ensures State() == Start(kind, if kind.Bind? then WithPort(reply[..], bindPort) else reply[..])
    {
      this.kind := kind;
      var up, down := new Byte[MAX_LENGTH](_ => 0), new Byte[MAX_LENGTH](_ => 0);
      var copy := new Byte[REPLY_LENGTH](i requires 0 <= i < reply.Length reads reply => reply[i]);
      assert copy[..] == reply[..];
      if kind.Bind? {
        copy[2] := bindPort / 256;
        copy[3] := bindPort % 256;
      }
      upstreamData, downstreamData, replyBytes := up, down, copy;
      setUp := multiset{if kind.Bridge? then Resolve else Reply(true)};
      upOps, downOps := multiset{}, multiset{};
      fromClient, fromServer, toClient, toServer := [], [], [], [];
      replies, accepts := [], 0;
      new;
      assert upstreamData[..] == Idle().buffer && downstreamData[..] == Idle().buffer;
    }

    method DoRead(side: int)
      requires Valid() && Side(side)
      modifies this`upOps, this`downOps
      ensures var d := DirFrom(side); State() == old(State()).Put(d, BeginRead(old(State()).Get(d)))
    {
      if side == FROM_CLIENT { upOps := upOps + multiset{Read}; }
      if side == FROM_SERVER { downOps := downOps + multiset{Read}; }
    }

    method DoWrite(side: int, length: nat)
      requires Valid() && Side(side)
      modifies this`upOps, this`downOps
      ensures var d := DirTo(side);
              var t := old(State()).Get(d);
              State() == old(State()).Put(d, t.(ops := t.ops + multiset{Write(length)}))
    {
      if side == TO_SERVER { upOps := upOps + multiset{Write(length)}; }
      else if side == TO_CLIENT { downOps := downOps + multiset{Write(length)}; }
    }

    /** Resolving, connecting and accepting complete. */
    method OnSetUp(op: SetUpOp, ok: bool)
      requires Valid() && Shape(State()) && op in setUp && !op.Reply?
      modifies this`setUp, this`accepts
      ensures State() == SetUpStep(old(State()), op, ok, 0)
    {
      setUp := setUp - multiset{op};
      if ok {
        if op == Resolve {
          setUp := setUp + multiset{Connect};
        } else if op == Connect {
          setUp := setUp + multiset{Reply(false)};
        } else {
          accepts := accepts + 1;
          setUp := setUp + multiset{Reply(false)};
        }
      }
    }

    /** do_reply's callback: the first reply of bind is followed by the accept, any other by the relay
        in both directions. How much of the reply was sent is not looked at. */
    method OnReply(isFirstReply: bool, ok: bool, count: nat)
      requires Valid() && Shape(State()) && Reply(isFirstReply) in setUp && count <= REPLY_LENGTH
      modifies this`setUp, this`replies, this`upOps, this`downOps
      ensures State() == SetUpStep(old(State()), Reply(isFirstReply), ok, count)
    {
      setUp := setUp - multiset{Reply(isFirstReply)};
      if ok {
        replies := replies + [replyBytes[..count]];
        if isFirstReply {
          setUp := setUp + multiset{Accept};
        } else {
          DoRead(FROM_CLIENT);
          DoRead(FROM_SERVER);
        }
      }
    }

    method Fill(buffer: array<Byte>, data: seq<Byte>)
      requires |data| <= buffer.Length
      modifies buffer
      ensures buffer[..] == Overwrite(old(buffer[..]), data)
    {
      forall i | 0 <= i < |data| { buffer[i] := data[i]; }
    }

    /** do_read's callback: the kernel has put the data into the buffer; it is sent on. */
    method OnRead(side: int, ok: bool, data: seq<Byte>)
      requires Valid() && Shape(State()) && Side(side) && |data| <= MAX_LENGTH
      requires Read in State().Get(DirFrom(side)).ops
      modifies this`upOps, this`downOps, this`fromClient, this`fromServer, upstreamData, downstreamData
      ensures var d := DirFrom(side);
              State() == old(State()).Put(d, StreamStep(kind, old(State()).Get(d), Read, ok, data, 0))
    {
      if side == FROM_CLIENT { ReadFromClient(ok, data); } else { ReadFromServer(ok, data); }
    }

    method ReadFromClient(ok: bool, data: seq<Byte>)
      requires Valid() && Shape(State()) && |data| <= MAX_LENGTH && Read in upOps
      modifies this`upOps, this`downOps, this`fromClient, upstreamData
      ensures State() == old(State()).Put(Up, StreamStep(kind, old(State()).up, Read, ok, data, 0))
    {
      upOps := upOps - multiset{Read};
      if ok {
        Fill(upstreamData, data);
        fromClient := fromClient + data;
        DoWrite(TO_SERVER, |data|);
      }
    }

    method ReadFromServer(ok: bool, data: seq<Byte>)
      requires Valid() && Shape(State()) && |data| <= MAX_LENGTH && Read in downOps
      modifies this`upOps, this`downOps, this`fromServer, downstreamData
      ensures State() == old(State()).Put(Down, StreamStep(kind, old(State()).down, Read, ok, data, 0))
    {
      downOps := downOps - multiset{Read};
      if ok {
        Fill(downstreamData, data);
        fromServer := fromServer + data;
        DoWrite(TO_CLIENT, |data|);
      }
    }

    /** do_write's callback. bind compares with FROM_CLIENT where TO_CLIENT is meant, and reads again
        from TO_SERVER where FROM_SERVER is meant; the constants make both the same. */
    method OnSent(side: int, length: nat, ok: bool, count: nat)
      requires Valid() && Shape(State()) && Side(side) && count <= length <= MAX_LENGTH
      requires Write(length) in State().Get(DirTo(side)).ops
      modifies this`upOps, this`downOps, this`toClient, this`toServer
      ensures var d := DirTo(side);
              State() == old(State()).Put(d, StreamStep(kind, old(State()).Get(d), Write(length), ok, [], count))
    {
      if side == TO_SERVER { SentToServer(length, ok, count); }
      else if side == FROM_CLIENT { SentToClient(length, ok, count); }
    }

    method SentToServer(length: nat, ok: bool, count: nat)
      requires Valid() && Shape(State()) && count <= length <= MAX_LENGTH && Write(length) in upOps
      modifies this`upOps, this`downOps, this`toServer
      ensures State() == old(State()).Put(Up, StreamStep(kind, old(State()).up, Write(length), ok, [], count))
    {
      upOps := upOps - multiset{Write(length)};
      if ok {
        toServer := toServer + upstreamData[..count];
        if kind.Bridge? || count == length { DoRead(FROM_CLIENT); } else { DoWrite(TO_SERVER, length - count); }
      }
    }

    method SentToClient(length: nat, ok: bool, count: nat)
      requires Valid() && Shape(State()) && count <= length <= MAX_LENGTH && Write(length) in downOps
      modifies this`upOps, this`downOps, this`toClient
      ensures State() == old(State()).Put(Down, StreamStep(kind, old(State()).down, Write(length), ok, [], count))
    {
      downOps := downOps - multiset{Write(length)};
      if ok {
        toClient := toClient + downstreamData[..count];
        if kind.Bridge? || count == length { DoRead(TO_SERVER); } else { DoWrite(FROM_CLIENT, length - count); }
      }
    }
  }
}
