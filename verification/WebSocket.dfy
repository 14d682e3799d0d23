/**
 Sending and receiving WebSocket messages over a connection that moves any part of what it is asked to.
 */
module WebSockets {
  import opened Options
  import opened Flat
  import opened Words
  import opened Items
  import opened Streams
  import opened WebSocketWire

  /** A message to be sent; sending it masked changes it. */
  class WSFrameMessage {
    var opcode: Byte
    var data: seq<Byte>

    constructor (opcode: Byte, data: seq<Byte>)
      ensures this.opcode == opcode && this.data == data
    {
      this.opcode, this.data := opcode, data;
    }

    /** Combine the data with a key, byte by byte. */
    method Toggle(key: seq<Byte>)
      requires |key| == 4
      modifies `data
      ensures data == Toggled(old(data), Some(key))
    {
      ghost var was := data;
      for i := 0 to |data|
        invariant |data| == |was|
        invariant forall j | 0 <= j < i :: data[j] == was[j] ^ key[j % 4]
        invariant forall j | i <= j < |data| :: data[j] == was[j]
      {
        data := data[i := data[i] ^ key[i % 4]];
      }
    }
  }

  /** The frame that a message is sent in. */
  function FrameOf(opcode: Byte, fin: bool, client: bool, key: seq<Byte>, data: seq<Byte>): (f: Frame)
    requires |key| == 4
    ensures WellFormed(f)
  {
    Data(opcode, fin, if client then Some(key) else None, data)
  }

  /** The head and the extended size. */
  method SendHead(stream: Connection, opcode: Byte, fin: bool, mask: bool, size: nat) returns (ok: bool)
    modifies stream`outgoing, stream`sendPlan
    ensures var h := HeadBytes(opcode, fin, SizeMark(size), mask) + SizeBytes(size);
            && old(stream.outgoing) <= stream.outgoing <= old(stream.outgoing) + h
            && (ok <==> stream.outgoing == old(stream.outgoing) + h)
            && (old(stream.Takes()) && |h| <= old(|stream.sendPlan|) ==> ok)
    ensures old(stream.Takes()) ==>
            stream.Takes() && |stream.outgoing| + |stream.sendPlan| >= old(|stream.outgoing| + |stream.sendPlan|)
  {
    hide HeadBytes, Size7, Size16, Size64, Layout16, Layout64;
    var mark := if size < 126 then Size7(size) else if size < 65536 then 126 else 127;
    if size < 126 {
      SmallMark(size);
    }
    SmallCounts();
    ghost var out := stream.outgoing;
    var rt := stream.WriteFixSize(HeadBytes(opcode, fin, mark, mask));
    PartSent(out, stream.outgoing, HeadBytes(opcode, fin, mark, mask), SizeBytes(size));
    if rt <= 0 {
      return false;
    }
    if mark == 126 {
      rt := stream.WriteFixSize(Layout16(Size16(size), false));
      if rt <= 0 {
        return false;
      }
    } else if mark == 127 {
      rt := stream.WriteFixSize(Layout64(Size64(size), false));
      if rt <= 0 {
        return false;
      }
    }
    return true;
  }

  lemma SmallCounts()
    ensures ToInt32(0) == 0 && ToInt32(2) == 2 && ToInt32(4) == 4 && ToInt32(8) == 8
  {
  }

  /** A call that was to send `part`, the first part of what is left, has sent some of it. */
  lemma PartSent(out: seq<Byte>, after: seq<Byte>, part: seq<Byte>, rest: seq<Byte>)
    requires out <= after && after[|out|..] <= part
    ensures after <= out + part <= out + (part + rest)
    ensures after != out + part ==> |after| < |out| + |part|
  {
    assert after == out + after[|out|..];
  }

  /** The parts of a frame as they are sent, one after the other. */
  lemma WireParts(out: seq<Byte>, f: Frame)
    requires WellFormed(f) && f.Data?
    ensures var h := HeadBytes(f.opcode, f.fin, SizeMark(|f.payload|), f.key.Some?) + SizeBytes(|f.payload|);
            && out + h + KeyBytes(f.key) + Toggled(f.payload, f.key) == out + Wire(f)
            && |Wire(f)| == |h| + |KeyBytes(f.key)| + |f.payload|
            && out + h <= out + h + KeyBytes(f.key) <= out + Wire(f)
    ensures f.key == None ==> KeyBytes(f.key) == [] && Toggled(f.payload, f.key) == f.payload
  {
    hide HeadBytes, SizeMark, SizeBytes;
  }

  /** Not more than a part has been sent, so not more than the whole. */
  lemma WithinWhole(out: seq<Byte>, after: seq<Byte>, part: seq<Byte>, whole: seq<Byte>)
    requires out <= after <= part <= whole
    ensures after <= whole && (after != part ==> after != whole)
  {
  }

  /** What the connection has taken so far, and can still take, is not less than before. */
  twostate predicate TakesOn(stream: Connection)
    reads stream
  {
    old(stream.Takes()) ==>
      stream.Takes() && |stream.outgoing| + |stream.sendPlan| >= old(|stream.outgoing| + |stream.sendPlan|)
  }

  /** The data is masked, and the key goes out. */
  method SendKey(stream: Connection, msg: WSFrameMessage, rand: seq<Byte>) returns (ok: bool)
    requires |rand| == 4
    modifies stream`outgoing, stream`sendPlan, msg`data
    ensures msg.data == Toggled(old(msg.data), Some(rand))
    ensures old(stream.outgoing) <= stream.outgoing <= old(stream.outgoing) + rand
    ensures ok <==> stream.outgoing == old(stream.outgoing) + rand
    ensures old(stream.Takes()) && 4 <= old(|stream.sendPlan|) ==> ok
    ensures TakesOn(stream)
  {
    hide Toggled;
    SmallCounts();
    ghost var out := stream.outgoing;
    msg.Toggle(rand);
    var r := stream.WriteFixSize(rand);
    PartSent(out, stream.outgoing, rand, []);
    return r > 0;
  }

  /**
   Send one fragment. If it has been sent, just its frame has gone out. An empty fragment counts as a
   failure, for sending nothing does. A client's message is left masked.
   */
  method WSSendMessage(stream: Connection, msg: WSFrameMessage, client: bool, fin: bool, rand: seq<Byte>)
    returns (rt: int, ghost sent: bool)
    requires |rand| == 4
    modifies stream`outgoing, stream`sendPlan, stream`connected, msg`data
    ensures sent ==> TakesOn(stream) && stream.connected == old(stream.connected)
    ensures var f := FrameOf(old(msg.opcode), fin, client, rand, old(msg.data));
            && old(stream.outgoing) <= stream.outgoing <= old(stream.outgoing) + Wire(f)
            && (sent <==> stream.outgoing == old(stream.outgoing) + Wire(f) && ToInt32(|old(msg.data)|) > 0)
            && (old(stream.Takes()) && |Wire(f)| <= old(|stream.sendPlan|) ==> (sent <==> ToInt32(|old(msg.data)|) > 0))
    ensures sent ==> rt == ToInt32(|msg.data| + 2) && old(msg.data) != []
    ensures sent && client ==> msg.data == Toggled(old(msg.data), Some(rand))
    ensures !client ==> msg.data == old(msg.data)
    ensures !sent ==> rt == -1 && !stream.connected
  {
    hide HeadBytes, SizeMark, SizeBytes, Toggled, Wire, ToInt32;
    ghost var out, data, f := stream.outgoing, msg.data, FrameOf(msg.opcode, fin, client, rand, msg.data);
    WireParts(out, f);
    SmallCounts();
    var size := |msg.data|;
    var ok := SendHead(stream, msg.opcode, fin, client, size);
    ghost var head := HeadBytes(f.opcode, fin, SizeMark(size), client) + SizeBytes(size);
    WithinWhole(out, stream.outgoing, out + head, out + Wire(f));
    if ok && client {
      ok := SendKey(stream, msg, rand);
      WithinWhole(out, stream.outgoing, out + head + rand, out + Wire(f));
    }
    if ok {
      ghost var before := stream.outgoing;
      var r := stream.WriteFixSize(msg.data);
      PartSent(before, stream.outgoing, msg.data, []);
      if r > 0 {
        return ToInt32(size + 2), true;
      }
    }
    stream.Close();
    return -1, false;
  }

  /** An empty control frame; the connection is closed if it cannot be sent. */
  method SendControl(stream: Connection, opcode: Byte) returns (rt: int)
    modifies stream`outgoing, stream`sendPlan, stream`connected
    ensures old(stream.outgoing) <= stream.outgoing
    ensures rt > 0 ==> TakesOn(stream) && stream.connected == old(stream.connected)
                       && stream.outgoing == old(stream.outgoing) + HeadBytes(opcode, true, 0, false)
    ensures rt <= 0 ==> !stream.connected
    ensures old(stream.Takes()) && 2 <= old(|stream.sendPlan|) ==> rt > 0
  {
    hide HeadBytes, ToInt32;
    SmallCounts();
    rt := stream.WriteFixSize(HeadBytes(opcode, true, 0, false));
    if rt <= 0 {
      stream.Close();
    }
  }

  method WSPing(stream: Connection) returns (rt: int)
    modifies stream`outgoing, stream`sendPlan, stream`connected
    ensures old(stream.outgoing) <= stream.outgoing
    ensures rt > 0 ==> TakesOn(stream) && stream.connected == old(stream.connected)
                       && stream.outgoing == old(stream.outgoing) + Wire(Ping)
    ensures rt <= 0 ==> !stream.connected
    ensures old(stream.Takes()) && 2 <= old(|stream.sendPlan|) ==> rt > 0
  {
    rt := SendControl(stream, PING);
  }

  method WSPong(stream: Connection) returns (rt: int)
    modifies stream`outgoing, stream`sendPlan, stream`connected
    ensures old(stream.outgoing) <= stream.outgoing
    ensures rt > 0 ==> TakesOn(stream) && stream.connected == old(stream.connected)
                       && stream.outgoing == old(stream.outgoing) + Wire(Pong)
    ensures rt <= 0 ==> !stream.connected
    ensures old(stream.Takes()) && 2 <= old(|stream.sendPlan|) ==> rt > 0
  {
    rt := SendControl(stream, PONG);
  }

  // ---------------------------------------------------------------- receiving

  /** The size of a payload; the 64 bits of the largest form are taken as they come. */
  method RecvLength(stream: Connection, mark: Byte) returns (ok: bool, length: nat)
    modifies stream`incoming, stream`recvPlan
    ensures old(stream.Delivers()) ==> stream.Delivers()
    ensures var r := ReadLength(mark, old(stream.incoming));
            && (ok ==> r.Some? && length == r.value.0 && stream.incoming == old(stream.incoming)[r.value.1..])
            && (!ok && old(stream.Delivers()) ==> r == None)
    ensures length < 0x1_0000_0000_0000_0000
  {
    hide Count7, Count16, Count64, Word16, Word64;
    SmallLengths();
    ghost var start := stream.incoming;
    var rt, got;
    if mark == 126 {
      rt, got := stream.ReadFixSize(2);
      if rt <= 0 {
        return false, 0;
      }
      assert start[..2] == got && start[2..] == stream.incoming;
      return true, Count16(Word16(got, false));
    } else if mark == 127 {
      rt, got := stream.ReadFixSize(8);
      if rt <= 0 {
        return false, 0;
      }
      assert start[..8] == got && start[8..] == stream.incoming;
      return true, Count64(Word64(got, false));
    }
    assert start[0..] == start;
    return true, Count7(mark);
  }

  lemma SmallLengths()
    ensures ToInt32(2) == 2 && ToInt32(8) == 8 && ToInt32(4) == 4
  {
  }

  method RecvKey(stream: Connection, mask: bool) returns (ok: bool, key: Option<seq<Byte>>)
    modifies stream`incoming, stream`recvPlan
    ensures old(stream.Delivers()) ==> stream.Delivers()
    ensures var r := ReadKey(mask, old(stream.incoming));
            && (ok ==> r.Some? && key == r.value.0 && stream.incoming == old(stream.incoming)[r.value.1..])
            && (!ok && old(stream.Delivers()) ==> r == None)
  {
    SmallLengths();
    hide ToInt32;
    ghost var start := stream.incoming;
    if !mask {
      assert start[0..] == start;
      return true, None;
    }
    var rt, got := stream.ReadFixSize(4);
    if rt <= 0 {
      return false, None;
    }
    assert start[..4] == got && start[4..] == stream.incoming;
    return true, Some(got);
  }

  /**
   `length` bytes behind `data`. A length that is negative as a signed 64-bit number reads nothing, and is
   returned as a negative result.
   */
  method RecvBytes(stream: Connection, length: nat) returns (rt: int, got: seq<Byte>)
    requires length < 0x1_0000_0000_0000_0000
    modifies stream`incoming, stream`recvPlan
    ensures old(stream.Delivers()) ==> stream.Delivers()
    ensures got + stream.incoming == old(stream.incoming)
    ensures length < 0x8000_0000_0000_0000 ==>
      && (if |got| == length then rt == ToInt32(length) else rt <= 0)
      && (old(stream.Delivers()) && length <= |old(stream.incoming)| ==> |got| == length)
    ensures length >= 0x8000_0000_0000_0000 ==> rt == ToInt32(length)
  {
    if length >= 0x8000_0000_0000_0000 {
      return ToInt32(length), [];
    }
    rt, got := stream.ReadFixSize(length);
  }

  /** The key, if there is one, and a payload that is put behind `data` and unmasked there. */
  method RecvMasked(stream: Connection, mask: bool, length: nat, data: seq<Byte>) returns (ok: bool, data': seq<Byte>)
    requires length < 0x1_0000_0000_0000_0000
    requires ToInt32(length) <= 0 || ToInt32(length) == length < 0x8000_0000
    modifies stream`incoming, stream`recvPlan
    ensures old(stream.Delivers()) ==> stream.Delivers()
    ensures var r := ReadMasked(mask, old(stream.incoming), length);
            && (ok ==> r.Some? && ToInt32(length) == length && data' == data + r.value.0 && |r.value.0| == length
                       && stream.incoming == old(stream.incoming)[r.value.1..])
            && (!ok && ToInt32(length) == length && old(stream.Delivers()) ==> r == None)
  {
    hide ReadKey, ToInt32, Toggled;
    ghost var start := stream.incoming;
    var key, rt, got;
    ok, key := RecvKey(stream, mask);
    if !ok {
      return false, data;
    }
    ghost var m := ReadKey(mask, start).value.1;
    rt, got := RecvBytes(stream, length);
    if rt <= 0 {
      return false, data;
    }
    SliceOfTail(start, m, length);
    assert got == start[m..][..length] && stream.incoming == start[m..][length..];
    data' := data + got;
    assert data'[..|data|] == data && data'[|data|..] == got;
    if key.Some? {
      data' := Unmask(data', |data|, key.value);
    }
    ToggledNone(got);
    return true, data';
  }

  /** The rest of a data frame: its payload, unmasked, is put behind `data`. */
  method RecvPayload(stream: Connection, mark: Byte, mask: bool, limit: nat, data: seq<Byte>)
    returns (ok: bool, data': seq<Byte>)
    requires (|data| < limit || data == []) && limit <= 0x8000_0000
    modifies stream`incoming, stream`recvPlan
    ensures old(stream.Delivers()) ==> stream.Delivers()
    ensures var r := ReadPayload(mark, mask, old(stream.incoming), limit - |data|);
            && (ok ==> r.Some? && data' == data + r.value.0 && |data'| < limit
                       && stream.incoming == old(stream.incoming)[r.value.1..])
            && (!ok && old(stream.Delivers()) ==> r == None)
  {
    hide ReadLength, ReadMasked, ToInt32, Sum64;
    ghost var start := stream.incoming;
    var length;
    ok, length := RecvLength(stream, mark);
    if !ok || Sum64(|data|, length) >= limit {
      return false, data;
    }
    SumWraps(|data|, length, limit);
    ghost var n := ReadLength(mark, start).value.1;
    ok, data' := RecvMasked(stream, mask, length, data);
    if ok {
      SliceOfTail(start, n, ReadMasked(mask, start[n..], length).value.1);
    }
  }

  /** A sum of 64-bit numbers. */
  function Sum64(n: nat, length: nat): (s: nat)
    ensures s <= n + length
  {
    (n + length) % 0x1_0000_0000_0000_0000
  }

  /** A length that passes for small only because the sum wraps is negative as an int. */
  lemma SumWraps(n: nat, length: nat, limit: nat)
    requires n < 0x8000_0000 && length < 0x1_0000_0000_0000_0000 && Sum64(n, length) < limit <= 0x8000_0000
    ensures (n + length < limit && ToInt32(length) == length)
            || (n + length >= limit && ToInt32(length) <= 0 && length >= 0x8000_0000_0000_0000)
  {
    if n + length >= 0x1_0000_0000_0000_0000 {
      NegativeLength(length);
    }
  }

  lemma NegativeLength(length: nat)
    requires 0xffff_ffff_8000_0000 <= length < 0x1_0000_0000_0000_0000
    ensures ToInt32(length) < 0
  {
    assert length % 0x1_0000_0000 == length - 0xffff_ffff * 0x1_0000_0000;
  }

  lemma ToggledNone(data: seq<Byte>)
    ensures Toggled(data, None) == data
  {
  }

  /** Combine what lies behind the first `from` bytes with the key. */
  method Unmask(data: seq<Byte>, from: nat, key: seq<Byte>) returns (data': seq<Byte>)
    requires from <= |data| && |key| == 4
    ensures data' == data[..from] + Toggled(data[from..], Some(key))
  {
    data' := data;
    for i := 0 to |data| - from
      invariant |data'| == |data|
      invariant forall j | 0 <= j < from :: data'[j] == data[j]
      invariant forall j | from <= j < from + i :: data'[j] == data[j] ^ key[(j - from) % 4]
      invariant forall j | from + i <= j < |data| :: data'[j] == data[j]
    {
      data' := data'[from + i := data'[from + i] ^ key[i % 4]];
    }
  }

  /** `n` answers to pings. */
  function PongBytes(n: nat): (s: seq<Byte>)
    ensures |s| == 2 * n
  {
    if n == 0 then [] else PongBytes(n - 1) + Wire(Pong)
  }

  /** What became of a frame: the message is complete, goes on, or cannot be received. */
  datatype Status = Whole | More | Failed

  /** One frame: a ping is answered, a fragment is put behind `data`. */
  method RecvFrame(stream: Connection, client: bool, limit: nat, opcode: Byte, data: seq<Byte>)
    returns (status: Status, opcode': Byte, data': seq<Byte>, ghost used: nat, ghost pongs: nat)
    requires (|data| < limit || data == []) && limit <= 0x8000_0000
    modifies stream`incoming, stream`recvPlan, stream`outgoing, stream`sendPlan, stream`connected
    ensures var r := Receive(old(stream.incoming), client, limit, opcode, data);
            && (status == Whole ==> pongs == 0 && r == Outcome(Some(Message(opcode', data')), used, 0))
            && (status == More ==>
                pongs <= 1 && r == Later(Receive(stream.incoming, client, limit, opcode', data'), used, pongs))
            && (status == Failed && old(stream.Delivers() && stream.Takes())
                && 2 * r.pongs <= old(|stream.sendPlan|) ==>
                r.msg == None)
    ensures status != Failed ==>
      && 2 <= used <= old(|stream.incoming|) && stream.incoming == old(stream.incoming)[used..]
      && stream.outgoing == old(stream.outgoing) + (if pongs == 0 then [] else Wire(Pong))
      && stream.connected == old(stream.connected) && TakesOn(stream)
      && (old(stream.Delivers()) ==> stream.Delivers()) && (|data'| < limit || data' == [])
  {
    hide Receive, ReadPayload, Wire, ToInt32, Opcode, Masked, Payload, Fin, IsData;
    SmallCounts();
    ghost var here := stream.incoming;
    ReceiveStep(here, client, limit, opcode, data);
    opcode', data', used, pongs := opcode, data, 2, 0;
    var rt, head := stream.ReadFixSize(2);
    if rt <= 0 {
      return Failed, opcode, data, 0, 0;
    }
    assert head == here[..2] && stream.incoming == here[2..];
    var op := Opcode(head[0]);
    if op == PING {
      rt := WSPong(stream);
      return if rt <= 0 then Failed else More, opcode, data, 2, 1;
    } else if op == PONG {
      return More, opcode, data, 2, 0;
    } else if IsData(op) {
      if !client && !Masked(head[1]) {
        return Failed, opcode, data, 0, 0;
      }
      var ok;
      ok, data' := RecvPayload(stream, Payload(head[1]), Masked(head[1]), limit, data);
      if !ok {
        return Failed, opcode, data, 0, 0;
      }
      ghost var r := ReadPayload(Payload(head[1]), Masked(head[1]), here[2..], limit - |data|);
      ReceiveData(here, client, limit, opcode, data, r.value.0, r.value.1);
      SliceOfTail(here, 2, r.value.1);
      used := 2 + r.value.1;
      if opcode == 0 && op != CONTINUE {
        opcode' := op;
      }
      return if Fin(head[0]) then Whole else More, opcode', data', used, 0;
    }
    return More, opcode, data, 2, 0;
  }

  /**
   One message, put together from its fragments; pings are answered. Whatever the cuts of the connection, a
   message that is returned is the one that the bytes stand for, and as long as the connection delivers and
   takes it is returned if there is one.
   */
  method WSRecvMessage(stream: Connection, client: bool, limit: nat) returns (msg: Option<Message>)
    requires limit <= 0x8000_0000
    modifies stream`incoming, stream`recvPlan, stream`outgoing, stream`sendPlan, stream`connected
    ensures var o := Receive(old(stream.incoming), client, limit, 0, []);
            && (msg.Some? ==> msg == o.msg && stream.incoming == old(stream.incoming)[o.used..]
                              && stream.outgoing == old(stream.outgoing) + PongBytes(o.pongs))
            && (old(stream.Delivers() && stream.Takes()) && 2 * o.pongs <= old(|stream.sendPlan|) ==> msg == o.msg)
    ensures msg.Some? ==> stream.connected == old(stream.connected)
    ensures msg.None? ==> !stream.connected
  {
    hide Receive, Wire;
    ghost var start, out, spec := stream.incoming, stream.outgoing, Receive(stream.incoming, client, limit, 0, []);
    ghost var used: nat, pongs: nat := 0, 0;
    var opcode: Byte, data := 0, [];
    while true
      invariant used <= |start| && stream.incoming == start[used..]
      invariant spec == Later(Receive(stream.incoming, client, limit, opcode, data), used, pongs)
      invariant stream.outgoing == out + PongBytes(pongs)
      invariant |data| < limit || data == []
      invariant stream.connected == old(stream.connected) && TakesOn(stream)
      invariant old(stream.Delivers()) ==> stream.Delivers()
      decreases |stream.incoming|
    {
      var status;
      ghost var n: nat, pong: nat;
      status, opcode, data, n, pong := RecvFrame(stream, client, limit, opcode, data);
      if status == Failed {
        break;
      }
      SliceOfTail(start, used, n);
      if status == Whole {
        return Some(Message(opcode, data));
      }
      used, pongs := used + n, pongs + pong;
    }
    stream.Close();
    return None;
  }

  // ---------------------------------------------------------------- both ends

  /** One frame of a script. */
  method SendFrame(stream: Connection, f: Frame) returns (ok: bool)
    requires WellFormed(f) && (f.Data? ==> 0 < |f.payload| < 0x8000_0000)
    modifies stream`outgoing, stream`sendPlan, stream`connected
    ensures ok ==> stream.outgoing == old(stream.outgoing) + Wire(f) && TakesOn(stream)
    ensures old(stream.Takes()) && |Wire(f)| <= old(|stream.sendPlan|) ==> ok
  {
    hide HeadBytes, SizeMark, SizeBytes, Toggled;
    match f {
      case Ping =>
        var rt := WSPing(stream);
        ok := rt > 0;
      case Pong =>
        var rt := WSPong(stream);
        ok := rt > 0;
      case Data(opcode, fin, key, payload) =>
        var msg := new WSFrameMessage(opcode, payload);
        var rand := if key.Some? then key.value else [0, 0, 0, 0];
        var rt, _ := WSSendMessage(stream, msg, key.Some?, fin, rand);
        ok := rt != -1;
    }
  }

  method SendScript(stream: Connection, fs: seq<Frame>)
    requires AllWellFormed(fs) && forall i | 0 <= i < |fs| && fs[i].Data? :: 0 < |fs[i].payload| < 0x8000_0000
    requires stream.Takes() && |WireAll(fs)| <= |stream.sendPlan|
    modifies stream`outgoing, stream`sendPlan, stream`connected
    ensures stream.outgoing == old(stream.outgoing) + WireAll(fs)
  {
    hide Wire;
    assert fs[0..] == fs;
    for i := 0 to |fs|
      invariant stream.Takes() && |WireAll(fs[i..])| <= |stream.sendPlan|
      invariant stream.outgoing + WireAll(fs[i..]) == old(stream.outgoing) + WireAll(fs)
    {
      assert fs[i..][1..] == fs[i + 1..];
      ghost var before := stream.outgoing;
      var _ := SendFrame(stream, fs[i]);
      assert before + (Wire(fs[i]) + WireAll(fs[i + 1..])) == before + Wire(fs[i]) + WireAll(fs[i + 1..]);
    }
  }

  /**
   A message goes from one end to the other: sent in fragments with control frames in between over one
   connection, received from another that carries the same bytes in any pieces.
   */
  method Exchange(fs: seq<Frame>, client: bool, limit: nat, there: seq<int>, here: seq<int>, back: seq<int>)
    returns (msg: Option<Message>, receiver: Connection)
    requires Script(fs, client) && |PayloadOf(fs)| < limit <= 0x8000_0000
    requires |WireAll(fs)| <= |there| && |WireAll(fs)| <= |here| && 2 * Pings(fs) <= |back|
    requires forall i | 0 <= i < |there| :: there[i] > 0
    requires forall i | 0 <= i < |here| :: here[i] > 0
    requires forall i | 0 <= i < |back| :: back[i] > 0
    ensures msg == Some(Message(OpcodeOf(fs, CONTINUE), PayloadOf(fs)))
    ensures msg.Some? && NamedBy(fs, msg.value.opcode) && InOrder(fs, msg.value.data)
    ensures receiver.incoming == [] && receiver.outgoing == PongBytes(Pings(fs))
  {
    hide Receive, Wire, NamedBy, InOrder;
    var sender := new Connection([], [], there);
    PartsFit(fs);
    SendScript(sender, fs);
    receiver := new Connection(sender.outgoing, here, back);
    assert sender.outgoing == WireAll(fs) && WireAll(fs) + [] == WireAll(fs);
    assert [] + PayloadOf(fs) == PayloadOf(fs);
    ScriptReceived(fs, [], client, limit, CONTINUE, []);
    msg := WSRecvMessage(receiver, client, limit);
  }

  /** No fragment is longer than the message. */
  lemma {:induction false} PartsFit(fs: seq<Frame>)
    ensures forall i | 0 <= i < |fs| && fs[i].Data? :: |fs[i].payload| <= |PayloadOf(fs)|
  {
    if fs != [] {
      PartsFit(fs[1..]);
      assert forall i | 0 < i < |fs| :: fs[i] == fs[1..][i - 1];
    }
  }
}
