/**
 WebSocket frames on the wire (section 5.2 of RFC 6455), and what a receiver makes of a stream of them.
 */
module WebSocketWire {
  import opened Options
  import opened Flat
  import opened Words
  import opened Items

  // ---------------------------------------------------------------- heads

  const CONTINUE: Byte := 0
  const TEXT_FRAME: Byte := 1
  const BIN_FRAME: Byte := 2
  const PING: Byte := 9
  const PONG: Byte := 10

  /** The bit fields of the two bytes of a frame head, each from its lowest bit. */
  function FirstByte(opcode: Byte, fin: bool): Byte {
    (opcode & 0x0f) | (if fin then 0x80 else 0)
  }

  function SecondByte(payload: Byte, mask: bool): Byte {
    (payload & 0x7f) | (if mask then 0x80 else 0)
  }

  function Opcode(b: Byte): Byte { b & 0x0f }

  predicate Fin(b: Byte) { b & 0x80 != 0 }

  function Payload(b: Byte): Byte { b & 0x7f }

  predicate Masked(b: Byte) { b & 0x80 != 0 }

  lemma HeadFields(opcode: Byte, fin: bool, payload: Byte, mask: bool)
    ensures Opcode(FirstByte(opcode, fin)) == opcode & 0x0f && (Fin(FirstByte(opcode, fin)) <==> fin)
    ensures Payload(SecondByte(payload, mask)) == payload & 0x7f && (Masked(SecondByte(payload, mask)) <==> mask)
  {
  }

  predicate IsData(opcode: Byte) {
    opcode == CONTINUE || opcode == TEXT_FRAME || opcode == BIN_FRAME
  }

  lemma Opcodes(opcode: Byte)
    ensures IsData(opcode) ==> opcode & 0x0f == opcode && opcode != PING && opcode != PONG
    ensures PING & 0x0f == PING && PONG & 0x0f == PONG && PING != PONG
  {
  }

  /** A size as it is stored in seven bits. */
  function Size7(n: nat): Byte {
    (Word(n, 7) & 0x7f) as Byte
  }

  function Count7(b: Byte): (n: nat)
    ensures n < 128
  {
    assert Pow2(7) == 128;
    Number(b as bv64, 7)
  }

  lemma Narrow(v: bv64)
    ensures Under(v, 0x7f) ==> ((v & 0x7f) as Byte) as bv64 == v && ((v & 0x7f) as Byte) & 0x7f == (v & 0x7f) as Byte
  {
  }

  lemma SmallSize(n: nat)
    requires n < 128
    ensures Count7(Size7(n)) == n && Size7(n) & 0x7f == Size7(n)
  {
    hide Under, Mask, Word, Number;
    assert Mask(7) == 0x7f by {
      Mask7();
    }
    assert Pow2(7) == 128;
    WordUnder(n, 7, 7);
    Narrow(Word(n, 7));
    NumberOfWord(n, 7);
  }

  lemma Mask7()
    ensures Mask(7) == 0x7f
  {
    assert Mask(4) == 0xf;
  }

  lemma Marks()
    ensures Size7(126) == 126 && Size7(127) == 127
  {
    assert Word(1, 1) == 1;
    assert Word(3, 2) == 3;
    assert Word(7, 3) == 7;
    assert Word(15, 4) == 15;
    assert Word(31, 5) == 31;
    assert Word(63, 6) == 63;
    assert Word(126, 7) == 126;
    assert Word(127, 7) == 127;
  }

  // ---------------------------------------------------------------- masking

  /** The payload, each byte combined with the key byte in turn; without a key it stays. */
  function Toggled(data: seq<Byte>, key: Option<seq<Byte>>): (r: seq<Byte>)
    requires key.Some? ==> |key.value| == 4
    ensures |r| == |data|
  {
    match key
    case None => data
    case Some(k) => seq(|data|, i requires 0 <= i < |data| => data[i] ^ k[i % 4])
  }

  lemma XorTwice(a: Byte, b: Byte)
    ensures (a ^ b) ^ b == a
  {
  }

  /** Masking twice with one key gives the payload back. */
  lemma ToggledTwice(data: seq<Byte>, key: Option<seq<Byte>>)
    requires key.Some? ==> |key.value| == 4
    ensures Toggled(Toggled(data, key), key) == data
  {
    if key.Some? {
      forall i | 0 <= i < |data| ensures Toggled(Toggled(data, key), key)[i] == data[i] {
        XorTwice(data[i], key.value[i % 4]);
      }
    }
  }

  // ---------------------------------------------------------------- frames

  /** What is sent: a fragment of a message, or an empty control frame. */
  datatype Frame = Data(opcode: Byte, fin: bool, key: Option<seq<Byte>>, payload: seq<Byte>) | Ping | Pong

  predicate WellFormed(f: Frame) {
    f.Data? ==> (f.key.Some? ==> |f.key.value| == 4)
  }

  /** The seven bits of the head that give the payload's size, or say where it is. */
  function SizeMark(n: nat): Byte {
    if n < 126 then Size7(n) else if n < 65536 then 126 else 127
  }

  /** The extended size, in network byte order. */
  function SizeBytes(n: nat): seq<Byte> {
    if n < 126 then [] else if n < 65536 then Layout16(Size16(n), false) else Layout64(Size64(n), false)
  }

  function KeyBytes(key: Option<seq<Byte>>): seq<Byte> {
    match key
    case None => []
    case Some(k) => k
  }

  function HeadBytes(opcode: Byte, fin: bool, mark: Byte, mask: bool): (h: seq<Byte>)
    ensures |h| == 2
  {
    [FirstByte(opcode, fin), SecondByte(mark, mask)]
  }

  function Wire(f: Frame): seq<Byte>
    requires WellFormed(f)
  {
    match f
    case Ping => HeadBytes(PING, true, 0, false)
    case Pong => HeadBytes(PONG, true, 0, false)
    case Data(opcode, fin, key, payload) =>
      HeadBytes(opcode, fin, SizeMark(|payload|), key.Some?) +
        (SizeBytes(|payload|) + (KeyBytes(key) + Toggled(payload, key)))
  }

  // ---------------------------------------------------------------- receiving

  datatype Message = Message(opcode: Byte, data: seq<Byte>)

  /**
   What a receiver ends with: a message, or nothing and a closed connection; what it used and how often it
   answered.
   */
  datatype Outcome = Outcome(msg: Option<Message>, used: nat, pongs: nat)

  const CLOSED := Outcome(None, 0, 0)

  /** The payload's size as the head gives it, and the bytes of the extended size. */
  function ReadLength(mark: Byte, bytes: seq<Byte>): (r: Option<(nat, nat)>)
    ensures r.Some? ==> r.value.1 <= |bytes| && r.value.0 < 0x1_0000_0000_0000_0000
  {
    if mark == 126 then Length16(bytes) else if mark == 127 then Length64(bytes) else Some((Count7(mark), 0))
  }

  function Length16(bytes: seq<Byte>): (r: Option<(nat, nat)>)
    ensures r.Some? ==> r.value.1 == 2 <= |bytes| && r.value.0 < 0x1_0000
  {
    if |bytes| < 2 then None else Some((Count16(Word16(bytes[..2], false)), 2))
  }

  function Length64(bytes: seq<Byte>): (r: Option<(nat, nat)>)
    ensures r.Some? ==> r.value.1 == 8 <= |bytes| && r.value.0 < 0x1_0000_0000_0000_0000
  {
    if |bytes| < 8 then None else Some((Count64(Word64(bytes[..8], false)), 8))
  }

  function ReadKey(mask: bool, bytes: seq<Byte>): (r: Option<(Option<seq<Byte>>, nat)>)
    ensures r.Some? ==> r.value.1 <= |bytes| && (r.value.0.Some? ==> |r.value.0.value| == 4)
  {
    if !mask then Some((None, 0)) else if |bytes| < 4 then None else Some((Some(bytes[..4]), 4))
  }

  /** The key, if there is one, and `len` bytes unmasked with it. Empty payloads are not received. */
  function ReadMasked(mask: bool, bytes: seq<Byte>, len: nat): (r: Option<(seq<Byte>, nat)>)
    ensures r.Some? ==> 0 < r.value.1 <= |bytes|
  {
    match ReadKey(mask, bytes)
    case None => None
    case Some((key, m)) =>
      if len == 0 || m + len > |bytes| then None else Some((Toggled(bytes[m..m + len], key), m + len))
  }

  /** The rest of a data frame: its payload, unmasked, and the bytes used. */
  function ReadPayload(mark: Byte, mask: bool, bytes: seq<Byte>, room: int): (r: Option<(seq<Byte>, nat)>)
    ensures r.Some? ==> 0 < r.value.1 <= |bytes|
  {
    match ReadLength(mark, bytes)
    case None => None
    case Some((len, n)) =>
      if len >= room then None
      else
        match ReadMasked(mask, bytes[n..], len)
        case None => None
        case Some((payload, m)) => Some((payload, n + m))
  }

  function Later(o: Outcome, used: nat, pongs: nat): Outcome {
    o.(used := o.used + used, pongs := o.pongs + pongs)
  }

  /** One message from `bytes`, when `data` and the opcode of its first fragments have been received. */
  function Receive(bytes: seq<Byte>, client: bool, limit: nat, opcode: Byte, data: seq<Byte>): (o: Outcome)
    ensures o.used <= |bytes|
    decreases |bytes|
  {
    if |bytes| < 2 then CLOSED
    else
      var op, body := Opcode(bytes[0]), bytes[2..];
      if op == PING then Later(Receive(body, client, limit, opcode, data), 2, 1)
      else if op == PONG || !IsData(op) then Later(Receive(body, client, limit, opcode, data), 2, 0)
      else if !client && !Masked(bytes[1]) then CLOSED
      else
        match ReadPayload(Payload(bytes[1]), Masked(bytes[1]), body, limit - |data|)
        case None => CLOSED
        case Some((payload, n)) =>
          var opcode' := FirstOpcode(opcode, op);
          if Fin(bytes[0]) then Outcome(Some(Message(opcode', data + payload)), 2 + n, 0)
          else Later(Receive(body[n..], client, limit, opcode', data + payload), 2 + n, 0)
  }

  /** The opcode of a message is that of its first fragment that has one. */
  function FirstOpcode(opcode: Byte, op: Byte): Byte {
    if opcode == CONTINUE && op != CONTINUE then op else opcode
  }

  // ---------------------------------------------------------------- scripts

  function WireAll(fs: seq<Frame>): seq<Byte>
    requires AllWellFormed(fs)
  {
    if fs == [] then [] else Wire(fs[0]) + WireAll(fs[1..])
  }

  /**
   A message in non-empty fragments, of which just the last is final, with control frames in between; masked
   if it goes to a server.
   */
  predicate Script(fs: seq<Frame>, client: bool) {
    && AllWellFormed(fs)
    && (forall i | 0 <= i < |fs| && fs[i].Data? ::
       IsData(fs[i].opcode) && fs[i].payload != [] && (client || fs[i].key.Some?))
    && |fs| > 0 && fs[|fs| - 1].Data? && fs[|fs| - 1].fin
    && (forall i | 0 <= i < |fs| - 1 && fs[i].Data? :: !fs[i].fin)
  }

  function PayloadOf(fs: seq<Frame>): seq<Byte> {
    if fs == [] then [] else (if fs[0].Data? then fs[0].payload else []) + PayloadOf(fs[1..])
  }

  function OpcodeOf(fs: seq<Frame>, opcode: Byte): Byte {
    if fs == [] then opcode
    else OpcodeOf(fs[1..], if fs[0].Data? then FirstOpcode(opcode, fs[0].opcode) else opcode)
  }

  /** The first fragment with an opcode of its own gives that of the message; if there is none it is 0. */
  predicate NamedBy(fs: seq<Frame>, opcode: Byte) {
    && (forall i | 0 <= i < |fs| && IsFirstNamed(fs, i) :: fs[i].opcode == opcode)
    && ((forall i | 0 <= i < |fs| && fs[i].Data? :: fs[i].opcode == 0) ==> opcode == 0)
  }

  predicate IsFirstNamed(fs: seq<Frame>, i: nat)
    requires i < |fs|
  {
    fs[i].Data? && fs[i].opcode != 0 && forall j | 0 <= j < i && fs[j].Data? :: fs[j].opcode == 0
  }

  lemma {:induction false} OpcodeIsNamed(fs: seq<Frame>, opcode: Byte)
    ensures if opcode == 0 then NamedBy(fs, OpcodeOf(fs, opcode)) else OpcodeOf(fs, opcode) == opcode
    decreases |fs|
  {
    if fs != [] {
      var more := fs[1..];
      OpcodeIsNamed(more, if fs[0].Data? then FirstOpcode(opcode, fs[0].opcode) else opcode);
      forall i | 0 < i < |fs| && IsFirstNamed(fs, i) ensures IsFirstNamed(more, i - 1) && more[i - 1] == fs[i] {
        assert forall j | 0 <= j < i - 1 :: more[j] == fs[j + 1];
      }
      assert forall i | 0 <= i < |more| :: more[i] == fs[i + 1];
    }
  }

  /** How many bytes of the message come before frame `i`. */
  function SizeBefore(fs: seq<Frame>, i: nat): nat
    requires i <= |fs|
  {
    if i == 0 then 0 else SizeBefore(fs, i - 1) + if fs[i - 1].Data? then |fs[i - 1].payload| else 0
  }

  /** `data` is the payloads, each behind those before it, and nothing else. */
  predicate InOrder(fs: seq<Frame>, data: seq<Byte>) {
    && |data| == SizeBefore(fs, |fs|)
    && forall i | 0 <= i < |fs| && fs[i].Data? :: LiesAt(fs[i].payload, data, SizeBefore(fs, i))
  }

  predicate LiesAt(p: seq<Byte>, data: seq<Byte>, k: nat) {
    k + |p| <= |data| && data[k..k + |p|] == p
  }

  lemma LiesBehind(p: seq<Byte>, data: seq<Byte>, k: nat, front: seq<Byte>)
    requires LiesAt(p, data, k)
    ensures LiesAt(p, front + data, |front| + k)
  {
    assert (front + data)[|front| + k..|front| + k + |p|] == data[k..k + |p|];
  }

  lemma LiesFirst(p: seq<Byte>, data: seq<Byte>)
    ensures LiesAt(p, p + data, 0)
  {
  }

  lemma {:induction false} SizeTail(fs: seq<Frame>, i: nat)
    requires 0 < i <= |fs|
    ensures SizeBefore(fs, i) == (if fs[0].Data? then |fs[0].payload| else 0) + SizeBefore(fs[1..], i - 1)
    decreases i
  {
    if i > 1 {
      SizeTail(fs, i - 1);
      assert fs[1..][i - 2] == fs[i - 1];
    }
  }

  lemma {:induction false} PayloadInOrder(fs: seq<Frame>)
    ensures InOrder(fs, PayloadOf(fs))
    decreases |fs|
  {
    hide LiesAt;
    if fs != [] {
      var front, more := if fs[0].Data? then fs[0].payload else [], fs[1..];
      PayloadInOrder(more);
      SizeTail(fs, |fs|);
      forall i: nat | i < |fs| && fs[i].Data?
        ensures LiesAt(fs[i].payload, front + PayloadOf(more), SizeBefore(fs, i))
      {
        if i > 0 {
          SizeTail(fs, i);
          assert more[i - 1] == fs[i];
          LiesBehind(fs[i].payload, PayloadOf(more), SizeBefore(more, i - 1), front);
        } else {
          LiesFirst(front, PayloadOf(more));
        }
      }
    }
  }

  function Pings(fs: seq<Frame>): nat {
    if fs == [] then 0 else (if fs[0].Ping? then 1 else 0) + Pings(fs[1..])
  }

  lemma SmallMark(n: nat)
    requires n < 126
    ensures Size7(n) != 126 && Size7(n) != 127 && Count7(Size7(n)) == n && Size7(n) & 0x7f == Size7(n)
  {
    hide Size7, Count7;
    Marks();
    SmallSize(n);
    SmallSize(126);
    SmallSize(127);
  }

  lemma MarkReadsBack(n: nat, mask: bool)
    ensures Payload(SecondByte(SizeMark(n), mask)) == SizeMark(n) && (Masked(SecondByte(SizeMark(n), mask)) <==> mask)
  {
    HeadFields(0, false, SizeMark(n), mask);
    assert (126 as Byte) & 0x7f == 126 && (127 as Byte) & 0x7f == 127;
    if n < 126 {
      SmallMark(n);
    }
  }

  lemma Word16ReadsBack(v: bv16)
    ensures Word16(Layout16(v, false), false) == v
  {
    LayoutReadsBack(v, 0, 0, false);
  }

  lemma Word64ReadsBack(v: bv64)
    ensures Word64(Layout64(v, false), false) == v
  {
    LayoutReadsBack(0, 0, v, false);
  }

  lemma Length16ReadsBack(n: nat, rest: seq<Byte>)
    requires n < 0x1_0000
    ensures Length16(Layout16(Size16(n), false) + rest) == Some((n, 2))
  {
    hide Size16, Count16, Layout16, Word16;
    Size16ReadsBack(n);
    Word16ReadsBack(Size16(n));
    FrontAndBack(Layout16(Size16(n), false), rest);
  }

  lemma Length64ReadsBack(n: nat, rest: seq<Byte>)
    requires n < 0x1_0000_0000_0000_0000
    ensures Length64(Layout64(Size64(n), false) + rest) == Some((n, 8))
  {
    hide Size64, Count64, Layout64, Word64;
    Size64ReadsBack(n);
    Word64ReadsBack(Size64(n));
    FrontAndBack(Layout64(Size64(n), false), rest);
  }

  lemma LengthReadsBack(n: nat, rest: seq<Byte>)
    requires n < 0x1_0000_0000_0000_0000
    ensures ReadLength(SizeMark(n), SizeBytes(n) + rest) == Some((n, |SizeBytes(n)|))
  {
    hide Size7, Count7, Size16, Size64, Layout16, Layout64, Length16, Length64;
    if n < 126 {
      SmallMark(n);
    } else {
      if n < 65536 {
        Length16ReadsBack(n, rest);
      } else {
        Length64ReadsBack(n, rest);
      }
    }
  }

  lemma PayloadReadsBack(key: Option<seq<Byte>>, payload: seq<Byte>, rest: seq<Byte>, room: int)
    requires key.Some? ==> |key.value| == 4
    requires payload != [] && |payload| < room <= 0x8000_0000
    ensures var body := SizeBytes(|payload|) + (KeyBytes(key) + Toggled(payload, key));
            ReadPayload(SizeMark(|payload|), key.Some?, body + rest, room) == Some((payload, |body|))
  {
    hide Toggled, ReadLength, SizeMark, SizeBytes;
    var s, k, p := SizeBytes(|payload|), KeyBytes(key), Toggled(payload, key);
    var bytes := s + (k + p) + rest;
    assert bytes == s + (k + p + rest);
    LengthReadsBack(|payload|, k + p + rest);
    var tail := k + p + rest;
    assert bytes[|s|..] == tail;
    assert key.Some? ==> tail[..4] == k;
    assert tail[|k|..|k| + |p|] == p;
    ToggledTwice(payload, key);
  }

  predicate AllWellFormed(fs: seq<Frame>) {
    forall i | 0 <= i < |fs| :: WellFormed(fs[i])
  }

  /** One frame of a script, and what is left of it. */
  lemma ScriptTail(fs: seq<Frame>, client: bool)
    requires Script(fs, client)
    ensures |fs| > 0 && WellFormed(fs[0])
    ensures fs[0].Data? ==> IsData(fs[0].opcode) && fs[0].payload != [] && (client || fs[0].key.Some?)
    ensures |fs| == 1 ==> fs[0].Data? && fs[0].fin
    ensures |fs| > 1 ==> Script(fs[1..], client) && (fs[0].Data? ==> !fs[0].fin)
  {
    var more := fs[1..];
    assert forall i | 0 <= i < |more| :: more[i] == fs[i + 1];
  }

  /** One step of receiving. */
  lemma ReceiveStep(bytes: seq<Byte>, client: bool, limit: nat, opcode: Byte, data: seq<Byte>)
    ensures |bytes| < 2 ==> Receive(bytes, client, limit, opcode, data) == CLOSED
    ensures |bytes| >= 2 ==>
      var op, r := Opcode(bytes[0]), Receive(bytes, client, limit, opcode, data);
      && (op == PING ==> r == Later(Receive(bytes[2..], client, limit, opcode, data), 2, 1))
      && (op == PONG || (op != PING && !IsData(op)) ==>
         r == Later(Receive(bytes[2..], client, limit, opcode, data), 2, 0))
      && (IsData(op) && !client && !Masked(bytes[1]) ==> r == CLOSED)
      && (IsData(op) && (client || Masked(bytes[1]))
          && ReadPayload(Payload(bytes[1]), Masked(bytes[1]), bytes[2..], limit - |data|) == None ==>
          r == CLOSED)
  {
    hide ReadPayload, Opcode, Fin, Payload, Masked;
    if |bytes| >= 2 {
      Opcodes(Opcode(bytes[0]));
    }
  }

  lemma ReceiveData(bytes: seq<Byte>, client: bool, limit: nat, opcode: Byte, data: seq<Byte>,
                    payload: seq<Byte>, n: nat)
    requires |bytes| >= 2 && IsData(Opcode(bytes[0])) && (client || Masked(bytes[1]))
    requires ReadPayload(Payload(bytes[1]), Masked(bytes[1]), bytes[2..], limit - |data|) == Some((payload, n))
    ensures 2 + n <= |bytes|
    ensures Receive(bytes, client, limit, opcode, data) ==
            var opcode' := FirstOpcode(opcode, Opcode(bytes[0]));
            if Fin(bytes[0]) then Outcome(Some(Message(opcode', data + payload)), 2 + n, 0)
            else Later(Receive(bytes[2..][n..], client, limit, opcode', data + payload), 2 + n, 0)
  {
    hide ReadPayload, Opcode, Fin, Payload, Masked;
    Opcodes(Opcode(bytes[0]));
  }

  /** Receiving a data frame that is at the front. */
  lemma DataReceived(f: Frame, rest: seq<Byte>, client: bool, limit: nat, opcode: Byte, data: seq<Byte>)
    requires f.Data? && WellFormed(f) && IsData(f.opcode) && f.payload != [] && (client || f.key.Some?)
    requires |data| + |f.payload| < limit <= 0x8000_0000
    ensures Receive(Wire(f) + rest, client, limit, opcode, data) ==
            var opcode', n := FirstOpcode(opcode, f.opcode), |Wire(f)|;
            if f.fin then Outcome(Some(Message(opcode', data + f.payload)), n, 0)
            else Later(Receive(rest, client, limit, opcode', data + f.payload), n, 0)
  {
    hide Toggled, SizeMark, SizeBytes, FirstByte, SecondByte, Opcode, Fin, Payload, Masked, ReadPayload, Receive,
         IsData, FirstOpcode;
    Opcodes(f.opcode);
    HeadFields(f.opcode, f.fin, 0, false);
    MarkReadsBack(|f.payload|, f.key.Some?);
    PayloadReadsBack(f.key, f.payload, rest, limit - |data|);
    var body := SizeBytes(|f.payload|) + (KeyBytes(f.key) + Toggled(f.payload, f.key));
    var bytes := Wire(f) + rest;
    assert bytes[2..] == body + rest;
    assert bytes[2..][|body|..] == rest;
    ReceiveData(bytes, client, limit, opcode, data, f.payload, |body|);
  }

  lemma ControlReceived(f: Frame, rest: seq<Byte>, client: bool, limit: nat, opcode: Byte, data: seq<Byte>)
    requires !f.Data?
    ensures |Wire(f)| == 2
    ensures Receive(Wire(f) + rest, client, limit, opcode, data) ==
            Later(Receive(rest, client, limit, opcode, data), 2, if f.Ping? then 1 else 0)
  {
    hide FirstByte, SecondByte, Opcode;
    Opcodes(0);
    HeadFields(PING, true, 0, false);
    HeadFields(PONG, true, 0, false);
    assert (Wire(f) + rest)[2..] == rest;
  }

  /**
   Sending and receiving is the identity: any message below the limit, in any fragments, with any keys and
   any control frames in between, is received whole, with the opcode of its first fragment that has one; the
   receiver stops right behind it and has answered each ping.
   */
  lemma {:induction false} ScriptReceived(fs: seq<Frame>, rest: seq<Byte>, client: bool, limit: nat,
                                          opcode: Byte, data: seq<Byte>)
    requires Script(fs, client) && |data| + |PayloadOf(fs)| < limit <= 0x8000_0000
    ensures Receive(WireAll(fs) + rest, client, limit, opcode, data) ==
            Outcome(Some(Message(OpcodeOf(fs, opcode), data + PayloadOf(fs))), |WireAll(fs)|, Pings(fs))
    ensures if opcode == 0 then NamedBy(fs, OpcodeOf(fs, opcode)) else OpcodeOf(fs, opcode) == opcode
    ensures InOrder(fs, PayloadOf(fs))
    decreases |fs|
  {
    OpcodeIsNamed(fs, opcode);
    PayloadInOrder(fs);
    hide Receive, Wire, IsData, Script, NamedBy, InOrder;
    ScriptTail(fs, client);
    var f, more := fs[0], fs[1..];
    assert AllWellFormed(fs) by {
      ScriptWellFormed(fs, client);
    }
    var tail := WireAll(more) + rest;
    assert WireAll(fs) + rest == Wire(f) + tail;
    if f.Data? {
      DataReceived(f, tail, client, limit, opcode, data);
      assert data + PayloadOf(fs) == (data + f.payload) + PayloadOf(more);
    } else {
      ControlReceived(f, tail, client, limit, opcode, data);
      assert PayloadOf(fs) == PayloadOf(more);
    }
    if |fs| > 1 {
      ScriptReceived(more, rest, client, limit,
                     if f.Data? then FirstOpcode(opcode, f.opcode) else opcode,
                     if f.Data? then data + f.payload else data);
    } else {
      assert more == [] && PayloadOf(fs) == f.payload && WireAll(fs) == Wire(f);
    }
  }

  lemma ScriptWellFormed(fs: seq<Frame>, client: bool)
    requires Script(fs, client)
    ensures AllWellFormed(fs)
  {
  }
}
