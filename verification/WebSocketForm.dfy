/**
 The form of WebSocket frames in numbers (section 5.2 of RFC 6455): bits and sizes of the head, the order of the
 bytes of a size, the masking.
 */
module WebSocketForms {
  import opened Options
  import opened Flat
  import opened Words
  import opened Items
  import opened ItemNumbers
  import opened WebSocketWire

  lemma ControlBytes()
    ensures forall op: Byte :: IsData(op) <==> op as int == 0 || op as int == 1 || op as int == 2
    ensures Wire(Ping) == [137, 0] && Wire(Pong) == [138, 0]
  {
  }

  lemma FirstByteIs(opcode: Byte, fin: bool)
    requires opcode as int < 16
    ensures FirstByte(opcode, fin) as int == opcode as int + if fin then 128 else 0
  {
  }

  lemma SecondByteIs(mark: Byte, mask: bool)
    requires mark as int < 128
    ensures SecondByte(mark, mask) as int == mark as int + if mask then 128 else 0
  {
  }

  lemma SmallMarkIs(n: nat)
    requires n < 126
    ensures Size7(n) as int == n
  {
    hide Size7, Count7, Number;
    SmallSize(n);
    IsSmall(Size7(n));
    Count7Is(Size7(n));
  }

  lemma IsSmall(b: Byte)
    ensures b & 0x7f == b ==> b as int < 128
  {
  }

  lemma Count7Is(b: Byte)
    requires b as int < 128
    ensures Count7(b) == b as int
  {
    assert Pow2(7) == 128;
    ByteBits(b, 7);
  }

  /** What the seven bits of the head say of a payload of `n` bytes. */
  lemma SizeMarkIs(n: nat)
    ensures SizeMark(n) as int == if n < 126 then n else if n < 65536 then 126 else 127
  {
    hide Size7;
    if n < 126 {
      SmallMarkIs(n);
    }
  }

  function Extended(n: nat): nat {
    if n < 126 then 0 else if n < 65536 then 2 else 8
  }

  /** Where the size is extended it is in network byte order. */
  lemma SizeBytesAre(n: nat)
    requires n < 0x1_0000_0000_0000_0000
    ensures |SizeBytes(n)| == Extended(n) && IsNumber(SizeBytes(n), Extended(n), n, false)
  {
    hide Layout16, Layout64, Size16, Size64, IsNumber, Number;
    if n < 126 {
      NoBytes(n);
    } else if n < 65536 {
      Size16ReadsBack(n);
      LayoutIsNumber(Size16(n), 0, 0, false);
    } else {
      Size64ReadsBack(n);
      LayoutIsNumber(0, 0, Size64(n), false);
    }
  }

  lemma NoBytes(n: nat)
    ensures IsNumber([], 0, n, false)
  {
  }

  /** A frame as it is on the wire. */
  lemma FrameBytes(f: Frame)
    requires f.Data? && WellFormed(f) && f.opcode as int < 16 && |f.payload| < 0x1_0000_0000_0000_0000
    ensures var n, e := |f.payload|, if |f.payload| < 126 then 0 else if |f.payload| < 65536 then 2 else 8;
            exists head, size, key, data ::
              && Wire(f) == head + (size + (key + data)) && |head| == 2 && |data| == n
              && head[0] as int == f.opcode as int + (if f.fin then 128 else 0)
              && head[1] as int ==
                 (if n < 126 then n else if n < 65536 then 126 else 127) + (if f.key.Some? then 128 else 0)
              && IsNumber(size, e, n, false)
              && key == (if f.key.Some? then f.key.value else [])
              && forall i | 0 <= i < n ::
                   data[i] == if f.key.Some? then f.payload[i] ^ f.key.value[i % 4] else f.payload[i]
  {
    hide FirstByte, SecondByte, SizeMark, SizeBytes, IsNumber;
    FirstByteIs(f.opcode, f.fin);
    SizeMarkIs(|f.payload|);
    SecondByteIs(SizeMark(|f.payload|), f.key.Some?);
    SizeBytesAre(|f.payload|);
    var head := HeadBytes(f.opcode, f.fin, SizeMark(|f.payload|), f.key.Some?);
    var size, key, data := SizeBytes(|f.payload|), KeyBytes(f.key), Toggled(f.payload, f.key);
    assert Wire(f) == head + (size + (key + data));
  }
}
