/**
 The encodings of numbers in a byte array: zigzag, varints, fixed widths in either byte order. Machine
 integers are bit vectors, so shifts and sums drop bits as they do in C++.
 */
module Codecs {
  import opened Options
  import opened Flat

  // ---------------------------------------------------------------- zigzag

  function Twice32(v: bv32): bv32 {
    v * 2
  }

  function Twice64(v: bv64): bv64 {
    v * 2
  }

  function EncodeZigzag32(v: bv32): bv32 {
    if v >= 0x8000_0000 then Twice32(0 - v) - 1 else Twice32(v)
  }

  function DecodeZigzag32(u: bv32): bv32 {
    (u >> 1) ^ (0 - (u & 1))
  }

  function EncodeZigzag64(v: bv64): bv64 {
    if v >= 0x8000_0000_0000_0000 then Twice64(0 - v) - 1 else Twice64(v)
  }

  function DecodeZigzag64(u: bv64): bv64 {
    (u >> 1) ^ (0 - (u & 1))
  }

  lemma TwiceIsShift32(v: bv32)
    ensures Twice32(v) == v << 1
  {
  }

  lemma TwiceIsShift64(v: bv64)
    ensures Twice64(v) == v << 1
  {
  }

  lemma Shifted32(v: bv32)
    ensures v >= 0x8000_0000 ==> DecodeZigzag32(((0 - v) << 1) - 1) == v
    ensures v < 0x8000_0000 ==> DecodeZigzag32(v << 1) == v
  {
  }

  lemma Shifted64(v: bv64)
    ensures v >= 0x8000_0000_0000_0000 ==> DecodeZigzag64(((0 - v) << 1) - 1) == v
    ensures v < 0x8000_0000_0000_0000 ==> DecodeZigzag64(v << 1) == v
  {
  }

  lemma Unshifted32(u: bv32)
    ensures u & 1 == 1 ==> DecodeZigzag32(u) >= 0x8000_0000 && ((0 - DecodeZigzag32(u)) << 1) - 1 == u
    ensures u & 1 == 0 ==> DecodeZigzag32(u) < 0x8000_0000 && DecodeZigzag32(u) << 1 == u
    ensures u & 1 == 0 || u & 1 == 1
  {
  }

  lemma Unshifted64(u: bv64)
    ensures u & 1 == 1 ==> DecodeZigzag64(u) >= 0x8000_0000_0000_0000 && ((0 - DecodeZigzag64(u)) << 1) - 1 == u
    ensures u & 1 == 0 ==> DecodeZigzag64(u) < 0x8000_0000_0000_0000 && DecodeZigzag64(u) << 1 == u
    ensures u & 1 == 0 || u & 1 == 1
  {
  }

  lemma EncodeNegative32(v: bv32)
    requires v >= 0x8000_0000
    ensures EncodeZigzag32(v) == ((0 - v) << 1) - 1
  {
    hide Twice32;
    TwiceIsShift32(0 - v);
  }

  lemma EncodePositive32(v: bv32)
    requires v < 0x8000_0000
    ensures EncodeZigzag32(v) == v << 1
  {
    hide Twice32;
    TwiceIsShift32(v);
  }

  lemma Decoded32(v: bv32)
    ensures DecodeZigzag32(EncodeZigzag32(v)) == v
  {
    hide EncodeZigzag32, DecodeZigzag32;
    Shifted32(v);
    if v >= 0x8000_0000 {
      EncodeNegative32(v);
    } else {
      EncodePositive32(v);
    }
  }

  lemma Encoded32(u: bv32)
    ensures EncodeZigzag32(DecodeZigzag32(u)) == u
  {
    hide EncodeZigzag32, DecodeZigzag32;
    Unshifted32(u);
    if u & 1 == 1 {
      EncodeNegative32(DecodeZigzag32(u));
    } else {
      EncodePositive32(DecodeZigzag32(u));
    }
  }

  lemma EncodeNegative64(v: bv64)
    requires v >= 0x8000_0000_0000_0000
    ensures EncodeZigzag64(v) == ((0 - v) << 1) - 1
  {
    hide Twice64;
    TwiceIsShift64(0 - v);
  }

  lemma EncodePositive64(v: bv64)
    requires v < 0x8000_0000_0000_0000
    ensures EncodeZigzag64(v) == v << 1
  {
    hide Twice64;
    TwiceIsShift64(v);
  }

  lemma Decoded64(v: bv64)
    ensures DecodeZigzag64(EncodeZigzag64(v)) == v
  {
    hide EncodeZigzag64, DecodeZigzag64;
    Shifted64(v);
    if v >= 0x8000_0000_0000_0000 {
      EncodeNegative64(v);
    } else {
      EncodePositive64(v);
    }
  }

  lemma Encoded64(u: bv64)
    ensures EncodeZigzag64(DecodeZigzag64(u)) == u
  {
    hide EncodeZigzag64, DecodeZigzag64;
    Unshifted64(u);
    if u & 1 == 1 {
      EncodeNegative64(DecodeZigzag64(u));
    } else {
      EncodePositive64(DecodeZigzag64(u));
    }
  }

  /** Zigzag is a bijection, the most negative number included. */
  lemma Zigzag(v: bv32, w: bv64)
    ensures DecodeZigzag32(EncodeZigzag32(v)) == v && EncodeZigzag32(DecodeZigzag32(v)) == v
    ensures DecodeZigzag64(EncodeZigzag64(w)) == w && EncodeZigzag64(DecodeZigzag64(w)) == w
  {
    hide EncodeZigzag32, DecodeZigzag32, EncodeZigzag64, DecodeZigzag64;
    Decoded32(v);
    Encoded32(v);
    Decoded64(w);
    Encoded64(w);
  }

  // ---------------------------------------------------------------- varints

  predicate Small32(v: bv32) { v < 0x80 }

  predicate Small64(v: bv64) { v < 0x80 }

  predicate Last(b: Byte) { b < 0x80 }

  /** One group of seven bits, as the byte written for it when more follow, and when it is the last. */
  function More32(v: bv32): Byte { ((v & 0x7f) | 0x80) as Byte }

  function More64(v: bv64): Byte { ((v & 0x7f) | 0x80) as Byte }

  function Final32(v: bv32): Byte
    requires Small32(v)
  {
    v as Byte
  }

  function Final64(v: bv64): Byte
    requires Small64(v)
  {
    v as Byte
  }

  function Low32(b: Byte): bv32 { (b & 0x7f) as bv32 }

  function Low64(b: Byte): bv64 { (b & 0x7f) as bv64 }

  function Rest32(v: bv32): (r: bv32)
    ensures !Small32(v) ==> r < v
  {
    v >> 7
  }

  function Rest64(v: bv64): (r: bv64)
    ensures !Small64(v) ==> r < v
  {
    v >> 7
  }

  function Left32(v: bv32): bv32 { v << 7 }

  function Left64(v: bv64): bv64 { v << 7 }

  function Or32(a: bv32, b: bv32): bv32 { a | b }

  function Or64(a: bv64, b: bv64): bv64 { a | b }

  function Varint32(v: bv32): seq<Byte>
    decreases v
  {
    if Small32(v) then [Final32(v)] else [More32(v)] + Varint32(Rest32(v))
  }

  function Varint64(v: bv64): seq<Byte>
    decreases v
  {
    if Small64(v) then [Final64(v)] else [More64(v)] + Varint64(Rest64(v))
  }

  /** `v` moved up by `g` groups. */
  function Up32(v: bv32, g: nat): bv32
    decreases g
  {
    if g == 0 then v else Up32(Left32(v), g - 1)
  }

  function Up64(v: bv64, g: nat): bv64
    decreases g
  {
    if g == 0 then v else Up64(Left64(v), g - 1)
  }

  function ShiftBy32(v: bv32, i: bv32): bv32
    requires i < 32
  {
    v << i
  }

  /** The shift of group `g`. */
  function Shift32(g: nat): bv32 {
    if g == 0 then 0 else Shift32(g - 1) + 7
  }

  predicate Counter32(i: bv32) {
    i == 0 || i == 7 || i == 14 || i == 21
  }

  lemma Shifts32(g: nat)
    requires g < 5
    ensures Shift32(g) < 32 && Shift32(5) >= 32 && (g > 0 ==> Counter32(Shift32(g - 1)))
  {
    assert Shift32(1) == 7;
    assert Shift32(2) == 14;
    assert Shift32(3) == 21;
    assert Shift32(4) == 28;
    assert Shift32(5) == 35;
  }

  lemma ShiftTwice32(v: bv32, i: bv32)
    requires Counter32(i)
    ensures i < 25 && ShiftBy32(v, i + 7) == ShiftBy32(Left32(v), i)
  {
    if i == 0 {
      assert v << 7 == (v << 7) << 0;
    } else if i == 7 {
      assert v << 14 == (v << 7) << 7;
    } else if i == 14 {
      assert v << 21 == (v << 7) << 14;
    } else if i == 21 {
      assert v << 28 == (v << 7) << 21;
    }
  }

  lemma NoShift32(v: bv32)
    ensures ShiftBy32(v, 0) == v
  {
  }

  /** The counter tells whether there is another group, and steps to the next. */
  lemma NextShift32(g: nat)
    requires g <= 5
    ensures Shift32(0) == 0 && (Shift32(g) < 32 <==> g < 5) && Shift32(g + 1) == Shift32(g) + 7
  {
    Shifts32(if g < 5 then g else 0);
  }

  /** Shifting by the loop's counter moves a group to its place. */
  lemma {:induction false} ShiftIsUp32(v: bv32, g: nat)
    requires g < 5
    ensures Shift32(g) < 32 && ShiftBy32(v, Shift32(g)) == Up32(v, g)
    decreases g
  {
    hide ShiftBy32, Left32, Counter32;
    Shifts32(g);
    if g > 0 {
      ShiftTwice32(v, Shift32(g - 1));
      ShiftIsUp32(Left32(v), g - 1);
    } else {
      NoShift32(v);
    }
  }

  function ShiftBy64(v: bv64, i: bv64): bv64
    requires i < 64
  {
    v << i
  }

  /** The shift of group `g`. */
  function Shift64(g: nat): bv64 {
    if g == 0 then 0 else Shift64(g - 1) + 7
  }

  predicate Counter64(i: bv64) {
    i == 0 || i == 7 || i == 14 || i == 21 || i == 28 || i == 35 || i == 42 || i == 49 || i == 56
  }

  lemma Shifts64(g: nat)
    requires g < 10
    ensures Shift64(g) < 64 && Shift64(10) >= 64 && (g > 0 ==> Counter64(Shift64(g - 1)))
  {
    assert Shift64(1) == 7;
    assert Shift64(2) == 14;
    assert Shift64(3) == 21;
    assert Shift64(4) == 28;
    assert Shift64(5) == 35;
    assert Shift64(6) == 42;
    assert Shift64(7) == 49;
    assert Shift64(8) == 56;
    assert Shift64(9) == 63;
    assert Shift64(10) == 70;
  }

  lemma ShiftTwice64(v: bv64, i: bv64)
    requires Counter64(i)
    ensures i < 57 && ShiftBy64(v, i + 7) == ShiftBy64(Left64(v), i)
  {
    if i == 0 {
      assert v << 7 == (v << 7) << 0;
    } else if i == 7 {
      assert v << 14 == (v << 7) << 7;
    } else if i == 14 {
      assert v << 21 == (v << 7) << 14;
    } else if i == 21 {
      assert v << 28 == (v << 7) << 21;
    } else if i == 28 {
      assert v << 35 == (v << 7) << 28;
    } else if i == 35 {
      assert v << 42 == (v << 7) << 35;
    } else if i == 42 {
      assert v << 49 == (v << 7) << 42;
    } else if i == 49 {
      assert v << 56 == (v << 7) << 49;
    } else if i == 56 {
      assert v << 63 == (v << 7) << 56;
    }
  }

  lemma NoShift64(v: bv64)
    ensures ShiftBy64(v, 0) == v
  {
  }

  /** The counter tells whether there is another group, and steps to the next. */
  lemma NextShift64(g: nat)
    requires g <= 10
    ensures Shift64(0) == 0 && (Shift64(g) < 64 <==> g < 10) && Shift64(g + 1) == Shift64(g) + 7
  {
    Shifts64(if g < 10 then g else 0);
  }

  /** Shifting by the loop's counter moves a group to its place. */
  lemma {:induction false} ShiftIsUp64(v: bv64, g: nat)
    requires g < 10
    ensures Shift64(g) < 64 && ShiftBy64(v, Shift64(g)) == Up64(v, g)
    decreases g
  {
    hide ShiftBy64, Left64, Counter64;
    Shifts64(g);
    if g > 0 {
      ShiftTwice64(v, Shift64(g - 1));
      ShiftIsUp64(Left64(v), g - 1);
    } else {
      NoShift64(v);
    }
  }

  /** What reading makes of `bytes` from group `g` on, with `acc` so far: the value and the end of its bytes. */
  function UnVarint32(bytes: seq<Byte>, g: nat, acc: bv32): (r: Option<(bv32, nat)>)
    requires g <= |bytes|
    ensures r.Some? ==> g <= r.value.1 <= |bytes|
    decreases |bytes| - g
  {
    if g >= 5 then Some((acc, g))
    else if g == |bytes| then None
    else
      var acc' := Or32(acc, Up32(Low32(bytes[g]), g));
      if Last(bytes[g]) then Some((acc', g + 1)) else UnVarint32(bytes, g + 1, acc')
  }

  function UnVarint64(bytes: seq<Byte>, g: nat, acc: bv64): (r: Option<(bv64, nat)>)
    requires g <= |bytes|
    ensures r.Some? ==> g <= r.value.1 <= |bytes|
    decreases |bytes| - g
  {
    if g >= 10 then Some((acc, g))
    else if g == |bytes| then None
    else
      var acc' := Or64(acc, Up64(Low64(bytes[g]), g));
      if Last(bytes[g]) then Some((acc', g + 1)) else UnVarint64(bytes, g + 1, acc')
  }

  /** The byte of a group gives the group back, and the groups the number. */
  lemma Group32(w: bv32)
    ensures Small32(w) ==> Last(Final32(w)) && Low32(Final32(w)) == w
    ensures !Last(More32(w)) && Or32(Low32(More32(w)), Left32(Rest32(w))) == w
  {
    Bits32(w);
  }

  lemma Bits32(w: bv32)
    ensures w < 0x80 ==> (w as Byte) < 0x80 && ((w as Byte) & 0x7f) as bv32 == w
    ensures var b := ((w & 0x7f) | 0x80) as Byte; b >= 0x80 && (b & 0x7f) as bv32 == w & 0x7f
    ensures (w & 0x7f) | ((w >> 7) << 7) == w
  {
  }

  lemma Group64(w: bv64)
    ensures Small64(w) ==> Last(Final64(w)) && Low64(Final64(w)) == w
    ensures !Last(More64(w)) && Or64(Low64(More64(w)), Left64(Rest64(w))) == w
  {
    Bits64(w);
  }

  lemma Bits64(w: bv64)
    ensures w < 0x80 ==> (w as Byte) < 0x80 && ((w as Byte) & 0x7f) as bv64 == w
    ensures var b := ((w & 0x7f) | 0x80) as Byte; b >= 0x80 && (b & 0x7f) as bv64 == w & 0x7f
    ensures (w & 0x7f) | ((w >> 7) << 7) == w
  {
  }

  lemma LeftOr32(a: bv32, b: bv32)
    ensures Left32(Or32(a, b)) == Or32(Left32(a), Left32(b))
  {
  }

  lemma LeftOr64(a: bv64, b: bv64)
    ensures Left64(Or64(a, b)) == Or64(Left64(a), Left64(b))
  {
  }

  lemma OrAssoc32(a: bv32, b: bv32, c: bv32)
    ensures Or32(Or32(a, b), c) == Or32(a, Or32(b, c)) && Or32(0, c) == c
  {
  }

  lemma OrAssoc64(a: bv64, b: bv64, c: bv64)
    ensures Or64(Or64(a, b), c) == Or64(a, Or64(b, c)) && Or64(0, c) == c
  {
  }

  lemma {:induction false} UpOr32(a: bv32, b: bv32, g: nat)
    ensures Up32(Or32(a, b), g) == Or32(Up32(a, g), Up32(b, g))
    decreases g
  {
    hide Left32, Or32;
    if g > 0 {
      LeftOr32(a, b);
      UpOr32(Left32(a), Left32(b), g - 1);
    }
  }

  lemma {:induction false} UpOr64(a: bv64, b: bv64, g: nat)
    ensures Up64(Or64(a, b), g) == Or64(Up64(a, g), Up64(b, g))
    decreases g
  {
    hide Left64, Or64;
    if g > 0 {
      LeftOr64(a, b);
      UpOr64(Left64(a), Left64(b), g - 1);
    }
  }

  /** Reading back the groups of `w`, the first of which is group `g`. */
  lemma {:induction false} VarintGroups32(w: bv32, g: nat, acc: bv32, bytes: seq<Byte>)
    requires g + |Varint32(w)| <= 5 && g <= |bytes| && Varint32(w) <= bytes[g..]
    ensures UnVarint32(bytes, g, acc) == Some((Or32(acc, Up32(w, g)), g + |Varint32(w)|))
    decreases 5 - g
  {
    hide Small32, Last, More32, Final32, Low32, Rest32, Left32, Or32;
    Group32(w);
    assert Varint32(w)[0] == bytes[g];
    if !Small32(w) {
      var low, rest := Low32(More32(w)), Rest32(w);
      assert bytes[g + 1..] == bytes[g..][1..] && Varint32(rest) == Varint32(w)[1..];
      VarintGroups32(rest, g + 1, Or32(acc, Up32(low, g)), bytes);
      UpOr32(low, Left32(rest), g);
      OrAssoc32(acc, Up32(low, g), Up32(rest, g + 1));
    }
  }

  lemma {:induction false} VarintGroups64(w: bv64, g: nat, acc: bv64, bytes: seq<Byte>)
    requires g + |Varint64(w)| <= 10 && g <= |bytes| && Varint64(w) <= bytes[g..]
    ensures UnVarint64(bytes, g, acc) == Some((Or64(acc, Up64(w, g)), g + |Varint64(w)|))
    decreases 10 - g
  {
    hide Small64, Last, More64, Final64, Low64, Rest64, Left64, Or64;
    Group64(w);
    assert Varint64(w)[0] == bytes[g];
    if !Small64(w) {
      var low, rest := Low64(More64(w)), Rest64(w);
      assert bytes[g + 1..] == bytes[g..][1..] && Varint64(rest) == Varint64(w)[1..];
      VarintGroups64(rest, g + 1, Or64(acc, Up64(low, g)), bytes);
      UpOr64(low, Left64(rest), g);
      OrAssoc64(acc, Up64(low, g), Up64(rest, g + 1));
    }
  }

  /** `v` with `n` groups dropped. */
  function Down32(v: bv32, n: nat): bv32
    decreases n
  {
    if n == 0 then v else Down32(Rest32(v), n - 1)
  }

  function Down64(v: bv64, n: nat): bv64
    decreases n
  {
    if n == 0 then v else Down64(Rest64(v), n - 1)
  }

  lemma {:induction false} VarintLength32(v: bv32, n: nat)
    requires Small32(Down32(v, n))
    ensures 1 <= |Varint32(v)| <= n + 1
    decreases n
  {
    hide Small32, More32, Final32, Rest32;
    if !Small32(v) {
      VarintLength32(Rest32(v), n - 1);
    }
  }

  lemma {:induction false} VarintLength64(v: bv64, n: nat)
    requires Small64(Down64(v, n))
    ensures 1 <= |Varint64(v)| <= n + 1
    decreases n
  {
    hide Small64, More64, Final64, Rest64;
    if !Small64(v) {
      VarintLength64(Rest64(v), n - 1);
    }
  }

  lemma Top32(v: bv32)
    ensures Small32((((v >> 7) >> 7) >> 7) >> 7)
  {
  }

  lemma Top64(v: bv64)
    ensures Small64(((((((((v >> 7) >> 7) >> 7) >> 7) >> 7) >> 7) >> 7) >> 7) >> 7)
  {
  }

  /** One to five bytes, and whatever follows them, they read back as `v`. */
  lemma VarintRoundTrip32(v: bv32, rest: seq<Byte>)
    ensures 1 <= |Varint32(v)| <= 5
    ensures UnVarint32(Varint32(v) + rest, 0, 0) == Some((v, |Varint32(v)|))
  {
    Top32(v);
    assert Down32(v, 4) == (((v >> 7) >> 7) >> 7) >> 7;
    VarintLength32(v, 4);
    assert (Varint32(v) + rest)[0..] == Varint32(v) + rest;
    VarintGroups32(v, 0, 0, Varint32(v) + rest);
    OrAssoc32(0, 0, v);
  }

  /** The first group, and how many there are. */
  lemma VarintStep32(v: bv32)
    ensures Varint32(v) == if Small32(v) then [Final32(v)] else [More32(v)] + Varint32(Rest32(v))
    ensures 1 <= |Varint32(v)| <= 5 && (!Small32(v) ==> |Varint32(Rest32(v))| == |Varint32(v)| - 1 >= 1)
  {
    hide Small32, More32, Final32, Rest32, UnVarint32;
    VarintRoundTrip32(v, []);
    VarintRoundTrip32(Rest32(v), []);
  }

  /** One to ten bytes for 64 bits. */
  lemma VarintRoundTrip64(v: bv64, rest: seq<Byte>)
    ensures 1 <= |Varint64(v)| <= 10
    ensures UnVarint64(Varint64(v) + rest, 0, 0) == Some((v, |Varint64(v)|))
  {
    Top64(v);
    assert Down64(v, 9) == Down64(((((((((v >> 7) >> 7) >> 7) >> 7) >> 7) >> 7) >> 7) >> 7), 1);
    VarintLength64(v, 9);
    assert (Varint64(v) + rest)[0..] == Varint64(v) + rest;
    VarintGroups64(v, 0, 0, Varint64(v) + rest);
    OrAssoc64(0, 0, v);
  }

  /** The first group, and how many there are. */
  lemma VarintStep64(v: bv64)
    ensures Varint64(v) == if Small64(v) then [Final64(v)] else [More64(v)] + Varint64(Rest64(v))
    ensures 1 <= |Varint64(v)| <= 10 && (!Small64(v) ==> |Varint64(Rest64(v))| == |Varint64(v)| - 1 >= 1)
  {
    hide Small64, More64, Final64, Rest64, UnVarint64;
    VarintRoundTrip64(v, []);
    VarintRoundTrip64(Rest64(v), []);
  }
}
