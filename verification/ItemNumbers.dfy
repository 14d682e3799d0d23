/**
 What the bytes of typed values stand for as numbers: the order of bytes, the groups of varints, zigzag and the
 lengths of strings, each said in arithmetic.
 */
module ItemNumbers {
  import opened Flat
  import opened Words
  import opened Codecs
  import opened Items

  // ---------------------------------------------------------------- fixed widths

  function Value16(v: bv16): nat { Number(v as bv64, 16) }

  function Value32(v: bv32): nat { Number(v as bv64, 32) }

  function Value64(v: bv64): nat { Number(v, 64) }

  lemma Lowest(a: nat, rest: nat)
    requires a < 256
    ensures (a + 256 * rest) % 256 == a && (a + 256 * rest) / 256 == rest
    ensures ByteAt(a + 256 * rest, 0) == a
    ensures forall i: nat :: ByteAt(a + 256 * rest, i + 1) == ByteAt(rest, i)
  {
    forall i: nat ensures ByteAt(a + 256 * rest, i + 1) == ByteAt(rest, i) {
    }
  }

  function Part(v: bv64): (n: nat)
    ensures n < 256
  {
    Low(v) as int
  }

  lemma Splits(v: bv64, k: nat)
    ensures Number(v, k + 8) == Part(v) + 256 * Number(Shifted(v), k)
  {
    LowByte(v, k);
  }

  /** What is left of a word without its lowest bytes. */
  function Behind(v: bv64, i: nat): bv64
    decreases i
  {
    if i == 0 then v else Behind(Shifted(v), i - 1)
  }

  lemma {:induction false} PartsOfNumber(v: bv64, w: nat, i: nat)
    requires i < w
    ensures ByteAt(Number(v, 8 * w), i) == Part(Behind(v, i))
    decreases i
  {
    hide Number, Part, Shifted;
    Splits(v, 8 * (w - 1));
    Lowest(Part(v), Number(Shifted(v), 8 * (w - 1)));
    if i > 0 {
      PartsOfNumber(Shifted(v), w - 1, i - 1);
    }
  }

  lemma Behinds(v: bv64)
    ensures Behind(v, 0) == v && Behind(v, 1) == v >> 8 && Behind(v, 2) == v >> 16 && Behind(v, 3) == v >> 24
    ensures Behind(v, 4) == v >> 32 && Behind(v, 5) == v >> 40 && Behind(v, 6) == v >> 48 && Behind(v, 7) == v >> 56
  {
    assert Shifted(v >> 8) == v >> 16 && Shifted(v >> 16) == v >> 24 && Shifted(v >> 24) == v >> 32;
    assert Shifted(v >> 32) == v >> 40 && Shifted(v >> 40) == v >> 48 && Shifted(v >> 48) == v >> 56;
  }

  function PartAt(v: bv64, i: nat): Byte {
    Low(Behind(v, i))
  }

  lemma Layout16Parts(v: bv16)
    ensures Layout16(v, true) == [PartAt(v as bv64, 0), PartAt(v as bv64, 1)]
    ensures Layout16(v, false) == [PartAt(v as bv64, 1), PartAt(v as bv64, 0)]
  {
    hide Behind;
    Behinds(v as bv64);
    Widened16(v);
  }

  lemma Widened16(v: bv16)
    ensures var x := v as bv64; Low(x) == (v & 0xff) as Byte && Low(x >> 8) == ((v >> 8) & 0xff) as Byte
  {
  }

  lemma Layout32Parts(v: bv32)
    ensures var x := v as bv64; Layout32(v, true) == [PartAt(x, 0), PartAt(x, 1), PartAt(x, 2), PartAt(x, 3)]
    ensures var x := v as bv64; Layout32(v, false) == [PartAt(x, 3), PartAt(x, 2), PartAt(x, 1), PartAt(x, 0)]
  {
    hide Behind;
    Behinds(v as bv64);
    Widened32(v);
  }

  lemma Widened32(v: bv32)
    ensures var x := v as bv64;
            && Low(x) == (v & 0xff) as Byte && Low(x >> 8) == ((v >> 8) & 0xff) as Byte
            && Low(x >> 16) == ((v >> 16) & 0xff) as Byte && Low(x >> 24) == ((v >> 24) & 0xff) as Byte
  {
  }

  lemma Layout64Parts(v: bv64)
    ensures Layout64(v, true) == [PartAt(v, 0), PartAt(v, 1), PartAt(v, 2), PartAt(v, 3),
                                PartAt(v, 4), PartAt(v, 5), PartAt(v, 6), PartAt(v, 7)]
    ensures Layout64(v, false) == [PartAt(v, 7), PartAt(v, 6), PartAt(v, 5), PartAt(v, 4),
                                 PartAt(v, 3), PartAt(v, 2), PartAt(v, 1), PartAt(v, 0)]
  {
    hide Behind;
    Behinds(v);
  }

  lemma ByteIsPart(v: bv64, w: nat, i: nat)
    requires i < w
    ensures PartAt(v, i) as int == ByteAt(Number(v, 8 * w), i)
  {
    hide Low, Number, ByteAt, Behind;
    PartsOfNumber(v, w, i);
  }

  lemma Layout16At(v: bv16, i: nat)
    requires i < 2
    ensures Layout16(v, true)[i] == PartAt(v as bv64, i) && Layout16(v, false)[1 - i] == PartAt(v as bv64, i)
  {
    hide Layout16, PartAt;
    Layout16Parts(v);
  }

  lemma Layout32At(v: bv32, i: nat)
    requires i < 4
    ensures Layout32(v, true)[i] == PartAt(v as bv64, i) && Layout32(v, false)[3 - i] == PartAt(v as bv64, i)
  {
    hide Layout32, PartAt;
    Layout32Parts(v);
  }

  lemma Layout64At(v: bv64, i: nat)
    requires i < 8
    ensures Layout64(v, true)[i] == PartAt(v, i) && Layout64(v, false)[7 - i] == PartAt(v, i)
  {
    hide Layout64, PartAt;
    Layout64Parts(v);
  }

  /** The bytes of a word are those of its number, from the lowest or from the highest. */
  lemma LayoutBytes16(v: bv16, little: bool, i: nat)
    requires i < 2
    ensures Layout16(v, little)[i] as int == ByteAt(Value16(v), if little then i else 1 - i)
  {
    hide Layout16, PartAt, Number, ByteAt;
    var j := if little then i else 1 - i;
    Layout16At(v, j);
    ByteIsPart(v as bv64, 2, j);
  }

  lemma LayoutBytes32(v: bv32, little: bool, i: nat)
    requires i < 4
    ensures Layout32(v, little)[i] as int == ByteAt(Value32(v), if little then i else 3 - i)
  {
    hide Layout32, PartAt, Number, ByteAt;
    var j := if little then i else 3 - i;
    Layout32At(v, j);
    ByteIsPart(v as bv64, 4, j);
  }

  lemma LayoutBytes64(v: bv64, little: bool, i: nat)
    requires i < 8
    ensures Layout64(v, little)[i] as int == ByteAt(Value64(v), if little then i else 7 - i)
  {
    hide Layout64, PartAt, Number, ByteAt;
    var j := if little then i else 7 - i;
    Layout64At(v, j);
    ByteIsPart(v, 8, j);
  }

  lemma BytesKept16(s: seq<Byte>, little: bool)
    requires |s| == 2
    ensures Layout16(Word16(s, little), little) == s
  {
    Kept16(s[0], s[1]);
  }

  lemma Kept16(a: Byte, b: Byte)
    ensures Layout16(Join16(a, b), true) == [a, b] && Layout16(Join16(a, b), false) == [b, a]
  {
  }

  lemma BytesKept32(s: seq<Byte>, little: bool)
    requires |s| == 4
    ensures Layout32(Word32(s, little), little) == s
  {
    hide Join32, Layout32;
    if little {
      Kept32(s[0], s[1], s[2], s[3]);
    } else {
      Kept32(s[3], s[2], s[1], s[0]);
    }
  }

  lemma Kept32(a: Byte, b: Byte, c: Byte, d: Byte)
    ensures Layout32(Join32(a, b, c, d), true) == [a, b, c, d] && Layout32(Join32(a, b, c, d), false) == [d, c, b, a]
  {
  }

  lemma BytesKept64(s: seq<Byte>, little: bool)
    requires |s| == 8
    ensures Layout64(Word64(s, little), little) == s
  {
    hide Join64, Layout64;
    if little {
      Kept64(s[0], s[1], s[2], s[3], s[4], s[5], s[6], s[7]);
    } else {
      Kept64(s[7], s[6], s[5], s[4], s[3], s[2], s[1], s[0]);
    }
  }

  lemma Kept64(a: Byte, b: Byte, c: Byte, d: Byte, e: Byte, f: Byte, g: Byte, h: Byte)
    ensures Layout64(Join64(a, b, c, d, e, f, g, h), true) == [a, b, c, d, e, f, g, h]
    ensures Layout64(Join64(a, b, c, d, e, f, g, h), false) == [h, g, f, e, d, c, b, a]
  {
  }

  /** What is read from memory is the number with these bytes. */
  lemma WordBytes(s: seq<Byte>, r: seq<Byte>, q: seq<Byte>, little: bool)
    requires |s| == 2 && |r| == 4 && |q| == 8
    ensures forall i | 0 <= i < 2 :: ByteAt(Value16(Word16(s, little)), if little then i else 1 - i) == s[i] as int
    ensures forall i | 0 <= i < 4 :: ByteAt(Value32(Word32(r, little)), if little then i else 3 - i) == r[i] as int
    ensures forall i | 0 <= i < 8 :: ByteAt(Value64(Word64(q, little)), if little then i else 7 - i) == q[i] as int
  {
    hide Layout16, Layout32, Layout64, Word16, Word32, Word64, ByteAt, Number;
    BytesKept16(s, little);
    BytesKept32(r, little);
    BytesKept64(q, little);
    forall i: nat | i < 2 ensures ByteAt(Value16(Word16(s, little)), if little then i else 1 - i) == s[i] as int {
      LayoutBytes16(Word16(s, little), little, i);
    }
    forall i: nat | i < 4 ensures ByteAt(Value32(Word32(r, little)), if little then i else 3 - i) == r[i] as int {
      LayoutBytes32(Word32(r, little), little, i);
    }
    forall i: nat | i < 8 ensures ByteAt(Value64(Word64(q, little)), if little then i else 7 - i) == q[i] as int {
      LayoutBytes64(Word64(q, little), little, i);
    }
  }

  /** The bytes of a length prefix of fixed width. */
  lemma PrefixBytes(n: nat, little: bool, i: nat)
    ensures |Prefix(KString16, n, little)| == 2 && |Prefix(KString32, n, little)| == 4
    ensures |Prefix(KString64, n, little)| == 8
    ensures i < 2 ==> Prefix(KString16, n, little)[i] as int == ByteAt(n % 0x1_0000, if little then i else 1 - i)
    ensures i < 4 ==> Prefix(KString32, n, little)[i] as int == ByteAt(n % 0x1_0000_0000, if little then i else 3 - i)
    ensures i < 8 ==>
            Prefix(KString64, n, little)[i] as int == ByteAt(n % 0x1_0000_0000_0000_0000, if little then i else 7 - i)
  {
    hide Layout16, Layout32, Layout64, Size16, Size32, Size64, ByteAt, Number;
    SizesReadBack(n);
    if i < 2 {
      LayoutBytes16(Size16(n), little, i);
    }
    if i < 4 {
      LayoutBytes32(Size32(n), little, i);
    }
    if i < 8 {
      LayoutBytes64(Size64(n), little, i);
    }
  }

  // ---------------------------------------------------------------- groups of seven bits

  /** The number that groups of seven bits stand for, the lowest first. */
  function GroupsValue(s: seq<Byte>): nat {
    if s == [] then 0 else Group(s[0]) + 128 * GroupsValue(s[1..])
  }

  /** The seven low bits of a byte, and the high one. */
  function Group(b: Byte): nat {
    (b as int) % 128
  }

  predicate HasHighBit(b: Byte) {
    b as int >= 128
  }

  lemma GroupsMore(b: Byte, rest: seq<Byte>)
    ensures GroupsValue([b] + rest) == Group(b) + 128 * GroupsValue(rest)
  {
    assert ([b] + rest)[1..] == rest;
  }

  /** All bytes but the last have their high bit set. */
  predicate Grouped(s: seq<Byte>) {
    |s| >= 1 && !HasHighBit(s[|s| - 1]) && forall i | 0 <= i < |s| - 1 :: HasHighBit(s[i])
  }

  function LowGroup(v: bv64): Byte {
    (v & 0x7f) as Byte
  }

  function Regrouped(v: bv64): bv64 {
    v >> 7
  }

  function SevenBits(v: bv64): nat {
    Bit(v) + 2 * Bit(v >> 1) + 4 * Bit(v >> 2) + 8 * Bit(v >> 3) + 16 * Bit(v >> 4)
    + 32 * Bit(v >> 5) + 64 * Bit(v >> 6)
  }

  lemma SameSevenOdds(v: bv64)
    ensures var w := LowGroup(v) as bv64;
            && Odd(v) == Odd(w) && Odd(v >> 1) == Odd(w >> 1) && Odd(v >> 2) == Odd(w >> 2)
            && Odd(v >> 3) == Odd(w >> 3) && Odd(v >> 4) == Odd(w >> 4) && Odd(v >> 5) == Odd(w >> 5)
            && Odd(v >> 6) == Odd(w >> 6)
  {
  }

  lemma SameSeven(v: bv64)
    ensures SevenBits(v) == SevenBits(LowGroup(v) as bv64)
  {
    hide Odd, LowGroup;
    SameSevenOdds(v);
  }

  lemma SevenHalves(v: bv64)
    ensures Half(v >> 6) == Regrouped(v)
  {
  }

  lemma SplitSeven(v: bv64, k: nat)
    ensures Number(v, k + 7) == SevenBits(v) + 128 * Number(Regrouped(v), k)
  {
    hide Number, Bit, Half, Regrouped;
    Halves(v);
    SevenHalves(v);
    OneBit(v, k + 6);
    OneBit(v >> 1, k + 5);
    OneBit(v >> 2, k + 4);
    OneBit(v >> 3, k + 3);
    OneBit(v >> 4, k + 2);
    OneBit(v >> 5, k + 1);
    OneBit(v >> 6, k);
  }

  lemma GroupIsSmall(v: bv64)
    ensures LowGroup(v) as int < 128
  {
  }

  lemma LowestGroup(v: bv64, k: nat)
    ensures LowGroup(v) as int < 128
    ensures Number(v, k + 7) == LowGroup(v) as int + 128 * Number(Regrouped(v), k)
  {
    hide Number, SevenBits, Regrouped, LowGroup;
    var w := LowGroup(v) as bv64;
    GroupIsSmall(v);
    SameSeven(v);
    SplitSeven(v, k);
    SplitSeven(w, 0);
    NoBits(Regrouped(w));
    assert Pow2(7) == 128;
    ByteBits(LowGroup(v), 7);
  }

  lemma {:induction false} NumberOfZero(k: nat)
    ensures Number(0, k) == 0
  {
    if k > 0 {
      assert Half(0) == 0;
      NumberOfZero(k - 1);
    }
  }

  lemma MoreByte64(v: bv64)
    ensures HasHighBit(More64(v)) && Group(More64(v)) == LowGroup(v) as int
    ensures Small64(v) ==> !HasHighBit(Final64(v)) && Group(Final64(v)) == LowGroup(v) as int && Regrouped(v) == 0
    ensures Rest64(v) == Regrouped(v)
  {
    AddsHighBit(LowGroup(v));
    GroupIsSmall(v);
  }

  lemma AddsHighBit(b: Byte)
    ensures b < 0x80 ==> (b | 0x80) as int == b as int + 128
  {
  }

  /** The groups make up the number; all but the last have their high bit set. */
  lemma {:induction false} VarintGroupsValue64(v: bv64, m: nat)
    requires |Varint64(v)| <= m
    ensures GroupsValue(Varint64(v)) == Number(v, 7 * m) && Grouped(Varint64(v))
    decreases m
  {
    hide Small64, More64, Final64, Rest64, Number, LowGroup, Regrouped, GroupsValue, Varint64, Group, HasHighBit;
    VarintStep64(v);
    MoreByte64(v);
    LowestGroup(v, 7 * (m - 1));
    if Small64(v) {
      NumberOfZero(7 * (m - 1));
      GroupsMore(Final64(v), []);
      NoGroups();
      assert [Final64(v)] + [] == [Final64(v)];
    } else {
      VarintGroupsValue64(Rest64(v), m - 1);
      GroupsMore(More64(v), Varint64(Rest64(v)));
      GroupedMore(More64(v), Varint64(Rest64(v)));
    }
  }

  lemma NoGroups()
    ensures GroupsValue([]) == 0
  {
  }

  lemma GroupedMore(b: Byte, rest: seq<Byte>)
    requires Grouped(rest) && HasHighBit(b)
    ensures Grouped([b] + rest)
  {
  }

  lemma HalfUnder(v: bv64, m: bv64)
    requires Under(v, Append(m, true)) && Under(m, 0x7fff_ffff_ffff_ffff)
    ensures Under(Half(v), m)
  {
  }

  lemma {:induction false} MaskUnder(m: nat)
    requires m <= 63
    ensures Under(Mask(m), 0x7fff_ffff_ffff_ffff)
  {
    hide Append, Under;
    Masks();
    MaskGrows(m, 63);
  }

  lemma {:induction false} MaskGrows(m: nat, n: nat)
    requires m <= n
    ensures Under(Mask(m), Mask(n))
    decreases m
  {
    hide Append, Under;
    if m == 0 {
      NothingUnder(Mask(n));
    } else {
      MaskGrows(m - 1, n - 1);
      AppendUnder(Mask(m - 1), Mask(n - 1), true);
    }
  }

  lemma NothingElse(v: bv64)
    requires Under(v, Mask(0))
    ensures v == 0
  {
  }

  /** A word within `m` bits stands for the same number in more bits. */
  lemma {:induction false} MoreBits(v: bv64, m: nat, j: nat)
    requires m <= 64 && Under(v, Mask(m))
    ensures Number(v, m + j) == Number(v, m)
    decreases m
  {
    hide Append, Under, Half, Odd;
    if m == 0 {
      NothingElse(v);
      NumberOfZero(j);
    } else {
      MaskUnder(m - 1);
      HalfUnder(v, Mask(m - 1));
      MoreBits(Half(v), m - 1, j);
    }
  }

  lemma FullMasks(v: bv64, w: bv32)
    ensures Under(v, Mask(64)) && Under(w as bv64, Mask(32))
  {
    Masks();
  }

  lemma Widens(v: bv32)
    ensures Small32(v) <==> Small64(v as bv64)
    ensures More32(v) == More64(v as bv64) && Rest32(v) as bv64 == Rest64(v as bv64)
    ensures Small32(v) ==> Final32(v) == Final64(v as bv64)
  {
  }

  /** The 32-bit varint is the 64-bit one of the same number. */
  lemma {:induction false} VarintWidens(v: bv32)
    ensures Varint32(v) == Varint64(v as bv64)
    decreases v
  {
    hide Small32, More32, Final32, Rest32, Small64, More64, Final64, Rest64, Varint32, Varint64;
    VarintStep32(v);
    VarintStep64(v as bv64);
    Widens(v);
    if !Small32(v) {
      VarintWidens(Rest32(v));
    }
  }

  /** A varint is its number in groups of seven bits, the lowest first; all but the last have their high bit set. */
  lemma VarintNumbers(w: bv32, x: bv64)
    ensures GroupsValue(Varint32(w)) == Value32(w) && Grouped(Varint32(w))
    ensures GroupsValue(Varint64(x)) == Value64(x) && Grouped(Varint64(x))
  {
    hide Varint32, Varint64, GroupsValue, Number, Under, Mask, Grouped;
    FullMasks(x, w);
    VarintStep64(x);
    VarintGroupsValue64(x, 10);
    MoreBits(x, 64, 6);
    VarintWidens(w);
    VarintStep32(w);
    VarintGroupsValue64(w as bv64, 5);
    MoreBits(w as bv64, 32, 3);
  }

  // ---------------------------------------------------------------- zigzag

  /** The signed numbers that words stand for. */
  function Signed32(v: bv32): int {
    if Value32(v) < 0x8000_0000 then Value32(v) else Value32(v) - 0x1_0000_0000
  }

  function Signed64(v: bv64): int {
    if Value64(v) < 0x8000_0000_0000_0000 then Value64(v) else Value64(v) - 0x1_0000_0000_0000_0000
  }

  /** In the places of `m`, one of the two has a bit where the other has none. */
  predicate Opposite(v: bv64, w: bv64, m: bv64) {
    Under(m, Xor(v, w))
  }

  function Xor(v: bv64, w: bv64): bv64 {
    v ^ w
  }

  lemma XorHalves(v: bv64, w: bv64)
    ensures Half(Xor(v, w)) == Xor(Half(v), Half(w)) && (Odd(Xor(v, w)) <==> Odd(v) != Odd(w))
  {
  }

  lemma HalfOver(m: bv64, x: bv64)
    requires Under(Append(m, true), x) && Under(m, 0x7fff_ffff_ffff_ffff)
    ensures Under(m, Half(x)) && Odd(x)
  {
  }

  lemma {:induction false} OppositeNumbers(v: bv64, w: bv64, k: nat)
    requires k <= 64 && Opposite(v, w, Mask(k))
    ensures Number(v, k) + Number(w, k) == Pow2(k) - 1
    decreases k
  {
    hide Append, Under, Half, Odd, Xor;
    if k > 0 {
      MaskUnder(k - 1);
      XorHalves(v, w);
      HalfOver(Mask(k - 1), Xor(v, w));
      OppositeNumbers(Half(v), Half(w), k - 1);
    }
  }

  lemma AppendedNumber(v: bv64, bit: bool, k: nat)
    requires Under(v, 0x7fff_ffff_ffff_ffff)
    ensures Number(Append(v, bit), k + 1) == 2 * Number(v, k) + if bit then 1 else 0
  {
    hide Half, Odd, Append, Under;
    AppendHalf(v, bit);
  }

  /** A word without its highest bit. */
  function Lower32(v: bv32): bv64 {
    (v & 0x7fff_ffff) as bv64
  }

  function Flipped32(v: bv32): bv64 {
    Lower32(v) ^ 0x7fff_ffff
  }

  lemma ZigzagOf32(v: bv32)
    ensures EncodeZigzag32(v) == if v >= 0x8000_0000 then ((0 - v) << 1) - 1 else v << 1
  {
    hide EncodeZigzag32;
    if v >= 0x8000_0000 {
      EncodeNegative32(v);
    } else {
      EncodePositive32(v);
    }
  }

  lemma ZigzagBits32(v: bv32)
    ensures var e := (if v >= 0x8000_0000 then ((0 - v) << 1) - 1 else v << 1) as bv64;
            e == Append(if v >= 0x8000_0000 then Flipped32(v) else Lower32(v), v >= 0x8000_0000)
  {
  }

  lemma LowerIs32(v: bv32)
    ensures Under(Lower32(v), 0x7fff_ffff) && Under(Lower32(v), 0x7fff_ffff_ffff_ffff)
    ensures v < 0x8000_0000 ==> v as bv64 == Lower32(v)
  {
    LowerIsUnder32(v);
    hide Under;
  }

  lemma LowerIsUnder32(v: bv32)
    ensures Under(Lower32(v), 0x7fff_ffff) && Under(Lower32(v), 0x7fff_ffff_ffff_ffff)
  {
  }

  lemma FlippedIs32(v: bv32)
    ensures Under(Flipped32(v), 0x7fff_ffff) && Under(Flipped32(v), 0x7fff_ffff_ffff_ffff)
  {
  }

  lemma FlippedIsOpposite32(v: bv32)
    ensures Opposite(Lower32(v), Flipped32(v), 0x7fff_ffff)
    ensures v >= 0x8000_0000 ==> Opposite(v as bv64, Flipped32(v), 0xffff_ffff)
  {
  }

  lemma Masks32()
    ensures Mask(31) == 0x7fff_ffff && Mask(32) == 0xffff_ffff
    ensures Pow2(31) == 0x8000_0000 && Pow2(32) == 0x1_0000_0000
  {
    Masks();
    Powers();
  }

  /** The highest bit of a word. */
  lemma HighestBit32(v: bv32)
    ensures Number(Lower32(v), 31) < 0x8000_0000
    ensures Value32(v) == Number(Lower32(v), 31) + if v >= 0x8000_0000 then 0x8000_0000 else 0
    ensures Number(Flipped32(v), 31) == 0x8000_0000 - 1 - Number(Lower32(v), 31)
  {
    hide Number, Lower32, Flipped32, Under, Opposite, Mask, Pow2;
    Masks32();
    LowerIs32(v);
    FlippedIs32(v);
    FlippedIsOpposite32(v);
    OppositeNumbers(Lower32(v), Flipped32(v), 31);
    MoreBits(Lower32(v), 31, 1);
    MoreBits(Flipped32(v), 31, 1);
    if v >= 0x8000_0000 {
      OppositeNumbers(v as bv64, Flipped32(v), 32);
    }
  }

  /** Zigzag in arithmetic: numbers that are not negative are doubled, the others take the odd places. */
  lemma ZigzagNumber32(v: bv32)
    ensures Value32(EncodeZigzag32(v)) == if Signed32(v) >= 0 then 2 * Signed32(v) else -2 * Signed32(v) - 1
  {
    hide Number, EncodeZigzag32, Lower32, Flipped32, Append, Under, Opposite;
    HighestBit32(v);
    ZigzagOf32(v);
    ZigzagBits32(v);
    LowerIs32(v);
    FlippedIs32(v);
    AppendedNumber(if v >= 0x8000_0000 then Flipped32(v) else Lower32(v), v >= 0x8000_0000, 31);
  }

  /** A word without its highest bit. */
  function Lower64(v: bv64): bv64 {
    (v & 0x7fff_ffff_ffff_ffff)
  }

  function Flipped64(v: bv64): bv64 {
    Lower64(v) ^ 0x7fff_ffff_ffff_ffff
  }

  lemma ZigzagOf64(v: bv64)
    ensures EncodeZigzag64(v) == if v >= 0x8000_0000_0000_0000 then ((0 - v) << 1) - 1 else v << 1
  {
    hide EncodeZigzag64;
    if v >= 0x8000_0000_0000_0000 {
      EncodeNegative64(v);
    } else {
      EncodePositive64(v);
    }
  }

  lemma ZigzagBits64(v: bv64)
    ensures var e := (if v >= 0x8000_0000_0000_0000 then ((0 - v) << 1) - 1 else v << 1);
            e == Append(if v >= 0x8000_0000_0000_0000 then Flipped64(v) else Lower64(v), v >= 0x8000_0000_0000_0000)
  {
  }

  lemma LowerIs64(v: bv64)
    ensures Under(Lower64(v), 0x7fff_ffff_ffff_ffff)
    ensures v < 0x8000_0000_0000_0000 ==> v == Lower64(v)
  {
  }

  lemma FlippedIs64(v: bv64)
    ensures Under(Flipped64(v), 0x7fff_ffff_ffff_ffff)
  {
  }

  lemma FlippedIsOpposite64(v: bv64)
    ensures Opposite(Lower64(v), Flipped64(v), 0x7fff_ffff_ffff_ffff)
    ensures v >= 0x8000_0000_0000_0000 ==> Opposite(v, Flipped64(v), 0xffff_ffff_ffff_ffff)
  {
  }

  lemma Masks64()
    ensures Mask(63) == 0x7fff_ffff_ffff_ffff && Mask(64) == 0xffff_ffff_ffff_ffff
    ensures Pow2(63) == 0x8000_0000_0000_0000 && Pow2(64) == 0x1_0000_0000_0000_0000
  {
    Masks();
    Powers();
  }

  /** The highest bit of a word. */
  lemma HighestBit64(v: bv64)
    ensures Number(Lower64(v), 63) < 0x8000_0000_0000_0000
    ensures Value64(v) == Number(Lower64(v), 63) + if v >= 0x8000_0000_0000_0000 then 0x8000_0000_0000_0000 else 0
    ensures Number(Flipped64(v), 63) == 0x8000_0000_0000_0000 - 1 - Number(Lower64(v), 63)
  {
    hide Number, Lower64, Flipped64, Under, Opposite, Mask, Pow2;
    Masks64();
    LowerIs64(v);
    FlippedIs64(v);
    FlippedIsOpposite64(v);
    OppositeNumbers(Lower64(v), Flipped64(v), 63);
    MoreBits(Lower64(v), 63, 1);
    MoreBits(Flipped64(v), 63, 1);
    if v >= 0x8000_0000_0000_0000 {
      OppositeNumbers(v, Flipped64(v), 64);
    }
  }

  /** Zigzag in arithmetic: numbers that are not negative are doubled, the others take the odd places. */
  lemma ZigzagNumber64(v: bv64)
    ensures Value64(EncodeZigzag64(v)) == if Signed64(v) >= 0 then 2 * Signed64(v) else -2 * Signed64(v) - 1
  {
    hide Number, EncodeZigzag64, Lower64, Flipped64, Append, Under, Opposite;
    HighestBit64(v);
    ZigzagOf64(v);
    ZigzagBits64(v);
    LowerIs64(v);
    FlippedIs64(v);
    AppendedNumber(if v >= 0x8000_0000_0000_0000 then Flipped64(v) else Lower64(v), v >= 0x8000_0000_0000_0000, 63);
  }

  // ---------------------------------------------------------------- values

  /** `p` has `w` bytes, the bytes of `n` from the lowest or from the highest. */
  predicate IsNumber(p: seq<Byte>, w: nat, n: nat, little: bool) {
    |p| == w && forall j | 0 <= j < w :: p[j] as int == ByteAt(n, if little then j else w - 1 - j)
  }

  lemma LayoutIsNumber(h: bv16, w: bv32, d: bv64, little: bool)
    ensures IsNumber(Layout16(h, little), 2, Value16(h), little)
    ensures IsNumber(Layout32(w, little), 4, Value32(w), little)
    ensures IsNumber(Layout64(d, little), 8, Value64(d), little)
  {
    hide Layout16, Layout32, Layout64, Number, ByteAt;
    forall j: nat | j < 2 ensures Layout16(h, little)[j] as int == ByteAt(Value16(h), if little then j else 1 - j) {
      LayoutBytes16(h, little, j);
    }
    forall j: nat | j < 4 ensures Layout32(w, little)[j] as int == ByteAt(Value32(w), if little then j else 3 - j) {
      LayoutBytes32(w, little, j);
    }
    forall j: nat | j < 8 ensures Layout64(d, little)[j] as int == ByteAt(Value64(d), if little then j else 7 - j) {
      LayoutBytes64(d, little, j);
    }
  }

  /** What is written for a value of a fixed width. */
  lemma FixedBytes(i: Item, little: bool)
    ensures i.Fix8? ==> Encode(i, little) == [i.b]
    ensures i.Fix16? ==> IsNumber(Encode(i, little), 2, Value16(i.h), little)
    ensures i.Fix32? ==> IsNumber(Encode(i, little), 4, Value32(i.w), little)
    ensures i.Fix64? ==> IsNumber(Encode(i, little), 8, Value64(i.d), little)
  {
    hide Layout16, Layout32, Layout64, Number, IsNumber;
    match i {
      case Fix16(h) => LayoutIsNumber(h, 0, 0, little);
      case Fix32(w) => LayoutIsNumber(0, w, 0, little);
      case Fix64(d) => LayoutIsNumber(0, 0, d, little);
      case _ =>
    }
  }

  /** `s` is a varint of `n`. */
  predicate IsVarint(s: seq<Byte>, n: int) {
    Grouped(s) && GroupsValue(s) == n
  }

  function Zigzagged(n: int): int {
    if n >= 0 then 2 * n else -2 * n - 1
  }

  /** What is written for a value of variable length: its number, or if it is signed that of its zigzag. */
  lemma VariableBytes(i: Item, little: bool)
    ensures i.Var32? ==> IsVarint(Encode(i, little), Value32(i.w))
    ensures i.Var64? ==> IsVarint(Encode(i, little), Value64(i.d))
    ensures i.Int32? ==> IsVarint(Encode(i, little), Zigzagged(Signed32(i.w)))
    ensures i.Int64? ==> IsVarint(Encode(i, little), Zigzagged(Signed64(i.d)))
  {
    hide Varint32, Varint64, GroupsValue, Grouped, Number, EncodeZigzag32, EncodeZigzag64;
    match i {
      case Var32(w) => VarintNumbers(w, 0);
      case Var64(d) => VarintNumbers(0, d);
      case Int32(w) =>
        ZigzagNumber32(w);
        VarintNumbers(EncodeZigzag32(w), 0);
      case Int64(d) =>
        ZigzagNumber64(d);
        VarintNumbers(0, EncodeZigzag64(d));
      case _ =>
    }
  }

  lemma PrefixIsNumber(n: nat, little: bool)
    ensures IsNumber(Prefix(KString16, n, little), 2, n % 0x1_0000, little)
    ensures IsNumber(Prefix(KString32, n, little), 4, n % 0x1_0000_0000, little)
    ensures IsNumber(Prefix(KString64, n, little), 8, n % 0x1_0000_0000_0000_0000, little)
  {
    hide Prefix, ByteAt;
    PrefixBytes(n, little, 0);
    forall j: nat
      ensures j < 2 ==> Prefix(KString16, n, little)[j] as int == ByteAt(n % 0x1_0000, if little then j else 1 - j)
      ensures j < 4 ==> Prefix(KString32, n, little)[j] as int == ByteAt(n % 0x1_0000_0000, if little then j else 3 - j)
      ensures j < 8 ==>
              Prefix(KString64, n, little)[j] as int == ByteAt(n % 0x1_0000_0000_0000_0000, if little then j else 7 - j)
    {
      PrefixBytes(n, little, j);
    }
  }

  /** A string is its length, in the form of its kind, and its bytes. */
  lemma StringBytes(s: seq<Byte>, little: bool)
    ensures exists p :: Encode(String16(s), little) == p + s && IsNumber(p, 2, |s| % 0x1_0000, little)
    ensures exists p :: Encode(String32(s), little) == p + s && IsNumber(p, 4, |s| % 0x1_0000_0000, little)
    ensures exists p :: Encode(String64(s), little) == p + s && IsNumber(p, 8, |s| % 0x1_0000_0000_0000_0000, little)
    ensures exists p :: Encode(StringVar(s), little) == p + s && Grouped(p)
                        && GroupsValue(p) == |s| % 0x1_0000_0000_0000_0000
  {
    hide Prefix, ByteAt, GroupsValue, Grouped, IsNumber;
    PrefixIsNumber(|s|, little);
    LengthGroups(|s|, little);
    assert Encode(String16(s), little) == Prefix(KString16, |s|, little) + s;
    assert Encode(String32(s), little) == Prefix(KString32, |s|, little) + s;
    assert Encode(String64(s), little) == Prefix(KString64, |s|, little) + s;
    assert Encode(StringVar(s), little) == Prefix(KStringVar, |s|, little) + s;
  }

  lemma LengthGroups(n: nat, little: bool)
    ensures Grouped(Prefix(KStringVar, n, little))
    ensures GroupsValue(Prefix(KStringVar, n, little)) == n % 0x1_0000_0000_0000_0000
  {
    hide Varint64, GroupsValue, Grouped, Size64, Number;
    VarintNumbers(0, Size64(n));
    SizesReadBack(n);
  }
}
