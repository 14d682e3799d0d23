/**
 Machine words and the numbers they stand for: a size stored in a word keeps its low bits.
 */
module Words {
  import opened Flat

  function Pow2(k: nat): (p: nat)
    ensures p >= 1
  {
    if k == 0 then 1 else 2 * Pow2(k - 1)
  }

  function Up(v: bv64): bv64 {
    v << 1
  }

  function WithBit(v: bv64, bit: bool): bv64 {
    v | (if bit then 1 else 0)
  }

  function Append(v: bv64, bit: bool): bv64 {
    WithBit(Up(v), bit)
  }

  function Half(v: bv64): bv64 {
    v >> 1
  }

  predicate Odd(v: bv64) {
    v & 1 == 1
  }

  /** The low `k` bits of `n`. */
  function Word(n: nat, k: nat): bv64
    decreases k
  {
    if k == 0 then 0 else Append(Word(n / 2, k - 1), n % 2 == 1)
  }

  /** The number that the low `k` bits of `v` stand for. */
  function Number(v: bv64, k: nat): (n: nat)
    ensures n < Pow2(k)
    decreases k
  {
    if k == 0 then 0 else 2 * Number(Half(v), k - 1) + if Odd(v) then 1 else 0
  }

  /** `k` ones. */
  function Mask(k: nat): bv64 {
    if k == 0 then 0 else Append(Mask(k - 1), true)
  }

  predicate Under(v: bv64, m: bv64) {
    v & m == v
  }

  lemma AppendHalf(v: bv64, bit: bool)
    requires Under(v, 0x7fff_ffff_ffff_ffff)
    ensures Half(Append(v, bit)) == v && Odd(Append(v, bit)) == bit
  {
  }

  lemma UpUnder(v: bv64, m: bv64)
    requires Under(v, m)
    ensures Under(Up(v), Up(m))
  {
  }

  lemma WithBitUnder(v: bv64, m: bv64, bit: bool)
    requires Under(v, m)
    ensures Under(WithBit(v, bit), WithBit(m, true))
  {
  }

  lemma AppendUnder(v: bv64, m: bv64, bit: bool)
    requires Under(v, m)
    ensures Under(Append(v, bit), Append(m, true))
  {
    hide Up, WithBit, Under;
    UpUnder(v, m);
    WithBitUnder(Up(v), Up(m), bit);
  }

  lemma NothingUnder(m: bv64)
    ensures Under(0, m)
  {
  }

  lemma {:induction false} WordUnder(n: nat, j: nat, k: nat)
    requires j <= k
    ensures Under(Word(n, j), Mask(k))
  {
    hide Append, Under;
    if j == 0 {
      NothingUnder(Mask(k));
    } else {
      WordUnder(n / 2, j - 1, k - 1);
      AppendUnder(Word(n / 2, j - 1), Mask(k - 1), n % 2 == 1);
    }
  }

  /** A word of `k` bits holds a number up to the multiples of `2 ** k`. */
  lemma {:induction false} NumberOfWord(n: nat, k: nat)
    requires k <= 64
    ensures Number(Word(n, k), k) == n % Pow2(k)
  {
    hide Append, Under, Half, Odd, Mask;
    if k > 0 {
      NumberOfWord(n / 2, k - 1);
      WordUnder(n / 2, k - 1, 63);
      Masks();
      AppendHalf(Word(n / 2, k - 1), n % 2 == 1);
      HalvesModulo(n, Pow2(k - 1));
    }
  }

  lemma StartTwice(k: nat, p: nat)
    ensures Start(k, 2 * p) == 2 * Start(k, p)
  {
  }

  lemma HalvesModulo(n: nat, p: nat)
    requires p >= 1
    ensures n % (2 * p) == 2 * ((n / 2) % p) + n % 2
  {
    var h := n / 2;
    Split(h, p);
    StartTwice(BlockNo(h, p), p);
    BlockOf(n, BlockNo(h, p), 2 * Offset(h, p) + n % 2, 2 * p);
  }

  lemma Masks()
    ensures Mask(16) == 0xffff && Mask(32) == 0xffff_ffff && Mask(63) == 0x7fff_ffff_ffff_ffff
    ensures Mask(31) == 0x7fff_ffff && Mask(64) == 0xffff_ffff_ffff_ffff
  {
    assert Mask(8) == 0xff;
    assert Mask(16) == 0xffff;
    assert Mask(24) == 0xff_ffff;
    assert Mask(31) == 0x7fff_ffff;
    assert Mask(32) == 0xffff_ffff;
    assert Mask(40) == 0xff_ffff_ffff;
    assert Mask(48) == 0xffff_ffff_ffff;
    assert Mask(56) == 0xff_ffff_ffff_ffff;
    assert Mask(60) == 0xfff_ffff_ffff_ffff;
    assert Mask(63) == 0x7fff_ffff_ffff_ffff;
  }

  lemma Powers()
    ensures Pow2(16) == 0x1_0000 && Pow2(32) == 0x1_0000_0000 && Pow2(64) == 0x1_0000_0000_0000_0000
    ensures Pow2(31) == 0x8000_0000 && Pow2(63) == 0x8000_0000_0000_0000
  {
    assert Pow2(8) == 0x100;
    assert Pow2(16) == 0x1_0000;
    assert Pow2(24) == 0x100_0000;
    assert Pow2(31) == 0x8000_0000;
    assert Pow2(32) == 0x1_0000_0000;
    assert Pow2(40) == 0x100_0000_0000;
    assert Pow2(48) == 0x1_0000_0000_0000;
    assert Pow2(56) == 0x100_0000_0000_0000;
    assert Pow2(63) == 0x8000_0000_0000_0000;
  }

  /** A size as it is stored in 16, 32 and 64 bits, and read back. */
  function Size16(n: nat): bv16 { (Word(n, 16) & 0xffff) as bv16 }

  function Size32(n: nat): bv32 { (Word(n, 32) & 0xffff_ffff) as bv32 }

  function Size64(n: nat): bv64 { Word(n, 64) }

  function Count16(v: bv16): (n: nat)
    ensures n < 0x1_0000
  {
    Powers();
    Number(v as bv64, 16)
  }

  function Count32(v: bv32): (n: nat)
    ensures n < 0x1_0000_0000
  {
    Powers();
    Number(v as bv64, 32)
  }

  function Count64(v: bv64): (n: nat)
    ensures n < 0x1_0000_0000_0000_0000
  {
    Powers();
    Number(v, 64)
  }

  lemma Widen(v: bv64)
    ensures Under(v, 0xffff) ==> ((v & 0xffff) as bv16) as bv64 == v
    ensures Under(v, 0xffff_ffff) ==> ((v & 0xffff_ffff) as bv32) as bv64 == v
  {
  }

  lemma Size16ReadsBack(n: nat)
    ensures Count16(Size16(n)) == n % 0x1_0000
    ensures n < 0x1_0000 ==> Count16(Size16(n)) == n
  {
    hide Under, Mask, Pow2, Word, Number;
    Powers();
    Masks();
    WordUnder(n, 16, 16);
    Widen(Word(n, 16));
    NumberOfWord(n, 16);
  }

  lemma Size32ReadsBack(n: nat)
    ensures Count32(Size32(n)) == n % 0x1_0000_0000
    ensures n < 0x1_0000_0000 ==> Count32(Size32(n)) == n
  {
    hide Under, Mask, Pow2, Word, Number;
    Powers();
    Masks();
    WordUnder(n, 32, 32);
    Widen(Word(n, 32));
    NumberOfWord(n, 32);
  }

  lemma Size64ReadsBack(n: nat)
    ensures Count64(Size64(n)) == n % 0x1_0000_0000_0000_0000
    ensures n < 0x1_0000_0000_0000_0000 ==> Count64(Size64(n)) == n
  {
    hide Under, Mask, Pow2, Word, Number;
    Powers();
    NumberOfWord(n, 64);
  }

  /** What comes back of a size: the remainder modulo the range of the prefix. */
  lemma SizesReadBack(n: nat)
    ensures Count16(Size16(n)) == n % 0x1_0000
    ensures Count32(Size32(n)) == n % 0x1_0000_0000
    ensures Count64(Size64(n)) == n % 0x1_0000_0000_0000_0000
  {
    hide Size16, Size32, Size64, Count16, Count32, Count64;
    Size16ReadsBack(n);
    Size32ReadsBack(n);
    Size64ReadsBack(n);
  }

  // ---------------------------------------------------------------- the numbers that bytes stand for

  function Low(v: bv64): Byte {
    (v & 0xff) as Byte
  }

  function Shifted(v: bv64): bv64 {
    v >> 8
  }

  lemma HalfOfByte(b: Byte)
    ensures (b as bv64) as int == b as int
    ensures b as int == 2 * ((b >> 1) as int) + (if b & 1 == 1 then 1 else 0)
    ensures Half(b as bv64) == (b >> 1) as bv64 && Odd(b as bv64) == (b & 1 == 1)
  {
  }

  /** The bits of a byte, one after the other. */
  lemma {:induction false} ByteBits(b: Byte, k: nat)
    requires k <= 8 && b as int < Pow2(k)
    ensures Number(b as bv64, k) == b as int
    decreases k
  {
    hide Half, Odd;
    HalfOfByte(b);
    if k > 0 {
      ByteBits(b >> 1, k - 1);
    }
  }

  lemma ByteNumber(b: Byte)
    ensures Number(b as bv64, 8) == b as int
  {
    assert Pow2(8) == 256;
    ByteBits(b, 8);
  }

  function Bit(v: bv64): nat {
    if Odd(v) then 1 else 0
  }

  /** What the last eight bits stand for. */
  function LastBits(v: bv64): nat {
    Bit(v) + 2 * Bit(v >> 1) + 4 * Bit(v >> 2) + 8 * Bit(v >> 3) + 16 * Bit(v >> 4)
    + 32 * Bit(v >> 5) + 64 * Bit(v >> 6) + 128 * Bit(v >> 7)
  }

  lemma SameOdds(v: bv64)
    ensures var w := Low(v) as bv64;
            && Odd(v) == Odd(w) && Odd(v >> 1) == Odd(w >> 1) && Odd(v >> 2) == Odd(w >> 2)
            && Odd(v >> 3) == Odd(w >> 3) && Odd(v >> 4) == Odd(w >> 4) && Odd(v >> 5) == Odd(w >> 5)
            && Odd(v >> 6) == Odd(w >> 6) && Odd(v >> 7) == Odd(w >> 7)
  {
  }

  lemma SameBits(v: bv64)
    ensures LastBits(v) == LastBits(Low(v) as bv64)
  {
    hide Odd, Low;
    SameOdds(v);
  }

  lemma Halves(v: bv64)
    ensures Half(v) == v >> 1 && Half(v >> 1) == v >> 2 && Half(v >> 2) == v >> 3 && Half(v >> 3) == v >> 4
    ensures Half(v >> 4) == v >> 5 && Half(v >> 5) == v >> 6 && Half(v >> 6) == v >> 7 && Half(v >> 7) == Shifted(v)
  {
  }

  lemma EightBits(v: bv64, k: nat)
    ensures Number(v, k + 8) == LastBits(v) + 256 * Number(Shifted(v), k)
  {
    hide Number, Bit, Half, Shifted;
    Halves(v);
    OneBit(v, k + 7);
    OneBit(v >> 1, k + 6);
    OneBit(v >> 2, k + 5);
    OneBit(v >> 3, k + 4);
    OneBit(v >> 4, k + 3);
    OneBit(v >> 5, k + 2);
    OneBit(v >> 6, k + 1);
    OneBit(v >> 7, k);
  }

  lemma NoBits(v: bv64)
    ensures Number(v, 0) == 0
  {
  }

  lemma OneBit(v: bv64, k: nat)
    ensures Number(v, k + 1) == Bit(v) + 2 * Number(Half(v), k)
  {
    hide Half, Odd;
  }

  /** A word is its lowest byte and 256 times the others. */
  lemma LowByte(v: bv64, k: nat)
    ensures Number(v, k + 8) == Low(v) as int + 256 * Number(Shifted(v), k)
  {
    hide Number, LastBits, Shifted, Low;
    var w := Low(v) as bv64;
    SameBits(v);
    EightBits(v, k);
    EightBits(w, 0);
    NoBits(Shifted(w));
    ByteNumber(Low(v));
  }

  /** Byte `i` of a number, from the lowest. */
  function ByteAt(n: nat, i: nat): nat {
    if i == 0 then n % 256 else ByteAt(n / 256, i - 1)
  }
}
