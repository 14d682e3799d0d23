/**
 The typed values of a byte array and their encodings: what a sequence of typed writes puts into the
 flat buffer, and what the same sequence of typed reads makes of it.
 */
module Items {
  import opened Flat
  import opened Words
  import opened Codecs

  // ---------------------------------------------------------------- fixed widths

  function Swap16(x: bv16): bv16 {
    ((x >> 8) & 0xff) | ((x & 0xff) << 8)
  }

  function Swap32(x: bv32): bv32 {
    ((x & 0xff00_0000) >> 24) | ((x & 0x00ff_0000) >> 8) | ((x & 0x0000_ff00) << 8) | ((x & 0x0000_00ff) << 24)
  }

  function Swap64(x: bv64): bv64 {
    ((x & 0xff00_0000_0000_0000) >> 56) | ((x & 0x00ff_0000_0000_0000) >> 40)
    | ((x & 0x0000_ff00_0000_0000) >> 24) | ((x & 0x0000_00ff_0000_0000) >> 8)
    | ((x & 0x0000_0000_ff00_0000) << 8) | ((x & 0x0000_0000_00ff_0000) << 24)
    | ((x & 0x0000_0000_0000_ff00) << 40) | ((x & 0x0000_0000_0000_00ff) << 56)
  }

  /** The bytes of a word in memory, least significant first or last. */
  function Layout16(v: bv16, little: bool): (s: seq<Byte>)
    ensures |s| == 2
  {
    var a, b := (v & 0xff) as Byte, ((v >> 8) & 0xff) as Byte;
    if little then [a, b] else [b, a]
  }

  function Layout32(v: bv32, little: bool): (s: seq<Byte>)
    ensures |s| == 4
  {
    var a, b, c, d := (v & 0xff) as Byte, ((v >> 8) & 0xff) as Byte, ((v >> 16) & 0xff) as Byte,
      ((v >> 24) & 0xff) as Byte;
    if little then [a, b, c, d] else [d, c, b, a]
  }

  function Layout64(v: bv64, little: bool): (s: seq<Byte>)
    ensures |s| == 8
  {
    var a, b, c, d := (v & 0xff) as Byte, ((v >> 8) & 0xff) as Byte, ((v >> 16) & 0xff) as Byte,
      ((v >> 24) & 0xff) as Byte;
    var e, f, g, h := ((v >> 32) & 0xff) as Byte, ((v >> 40) & 0xff) as Byte, ((v >> 48) & 0xff) as Byte,
      ((v >> 56) & 0xff) as Byte;
    if little then [a, b, c, d, e, f, g, h] else [h, g, f, e, d, c, b, a]
  }

  function Join16(a: Byte, b: Byte): bv16 {
    (a as bv16) | ((b as bv16) << 8)
  }

  function Join32(a: Byte, b: Byte, c: Byte, d: Byte): bv32 {
    (a as bv32) | ((b as bv32) << 8) | ((c as bv32) << 16) | ((d as bv32) << 24)
  }

  function Join64(a: Byte, b: Byte, c: Byte, d: Byte, e: Byte, f: Byte, g: Byte, h: Byte): bv64 {
    (a as bv64) | ((b as bv64) << 8) | ((c as bv64) << 16) | ((d as bv64) << 24)
    | ((e as bv64) << 32) | ((f as bv64) << 40) | ((g as bv64) << 48) | ((h as bv64) << 56)
  }

  /** The word that lies in memory as `s`. */
  function Word16(s: seq<Byte>, little: bool): bv16
    requires |s| == 2
  {
    if little then Join16(s[0], s[1]) else Join16(s[1], s[0])
  }

  function Word32(s: seq<Byte>, little: bool): bv32
    requires |s| == 4
  {
    if little then Join32(s[0], s[1], s[2], s[3]) else Join32(s[3], s[2], s[1], s[0])
  }

  function Word64(s: seq<Byte>, little: bool): bv64
    requires |s| == 8
  {
    if little then Join64(s[0], s[1], s[2], s[3], s[4], s[5], s[6], s[7])
    else Join64(s[7], s[6], s[5], s[4], s[3], s[2], s[1], s[0])
  }

  /** Swapping a word is turning its bytes round. */
  lemma SwapTurns(v: bv16, w: bv32, x: bv64, little: bool)
    ensures Layout16(Swap16(v), little) == Layout16(v, !little)
    ensures Layout32(Swap32(w), little) == Layout32(w, !little)
    ensures Layout64(Swap64(x), little) == Layout64(x, !little)
  {
  }

  lemma LayoutReadsBack(v: bv16, w: bv32, x: bv64, little: bool)
    ensures Word16(Layout16(v, little), little) == v
    ensures Word32(Layout32(w, little), little) == w
    ensures Word64(Layout64(x, little), little) == x
  {
  }

  /** Reading in one order and swapping is reading in the other. */
  lemma SwapReads16(s: seq<Byte>, little: bool)
    requires |s| == 2
    ensures Swap16(Word16(s, little)) == Word16(s, !little)
  {
  }

  lemma SwapReads32(s: seq<Byte>, little: bool)
    requires |s| == 4
    ensures Swap32(Word32(s, little)) == Word32(s, !little)
  {
  }

  lemma SwapReads64(s: seq<Byte>, little: bool)
    requires |s| == 8
    ensures Swap64(Word64(s, little)) == Word64(s, !little)
  {
  }

  // ---------------------------------------------------------------- typed values

  /** Signed and floating-point values of a fixed width are written as the word with the same bits. */
  datatype Kind = KFix8 | KFix16 | KFix32 | KFix64 | KVar32 | KVar64 | KInt32 | KInt64
                | KString16 | KString32 | KString64 | KStringVar

  datatype Item =
    | Fix8(b: Byte)
    | Fix16(h: bv16)
    | Fix32(w: bv32)
    | Fix64(d: bv64)
    | Var32(w: bv32)
    | Var64(d: bv64)
    | Int32(w: bv32)
    | Int64(d: bv64)
    | String16(s: seq<Byte>)
    | String32(s: seq<Byte>)
    | String64(s: seq<Byte>)
    | StringVar(s: seq<Byte>)

  function KindOf(i: Item): Kind {
    match i
    case Fix8(_) => KFix8
    case Fix16(_) => KFix16
    case Fix32(_) => KFix32
    case Fix64(_) => KFix64
    case Var32(_) => KVar32
    case Var64(_) => KVar64
    case Int32(_) => KInt32
    case Int64(_) => KInt64
    case String16(_) => KString16
    case String32(_) => KString32
    case String64(_) => KString64
    case StringVar(_) => KStringVar
  }

  predicate IsString(k: Kind) {
    k == KString16 || k == KString32 || k == KString64 || k == KStringVar
  }

  predicate IsEmptyString(i: Item) {
    IsString(KindOf(i)) && i.s == []
  }

  function StringOf(k: Kind, s: seq<Byte>): (i: Item)
    requires IsString(k)
    ensures KindOf(i) == k && i.s == s
  {
    match k
    case KString16 => String16(s)
    case KString32 => String32(s)
    case KString64 => String64(s)
    case KStringVar => StringVar(s)
  }

  /** The length prefix of a string of `n` bytes. */
  function Prefix(k: Kind, n: nat, little: bool): seq<Byte>
    requires IsString(k)
  {
    match k
    case KString16 => Layout16(Size16(n), little)
    case KString32 => Layout32(Size32(n), little)
    case KString64 => Layout64(Size64(n), little)
    case KStringVar => Varint64(Size64(n))
  }

  /** The number of lengths that the prefix can tell apart. */
  function PrefixRange(k: Kind): (n: nat)
    requires IsString(k)
    ensures n > 0
  {
    match k
    case KString16 => 0x1_0000
    case KString32 => 0x1_0000_0000
    case _ => 0x1_0000_0000_0000_0000
  }

  function Encode(i: Item, little: bool): seq<Byte> {
    match i
    case Fix8(b) => [b]
    case Fix16(h) => Layout16(h, little)
    case Fix32(w) => Layout32(w, little)
    case Fix64(d) => Layout64(d, little)
    case Var32(w) => Varint32(w)
    case Var64(d) => Varint64(d)
    case Int32(w) => Varint32(EncodeZigzag32(w))
    case Int64(d) => Varint64(EncodeZigzag64(d))
    case _ => Prefix(KindOf(i), |i.s|, little) + i.s
  }

  /**
   How a read ends: with a value, with the out-of-range exception, or, for a length of zero when the
   cursor stands at the very end of the last block, in the use of a null block pointer.
   */
  datatype Reply<+T> = Value(v: T) | OutOfRange | NoBlock

  /** How a script of reads ends. */
  datatype End = Complete | CutShort | NullBlock

  /** What a typed read takes from the front of the unread bytes; `used` is how far it moves the cursor. */
  datatype Reading = Got(item: Item, used: nat) | Short(used: nat)

  /** The length a prefix gives and the bytes it takes; a prefix that is cut short moves the cursor by `used`. */
  datatype PrefixReading = Length(n: nat, used: nat) | NoLength(used: nat)

  function ReadPrefix(k: Kind, bytes: seq<Byte>, little: bool): (r: PrefixReading)
    requires IsString(k)
    ensures r.used <= |bytes|
  {
    match k
    case KString16 => if |bytes| < 2 then NoLength(0) else Length(Count16(Word16(bytes[..2], little)), 2)
    case KString32 => if |bytes| < 4 then NoLength(0) else Length(Count32(Word32(bytes[..4], little)), 4)
    case KString64 => if |bytes| < 8 then NoLength(0) else Length(Count64(Word64(bytes[..8], little)), 8)
    case KStringVar =>
      match UnVarint64(bytes, 0, 0)
      case None => NoLength(|bytes|)
      case Some((d, n)) => Length(Count64(d), n)
  }

  function Decode(k: Kind, bytes: seq<Byte>, little: bool): (r: Reading)
    ensures r.used <= |bytes|
    ensures r.Got? ==> KindOf(r.item) == k
  {
    if k == KVar32 || k == KInt32 then DecodeVar32(bytes, k == KInt32)
    else if k == KVar64 || k == KInt64 then DecodeVar64(bytes, k == KInt64)
    else if IsString(k) then DecodeString(k, bytes, little)
    else DecodeFixed(k, bytes, little)
  }

  predicate IsFixed(k: Kind) {
    k == KFix8 || k == KFix16 || k == KFix32 || k == KFix64
  }

  function DecodeFixed(k: Kind, bytes: seq<Byte>, little: bool): (r: Reading)
    requires IsFixed(k)
    ensures r.used <= |bytes|
    ensures r.Got? ==> KindOf(r.item) == k
  {
    match k
    case KFix8 => if |bytes| < 1 then Short(0) else Got(Fix8(bytes[0]), 1)
    case KFix16 => if |bytes| < 2 then Short(0) else Got(Fix16(Word16(bytes[..2], little)), 2)
    case KFix32 => if |bytes| < 4 then Short(0) else Got(Fix32(Word32(bytes[..4], little)), 4)
    case KFix64 => if |bytes| < 8 then Short(0) else Got(Fix64(Word64(bytes[..8], little)), 8)
  }

  function DecodeString(k: Kind, bytes: seq<Byte>, little: bool): (r: Reading)
    requires IsString(k)
    ensures r.used <= |bytes|
    ensures r.Got? ==> KindOf(r.item) == k
  {
    hide ReadPrefix;
    TakeString(k, ReadPrefix(k, bytes, little), bytes)
  }

  /** The string behind a prefix. */
  function TakeString(k: Kind, p: PrefixReading, bytes: seq<Byte>): (r: Reading)
    requires IsString(k) && p.used <= |bytes|
    ensures r.used <= |bytes|
    ensures r.Got? ==> KindOf(r.item) == k
  {
    hide StringOf, KindOf;
    if p.Length? && p.n <= |bytes| - p.used then Got(StringOf(k, bytes[p.used..p.used + p.n]), p.used + p.n)
    else Short(p.used)
  }

  lemma StringReading(k: Kind, bytes: seq<Byte>, little: bool)
    requires IsString(k)
    ensures Decode(k, bytes, little) == TakeString(k, ReadPrefix(k, bytes, little), bytes)
  {
    hide ReadPrefix, TakeString;
  }

  function DecodeVar32(bytes: seq<Byte>, signed: bool): (r: Reading)
    ensures r.used <= |bytes|
    ensures r.Got? ==> KindOf(r.item) == if signed then KInt32 else KVar32
  {
    match UnVarint32(bytes, 0, 0)
    case None => Short(|bytes|)
    case Some((w, n)) =>
      Got(if signed then Int32(DecodeZigzag32(w)) else Var32(w), n)
  }

  function DecodeVar64(bytes: seq<Byte>, signed: bool): (r: Reading)
    ensures r.used <= |bytes|
    ensures r.Got? ==> KindOf(r.item) == if signed then KInt64 else KVar64
  {
    match UnVarint64(bytes, 0, 0)
    case None => Short(|bytes|)
    case Some((d, n)) =>
      Got(if signed then Int64(DecodeZigzag64(d)) else Var64(d), n)
  }

  /** The prefix of a string's length reads back as the length, modulo the range of the prefix. */
  lemma PrefixReadsBack(k: Kind, n: nat, little: bool, rest: seq<Byte>)
    requires IsString(k)
    ensures |Prefix(k, n, little)| >= 1
    ensures ReadPrefix(k, Prefix(k, n, little) + rest, little) == Length(n % PrefixRange(k), |Prefix(k, n, little)|)
  {
    hide Size16, Size32, Size64, Count16, Count32, Count64, Layout16, Layout32, Layout64, Word16, Word32, Word64;
    hide Varint64, UnVarint64;
    SizesReadBack(n);
    LayoutReadsBack(Size16(n), Size32(n), Size64(n), little);
    VarintRoundTrip64(Size64(n), rest);
    var p := Prefix(k, n, little);
    assert (p + rest)[..|p|] == p;
  }

  predicate Fits(i: Item) {
    IsString(KindOf(i)) ==> |i.s| < PrefixRange(KindOf(i))
  }

  lemma FixedReadsBack(i: Item, little: bool, rest: seq<Byte>)
    requires IsFixed(KindOf(i))
    ensures |Encode(i, little)| >= 1
    ensures DecodeFixed(KindOf(i), Encode(i, little) + rest, little) == Got(i, |Encode(i, little)|)
  {
    hide Layout16, Layout32, Layout64, Word16, Word32, Word64;
    LayoutReadsBack(if i.Fix16? then i.h else 0, if i.Fix32? then i.w else 0, if i.Fix64? then i.d else 0, little);
    var e := Encode(i, little);
    assert (e + rest)[..|e|] == e;
  }

  lemma VarReadsBack(i: Item, little: bool, rest: seq<Byte>)
    requires i.Var32? || i.Var64? || i.Int32? || i.Int64?
    ensures 1 <= |Encode(i, little)| <= if i.Var32? || i.Int32? then 5 else 10
    ensures Decode(KindOf(i), Encode(i, little) + rest, little) == Got(i, |Encode(i, little)|)
  {
    hide Varint32, UnVarint32, Varint64, UnVarint64, EncodeZigzag32, EncodeZigzag64, DecodeZigzag32, DecodeZigzag64;
    match i
    case Var32(w) => VarintRoundTrip32(w, rest);
    case Var64(d) => VarintRoundTrip64(d, rest);
    case Int32(w) => Zigzag(w, 0); VarintRoundTrip32(EncodeZigzag32(w), rest);
    case Int64(d) => Zigzag(0, d); VarintRoundTrip64(EncodeZigzag64(d), rest);
  }

  lemma StringReadsBack(i: Item, little: bool, rest: seq<Byte>)
    requires IsString(KindOf(i))
    ensures |Encode(i, little)| >= 1
    ensures Fits(i) ==> DecodeString(KindOf(i), Encode(i, little) + rest, little) == Got(i, |Encode(i, little)|)
    ensures !Fits(i) ==> var r := DecodeString(KindOf(i), Encode(i, little) + rest, little); r.Got? && r.item != i
  {
    hide Prefix, ReadPrefix, PrefixRange, StringOf, Encode;
    EncodeString(i, little);
    var k, n := KindOf(i), |i.s|;
    var p := Prefix(k, n, little);
    PrefixReadsBack(k, n, little, i.s + rest);
    Remainder(n, PrefixRange(k));
    var m := n % PrefixRange(k);
    Parts(p, i.s, rest, m);
    StringIs(i);
    assert i.s[..n] == i.s;
  }

  lemma Parts(p: seq<Byte>, s: seq<Byte>, rest: seq<Byte>, m: nat)
    requires m <= |s|
    ensures p + s + rest == p + (s + rest) && (p + s + rest)[|p|..|p| + m] == s[..m]
  {
  }

  lemma EncodeString(i: Item, little: bool)
    requires IsString(KindOf(i))
    ensures Encode(i, little) == Prefix(KindOf(i), |i.s|, little) + i.s
  {
    hide Prefix;
  }

  lemma StringIs(i: Item)
    requires IsString(KindOf(i))
    ensures i == StringOf(KindOf(i), i.s)
  {
  }

  lemma Remainder(n: nat, m: nat)
    requires m > 0
    ensures n % m <= n && (n % m == n <==> n < m)
  {
  }

  /**
   What is written is what is read: whatever follows, the same kind of read gives the value back and uses
   exactly its bytes, if and only if a string's length fits its prefix. A string that does not fit comes
   back as another one.
   */
  lemma ItemReadsBack(i: Item, little: bool, rest: seq<Byte>)
    ensures |Encode(i, little)| >= 1
    ensures var r := Decode(KindOf(i), Encode(i, little) + rest, little);
            r.Got? && (Fits(i) <==> r.item == i) && (Fits(i) ==> r.used == |Encode(i, little)|)
  {
    hide DecodeFixed, DecodeString, DecodeVar32, DecodeVar64, Encode;
    if IsString(KindOf(i)) {
      StringReadsBack(i, little, rest);
    } else if IsFixed(KindOf(i)) {
      FixedReadsBack(i, little, rest);
    } else {
      VarReadsBack(i, little, rest);
    }
  }

  // ---------------------------------------------------------------- scripts

  function KindsOf(items: seq<Item>): seq<Kind> {
    if items == [] then [] else [KindOf(items[0])] + KindsOf(items[1..])
  }

  function EncodeAll(items: seq<Item>, little: bool): seq<Byte> {
    if items == [] then [] else Encode(items[0], little) + EncodeAll(items[1..], little)
  }

  /** The values that a sequence of typed reads returns up to the first that is cut short, and the bytes used. */
  function DecodeAll(kinds: seq<Kind>, bytes: seq<Byte>, little: bool): (r: (seq<Item>, nat))
    ensures r.1 <= |bytes| && |r.0| <= |kinds|
  {
    if kinds == [] then ([], 0)
    else
      var first := Decode(kinds[0], bytes, little);
      if first.Short? then ([], first.used)
      else
        var (items, used) := DecodeAll(kinds[1..], bytes[first.used..], little);
        ([first.item] + items, first.used + used)
  }

  predicate AllFit(items: seq<Item>) {
    forall i | 0 <= i < |items| :: Fits(items[i])
  }

  lemma EncodeNone(little: bool)
    ensures EncodeAll([], little) == []
  {
  }

  lemma {:induction false} EncodeOneMore(items: seq<Item>, i: nat, little: bool)
    requires i < |items|
    ensures EncodeAll(items[..i + 1], little) == EncodeAll(items[..i], little) + Encode(items[i], little)
  {
    hide Encode;
    if i > 0 {
      EncodeOneMore(items[1..], i - 1, little);
      assert items[..i + 1][1..] == items[1..][..i] && items[..i][1..] == items[1..][..i - 1];
    } else {
      assert items[..1] == [items[0]] && items[..1][1..] == [];
    }
  }

  /** A read of an empty string that ends `room` bytes on, at the end of the last block, finds no block. */
  predicate NoBlockIn(kinds: seq<Kind>, bytes: seq<Byte>, little: bool, room: int) {
    kinds != [] &&
    var r := Decode(kinds[0], bytes, little);
    r.Got? && ((IsEmptyString(r.item) && r.used == room) ||
               NoBlockIn(kinds[1..], bytes[r.used..], little, room - r.used))
  }

  /** The readings so far, and what the rest of the script gives. */
  function Joined(got: seq<Item>, used: nat, rest: (seq<Item>, nat)): (seq<Item>, nat) {
    (got + rest.0, used + rest.1)
  }

  /** One step of a script of reads. */
  lemma ReadOn(kinds: seq<Kind>, bytes: seq<Byte>, little: bool, room: int)
    ensures kinds == [] ==> DecodeAll(kinds, bytes, little) == ([], 0) && !NoBlockIn(kinds, bytes, little, room)
    ensures kinds != [] ==>
      var r := Decode(kinds[0], bytes, little);
      if r.Short? then DecodeAll(kinds, bytes, little) == ([], r.used) && !NoBlockIn(kinds, bytes, little, room)
      else
        && DecodeAll(kinds, bytes, little) == Joined([r.item], r.used, DecodeAll(kinds[1..], bytes[r.used..], little))
        && (NoBlockIn(kinds, bytes, little, room) <==>
            (IsEmptyString(r.item) && r.used == room)
            || NoBlockIn(kinds[1..], bytes[r.used..], little, room - r.used))
  {
    hide Decode;
  }

  lemma AllFitFront(items: seq<Item>)
    requires items != []
    ensures AllFit(items) <==> Fits(items[0]) && AllFit(items[1..])
  {
    hide Fits;
    var more := items[1..];
    assert forall j | 0 <= j < |more| :: more[j] == items[j + 1];
    assert forall j | 0 < j < |items| :: items[j] == more[j - 1];
  }

  /** The front of a script, as it is written and as it is read. */
  lemma ScriptFront(items: seq<Item>, little: bool, rest: seq<Byte>)
    requires items != []
    ensures var e, tail := Encode(items[0], little), EncodeAll(items[1..], little) + rest;
            EncodeAll(items, little) + rest == e + tail && (e + tail)[|e|..] == tail
              && |EncodeAll(items, little)| == |e| + |tail| - |rest|
    ensures KindsOf(items) != [] && KindsOf(items)[0] == KindOf(items[0]) && KindsOf(items)[1..] == KindsOf(items[1..])
  {
    hide Encode, KindOf;
    var e, m := Encode(items[0], little), EncodeAll(items[1..], little);
    assert EncodeAll(items, little) == e + m && KindsOf(items) == [KindOf(items[0])] + KindsOf(items[1..]) by {
      hide Encode, KindOf;
    }
    hide EncodeAll, KindsOf;
    Associative(e, m, rest);
    FrontAndBack(e, m + rest);
  }

  /** A script of typed writes and the same typed reads: the same values, and the cursor at the same place. */
  lemma {:induction false} ScriptReadsBack(items: seq<Item>, little: bool, rest: seq<Byte>)
    ensures |EncodeAll(items, little)| >= |items|
    ensures var r := DecodeAll(KindsOf(items), EncodeAll(items, little) + rest, little);
            (AllFit(items) <==> r.0 == items) && (AllFit(items) ==> r.1 == |EncodeAll(items, little)|)
  {
    if items != [] {
      hide Decode, Encode, Fits, DecodeAll, EncodeAll, KindsOf, AllFit, KindOf;
      var i, more := items[0], items[1..];
      var tail := EncodeAll(more, little) + rest;
      ScriptFront(items, little, rest);
      AllFitFront(items);
      ItemReadsBack(i, little, tail);
      ScriptReadsBack(more, little, rest);
      ReadOn(KindsOf(items), EncodeAll(items, little) + rest, little, 0);
      var first := Decode(KindOf(i), Encode(i, little) + tail, little);
      if Fits(i) {
        Front(i, DecodeAll(KindsOf(more), tail, little).0, items);
      } else {
        Front(first.item, DecodeAll(KindsOf(more), (Encode(i, little) + tail)[first.used..], little).0, items);
      }
    }
  }

  lemma Front(i: Item, more: seq<Item>, items: seq<Item>)
    requires items != []
    ensures [i] + more == items <==> i == items[0] && more == items[1..]
  {
    assert items == [items[0]] + items[1..];
    assert ([i] + more)[0] == i && ([i] + more)[1..] == more;
  }

  /** What has been read, and that the rest of the script decides the rest. */
  predicate Progress(kinds: seq<Kind>, bytes: seq<Byte>, little: bool, room: int, got: seq<Item>, used: nat) {
    && |got| <= |kinds| && used <= |bytes|
    && DecodeAll(kinds, bytes, little) == Joined(got, used, DecodeAll(kinds[|got|..], bytes[used..], little))
    && (NoBlockIn(kinds, bytes, little, room) <==> NoBlockIn(kinds[|got|..], bytes[used..], little, room - used))
  }

  lemma ProgressStart(kinds: seq<Kind>, bytes: seq<Byte>, little: bool, room: int)
    ensures Progress(kinds, bytes, little, room, [], 0)
  {
    hide DecodeAll, NoBlockIn;
    assert kinds[0..] == kinds && bytes[0..] == bytes;
    var r := DecodeAll(kinds, bytes, little);
    assert [] + r.0 == r.0;
  }

  lemma ProgressStep(kinds: seq<Kind>, bytes: seq<Byte>, little: bool, room: int, got: seq<Item>, used: nat)
    requires Progress(kinds, bytes, little, room, got, used) && |got| < |kinds|
    ensures var r := Decode(kinds[|got|], bytes[used..], little);
            if r.Short? then ScriptOutcome(kinds, bytes, little, room, got, CutShort, used + r.used)
            else if IsEmptyString(r.item) && used + r.used == room then
              ScriptOutcome(kinds, bytes, little, room, got, NullBlock, used + r.used)
            else Progress(kinds, bytes, little, room, got + [r.item], used + r.used)
  {
    hide Decode, DecodeAll, NoBlockIn;
    var ks, bs := kinds[|got|..], bytes[used..];
    ReadOn(ks, bs, little, room - used);
    var r := Decode(ks[0], bs, little);
    SliceOfTail(bytes, used, r.used);
    assert ks[1..] == kinds[|got| + 1..];
    if r.Got? {
      var more := DecodeAll(ks[1..], bs[r.used..], little);
      assert got + ([r.item] + more.0) == (got + [r.item]) + more.0;
    } else {
      assert got + [] == got;
    }
  }

  lemma ProgressEnd(kinds: seq<Kind>, bytes: seq<Byte>, little: bool, room: int, got: seq<Item>, used: nat)
    requires Progress(kinds, bytes, little, room, got, used) && |got| == |kinds|
    ensures ScriptOutcome(kinds, bytes, little, room, got, Complete, used)
  {
    hide Decode, DecodeAll, NoBlockIn;
    ReadOn([], bytes[used..], little, room - used);
    assert got + [] == got;
  }

  /**
   What a script of reads ends with: the values up to the first read that is cut short and the bytes used,
   unless a read finds no block. There are `room` bytes up to the end of the last block.
   */
  predicate ScriptOutcome(kinds: seq<Kind>, bytes: seq<Byte>, little: bool, room: int,
                          got: seq<Item>, end: End, used: nat)
  {
    && (end == NullBlock <==> NoBlockIn(kinds, bytes, little, room))
    && (end != NullBlock ==> DecodeAll(kinds, bytes, little) == (got, used))
    && (end == Complete ==> |got| == |kinds|) && (end == CutShort ==> |got| < |kinds|)
  }

  /**
   What comes of writing values and reading values of the same kinds: the same ones if and only if every
   string fits its prefix, from as many bytes as were written; but an empty string that comes last finds
   no block if the blocks are `full`, that is, if the last one ends where the writing ended.
   */
  predicate WrittenAndRead(items: seq<Item>, little: bool, full: bool, got: seq<Item>, end: End, used: int) {
    && (AllFit(items) ==> (end == NullBlock <==> EndsEmpty(items) && full))
    && (end != NullBlock ==> (got == items <==> AllFit(items)))
    && (end != NullBlock && AllFit(items) ==> end == Complete && used == |EncodeAll(items, little)|)
  }

  lemma ScriptResult(items: seq<Item>, little: bool, rest: seq<Byte>, room: nat, got: seq<Item>, end: End, used: nat)
    ensures |EncodeAll(items, little) + rest| <= room &&
            ScriptOutcome(KindsOf(items), EncodeAll(items, little) + rest, little, room, got, end, used) ==>
            WrittenAndRead(items, little, |EncodeAll(items, little)| == room, got, end, used)
  {
    hide DecodeAll, NoBlockIn, EncodeAll, KindsOf, AllFit, EndsEmpty;
    if |EncodeAll(items, little) + rest| <= room {
      ScriptReadsBack(items, little, rest);
      ScriptBlocks(items, little, rest, room);
      KindsLength(items);
    }
  }

  predicate EndsEmpty(items: seq<Item>) {
    items != [] && IsEmptyString(items[|items| - 1])
  }

  /** Reading back what was written finds no block just for an empty string that comes last, at the very end. */
  lemma {:induction false} ScriptBlocks(items: seq<Item>, little: bool, rest: seq<Byte>, room: nat)
    requires |EncodeAll(items, little) + rest| <= room
    ensures AllFit(items) ==>
      (NoBlockIn(KindsOf(items), EncodeAll(items, little) + rest, little, room) <==>
       EndsEmpty(items) && |EncodeAll(items, little)| == room)
  {
    hide Decode, Encode, Fits, KindOf, NoBlockIn, EncodeAll, KindsOf, DecodeAll, AllFit, IsEmptyString;
    NoKinds();
    EncodeNone(little);
    if items == [] {
      ReadOn(KindsOf(items), EncodeAll(items, little) + rest, little, room);
    } else if AllFit(items) {
      var i, more := items[0], items[1..];
      var tail := EncodeAll(more, little) + rest;
      ScriptFront(items, little, rest);
      AllFitFront(items);
      ItemReadsBack(i, little, tail);
      ScriptReadsBack(more, little, rest);
      ReadOn(KindsOf(items), EncodeAll(items, little) + rest, little, room);
      var left := room - |Encode(i, little)|;
      ScriptBlocks(more, little, rest, left);
      LastItem(items);
      assert more != [] ==> |EncodeAll(more, little)| > 0;
    }
  }

  lemma LastItem(items: seq<Item>)
    requires items != []
    ensures EndsEmpty(items) <==> if items[1..] == [] then IsEmptyString(items[0]) else EndsEmpty(items[1..])
  {
    hide IsEmptyString;
  }

  lemma NoKinds()
    ensures KindsOf([]) == []
  {
  }

  lemma KindsLength(items: seq<Item>)
    ensures |KindsOf(items)| == |items|
  {
  }
}
