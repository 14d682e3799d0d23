/**
 The typed reads and writes of a byte array. Each write is one flat write of the item's encoding; each
 read is the decoding of the unread content.
 */
module TypedArrays {
  import opened Flat
  import opened Words
  import opened ByteArrays
  import opened Codecs
  import opened Items

  class TypedArray {
    const bytes: ByteArray
    const hostLittle: bool
    var littleEndian: bool

    constructor (baseSize: nat, hostLittle: bool)
      requires baseSize >= 1
      ensures fresh(bytes) && bytes.Valid() && fresh(bytes.nodes) && fresh(bytes.mem)
      ensures bytes.position == bytes.size == 0 && this.hostLittle == hostLittle && !littleEndian
    {
      bytes := new ByteArray(baseSize);
      this.hostLittle := hostLittle;
      littleEndian := false;
    }

    /** What is left to read. */
    ghost function Unread(): (s: seq<Byte>)
      requires bytes.Valid()
      reads bytes, bytes.nodes, bytes.mem
      ensures |s| == bytes.size - bytes.position
    {
      bytes.Content()[bytes.position..]
    }

    /** The cursor moved by `used`, and nothing else changed. */
    twostate predicate Moved(used: nat)
      reads bytes, bytes.nodes, bytes.mem
      requires old(bytes.Valid())
    {
      && bytes.Valid() && bytes.position == old(bytes.position) + used && bytes.Content() == old(bytes.Content())
      && used <= old(|Unread()|) && Unread() == old(Unread())[used..]
    }

    // -------------------------------------------------------------- writing

    method WriteFixed16(v: bv16)
      requires bytes.Valid()
      modifies bytes, bytes.nodes, bytes.mem
      ensures bytes.Wrote(old(bytes.Content()), old(bytes.position), Layout16(v, littleEndian)) && bytes.Grew()
              && bytes.Enlarged()
    {
      hide Layout16, Swap16, Overwrite, GrownTo;
      SwapTurns(v, 0, 0, hostLittle);
      var value := if littleEndian != hostLittle then Swap16(v) else v;
      bytes.Write(Layout16(value, hostLittle));
    }

    method WriteFixed32(v: bv32)
      requires bytes.Valid()
      modifies bytes, bytes.nodes, bytes.mem
      ensures bytes.Wrote(old(bytes.Content()), old(bytes.position), Layout32(v, littleEndian)) && bytes.Grew()
              && bytes.Enlarged()
    {
      hide Layout32, Swap32, Overwrite, GrownTo;
      SwapTurns(0, v, 0, hostLittle);
      var value := if littleEndian != hostLittle then Swap32(v) else v;
      bytes.Write(Layout32(value, hostLittle));
    }

    method WriteFixed64(v: bv64)
      requires bytes.Valid()
      modifies bytes, bytes.nodes, bytes.mem
      ensures bytes.Wrote(old(bytes.Content()), old(bytes.position), Layout64(v, littleEndian)) && bytes.Grew()
              && bytes.Enlarged()
    {
      hide Layout64, Swap64, Overwrite, GrownTo;
      SwapTurns(0, 0, v, hostLittle);
      var value := if littleEndian != hostLittle then Swap64(v) else v;
      bytes.Write(Layout64(value, hostLittle));
    }

    /** The groups of `v`, collected in a buffer of five bytes. */
    method Groups32(v: bv32) returns (s: seq<Byte>)
      ensures s == Varint32(v)
    {
      hide Small32, More32, Final32, Rest32, Varint32;
      VarintStep32(v);
      var tmp, i, value := new Byte[5], 0, v;
      while !Small32(value)
        invariant 0 <= i < 5 && tmp[..i] + Varint32(value) == Varint32(v) && |Varint32(value)| >= 1
        decreases 5 - i
      {
        VarintStep32(value);
        ghost var before := tmp[..i];
        tmp[i] := More32(value);
        assert tmp[..i + 1] == before + [More32(value)];
        Associative(before, [More32(value)], Varint32(Rest32(value)));
        i := i + 1;
        value := Rest32(value);
      }
      VarintStep32(value);
      tmp[i] := Final32(value);
      i := i + 1;
      return tmp[..i];
    }

    method WriteVar32(v: bv32)
      requires bytes.Valid()
      modifies bytes, bytes.nodes, bytes.mem
      ensures bytes.Wrote(old(bytes.Content()), old(bytes.position), Varint32(v)) && bytes.Grew() && bytes.Enlarged()
    {
      hide Varint32, Overwrite, GrownTo;
      var s := Groups32(v);
      bytes.Write(s);
    }

    /** The groups of `v`, collected in a buffer of ten bytes. */
    method Groups64(v: bv64) returns (s: seq<Byte>)
      ensures s == Varint64(v)
    {
      hide Small64, More64, Final64, Rest64, Varint64;
      VarintStep64(v);
      var tmp, i, value := new Byte[10], 0, v;
      while !Small64(value)
        invariant 0 <= i < 10 && tmp[..i] + Varint64(value) == Varint64(v) && |Varint64(value)| >= 1
        decreases 10 - i
      {
        VarintStep64(value);
        ghost var before := tmp[..i];
        tmp[i] := More64(value);
        assert tmp[..i + 1] == before + [More64(value)];
        Associative(before, [More64(value)], Varint64(Rest64(value)));
        i := i + 1;
        value := Rest64(value);
      }
      VarintStep64(value);
      tmp[i] := Final64(value);
      i := i + 1;
      return tmp[..i];
    }

    method WriteVar64(v: bv64)
      requires bytes.Valid()
      modifies bytes, bytes.nodes, bytes.mem
      ensures bytes.Wrote(old(bytes.Content()), old(bytes.position), Varint64(v)) && bytes.Grew() && bytes.Enlarged()
    {
      hide Varint64, Overwrite, GrownTo;
      var s := Groups64(v);
      bytes.Write(s);
    }

    method WriteSize(k: Kind, n: nat)
      requires bytes.Valid() && IsString(k)
      modifies bytes, bytes.nodes, bytes.mem
      ensures bytes.Wrote(old(bytes.Content()), old(bytes.position), Prefix(k, n, littleEndian)) && bytes.Grew()
              && bytes.Enlarged()
    {
      hide Layout16, Layout32, Layout64, Varint64, Size16, Size32, Size64, Overwrite, GrownTo;
      match k {
        case KString16 => WriteFixed16(Size16(n));
        case KString32 => WriteFixed32(Size32(n));
        case KString64 => WriteFixed64(Size64(n));
        case KStringVar => WriteVar64(Size64(n));
      }
    }

    method WriteString(k: Kind, s: seq<Byte>)
      requires bytes.Valid() && IsString(k)
      modifies bytes, bytes.nodes, bytes.mem
      ensures bytes.Wrote(old(bytes.Content()), old(bytes.position), Prefix(k, |s|, littleEndian) + s) && bytes.Grew()
              && bytes.Enlarged()
    {
      hide Prefix, Overwrite, ByteArray.Linked, GrownTo;
      ghost var content, at := bytes.Content(), bytes.position;
      ghost var capacity := bytes.capacity;
      WriteSize(k, |s|);
      OverwriteTwice(content, at, Prefix(k, |s|, littleEndian), s);
      GrownTwice(capacity, bytes.position, bytes.position + |s|, bytes.baseSize);
      bytes.Write(s);
    }

    /** A typed write of any kind. */
    method Write(i: Item)
      requires bytes.Valid()
      modifies bytes, bytes.nodes, bytes.mem
      ensures bytes.Wrote(old(bytes.Content()), old(bytes.position), Encode(i, littleEndian)) && bytes.Grew()
              && bytes.Enlarged()
    {
      hide Layout16, Layout32, Layout64, Varint32, Varint64, EncodeZigzag32, EncodeZigzag64, Prefix, Overwrite, GrownTo;
      match i {
        case Fix8(b) => bytes.Write([b]);
        case Fix16(h) => WriteFixed16(h);
        case Fix32(w) => WriteFixed32(w);
        case Fix64(d) => WriteFixed64(d);
        case Var32(w) => WriteVar32(w);
        case Var64(d) => WriteVar64(d);
        case Int32(w) => WriteVar32(EncodeZigzag32(w));
        case Int64(d) => WriteVar64(EncodeZigzag64(d));
        case _ => WriteString(KindOf(i), i.s);
      }
    }

    // -------------------------------------------------------------- reading

    /** The next `n` bytes of the content. */
    method Take(n: nat) returns (ok: bool, s: seq<Byte>)
      requires bytes.Valid() && (n > 0 || bytes.cur != null)
      modifies bytes`position, bytes`cur
      ensures ok <==> n <= old(|Unread()|)
      ensures Moved(if ok then n else 0)
      ensures ok ==> s == old(Unread())[..n]
    {
      hide ByteArray.Linked;
      ghost var content, at: nat := bytes.Content(), bytes.position;
      bytes.ContentLength();
      ok, s := bytes.Read(n);
      SliceOfTail(content, at, if ok then n else 0);
    }

    method ReadFixed16() returns (ok: bool, v: bv16)
      requires bytes.Valid()
      modifies bytes`position, bytes`cur
      ensures ok <==> 2 <= old(|Unread()|)
      ensures Moved(if ok then 2 else 0)
      ensures ok ==> v == Word16(old(Unread())[..2], littleEndian)
    {
      hide Word16, Swap16;
      var s;
      ok, s := Take(2);
      if !ok {
        return false, 0;
      }
      SwapReads16(s, hostLittle);
      v := Word16(s, hostLittle);
      v := if littleEndian == hostLittle then v else Swap16(v);
    }

    method ReadFixed32() returns (ok: bool, v: bv32)
      requires bytes.Valid()
      modifies bytes`position, bytes`cur
      ensures ok <==> 4 <= old(|Unread()|)
      ensures Moved(if ok then 4 else 0)
      ensures ok ==> v == Word32(old(Unread())[..4], littleEndian)
    {
      hide Word32, Swap32;
      var s;
      ok, s := Take(4);
      if !ok {
        return false, 0;
      }
      SwapReads32(s, hostLittle);
      v := Word32(s, hostLittle);
      v := if littleEndian == hostLittle then v else Swap32(v);
    }

    method ReadFixed64() returns (ok: bool, v: bv64)
      requires bytes.Valid()
      modifies bytes`position, bytes`cur
      ensures ok <==> 8 <= old(|Unread()|)
      ensures Moved(if ok then 8 else 0)
      ensures ok ==> v == Word64(old(Unread())[..8], littleEndian)
    {
      hide Word64, Swap64;
      var s;
      ok, s := Take(8);
      if !ok {
        return false, 0;
      }
      SwapReads64(s, hostLittle);
      v := Word64(s, hostLittle);
      v := if littleEndian == hostLittle then v else Swap64(v);
    }

    method ReadVar32() returns (ok: bool, v: bv32)
      requires bytes.Valid()
      modifies bytes`position, bytes`cur
      ensures var r := UnVarint32(old(Unread()), 0, 0);
              && (ok <==> r.Some?)
              && (ok ==> Moved(r.value.1) && v == r.value.0)
              && (!ok ==> Moved(old(|Unread()|)))
    {
      hide Last, Low32, Or32, Up32, Shift32, ShiftBy32, ByteArray.Linked;
      ghost var all := Unread();
      ghost var g: nat := 0;
      v := 0;
      var i: bv32 := 0;
      NextShift32(0);
      while i < 32
        invariant Moved(g) && g <= 5 && g <= |all| && i == Shift32(g)
        invariant UnVarint32(all, 0, 0) == UnVarint32(all, g, v)
        decreases 5 - g
      {
        NextShift32(g);
        var more, s := Take(1);
        if !more {
          return false, v;
        }
        var b := s[0];
        assert all[g..][..1][0] == all[g] && all[g..][1..] == all[g + 1..];
        ShiftIsUp32(Low32(b), g);
        v := Or32(v, ShiftBy32(Low32(b), i));
        if Last(b) {
          return true, v;
        }
        i := i + 7;
        g := g + 1;
      }
      NextShift32(g);
      return true, v;
    }

    method ReadVar64() returns (ok: bool, v: bv64)
      requires bytes.Valid()
      modifies bytes`position, bytes`cur
      ensures var r := UnVarint64(old(Unread()), 0, 0);
              && (ok <==> r.Some?)
              && (ok ==> Moved(r.value.1) && v == r.value.0)
              && (!ok ==> Moved(old(|Unread()|)))
    {
      hide Last, Low64, Or64, Up64, Shift64, ShiftBy64, ByteArray.Linked;
      ghost var all := Unread();
      ghost var g: nat := 0;
      v := 0;
      var i: bv64 := 0;
      NextShift64(0);
      while i < 64
        invariant Moved(g) && g <= 10 && g <= |all| && i == Shift64(g)
        invariant UnVarint64(all, 0, 0) == UnVarint64(all, g, v)
        decreases 10 - g
      {
        NextShift64(g);
        var more, s := Take(1);
        if !more {
          return false, v;
        }
        var b := s[0];
        assert all[g..][..1][0] == all[g] && all[g..][1..] == all[g + 1..];
        ShiftIsUp64(Low64(b), g);
        v := Or64(v, ShiftBy64(Low64(b), i));
        if Last(b) {
          return true, v;
        }
        i := i + 7;
        g := g + 1;
      }
      NextShift64(g);
      return true, v;
    }

    method ReadSize(k: Kind) returns (ok: bool, n: nat)
      requires bytes.Valid() && IsString(k)
      modifies bytes`position, bytes`cur
      ensures var r := ReadPrefix(k, old(Unread()), littleEndian);
              Moved(r.used) && (ok <==> r.Length?) && (ok ==> n == r.n)
    {
      hide UnVarint64, Word16, Word32, Word64, Count16, Count32, Count64, ByteArray.Linked;
      ok, n := false, 0;
      match k {
        case KString16 =>
          var v;
          ok, v := ReadFixed16();
          n := Count16(v);
        case KString32 =>
          var v;
          ok, v := ReadFixed32();
          n := Count32(v);
        case KString64 =>
          var v;
          ok, v := ReadFixed64();
          n := Count64(v);
        case KStringVar =>
          var v;
          ok, v := ReadVar64();
          n := Count64(v);
      }
    }

    /** The reply to a reading: for an empty string at the end of the last block there is none. */
    ghost function ReplyTo(r: Reading): Reply<Item>
      reads bytes
    {
      match r
      case Short(_) => OutOfRange
      case Got(i, _) =>
        if IsEmptyString(i) && bytes.position == bytes.capacity then NoBlock else Value(i)
    }

    /** The bytes of a string whose length has been read. */
    method TakeText(k: Kind, n: nat) returns (reply: Reply<Item>)
      requires bytes.Valid() && IsString(k)
      modifies bytes`position, bytes`cur
      ensures Moved(if n <= old(|Unread()|) then n else 0)
      ensures reply == if n > old(|Unread()|) then OutOfRange
                       else if n == 0 && bytes.position == bytes.capacity then NoBlock
                       else Value(StringOf(k, old(Unread())[..n]))
    {
      hide ByteArray.Linked, StringOf;
      if n > bytes.ReadSize() {
        return OutOfRange;
      }
      bytes.CursorNull();
      if n == 0 && bytes.cur == null {
        return NoBlock;
      }
      var _, s := Take(n);
      return Value(StringOf(k, s));
    }

    method ReadString(k: Kind) returns (reply: Reply<Item>)
      requires bytes.Valid() && IsString(k)
      modifies bytes`position, bytes`cur
      ensures var r := Decode(k, old(Unread()), littleEndian); Moved(r.used) && reply == ReplyTo(r)
    {
      hide ReadPrefix, ByteArray.Valid, ByteArray.Content, Decode, KindOf, StringOf;
      ghost var all := Unread();
      StringReading(k, all, littleEndian);
      var ok, n := ReadSize(k);
      if !ok {
        return OutOfRange;
      }
      ghost var used := ReadPrefix(k, all, littleEndian).used;
      reply := TakeText(k, n);
      if n <= |all| - used {
        SliceOfTail(all, used, n);
        assert all[used..][..n] == all[used..used + n];
      }
    }

    /** A typed read of any kind. */
    method Read(k: Kind) returns (reply: Reply<Item>)
      requires bytes.Valid()
      modifies bytes`position, bytes`cur
      ensures var r := Decode(k, old(Unread()), littleEndian); Moved(r.used) && reply == ReplyTo(r)
    {
      hide Word16, Word32, Word64, UnVarint32, UnVarint64, DecodeZigzag32, DecodeZigzag64, ByteArray.Linked;
      if IsString(k) {
        reply := ReadString(k);
      } else if IsFixed(k) {
        reply := ReadFixed(k);
      } else {
        reply := ReadVar(k);
      }
    }

    method ReadFixed(k: Kind) returns (reply: Reply<Item>)
      requires bytes.Valid() && IsFixed(k)
      modifies bytes`position, bytes`cur
      ensures var r := DecodeFixed(k, old(Unread()), littleEndian); Moved(r.used) && reply == ReplyTo(r)
    {
      hide Word16, Word32, Word64, ByteArray.Linked;
      match k {
        case KFix8 =>
          var ok, s := Take(1);
          return if ok then Value(Fix8(s[0])) else OutOfRange;
        case KFix16 =>
          var ok, h := ReadFixed16();
          return if ok then Value(Fix16(h)) else OutOfRange;
        case KFix32 =>
          var ok, w := ReadFixed32();
          return if ok then Value(Fix32(w)) else OutOfRange;
        case KFix64 =>
          var ok, d := ReadFixed64();
          return if ok then Value(Fix64(d)) else OutOfRange;
      }
    }

    method ReadVar(k: Kind) returns (reply: Reply<Item>)
      requires bytes.Valid() && !IsFixed(k) && !IsString(k)
      modifies bytes`position, bytes`cur
      ensures var r := Decode(k, old(Unread()), littleEndian); Moved(r.used) && reply == ReplyTo(r)
    {
      hide UnVarint32, UnVarint64, DecodeZigzag32, DecodeZigzag64, ByteArray.Linked;
      match k {
        case KVar32 =>
          var ok, w := ReadVar32();
          return if ok then Value(Var32(w)) else OutOfRange;
        case KInt32 =>
          var ok, w := ReadVar32();
          return if ok then Value(Int32(DecodeZigzag32(w))) else OutOfRange;
        case KVar64 =>
          var ok, d := ReadVar64();
          return if ok then Value(Var64(d)) else OutOfRange;
        case KInt64 =>
          var ok, d := ReadVar64();
          return if ok then Value(Int64(DecodeZigzag64(d))) else OutOfRange;
      }
    }

    // -------------------------------------------------------------- scripts

    method WriteScript(items: seq<Item>)
      requires bytes.Valid()
      modifies bytes, bytes.nodes, bytes.mem
      ensures bytes.Wrote(old(bytes.Content()), old(bytes.position), EncodeAll(items, littleEndian)) && bytes.Grew()
              && bytes.Enlarged()
    {
      hide Encode, Overwrite, ByteArray.Linked, EncodeAll, GrownTo;
      ghost var content, at, little := bytes.Content(), bytes.position, littleEndian;
      ghost var capacity := bytes.capacity;
      assert bytes.Enlarged() by {
        bytes.RoomEnough();
      }
      bytes.ContentLength();
      OverwriteNothing(content, at);
      EncodeNone(little);
      for i := 0 to |items|
        invariant bytes.Wrote(content, at, EncodeAll(items[..i], little)) && bytes.Grew() && bytes.Enlarged()
      {
        EncodeOneMore(items, i, little);
        OverwriteTwice(content, at, EncodeAll(items[..i], little), Encode(items[i], little));
        GrownTwice(capacity, bytes.position, bytes.position + |Encode(items[i], little)|, bytes.baseSize);
        Write(items[i]);
      }
      assert items[..|items|] == items;
    }

    /** The typed reads in turn, up to the first that gives no value. */
    method ReadScript(kinds: seq<Kind>) returns (got: seq<Item>, end: End, ghost used: nat)
      requires bytes.Valid()
      modifies bytes`position, bytes`cur
      ensures Moved(used)
      ensures ScriptOutcome(kinds, old(Unread()), littleEndian, bytes.capacity - old(bytes.position), got, end, used)
    {
      hide Decode, ByteArray.Linked, Progress, ScriptOutcome, KindOf, ByteArray.Content;
      ghost var all, little, room := Unread(), littleEndian, bytes.capacity - bytes.position;
      ghost var content, at := bytes.Content(), bytes.position;
      used := 0;
      got := [];
      ProgressStart(kinds, all, little, room);
      assert all[0..] == all;
      for i := 0 to |kinds|
        invariant bytes.Valid() && bytes.position == at + used && bytes.Content() == content
        invariant used <= |all| && Unread() == all[used..] && |got| == i
        invariant Progress(kinds, all, little, room, got, used)
      {
        ghost var r := Decode(kinds[i], all[used..], little);
        SliceOfTail(all, used, r.used);
        ProgressStep(kinds, all, little, room, got, used);
        var reply := Read(kinds[i]);
        used := used + r.used;
        if !reply.Value? {
          return got, if reply == NoBlock then NullBlock else CutShort, used;
        }
        got := got + [reply.v];
      }
      ProgressEnd(kinds, all, little, room, got, used);
      return got, Complete, used;
    }

    /**
     Write values, go back, read values of the same kinds. The same values are read if and only if all
     strings fit their prefixes, and the cursor ends where the writing ended; the blocks in between do not
     matter, but for one case: an empty string that comes last, and ends where the capacity before did or,
     behind that, where a block ends.
     */
    method WriteThenRead(items: seq<Item>) returns (got: seq<Item>, end: End)
      requires bytes.Valid()
      modifies bytes, bytes.nodes, bytes.mem
      ensures bytes.Valid()
              && bytes.Content() == Overwrite(old(bytes.Content()), old(bytes.position), EncodeAll(items, littleEndian))
      ensures var last := old(bytes.position) + |EncodeAll(items, littleEndian)|;
              var full := last == old(bytes.capacity)
                          || (last > old(bytes.capacity) && Offset(last, bytes.baseSize) == 0);
              WrittenAndRead(items, littleEndian, full, got, end, bytes.position - old(bytes.position))
    {
      hide Overwrite, ByteArray.Linked, EncodeAll, WrittenAndRead, ScriptOutcome, KindsOf, GrownTo, Offset;
      ghost var last, capacity := bytes.position + |EncodeAll(items, littleEndian)|, bytes.capacity;
      WriteAndGoBack(items);
      GrownExactly(capacity, last, bytes.baseSize);
      ghost var all, e, room := Unread(), EncodeAll(items, littleEndian), bytes.capacity - bytes.position;
      ghost var used;
      got, end, used := ReadScript(KindsOf(items));
      ScriptResult(items, littleEndian, all[|e|..], room, got, end, used);
    }

    /** Back to where the values were written: there they are, unread. */
    method WriteAndGoBack(items: seq<Item>)
      requires bytes.Valid()
      modifies bytes, bytes.nodes, bytes.mem
      ensures bytes.Valid() && bytes.position == old(bytes.position)
      ensures bytes.Content() == Overwrite(old(bytes.Content()), old(bytes.position), EncodeAll(items, littleEndian))
      ensures bytes.baseSize >= 1
      ensures bytes.capacity ==
              GrownTo(old(bytes.capacity), old(bytes.position) + |EncodeAll(items, littleEndian)|, bytes.baseSize)
      ensures var e := EncodeAll(items, littleEndian);
              e <= Unread() && Unread() == e + Unread()[|e|..] && |Unread()| <= bytes.capacity - bytes.position
    {
      hide Overwrite, ByteArray.Linked, EncodeAll, GrownTo;
      ghost var content, e := bytes.Content(), EncodeAll(items, littleEndian);
      var start: nat := bytes.position;
      bytes.ContentLength();
      WriteScript(items);
      bytes.ContentLength();
      OverwriteReads(content, start, e);
      var _ := bytes.SetPosition(start);
      bytes.ContentLength();
      SliceOfTail(bytes.Content(), start, |e|);
    }
  }
}
