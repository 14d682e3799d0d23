/**
 Base64 (section 4 of RFC 4648).
 */
module Base64 {
  import opened Options
  import opened Flat
  import opened Characters

  const PAD: Byte := 61

  /** The letter for six bits, and the six bits of a letter; 64 for any other byte. */
  function Letter(v: Byte): Byte {
    if v < 26 then v + 65 else if v < 52 then v + 71 else if v < 62 then v - 4 else if v == 62 then 43 else 47
  }

  function Value(b: Byte): Byte {
    if 65 <= b <= 90 then b - 65
    else if 97 <= b <= 122 then b - 97 + 26
    else if 48 <= b <= 57 then b - 48 + 52
    else if b == 43 then 62
    else if b == 47 then 63
    else 64
  }

  predicate IsLetter(b: Byte) {
    Value(b) < 64
  }

  lemma Letters(v: Byte)
    ensures v < 64 ==> Value(Letter(v)) == v && Letter(v) != PAD
    ensures IsLetter(v) ==> Letter(Value(v)) == v && v != PAD
    ensures Value(v) <= 64
  {
  }

  /** Three bytes in one word, and its four groups of six bits. */
  function Push(w: bv32, b: Byte): bv32 {
    (w << 8) | (b as bv32)
  }

  function Pack(a: Byte, b: Byte, c: Byte): bv32 {
    Push(Push(Push(0, a), b), c)
  }

  function Sextet0(w: bv32): Byte { ((w >> 18) & 0x3f) as Byte }

  function Sextet1(w: bv32): Byte { ((w >> 12) & 0x3f) as Byte }

  function Sextet2(w: bv32): Byte { ((w >> 6) & 0x3f) as Byte }

  function Sextet3(w: bv32): Byte { (w & 0x3f) as Byte }

  function Octet0(w: bv32): Byte { ((w >> 16) & 0xff) as Byte }

  function Octet1(w: bv32): Byte { ((w >> 8) & 0xff) as Byte }

  function Octet2(w: bv32): Byte { (w & 0xff) as Byte }

  function Append(w: bv32, v: Byte): bv32 {
    (w << 6) | (v as bv32)
  }

  function Shift(w: bv32): bv32 {
    w << 6
  }

  function Four(v0: Byte, v1: Byte, v2: Byte, v3: Byte): bv32 {
    Append(Append(Append(Append(0, v0), v1), v2), v3)
  }

  lemma PackOctets(a: Byte, b: Byte, c: Byte)
    ensures Pack(a, b, c) < 0x100_0000
    ensures Octet0(Pack(a, b, c)) == a && Octet1(Pack(a, b, c)) == b && Octet2(Pack(a, b, c)) == c
  {
  }

  lemma PackSextets(a: Byte, b: Byte)
    ensures Sextet3(Pack(a, b, 0)) == 0 && Sextet2(Pack(a, 0, 0)) == 0
  {
  }

  lemma Join24(w: bv32)
    requires w < 0x100_0000
    ensures Push(Push(Push(0, Octet0(w)), Octet1(w)), Octet2(w)) == w
    ensures Four(Sextet0(w), Sextet1(w), Sextet2(w), Sextet3(w)) == w
    ensures Sextet0(w) < 64 && Sextet1(w) < 64 && Sextet2(w) < 64 && Sextet3(w) < 64
  {
  }

  lemma FourSextets(v0: Byte, v1: Byte, v2: Byte, v3: Byte)
    requires v0 < 64 && v1 < 64 && v2 < 64 && v3 < 64
    ensures Four(v0, v1, v2, v3) < 0x100_0000
    ensures var w := Four(v0, v1, v2, v3);
            Sextet0(w) == v0 && Sextet1(w) == v1 && Sextet2(w) == v2 && Sextet3(w) == v3
  {
  }

  lemma DropTwo(v0: Byte, v1: Byte, v2: Byte)
    requires v0 < 64 && v1 < 64 && v2 < 64
    ensures var w := Four(v0, v1, v2, 0);
            var p := Pack(Octet0(w), Octet1(w), 0);
            Sextet0(p) == v0 && Sextet1(p) == v1 && Sextet2(p) == v2 & 0x3c
  {
  }

  lemma DropFour(v0: Byte, v1: Byte)
    requires v0 < 64 && v1 < 64
    ensures var w := Four(v0, v1, 0, 0);
            var p := Pack(Octet0(w), 0, 0);
            Sextet0(p) == v0 && Sextet1(p) == v1 & 0x30
  {
  }

  lemma Dropped(v: Byte)
    requires v < 64
    ensures v & 0x3c < 64 && v & 0x30 < 64
    ensures (v & 0x3c == v <==> v & 3 == 0) && (v & 0x30 == v <==> v & 15 == 0)
  {
  }

  /** Packing and taking apart, both ways round. */
  lemma Bits(a: Byte, b: Byte, c: Byte)
    ensures var w := Pack(a, b, c);
            && Four(Sextet0(w), Sextet1(w), Sextet2(w), Sextet3(w)) == w
            && Octet0(w) == a && Octet1(w) == b && Octet2(w) == c
            && Sextet0(w) < 64 && Sextet1(w) < 64 && Sextet2(w) < 64 && Sextet3(w) < 64
            && (c == 0 ==> Sextet3(w) == 0) && (b == 0 && c == 0 ==> Sextet2(w) == 0)
  {
    hide Pack, Four, Sextet0, Sextet1, Sextet2, Sextet3, Octet0, Octet1, Octet2;
    PackOctets(a, b, c);
    PackSextets(a, b);
    Join24(Pack(a, b, c));
  }

  lemma BitsBack(v0: Byte, v1: Byte, v2: Byte, v3: Byte)
    requires v0 < 64 && v1 < 64 && v2 < 64 && v3 < 64
    ensures var w := Four(v0, v1, v2, v3);
            && Pack(Octet0(w), Octet1(w), Octet2(w)) == w
            && Sextet0(w) == v0 && Sextet1(w) == v1 && Sextet2(w) == v2 && Sextet3(w) == v3
  {
    hide Four, Sextet0, Sextet1, Sextet2, Sextet3, Octet0, Octet1, Octet2, Push;
    FourSextets(v0, v1, v2, v3);
    Join24(Four(v0, v1, v2, v3));
  }

  /** The four characters for one to three bytes. */
  function EncodeGroup(s: seq<Byte>): (r: seq<Byte>)
    requires 1 <= |s| <= 3
    ensures |r| == 4
  {
    var w := Pack(s[0], if |s| > 1 then s[1] else 0, if |s| > 2 then s[2] else 0);
    [Letter(Sextet0(w)), Letter(Sextet1(w)),
     if |s| > 1 then Letter(Sextet2(w)) else PAD, if |s| > 2 then Letter(Sextet3(w)) else PAD]
  }

  function Encode(data: seq<Byte>): seq<Byte> {
    if data == [] then []
    else if |data| < 3 then EncodeGroup(data)
    else EncodeGroup(data[..3]) + Encode(data[3..])
  }

  /** What is known of a group after some of its characters: the bits so far and the padding, or that it is wrong. */
  datatype Group = Group(packed: bv32, padding: nat) | Bad

  function Step(g: Group, b: Byte): Group {
    if g.Bad? then Bad
    else if b == PAD then Group(Shift(g.packed), g.padding + 1)
    else if g.padding > 0 || !IsLetter(b) then Bad
    else Group(Append(g.packed, Value(b)), 0)
  }

  function Read(s: seq<Byte>): (g: Group)
    ensures g.Group? ==> g.padding <= |s|
  {
    if s == [] then Group(0, 0) else Step(Read(s[..|s| - 1]), s[|s| - 1])
  }

  function Octets(g: Group): seq<Byte>
    requires g.Group?
  {
    [Octet0(g.packed)] + (if g.padding != 2 then [Octet1(g.packed)] else []) +
      (if g.padding == 0 then [Octet2(g.packed)] else [])
  }

  /** The bytes that `src` stands for, or None if it is malformed. */
  function Decode(src: seq<Byte>): Option<seq<Byte>> {
    if src == [] then Some([])
    else if |src| < 4 then None
    else
      var g := Read(src[..4]);
      if g.Bad? || (g.padding > 0 && |src| > 4) || g.padding > 2 then None
      else
        match Decode(src[4..])
        case None => None
        case Some(more) => Some(Octets(g) + more)
  }

  // ---------------------------------------------------------------- meaning

  lemma ReadFour(s: seq<Byte>)
    requires |s| == 4
    ensures Read(s) == Step(Step(Step(Step(Group(0, 0), s[0]), s[1]), s[2]), s[3])
  {
    assert s[..3][..2] == s[..2] && s[..2][..1] == s[..1] && s[..1][..0] == [];
    assert Read(s[..1]) == Step(Group(0, 0), s[0]);
    assert Read(s[..2]) == Step(Read(s[..1]), s[1]);
    assert Read(s[..3]) == Step(Read(s[..2]), s[2]);
  }

  lemma {:induction false} GroupReadsBack(s: seq<Byte>)
    requires 1 <= |s| <= 3
    ensures Read(EncodeGroup(s)).Group? && Read(EncodeGroup(s)).padding == 3 - |s| && Octets(Read(EncodeGroup(s))) == s
  {
    hide Letter, Value, Pack, Sextet0, Sextet1, Sextet2, Sextet3, Octet0, Octet1, Octet2;
    var a, b, c := s[0], if |s| > 1 then s[1] else 0, if |s| > 2 then s[2] else 0;
    var w := Pack(a, b, c);
    Bits(a, b, c);
    Letters(Sextet0(w));
    Letters(Sextet1(w));
    Letters(Sextet2(w));
    Letters(Sextet3(w));
    ReadFour(EncodeGroup(s));
    AppendNothing(Append(Append(0, Sextet0(w)), Sextet1(w)));
    AppendNothing(Append(Append(Append(0, Sextet0(w)), Sextet1(w)), Sextet2(w)));
  }

  lemma AppendNothing(w: bv32)
    ensures Shift(w) == Append(w, 0)
  {
  }

  lemma EncodeStep(data: seq<Byte>)
    requires data != []
    ensures var n := if |data| < 3 then |data| else 3; Encode(data) == EncodeGroup(data[..n]) + Encode(data[n..])
  {
    hide EncodeGroup;
    if |data| < 3 {
      assert data[..|data|] == data && data[|data|..] == [] && EncodeGroup(data) + [] == EncodeGroup(data);
    }
  }

  function Behind(s: seq<Byte>, r: Option<seq<Byte>>): Option<seq<Byte>> {
    match r
    case None => None
    case Some(more) => Some(s + more)
  }

  lemma DecodeStep(src: seq<Byte>)
    requires src != []
    ensures Decode(src) ==
            if |src| < 4 then None
            else
              var g := Read(src[..4]);
              if g.Bad? || (g.padding > 0 && |src| > 4) || g.padding > 2 then None
                else Behind(Octets(g), Decode(src[4..]))
  {
    hide Read, Octets;
  }

  lemma EncodeNothing()
    ensures Encode([]) == [] && Decode([]) == Some([])
  {
  }

  /** Decoding what was encoded gives the data back; the length is four for each three bytes begun. */
  lemma {:induction false} RoundTrip(data: seq<Byte>)
    ensures Decode(Encode(data)) == Some(data)
    ensures |Encode(data)| == 4 * ((|data| + 2) / 3)
    decreases |data|
  {
    hide EncodeGroup, Read, Octets, Encode, Decode;
    EncodeNothing();
    if data != [] {
      var n := if |data| < 3 then |data| else 3;
      var s, rest := data[..n], data[n..];
      EncodeStep(data);
      GroupReadsBack(s);
      RoundTrip(rest);
      var e := Encode(data);
      DecodeStep(e);
      assert e[..4] == EncodeGroup(s) && e[4..] == Encode(rest);
      assert s + rest == data;
    }
  }

  /** Well-formed: whole groups of letters, of which the last may end in one or two pads. */
  predicate WellFormed(src: seq<Byte>) {
    && |src| % 4 == 0
    && (forall i | 0 <= i < |src| - 2 :: IsLetter(src[i]))
    && (|src| > 0 ==>
        (IsLetter(src[|src| - 2]) || (src[|src| - 2] == PAD && src[|src| - 1] == PAD))
        && (IsLetter(src[|src| - 1]) || src[|src| - 1] == PAD))
  }

  /** Which groups can be read, and what they give. */
  lemma ReadGroup(s: seq<Byte>)
    requires |s| == 4
    ensures var g := Read(s);
            && (g.Group? && g.padding <= 2 <==> WellFormed(s))
            && (g.Group? && g.padding == 0 <==> forall i | 0 <= i < 4 :: IsLetter(s[i]))
  {
    hide IsLetter, Append, Value;
    Letters(PAD);
    ReadFour(s);
    assert !IsLetter(PAD) by {
      PadIsNoLetter();
    }
  }

  lemma PadIsNoLetter()
    ensures !IsLetter(PAD)
  {
  }

  /** Decoding succeeds on exactly the well-formed strings. */
  lemma {:induction false} DecodesWellFormed(src: seq<Byte>)
    ensures Decode(src).Some? <==> WellFormed(src)
    ensures Decode(src).Some? && src != [] ==> Decode(src).value != []
    decreases |src|
  {
    hide IsLetter, Read, Octets, Decode, WellFormed;
    EncodeNothing();
    assert WellFormed(src) ==> |src| == 0 || |src| >= 4 by {
      WholeGroups(src);
    }
    if src != [] {
      DecodeStep(src);
    } else {
      WholeGroups(src);
    }
    if |src| >= 4 {
      ReadGroup(src[..4]);
      DecodesWellFormed(src[4..]);
      WellFormedTail(src);
      OctetsSome(Read(src[..4]));
      assert |src| == 4 ==> src[..4] == src;
      AllLetters(src);
    }
  }

  lemma WholeGroups(src: seq<Byte>)
    ensures WellFormed(src) ==> |src| == 0 || |src| >= 4
    ensures src == [] ==> WellFormed(src)
  {
  }

  lemma AllLetters(src: seq<Byte>)
    requires |src| >= 4
    ensures (forall i | 0 <= i < 4 :: IsLetter(src[i])) <==> forall i | 0 <= i < 4 :: IsLetter(src[..4][i])
  {
    hide IsLetter;
    assert forall i | 0 <= i < 4 :: src[..4][i] == src[i];
  }

  lemma OctetsSome(g: Group)
    ensures g.Group? ==> |Octets(g)| > 0
  {
  }

  lemma WellFormedTail(src: seq<Byte>)
    requires |src| >= 4
    ensures WellFormed(src) <==>
            WellFormed(src[..4]) && WellFormed(src[4..]) && (|src| > 4 ==> forall i | 0 <= i < 4 :: IsLetter(src[i]))
  {
    hide IsLetter;
    var more := src[4..];
    assert forall i | 0 <= i < |more| :: more[i] == src[i + 4];
    assert forall i | 4 <= i < |src| :: src[i] == more[i - 4];
    assert forall i | 0 <= i < 4 :: src[..4][i] == src[i];
  }

  /** The bits that padding leaves over are zero. */
  predicate Canonical(src: seq<Byte>) {
    |src| >= 4 ==>
      var n := |src|;
      && (src[n - 2] == PAD ==> Value(src[n - 3]) & 15 == 0)
      && (src[n - 2] != PAD && src[n - 1] == PAD ==> Value(src[n - 2]) & 3 == 0)
  }

  lemma GroupBits(s: seq<Byte>)
    requires |s| == 4 && WellFormed(s)
    ensures var v2, v3 := if s[2] == PAD then 0 else Value(s[2]), if s[3] == PAD then 0 else Value(s[3]);
            && Read(s) ==
               Group(Four(Value(s[0]), Value(s[1]), v2, v3), if s[2] == PAD then 2 else if s[3] == PAD then 1 else 0)
            && Value(s[0]) < 64 && Value(s[1]) < 64 && v2 < 64 && v3 < 64
  {
    hide Append, Value, Shift, Read;
    ReadFour(s);
    PadIsNoLetter();
    var two := Append(Append(0, Value(s[0])), Value(s[1]));
    assert Step(Step(Group(0, 0), s[0]), s[1]) == Group(two, 0);
    AppendNothing(two);
    AppendNothing(Append(two, 0));
    AppendNothing(Append(two, Value(s[2])));
  }

  lemma SameLetters(v: Byte, b: Byte)
    requires v < 64 && IsLetter(b)
    ensures Letter(v) == b <==> v == Value(b)
  {
    Letters(v);
    Letters(b);
  }

  /** A group is encoded again as it was if and only if no bits are left over. */
  lemma GroupEncodesBack(s: seq<Byte>)
    requires |s| == 4 && WellFormed(s)
    ensures Read(s).Group? && 1 <= |Octets(Read(s))| <= 3 && (s[3] != PAD ==> |Octets(Read(s))| == 3)
    ensures EncodeGroup(Octets(Read(s))) == s <==> Canonical(s)
  {
    hide Read, Four, Letter, Value, Pack, Sextet0, Sextet1, Sextet2, Sextet3, Octet0, Octet1, Octet2;
    var v0, v1 := Value(s[0]), Value(s[1]);
    GroupBits(s);
    PadIsNoLetter();
    SameLetters(v0, s[0]);
    SameLetters(v1, s[1]);
    if s[2] == PAD {
      DropFour(v0, v1);
      Dropped(v1);
      SameLetters(v1 & 0x30, s[1]);
    } else if s[3] == PAD {
      DropTwo(v0, v1, Value(s[2]));
      Dropped(Value(s[2]));
      SameLetters(Value(s[2]) & 0x3c, s[2]);
    } else {
      BitsBack(v0, v1, Value(s[2]), Value(s[3]));
      SameLetters(Value(s[2]), s[2]);
      SameLetters(Value(s[3]), s[3]);
    }
  }

  lemma EncodeOne(s: seq<Byte>)
    requires 1 <= |s| <= 3
    ensures Encode(s) == EncodeGroup(s)
  {
    if |s| == 3 {
      assert s[..3] == s && s[3..] == [];
    }
  }

  lemma CanonicalTail(src: seq<Byte>)
    requires |src| >= 8
    ensures Canonical(src) <==> Canonical(src[4..])
  {
  }

  /** Encoding what was decoded gives the string back if and only if it is canonical. */
  lemma {:induction false} EncodesBack(src: seq<Byte>)
    requires WellFormed(src)
    ensures Decode(src).Some?
    ensures Encode(Decode(src).value) == src <==> Canonical(src)
    decreases |src|
  {
    hide Read, Octets, EncodeGroup, IsLetter;
    DecodesWellFormed(src);
    if src != [] {
      var s, more := src[..4], src[4..];
      WellFormedTail(src);
      ReadGroup(s);
      GroupEncodesBack(s);
      EncodesBack(more);
      var octets, rest := Octets(Read(s)), Decode(more).value;
      if more == [] {
        assert octets + rest == octets && s == src;
        EncodeOne(octets);
      } else {
        PadIsNoLetter();
        DecodesWellFormed(more);
        assert IsLetter(s[2]) && IsLetter(s[3]);
        assert (octets + rest)[..3] == octets && (octets + rest)[3..] == rest;
        CanonicalTail(src);
        assert src == s + more;
      }
    }
  }

  // ---------------------------------------------------------------- the loops

  function Packed(s: seq<Byte>): bv32 {
    if s == [] then 0 else Push(Packed(s[..|s| - 1]), s[|s| - 1])
  }

  lemma PackedThree(s: seq<Byte>)
    requires 1 <= |s| <= 3
    ensures Packed(s + seq(3 - |s|, _ => 0)) == Pack(s[0], if |s| > 1 then s[1] else 0, if |s| > 2 then s[2] else 0)
  {
    var t := s + seq(3 - |s|, _ => 0);
    assert t[..2][..1] == t[..1] && t[..1][..0] == [];
    assert Packed(t[..1]) == Push(0, t[0]);
    assert Packed(t[..2]) == Push(Packed(t[..1]), t[1]);
  }

  lemma PackedMore(s: seq<Byte>, b: Byte)
    ensures Packed([]) == 0 && Packed(s + [b]) == Push(Packed(s), b)
  {
    assert (s + [b])[..|s|] == s;
  }

  function Shift8(w: bv32): bv32 {
    w << 8
  }

  lemma PushNothing(w: bv32)
    ensures Shift8(w) == Push(w, 0)
  {
  }

  /** Up to three bytes from `start` on in one word; how many are missing. */
  method PackGroup(data: seq<Byte>, start: nat) returns (packed: bv32, padding: nat, ptr: nat)
    requires start < |data|
    ensures ptr == (if start + 3 <= |data| then start + 3 else |data|) && padding == 3 - (ptr - start)
    ensures var s := data[start..ptr]; packed == Pack(s[0], if |s| > 1 then s[1] else 0, if |s| > 2 then s[2] else 0)
  {
    hide Push, Packed, Shift8, Pack;
    packed, padding, ptr := 0, 0, start;
    var i := 0;
    ghost var group: seq<Byte> := [];
    PackedMore([], 0);
    while i < 3 && ptr < |data|
      invariant 0 <= i <= 3 && ptr == start + i <= |data|
      invariant group == data[start..ptr] && packed == Packed(group)
    {
      PackedMore(group, data[ptr]);
      group := group + [data[ptr]];
      packed := Push(packed, data[ptr]);
      i, ptr := i + 1, ptr + 1;
    }
    if i == 2 {
      padding := 1;
    } else if i == 1 {
      padding := 2;
    }
    ghost var n := i;
    while i < 3
      invariant n <= i <= 3
      invariant group == data[start..ptr] + seq(i - n, _ => 0) && packed == Packed(group)
    {
      PackedMore(group, 0);
      PushNothing(packed);
      group := group + [0];
      packed := Shift8(packed);
      i := i + 1;
    }
    PackedThree(data[start..ptr]);
  }

  lemma TopSextet(w: bv32)
    requires w < 0x100_0000
    ensures w >> 18 < 64 && (w >> 18) as Byte == Sextet0(w)
  {
  }

  /** The four characters for a group with `padding` bytes missing. */
  method Emit(packed: bv32, padding: nat) returns (r: seq<Byte>)
    requires packed < 0x100_0000 && padding <= 2
    ensures r == [Letter(Sextet0(packed)), Letter(Sextet1(packed)),
                  if padding < 2 then Letter(Sextet2(packed)) else PAD,
                  if padding < 1 then Letter(Sextet3(packed)) else PAD]
  {
    hide Letter;
    TopSextet(packed);
    r := [Letter((packed >> 18) as Byte)];
    r := r + [Letter(((packed >> 12) & 0x3f) as Byte)];
    if padding != 2 {
      r := r + [Letter(((packed >> 6) & 0x3f) as Byte)];
    }
    if padding == 0 {
      r := r + [Letter((packed & 0x3f) as Byte)];
    }
    r := r + seq(padding, _ => PAD);
  }

  method Base64Encode(data: seq<Byte>) returns (ret: seq<Byte>)
    ensures ret == Encode(data)
  {
    hide Letter, Pack, Sextet0, Sextet1, Sextet2, Sextet3, Encode;
    ret := [];
    var ptr: nat := 0;
    assert data[0..] == data;
    while ptr < |data|
      invariant 0 <= ptr <= |data|
      invariant ret + Encode(data[ptr..]) == Encode(data)
    {
      ghost var start := ptr;
      var packed, padding, r;
      packed, padding, ptr := PackGroup(data, ptr);
      ghost var s := data[start..ptr];
      PackOctets(s[0], if |s| > 1 then s[1] else 0, if |s| > 2 then s[2] else 0);
      r := Emit(packed, padding);
      assert r == EncodeGroup(s);
      SliceOfTail(data, start, ptr - start);
      EncodeStep(data[start..]);
      assert ret + (r + Encode(data[ptr..])) == ret + r + Encode(data[ptr..]);
      ret := ret + r;
    }
    EncodeNothing();
    assert data[ptr..] == [] && ret + [] == ret;
  }

  /** One group of a string: what it gives, or that it is malformed. */
  method ReadFourChars(src: seq<Byte>, start: nat) returns (ok: bool, packed: bv32, padding: nat, ptr: nat)
    requires start < |src|
    ensures start < ptr <= |src| && (ok ==> ptr == start + 4 && Read(src[start..ptr]) == Group(packed, padding))
    ensures !ok ==> start + 4 > |src| || Read(src[start..start + 4]).Bad?
  {
    hide Append, Shift, Value, Read, IsLetter;
    ok, packed, padding, ptr := true, 0, 0, start;
    var i := 0;
    ghost var group: seq<Byte> := [];
    ReadMore([], 0);
    while i < 4 && ptr < |src|
      invariant 0 <= i <= 4 && ptr == start + i <= |src|
      invariant group == src[start..ptr] && Read(group) == Group(packed, padding)
    {
      var b := src[ptr];
      ReadMore(group, b);
      group := group + [b];
      i, ptr := i + 1, ptr + 1;
      if b == PAD {
        padding := padding + 1;
        packed := Shift(packed);
        continue;
      }
      if padding > 0 || !IsLetter(b) {
        if start + 4 <= |src| {
          BadStays(group, src[ptr..start + 4]);
          assert group + src[ptr..start + 4] == src[start..start + 4];
        }
        return false, packed, padding, ptr;
      }
      packed := Append(packed, Value(b));
    }
    ok := i == 4;
  }

  lemma ReadMore(s: seq<Byte>, b: Byte)
    ensures Read([]) == Group(0, 0) && Read(s + [b]) == Step(Read(s), b)
  {
    hide Step;
    assert (s + [b])[..|s|] == s;
  }

  lemma {:induction false} BadStays(s: seq<Byte>, more: seq<Byte>)
    requires Read(s).Bad?
    ensures Read(s + more).Bad?
    decreases |more|
  {
    hide Read;
    if more != [] {
      var n := |more| - 1;
      BadStays(s, more[..n]);
      ReadMore(s + more[..n], more[n]);
      assert s + more == s + more[..n] + [more[n]];
    } else {
      assert s + more == s;
    }
  }

  /** The bytes that a string stands for; nothing at all if it is malformed. */
  method Base64Decode(src: seq<Byte>) returns (result: seq<Byte>)
    ensures result == if Decode(src).Some? then Decode(src).value else []
    ensures |result| <= |src| * 3 / 4
  {
    hide Read, Octet0, Octet1, Octet2, Decode;
    result := [];
    var ptr: nat := 0;
    assert src[0..] == src;
    EncodeNothing();
    BehindNothing(Decode(src));
    while ptr < |src|
      invariant 0 <= ptr <= |src| && 4 * |result| <= 3 * ptr
      invariant Decode(src) == Behind(result, Decode(src[ptr..]))
    {
      ghost var start := ptr;
      DecodeStep(src[start..]);
      SliceOfTail(src, start, if start + 4 <= |src| then 4 else 0);
      var ok, packed, padding;
      ok, packed, padding, ptr := ReadFourChars(src, ptr);
      if !ok || (padding > 0 && ptr != |src|) || padding > 2 {
        return [];
      }
      ghost var before := result;
      result := result + [Octet0(packed)];
      if padding != 2 {
        result := result + [Octet1(packed)];
      }
      if padding == 0 {
        result := result + [Octet2(packed)];
      }
      assert result == before + Octets(Group(packed, padding));
      BehindTwice(before, Octets(Group(packed, padding)), Decode(src[ptr..]));
    }
    assert src[ptr..] == [] && result + [] == result;
  }

  lemma BehindNothing(r: Option<seq<Byte>>)
    ensures Behind([], r) == r
  {
    if r != None {
      assert [] + r.value == r.value;
    }
  }

  lemma BehindTwice(s: seq<Byte>, t: seq<Byte>, r: Option<seq<Byte>>)
    ensures Behind(s, Behind(t, r)) == Behind(s + t, r)
  {
    if r != None {
      assert s + (t + r.value) == s + t + r.value;
    }
  }

  // ---------------------------------------------------------------- in numbers

  /** The letters are those of the alphabet, in its order. */
  lemma LetterIs(v: Byte)
    requires v < 64
    ensures IsAt(Letter(v), BASE64_LETTERS, v as int)
  {
    var i := v as int;
    LetterCode(v);
    if i < 26 {
      UpperCode(i);
    } else if i < 52 {
      LowerCode(i - 26);
    } else if i < 62 {
      DigitCode(i - 52);
    }
  }

  lemma LetterCode(v: Byte)
    requires v < 64
    ensures Letter(v) as int ==
            var i := v as int;
            if i < 26 then 65 + i else if i < 52 then 97 + (i - 26) else if i < 62 then 48 + (i - 52)
            else if i == 62 then 43 else 47
  {
  }

  /** The six-bit groups of three bytes, by bytes. */
  lemma SextetBits(a: Byte, b: Byte, c: Byte)
    ensures var w := Pack(a, b, c);
            && Sextet0(w) == a >> 2 && Sextet1(w) == ((a & 3) << 4) | (b >> 4)
            && Sextet2(w) == ((b & 15) << 2) | (c >> 6) && Sextet3(w) == c & 63
  {
  }

  lemma HighParts(a: Byte)
    ensures (a >> 2) as int == a as int / 4 && (a >> 4) as int == a as int / 16 && (a >> 6) as int == a as int / 64
  {
  }

  lemma LowParts(a: Byte)
    ensures (a & 3) as int == a as int % 4 && (a & 15) as int == a as int % 16 && (a & 63) as int == a as int % 64
    ensures ((a & 3) << 4) as int == 16 * ((a & 3) as int) && ((a & 15) << 2) as int == 4 * ((a & 15) as int)
  {
    LowTwo(a);
    LowFour(a);
    LowSix(a);
    ShiftedUp(a);
  }

  lemma LowTwo(a: Byte)
    ensures (a & 3) as int == a as int % 4
  {
  }

  lemma LowFour(a: Byte)
    ensures (a & 15) as int == a as int % 16
  {
  }

  lemma LowSix(a: Byte)
    ensures (a & 63) as int == a as int % 64
  {
  }

  lemma ShiftedUp(a: Byte)
    ensures ((a & 3) << 4) as int == 16 * ((a & 3) as int) && ((a & 15) << 2) as int == 4 * ((a & 15) as int)
  {
  }

  lemma OrIsSum(a: Byte, b: Byte)
    requires a & b == 0
    ensures (a | b) as int == a as int + b as int
  {
  }

  lemma Disjoint(a: Byte, b: Byte)
    ensures ((a & 3) << 4) & (b >> 4) == 0 && ((a & 15) << 2) & (b >> 6) == 0
  {
  }

  lemma SextetNumbers(a: Byte, b: Byte, c: Byte)
    ensures (a >> 2) as int == a as int / 4
    ensures (((a & 3) << 4) | (b >> 4)) as int == 16 * (a as int % 4) + b as int / 16
    ensures (((b & 15) << 2) | (c >> 6)) as int == 4 * (b as int % 16) + c as int / 64
    ensures (c & 63) as int == c as int % 64
  {
    HighParts(a);
    HighParts(b);
    HighParts(c);
    LowParts(a);
    LowParts(b);
    LowParts(c);
    Disjoint(a, b);
    Disjoint(b, c);
    OrIsSum((a & 3) << 4, b >> 4);
    OrIsSum((b & 15) << 2, c >> 6);
  }

  lemma BaseChange(a: nat, b: nat, c: nat)
    requires a < 256 && b < 256 && c < 256
    ensures 262144 * (a / 4) + 4096 * (16 * (a % 4) + b / 16) + 64 * (4 * (b % 16) + c / 64) + c % 64 ==
            65536 * a + 256 * b + c
  {
  }

  /** Digit `i` of a number of four digits in base 64. */
  function Digit64(n: nat, i: nat): nat {
    if i == 0 then n / 262144 else if i == 1 then n / 4096 % 64 else if i == 2 then n / 64 % 64 else n % 64
  }

  /** The same from three bytes. */
  function Sixth(x: nat, y: nat, z: nat, i: nat): nat {
    if i == 0 then x / 4 else if i == 1 then 16 * (x % 4) + y / 16 else if i == 2 then 4 * (y % 16) + z / 64 else z % 64
  }

  /** Letters of the alphabet for `v`, or padding. */
  predicate IsLetterFor(b: Byte, v: nat, padded: bool) {
    if padded then b as int == '=' as int else IsAt(b, BASE64_LETTERS, v)
  }

  /** `r` is the number `n` in base 64, in `k` letters of the alphabet and padding. */
  predicate IsBase64(r: seq<Byte>, n: nat, k: nat) {
    && |r| == 4 && n < 16777216
    && IsLetterFor(r[0], Digit64(n, 0), false) && IsLetterFor(r[1], Digit64(n, 1), false)
    && IsLetterFor(r[2], Digit64(n, 2), k < 3) && IsLetterFor(r[3], Digit64(n, 3), k < 4)
  }

  lemma Quotients(q: nat, r: nat)
    ensures r < 64 ==> (64 * q + r) / 64 == q && (64 * q + r) % 64 == r
    ensures r < 4096 ==> (4096 * q + r) / 4096 == q
    ensures r < 262144 ==> (262144 * q + r) / 262144 == q
  {
  }

  lemma DigitsOf(v0: nat, v1: nat, v2: nat, v3: nat)
    requires v0 < 64 && v1 < 64 && v2 < 64 && v3 < 64
    ensures var n := 262144 * v0 + 4096 * v1 + 64 * v2 + v3;
            n < 16777216 && n / 262144 == v0 && n / 4096 % 64 == v1 && n / 64 % 64 == v2 && n % 64 == v3
  {
    Quotients(v0, 4096 * v1 + 64 * v2 + v3);
    Quotients(64 * v0 + v1, 64 * v2 + v3);
    Quotients(4096 * v0 + 64 * v1 + v2, v3);
    Quotients(v0, v1);
    Quotients(64 * v0 + v1, v2);
  }

  lemma LetterFor(v: Byte, n: nat)
    requires v < 64 && v as int == n
    ensures IsLetterFor(Letter(v), n, false)
  {
    LetterIs(v);
  }

  lemma PadFor(n: nat)
    ensures IsLetterFor(PAD, n, true)
  {
  }

  /** The number that three bytes stand for. */
  function Triple(a: Byte, b: Byte, c: Byte): nat {
    65536 * (a as int) + 256 * (b as int) + c as int
  }

  lemma SextetsAre(a: Byte, b: Byte, c: Byte)
    ensures var w, n := Pack(a, b, c), Triple(a, b, c);
            && n < 16777216
            && Sextet0(w) as int == Digit64(n, 0) && Sextet1(w) as int == Digit64(n, 1)
            && Sextet2(w) as int == Digit64(n, 2) && Sextet3(w) as int == Digit64(n, 3)
  {
    hide Pack, Sextet0, Sextet1, Sextet2, Sextet3, Digit64, Sixth;
    NumbersOf(a, b, c);
    NumberDigits(a as int, b as int, c as int);
  }

  lemma GroupLetters(a: Byte, b: Byte, c: Byte)
    ensures var w, n := Pack(a, b, c), Triple(a, b, c);
            && n < 16777216
            && IsLetterFor(Letter(Sextet0(w)), Digit64(n, 0), false)
            && IsLetterFor(Letter(Sextet1(w)), Digit64(n, 1), false)
            && IsLetterFor(Letter(Sextet2(w)), Digit64(n, 2), false)
            && IsLetterFor(Letter(Sextet3(w)), Digit64(n, 3), false)
  {
    hide Letter, Pack, Sextet0, Sextet1, Sextet2, Sextet3, IsLetterFor, Digit64, Triple;
    var w, n := Pack(a, b, c), Triple(a, b, c);
    Bits(a, b, c);
    SextetsAre(a, b, c);
    LetterFor(Sextet0(w), Digit64(n, 0));
    LetterFor(Sextet1(w), Digit64(n, 1));
    LetterFor(Sextet2(w), Digit64(n, 2));
    LetterFor(Sextet3(w), Digit64(n, 3));
  }

  lemma NumberDigits(x: nat, y: nat, z: nat)
    requires x < 256 && y < 256 && z < 256
    ensures var n := 65536 * x + 256 * y + z;
            && n < 16777216 && Digit64(n, 0) == Sixth(x, y, z, 0) && Digit64(n, 1) == Sixth(x, y, z, 1)
            && Digit64(n, 2) == Sixth(x, y, z, 2) && Digit64(n, 3) == Sixth(x, y, z, 3)
  {
    BaseChange(x, y, z);
    DigitsOf(x / 4, 16 * (x % 4) + y / 16, 4 * (y % 16) + z / 64, z % 64);
  }

  /** Three bytes are written as the digits of their number in base 64. */
  lemma GroupDigits(s: seq<Byte>)
    requires 1 <= |s| <= 3
    ensures var n := Triple(s[0], if |s| > 1 then s[1] else 0, if |s| > 2 then s[2] else 0);
            IsBase64(EncodeGroup(s), n, |s| + 1)
  {
    hide Letter, Pack, Sextet0, Sextet1, Sextet2, Sextet3, IsLetterFor, Digit64, Triple;
    var a, b, c := s[0], if |s| > 1 then s[1] else 0, if |s| > 2 then s[2] else 0;
    GroupLetters(a, b, c);
    PadFor(Digit64(Triple(a, b, c), 2));
    PadFor(Digit64(Triple(a, b, c), 3));
  }

  lemma NumbersOf(a: Byte, b: Byte, c: Byte)
    ensures var w := Pack(a, b, c);
            && Sextet0(w) as int == Sixth(a as int, b as int, c as int, 0)
            && Sextet1(w) as int == Sixth(a as int, b as int, c as int, 1)
            && Sextet2(w) as int == Sixth(a as int, b as int, c as int, 2)
            && Sextet3(w) as int == Sixth(a as int, b as int, c as int, 3)
  {
    hide Pack, Sextet0, Sextet1, Sextet2, Sextet3;
    SextetBits(a, b, c);
    SextetNumbers(a, b, c);
  }

  lemma Behind4(g: seq<Byte>, s: seq<Byte>, k: nat)
    requires k + 4 <= |s|
    ensures (g + s)[|g| + k..|g| + k + 4] == s[k..k + 4]
  {
  }

  /** Group after group. */
  lemma {:induction false} EncodedGroups(data: seq<Byte>, i: nat)
    requires 3 * i < |data|
    ensures 4 * i + 4 <= |Encode(data)|
    ensures Encode(data)[4 * i..4 * i + 4] == EncodeGroup(data[3 * i..if 3 * i + 3 < |data| then 3 * i + 3 else |data|])
    decreases i
  {
    hide EncodeGroup;
    EncodeStep(data);
    if i > 0 {
      EncodedGroups(data[3..], i - 1);
      var end := if 3 * i + 3 < |data| then 3 * i + 3 else |data|;
      assert data[3..][3 * (i - 1)..end - 3] == data[3 * i..end];
      Behind4(EncodeGroup(data[..3]), Encode(data[3..]), 4 * (i - 1));
    } else {
      Behind4([], Encode(data), 0);
    }
  }
}
