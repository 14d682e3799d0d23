/**
 Percent-encoding (section 2.1 of RFC 3986), and the parameters of a query.
 */
module Urls {
  import opened Options
  import opened Flat
  import opened Characters
  import opened Strings

  const SPACE: Byte := 32
  const PERCENT: Byte := 37
  const AMP: Byte := 38
  const PLUS: Byte := 43
  const EQ: Byte := 61

  /** The bytes that stand for themselves. The table counts the equals sign among them. */
  predicate Unreserved(b: Byte) {
    b == 45 || b == 46 || 48 <= b <= 57 || b == EQ || 65 <= b <= 90 || b == 95 || 97 <= b <= 122 || b == 126
  }

  function HexDigit(v: Byte): Byte {
    if v < 10 then v + 48 else v + 55
  }

  predicate IsHex(b: Byte) {
    48 <= b <= 57 || 65 <= b <= 70 || 97 <= b <= 102
  }

  function HexValue(b: Byte): Byte {
    if 48 <= b <= 57 then b - 48 else if 65 <= b <= 70 then b - 55 else if 97 <= b <= 102 then b - 87 else 0
  }

  function High(b: Byte): Byte { b >> 4 }

  function Low(b: Byte): Byte { b & 0xf }

  function Both(h: Byte, l: Byte): Byte { (h << 4) | l }

  lemma HexReadsBack(b: Byte)
    ensures IsHex(HexDigit(High(b))) && IsHex(HexDigit(Low(b)))
    ensures Both(HexValue(HexDigit(High(b))), HexValue(HexDigit(Low(b)))) == b
    ensures Unreserved(b) ==> b != PERCENT && b != PLUS && b != SPACE && b != AMP
    ensures HexDigit(High(b)) != AMP && HexDigit(Low(b)) != AMP
  {
  }

  function EncodeByte(b: Byte, plus: bool): seq<Byte> {
    if Unreserved(b) then [b]
    else if b == SPACE && plus then [PLUS]
    else [PERCENT, HexDigit(High(b)), HexDigit(Low(b))]
  }

  function Encode(s: seq<Byte>, plus: bool): seq<Byte> {
    if s == [] then [] else Encode(s[..|s| - 1], plus) + EncodeByte(s[|s| - 1], plus)
  }

  /** The byte at the front of `s` and how many bytes stand for it. */
  function DecodeByte(s: seq<Byte>, plus: bool): (r: (Byte, nat))
    requires s != []
    ensures 1 <= r.1 <= |s|
  {
    if s[0] == PLUS && plus then (SPACE, 1)
    else if s[0] == PERCENT && |s| > 2 && IsHex(s[1]) && IsHex(s[2]) then (Both(HexValue(s[1]), HexValue(s[2])), 3)
    else (s[0], 1)
  }

  function Decode(s: seq<Byte>, plus: bool): seq<Byte>
    decreases |s|
  {
    if s == [] then []
    else
      var (b, n) := DecodeByte(s, plus);
      [b] + Decode(s[n..], plus)
  }

  // ---------------------------------------------------------------- in characters

  lemma HexIs(b: Byte, d: nat)
    requires IsDigitFor(b, d)
    ensures IsHex(b) && HexValue(b) as int == d && HexValue(b) < 16
  {
    HexCodes(d);
  }

  lemma HexIsDigit(b: Byte)
    requires IsHex(b)
    ensures IsDigitFor(b, HexValue(b) as int)
  {
    HexCodes(HexValue(b) as int);
  }

  lemma BothIs(h: Byte, l: Byte)
    requires h < 16 && l < 16
    ensures Both(h, l) as int == 16 * (h as int) + l as int
  {
  }

  /** A percent sign and two hexadecimal digits, in either case, are the byte with that number. */
  lemma PercentDecodes(h: Byte, l: Byte, i: nat, j: nat, rest: seq<Byte>, plus: bool)
    requires IsDigitFor(h, i) && IsDigitFor(l, j)
    ensures var d := Decode([37, h, l] + rest, plus);
            d != [] && d[0] as int == 16 * i + j && d[1..] == Decode(rest, plus)
  {
    hide IsDigitFor, IsHex, HexValue, Both;
    HexIs(h, i);
    HexIs(l, j);
    BothIs(HexValue(h), HexValue(l));
    assert ([37, h, l] + rest)[3..] == rest;
  }

  /** `b` is no hexadecimal digit. */
  ghost predicate NoDigit(b: Byte) {
    forall d: nat :: !IsDigitFor(b, d)
  }

  /** What does not begin such a triple stands for itself, but a plus for a space if it is to. */
  lemma OtherDecodes(b: Byte, rest: seq<Byte>, plus: bool)
    requires b == 37 && |rest| >= 2 ==> NoDigit(rest[0]) || NoDigit(rest[1])
    ensures Decode([b] + rest, plus) == [if b == 43 && plus then 32 else b] + Decode(rest, plus)
  {
    hide IsDigitFor, IsHex, HexValue, Both;
    if b == 37 && |rest| >= 2 && IsHex(rest[0]) && IsHex(rest[1]) {
      HexIsDigit(rest[0]);
      HexIsDigit(rest[1]);
      assert false;
    }
    var s := [b] + rest;
    assert s[1..] == rest && (|rest| >= 2 ==> s[1] == rest[0] && s[2] == rest[1]);
  }

  /** The codes of the letters that stand for themselves. */
  predicate UrlCode(c: int) {
    65 <= c <= 90 || 97 <= c <= 122 || 48 <= c <= 57 || c == 45 || c == 46 || c == 95 || c == 126 || c == 61
  }

  lemma UnreservedCode(b: Byte)
    ensures Unreserved(b) <==> UrlCode(b as int)
  {
  }

  lemma LetterCode(i: nat)
    requires i < |URL_LETTERS|
    ensures UrlCode(URL_LETTERS[i] as int)
  {
    if i < 26 {
      UpperCode(i);
    } else if i < 52 {
      LowerCode(i - 26);
    } else if i < 62 {
      DigitCode(i - 52);
    }
  }

  lemma CodeLetter(c: int) returns (i: nat)
    requires UrlCode(c)
    ensures i < |URL_LETTERS| && URL_LETTERS[i] as int == c
  {
    if 65 <= c <= 90 {
      UpperCode(c - 65);
      i := c - 65;
    } else if 97 <= c <= 122 {
      LowerCode(c - 97);
      i := 26 + (c - 97);
    } else if 48 <= c <= 57 {
      DigitCode(c - 48);
      i := 52 + (c - 48);
    } else {
      i := if c == 45 then 62 else if c == 46 then 63 else if c == 95 then 64 else if c == 126 then 65 else 66;
    }
  }

  lemma UnreservedIs(b: Byte)
    ensures Unreserved(b) <==> IsIn(b, URL_LETTERS)
  {
    hide Unreserved, UrlCode;
    UnreservedCode(b);
    if UrlCode(b as int) {
      var i := CodeLetter(b as int);
      assert IsAt(b, URL_LETTERS, i);
    }
    if i: nat :| IsAt(b, URL_LETTERS, i) {
      LetterCode(i);
    }
  }

  lemma HexDigitIs(v: Byte)
    requires v < 16
    ensures IsAt(HexDigit(v), UPPER_DIGITS, v as int)
  {
    HexCodes(v as int);
  }

  lemma Nibbles(b: Byte)
    ensures High(b) < 16 && Low(b) < 16 && High(b) as int == b as int / 16 && Low(b) as int == b as int % 16
  {
  }

  /** A byte is written as itself, as a plus for a space, or as a percent sign and two upper-case digits. */
  lemma ByteEncodes(b: Byte, plus: bool)
    ensures var e := EncodeByte(b, plus);
            if IsIn(b, URL_LETTERS) then e == [b]
            else if b == 32 && plus then e == [43]
            else |e| == 3 && e[0] == 37
                 && IsAt(e[1], UPPER_DIGITS, b as int / 16) && IsAt(e[2], UPPER_DIGITS, b as int % 16)
  {
    hide Unreserved, IsIn, IsAt, HexDigit, High, Low;
    UnreservedIs(b);
    Nibbles(b);
    HexDigitIs(High(b));
    HexDigitIs(Low(b));
  }

  // ---------------------------------------------------------------- both ways

  lemma ByteReadsBack(b: Byte, rest: seq<Byte>, plus: bool, plus': bool)
    ensures |EncodeByte(b, plus)| >= 1
    ensures plus' || !plus || b != SPACE ==> DecodeByte(EncodeByte(b, plus) + rest, plus') == (b, |EncodeByte(b, plus)|)
    ensures !plus' && plus && b == SPACE ==> DecodeByte(EncodeByte(b, plus) + rest, plus') == (PLUS, 1)
  {
    hide High, Low, Both, HexDigit, HexValue, IsHex, Unreserved;
    HexReadsBack(b);
    assert !Unreserved(SPACE) by {
      HexReadsBack(SPACE);
    }
    var s := EncodeByte(b, plus) + rest;
    assert s[0] == EncodeByte(b, plus)[0];
  }

  lemma {:induction false} EncodeFront(s: seq<Byte>, plus: bool)
    requires s != []
    ensures Encode(s, plus) == EncodeByte(s[0], plus) + Encode(s[1..], plus)
  {
    hide EncodeByte;
    var n := |s| - 1;
    if n > 0 {
      EncodeFront(s[..n], plus);
      var most, back := Encode(s[1..n], plus), EncodeByte(s[n], plus);
      assert s[..n][1..] == s[1..n] == s[1..][..n - 1];
      assert Encode(s[1..], plus) == most + back;
      assert EncodeByte(s[0], plus) + most + back == EncodeByte(s[0], plus) + (most + back);
    } else {
      assert s[..0] == [] && s[1..] == [];
      assert Encode([], plus) == [];
    }
  }

  /**
   Decoding gives the string back if and only if it reads a plus as a space, or a space was not written as a
   plus, or there is none. So with the same flag for both it always does.
   */
  lemma {:induction false} RoundTrip(s: seq<Byte>, plus: bool, plus': bool)
    ensures Decode(Encode(s, plus), plus') == s <==> plus' || !plus || SPACE !in s
    decreases |s|
  {
    hide EncodeByte, DecodeByte;
    if s != [] {
      EncodeFront(s, plus);
      var e, rest := EncodeByte(s[0], plus), Encode(s[1..], plus);
      ByteReadsBack(s[0], rest, plus, plus');
      var all := e + rest;
      assert all[|e|..] == rest;
      RoundTrip(s[1..], plus, plus');
      assert s == [s[0]] + s[1..];
      if !plus' && plus && s[0] == SPACE {
        assert Decode(all, plus')[0] == PLUS;
      }
    }
  }

  /** Nothing in an encoded string separates parameters. */
  lemma {:induction false} EncodedIsFree(s: seq<Byte>, plus: bool)
    ensures AMP !in Encode(s, plus)
  {
    hide High, Low, HexDigit, Unreserved;
    if s != [] {
      EncodedIsFree(s[..|s| - 1], plus);
      HexReadsBack(s[|s| - 1]);
    }
  }

  // ---------------------------------------------------------------- the loops

  /** What has been written so far: the copy, or as long as there is none what it would begin with. */
  function Written(ss: Option<seq<Byte>>, read: seq<Byte>): seq<Byte> {
    if ss.Some? then ss.value else read
  }

  lemma EncodeMore(s: seq<Byte>, c: nat, plus: bool)
    requires c < |s|
    ensures Encode(s[..c + 1], plus) == Encode(s[..c], plus) + EncodeByte(s[c], plus) && s[..c + 1] == s[..c] + [s[c]]
  {
    assert s[..c + 1][..c] == s[..c];
  }

  /** The copy `ss` is made only once a byte is to be changed; without it the string is its own encoding. */
  method UrlEncode(str: seq<Byte>, plus: bool) returns (r: seq<Byte>)
    ensures r == Encode(str, plus)
  {
    hide High, Low, HexDigit, Unreserved, Encode;
    var ss: Option<seq<Byte>> := None;
    assert Encode(str[..0], plus) == [] by {
      EncodeNothing(plus);
    }
    for c := 0 to |str|
      invariant Written(ss, str[..c]) == Encode(str[..c], plus)
    {
      EncodeMore(str, c, plus);
      var b := str[c];
      if !Unreserved(b) {
        if ss == None {
          ss := Some(str[..c]);
        }
        if b == SPACE && plus {
          ss := Some(ss.value + [PLUS]);
        } else {
          ss := Some(ss.value + [PERCENT, HexDigit(High(b)), HexDigit(Low(b))]);
        }
      } else if ss.Some? {
        ss := Some(ss.value + [b]);
      }
    }
    assert str[..|str|] == str;
    return if ss == None then str else ss.value;
  }

  lemma EncodeNothing(plus: bool)
    ensures Encode([], plus) == [] && Decode([], plus) == []
  {
  }

  /** Decoding goes on behind the byte at `c`. */
  lemma DecodeMore(s: seq<Byte>, c: nat, plus: bool, w: seq<Byte>)
    requires c < |s|
    ensures var (b, n) := DecodeByte(s[c..], plus); w + Decode(s[c..], plus) == w + [b] + Decode(s[c + n..], plus)
  {
    hide DecodeByte;
    var (b, n) := DecodeByte(s[c..], plus);
    SliceOfTail(s, c, n);
    assert w + ([b] + Decode(s[c + n..], plus)) == w + [b] + Decode(s[c + n..], plus);
  }

  lemma ByteAt(s: seq<Byte>, c: nat, plus: bool)
    requires c < |s|
    ensures DecodeByte(s[c..], plus) ==
            if s[c] == PLUS && plus then (SPACE, 1)
            else if s[c] == PERCENT && c + 2 < |s| && IsHex(s[c + 1]) && IsHex(s[c + 2]) then
              (Both(HexValue(s[c + 1]), HexValue(s[c + 2])), 3)
            else (s[c], 1)
    ensures s[..c + 1] == s[..c] + [s[c]]
  {
    hide IsHex, Both, HexValue;
  }

  method UrlDecode(str: seq<Byte>, plus: bool) returns (r: seq<Byte>)
    ensures r == Decode(str, plus)
  {
    hide Both, HexValue, IsHex, Decode, DecodeByte;
    var ss: Option<seq<Byte>> := None;
    var c: nat := 0;
    assert str[..0] + Decode(str[0..], plus) == Decode(str, plus) by {
      assert str[0..] == str;
    }
    while c < |str|
      invariant 0 <= c <= |str|
      invariant Written(ss, str[..c]) + Decode(str[c..], plus) == Decode(str, plus)
    {
      DecodeMore(str, c, plus, Written(ss, str[..c]));
      ByteAt(str, c, plus);
      if str[c] == PLUS && plus {
        if ss == None {
          ss := Some(str[..c]);
        }
        ss := Some(ss.value + [SPACE]);
      } else if str[c] == PERCENT && c + 2 < |str| && IsHex(str[c + 1]) && IsHex(str[c + 2]) {
        if ss == None {
          ss := Some(str[..c]);
        }
        ss := Some(ss.value + [Both(HexValue(str[c + 1]), HexValue(str[c + 2]))]);
        c := c + 2;
      } else if ss.Some? {
        ss := Some(ss.value + [str[c]]);
      }
      c := c + 1;
    }
    EncodeNothing(plus);
    assert str[..c] == str && str[c..] == [];
    r := Written(ss, str);
    assert r + [] == r;
  }

  // ---------------------------------------------------------------- queries

  function FindByte(s: seq<Byte>, b: Byte, i: nat): (j: Option<nat>)
    requires i <= |s|
    ensures j.Some? ==> i <= j.value < |s| && s[j.value] == b && forall k | i <= k < j.value :: s[k] != b
    ensures j.None? ==> forall k | i <= k < |s| :: s[k] != b
  {
    FindOf(s, {b}, i)
  }

  type Pair = (seq<Byte>, seq<Byte>)

  /** The parameters from `pos` on: up to an equals sign the key, up to the next ampersand the encoded value. */
  function Pairs(s: seq<Byte>, pos: nat): seq<Pair>
    requires pos <= |s|
    decreases |s| - pos
  {
    match FindByte(s, EQ, pos)
    case None => []
    case Some(eq) =>
      match FindByte(s, AMP, eq)
      case None => [(s[pos..eq], Decode(s[eq + 1..], true))]
      case Some(amp) => [(s[pos..eq], Decode(s[eq + 1..amp], true))] + Pairs(s, amp + 1)
  }

  /** Keys are compared without regard to case, and up to a NUL. */
  function Folded(key: seq<Byte>): seq<Byte> {
    if key == [] || key[0] == 0 then [] else [FoldedByte(key[0])] + Folded(key[1..])
  }

  /** What C makes of a string: the bytes before the first NUL. */
  function UpToNul(key: seq<Byte>): seq<Byte> {
    if key == [] || key[0] == 0 then [] else [key[0]] + UpToNul(key[1..])
  }

  predicate IsPrefixToNul(key: seq<Byte>, p: seq<Byte>) {
    p <= key && (forall k | 0 <= k < |p| :: p[k] != 0) && (|p| < |key| ==> key[|p|] == 0)
  }

  lemma {:induction false} UpToNulIs(key: seq<Byte>)
    ensures IsPrefixToNul(key, UpToNul(key))
  {
    if key != [] && key[0] != 0 {
      UpToNulIs(key[1..]);
      var p := UpToNul(key[1..]);
      assert forall k | 0 < k <= |p| :: ([key[0]] + p)[k] == p[k - 1];
      assert |p| < |key| - 1 ==> key[1..][|p|] == key[|p| + 1];
      assert [key[0]] + p <= key;
    }
  }

  /** Byte by byte the same, but for the case of letters. */
  ghost predicate SameButCase(s: seq<Byte>, r: seq<Byte>) {
    |s| == |r| && forall k | 0 <= k < |s| :: SameLetter(s[k], r[k])
  }

  ghost predicate SameLetter(a: Byte, b: Byte) {
    a == b || DifferInCase(a, b)
  }

  function FoldedByte(b: Byte): Byte {
    if 65 <= b <= 90 then b + 32 else b
  }

  /** The codes of a letter in the two cases. */
  predicate CaseCodes(upper: int, lower: int) {
    65 <= upper <= 90 && lower == upper + 32
  }

  lemma FoldedCodes(a: Byte, b: Byte)
    ensures FoldedByte(a) == FoldedByte(b) <==>
            a == b || CaseCodes(a as int, b as int) || CaseCodes(b as int, a as int)
    ensures a != 0 ==> FoldedByte(a) != 0
  {
  }

  lemma DifferCodes(a: Byte, b: Byte)
    ensures DifferInCase(a, b) <==> CaseCodes(a as int, b as int) || CaseCodes(b as int, a as int)
  {
    hide CaseCodes, IsAt;
    if CaseCodes(a as int, b as int) {
      var _ := CaseLetter(a, b);
    }
    if CaseCodes(b as int, a as int) {
      var _ := CaseLetter(b, a);
    }
    if i: nat :| (IsAt(a, LOWER_LETTERS, i) && IsAt(b, UPPER_LETTERS, i))
                 || (IsAt(a, UPPER_LETTERS, i) && IsAt(b, LOWER_LETTERS, i)) {
      if IsAt(a, UPPER_LETTERS, i) && IsAt(b, LOWER_LETTERS, i) {
        LetterCase(a, b, i);
      } else {
        LetterCase(b, a, i);
      }
    }
  }

  lemma LetterCase(a: Byte, b: Byte, i: nat)
    requires IsAt(a, UPPER_LETTERS, i) && IsAt(b, LOWER_LETTERS, i)
    ensures CaseCodes(a as int, b as int)
  {
    UpperCode(i);
    LowerCode(i);
  }

  lemma CaseLetter(a: Byte, b: Byte) returns (i: nat)
    requires CaseCodes(a as int, b as int)
    ensures IsAt(a, UPPER_LETTERS, i) && IsAt(b, LOWER_LETTERS, i)
  {
    i := a as int - 65;
    UpperCode(i);
    LowerCode(i);
  }

  lemma FoldedBytes(a: Byte, b: Byte)
    ensures FoldedByte(a) == FoldedByte(b) <==> SameLetter(a, b)
  {
    hide FoldedByte, CaseCodes, DifferInCase;
    FoldedCodes(a, b);
    DifferCodes(a, b);
  }

  /** Keys are the same exactly if they are, but for the case of letters, up to their first NULs. */
  lemma {:induction false} FoldedEqual(s: seq<Byte>, r: seq<Byte>)
    ensures Folded(s) == Folded(r) <==> SameButCase(UpToNul(s), UpToNul(r))
  {
    hide FoldedByte, SameLetter;
    if s != [] && r != [] && s[0] != 0 && r[0] != 0 {
      FoldedEqual(s[1..], r[1..]);
      FoldedBytes(s[0], r[0]);
      Fronts(FoldedByte(s[0]), Folded(s[1..]), FoldedByte(r[0]), Folded(r[1..]));
      SameFront(s[0], UpToNul(s[1..]), r[0], UpToNul(r[1..]));
    }
  }

  lemma Fronts(a: Byte, s: seq<Byte>, b: Byte, r: seq<Byte>)
    ensures [a] + s == [b] + r <==> a == b && s == r
  {
    assert ([a] + s)[0] == a && ([a] + s)[1..] == s && ([b] + r)[0] == b && ([b] + r)[1..] == r;
  }

  lemma SameFront(a: Byte, s: seq<Byte>, b: Byte, r: seq<Byte>)
    ensures SameButCase([a] + s, [b] + r) <==> SameLetter(a, b) && SameButCase(s, r)
  {
    hide SameLetter;
    var x, y := [a] + s, [b] + r;
    if SameButCase(x, y) {
      assert SameLetter(x[0], y[0]);
      forall k | 0 <= k < |s| ensures SameLetter(s[k], r[k]) {
        assert SameLetter(x[k + 1], y[k + 1]);
      }
    }
    if SameLetter(a, b) && SameButCase(s, r) {
      forall k | 0 <= k < |x| ensures SameLetter(x[k], y[k]) {
        assert k > 0 ==> SameLetter(s[k - 1], r[k - 1]);
      }
    }
  }

  /** A map of parameters: under each folded key the key that came first, and its value. */
  type Params = map<seq<Byte>, Pair>

  function Insert(m: Params, p: Pair): Params {
    if Folded(p.0) in m then m else m[Folded(p.0) := p]
  }

  function InsertAll(m: Params, ps: seq<Pair>): Params
    decreases |ps|
  {
    if ps == [] then m else InsertAll(Insert(m, ps[0]), ps[1..])
  }

  predicate IsFirstWith(ps: seq<Pair>, k: seq<Byte>, i: nat) {
    i < |ps| && Folded(ps[i].0) == k && forall j | 0 <= j < i :: Folded(ps[j].0) != k
  }

  /** The first of equal keys wins, and what was there before stays. */
  lemma {:induction false} FirstWins(m: Params, ps: seq<Pair>, k: seq<Byte>)
    ensures k in m ==> k in InsertAll(m, ps) && InsertAll(m, ps)[k] == m[k]
    ensures k !in m && k in InsertAll(m, ps) ==> exists i: nat :: IsFirstWith(ps, k, i) && InsertAll(m, ps)[k] == ps[i]
    ensures k !in m && k !in InsertAll(m, ps) ==> forall i | 0 <= i < |ps| :: Folded(ps[i].0) != k
    decreases |ps|
  {
    if ps != [] {
      var m', more := Insert(m, ps[0]), ps[1..];
      FirstWins(m', more, k);
      if k !in m && k in InsertAll(m, ps) {
        if Folded(ps[0].0) == k {
          assert IsFirstWith(ps, k, 0);
        } else {
          var i: nat :| IsFirstWith(more, k, i) && InsertAll(m, ps)[k] == more[i];
          assert more[i] == ps[i + 1];
          forall j | 0 <= j < i + 1 ensures Folded(ps[j].0) != k {
            assert j > 0 ==> ps[j] == more[j - 1];
          }
          assert IsFirstWith(ps, k, i + 1);
        }
      }
      assert forall i | 0 < i < |ps| :: ps[i] == more[i - 1];
    }
  }

  /** A query of pairs, each a key, an equals sign and an encoded value, with ampersands between them. */
  function QueryOf(ps: seq<Pair>, plus: bool): seq<Byte> {
    if ps == [] then []
    else
      var one := ps[0].0 + [EQ] + Encode(ps[0].1, plus);
      if |ps| == 1 then one else one + [AMP] + QueryOf(ps[1..], plus)
  }

  /** A query as it is written: key, equals sign, value, ampersand, and so on. */
  lemma QueryForm(ps: seq<Pair>, plus: bool)
    requires ps != []
    ensures var one := ps[0].0 + [61] + Encode(ps[0].1, plus);
            QueryOf(ps, plus) == if |ps| == 1 then one else one + [38] + QueryOf(ps[1..], plus)
  {
    hide Encode;
  }

  predicate FreeKeys(ps: seq<Pair>) {
    forall i | 0 <= i < |ps| :: EQ !in ps[i].0 && AMP !in ps[i].0
  }

  lemma FoundAt(s: seq<Byte>, b: Byte, i: nat, j: nat)
    requires i <= j < |s| && s[j] == b && forall k | i <= k < j :: s[k] != b
    ensures FindByte(s, b, i) == Some(j)
  {
    hide FindByte;
  }

  lemma FoundNowhere(s: seq<Byte>, b: Byte, i: nat)
    requires i <= |s| && forall k | i <= k < |s| :: s[k] != b
    ensures FindByte(s, b, i) == None
  {
    hide FindByte;
  }

  /** One parameter behind `a`: where its equals sign and its end are. */
  lemma PairBehind(a: seq<Byte>, key: seq<Byte>, v: seq<Byte>, rest: seq<Byte>)
    requires EQ !in key && AMP !in v && (rest == [] || rest[0] == AMP)
    ensures var s, eq := a + (key + [EQ] + v + rest), |a| + |key|;
            && FindByte(s, EQ, |a|) == Some(eq) && s[|a|..eq] == key
            && FindByte(s, AMP, eq) == (if rest == [] then None else Some(eq + 1 + |v|))
            && s[eq + 1..eq + 1 + |v|] == v && |s| == eq + 1 + |v| + |rest|
  {
    hide FindByte;
    var s, eq := a + (key + [EQ] + v + rest), |a| + |key|;
    var n := eq + 1 + |v|;
    assert s[|a|..eq] == key && s[eq] == EQ && s[eq + 1..n] == v;
    forall k | |a| <= k < eq ensures s[k] != EQ {
      assert s[k] == key[k - |a|];
    }
    FoundAt(s, EQ, |a|, eq);
    forall k | eq <= k < n ensures s[k] != AMP {
      assert k > eq ==> s[k] == v[k - eq - 1];
    }
    if rest == [] {
      FoundNowhere(s, AMP, eq);
    } else {
      assert s[n] == rest[0];
      FoundAt(s, AMP, eq, n);
    }
  }

  /** One step of parsing. */
  lemma PairsStep(s: seq<Byte>, pos: nat)
    requires pos <= |s|
    ensures match FindByte(s, EQ, pos)
            case None => Pairs(s, pos) == []
            case Some(eq) =>
              match FindByte(s, AMP, eq)
              case None => Pairs(s, pos) == [(s[pos..eq], Decode(s[eq + 1..], true))]
              case Some(amp) => Pairs(s, pos) == [(s[pos..eq], Decode(s[eq + 1..amp], true))] + Pairs(s, amp + 1)
  {
    hide FindByte, Decode;
  }

  /** A key, an equals sign and something that decodes to the value. */
  lemma PairReads(a: seq<Byte>, key: seq<Byte>, v: seq<Byte>, rest: seq<Byte>)
    requires EQ !in key && AMP !in v && (rest == [] || rest[0] == AMP)
    ensures var s, n := a + (key + [EQ] + v + rest), |a| + |key| + 1 + |v|;
            n + |rest| == |s| && Pairs(s, |a|) == [(key, Decode(v, true))] + if rest == [] then [] else Pairs(s, n + 1)
  {
    hide FindByte, Decode, Pairs;
    PairBehind(a, key, v, rest);
    var s, eq := a + (key + [EQ] + v + rest), |a| + |key|;
    PairsStep(s, |a|);
    if rest == [] {
      assert s[eq + 1..] == s[eq + 1..eq + 1 + |v|];
    }
  }

  /** A parameter that was written for `p` is read as `p`. */
  lemma PairReadsBack(a: seq<Byte>, p: Pair, plus: bool, rest: seq<Byte>)
    requires EQ !in p.0 && AMP !in p.0 && (rest == [] || rest[0] == AMP)
    ensures var v := Encode(p.1, plus);
            var s, n := a + (p.0 + [EQ] + v + rest), |a| + |p.0| + 1 + |v|;
            n + |rest| == |s| && Pairs(s, |a|) == [p] + if rest == [] then [] else Pairs(s, n + 1)
  {
    hide FindByte, Encode, Decode, Pairs;
    EncodedIsFree(p.1, plus);
    RoundTrip(p.1, plus, true);
    PairReads(a, p.0, Encode(p.1, plus), rest);
  }

  /** Parsing a query gives the pairs it was built from, whichever way spaces were written. */
  lemma {:induction false} QueryReadsBack(a: seq<Byte>, ps: seq<Pair>, plus: bool)
    requires FreeKeys(ps)
    ensures Pairs(a + QueryOf(ps, plus), |a|) == ps
    decreases |ps|
  {
    hide FindByte, Encode, Decode, Pairs;
    var s := a + QueryOf(ps, plus);
    if ps == [] {
      FoundNowhere(s, EQ, |a|);
      PairsStep(s, |a|);
    } else {
      var more := ps[1..];
      var one := ps[0].0 + [EQ] + Encode(ps[0].1, plus);
      var rest := if |ps| == 1 then [] else [AMP] + QueryOf(more, plus);
      assert one + [] == one;
      Associative(one, [AMP], QueryOf(more, plus));
      PairReadsBack(a, ps[0], plus, rest);
      assert ps == [ps[0]] + more;
      if |ps| > 1 {
        assert s == (a + one + [AMP]) + QueryOf(more, plus);
        FreeTail(ps);
        QueryReadsBack(a + one + [AMP], more, plus);
      }
    }
  }

  lemma FreeTail(ps: seq<Pair>)
    requires ps != [] && FreeKeys(ps)
    ensures FreeKeys(ps[1..])
  {
    assert forall i | 0 <= i < |ps| - 1 :: ps[1..][i] == ps[i + 1];
  }

  lemma InsertNone(m: Params)
    ensures InsertAll(m, []) == m
  {
  }

  lemma {:induction false} InsertMore(m: Params, ps: seq<Pair>, p: Pair)
    ensures InsertAll(m, ps + [p]) == Insert(InsertAll(m, ps), p)
    decreases |ps|
  {
    if ps != [] {
      InsertMore(Insert(m, ps[0]), ps[1..], p);
      assert (ps + [p])[1..] == ps[1..] + [p];
    }
  }

  /** The part of a request that holds its parameters; they are parsed once. */
  class HttpRequest {
    var query: seq<Byte>
    var body: seq<Byte>
    var params: Params
    var queryDone: bool

    constructor (query: seq<Byte>, body: seq<Byte>)
      ensures this.query == query && this.body == body && params == map[] && !queryDone
    {
      this.query, this.body, params, queryDone := query, body, map[], false;
    }

    /** Parse `str` and insert its parameters: a key that is there already is kept. */
    method ParseParam(str: seq<Byte>)
      modifies `params
      ensures params == InsertAll(old(params), Pairs(str, 0))
    {
      hide FindByte, Insert, Pairs, InsertAll;
      var pos: nat := 0;
      ghost var done: seq<Pair> := [];
      assert [] + Pairs(str, 0) == Pairs(str, 0);
      assert InsertAll(params, []) == params by {
        InsertNone(params);
      }
      while true
        invariant pos <= |str| && done + Pairs(str, pos) == Pairs(str, 0)
        invariant params == InsertAll(old(params), done)
        decreases |str| - pos
      {
        PairsStep(str, pos);
        var last := pos;
        var key := FindByte(str, EQ, pos);
        if key == None {
          assert done + [] == done;
          break;
        }
        var end := FindByte(str, AMP, key.value);
        var r := UrlDecode(if end == None then str[key.value + 1..] else str[key.value + 1..end.value], true);
        var p := (str[last..key.value], r);
        InsertMore(old(params), done, p);
        params := Insert(params, p);
        if end == None {
          break;
        }
        pos := end.value + 1;
        assert done + ([p] + Pairs(str, pos)) == done + [p] + Pairs(str, pos);
        done := done + [p];
      }
    }

    method InitQueryParam()
      modifies `params, `queryDone
      ensures queryDone && params == if old(queryDone) then old(params) else InsertAll(old(params), Pairs(query, 0))
    {
      if queryDone {
        return;
      }
      ParseParam(query);
      queryDone := true;
    }
  }
}
