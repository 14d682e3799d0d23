/**
 Putting together a chunked body (section 4.1 of RFC 7230) from a connection that delivers it in any pieces.
 */
module ChunkedBodies {
  import opened Options
  import opened Flat
  import opened Characters
  import opened ByteArrays
  import opened Streams

  // ---------------------------------------------------------------- chunk-size lines

  /** The value of a hexadecimal digit, or 16. */
  function Digit(b: Byte): nat {
    if b == 48 then 0 else if b == 49 then 1 else if b == 50 then 2 else if b == 51 then 3
    else if b == 52 then 4 else if b == 53 then 5 else if b == 54 then 6 else if b == 55 then 7
    else if b == 56 then 8 else if b == 57 then 9
    else if b == 65 || b == 97 then 10 else if b == 66 || b == 98 then 11 else if b == 67 || b == 99 then 12
    else if b == 68 || b == 100 then 13 else if b == 69 || b == 101 then 14 else if b == 70 || b == 102 then 15
    else 16
  }

  predicate IsDigit(b: Byte) {
    Digit(b) < 16
  }

  predicate IsToken(b: Byte) {
    && 32 < b < 127
    && b != 40 && b != 41 && b != 60 && b != 62 && b != 64 && b != 44 && b != 59 && b != 58 && b != 92 && b != 34
    && b != 47 && b != 91 && b != 93 && b != 63 && b != 61 && b != 123 && b != 125
  }

  /** Where the parser is in a line: digits, extensions, line end. */
  datatype Place = Start | Size | NameStart | Name | ValueStart | Value | Cr | Done | Bad

  const CR: Byte := 13
  const LF: Byte := 10

  function Next(p: Place, b: Byte): Place {
    match p
    case Start => if IsDigit(b) then Size else Bad
    case Size => if IsDigit(b) then Size else AfterItem(b)
    case NameStart => if IsToken(b) then Name else Bad
    case Name => if IsToken(b) then Name else if b == 61 then ValueStart else AfterItem(b)
    case ValueStart => if IsToken(b) then Value else Bad
    case Value => if IsToken(b) then Value else AfterItem(b)
    case Cr => if b == LF then Done else Bad
    case Done => Bad
    case Bad => Bad
  }

  function AfterItem(b: Byte): Place {
    if b == 59 then NameStart else if b == CR then Cr else if b == LF then Done else Bad
  }

  /** What the parser makes of `bytes`: a complete line with its size, an error, or all of it used up within a line. */
  datatype Line = Complete(used: nat, size: nat) | Error | Partial

  function Scan(bytes: seq<Byte>, i: nat, p: Place, size: nat): (l: Line)
    requires i <= |bytes|
    ensures l.Complete? ==> i <= l.used <= |bytes| && (p != Done ==> i < l.used)
    decreases |bytes| - i
  {
    if p == Done then Complete(i, size)
    else if p == Bad then Error
    else if i == |bytes| then Partial
    else Scan(bytes, i + 1, Next(p, bytes[i]), NextSize(p, bytes[i], size))
  }

  function NextSize(p: Place, b: Byte, size: nat): nat {
    if (p == Start || p == Size) && IsDigit(b) then 16 * size + Digit(b) else size
  }

  function ParseLine(bytes: seq<Byte>): (l: Line)
    ensures l.Complete? ==> l.used <= |bytes|
  {
    Scan(bytes, 0, Start, 0)
  }

  /** A line that is complete, or wrong, stays so whatever follows. */
  lemma {:induction false} ScanMore(bytes: seq<Byte>, rest: seq<Byte>, i: nat, p: Place, size: nat)
    requires i <= |bytes|
    ensures Scan(bytes, i, p, size) != Partial ==> Scan(bytes + rest, i, p, size) == Scan(bytes, i, p, size)
    decreases |bytes| - i
  {
    hide Next, NextSize;
    if i < |bytes| && p != Done && p != Bad {
      ScanMore(bytes, rest, i + 1, Next(p, bytes[i]), NextSize(p, bytes[i], size));
    }
  }

  /** A complete line has at least two bytes. */
  lemma LineUses(bytes: seq<Byte>)
    ensures ParseLine(bytes).Complete? ==> ParseLine(bytes).used >= 2
    ensures bytes == [] ==> ParseLine(bytes) == Partial
  {
    if bytes != [] {
      var p := Next(Start, bytes[0]);
      assert p == Size || p == Bad;
      assert ParseLine(bytes) == Scan(bytes, 1, p, NextSize(Start, bytes[0], 0));
    }
  }

  function HexValue(ds: seq<Byte>): nat {
    if ds == [] then 0 else 16 * HexValue(ds[..|ds| - 1]) + Digit(ds[|ds| - 1])
  }

  lemma {:induction false} ScanDigits(ds: seq<Byte>, rest: seq<Byte>, i: nat)
    requires i <= |ds| && |ds| > 0 && forall k | 0 <= k < |ds| :: IsDigit(ds[k])
    ensures Scan(ds + rest, i, if i == 0 then Start else Size, HexValue(ds[..i])) ==
            Scan(ds + rest, |ds|, Size, HexValue(ds))
    decreases |ds| - i
  {
    hide IsDigit, Digit;
    if i < |ds| {
      ScanDigits(ds, rest, i + 1);
      assert ds[..i + 1][..i] == ds[..i];
    } else {
      assert ds[..i] == ds;
    }
  }

  lemma LineEnds()
    ensures !IsDigit(CR) && !IsDigit(LF)
  {
  }

  /** Hexadecimal digits and a line end are a line of that size. */
  lemma PlainLine(ds: seq<Byte>, bare: bool)
    requires |ds| > 0 && forall k | 0 <= k < |ds| :: IsDigit(ds[k])
    ensures var end := if bare then [LF] else [CR, LF];
            ParseLine(ds + end) == Complete(|ds| + |end|, HexValue(ds))
  {
    hide IsDigit, Digit, IsToken, HexValue;
    LineEnds();
    var end := if bare then [LF] else [CR, LF];
    var bytes, n, v := ds + end, |ds|, HexValue(ds);
    assert ParseLine(bytes) == Scan(bytes, n, Size, v) by {
      ScanDigits(ds, end, 0);
      assert ds[..0] == [] && HexValue([]) == 0 by {
        NoDigits();
      }
    }
    assert bytes[n] == end[0];
    assert Scan(bytes, n, Size, v) == Scan(bytes, n + 1, AfterItem(end[0]), v);
    if bare {
      assert Scan(bytes, n + 1, Done, v) == Complete(n + 1, v);
    } else {
      assert bytes[n + 1] == LF;
      assert Scan(bytes, n + 1, Cr, v) == Scan(bytes, n + 2, Done, v);
    }
  }

  lemma NoDigits()
    ensures HexValue([]) == 0
  {
  }

  // ---------------------------------------------------------------- numerals

  /** `s` is a hexadecimal numeral of `n`; it may have zeros in front. */
  predicate IsNumeral(s: seq<Byte>, n: nat) {
    && s != [] && IsDigitFor(s[|s| - 1], n % 16)
    && if |s| == 1 then n < 16 else IsNumeral(s[..|s| - 1], n / 16)
  }

  /** The digit for `d` in lower case. */
  function DigitByte(d: nat): (b: Byte)
    requires d < 16
    ensures IsDigitFor(b, d)
  {
    HexCodes(d);
    [48, 49, 50, 51, 52, 53, 54, 55, 56, 57, 97, 98, 99, 100, 101, 102][d]
  }

  /** The shortest numeral in lower case. */
  function Numeral(n: nat): (s: seq<Byte>)
    ensures IsNumeral(s, n)
  {
    hide IsDigitFor;
    var last := [DigitByte(n % 16)];
    if n < 16 then last
    else
      var front := Numeral(n / 16);
      assert (front + last)[..|front|] == front;
      front + last
  }

  lemma DigitValue(b: Byte, d: nat)
    requires IsDigitFor(b, d)
    ensures IsDigit(b) && Digit(b) == d
  {
    HexCodes(d);
  }

  lemma {:induction false} NumeralValue(s: seq<Byte>, n: nat)
    requires IsNumeral(s, n)
    ensures s != [] && HexValue(s) == n && forall k | 0 <= k < |s| :: IsDigit(s[k])
  {
    hide IsDigitFor, IsDigit, Digit;
    var last := |s| - 1;
    DigitValue(s[last], n % 16);
    if |s| == 1 {
      NoDigits();
      assert s[..0] == [];
    } else {
      NumeralValue(s[..last], n / 16);
      assert forall k | 0 <= k < last :: s[..last][k] == s[k];
    }
  }

  /** A numeral and a line end, with or without the carriage return, is a line of that size. */
  lemma NumeralLine(s: seq<Byte>, n: nat)
    requires IsNumeral(s, n)
    ensures ParseLine(s + [13, 10]) == Complete(|s| + 2, n) && ParseLine(s + [10]) == Complete(|s| + 1, n)
  {
    hide IsDigit, HexValue, ParseLine, IsNumeral;
    NumeralValue(s, n);
    PlainLine(s, false);
    PlainLine(s, true);
  }

  // ---------------------------------------------------------------- bodies

  /** The largest chunk that the 32-bit arithmetic on its size and line end can take. */
  const MAX_CHUNK: nat := 0x7fff_fffd

  /** The body that starts with the chunk-size line at the front, and the bytes up to its end, or None. */
  function Decode(bytes: seq<Byte>): (r: Option<(seq<Byte>, nat)>)
    ensures r.Some? ==> r.value.1 <= |bytes|
    decreases |bytes|
  {
    var line := ParseLine(bytes);
    LineUses(bytes);
    if !line.Complete? || line.size > MAX_CHUNK || line.used + line.size + 2 > |bytes| then None
    else
      var n, m := line.used, line.used + line.size;
      if line.size == 0 then Some(([], n + 2)) else Prepend(bytes[n..m], m + 2, Decode(bytes[m + 2..]))
  }

  /** What has been read, in front of what is going to be. */
  function Prepend(body: seq<Byte>, used: nat, r: Option<(seq<Byte>, nat)>): Option<(seq<Byte>, nat)> {
    match r
    case None => None
    case Some((more, n)) => Some((body + more, used + n))
  }

  /** A chunk: its size line, its payload, and the two bytes behind it. */
  datatype Chunk = Chunk(line: seq<Byte>, payload: seq<Byte>, end: seq<Byte>)

  predicate ChunkOk(c: Chunk) {
    ParseLine(c.line) == Complete(|c.line|, |c.payload|) && |c.payload| <= MAX_CHUNK && |c.end| == 2
  }

  function Encode(cs: seq<Chunk>): seq<Byte> {
    if cs == [] then [] else cs[0].line + cs[0].payload + cs[0].end + Encode(cs[1..])
  }

  function Payloads(cs: seq<Chunk>): seq<Byte> {
    if cs == [] then [] else cs[0].payload + Payloads(cs[1..])
  }

  /** How many bytes of the body come before chunk `i`. */
  function SizeBefore(cs: seq<Chunk>, i: nat): nat
    requires i <= |cs|
  {
    if i == 0 then 0 else SizeBefore(cs, i - 1) + |cs[i - 1].payload|
  }

  predicate LiesAt(p: seq<Byte>, data: seq<Byte>, k: nat) {
    k + |p| <= |data| && data[k..k + |p|] == p
  }

  /** `b` is the payloads, each behind those before it, and nothing else. */
  predicate InOrder(cs: seq<Chunk>, b: seq<Byte>) {
    |b| == SizeBefore(cs, |cs|) && forall i | 0 <= i < |cs| :: LiesAt(cs[i].payload, b, SizeBefore(cs, i))
  }

  lemma {:induction false} SizeTail(cs: seq<Chunk>, i: nat)
    requires 0 < i <= |cs|
    ensures SizeBefore(cs, i) == |cs[0].payload| + SizeBefore(cs[1..], i - 1)
  {
    if i > 1 {
      SizeTail(cs, i - 1);
      assert cs[1..][i - 2] == cs[i - 1];
    }
  }

  lemma LiesBehind(p: seq<Byte>, data: seq<Byte>, k: nat, front: seq<Byte>)
    ensures LiesAt(p, data, k) ==> LiesAt(p, front + data, |front| + k)
    ensures LiesAt(front, front + data, 0)
  {
    assert LiesAt(p, data, k) ==> (front + data)[|front| + k..|front| + k + |p|] == data[k..k + |p|];
  }

  lemma {:induction false} PayloadsInOrder(cs: seq<Chunk>)
    ensures InOrder(cs, Payloads(cs))
  {
    hide LiesAt;
    if cs != [] {
      var front, more := cs[0].payload, cs[1..];
      PayloadsInOrder(more);
      SizeTail(cs, |cs|);
      forall i: nat | i < |cs| ensures LiesAt(cs[i].payload, front + Payloads(more), SizeBefore(cs, i)) {
        if i > 0 {
          SizeTail(cs, i);
          assert more[i - 1] == cs[i];
          LiesBehind(cs[i].payload, Payloads(more), SizeBefore(more, i - 1), front);
        } else {
          LiesBehind([], Payloads(more), 0, front);
        }
      }
    }
  }

  /** Chunks of which just the last is empty. */
  predicate Chunked(cs: seq<Chunk>) {
    && |cs| > 0 && (forall i | 0 <= i < |cs| :: ChunkOk(cs[i]))
    && cs[|cs| - 1].payload == [] && forall i | 0 <= i < |cs| - 1 :: cs[i].payload != []
  }

  /** The usual form: the size as a numeral, and CR LF behind it. */
  predicate IsPlainChunk(c: Chunk) {
    && |c.line| >= 2 && c.line[|c.line| - 2..] == [13, 10] && IsNumeral(c.line[..|c.line| - 2], |c.payload|)
    && |c.payload| + 2 <= 0x7fff_ffff && |c.end| == 2
  }

  predicate PlainChunked(cs: seq<Chunk>) {
    && |cs| > 0 && (forall i | 0 <= i < |cs| :: IsPlainChunk(cs[i]))
    && cs[|cs| - 1].payload == [] && forall i | 0 <= i < |cs| - 1 :: cs[i].payload != []
  }

  lemma PlainIsOk(c: Chunk)
    requires IsPlainChunk(c)
    ensures ChunkOk(c)
  {
    hide ParseLine, IsNumeral;
    var s := c.line[..|c.line| - 2];
    NumeralLine(s, |c.payload|);
    assert c.line == s + [13, 10];
  }

  /** Chunks in the usual form are chunks to the parser. */
  lemma PlainIsChunked(cs: seq<Chunk>)
    requires PlainChunked(cs)
    ensures Chunked(cs)
  {
    hide IsPlainChunk, ChunkOk;
    forall i | 0 <= i < |cs| ensures ChunkOk(cs[i]) {
      PlainIsOk(cs[i]);
    }
  }

  /** Decoding one chunk that is at the front. */
  lemma DecodeChunk(c: Chunk, tail: seq<Byte>)
    requires ChunkOk(c)
    ensures var n := |c.line| + |c.payload| + 2;
            Decode(c.line + c.payload + c.end + tail) ==
            if c.payload == [] then Some(([], n))
            else Prepend(c.payload, n, Decode(tail))
  {
    hide ParseLine;
    var rest := c.payload + c.end + tail;
    var bytes := c.line + c.payload + c.end + tail;
    assert bytes == c.line + rest;
    LineKept(c.line, rest);
    assert bytes[|c.line|..|c.line| + |c.payload|] == c.payload;
    assert bytes[|c.line| + |c.payload| + 2..] == tail;
  }

  lemma ChunkedTail(cs: seq<Chunk>)
    requires Chunked(cs)
    ensures |cs| > 0 && ChunkOk(cs[0]) && (|cs| == 1 <==> cs[0].payload == []) && (|cs| > 1 ==> Chunked(cs[1..]))
  {
    assert forall i | 0 <= i < |cs| - 1 :: cs[1..][i] == cs[i + 1];
  }

  /** The body is the payloads one after the other, and it ends where the chunks end. */
  lemma {:induction false} DecodeEncoded(cs: seq<Chunk>, rest: seq<Byte>)
    requires Chunked(cs)
    ensures Decode(Encode(cs) + rest) == Some((Payloads(cs), |Encode(cs)|))
    decreases |cs|
  {
    hide Decode, ChunkOk, Chunked;
    ChunkedTail(cs);
    var c, more := cs[0], cs[1..];
    assert |c.end| == 2 by {
      EndLength(c);
    }
    DecodeChunk(c, Encode(more) + rest);
    assert Encode(cs) + rest == c.line + c.payload + c.end + (Encode(more) + rest);
    if |cs| > 1 {
      DecodeEncoded(more, rest);
    } else {
      assert Encode(more) == [] && Payloads(more) == [];
      assert Encode(cs) == c.line + c.payload + c.end && Payloads(cs) == [];
    }
  }

  lemma EndLength(c: Chunk)
    requires ChunkOk(c)
    ensures |c.end| == 2
  {
  }

  lemma LineKept(line: seq<Byte>, rest: seq<Byte>)
    ensures ParseLine(line) != Partial ==> ParseLine(line + rest) == ParseLine(line)
  {
    ScanMore(line, rest, 0, Start, 0);
  }

  // ---------------------------------------------------------------- what the loops come to

  /** A body, a connection that had to be closed, or a size that the 32-bit arithmetic cannot take. */
  datatype Result = Body(b: seq<Byte>) | Closed | Undefined

  /** What the receiving loops go by: how many bytes are buffered, and the plan of the connection. */
  datatype Feed = Feed(len: nat, plan: seq<int>)

  /**
   The size line that the parser finds, `at` some place, and what is buffered behind it; or it finds none.
   */
  datatype Found = Found(at: nat, used: nat, size: nat, feed: Feed) | NotFound(at: nat)

  /** What a run of the parser sees: what is buffered, or else the next receive. */
  function Seen(feed: Feed, avail: nat, buffSize: nat): (r: Feed)
    requires feed.len <= avail
    ensures r.len <= avail && (feed.len <= buffSize ==> r.len <= buffSize)
  {
    if feed.len > 0 then feed else Feed(Amount(feed.plan, buffSize, avail), NextPlan(feed.plan))
  }

  /** The search for a size line in the unread bytes `u[at..]`. */
  function FindLine(u: seq<Byte>, at: nat, feed: Feed, buffSize: nat): (f: Found)
    requires at + feed.len <= |u|
    ensures at <= f.at <= |u|
    ensures f.Found? ==>
            f.used >= 2 && f.at + f.used + f.feed.len <= |u| && (feed.len <= buffSize ==> f.feed.len <= buffSize)
    decreases |u| - at
  {
    var s := Seen(feed, |u| - at, buffSize);
    var line := ParseLine(u[at..at + s.len]);
    LineUses(u[at..at + s.len]);
    if s.len == 0 || line == Error then NotFound(at)
    else if line == Partial then FindLine(u, at + s.len, Feed(0, s.plan), buffSize)
    else Found(at, line.used, line.size, Feed(s.len - line.used, s.plan))
  }

  lemma FindStep(u: seq<Byte>, at: nat, feed: Feed, buffSize: nat)
    requires at + feed.len <= |u|
    ensures var s, f := Seen(feed, |u| - at, buffSize), FindLine(u, at, feed, buffSize);
            && at + s.len <= |u|
            && var line := ParseLine(u[at..at + s.len]);
            && (s.len == 0 || line == Error ==> f.NotFound?)
            && (s.len > 0 && line == Partial ==> f == FindLine(u, at + s.len, Feed(0, s.plan), buffSize))
            && (s.len > 0 && line.Complete? ==>
                line.used <= s.len && f == Found(at, line.used, line.size, Feed(s.len - line.used, s.plan)))
  {
    hide ParseLine, Seen;
  }

  /** Bytes of a line are lost exactly if the first run of the parser sees some bytes, and they end within the line. */
  lemma NothingLost(u: seq<Byte>, at: nat, feed: Feed, buffSize: nat)
    requires at + feed.len <= |u|
    ensures var k := Seen(feed, |u| - at, buffSize).len;
            FindLine(u, at, feed, buffSize).at == at <==> k == 0 || ParseLine(u[at..at + k]) != Partial
  {
    hide ParseLine;
  }

  /** The plan after receiving `left` bytes, at most a buffer at a time; None if the connection fails before. */
  function Drain(plan: seq<int>, left: nat, buffSize: nat, avail: nat): (r: Option<seq<int>>)
    ensures r.Some? ==> left <= avail
    ensures MovesAll(plan, avail) && left <= avail && buffSize > 0 ==> r.Some? && MovesAll(r.value, avail - left)
    decreases left
  {
    if left == 0 then Some(plan)
    else
      var k := Amount(plan, if left > buffSize then buffSize else left, avail);
      if k == 0 then None else Drain(NextPlan(plan), left - k, buffSize, avail - k)
  }

  /** What is buffered behind a payload and its two end bytes. */
  function AfterPayload(feed: Feed, size: nat, avail: nat, buffSize: nat): (r: Option<Feed>)
    requires feed.len <= avail
    ensures r.Some? ==> size + 2 <= avail && r.value.len <= avail - size - 2 && r.value.len <= feed.len
    ensures MovesAll(feed.plan, avail - feed.len) && size + 2 <= avail && buffSize > 0 ==>
            r.Some? && MovesAll(r.value.plan, avail - size - 2 - r.value.len)
  {
    if size + 2 <= feed.len then Some(Feed(feed.len - size - 2, feed.plan))
    else
      var p := Drain(feed.plan, size + 2 - feed.len, buffSize, avail - feed.len);
      if p == None then None else Some(Feed(0, p.value))
  }

  /** What is assembled, and where it ends. */
  datatype Assembly = Assembly(r: Result, end: nat)

  /** The body in front of what is still to be assembled; a failure stays one. */
  function Put(body: seq<Byte>, a: Assembly): Assembly {
    if a.r.Body? then a.(r := Body(body + a.r.b)) else a
  }

  lemma PutFailure(body: seq<Byte>, a: Assembly)
    ensures !a.r.Body? ==> Put(body, a) == a
    ensures a.r.Body? ==> Put(body, a) == Assembly(Body(body + a.r.b), a.end)
  {
  }

  lemma PutTwice(body: seq<Byte>, body': seq<Byte>, a: Assembly)
    ensures Put(body, Put(body', a)) == Put(body + body', a) && Put([], a) == a
  {
    if a.r.Body? {
      assert body + (body' + a.r.b) == body + body' + a.r.b;
      assert [] + a.r.b == a.r.b;
    }
  }

  /** What comes of the unread bytes `u[at..]`. */
  function Assemble(u: seq<Byte>, at: nat, feed: Feed, buffSize: nat): (a: Assembly)
    requires at + feed.len <= |u|
    ensures a.r.Body? ==> at <= a.end <= |u|
    decreases |u| - at
  {
    hide FindLine, AfterPayload;
    var f := FindLine(u, at, feed, buffSize);
    if f.NotFound? then Assembly(Closed, at)
    else if f.size > MAX_CHUNK then Assembly(Undefined, at)
    else
      var from := f.at + f.used;
      var next := AfterPayload(f.feed, f.size, |u| - from, buffSize);
      if next == None then Assembly(Closed, at)
      else if f.size == 0 then Assembly(Body([]), from + 2)
      else Put(u[from..from + f.size], Assemble(u, from + f.size + 2, next.value, buffSize))
  }

  lemma AssembleStep(u: seq<Byte>, at: nat, feed: Feed, buffSize: nat)
    requires at + feed.len <= |u|
    ensures var f, a := FindLine(u, at, feed, buffSize), Assemble(u, at, feed, buffSize);
            && (f.NotFound? ==> a.r == Closed)
            && (f.Found? && f.size > MAX_CHUNK ==> a.r == Undefined)
            && (f.Found? && f.size <= MAX_CHUNK ==>
                var from := f.at + f.used;
                var next := AfterPayload(f.feed, f.size, |u| - from, buffSize);
                if next == None then a.r == Closed
                else if f.size == 0 then a == Assembly(Body([]), from + 2)
                else a == Put(u[from..from + f.size], Assemble(u, from + f.size + 2, next.value, buffSize)))
  {
    hide FindLine, AfterPayload, Put;
  }

  /** Each size line is whole when the parser is run for it. */
  predicate LinesWhole(u: seq<Byte>, at: nat, feed: Feed, buffSize: nat)
    requires at + feed.len <= |u|
    decreases |u| - at
  {
    hide FindLine, AfterPayload;
    var f := FindLine(u, at, feed, buffSize);
    && f.at == at
    && (f.Found? && 0 < f.size <= MAX_CHUNK ==>
        var from := at + f.used;
        var next := AfterPayload(f.feed, f.size, |u| - from, buffSize);
        next == None || LinesWhole(u, from + f.size + 2, next.value, buffSize))
  }

  /** The line found has the size and the end of the line that is there; none is missed. */
  predicate LineRight(u: seq<Byte>, at: nat, f: Found)
    requires at <= |u|
  {
    var l := ParseLine(u[at..]);
    if f.Found? then l.Complete? && l.size == f.size && at + l.used == f.at + f.used else f.at == at || !l.Complete?
  }

  /** The same for each line that is looked for. Bytes may be lost that do not matter, as zeros in front. */
  predicate LinesRight(u: seq<Byte>, at: nat, feed: Feed, buffSize: nat)
    requires at + feed.len <= |u|
    decreases |u| - at
  {
    hide FindLine, AfterPayload, LineRight;
    var f := FindLine(u, at, feed, buffSize);
    && LineRight(u, at, f)
    && (f.Found? && 0 < f.size <= MAX_CHUNK ==>
        var from := f.at + f.used;
        var next := AfterPayload(f.feed, f.size, |u| - from, buffSize);
        next == None || LinesRight(u, from + f.size + 2, next.value, buffSize))
  }

  /** A line found at once is what decoding starts with; a working connection finds one if there is one. */
  lemma FoundIsDecoded(u: seq<Byte>, at: nat, feed: Feed, buffSize: nat)
    requires at + feed.len <= |u| && buffSize > 0 && FindLine(u, at, feed, buffSize).at == at
    ensures var f, l := FindLine(u, at, feed, buffSize), ParseLine(u[at..]);
            && (f.Found? ==> l == Complete(f.used, f.size))
            && (MovesAll(feed.plan, |u| - at - feed.len) ==>
                if f.Found? then MovesAll(f.feed.plan, |u| - at - f.used - f.feed.len) else !l.Complete?)
  {
    hide ParseLine;
    var k := Seen(feed, |u| - at, buffSize).len;
    assert u[at..at + k] + u[at + k..] == u[at..];
    LineKept(u[at..at + k], u[at + k..]);
    LineUses(u[at..]);
  }

  /** What a size line at some place means for the body. */
  lemma DecodeAt(u: seq<Byte>, at: nat)
    requires at <= |u|
    ensures var l := ParseLine(u[at..]);
            var from := at + if l.Complete? then l.used else 0;
            Decode(u[at..]) ==
            if !l.Complete? || l.size > MAX_CHUNK || from + l.size + 2 > |u| then None
            else if l.size == 0 then Some(([], from + 2 - at))
            else Prepend(u[from..from + l.size], from + l.size + 2 - at, Decode(u[from + l.size + 2..]))
  {
    hide ParseLine, Decode, Prepend;
    DecodeStep(u[at..]);
    var l := ParseLine(u[at..]);
    if l.Complete? && at + l.used + l.size + 2 <= |u| {
      assert u[at..|u|] == u[at..];
      SliceOfSlice(u, at, |u|, l.used, l.size);
      SliceOfTail(u, at, l.used + l.size + 2);
    }
  }

  /** Whole lines are right. */
  lemma {:induction false} WholeIsRight(u: seq<Byte>, at: nat, feed: Feed, buffSize: nat)
    requires at + feed.len <= |u| && buffSize > 0 && LinesWhole(u, at, feed, buffSize)
    ensures LinesRight(u, at, feed, buffSize)
    decreases |u| - at
  {
    hide ParseLine, FindLine, AfterPayload, MovesAll;
    var f := FindLine(u, at, feed, buffSize);
    FoundIsDecoded(u, at, feed, buffSize);
    if f.Found? && 0 < f.size <= MAX_CHUNK {
      var from := at + f.used;
      var next := AfterPayload(f.feed, f.size, |u| - from, buffSize);
      if next.Some? {
        WholeIsRight(u, from + f.size + 2, next.value, buffSize);
      }
    }
  }

  lemma {:induction false} FoundMoves(u: seq<Byte>, at: nat, feed: Feed, buffSize: nat)
    requires at + feed.len <= |u| && buffSize > 0 && MovesAll(feed.plan, |u| - at - feed.len)
    ensures var f := FindLine(u, at, feed, buffSize);
            f.Found? ==> MovesAll(f.feed.plan, |u| - f.at - f.used - f.feed.len)
    decreases |u| - at
  {
    hide ParseLine;
    var s := Seen(feed, |u| - at, buffSize);
    FindStep(u, at, feed, buffSize);
    if s.len > 0 && ParseLine(u[at..at + s.len]) == Partial {
      FoundMoves(u, at + s.len, Feed(0, s.plan), buffSize);
    }
  }

  /** A right line is what decoding starts with; a working connection finds one if there is one. */
  lemma RightLine(u: seq<Byte>, at: nat, feed: Feed, buffSize: nat)
    requires at + feed.len <= |u| && buffSize > 0 && LineRight(u, at, FindLine(u, at, feed, buffSize))
    ensures var f, l := FindLine(u, at, feed, buffSize), ParseLine(u[at..]);
            && (f.Found? ==> l.Complete? && l.size == f.size && at + l.used == f.at + f.used)
            && (MovesAll(feed.plan, |u| - at - feed.len) ==>
                if f.Found? then MovesAll(f.feed.plan, |u| - f.at - f.used - f.feed.len) else !l.Complete?)
  {
    hide ParseLine, FindLine, MovesAll;
    if FindLine(u, at, feed, buffSize).at == at {
      FoundIsDecoded(u, at, feed, buffSize);
    }
    if MovesAll(feed.plan, |u| - at - feed.len) {
      FoundMoves(u, at, feed, buffSize);
    }
  }

  /**
   With right lines it comes to what the bytes encode, and to a failure only if they encode nothing or do not
   come.
   */
  lemma {:induction false} RightIsDecoded(u: seq<Byte>, at: nat, feed: Feed, buffSize: nat)
    requires at + feed.len <= |u| && buffSize > 0 && LinesRight(u, at, feed, buffSize)
    ensures var a := Assemble(u, at, feed, buffSize);
            && (a.r.Body? ==> a.end >= at && Decode(u[at..]) == Some((a.r.b, a.end - at)))
            && (a.r == Undefined ==> Decode(u[at..]) == None)
            && (a.r == Closed && MovesAll(feed.plan, |u| - at - feed.len) ==> Decode(u[at..]) == None)
    decreases |u| - at
  {
    hide Decode, ParseLine, FindLine, AfterPayload, MovesAll, LineRight, Assemble;
    var f := FindLine(u, at, feed, buffSize);
    RightLine(u, at, feed, buffSize);
    DecodeAt(u, at);
    AssembleStep(u, at, feed, buffSize);
    if f.Found? && 0 < f.size <= MAX_CHUNK {
      var from := f.at + f.used;
      var next := AfterPayload(f.feed, f.size, |u| - from, buffSize);
      if next.Some? {
        RightIsDecoded(u, from + f.size + 2, next.value, buffSize);
      }
    }
  }

  /** `a` is what `u` encodes; it is a failure only if `u` encodes nothing, or the connection fails. */
  ghost predicate Decodes(u: seq<Byte>, a: Assembly, delivers: bool) {
    && (a.r.Body? ==> Decode(u) == Some((a.r.b, a.end)))
    && (a.r == Undefined ==> Decode(u) == None)
    && (a.r == Closed && delivers ==> Decode(u) == None)
  }

  lemma RightDecodes(u: seq<Byte>, feed: Feed, buffSize: nat, delivers: bool)
    requires feed.len <= |u| && buffSize > 0 && LinesRight(u, 0, feed, buffSize)
    requires delivers ==> MovesAll(feed.plan, |u| - feed.len)
    ensures Decodes(u, Assemble(u, 0, feed, buffSize), delivers)
  {
    hide Decode, LinesRight, Assemble, MovesAll;
    assert u[0..] == u;
    RightIsDecoded(u, 0, feed, buffSize);
  }

  /** What a size line at the front means for the body. */
  lemma DecodeStep(u: seq<Byte>)
    ensures var l := ParseLine(u);
            Decode(u) ==
            if !l.Complete? || l.size > MAX_CHUNK || l.used + l.size + 2 > |u| then None
            else if l.size == 0 then Some(([], l.used + 2))
            else Prepend(u[l.used..l.used + l.size], l.used + l.size + 2, Decode(u[l.used + l.size + 2..]))
  {
    hide ParseLine;
  }

  /** A whole encoding that is in the buffer is never split. */
  lemma {:induction false} BufferedIsWhole(cs: seq<Chunk>, u: seq<Byte>, at: nat, feed: Feed, buffSize: nat)
    requires Chunked(cs) && |Encode(cs)| <= feed.len && at + feed.len <= |u| && Encode(cs) <= u[at..]
    ensures LinesWhole(u, at, feed, buffSize)
    decreases |cs|
  {
    hide Chunked, ChunkOk, ParseLine;
    ChunkedTail(cs);
    var c, more := cs[0], cs[1..];
    LineOf(c);
    FrontLine(c, Encode(more), u, at, feed.len);
    if c.payload != [] {
      var n := |c.line| + |c.payload| + 2;
      BufferedIsWhole(more, u, at + n, Feed(feed.len - n, feed.plan), buffSize);
    }
  }

  lemma LineOf(c: Chunk)
    requires ChunkOk(c)
    ensures ParseLine(c.line) == Complete(|c.line|, |c.payload|) && |c.payload| <= MAX_CHUNK && |c.end| == 2
            && |c.line| >= 2
  {
    hide ParseLine;
    LineUses(c.line);
  }

  lemma FrontLine(c: Chunk, tail: seq<Byte>, u: seq<Byte>, at: nat, len: nat)
    requires ParseLine(c.line) == Complete(|c.line|, |c.payload|) && |c.end| == 2
    requires at + len <= |u| && c.line + c.payload + c.end + tail <= u[at..] && |c.line| <= len
    ensures ParseLine(u[at..at + len]) == Complete(|c.line|, |c.payload|)
            && tail <= u[at + |c.line| + |c.payload| + 2..]
  {
    hide ParseLine;
    var all := c.line + c.payload + c.end + tail;
    assert forall i | 0 <= i < |all| :: u[at + i] == u[at..][i] == all[i];
    assert u[at..at + len] == c.line + u[at + |c.line|..at + len];
    LineKept(c.line, u[at + |c.line|..at + len]);
  }

  /** A line of size 16 that is cut behind its first digit is taken for the last chunk. */
  lemma SplitLine()
    ensures var line := [49, 48, CR, LF];
            && ParseLine(line) == Complete(4, 16)
            && ParseLine(line[..1]) == Partial
            && ParseLine(line[1..]) == Complete(3, 0)
  {
    var line: seq<Byte> := [49, 48, CR, LF];
    assert line == [49, 48] + [CR, LF] && line[1..] == [48] + [CR, LF];
    assert HexValue([49, 48]) == 16 by {
      assert [49 as Byte, 48][..1] == [49];
      assert HexValue([49]) == 1;
    }
    assert line[..1] == [49];
    assert ParseLine(line[..1]) == Scan(line[..1], 1, Size, 1);
    PlainLine([49, 48], false);
    PlainLine([48], false);
  }

  // ---------------------------------------------------------------- a line that is split

  /** A line of plain digits. */
  function Plain(ds: seq<Byte>, bare: bool): seq<Byte> {
    ds + if bare then [LF] else [CR, LF]
  }

  predicate AllDigits(ds: seq<Byte>) {
    |ds| > 0 && forall k | 0 <= k < |ds| :: IsDigit(ds[k])
  }

  /** Without its first digits a number is no greater, and the same if and only if they are zeros. */
  lemma {:induction false} LostDigits(ds: seq<Byte>, k: nat)
    requires k <= |ds|
    ensures HexValue(ds[k..]) <= HexValue(ds)
    ensures HexValue(ds[k..]) == HexValue(ds) <==> forall i | 0 <= i < k :: Digit(ds[i]) == 0
  {
    hide Digit;
    if ds != [] {
      var n := |ds| - 1;
      if k <= n {
        LostDigits(ds[..n], k);
        assert ds[k..][..n - k] == ds[..n][k..];
      } else {
        LostDigits(ds[..n], n);
        assert ds[..n][n..] == [] && ds[k..] == [];
      }
    }
  }

  lemma PartialDigits(ds: seq<Byte>, k: nat, rest: seq<Byte>)
    requires AllDigits(ds) && 0 < k <= |ds|
    ensures ParseLine((ds + rest)[..k]) == Partial
  {
    hide IsDigit, Digit, HexValue;
    var part := ds[..k];
    assert (ds + rest)[..k] == part + [] == part && part[..0] == [];
    NoDigits();
    ScanDigits(part, [], 0);
  }

  /** Where there is no digit there is no line. */
  lemma NoLine(bytes: seq<Byte>)
    requires bytes != [] && !IsDigit(bytes[0])
    ensures ParseLine(bytes) == Error
  {
    assert Scan(bytes, 0, Start, 0) == Scan(bytes, 1, Bad, 0);
  }

  lemma PartialEnd(ds: seq<Byte>)
    requires AllDigits(ds)
    ensures ParseLine(ds + [CR]) == Partial
  {
    hide IsDigit, Digit, HexValue, IsToken;
    LineEnds();
    NoDigits();
    assert ds[..0] == [];
    ScanDigits(ds, [CR], 0);
    var bytes := ds + [CR];
    assert bytes[|ds|] == CR;
    assert Scan(bytes, |ds|, Size, HexValue(ds)) == Scan(bytes, |ds| + 1, Cr, HexValue(ds));
  }

  /**
   Cut anywhere, the first part is no line yet. The other is a line only if it begins with a digit; then its size
   is that of the remaining digits, which is the right one if and only if the others are zeros.
   */
  lemma CutLine(ds: seq<Byte>, bare: bool, k: nat)
    requires AllDigits(ds) && 0 < k < |Plain(ds, bare)|
    ensures var line := Plain(ds, bare);
            && ParseLine(line) == Complete(|line|, HexValue(ds))
            && ParseLine(line[..k]) == Partial
            && (ParseLine(line[k..]) == if k < |ds| then Complete(|line| - k, HexValue(ds[k..])) else Error)
    ensures k < |ds| ==> (HexValue(ds[k..]) == HexValue(ds) <==> forall i | 0 <= i < k :: Digit(ds[i]) == 0)
  {
    hide IsDigit, Digit, HexValue, ParseLine;
    var line := Plain(ds, bare);
    PlainLine(ds, bare);
    LineEnds();
    if k <= |ds| {
      PartialDigits(ds, k, line[|ds|..]);
      assert line == ds + line[|ds|..];
    } else {
      PartialEnd(ds);
      assert line[..k] == ds + [CR];
    }
    if k < |ds| {
      LostDigits(ds, k);
      PlainLine(ds[k..], bare);
      assert line[k..] == Plain(ds[k..], bare);
    } else {
      assert line[k..][0] == LF || line[k..][0] == CR;
      NoLine(line[k..]);
    }
  }

  /**
   A plain line, cut by the amounts received: what is found behind it is right if and only if the cut is behind
   zeros and before the last digit.
   */
  lemma CutFound(u: seq<Byte>, at: nat, feed: Feed, buffSize: nat, ds: seq<Byte>, bare: bool)
    requires at + feed.len <= |u| && AllDigits(ds) && Plain(ds, bare) <= u[at..]
    requires var first := Seen(feed, |u| - at, buffSize);
             && 0 < first.len < |Plain(ds, bare)|
             && Seen(Feed(0, first.plan), |u| - at - first.len, buffSize).len >= |Plain(ds, bare)| - first.len
    ensures var k := Seen(feed, |u| - at, buffSize).len;
            LineRight(u, at, FindLine(u, at, feed, buffSize)) <==>
              k < |ds| && forall i | 0 <= i < k :: Digit(ds[i]) == 0
  {
    hide ParseLine, FindLine, HexValue, Digit, IsDigit, Plain;
    var first := Seen(feed, |u| - at, buffSize);
    var line, k := Plain(ds, bare), first.len;
    var second := Seen(Feed(0, first.plan), |u| - at - k, buffSize);
    CutLine(ds, bare, k);
    FindStep(u, at, feed, buffSize);
    FindStep(u, at + k, Feed(0, first.plan), buffSize);
    PieceOf(u, at, line, k, second.len);
  }

  /** Where the runs of the parser find the two parts. */
  lemma PieceOf(u: seq<Byte>, at: nat, line: seq<Byte>, k: nat, n: nat)
    requires at <= |u| && line <= u[at..] && k < |line| && at + k + n <= |u| && n >= |line| - k
    ensures u[at..at + k] == line[..k]
    ensures ParseLine(line) != Partial ==> ParseLine(u[at..]) == ParseLine(line)
    ensures ParseLine(line[k..]) != Partial ==> ParseLine(u[at + k..at + k + n]) == ParseLine(line[k..])
  {
    hide ParseLine;
    var rest := u[at + |line|..];
    assert u[at..] == line + u[at..][|line|..];
    LineKept(line, u[at..][|line|..]);
    assert forall i | 0 <= i < |line| :: u[at + i] == u[at..][i] == line[i];
    assert u[at + k..at + k + n] == line[k..] + u[at + |line|..at + k + n];
    LineKept(line[k..], u[at + |line|..at + k + n]);
  }

  // ---------------------------------------------------------------- the receiving loops

  /** What is in the buffer and not used yet, and what is still to come. */
  ghost function Unread(stream: Connection, data: array<Byte>, len: nat): seq<Byte>
    reads stream, data
    requires len <= data.Length
  {
    data[..len] + stream.incoming
  }

  /** Drop the first `n` of `len` bytes. */
  method MoveDown(data: array<Byte>, n: nat, len: nat)
    requires n <= len <= data.Length
    modifies data
    ensures data[..len - n] == old(data[n..len])
  {
    for i := 0 to len - n
      invariant data[..i] == old(data[n..n + i])
      invariant data[i..] == old(data[i..])
    {
      assert data[n + i] == data[i..][n] == old(data[n + i]);
      data[i] := data[n + i];
    }
  }

  /** Append what the connection has, at most `n` bytes. */
  method Fill(stream: Connection, data: array<Byte>, len: nat, n: nat) returns (rt: int, len': nat)
    requires n > 0 && len + n <= data.Length
    modifies data, stream`incoming, stream`recvPlan
    ensures len' == len + Amount(old(stream.Plan()), n, old(|stream.incoming|))
            && stream.Plan() == NextPlan(old(stream.Plan()))
    ensures if len' == len then rt <= 0 else rt == len' - len
    ensures Unread(stream, data, len') == old(Unread(stream, data, len))
  {
    var got;
    rt, got := stream.Recv(n);
    MemCopy(data, len, got);
    len' := len + |got|;
    assert data[..len'] == old(data[..len]) + got;
    assert old(data[..len]) + (got + stream.incoming) == old(data[..len]) + got + stream.incoming;
  }

  /** One run of the parser, started afresh: what it has used is dropped from the buffer. */
  method Execute(data: array<Byte>, len: nat) returns (line: Line, len': nat)
    requires len < data.Length
    modifies data
    ensures line == ParseLine(old(data[..len]))
    ensures line.Complete? ==> len' == len - line.used && data[..len'] == old(data[line.used..len])
    ensures line == Partial ==> len' == 0
    ensures line == Error ==> len' == len
  {
    line := ParseLine(data[..len]);
    data[len] := 0;
    len' := len;
    match line {
      case Complete(n, _) =>
        MoveDown(data, n, len);
        len' := len - n;
      case Partial => len' := 0;
      case Error =>
    }
  }

  /** A run of the parser, seen from the whole of what is unread. */
  method Run(stream: Connection, data: array<Byte>, len: nat, ghost u: seq<Byte>, ghost at: nat)
    returns (line: Line, len': nat)
    requires len < data.Length && at + len <= |u| && Unread(stream, data, len) == u[at..]
    modifies data
    ensures line == ParseLine(u[at..at + len])
    ensures line.Complete? ==>
            2 <= line.used <= len && len' == len - line.used && Unread(stream, data, len') == u[at + line.used..]
    ensures line == Error ==> len' == len
    ensures line == Partial ==> len' == 0 && Unread(stream, data, 0) == u[at + len..]
  {
    hide ParseLine, Scan;
    ghost var v := Unread(stream, data, len);
    assert v[..len] == data[..len] && v[len..] == stream.incoming;
    SliceOfTail(u, at, len);
    LineUses(data[..len]);
    line, len' := Execute(data, len);
    if line.Complete? {
      SliceOfTail(u, at, line.used);
      assert Unread(stream, data, len') == v[line.used..];
    } else if line == Partial {
      assert Unread(stream, data, 0) == v[len..];
    }
  }

  /**
   A chunk-size line. Bytes of it that a run of the parser used before it ended within the line are lost, for
   the next run starts afresh.
   */
  method ReadLine(stream: Connection, data: array<Byte>, buffSize: nat, len: nat, ghost u: seq<Byte>, ghost at: nat)
    returns (ok: bool, size: nat, len': nat)
    requires buffSize > 0 && data.Length == buffSize + 1 && len <= buffSize
    requires at + len <= |u| && Unread(stream, data, len) == u[at..]
    modifies data, stream`incoming, stream`recvPlan
    ensures len' <= buffSize
    ensures var f := FindLine(u, at, Feed(len, old(stream.Plan())), buffSize);
            && (ok <==> f.Found?)
            && (ok ==> size == f.size && Feed(len', stream.Plan()) == f.feed
                       && Unread(stream, data, len') == u[f.at + f.used..])
  {
    hide ParseLine, Scan, Unread, FindLine, Amount, NextPlan;
    ghost var plan, here: nat := stream.Plan(), at;
    len', size := len, 0;
    var begin := true;
    while true
      invariant len' <= buffSize && here + len' <= |u| && Unread(stream, data, len') == u[here..]
      invariant FindLine(u, at, Feed(len, plan), buffSize) == FindLine(u, here, Feed(len', stream.Plan()), buffSize)
      invariant !begin ==> len' == 0
      decreases |u| - here
    {
      UnreadLength(stream, data, len');
      FindStep(u, here, Feed(len', stream.Plan()), buffSize);
      if !begin || len' == 0 {
        var rt;
        rt, len' := Fill(stream, data, len', buffSize - len');
        if rt <= 0 {
          return false, 0, len';
        }
      }
      ghost var n := len';
      var line;
      line, len' := Run(stream, data, len', u, here);
      if line == Error || len' == buffSize {
        return false, 0, len';
      }
      if line.Complete? {
        return true, line.size, len';
      }
      begin, here := false, here + n;
    }
  }

  lemma UnreadLength(stream: Connection, data: array<Byte>, len: nat)
    requires len <= data.Length
    ensures |Unread(stream, data, len)| == len + |stream.incoming|
  {
  }

  /** Append the next `left` bytes of the connection to the body, and take no more than them. */
  method ReadRest(stream: Connection, buffSize: nat, left: nat, body: seq<Byte>) returns (ok: bool, body': seq<Byte>)
    requires buffSize > 0
    modifies stream`incoming, stream`recvPlan
    ensures var d := Drain(old(stream.Plan()), left, buffSize, old(|stream.incoming|));
            && (ok <==> d.Some?)
            && (ok ==> stream.Plan() == d.value && body' == body + old(stream.incoming)[..left]
                       && stream.incoming == old(stream.incoming)[left..])
  {
    hide Amount, NextPlan, MovesAll;
    ghost var u, n: nat := stream.incoming, 0;
    var l: int := left;
    body' := body;
    while l > 0
      invariant 0 <= l && n + l == left && n <= |u|
      invariant body' == body + u[..n] && stream.incoming == u[n..]
      invariant Drain(old(stream.Plan()), left, buffSize, |u|) == Drain(stream.Plan(), l, buffSize, |u| - n)
    {
      var rt, got := stream.Recv(if l > buffSize then buffSize else l);
      if rt <= 0 {
        return false, body';
      }
      SliceOfTail(u, n, rt);
      assert u[n..][..rt] == got;
      assert u[..n] + got == u[..n + rt];
      body' := body' + got;
      l := l - rt;
      n := n + rt;
    }
    return true, body';
  }

  /**
   The payload of a chunk and the two bytes behind it: from the buffer if it holds them all, else what it
   holds and the rest from the connection.
   */
  method TakePayload(stream: Connection, data: array<Byte>, buffSize: nat, len: nat, size: nat, body: seq<Byte>)
    returns (ok: bool, body': seq<Byte>, len': nat)
    requires buffSize > 0 && data.Length == buffSize + 1 && len <= buffSize
    modifies data, stream`incoming, stream`recvPlan
    ensures len' <= buffSize
    ensures var u := old(Unread(stream, data, len));
            len <= |u| &&
            var next := AfterPayload(Feed(len, old(stream.Plan())), size, |u|, buffSize);
            && (ok <==> next.Some?)
            && (ok ==> next.value == Feed(len', stream.Plan()) && body' == body + u[..size]
                       && Unread(stream, data, len') == u[size + 2..])
  {
    hide Drain, MovesAll;
    ghost var u := Unread(stream, data, len);
    if size + 2 <= len {
      body' := body + data[..size];
      MoveDown(data, size + 2, len);
      len' := len - size - 2;
      assert Unread(stream, data, len') == u[size + 2..];
      return true, body', len';
    }
    ghost var more := stream.incoming;
    var left := size + 2 - len;
    ok, body' := ReadRest(stream, buffSize, left, body + data[..len]);
    len' := 0;
    if ok {
      assert u[..size + 2] == data[..len] + more[..left];
      assert body' == body + u[..size + 2];
      body' := body'[..|body'| - 2];
      assert body' == body + u[..size];
      assert Unread(stream, data, 0) == more[left..] == u[size + 2..];
    }
  }

  /** What comes of one chunk. */
  datatype Status = More | Last | Failed | TooLong

  /** One chunk is added to the body; behind it the unread bytes are `u[at'..]`. */
  method RecvChunk(stream: Connection, data: array<Byte>, buffSize: nat, len: nat, body: seq<Byte>,
                   ghost u: seq<Byte>, ghost at: nat)
    returns (status: Status, body': seq<Byte>, len': nat, ghost at': nat)
    requires buffSize > 0 && data.Length == buffSize + 1 && len <= buffSize
    requires at + len <= |u| && Unread(stream, data, len) == u[at..]
    modifies data, stream`incoming, stream`recvPlan
    ensures len' <= buffSize && at <= at' <= |u|
    ensures status == More || status == Last ==> Unread(stream, data, len') == u[at'..]
    ensures var a := Assemble(u, at, Feed(len, old(stream.Plan())), buffSize);
            match status
            case More =>
              && at < at' && at' + len' <= |u|
              && Put(body, a) == Put(body', Assemble(u, at', Feed(len', stream.Plan()), buffSize))
            case Last => Put(body, a) == Assembly(Body(body'), at')
            case Failed => a.r == Closed
            case TooLong => a.r == Undefined
  {
    hide Unread, ParseLine, FindLine, AfterPayload, Assemble, Put;
    ghost var now := Feed(len, stream.Plan());
    ghost var f := FindLine(u, at, now, buffSize);
    AssembleStep(u, at, now, buffSize);
    PutFailure(body, Assemble(u, at, now, buffSize));
    at' := at;
    var ok, size;
    ok, size, len' := ReadLine(stream, data, buffSize, len, u, at);
    if !ok {
      return Failed, body, len', at;
    }
    if size > MAX_CHUNK {
      return TooLong, body, len', at;
    }
    ghost var from := f.at + f.used;
    ok, body', len' := TakePayload(stream, data, buffSize, len', size, body);
    if !ok {
      return Failed, body, len', at;
    }
    SliceOfTail(u, from, size + 2);
    SliceOfTail(u, from, size);
    at' := from + size + 2;
    UnreadLength(stream, data, len');
    if size == 0 {
      assert body + [] == body;
      return Last, body', len', at';
    }
    PutTwice(body, u[from..from + size], Assemble(u, at', Feed(len', stream.Plan()), buffSize));
    return More, body', len', at';
  }

  /**
   The chunked body, for every way the connection cuts the bytes. If each size line found is right, as it is when
   it is whole when the parser is run, it is the body that the unread bytes encode, whatever the cuts between and
   within payloads, and just its bytes are used; a connection that delivers is closed only if they encode none.
   */
  method RecvChunked(stream: Connection, data: array<Byte>, buffSize: nat, offset: nat) returns (r: Result, len: nat)
    requires buffSize > 0 && data.Length == buffSize + 1 && offset <= buffSize
    modifies data, stream`incoming, stream`recvPlan, stream`connected
    ensures len <= buffSize
    ensures var u, feed := old(Unread(stream, data, offset)), Feed(offset, old(stream.Plan()));
            offset <= |u| &&
            var a := Assemble(u, 0, feed, buffSize);
            && r == a.r && (r.Body? ==> Unread(stream, data, len) == u[a.end..])
            && (LinesRight(u, 0, feed, buffSize) ==> Decodes(u, a, old(stream.Delivers())))
    ensures stream.connected == (old(stream.connected) && r != Closed)
  {
    hide Decodes, Unread, LinesRight, Assemble;
    ghost var u, feed := Unread(stream, data, offset), Feed(offset, stream.Plan());
    UnreadLength(stream, data, offset);
    if LinesRight(u, 0, feed, buffSize) {
      RightDecodes(u, feed, buffSize, stream.Delivers());
    }
    ghost var at: nat := 0;
    var body, status := [], More;
    PutTwice([], [], Assemble(u, 0, feed, buffSize));
    len := offset;
    while status == More
      invariant len <= buffSize && at <= |u| && stream.connected == old(stream.connected)
      invariant status == More || status == Last ==> Unread(stream, data, len) == u[at..]
      invariant var a := Assemble(u, 0, feed, buffSize);
                match status
                case More => at + len <= |u| && a == Put(body, Assemble(u, at, Feed(len, stream.Plan()), buffSize))
                case Last => a == Assembly(Body(body), at)
                case Failed => a.r == Closed
                case TooLong => a.r == Undefined
      decreases |u| - at, status == More
    {
      status, body, len, at := RecvChunk(stream, data, buffSize, len, body, u, at);
    }
    match status {
      case Last => return Body(body), len;
      case Failed =>
        stream.Close();
        return Closed, len;
      case _ => return Undefined, len;
    }
  }

  /** Chunks that a connection delivers are put together to their payloads, unless a size line is split badly. */
  method RecvChunks(stream: Connection, data: array<Byte>, buffSize: nat, offset: nat,
                    ghost cs: seq<Chunk>, ghost rest: seq<Byte>)
    returns (r: Result, len: nat)
    requires buffSize > 0 && data.Length == buffSize + 1 && offset <= buffSize
    requires (Chunked(cs) || PlainChunked(cs)) && stream.Delivers() && Unread(stream, data, offset) == Encode(cs) + rest
    modifies data, stream`incoming, stream`recvPlan, stream`connected
    ensures len <= buffSize && offset <= |Encode(cs) + rest|
    ensures LinesRight(Encode(cs) + rest, 0, Feed(offset, old(stream.Plan())), buffSize) || |Encode(cs)| <= offset ==>
            r == Body(Payloads(cs)) && InOrder(cs, r.b) && Unread(stream, data, len) == rest
  {
    if PlainChunked(cs) {
      PlainIsChunked(cs);
    }
    PayloadsInOrder(cs);
    hide Decode, Chunked, PlainChunked, InOrder, Encode, Payloads, LinesWhole, LinesRight, Assemble;
    UnreadLength(stream, data, offset);
    DecodeEncoded(cs, rest);
    assert (Encode(cs) + rest)[|Encode(cs)|..] == rest;
    if |Encode(cs)| <= offset {
      assert (Encode(cs) + rest)[0..] == Encode(cs) + rest;
      BufferedIsWhole(cs, Encode(cs) + rest, 0, Feed(offset, stream.Plan()), buffSize);
      WholeIsRight(Encode(cs) + rest, 0, Feed(offset, stream.Plan()), buffSize);
    }
    r, len := RecvChunked(stream, data, buffSize, offset);
  }

  /** A chunk of sixteen bytes and the last chunk. */
  function SixteenBytes(p: seq<Byte>): seq<Chunk> {
    [Chunk([49, 48, CR, LF], p, [CR, LF]), Chunk([48, CR, LF], [], [CR, LF])]
  }

  lemma SixteenChunked(p: seq<Byte>)
    requires |p| == 16
    ensures Chunked(SixteenBytes(p)) && Payloads(SixteenBytes(p)) == p
    ensures Encode(SixteenBytes(p)) == [49, 48, CR, LF] + p + [CR, LF] + ([48, CR, LF] + [CR, LF])
            && |Encode(SixteenBytes(p))| == 27
  {
    hide ParseLine;
    SplitLine();
    var cs := SixteenBytes(p);
    assert [49 as Byte, 48, CR, LF][1..] == [48, CR, LF];
    assert cs[1..][1..] == [] && Encode([]) == [] && Payloads([]) == [];
    assert Payloads(cs[1..]) == [] && Encode(cs[1..]) == [48, CR, LF] + [] + [CR, LF] + [];
    assert [48, CR, LF] + [] + [CR, LF] + [] == [48, CR, LF] + [CR, LF];
    assert p + [] == p;
  }

  /** The same bytes, when the first receive brings one of them and the next the others. */
  lemma SplitAssembles(p: seq<Byte>, plan: seq<int>)
    requires |p| == 16 && |plan| >= 2 && plan[0] == 1 && plan[1] >= 100
    ensures var u := Encode(SixteenBytes(p));
            && Assemble(u, 0, Feed(0, plan), 100).r == Body([])
            && !LinesRight(u, 0, Feed(0, plan), 100)
  {
    hide ParseLine, Encode;
    SixteenChunked(p);
    SplitLine();
    var u := Encode(SixteenBytes(p));
    var feed := Feed(0, NextPlan(plan));
    assert u[0..1] == [49, 48, CR, LF][..1];
    var rest := p + [CR, LF] + ([48, CR, LF] + [CR, LF]);
    assert u[1..27] == [49, 48, CR, LF][1..] + rest;
    LineKept([49, 48, CR, LF][1..], rest);
    assert Seen(Feed(0, plan), 27, 100).len == 1 && Seen(feed, 26, 100).len == 26;
    assert FindLine(u, 1, feed, 100) == Found(1, 3, 0, Feed(23, NextPlan(feed.plan)));
    assert FindLine(u, 0, Feed(0, plan), 100) == FindLine(u, 1, feed, 100);
    assert u[0..] == [49, 48, CR, LF] + rest;
    LineKept([49, 48, CR, LF], rest);
  }

  /**
   A size line that is split: sixteen bytes are sent, in chunks, over a connection that delivers them, and the
   body that is received is empty.
   */
  method SplitRun(stream: Connection, data: array<Byte>, ghost p: seq<Byte>) returns (r: Result)
    requires |p| == 16 && stream.Delivers() && stream.incoming == Encode(SixteenBytes(p))
    requires |stream.recvPlan| >= 2 && stream.recvPlan[0] == 1 && stream.recvPlan[1] >= 100 && data.Length == 101
    modifies data, stream`incoming, stream`recvPlan, stream`connected
    ensures r == Body([]) && Chunked(SixteenBytes(p)) && Payloads(SixteenBytes(p)) == p
  {
    hide Assemble, LinesRight, Decode, Encode;
    SixteenChunked(p);
    SplitAssembles(p, stream.recvPlan);
    assert Unread(stream, data, 0) == stream.incoming;
    var result, _ := RecvChunked(stream, data, 100, 0);
    return result;
  }

  /**
   A body of a given length: what the buffer holds of it and the rest from the connection, no more than that.
   A length that is negative as a signed 64-bit number means no body; a rest that is not positive as a 32-bit
   one counts as a failure.
   */
  method RecvSized(stream: Connection, data: array<Byte>, offset: nat, length: int) returns (r: Result)
    requires offset <= data.Length && -0x8000_0000_0000_0000 <= length < 0x8000_0000_0000_0000
    modifies stream`incoming, stream`recvPlan, stream`connected
    ensures r != Undefined && (length <= 0 ==> r == Body([]) && stream.incoming == old(stream.incoming))
    ensures stream.connected == (old(stream.connected) && r != Closed)
    ensures length > 0 ==>
      var u := old(Unread(stream, data, offset));
      && (r.Body? ==> length <= |u| && r.b == u[..length]
                      && stream.incoming == if length <= offset then old(stream.incoming) else u[length..])
      && (old(stream.Delivers()) && length <= |u| && (length <= offset || ToInt32(length - offset) > 0) ==> r.Body?)
  {
    ghost var u := Unread(stream, data, offset);
    var body: seq<Byte> := [];
    if length > 0 {
      body := if length >= offset then data[..offset] else data[..length];
      assert length < offset ==> body == u[..length];
      var left := length - offset;
      if left > 0 {
        var rt, got := stream.ReadFixSize(left);
        if rt <= 0 {
          stream.Close();
          return Closed;
        }
        assert body + got == u[..length] && stream.incoming == u[length..];
        body := body + got;
      }
    }
    return Body(body);
  }
}
