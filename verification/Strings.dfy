/**
 Replacing and splitting: loops over a string in which positions move while it may grow.
 */
module Strings {
  import opened Options
  import opened Flat

  predicate OccursAt(s: seq<Byte>, f: seq<Byte>, i: nat) {
    i + |f| <= |s| && s[i..i + |f|] == f
  }

  /** `j` is the first place from `i` on where `f` occurs, or there is none. */
  predicate IsFirst(s: seq<Byte>, f: seq<Byte>, i: nat, j: Option<nat>) {
    match j
    case None => forall k | i <= k <= |s| :: !OccursAt(s, f, k)
    case Some(n) => i <= n <= |s| && OccursAt(s, f, n) && forall k | i <= k < n :: !OccursAt(s, f, k)
  }

  /** The search of a string in a string, from `i` on. */
  function Find(s: seq<Byte>, f: seq<Byte>, i: nat): (j: Option<nat>)
    requires i <= |s|
    ensures IsFirst(s, f, i, j)
    decreases |s| - i
  {
    if OccursAt(s, f, i) then Some(i) else if i == |s| then None else Find(s, f, i + 1)
  }

  function Join(pieces: seq<seq<Byte>>, r: seq<Byte>): seq<Byte> {
    if |pieces| == 0 then [] else if |pieces| == 1 then pieces[0] else pieces[0] + r + Join(pieces[1..], r)
  }

  // ---------------------------------------------------------------- replacing

  /** What lies between the leftmost occurrences of `f` that do not overlap. */
  function Pieces(s: seq<Byte>, f: seq<Byte>): (ps: seq<seq<Byte>>)
    requires f != []
    ensures |ps| >= 1
    decreases |s|
  {
    match Find(s, f, 0)
    case None => [s]
    case Some(j) => [s[..j]] + Pieces(s[j + |f|..], f)
  }

  predicate Lacks(s: seq<Byte>, f: seq<Byte>) {
    forall k | 0 <= k <= |s| :: !OccursAt(s, f, k)
  }

  /** There is no occurrence in what lies before the first one. */
  lemma BeforeFirst(s: seq<Byte>, f: seq<Byte>)
    ensures match Find(s, f, 0) { case None => Lacks(s, f) case Some(j) => f != [] ==> Lacks(s[..j], f) }
  {
    var first := Find(s, f, 0);
    if first.Some? && f != [] {
      var j := first.value;
      forall k | 0 <= k <= j ensures !OccursAt(s[..j], f, k) {
        assert k + |f| <= j ==> s[..j][k..k + |f|] == s[k..k + |f|];
        assert k < j ==> !OccursAt(s, f, k);
      }
    }
  }

  /** The pieces make up the string, and there is no occurrence left in any of them. */
  lemma {:induction false} PiecesMakeUp(s: seq<Byte>, f: seq<Byte>)
    requires f != []
    ensures Join(Pieces(s, f), f) == s
    ensures forall p | p in Pieces(s, f) :: Lacks(p, f)
    decreases |s|
  {
    hide Find, Lacks;
    BeforeFirst(s, f);
    match Find(s, f, 0)
    case None =>
    case Some(j) =>
      var rest := s[j + |f|..];
      PiecesMakeUp(rest, f);
      assert s == s[..j] + f + rest;
      assert Pieces(s, f)[1..] == Pieces(rest, f);
  }

  lemma FirstIsOne(s: seq<Byte>, f: seq<Byte>, i: nat, x: Option<nat>, y: Option<nat>)
    requires IsFirst(s, f, i, x) && IsFirst(s, f, i, y)
    ensures x == y
  {
    hide OccursAt;
  }

  lemma OccursBehind(a: seq<Byte>, s: seq<Byte>, f: seq<Byte>, k: nat)
    ensures OccursAt(a + s, f, |a| + k) <==> OccursAt(s, f, k)
  {
    assert k + |f| <= |s| ==> (a + s)[|a| + k..|a| + k + |f|] == s[k..k + |f|];
  }

  /** Searching behind a prefix. */
  lemma FindBehind(a: seq<Byte>, s: seq<Byte>, f: seq<Byte>)
    ensures Find(a + s, f, |a|) == Behind(a, Find(s, f, 0))
  {
    hide Find, IsFirst;
    FirstBehind(a, s, f, Find(s, f, 0));
    FirstIsOne(a + s, f, |a|, Find(a + s, f, |a|), Behind(a, Find(s, f, 0)));
  }

  function Behind(a: seq<Byte>, j: Option<nat>): Option<nat> {
    match j
    case None => None
    case Some(n) => Some(|a| + n)
  }

  lemma FirstBehind(a: seq<Byte>, s: seq<Byte>, f: seq<Byte>, j: Option<nat>)
    requires IsFirst(s, f, 0, j)
    ensures IsFirst(a + s, f, |a|, Behind(a, j))
  {
    hide OccursAt;
    forall k: nat | |a| <= k ensures OccursAt(a + s, f, k) <==> OccursAt(s, f, k - |a|) {
      OccursBehind(a, s, f, k - |a|);
    }
  }

  /**
   Every leftmost occurrence is replaced; what was put in is not searched again, so the loop ends although
   the string may grow: what lies behind the index gets shorter.
   */
  method Replace(str1: seq<Byte>, find: seq<Byte>, replaceWith: seq<Byte>) returns (str: seq<Byte>)
    requires find != []
    ensures str == Join(Pieces(str1, find), replaceWith)
  {
    hide Find, Join, Pieces;
    str := str1;
    var index := Find(str, find, 0);
    ghost var done, rest: seq<Byte> := [], str1;
    assert str == [] + rest;
    assert [] + Join(Pieces(rest, find), replaceWith) == Join(Pieces(str1, find), replaceWith);
    FindBehind([], rest, find);
    while index.Some?
      invariant str == done + rest && index == Find(str, find, |done|)
      invariant done + Join(Pieces(rest, find), replaceWith) == Join(Pieces(str1, find), replaceWith)
      decreases |rest|
    {
      FindBehind(done, rest, find);
      var i := index.value;
      ghost var j := i - |done|;
      PieceStep(rest, find, replaceWith);
      ghost var done', rest' := done + rest[..j] + replaceWith, rest[j + |find|..];
      assert str[..i] == done + rest[..j] && str[i + |find|..] == rest';
      str := str[..i] + replaceWith + str[i + |find|..];
      assert str == done' + rest';
      assert done' + Join(Pieces(rest', find), replaceWith) ==
             done + (rest[..j] + replaceWith + Join(Pieces(rest', find), replaceWith));
      done, rest := done', rest';
      index := Find(str, find, i + |replaceWith|);
    }
    FindBehind(done, rest, find);
    PieceStep(rest, find, replaceWith);
  }

  lemma PieceStep(s: seq<Byte>, f: seq<Byte>, r: seq<Byte>)
    requires f != []
    ensures match Find(s, f, 0)
            case None => Join(Pieces(s, f), r) == s
            case Some(j) => j + |f| <= |s| && Join(Pieces(s, f), r) == s[..j] + r + Join(Pieces(s[j + |f|..], f), r)
  {
    match Find(s, f, 0)
    case None =>
    case Some(j) => assert Pieces(s, f)[1..] == Pieces(s[j + |f|..], f);
  }

  /** An empty search string is found wherever the search starts, so that the loop would never end. */
  lemma EmptyIsAlwaysFound(s: seq<Byte>, r: seq<Byte>, i: nat)
    requires i <= |s|
    ensures Find(s, [], i) == Some(i)
    ensures var s' := s[..i] + r + s[i..]; Find(s', [], i + |r|) == Some(i + |r|) && |s'| - (i + |r|) == |s| - i
  {
  }

  // ---------------------------------------------------------------- splitting

  /** The first delimiter from `i` on. */
  function FindOf(s: seq<Byte>, delims: set<Byte>, i: nat): (j: Option<nat>)
    requires i <= |s|
    ensures j.Some? ==> i <= j.value < |s| && s[j.value] in delims && forall k | i <= k < j.value :: s[k] !in delims
    ensures j.None? ==> forall k | i <= k < |s| :: s[k] !in delims
    decreases |s| - i
  {
    if i == |s| then None else if s[i] in delims then Some(i) else FindOf(s, delims, i + 1)
  }

  const WRAP: nat := 0x1_0000_0000_0000_0000

  /** How many pieces there may be: below 2 the count wraps round before it reaches 1. */
  function Limit(max: nat): nat {
    if max >= 2 then max else max + WRAP
  }

  predicate Free(p: seq<Byte>, delims: set<Byte>) {
    forall k | 0 <= k < |p| :: p[k] !in delims
  }

  /** Parts without delimiters; the last may have some if there are `limit` parts. */
  predicate IsSplit(ps: seq<seq<Byte>>, delims: set<Byte>, limit: nat) {
    && 1 <= |ps| <= limit
    && (forall i | 0 <= i < |ps| - 1 :: Free(ps[i], delims))
    && (|ps| < limit ==> Free(ps[|ps| - 1], delims))
  }

  /** With one delimiter between them the parts make up the string again; with several, those that were there. */
  function JoinAt(ps: seq<seq<Byte>>, ds: seq<Byte>): seq<Byte>
    requires |ds| + 1 == |ps|
  {
    if |ps| == 1 then ps[0] else JoinAt(ps[..|ps| - 1], ds[..|ds| - 1]) + [ds[|ds| - 1]] + ps[|ps| - 1]
  }

  lemma JoinAtMore(ps: seq<seq<Byte>>, ds: seq<Byte>, p: seq<Byte>, d: Byte, q: seq<Byte>)
    requires |ds| == |ps|
    ensures JoinAt(ps + [p, q], ds + [d]) == JoinAt(ps + [p], ds) + [d] + q
  {
    assert (ps + [p, q])[..|ps| + 1] == ps + [p];
    assert (ds + [d])[..|ds|] == ds;
  }

  /** Parts without delimiters, and the delimiter behind each. */
  predicate CutOff(ps: seq<seq<Byte>>, ds: seq<Byte>, delims: set<Byte>) {
    |ps| == |ds| && (forall i | 0 <= i < |ps| :: Free(ps[i], delims)) && forall d | d in ds :: d in delims
  }

  lemma CutOffMore(ps: seq<seq<Byte>>, ds: seq<Byte>, delims: set<Byte>, p: seq<Byte>, d: Byte)
    requires CutOff(ps, ds, delims) && Free(p, delims) && d in delims
    ensures CutOff(ps + [p], ds + [d], delims)
  {
    hide Free;
  }

  /** The last part: up to the end of the string, with or without delimiters in it. */
  lemma LastPart(ps: seq<seq<Byte>>, ds: seq<Byte>, p: seq<Byte>, delims: set<Byte>, limit: nat)
    requires |ps| < limit && CutOff(ps, ds, delims)
    requires |ps| + 1 < limit ==> Free(p, delims)
    ensures IsSplit(ps + [p], delims, limit) && forall d | d in ds :: d in delims
  {
    hide Free;
    var all := ps + [p];
    assert forall i | 0 <= i < |all| - 1 :: all[i] == ps[i];
  }

  /** The parts of a string that is not empty; `ds` are the delimiters between them. */
  method Split(str: seq<Byte>, delims: set<Byte>, max0: nat) returns (result: seq<seq<Byte>>, ghost ds: seq<Byte>)
    requires max0 < 0x1_0000_0000_0000_0000
    ensures str == [] ==> result == []
    ensures str != [] ==> IsSplit(result, delims, if max0 >= 2 then max0 else max0 + 0x1_0000_0000_0000_0000)
    ensures str != [] ==> |ds| + 1 == |result| && (forall d | d in ds :: d in delims) && JoinAt(result, ds) == str
  {
    result, ds := [], [];
    if str == [] {
      return;
    }
    assert CutOff(result, ds, delims);
    hide FindOf, JoinAt, Left, Limit, Decrement, Free, IsSplit, CutOff;
    NextLeft(max0, 0);
    var max := max0;
    var last: nat := 0;
    var pos := FindOf(str, delims, 0);
    JoinOne(str);
    assert str[0..] == str && [] + [str] == [str];
    while pos.Some?
      invariant last <= |str| && pos == FindOf(str, delims, last)
      invariant |ds| == |result| < Limit(max0) - 1 && max == Left(max0, |result|)
      invariant CutOff(result, ds, delims)
      invariant JoinAt(result + [str[last..]], ds) == str
      decreases |str| - last
    {
      var p := pos.value;
      Cut(str, delims, result, ds, last, p);
      CutOffMore(result, ds, delims, str[last..p], str[p]);
      result := result + [str[last..p]];
      ds := ds + [str[p]];
      last := p + 1;
      NextLeft(max0, |result| - 1);
      max := Decrement(max);
      if max == 1 {
        break;
      }
      pos := FindOf(str, delims, last);
    }
    FreeTail(str, delims, last);
    LastPart(result, ds, str[last..], delims, Limit(max0));
    result := result + [str[last..]];
  }

  lemma FreeTail(s: seq<Byte>, delims: set<Byte>, last: nat)
    requires last <= |s|
    ensures FindOf(s, delims, last) == None ==> Free(s[last..], delims)
  {
    hide FindOf;
  }

  /** What the count `max` has come to after `n` pieces. */
  function Left(max: nat, n: nat): int {
    if max >= 2 || n == 0 || (max == 1 && n == 1) then max - n else max - n + WRAP
  }

  /** The count as a 64-bit number. */
  function Decrement(max: int): int {
    (max - 1) % WRAP
  }

  lemma NextLeft(max: nat, n: nat)
    requires max < WRAP
    ensures Limit(max) >= 2 && Left(max, 0) == max
    ensures n < Limit(max) - 1 ==>
            Decrement(Left(max, n)) == Left(max, n + 1) && (Left(max, n + 1) == 1 <==> n + 1 == Limit(max) - 1)
  {
  }

  lemma JoinOne(s: seq<Byte>)
    ensures JoinAt([s], []) == s
  {
  }

  lemma CutSlices(s: seq<Byte>, last: nat, p: nat)
    requires last <= p < |s|
    ensures s[last..] == s[last..p] + ([s[p]] + s[p + 1..])
  {
  }

  lemma CutLists(ps: seq<seq<Byte>>, a: seq<Byte>, q: seq<Byte>)
    ensures ps + [a] + [q] == ps + [a, q]
  {
  }

  /** Cutting off one more piece. */
  lemma Cut(s: seq<Byte>, delims: set<Byte>, ps: seq<seq<Byte>>, ds: seq<Byte>, last: nat, p: nat)
    requires |ds| == |ps| && last <= p < |s| && JoinAt(ps + [s[last..]], ds) == s
    requires forall k | last <= k < p :: s[k] !in delims
    ensures Free(s[last..p], delims)
    ensures JoinAt(ps + [s[last..p]] + [s[p + 1..]], ds + [s[p]]) == s
  {
    hide JoinAt;
    var a, d, q := s[last..p], s[p], s[p + 1..];
    CutSlices(s, last, p);
    CutJoined(ps, ds, a, d, q);
  }

  lemma CutJoined(ps: seq<seq<Byte>>, ds: seq<Byte>, a: seq<Byte>, d: Byte, q: seq<Byte>)
    requires |ds| == |ps|
    ensures JoinAt(ps + [a] + [q], ds + [d]) == JoinAt(ps + [a + ([d] + q)], ds)
  {
    hide JoinAt;
    CutLists(ps, a, q);
    JoinAtMore(ps, ds, a, d, q);
    JoinAtLast(ps, ds, a, [d] + q);
    Associative(JoinAt(ps + [a], ds), [d], q);
  }

  lemma JoinAtLast(ps: seq<seq<Byte>>, ds: seq<Byte>, p: seq<Byte>, q: seq<Byte>)
    requires |ds| == |ps|
    ensures JoinAt(ps + [p + q], ds) == JoinAt(ps + [p], ds) + q
  {
    var x, y := ps + [p + q], ps + [p];
    if |ps| > 0 {
      assert x[..|ps|] == ps == y[..|ps|];
      var a := JoinAt(ps, ds[..|ds| - 1]) + [ds[|ds| - 1]];
      assert a + (p + q) == a + p + q;
    }
  }
}
