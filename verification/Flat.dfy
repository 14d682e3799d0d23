/**
 Bytes, flat stores of them, and the arithmetic of equally long blocks.
 */
module Flat {

  type Byte = bv8

  /** `s` with `c` written over it from `at` on. */
  function Splice(s: seq<Byte>, at: nat, c: seq<Byte>): (r: seq<Byte>)
    requires at + |c| <= |s|
    ensures |r| == |s|
  {
    s[..at] + c + s[at + |c|..]
  }

  /** Where block `k` begins, and which block and offset a position has. */
  function Start(k: nat, b: nat): nat {
    k * b
  }

  function BlockNo(p: nat, b: nat): nat
    requires b >= 1
  {
    p / b
  }

  function Offset(p: nat, b: nat): nat
    requires b >= 1
  {
    p % b
  }

  lemma StartNext(k: nat, b: nat)
    ensures Start(0, b) == 0 && Start(k + 1, b) == Start(k, b) + b
  {
  }

  lemma StartSum(k: nat, n: nat, b: nat)
    ensures Start(k + n, b) == Start(k, b) + Start(n, b)
  {
  }

  lemma StartMonotone(k: nat, n: nat, b: nat)
    requires k <= n
    ensures Start(k, b) <= Start(n, b)
    ensures k < n ==> Start(k, b) + b <= Start(n, b)
  {
    if k < n {
      StartSum(k + 1, n - k - 1, b);
      StartNext(k, b);
    }
  }

  /** A position has one block number and one offset. */
  lemma UniqueBlock(k: nat, r: nat, q: nat, t: nat, b: nat)
    requires r < b && t < b && Start(k, b) + r == Start(q, b) + t
    ensures k == q && r == t
  {
    if k < q {
      StartMonotone(k, q, b);
    } else if q < k {
      StartMonotone(q, k, b);
    }
  }

  lemma Split(p: nat, b: nat)
    requires b >= 1
    ensures p == Start(BlockNo(p, b), b) + Offset(p, b) && Offset(p, b) < b
  {
  }

  /** Block number and offset are recovered by division, as the cursor arithmetic does. */
  lemma BlockOf(p: nat, k: nat, r: nat, b: nat)
    requires r < b && p == Start(k, b) + r
    ensures BlockNo(p, b) == k && Offset(p, b) == r
  {
    Split(p, b);
    UniqueBlock(k, r, BlockNo(p, b), Offset(p, b), b);
  }

  /** A position in the first `n` blocks lies in one of them; the position behind them is the start of the next. */
  lemma BlockWithin(p: nat, n: nat, b: nat)
    requires b >= 1 && p <= Start(n, b)
    ensures p == Start(BlockNo(p, b), b) + Offset(p, b) && Offset(p, b) < b
    ensures p < Start(n, b) ==> BlockNo(p, b) < n
    ensures p == Start(n, b) ==> BlockNo(p, b) == n && Offset(p, b) == 0
  {
    hide Start, BlockNo, Offset;
    Split(p, b);
    if n <= BlockNo(p, b) {
      StartMonotone(n, BlockNo(p, b), b);
    }
    if p == Start(n, b) {
      BlockOf(p, n, 0, b);
    }
  }

  /** The end of the block that holds the last byte before `p`. */
  function RoundUp(p: nat, b: nat): nat
    requires b >= 1
  {
    Start(BlockNo(p, b) + if Offset(p, b) == 0 then 0 else 1, b)
  }

  /** The capacity when there has to be room up to `p`. */
  function GrownTo(capacity: nat, p: nat, b: nat): nat
    requires b >= 1
  {
    if p <= capacity then capacity else RoundUp(p, b)
  }

  lemma RoundUpBounds(p: nat, b: nat)
    requires b >= 1
    ensures p <= RoundUp(p, b) < p + b && (p == RoundUp(p, b) <==> Offset(p, b) == 0)
  {
    hide Start, BlockNo, Offset;
    Split(p, b);
    StartNext(BlockNo(p, b), b);
  }

  /** There is one end of a block that near. */
  lemma RoundUpIs(k: nat, p: nat, b: nat)
    requires b >= 1 && p <= Start(k, b) < p + b
    ensures RoundUp(p, b) == Start(k, b)
  {
    hide Start, BlockNo, Offset;
    RoundUpBounds(p, b);
    var q := BlockNo(p, b) + if Offset(p, b) == 0 then 0 else 1;
    if k < q {
      StartMonotone(k, q, b);
    } else if q < k {
      StartMonotone(q, k, b);
    }
  }

  lemma GrownTwice(capacity: nat, p: nat, q: nat, b: nat)
    requires b >= 1 && p <= q
    ensures GrownTo(GrownTo(capacity, p, b), q, b) == GrownTo(capacity, q, b)
  {
    hide Start, BlockNo, Offset;
    RoundUpBounds(p, b);
    RoundUpBounds(q, b);
    if capacity < p && q <= RoundUp(p, b) {
      RoundUpIs(BlockNo(p, b) + if Offset(p, b) == 0 then 0 else 1, q, b);
    }
  }

  /** The room is used up exactly. */
  lemma GrownExactly(capacity: nat, p: nat, b: nat)
    requires b >= 1
    ensures GrownTo(capacity, p, b) == p <==> p == capacity || (p > capacity && Offset(p, b) == 0)
  {
    hide RoundUp, Offset;
    RoundUpBounds(p, b);
  }

  lemma SpliceNothing(s: seq<Byte>, at: nat)
    requires at <= |s|
    ensures Splice(s, at, []) == s
  {
  }

  /** After `c[..i]`, writing the next `n` bytes behind it is writing `c[..i + n]`. */
  lemma SpliceTwice(s: seq<Byte>, at: nat, c: seq<Byte>, i: nat, n: nat)
    requires at + |c| <= |s| && i + n <= |c|
    ensures Splice(Splice(s, at, c[..i]), at + i, c[i..i + n]) == Splice(s, at, c[..i + n])
  {
  }

  /** Reading a range and the one behind it is reading both. */
  lemma SliceTwice(s: seq<Byte>, i: nat, j: nat, k: nat)
    requires i <= j <= k <= |s|
    ensures s[i..j] + s[j..k] == s[i..k]
  {
  }

  lemma FrontAndBack(s: seq<Byte>, t: seq<Byte>)
    ensures (s + t)[..|s|] == s && (s + t)[|s|..] == t
  {
  }

  lemma Associative(s: seq<Byte>, t: seq<Byte>, u: seq<Byte>)
    ensures s + t + u == s + (t + u)
  {
  }

  lemma SliceOfSlice(s: seq<Byte>, i: nat, j: nat, at: nat, n: nat)
    requires i <= j <= |s| && i + at + n <= j
    ensures s[i..j][at..at + n] == s[i + at..i + at + n]
  {
    var t, u := s[i..j][at..at + n], s[i + at..i + at + n];
    forall k | 0 <= k < n ensures t[k] == u[k] {
      assert t[k] == s[i..j][at + k] == s[i + at + k];
    }
  }

  /** The part of a store behind its first `n` bytes. */
  function Behind(s: seq<Byte>, n: nat): seq<Byte> {
    if n <= |s| then s[n..] else []
  }

  lemma SliceOfContent(store: seq<Byte>, n: nat, i: nat, j: nat)
    requires i <= j <= n <= |store|
    ensures store[..n][i..j] == store[i..j]
  {
  }

  lemma SliceOfTail(s: seq<Byte>, at: nat, n: nat)
    requires at + n <= |s|
    ensures s[at..][..n] == s[at..at + n] && s[at..][n..] == s[at + n..] && s[at..][0..] == s[at..]
  {
  }

  /** What writing `c` at `at` makes of a content that may have to grow for it. */
  function Overwrite(s: seq<Byte>, at: nat, c: seq<Byte>): seq<Byte>
    requires at <= |s|
  {
    s[..at] + c + if at + |c| < |s| then s[at + |c|..] else []
  }

  lemma OverwriteNothing(s: seq<Byte>, at: nat)
    requires at <= |s|
    ensures Overwrite(s, at, []) == s
  {
  }

  /** The first `n` bytes of `d` are the content; `d` has grown to `store` before the write. */
  lemma WriteIntoStore(d: seq<Byte>, store: seq<Byte>, n: nat, at: nat, c: seq<Byte>)
    requires at <= n <= |d| && d <= store && at + |c| <= |store|
    ensures var n', d' := if at + |c| > n then at + |c| else n, Splice(store, at, c);
            d'[..n'] == Overwrite(d[..n], at, c) && Behind(d, n') <= Behind(d', n')
  {
  }

  lemma OverwriteTwice(s: seq<Byte>, at: nat, c: seq<Byte>, d: seq<Byte>)
    requires at <= |s|
    ensures Overwrite(Overwrite(s, at, c), at + |c|, d) == Overwrite(s, at, c + d)
  {
  }

  /** What was written is what is there. */
  lemma OverwriteReads(s: seq<Byte>, at: nat, c: seq<Byte>)
    requires at <= |s|
    ensures Overwrite(s, at, c)[at..at + |c|] == c && Overwrite(s, at, c)[..at] == s[..at]
  {
  }

  /** A range that a write does not touch reads the same. */
  lemma SpliceElsewhere(s: seq<Byte>, at: nat, c: seq<Byte>, i: nat, j: nat)
    requires at + |c| <= |s| && i <= j <= |s| && (j <= at || at + |c| <= i)
    ensures Splice(s, at, c)[i..j] == s[i..j]
  {
  }

  /** A write inside a range is a write to that range. */
  lemma SpliceInside(s: seq<Byte>, at: nat, c: seq<Byte>, i: nat, j: nat)
    requires i <= at && at + |c| <= j <= |s|
    ensures Splice(s, at, c)[i..j] == Splice(s[i..j], at - i, c)
  {
  }
}
