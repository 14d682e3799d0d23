/**
 A growable byte buffer kept as a linked list of equally long blocks, with a cursor. Everything it does
 is stated on `data`, the blocks laid end to end: the class refines one flat buffer.
 */
module ByteArrays {
  import opened Flat

  class Node {
    const ptr: array<Byte>
    const size: nat
    var next: Node?

    constructor (s: nat)
      ensures fresh(ptr) && ptr.Length == size == s && next == null
    {
      ptr := new Byte[s];
      size := s;
      next := null;
    }
  }

  /** Copy `src` into a block. */
  method MemCopy(dst: array<Byte>, at: nat, src: seq<Byte>)
    requires at + |src| <= dst.Length
    modifies dst
    ensures dst[..] == Splice(old(dst[..]), at, src)
  {
    forall i | 0 <= i < |src| {
      dst[at + i] := src[i];
    }
  }

  ghost function NodeAt(ns: seq<Node>, i: nat): Node? {
    if i < |ns| then ns[i] else null
  }

  /** Nodes of `b` bytes each, each linked to the next, over blocks of memory that are all different. */
  ghost predicate Chain(ns: seq<Node>, mem: seq<array<Byte>>, b: nat)
    requires |ns| == |mem|
    reads ns
  {
    && (forall i {:trigger ns[i]} | 0 <= i < |ns| :: ns[i].ptr == mem[i] && ns[i].size == b)
    && (forall i {:trigger ns[i].next} | 0 <= i < |ns| :: ns[i].next == NodeAt(ns, i + 1))
  }

  /** `data` is what the blocks of memory hold, laid end to end. */
  ghost predicate Holds(mem: seq<array<Byte>>, b: nat, data: seq<Byte>)
    reads mem
  {
    && (forall i, j | 0 <= i < j < |mem| :: mem[i] != mem[j])
    && forall k | 0 <= k < |mem| ::
         mem[k].Length == b && Start(k, b) + b <= |data| && mem[k][..] == data[Start(k, b)..Start(k, b) + b]
  }

  /** A piece of memory handed to the system: `len` bytes of `base` from `offset` on. */
  datatype IoVec = IoVec(base: array<Byte>, offset: nat, len: nat)

  function TotalLen(iovs: seq<IoVec>): nat {
    if iovs == [] then 0 else TotalLen(iovs[..|iovs| - 1]) + iovs[|iovs| - 1].len
  }

  /** The bytes a gathering write sends: the pieces, one after the other. */
  ghost function Gather(iovs: seq<IoVec>): seq<Byte>
    reads set v | v in iovs :: v.base
  {
    if iovs == [] then []
    else
      var v := iovs[|iovs| - 1];
      Gather(iovs[..|iovs| - 1]) + if v.offset + v.len <= v.base.Length then v.base[v.offset..v.offset + v.len] else []
  }

  /**
   The pieces are what lies from offset `at` of block `k` on: one in each block, in order, none empty,
   the first from `at`, the others from the start, all but the last to the end; `len` bytes in all.
   */
  ghost predicate Spans(iovs: seq<IoVec>, mem: seq<array<Byte>>, b: nat, k: nat, at: nat, len: nat) {
    && (forall i | 0 <= i < |iovs| :: Piece(iovs[i], mem, b, k + i, if i == 0 then at else 0))
    && (forall i | 0 <= i < |iovs| - 1 :: iovs[i].offset + iovs[i].len == b)
    && TotalLen(iovs) == len
  }

  ghost predicate Piece(v: IoVec, mem: seq<array<Byte>>, b: nat, k: nat, at: nat) {
    k < |mem| && v.base == mem[k] && v.offset == at && v.len > 0 && at + v.len <= b
  }

  class ByteArray {
    const baseSize: nat
    var position: nat
    var capacity: nat
    var size: nat
    var root: Node
    var cur: Node?
    ghost var nodes: seq<Node>
    ghost var mem: seq<array<Byte>>
    ghost var data: seq<Byte>

    /** The block list: from the root, one after the other, none twice, each of the base size. */
    ghost predicate Linked()
      reads this, nodes, mem
    {
      && baseSize >= 1 && nodes != [] && nodes[0] == root && |mem| == |nodes|
      && capacity == |data| == Start(|nodes|, baseSize)
      && Chain(nodes, mem, baseSize) && Holds(mem, baseSize, data)
    }

    /** The cursor points to the block that holds `position`; there is none at the very end. */
    ghost predicate CursorAt(p: nat)
      reads this
      requires baseSize >= 1
    {
      cur == NodeAt(nodes, BlockNo(p, baseSize))
    }

    ghost predicate Valid()
      reads this, nodes, mem
    {
      Linked() && position <= size <= capacity && CursorAt(position)
    }

    /** The bytes written so far, as one sequence. */
    ghost function Content(): (c: seq<Byte>)
      reads this
    {
      if size <= |data| then data[..size] else data
    }

    /** `c` was written at the old cursor, which moved behind it. */
    ghost predicate Wrote(content: seq<Byte>, at: nat, c: seq<Byte>)
      reads this, nodes, mem
    {
      && Valid() && at <= |content| && position == at + |c|
      && Content() == Overwrite(content, at, c)
    }

    /** Blocks are only added, and those are new. */
    twostate predicate Grew()
      reads this
    {
      && old(nodes) <= nodes && old(mem) <= mem
      && (forall i | old(|nodes|) <= i < |nodes| :: fresh(nodes[i]))
      && (forall i | old(|mem|) <= i < |mem| :: fresh(mem[i]))
    }

    /** As many blocks as there must be for the bytes before the cursor, and no more. */
    twostate predicate Enlarged()
      reads this
    {
      baseSize >= 1 && capacity == GrownTo(old(capacity), position, baseSize)
    }

    // -------------------------------------------------------------- facts about blocks

    /** Where the cursor stands, in terms of blocks. */
    lemma CursorBlock()
      requires Valid()
      ensures var k, r := BlockNo(position, baseSize), Offset(position, baseSize);
              && position == Start(k, baseSize) + r && r < baseSize && cur == NodeAt(nodes, k)
              && (position < capacity ==> k < |nodes|)
              && (position == capacity ==> k == |nodes| && r == 0)
    {
      hide Start, BlockNo, Offset, Chain;
      BlockWithin(position, |nodes|, baseSize);
    }

    lemma CursorNull()
      requires Valid()
      ensures cur == null <==> position == capacity
    {
      hide Start, BlockNo, Offset, Chain, Holds;
      CursorBlock();
    }

    lemma RoomEnough()
      requires Valid()
      ensures baseSize >= 1 && capacity == GrownTo(capacity, position, baseSize)
    {
    }

    lemma ContentLength()
      requires Valid()
      ensures |Content()| == size
    {
      hide Chain, Holds, Start;
    }

    /** A cursor placed at offset `r` of block `k` is where `position` says. */
    lemma CursorSet(k: nat, r: nat)
      requires Linked() && r < baseSize && position == Start(k, baseSize) + r && cur == NodeAt(nodes, k)
      ensures CursorAt(position)
    {
      hide Start, BlockNo, Offset, Chain, Holds;
      BlockOf(position, k, r, baseSize);
    }

    lemma BlockFacts(k: nat)
      requires Linked() && k < |nodes|
      ensures |mem| == |nodes| && nodes[k].ptr == mem[k] && nodes[k].size == mem[k].Length == baseSize
      ensures nodes[k].next == NodeAt(nodes, k + 1)
      ensures Start(k, baseSize) + baseSize <= capacity
      ensures mem[k][..] == data[Start(k, baseSize)..Start(k, baseSize) + baseSize]
    {
      hide Start;
    }

    /** A range inside a block is a range of the flat data. */
    lemma BlockSlice(k: nat, at: nat, n: nat)
      requires Linked() && k < |nodes| && at + n <= baseSize
      ensures |mem| == |nodes| && mem[k].Length == baseSize && Start(k, baseSize) + at + n <= capacity
      ensures mem[k][at..at + n] == data[Start(k, baseSize) + at..Start(k, baseSize) + at + n]
    {
      hide Start, Chain, Holds;
      BlockFacts(k);
      var s := Start(k, baseSize);
      SliceOfSlice(data, s, s + baseSize, at, n);
      assert mem[k][at..at + n] == mem[k][..][at..at + n];
    }

    /** What was read up to offset `at` of block `k`, and the next `n` bytes of that block. */
    lemma ReadOn(out: seq<Byte>, start: nat, k: nat, at: nat, n: nat)
      requires Linked() && k < |nodes| && at + n <= baseSize && start <= Start(k, baseSize) + at <= capacity
      requires out == data[start..Start(k, baseSize) + at]
      ensures |mem| == |nodes| && mem[k].Length == baseSize && Start(k, baseSize) + at + n <= capacity
      ensures out + mem[k][at..at + n] == data[start..Start(k, baseSize) + at + n]
    {
      hide Start, Chain, Holds;
      BlockSlice(k, at, n);
      SliceTwice(data, start, Start(k, baseSize) + at, Start(k, baseSize) + at + n);
    }

    lemma NodesDiffer()
      requires Linked()
      ensures forall i | 0 <= i < |nodes| - 1 :: nodes[i] != nodes[|nodes| - 1]
    {
      hide Start;
      forall i | 0 <= i < |nodes| - 1 ensures nodes[i] != nodes[|nodes| - 1] {
        assert mem[i] != mem[|nodes| - 1];
      }
    }

    /** A block that starts before the end of the store exists. */
    lemma WithinBlocks(k: nat, p: nat)
      requires Linked() && Start(k, baseSize) <= p < capacity
      ensures k < |nodes|
    {
      hide Start, Chain;
      if |nodes| <= k {
        StartMonotone(|nodes|, k, baseSize);
      }
    }

    // -------------------------------------------------------------- growing

    constructor (baseSize: nat)
      requires baseSize >= 1
      ensures Valid() && fresh(nodes) && fresh(mem)
      ensures position == size == 0 && capacity == baseSize == this.baseSize && |nodes| == 1
    {
      this.baseSize := baseSize;
      position, size, capacity := 0, 0, baseSize;
      var r := new Node(baseSize);
      root, cur := r, r;
      nodes, mem, data := [r], [r.ptr], r.ptr[..];
      new;
      hide Start, BlockNo, Offset;
      StartNext(0, baseSize);
      CursorSet(0, 0);
    }

    function ReadSize(): nat
      reads this
      requires position <= size
    {
      size - position
    }

    /** The last block of the list. */
    method LastNode() returns (tail: Node)
      requires Valid()
      ensures tail == nodes[|nodes| - 1]
    {
      hide Holds;
      tail := root;
      ghost var t := 0;
      while tail.next != null
        invariant 0 <= t < |nodes| && tail == nodes[t]
        decreases |nodes| - t
      {
        assert nodes[t].next == NodeAt(nodes, t + 1);
        tail := tail.next;
        t := t + 1;
      }
      assert nodes[t].next == NodeAt(nodes, t + 1);
    }

    /** One new block behind `tail`; what its bytes are is left open. */
    method AppendBlock(tail: Node) returns (next: Node)
      requires Linked() && tail == nodes[|nodes| - 1]
      modifies `capacity, `nodes, `mem, `data, tail
      ensures Linked() && nodes == old(nodes) + [next] && mem == old(mem) + [next.ptr] && fresh(next) && fresh(next.ptr)
      ensures old(data) <= data
    {
      hide Start, Holds;
      next := new Node(baseSize);
      NodesDiffer();
      tail.next := next;
      assert Holds(mem, baseSize, data);
      capacity := capacity + baseSize;
      StartNext(|nodes|, baseSize);
      HoldsMore(mem, baseSize, data, next.ptr);
      nodes, mem, data := nodes + [next], mem + [next.ptr], data + next.ptr[..];
      assert Chain(nodes, mem, baseSize);
    }

    /** `count` new blocks behind `tail`; the cursor is left alone. */
    method AppendBlocks(tail: Node, count: nat) returns (first: Node?)
      requires Linked() && tail == nodes[|nodes| - 1]
      modifies `capacity, `nodes, `mem, `data, nodes
      ensures Linked() && |nodes| == old(|nodes|) + count
      ensures Grew()
      ensures first == if count == 0 then null else nodes[old(|nodes|)]
      ensures old(data) <= data
    {
      var tmp := tail;
      first := null;
      hide Start, Chain, Holds;
      for i := 0 to count
        invariant Linked() && |nodes| == old(|nodes|) + i && old(nodes) <= nodes && tmp == nodes[|nodes| - 1]
        invariant first == if i == 0 then null else nodes[old(|nodes|)]
        invariant old(mem) <= mem && forall i | old(|nodes|) <= i < |nodes| :: fresh(nodes[i]) && fresh(mem[i])
        invariant old(data) <= data
      {
        tmp := AppendBlock(tmp);
        if first == null {
          first := tmp;
        }
      }
    }

    /**
     Make room for `n` bytes behind the cursor: just as many new blocks as are missing, after the old
     ones; what is stored stays.
     */
    method AddCapacity(n: nat)
      requires Valid()
      modifies this, nodes
      ensures Valid() && position == old(position) && size == old(size)
      ensures Grew()
      ensures position + n <= capacity
      ensures nodes != old(nodes) ==> old(capacity) < position + n && capacity < position + n + baseSize
      ensures capacity == GrownTo(old(capacity), position + n, baseSize)
      ensures old(data) <= data && Content() == old(Content())
    {
      hide Start, BlockNo, Offset, Chain, Holds, RoundUp;
      CursorBlock();
      if n == 0 {
        return;
      }
      var oldCap := capacity - position;
      if oldCap >= n {
        return;
      }
      var missing := n - oldCap;
      var count := CeilDiv(missing, baseSize);
      ghost var nodes0, k, r := nodes, BlockNo(position, baseSize), Offset(position, baseSize);
      var tail := LastNode();
      var first := AppendBlocks(tail, count);
      StartSum(|nodes0|, count, baseSize);
      if oldCap == 0 {
        cur := first;
      }
      RoundUpIs(|nodes|, position + n, baseSize);
      CursorSet(k, r);
    }

    /** Past `n` bytes of block `k`, and on to the next block if that used it up. */
    method Advance(n: nat, ghost k: nat, at: nat) returns (ghost k': nat, ghost r': nat)
      requires Linked() && k < |nodes| && cur == nodes[k] && position == Start(k, baseSize) + at && at + n <= baseSize
      modifies `position, `cur
      ensures Linked() && position == old(position) + n
      ensures r' < baseSize && position == Start(k', baseSize) + r' && cur == NodeAt(nodes, k')
      ensures if at + n == baseSize then k' == k + 1 && r' == 0 else k' == k && r' == at + n
    {
      hide Start, Chain, Holds;
      BlockFacts(k);
      StartNext(k, baseSize);
      k', r' := k, at + n;
      if cur.size == at + n {
        cur := cur.next;
        k', r' := k + 1, 0;
      }
      position := position + n;
    }

    // -------------------------------------------------------------- writing

    /** Copy `c` into block `k`; seen flat, just that range changes. */
    method Store(ptr: array<Byte>, ghost k: nat, at: nat, c: seq<Byte>)
      requires Linked() && k < |mem| && ptr == mem[k] && at + |c| <= baseSize
      modifies `data, ptr
      ensures Linked()
      ensures Start(k, baseSize) + at + |c| <= old(|data|) && data == Splice(old(data), Start(k, baseSize) + at, c)
    {
      hide Start, Splice;
      BlockFacts(k);
      ghost var d := data;
      MemCopy(ptr, at, c);
      data := Splice(d, Start(k, baseSize) + at, c);
      forall j | 0 <= j < |mem|
        ensures mem[j].Length == baseSize && Start(j, baseSize) + baseSize <= |data|
        ensures mem[j][..] == data[Start(j, baseSize)..Start(j, baseSize) + baseSize]
      {
        assert j != k ==> mem[j] != mem[k] && mem[j][..] == old(mem[j][..]);
        StoredBlock(d, at, c, k, j);
      }
    }

    /** Block `j` after a write to block `k`. */
    lemma StoredBlock(d: seq<Byte>, at: nat, c: seq<Byte>, k: nat, j: nat)
      requires at + |c| <= baseSize && Start(k, baseSize) + baseSize <= |d| && Start(j, baseSize) + baseSize <= |d|
      ensures var s, t := Start(k, baseSize), Start(j, baseSize);
              Splice(d, s + at, c)[t..t + baseSize] ==
              if j == k then Splice(d[t..t + baseSize], at, c) else d[t..t + baseSize]
    {
      hide Start, Splice;
      var s, t := Start(k, baseSize), Start(j, baseSize);
      if j == k {
        SpliceInside(d, s + at, c, t, t + baseSize);
      } else {
        if j < k { StartMonotone(j, k, baseSize); } else { StartMonotone(k, j, baseSize); }
        SpliceElsewhere(d, s + at, c, t, t + baseSize);
      }
    }

    /** Overwrite from the cursor on, growing as needed, and move behind what was written. */
    method Write(buf: seq<Byte>)
      requires Valid()
      modifies this, nodes, mem
      ensures Valid() && position == old(position) + |buf|
      ensures Content() == Overwrite(old(Content()), old(position), buf)
      ensures Behind(old(data), size) <= Behind(data, size)
      ensures Grew() && Enlarged()
    {
      hide Start, BlockNo, Offset, Chain, Holds, Splice, Overwrite, RoundUp;
      if |buf| == 0 {
        OverwriteNothing(Content(), position);
        return;
      }
      AddCapacity(|buf|);
      ghost var store := data;
      Fill(buf);
      WriteIntoStore(old(data), store, old(size), old(position), buf);
    }

    /** The write itself, with room enough. */
    method Fill(buf: seq<Byte>)
      requires Valid() && |buf| > 0 && position + |buf| <= capacity
      modifies `position, `cur, `size, `data, mem
      ensures Valid() && position == old(position) + |buf|
              && size == if position > old(size) then position else old(size)
      ensures data == Splice(old(data), old(position), buf)
    {
      hide Start, BlockNo, Offset, Chain, Holds, Splice;
      WriteLoop(buf);
      if position > size {
        size := position;
      }
    }

    /** The copying loop, with room enough. Only `size` is left to be brought up to date. */
    method WriteLoop(buf: seq<Byte>)
      requires Valid() && |buf| > 0 && position + |buf| <= capacity
      modifies `position, `cur, `data, mem
      ensures Linked() && position == old(position) + |buf| && CursorAt(position)
      ensures data == Splice(old(data), old(position), buf)
    {
      hide Start, BlockNo, Offset, Chain, Holds, Splice;
      CursorBlock();
      var npos := Offset(position, baseSize);
      ghost var k: nat, r: nat := BlockNo(position, baseSize), npos;
      ghost var start, store := position, data;
      BlockFacts(k);
      var ncap: nat := cur.size - npos;
      var bpos: nat, left: nat := 0, |buf|;
      SpliceNothing(store, start);
      while left > 0
        invariant Linked() && bpos + left == |buf| && position == start + bpos
        invariant r < baseSize && position == Start(k, baseSize) + r && cur == NodeAt(nodes, k)
        invariant left > 0 ==> k < |nodes| && npos == r && ncap == baseSize - npos
        invariant data == Splice(store, start, buf[..bpos])
      {
        BlockFacts(k);
        SpliceTwice(store, start, buf, bpos, if ncap >= left then left else ncap);
        if ncap >= left {
          Store(cur.ptr, k, npos, buf[bpos..bpos + left]);
          k, r := Advance(left, k, npos);
          bpos := bpos + left;
          left := 0;
        } else {
          Store(cur.ptr, k, npos, buf[bpos..bpos + ncap]);
          k, r := Advance(ncap, k, npos);
          bpos := bpos + ncap;
          left := left - ncap;
          WithinBlocks(k, position);
          BlockFacts(k);
          ncap := cur.size;
          npos := 0;
        }
      }
      assert buf[..bpos] == buf;
      CursorSet(k, r);
    }

    // -------------------------------------------------------------- reading

    /**
     The copying loop: `n` bytes from offset `at` of the block `node` on, and the block and offset behind
     them. It changes nothing.
     */
    method CopyOut(node: Node, ghost k0: nat, at: nat, n: nat)
      returns (out: seq<Byte>, c: Node?, ghost k: nat, ghost r: nat)
      requires Linked() && k0 < |nodes| && node == nodes[k0] && at < baseSize
      requires Start(k0, baseSize) + at + n <= capacity
      ensures out == data[Start(k0, baseSize) + at..Start(k0, baseSize) + at + n]
      ensures r < baseSize && Start(k0, baseSize) + at + n == Start(k, baseSize) + r && c == NodeAt(nodes, k)
    {
      hide Start, Chain, Holds;
      ghost var start := Start(k0, baseSize) + at;
      BlockFacts(k0);
      var npos: nat := at;
      var ncap: nat := node.size - npos;
      var left: nat := n;
      c, k, r := node, k0, at;
      out := [];
      while left > 0
        invariant |out| + left == n && r < baseSize && start + |out| == Start(k, baseSize) + r && c == NodeAt(nodes, k)
        invariant left > 0 ==> k < |nodes| && npos == r && ncap == baseSize - npos
        invariant out == data[start..start + |out|]
      {
        BlockFacts(k);
        StartNext(k, baseSize);
        ReadOn(out, start, k, npos, if ncap >= left then left else ncap);
        if ncap >= left {
          out := out + c.ptr[npos..npos + left];
          if c.size == npos + left {
            c := c.next;
            k, r := k + 1, 0;
          } else {
            r := npos + left;
          }
          left := 0;
        } else {
          out := out + c.ptr[npos..npos + ncap];
          left := left - ncap;
          c := c.next;
          k, r := k + 1, 0;
          WithinBlocks(k, start + |out|);
          BlockFacts(k);
          ncap := c.size;
          npos := 0;
        }
      }
    }

    /** The next `n` bytes, or nothing at all if there are fewer; the cursor moves behind them. */
    method Read(n: nat) returns (ok: bool, out: seq<Byte>)
      requires Valid() && (n > 0 || cur != null)
      modifies `position, `cur
      ensures Valid()
      ensures ok <==> n <= size - old(position)
      ensures ok ==> position == old(position) + n && out == Content()[old(position)..position]
      ensures !ok ==> position == old(position) && out == []
    {
      hide Start, BlockNo, Offset, Chain, Holds;
      if n > ReadSize() {
        return false, [];
      }
      CursorBlock();
      ghost var k, r;
      out, cur, k, r := CopyOut(cur, BlockNo(position, baseSize), Offset(position, baseSize), n);
      position := position + n;
      CursorSet(k, r);
      SliceOfContent(data, size, old(position), position);
      return true, out;
    }

    /** The bytes behind `pos`, in the unsigned arithmetic of the code: a huge number for a position beyond the size. */
    function Remaining(pos: nat): (n: int)
      reads this
      ensures pos <= size ==> n == size - pos
    {
      size - pos + if pos <= size then 0 else 0x1_0000_0000_0000_0000
    }

    /**
     The overload that leaves the cursor alone: it starts in the cursor's block whatever `pos` is. The check lets
     positions beyond the size through; then it reads what is there, and the content is not what it gets.
     */
    method ReadAt(n: nat, pos: nat) returns (ok: bool, out: seq<Byte>)
      requires Valid()
      requires n <= Remaining(pos) ==>
                 cur != null && Start(BlockNo(position, baseSize), baseSize) + Offset(pos, baseSize) + n <= capacity
      ensures ok <==> n <= Remaining(pos)
      ensures ok ==> var from := Start(BlockNo(position, baseSize), baseSize) + Offset(pos, baseSize);
                     out == data[from..from + n]
      ensures ok && pos <= size && BlockNo(pos, baseSize) == BlockNo(position, baseSize) ==>
              out == Content()[pos..pos + n]
      ensures !ok ==> out == []
    {
      hide Start, BlockNo, Offset, Chain, Holds;
      if n > Remaining(pos) {
        return false, [];
      }
      CursorBlock();
      Split(pos, baseSize);
      var out', _, _, _ := CopyOut(cur, BlockNo(position, baseSize), Offset(pos, baseSize), n);
      out := out';
      if pos <= size && BlockNo(pos, baseSize) == BlockNo(position, baseSize) {
        SliceOfContent(data, size, pos, pos + n);
      }
      return true, out;
    }

    /** Everything from the cursor to the end of the content; the cursor stays. */
    method ToString() returns (str: seq<Byte>)
      requires Valid()
      ensures str == Content()[position..]
    {
      hide Start, BlockNo, Offset, Chain, Holds;
      var n := ReadSize();
      if n == 0 {
        return [];
      }
      CursorBlock();
      var _, out := ReadAt(n, position);
      return out;
    }

    // -------------------------------------------------------------- views of the memory

    /** The pieces of `len` bytes from offset `at` of the block `node` on. */
    method Views(node: Node, ghost k: nat, at: nat, len: nat) returns (iovs: seq<IoVec>)
      requires Linked() && k < |nodes| && node == nodes[k] && at < baseSize && len > 0
      requires Start(k, baseSize) + at + len <= capacity
      ensures Spans(iovs, mem, baseSize, k, at, len)
    {
      hide Start, Chain, Holds;
      BlockFacts(k);
      var npos, left: nat, c: Node? := at, len, node;
      var ncap: nat := c.size - npos;
      iovs := [];
      while left > 0
        invariant TotalLen(iovs) + left == len
        invariant forall i | 0 <= i < |iovs| :: Piece(iovs[i], mem, baseSize, k + i, if i == 0 then at else 0)
        invariant forall i | 0 <= i < |iovs| - (if left > 0 then 0 else 1) :: iovs[i].offset + iovs[i].len == baseSize
        invariant left > 0 ==> k + |iovs| < |nodes| && c == nodes[k + |iovs|] && npos == (if iovs == [] then at else 0)
        invariant left > 0 ==> npos + ncap == baseSize && ncap > 0
        invariant left > 0 ==> Start(k, baseSize) + at + TotalLen(iovs) == Start(k + |iovs|, baseSize) + npos
      {
        BlockFacts(k + |iovs|);
        StartNext(k + |iovs|, baseSize);
        var iov: IoVec;
        if ncap >= left {
          iov := IoVec(c.ptr, npos, left);
          left := 0;
        } else {
          iov := IoVec(c.ptr, npos, ncap);
          left := left - ncap;
          c := c.next;
          WithinBlocks(k + |iovs| + 1, Start(k + |iovs| + 1, baseSize));
          BlockFacts(k + |iovs| + 1);
          ncap := c.size;
          npos := 0;
        }
        assert (iovs + [iov])[..|iovs|] == iovs;
        iovs := iovs + [iov];
      }
    }

    /** The next `len` bytes of the content, or what there is of them. */
    method GetReadBuffers(len: nat) returns (iovs: seq<IoVec>, n: nat)
      requires Valid()
      ensures n == if len > size - position then size - position else len
      ensures n == 0 ==> iovs == []
      ensures Spans(iovs, mem, baseSize, BlockNo(position, baseSize), Offset(position, baseSize), n)
    {
      hide Start, BlockNo, Offset, Chain, Holds;
      n := if len > ReadSize() then ReadSize() else len;
      if n == 0 {
        return [], 0;
      }
      CursorBlock();
      iovs := Views(cur, BlockNo(position, baseSize), Offset(position, baseSize), n);
    }

    /** As many bytes as `GetReadBuffers` would give, but from `pos` on. */
    method GetReadBuffersAt(len: nat, pos: nat) returns (iovs: seq<IoVec>, n: nat)
      requires Valid() && pos + (if len > size - position then size - position else len) <= capacity
      ensures n == if len > size - position then size - position else len
      ensures n == 0 ==> iovs == []
      ensures Spans(iovs, mem, baseSize, BlockNo(pos, baseSize), Offset(pos, baseSize), n)
    {
      hide Start, BlockNo, Offset, Chain, Holds;
      n := if len > ReadSize() then ReadSize() else len;
      if n == 0 {
        return [], 0;
      }
      BlockWithin(pos, |nodes|, baseSize);
      var count := BlockNo(pos, baseSize);
      var c := root;
      ghost var k: nat := 0;
      while count > 0
        invariant k < |nodes| && c == nodes[k] && k + count == BlockNo(pos, baseSize)
      {
        BlockFacts(k);
        c := c.next;
        count := count - 1;
        k := k + 1;
      }
      iovs := Views(c, k, Offset(pos, baseSize), n);
    }

    /** Room for `len` bytes behind the cursor, growing as needed. */
    method GetWriteBuffers(len: nat) returns (iovs: seq<IoVec>, n: nat)
      requires Valid()
      modifies this, nodes
      ensures Valid() && position == old(position) && size == old(size) && n == len
      ensures Grew()
      ensures old(data) <= data && Content() == old(Content()) && position + len <= capacity
      ensures Spans(iovs, mem, baseSize, BlockNo(position, baseSize), Offset(position, baseSize), len)
    {
      hide Start, BlockNo, Offset, Chain, Holds;
      if len == 0 {
        return [], 0;
      }
      AddCapacity(len);
      CursorBlock();
      iovs := Views(cur, BlockNo(position, baseSize), Offset(position, baseSize), len);
      n := len;
    }

    /** Piece `i` begins where the pieces before it end. */
    lemma {:induction false} PieceStart(iovs: seq<IoVec>, k: nat, at: nat, len: nat, i: nat)
      requires Spans(iovs, mem, baseSize, k, at, len) && i < |iovs|
      ensures Start(k, baseSize) + at + TotalLen(iovs[..i]) == Start(k + i, baseSize) + iovs[i].offset
    {
      hide Start;
      if i > 0 {
        PieceStart(iovs, k, at, len, i - 1);
        StartNext(k + i - 1, baseSize);
        assert iovs[..i][..i - 1] == iovs[..i - 1];
      }
    }

    /** What a gathering write of the first `i` pieces sends. */
    lemma {:induction false} GatherPrefix(iovs: seq<IoVec>, k: nat, at: nat, len: nat, i: nat)
      requires Linked() && Spans(iovs, mem, baseSize, k, at, len) && i <= |iovs| && Start(k, baseSize) + at <= capacity
      ensures Start(k, baseSize) + at + TotalLen(iovs[..i]) <= capacity
      ensures Gather(iovs[..i]) == data[Start(k, baseSize) + at..Start(k, baseSize) + at + TotalLen(iovs[..i])]
    {
      hide Start, Chain, Holds;
      if i > 0 {
        GatherPrefix(iovs, k, at, len, i - 1);
        PieceStart(iovs, k, at, len, i - 1);
        assert iovs[..i][..i - 1] == iovs[..i - 1];
        var v := iovs[i - 1];
        assert Piece(v, mem, baseSize, k + i - 1, v.offset);
        ReadOn(Gather(iovs[..i - 1]), Start(k, baseSize) + at, k + i - 1, v.offset, v.len);
      }
    }

    /** The view of a range, gathered, is that range of the flat data. */
    lemma GatherIsData(iovs: seq<IoVec>, pos: nat, len: nat)
      requires Linked() && pos + len <= capacity
      requires Spans(iovs, mem, baseSize, BlockNo(pos, baseSize), Offset(pos, baseSize), len)
      ensures Gather(iovs) == data[pos..pos + len]
    {
      hide Start, BlockNo, Offset, Chain, Holds;
      Split(pos, baseSize);
      GatherPrefix(iovs, BlockNo(pos, baseSize), Offset(pos, baseSize), len, |iovs|);
      assert iovs[..|iovs|] == iovs;
    }

    // -------------------------------------------------------------- moving the cursor

    /** Move the cursor anywhere up to the capacity; moving it past the content makes the content longer. */
    method SetPosition(v: nat) returns (ok: bool)
      requires Valid()
      modifies `position, `size, `cur
      ensures Valid()
      ensures ok <==> v <= capacity
      ensures ok ==> position == v && size == if v > old(size) then v else old(size)
      ensures !ok ==> position == old(position) && size == old(size)
      ensures old(Content()) <= Content()
    {
      hide Start, BlockNo, Offset, Chain, Holds;
      if v > capacity {
        return false;
      }
      position := v;
      if position > size {
        size := position;
      }
      cur := root;
      var left := v;
      ghost var k: nat := 0;
      StartNext(0, baseSize);
      BlockFacts(0);
      while left > cur.size
        modifies `cur
        invariant Linked() && k < |nodes| && cur == nodes[k] && v == Start(k, baseSize) + left && (k > 0 ==> left > 0)
        decreases left
      {
        BlockFacts(k);
        StartNext(k, baseSize);
        WithinBlocks(k + 1, v - 1);
        left := left - cur.size;
        cur := cur.next;
        k := k + 1;
      }
      BlockFacts(k);
      StartNext(k, baseSize);
      ghost var r := left;
      if left == cur.size {
        cur := cur.next;
        k, r := k + 1, 0;
      }
      CursorSet(k, r);
      return true;
    }

    /** Only the first block is kept, with the cursor at its start. */
    method Clear()
      requires Valid()
      modifies this, root
      ensures Valid() && position == size == 0 && capacity == baseSize && nodes == old(nodes)[..1]
      ensures Content() == []
    {
      hide Start, BlockNo, Offset;
      StartNext(0, baseSize);
      position, size := 0, 0;
      capacity := baseSize;
      cur := root;
      root.next := null;
      nodes, mem, data := nodes[..1], mem[..1], data[..baseSize];
      CursorSet(0, 0);
    }
  }

  lemma HoldsMore(mem: seq<array<Byte>>, b: nat, data: seq<Byte>, next: array<Byte>)
    requires Holds(mem, b, data) && |data| == Start(|mem|, b) && next !in mem && next.Length == b
    ensures Holds(mem + [next], b, data + next[..])
  {
    hide Start;
    StartNext(|mem|, b);
    var mem', data' := mem + [next], data + next[..];
    forall k | 0 <= k < |mem'|
      ensures mem'[k].Length == b && Start(k, b) + b <= |data'|
      ensures mem'[k][..] == data'[Start(k, b)..Start(k, b) + b]
    {
      if k < |mem| {
        assert data'[Start(k, b)..Start(k, b) + b] == data[Start(k, b)..Start(k, b) + b];
      } else {
        assert data'[|data|..] == next[..];
      }
    }
  }

  /** The fewest blocks of `b` bytes that hold `n` bytes. */
  function CeilDiv(n: nat, b: nat): (c: nat)
    requires b >= 1 && n >= 1
    ensures c >= 1 && n <= Start(c, b) < n + b
  {
    Split(n + b - 1, b);
    (n + b - 1) / b
  }
}
