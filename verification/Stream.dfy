/**
 Fixed-size transfers over a connection that moves any part of what it is asked to, into plain buffers
 and into a `ByteArray`.
 */
module Streams {
  import opened Flat
  import opened ByteArrays

  /** The value of a length returned as a 32-bit signed int. */
  function ToInt32(n: int): int {
    var m := n % 0x1_0000_0000;
    if m < 0x8000_0000 then m else m - 0x1_0000_0000
  }

  /** It is the number in the range of 32 signed bits that differs by multiples of their range. */
  lemma ToInt32Is(n: int)
    ensures -0x8000_0000 <= ToInt32(n) < 0x8000_0000 && (n - ToInt32(n)) % 0x1_0000_0000 == 0
  {
  }

  function Min(a: int, b: int): int {
    if a <= b then a else b
  }

  /** How many of `avail` bytes the next call moves when it is asked for `n`. */
  function Amount(plan: seq<int>, n: nat, avail: nat): (k: nat)
    ensures k <= n && k <= avail
  {
    if plan == [] || plan[0] <= 0 then 0 else Min(plan[0], Min(n, avail))
  }

  /** What the calls after the next one are going to do. */
  function NextPlan(plan: seq<int>): seq<int> {
    if plan == [] then [] else plan[1..]
  }

  /** However it cuts them up, a plan that moves `n` bytes. */
  predicate MovesAll(plan: seq<int>, n: nat) {
    n <= |plan| && forall i | 0 <= i < |plan| :: plan[i] > 0
  }

  /**
   The environment: the bytes the peer is going to send, the bytes sent to it, and what the next calls
   are going to do. A positive entry moves at most that many bytes; any other is returned as it is.
   */
  class Connection {
    var incoming: seq<Byte>
    var outgoing: seq<Byte>
    var recvPlan: seq<int>
    var sendPlan: seq<int>
    var connected: bool

    constructor (incoming: seq<Byte>, recvPlan: seq<int>, sendPlan: seq<int>)
      ensures this.incoming == incoming && outgoing == [] && connected
      ensures this.recvPlan == recvPlan && this.sendPlan == sendPlan
    {
      this.incoming, this.outgoing, this.connected := incoming, [], true;
      this.recvPlan, this.sendPlan := recvPlan, sendPlan;
    }

    /** However it cuts them up, the connection delivers all incoming bytes. */
    ghost predicate Delivers()
      reads this
    {
      connected && |incoming| <= |recvPlan| && forall i | 0 <= i < |recvPlan| :: recvPlan[i] > 0
    }

    /** The plan, of which nothing is left once the connection is closed. */
    ghost function Plan(): seq<int>
      reads this
    {
      if connected then recvPlan else []
    }

    /** However it cuts them up, the connection takes the next `|sendPlan|` bytes at least. */
    ghost predicate Takes()
      reads this
    {
      connected && forall i | 0 <= i < |sendPlan| :: sendPlan[i] > 0
    }

    method Recv(n: nat) returns (rt: int, got: seq<Byte>)
      requires n > 0
      modifies `incoming, `recvPlan
      ensures got + incoming == old(incoming) && |got| <= n
      ensures if |got| == 0 then rt <= 0 else rt == |got|
      ensures old(Delivers()) ==> Delivers() && (old(incoming) != [] ==> got != [])
      ensures |got| == Amount(old(Plan()), n, old(|incoming|)) && Plan() == NextPlan(old(Plan()))
    {
      if !connected {
        return -1, [];
      }
      if recvPlan == [] {
        return 0, [];
      }
      var p := recvPlan[0];
      recvPlan := recvPlan[1..];
      if p <= 0 {
        return p, [];
      }
      var k := Min(p, Min(n, |incoming|));
      assert incoming[..k] + incoming[k..] == incoming;
      got := incoming[..k];
      incoming := incoming[k..];
      return k, got;
    }

    method Send(bytes: seq<Byte>) returns (rt: int)
      modifies `outgoing, `sendPlan
      ensures old(outgoing) <= outgoing && outgoing[|old(outgoing)|..] <= bytes
      ensures var k := |outgoing| - old(|outgoing|); if k == 0 then rt <= 0 else rt == k
      ensures old(Takes()) ==> Takes() && |outgoing| + |sendPlan| >= old(|outgoing| + |sendPlan|)
      ensures old(Takes()) && bytes != [] && old(sendPlan) != [] ==> |outgoing| > old(|outgoing|)
    {
      if !connected {
        return -1;
      }
      if sendPlan == [] || bytes == [] {
        return 0;
      }
      var p := sendPlan[0];
      sendPlan := sendPlan[1..];
      if p <= 0 {
        return p;
      }
      var k := Min(p, |bytes|);
      outgoing := outgoing + bytes[..k];
      return k;
    }

    method Close()
      modifies `connected
      ensures !connected
    {
      connected := false;
    }

    // -------------------------------------------------------------- plain buffers

    /** Reads until `n` bytes are there or the connection fails; `got` is what arrived. */
    method ReadFixSize(n: nat) returns (rt: int, got: seq<Byte>)
      modifies `incoming, `recvPlan
      ensures got + incoming == old(incoming) && |got| <= n
      ensures if |got| == n then rt == ToInt32(n) else rt <= 0
      ensures old(Delivers()) ==> Delivers() && (n <= old(|incoming|) ==> |got| == n)
    {
      hide Amount, NextPlan;
      got := [];
      var left := n;
      while left > 0
        invariant 0 <= left && |got| + left == n && got + incoming == old(incoming)
        invariant old(Delivers()) ==> Delivers()
      {
        var len, chunk := Recv(left);
        if len <= 0 {
          return len, got;
        }
        assert got + (chunk + incoming) == (got + chunk) + incoming;
        got := got + chunk;
        left := left - len;
      }
      return ToInt32(n), got;
    }

    /** Writes all of `bytes` unless the connection fails; whatever went out is a prefix of them. */
    method WriteFixSize(bytes: seq<Byte>) returns (rt: int)
      modifies `outgoing, `sendPlan
      ensures old(outgoing) <= outgoing && outgoing[|old(outgoing)|..] <= bytes
      ensures if outgoing == old(outgoing) + bytes then rt == ToInt32(|bytes|) else rt <= 0
      ensures old(Takes()) ==> Takes() && |outgoing| + |sendPlan| >= old(|outgoing| + |sendPlan|)
      ensures old(Takes()) && |bytes| <= old(|sendPlan|) ==> outgoing == old(outgoing) + bytes
    {
      ghost var out := outgoing;
      var left, offset := |bytes|, 0;
      while left > 0
        invariant 0 <= left && offset + left == |bytes| && outgoing == out + bytes[..offset]
        invariant old(Takes()) ==> Takes() && |outgoing| + |sendPlan| >= old(|outgoing| + |sendPlan|)
      {
        ghost var before := outgoing;
        var len := Send(bytes[offset..]);
        if len <= 0 {
          return len;
        }
        assert outgoing == before + outgoing[|before|..];
        assert outgoing[|before|..] == bytes[offset..offset + len];
        assert out + bytes[..offset] + bytes[offset..offset + len] == out + bytes[..offset + len];
        offset := offset + len;
        left := left - len;
      }
      assert bytes[..offset] == bytes;
      return ToInt32(|bytes|);
    }

    // -------------------------------------------------------------- byte arrays, through views of their memory

    /** A scattering read: fills the pieces in order with `d`. */
    method Scatter(ba: ByteArray, iovs: seq<IoVec>, ghost pos: nat, ghost len: nat, d: seq<Byte>)
      requires ba.Linked() && |d| <= len && pos + len <= ba.capacity
      requires Spans(iovs, ba.mem, ba.baseSize, BlockNo(pos, ba.baseSize), Offset(pos, ba.baseSize), len)
      modifies ba`data, ba.mem
      ensures ba.Linked() && ba.data == Splice(old(ba.data), pos, d)
    {
      hide Start, BlockNo, Offset, Chain, Holds, Splice;
      ghost var k, at, store := BlockNo(pos, ba.baseSize), Offset(pos, ba.baseSize), ba.data;
      Split(pos, ba.baseSize);
      SpliceNothing(store, pos);
      var i, done := 0, 0;
      assert iovs[..0] == [] && iovs[..|iovs|] == iovs;
      while done < |d|
        invariant 0 <= i <= |iovs| && 0 <= done <= |d| && ba.Linked()
        invariant done == Min(|d|, TotalLen(iovs[..i]))
        invariant ba.data == Splice(store, pos, d[..done])
        decreases |d| - done
      {
        ba.PieceStart(iovs, k, at, len, i);
        assert iovs[..i + 1][..i] == iovs[..i];
        var v := iovs[i];
        var n := Min(v.len, |d| - done);
        SpliceTwice(store, pos, d, done, n);
        ba.Store(v.base, k + i, v.offset, d[done..done + n]);
        done := done + n;
        i := i + 1;
      }
      assert d[..done] == d;
    }

    /** The bytes of the pieces in order, as a gathering write sends them. */
    method Collect(ba: ByteArray, iovs: seq<IoVec>, ghost pos: nat, ghost len: nat) returns (bytes: seq<Byte>)
      requires ba.Linked() && pos + len <= ba.capacity
      requires Spans(iovs, ba.mem, ba.baseSize, BlockNo(pos, ba.baseSize), Offset(pos, ba.baseSize), len)
      ensures bytes == ba.data[pos..pos + len]
    {
      hide Start, BlockNo, Offset, Chain, Holds;
      ghost var k := BlockNo(pos, ba.baseSize);
      bytes := [];
      assert iovs[..0] == [] && iovs[..|iovs|] == iovs;
      for i := 0 to |iovs|
        invariant bytes == Gather(iovs[..i])
      {
        var v := iovs[i];
        assert iovs[..i + 1][..i] == iovs[..i];
        assert v.base.Length == ba.baseSize && v.offset + v.len <= ba.baseSize by {
          assert Piece(v, ba.mem, ba.baseSize, k + i, if i == 0 then Offset(pos, ba.baseSize) else 0);
          ba.BlockFacts(k + i);
        }
        bytes := bytes + v.base[v.offset..v.offset + v.len];
      }
      ba.GatherIsData(iovs, pos, len);
    }

    /** One receive of at most `n` bytes straight into the array's memory. */
    method Read(ba: ByteArray, n: nat) returns (rt: int, ghost got: seq<Byte>)
      requires ba.Valid() && n > 0
      modifies `incoming, `recvPlan, ba, ba.nodes, ba.mem
      ensures got + incoming == old(incoming) && |got| <= n
      ensures if |got| == 0 then rt <= 0 else rt == |got|
      ensures old(Delivers()) ==> Delivers() && (old(incoming) != [] ==> got != [])
      ensures ba.Wrote(old(ba.Content()), old(ba.position), got)
      ensures ba.Grew()
    {
      hide Amount, NextPlan, Plan, Start, BlockNo, Offset, Chain, Holds, Splice, Overwrite;
      var content := ba.Content();
      OverwriteNothing(content, ba.position);
      if !connected {
        return -1, [];
      }
      var iovs, _ := ba.GetWriteBuffers(n);
      var chunk;
      rt, chunk := Recv(n);
      ghost var store := ba.data;
      Scatter(ba, iovs, ba.position, n, chunk);
      WriteIntoStore(store, store, ba.size, ba.position, chunk);
      if rt > 0 {
        var _ := ba.SetPosition(ba.position + rt);
      } else {
        SpliceNothing(store, ba.position);
      }
      got := chunk;
    }

    /**
     Receives until `n` bytes have arrived or the connection fails. Whatever the cuts, the array is then
     as after one flat write of the bytes that arrived.
     */
    method ReadFixSizeInto(ba: ByteArray, n: nat) returns (rt: int, ghost got: seq<Byte>)
      requires ba.Valid()
      modifies `incoming, `recvPlan, ba, ba.nodes, ba.mem
      ensures got + incoming == old(incoming) && |got| <= n
      ensures if |got| == n then rt == ToInt32(n) else rt <= 0
      ensures old(Delivers()) ==> Delivers() && (n <= old(|incoming|) ==> |got| == n)
      ensures ba.Wrote(old(ba.Content()), old(ba.position), got)
    {
      hide Start, BlockNo, Offset, Chain, Holds, Overwrite;
      ghost var content, position := ba.Content(), ba.position;
      OverwriteNothing(content, position);
      got := [];
      var left := n;
      while left > 0
        invariant 0 <= left && |got| + left == n && got + incoming == old(incoming)
        invariant old(Delivers()) ==> Delivers()
        invariant ba.Wrote(content, position, got)
        invariant ba.Grew()
      {
        var len;
        ghost var chunk;
        len, chunk := Read(ba, left);
        OverwriteTwice(content, position, got, chunk);
        assert got + (chunk + incoming) == (got + chunk) + incoming;
        got := got + chunk;
        if len <= 0 {
          return len, got;
        }
        left := left - len;
      }
      return ToInt32(n), got;
    }

    /** One send of at most `n` bytes of the content, straight from the array's memory. */
    method Write(ba: ByteArray, n: nat) returns (rt: int)
      requires ba.Valid()
      modifies `outgoing, `sendPlan, ba`position, ba`size, ba`cur
      ensures ba.Valid() && ba.Content() == old(ba.Content())
      ensures old(ba.position) <= ba.position <= ba.size && ba.position - old(ba.position) <= n
      ensures outgoing == old(outgoing) + ba.Content()[old(ba.position)..ba.position]
      ensures if ba.position == old(ba.position) then rt <= 0 else rt == ba.position - old(ba.position)
      ensures old(Takes()) ==> Takes() && |outgoing| + |sendPlan| >= old(|outgoing| + |sendPlan|)
      ensures old(Takes()) && n > 0 && old(ba.position) < ba.size && old(sendPlan) != [] ==>
              old(ba.position) < ba.position
    {
      hide Start, BlockNo, Offset, Chain, Holds;
      if !connected {
        return -1;
      }
      ghost var out, pos := outgoing, ba.position;
      var iovs, len := ba.GetReadBuffers(n);
      var bytes := Collect(ba, iovs, pos, len);
      rt := Send(bytes);
      assert outgoing == out + outgoing[|out|..];
      if rt > 0 {
        var _ := ba.SetPosition(ba.position + rt);
        assert outgoing[|out|..] == bytes[..rt] == ba.Content()[pos..pos + rt];
      }
    }

    /** Sends `n` bytes of the content or fails; what went out is the content from the old cursor to the new one. */
    method WriteFixSizeFrom(ba: ByteArray, n: nat) returns (rt: int)
      requires ba.Valid()
      modifies `outgoing, `sendPlan, ba`position, ba`size, ba`cur
      ensures ba.Valid() && ba.Content() == old(ba.Content())
      ensures old(ba.position) <= ba.position <= ba.size && ba.position - old(ba.position) <= n
      ensures outgoing == old(outgoing) + ba.Content()[old(ba.position)..ba.position]
      ensures if ba.position == old(ba.position) + n then rt == ToInt32(n) else rt <= 0
      ensures old(Takes()) && n <= old(|sendPlan|) && n <= ba.size - old(ba.position) ==>
              ba.position == old(ba.position) + n
    {
      hide Start, BlockNo, Offset, Chain, Holds;
      ghost var out, pos := outgoing, ba.position;
      var left: nat := n;
      while left > 0
        invariant ba.Valid() && ba.Content() == old(ba.Content())
        invariant pos <= ba.position <= ba.size && ba.position - pos + left == n
        invariant outgoing == out + ba.Content()[pos..ba.position]
        invariant old(Takes()) ==> Takes() && |outgoing| + |sendPlan| >= old(|outgoing| + |sendPlan|)
      {
        ghost var before := ba.position;
        var len := Write(ba, left);
        SliceTwice(ba.Content(), pos, before, ba.position);
        if len <= 0 {
          return len;
        }
        left := left - len;
      }
      return ToInt32(n);
    }
  }
}
