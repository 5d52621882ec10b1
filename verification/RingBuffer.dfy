/** The byte-level ring buffer (internal/ringbuffer/buffer.go).

    Blocks are stored as a five byte header (tag, then the payload size as four
    little-endian bytes) followed by the payload, and both may wrap around the
    end of the array.  The class below updates the array in place as the source
    does; the theorem is that it refines a queue of blocks. */
module RingBuffer {
  import opened Basics

  const BLOCK_HEADER_SIZE: nat := 5
  const TWO_TO_THE_32: nat := 0x1_0000_0000

  datatype BlockHeader = BlockHeader(tag: byte, size: nat)

  datatype Block = Block(tag: byte, data: seq<byte>) {
    function Header(): BlockHeader {
      BlockHeader(tag, |data|)
    }

    /** The bytes a block takes up, block accounting included. */
    function Size(): nat {
      |data| + BLOCK_HEADER_SIZE
    }
  }

  // ----- the abstract queue -----

  function TotalSize(q: seq<Block>): nat {
    if q == [] then 0 else q[0].Size() + TotalSize(q[1..])
  }

  function Headers(q: seq<Block>): seq<BlockHeader> {
    seq(|q|, i requires 0 <= i < |q| => q[i].Header())
  }

  /** How many of the oldest blocks must go before `need` bytes are free. */
  function EvictCount(q: seq<Block>, need: nat, cap: nat): (k: nat)
    ensures k <= |q|
  {
    if q == [] || TotalSize(q) + need <= cap then 0 else 1 + EvictCount(q[1..], need, cap)
  }

  /** What is kept is exactly the longest suffix that leaves room. */
  lemma {:induction false} EvictCountIsLeast(q: seq<Block>, need: nat, cap: nat, i: nat)
    requires need <= cap && i <= |q|
    ensures TotalSize(q[i..]) + need <= cap <==> EvictCount(q, need, cap) <= i
  {
    if q == [] {
    } else if i == 0 {
      assert q[0..] == q;
    } else {
      assert q[1..][i - 1..] == q[i..];
      EvictCountIsLeast(q[1..], need, cap, i - 1);
      TotalSizeAppend(q[1..][..i - 1], q[1..][i - 1..]);
      assert q[1..][..i - 1] + q[1..][i - 1..] == q[1..];
    }
  }

  /** The queue a write leaves: the longest suffix that leaves room, then the new block. */
  function Pushed(q: seq<Block>, b: Block, cap: nat): seq<Block> {
    q[EvictCount(q, b.Size(), cap)..] + [b]
  }

  lemma {:induction false} TotalSizeAppend(p: seq<Block>, q: seq<Block>)
    ensures TotalSize(p + q) == TotalSize(p) + TotalSize(q)
  {
    if p == [] {
      assert p + q == q;
    } else {
      assert (p + q)[1..] == p[1..] + q;
      TotalSizeAppend(p[1..], q);
    }
  }

  /** A push never exceeds the capacity, and only ever forgets a prefix. */
  lemma PushedFits(q: seq<Block>, b: Block, cap: nat)
    requires b.Size() <= cap
    ensures TotalSize(Pushed(q, b, cap)) <= cap
    ensures TotalSize(q) + b.Size() <= cap ==> Pushed(q, b, cap) == q + [b]
  {
    var k := EvictCount(q, b.Size(), cap);
    EvictCountIsLeast(q, b.Size(), cap, k);
    TotalSizeAppend(q[k..], [b]);
    assert q[0..] == q;
  }

  // ----- encoding -----

  function LE32(n: nat): (s: seq<byte>)
    ensures |s| == 4
  {
    [n % 256, n / 256 % 256, n / 256 / 256 % 256, n / 256 / 256 / 256 % 256]
  }

  function FromLE32(s: seq<byte>): nat
    requires |s| == 4
  {
    s[0] as nat + 256 * (s[1] as nat + 256 * (s[2] as nat + 256 * s[3] as nat))
  }

  /** The size field keeps 32 bits, so it is exact only for sizes below 2^32. */
  lemma LE32RoundTrip(n: nat)
    ensures FromLE32(LE32(n)) == n <==> n < TWO_TO_THE_32
    ensures exists high: nat :: n == FromLE32(LE32(n)) + TWO_TO_THE_32 * high
  {
    var a := n / 256;
    var b := a / 256;
    var c := b / 256;
    var high := c / 256;
    assert n == FromLE32(LE32(n)) + TWO_TO_THE_32 * high;
  }

  function Encode(b: Block): (s: seq<byte>)
    ensures |s| == b.Size()
  {
    [b.tag] + LE32(|b.data|) + b.data
  }

  function EncodeAll(q: seq<Block>): (s: seq<byte>)
    ensures |s| == TotalSize(q)
  {
    if q == [] then [] else Encode(q[0]) + EncodeAll(q[1..])
  }

  lemma {:induction false} EncodeAllAppend(q: seq<Block>, b: Block)
    ensures EncodeAll(q + [b]) == EncodeAll(q) + Encode(b)
  {
    if q == [] {
      assert [b][1..] == [];
      assert EncodeAll([b]) == Encode(b) + [];
    } else {
      assert (q + [b])[1..] == q[1..] + [b];
      EncodeAllAppend(q[1..], b);
    }
  }

  // ----- circular contents -----

  /** Where index `i`, at most one lap ahead, falls in the array. */
  function Wrap(i: nat, cap: nat): nat
    requires i < 2 * cap
  {
    if i < cap then i else i - cap
  }

  /** How far ahead of `at` the array index `i` lies. */
  function Ahead(at: nat, i: nat, cap: nat): nat
    requires at < cap && i < cap
  {
    if at <= i then i - at else i + cap - at
  }

  lemma WrapIsMod(i: nat, cap: nat)
    requires i < 2 * cap
    ensures i % cap == Wrap(i, cap)
  {
    if i >= cap {
      assert i == cap * 1 + (i - cap);
    }
  }

  /** The `len` bytes that start at `read`, continuing at the front of `buf`. */
  ghost function Ring(buf: seq<byte>, read: nat, len: nat): (s: seq<byte>)
    requires read < |buf| && len <= |buf|
    ensures |s| == len && forall i :: 0 <= i < len ==> s[i] == buf[Wrap(read + i, |buf|)]
  {
    seq(len, i requires 0 <= i < len => buf[Wrap(read + i, |buf|)])
  }

  lemma RingSplit(buf: seq<byte>, read: nat, a: nat, b: nat)
    requires read < |buf| && a + b <= |buf|
    ensures Ring(buf, read, a + b) == Ring(buf, read, a) + Ring(buf, Wrap(read + a, |buf|), b)
  {
    var l, r := Ring(buf, read, a + b), Ring(buf, read, a) + Ring(buf, Wrap(read + a, |buf|), b);
    forall i | 0 <= i < a + b
      ensures l[i] == r[i]
    {
    }
  }

  lemma RingSlices(buf: seq<byte>, read: nat, len: nat)
    requires read < |buf| && len <= |buf|
    ensures Ring(buf, read, len) ==
            if read + len <= |buf| then buf[read..read + len] else buf[read..] + buf[..read + len - |buf|]
  {
    var l := Ring(buf, read, len);
    var r := if read + len <= |buf| then buf[read..read + len] else buf[read..] + buf[..read + len - |buf|];
    forall i | 0 <= i < len
      ensures l[i] == r[i]
    {
    }
  }

  /** `after` is `before` with the bytes p put at `at`, continuing at the front. */
  ghost predicate PutAt(before: seq<byte>, after: seq<byte>, at: nat, p: seq<byte>)
  {
    && at < |before| == |after|
    && forall i :: 0 <= i < |after| ==>
         after[i] == if Ahead(at, i, |before|) < |p| then p[Ahead(at, i, |before|)] else before[i]
  }

  /** A put into the free part appends to the contents. */
  lemma PutAppends(before: seq<byte>, after: seq<byte>, read: nat, len: nat, p: seq<byte>)
    requires read < |before| && len + |p| <= |before|
    requires PutAt(before, after, Wrap(read + len, |before|), p)
    ensures Ring(after, read, len + |p|) == Ring(before, read, len) + p
  {
    var cap := |before|;
    var w := Wrap(read + len, cap);
    forall i | 0 <= i < len + |p|
      ensures Ring(after, read, len + |p|)[i] == (Ring(before, read, len) + p)[i]
    {
      if i < len {
        assert Ahead(w, Wrap(read + i, cap), cap) == cap - len + i;
      } else {
        assert Ahead(w, Wrap(read + i, cap), cap) == i - len;
      }
    }
  }

  /** The concrete state (buf, read, len) stands for the queue q. */
  ghost predicate Represents(buf: seq<byte>, read: int, len: int, q: seq<Block>)
  {
    && 0 <= len <= |buf|
    && (if |buf| == 0 then read == 0 && q == [] else 0 <= read < |buf| && Ring(buf, read, len) == EncodeAll(q))
  }

  lemma RepresentsSize(buf: seq<byte>, read: int, len: int, q: seq<Block>)
    requires Represents(buf, read, len, q)
    ensures len == TotalSize(q)
  {
    if |buf| > 0 {
      assert |Ring(buf, read, len)| == |EncodeAll(q)|;
    }
  }

  lemma SplitUnique(h: seq<byte>, d: seq<byte>, t: seq<byte>, h': seq<byte>, d': seq<byte>, t': seq<byte>)
    requires |h| == |h'| && |d| == |d'|
    requires h + d + t == h' + (d' + t')
    ensures h == h' && d == d' && t == t'
  {
    var l, r := h + d + t, h' + (d' + t');
    assert h == l[..|h|] == r[..|h|] == h';
    assert d == l[|h|..|h| + |d|] == r[|h|..|h| + |d|] == d';
    assert t == l[|h| + |d|..] == r[|h| + |d|..] == t';
  }

  /** What the oldest block's header and payload look like in the array. */
  lemma HeadInRing(buf: seq<byte>, read: nat, len: nat, q: seq<Block>)
    requires read < |buf| && len <= |buf| && q != []
    requires Ring(buf, read, len) == EncodeAll(q)
    ensures len == TotalSize(q) == q[0].Size() + TotalSize(q[1..])
    ensures Ring(buf, read, BLOCK_HEADER_SIZE) == [q[0].tag] + LE32(|q[0].data|)
    ensures var r := Wrap(read + BLOCK_HEADER_SIZE, |buf|);
            && Ring(buf, r, |q[0].data|) == q[0].data
            && Ring(buf, Wrap(r + |q[0].data|, |buf|), TotalSize(q[1..])) == EncodeAll(q[1..])
  {
    assert len == |Ring(buf, read, len)| == TotalSize(q);
    var n, rest := |q[0].data|, TotalSize(q[1..]);
    var r := Wrap(read + BLOCK_HEADER_SIZE, |buf|);
    RingSplit(buf, read, BLOCK_HEADER_SIZE, n + rest);
    RingSplit(buf, r, n, rest);
    SplitUnique([q[0].tag] + LE32(n), q[0].data, EncodeAll(q[1..]),
                Ring(buf, read, BLOCK_HEADER_SIZE), Ring(buf, r, n), Ring(buf, Wrap(r + n, |buf|), rest));
  }

  /** Two puts, of a header and of its payload, append one block to the queue. */
  lemma AppendRepresents(b0: seq<byte>, b1: seq<byte>, b2: seq<byte>, read: nat, len: nat, q: seq<Block>, b: Block)
    requires Represents(b0, read, len, q) && len + b.Size() <= |b0|
    requires PutAt(b0, b1, Wrap(read + len, |b0|), [b.tag] + LE32(|b.data|))
    requires PutAt(b1, b2, Wrap(Wrap(read + len, |b0|) + BLOCK_HEADER_SIZE, |b0|), b.data)
    ensures Represents(b2, read, len + b.Size(), q + [b])
  {
    var h := [b.tag] + LE32(|b.data|);
    PutAppends(b0, b1, read, len, h);
    PutAppends(b1, b2, read, len + BLOCK_HEADER_SIZE, b.data);
    EncodeAllAppend(q, b);
    assert EncodeAll(q) + h + b.data == EncodeAll(q) + Encode(b);
  }

  datatype Error = Eof | TooLarge | WriteFailed

  /** A destination for bytes.  It takes `room` more bytes and then fails;
      with no `room` it never fails, as ioutil.Discard or a zlib.Writer over a
      bytes.Buffer. */
  class Writer {
    var data: seq<byte>
    var room: Option<nat>

    constructor (room: Option<nat>)
      ensures this.room == room && data == []
    {
      this.room := room;
      data := [];
    }

    method Write(p: seq<byte>) returns (n: nat, failed: bool)
      modifies this
      ensures n <= |p| && data == old(data) + p[..n]
      ensures failed <==> n < |p|
      ensures n == if old(room).Some? && old(room).value < |p| then old(room).value else |p|
      ensures room == if old(room).Some? then Some(old(room).value - n) else None
    {
      n := if room.Some? && room.value < |p| then room.value else |p|;
      failed := n < |p|;
      data := data + p[..n];
      room := if room.Some? then Some(room.value - n) else None;
    }
  }

  /** Go's built-in copy into dst[at:]. */
  method Copy(dst: array<byte>, at: nat, src: seq<byte>) returns (n: nat)
    requires at <= dst.Length
    modifies dst
    ensures n == if dst.Length - at < |src| then dst.Length - at else |src|
    ensures forall i :: 0 <= i < dst.Length ==> dst[i] == if at <= i < at + n then src[i - at] else old(dst[i])
  {
    n := if dst.Length - at < |src| then dst.Length - at else |src|;
    forall i | at <= i < at + n {
      dst[i] := src[i - at];
    }
  }

  /** Go's `i % cap` for an index at most one lap ahead. */
  method Mod(i: nat, cap: nat) returns (r: nat)
    requires i < 2 * cap
    ensures r == Wrap(i, cap)
  {
    WrapIsMod(i, cap);
    r := i % cap;
  }

  class Buffer {
    const buf: array<byte>
    const headerbuf: array<byte>
    var len: int
    var write: int
    var read: int

    /** The blocks held, oldest first. */
    ghost var queue: seq<Block>

    /** Everything but the byte contents: shapes and separation. */
    ghost predicate Shape()
      reads this
    {
      && headerbuf.Length == BLOCK_HEADER_SIZE
      && headerbuf != buf
    }

    /** The array stands for the queue. */
    ghost predicate Consistent()
      reads this, buf
    {
      && Shape()
      && Represents(buf[..], read, len, queue)
      && (if buf.Length == 0 then write == 0 else write == Wrap(read + len, buf.Length))
    }

    /** And the size fields say how long its payloads are. */

    ghost predicate Valid()
      reads this, buf
    {
      Consistent() && forall b :: b in queue ==> |b.data| < TWO_TO_THE_32
    }

    constructor (size: nat)
      ensures Valid() && queue == []
      ensures buf.Length == size && fresh(buf) && fresh(headerbuf)
    {
      buf := new byte[size](_ => 0);
      headerbuf := new byte[BLOCK_HEADER_SIZE](_ => 0);
      len, write, read := 0, 0, 0;
      queue := [];
    }

    function Cap(): int {
      buf.Length
    }

    method Len() returns (n: int)
      requires Valid()
      ensures n == TotalSize(queue)
      ensures n == 0 <==> queue == []
    {
      n := len;
      RepresentsSize(buf[..], read, len, queue);
    }

    /** The header half of WriteBlockTo: moves `read` past the oldest header. */
    method ReadHeader() returns (header: BlockHeader)
      requires Valid() && queue != []
      modifies this, headerbuf
      ensures Shape() && buf[..] == old(buf[..]) && write == old(write) && queue == old(queue)
      ensures header == queue[0].Header()
      ensures old(read) < buf.Length && read == Wrap(old(read) + BLOCK_HEADER_SIZE, buf.Length)
      ensures len == old(len) - BLOCK_HEADER_SIZE
    {
      hide EncodeAll;
      ghost var b, r0 := queue[0], read;
      HeadInRing(buf[..], read, len, queue);
      var n := Copy(headerbuf, 0, buf[read..]);
      if n < headerbuf.Length {
        read := Copy(headerbuf, n, buf[..]);
      } else {
        read := Mod(read + n, Cap());
      }
      ghost var h := Ring(buf[..], r0, BLOCK_HEADER_SIZE);
      forall i | 0 <= i < BLOCK_HEADER_SIZE
        ensures headerbuf[i] == h[i]
      {
      }
      assert headerbuf[..] == h;
      len := len - headerbuf.Length;
      header := BlockHeader(headerbuf[0], FromLE32(headerbuf[1..]));
      LE32RoundTrip(|b.data|);
      assert headerbuf[1..] == headerbuf[..][1..] == LE32(|b.data|);
    }

    /** The payload half of WriteBlockTo, in one piece or, when the payload wraps, in two.
        The first error path takes the header off `len` a second time; the second
        leaves the unwritten bytes in it. */
    method WritePayload(size: nat, w: Writer) returns (written: int, failed: bool)
      requires Shape() && 0 <= read < buf.Length && size <= buf.Length
      modifies this, w
      ensures Shape() && write == old(write) && queue == old(queue)
      ensures w.room.None? <==> old(w.room).None?
      ensures failed <==> old(w.room).Some? && old(w.room).value < size
      ensures !failed ==>
                && read == Wrap(old(read) + size, buf.Length) && len == old(len) - size
                && w.data == old(w.data) + Ring(buf[..], old(read), size) && written == size
      ensures failed ==> len != old(len) - size
    {
      RingSlices(buf[..], read, size);
      ghost var r0, w0 := read, w.data;
      var rest, n := size, 0;
      written := 0;
      if read + size > Cap() {
        n, failed := w.Write(buf[read..]);
        if failed {
          read := Mod(read + size, Cap());
          len := len - (size + headerbuf.Length);
          return n, true;
        }
        rest := size - n;
        written := n;
        read := 0;
        len := len - n;
      }
      n, failed := w.Write(buf[read..read + rest]);
      if failed {
        return written + n, true;
      }
      written := written + n;
      read := Mod(read + rest, Cap());
      len := len - rest;
      assert w.data == w0 + Ring(buf[..], r0, size);
    }

    /** Takes the oldest block out and writes its payload to w.

        With a failing writer, and only then, the state left does not stand for
        the remaining queue. */
    method WriteBlockTo(w: Writer) returns (header: BlockHeader, written: int, err: Option<Error>)
      requires Valid()
      modifies this, headerbuf, w
      ensures Shape() && buf[..] == old(buf[..])
      ensures err == Some(Eof) <==> old(queue) == []
      ensures old(queue) == [] ==> Valid() && queue == [] && w.data == old(w.data) && written == 0
      ensures old(queue) != [] ==> header == old(queue)[0].Header()
      ensures old(queue) != [] && err == None ==>
                && Valid() && queue == old(queue)[1..]
                && w.data == old(w.data) + old(queue)[0].data
                && written == |old(queue)[0].data|
      ensures old(queue) != [] ==> (err == None <==> Represents(buf[..], read, len, old(queue)[1..]))
      ensures old(queue) != [] ==>
                (err == None <==> !(old(w.room).Some? && old(w.room).value < |old(queue)[0].data|))
      ensures w.room.None? <==> old(w.room).None?
    {
      hide Ring, EncodeAll;
      if len == 0 {
        RepresentsSize(buf[..], read, len, queue);
        return BlockHeader(0, 0), 0, Some(Eof);
      }
      HeadInRing(buf[..], read, len, queue);
      header := ReadHeader();
      var failed;
      written, failed := WritePayload(header.size, w);
      if failed {
        NotRepresented(buf[..], read, len, queue);
        return header, written, Some(WriteFailed);
      }
      err := None;
      queue := queue[1..];
    }

    /** The wrapping copy WriteBlock makes, once for the header and once for the payload. */
    method Put(p: seq<byte>)
      requires Shape() && 0 <= write < buf.Length && |p| <= buf.Length
      modifies this`write, buf
      ensures PutAt(old(buf[..]), buf[..], old(write), p)
      ensures write == Wrap(old(write) + |p|, buf.Length)
    {
      var n := Copy(buf, write, p);
      if n < |p| {
        write := Copy(buf, 0, p[n..]);
      } else {
        write := Mod(write + n, Cap());
      }
    }

    method PutHeader(tag: byte, size: nat)
      requires Shape()
      modifies headerbuf
      ensures headerbuf[..] == [tag] + LE32(size)
    {
      headerbuf[0] := tag;
      var _ := Copy(headerbuf, 1, LE32(size));
    }

    /** The writing half of WriteBlock, once there is room. */
    method Append(p: seq<byte>, tag: byte)
      requires Consistent() && len + |p| + BLOCK_HEADER_SIZE <= buf.Length
      modifies this, buf, headerbuf
      ensures Consistent() && queue == old(queue) + [Block(tag, p)]
    {
      hide Ring, EncodeAll, PutAt;
      ghost var q, b0 := queue, buf[..];
      PutHeader(tag, |p|);
      Put(headerbuf[..]);
      ghost var b1 := buf[..];
      Put(p);
      AppendRepresents(b0, b1, buf[..], read, len, q, Block(tag, p));
      len := len + (|p| + BLOCK_HEADER_SIZE);
      queue := q + [Block(tag, p)];
    }

    /** Writes p as a block, evicting as few of the oldest blocks as make room for it.
        `evicted` lists the headers passed to the Evicted callback, in call order.  A payload of
        2^32 bytes or more is stored, but its size field does not say how long it is. */
    method WriteBlock(p: seq<byte>, tag: byte)
      returns (n: int, err: Option<Error>, evicted: seq<BlockHeader>)
      requires Valid()
      modifies this, buf, headerbuf
      ensures Consistent() && (Valid() <==> err.Some? || |p| < TWO_TO_THE_32)
      ensures err == if |p| + BLOCK_HEADER_SIZE > buf.Length then Some(TooLarge) else None
      ensures err.Some? ==> queue == old(queue) && evicted == [] && n == 0
      ensures err.None? ==> queue == Pushed(old(queue), Block(tag, p), buf.Length) && n == |p|
      ensures err.None? ==>
                evicted == Headers(old(queue)[..EvictCount(old(queue), |p| + BLOCK_HEADER_SIZE, buf.Length)])
    {
      hide Represents, Ring, EncodeAll;
      var lenp := |p|;
      evicted := [];
      if lenp + BLOCK_HEADER_SIZE > Cap() {
        return 0, Some(TooLarge), [];
      }
      ghost var q0, need, cap, i := queue, lenp + BLOCK_HEADER_SIZE, buf.Length, 0;
      ghost var k := EvictCount(q0, need, cap);
      RepresentsSize(buf[..], read, len, queue);
      while lenp + BLOCK_HEADER_SIZE > Cap() - len
        invariant Valid() && len == TotalSize(queue)
        invariant i <= k && queue == q0[i..]
        invariant evicted == Headers(q0[..i])
        decreases |queue|
      {
        EvictCountIsLeast(q0, need, cap, i);
        var discard := new Writer(None);
        var header, _, e := WriteBlockTo(discard);
        if e != None {
          return 0, e, evicted;
        }
        evicted := evicted + [header];
        i := i + 1;
        RepresentsSize(buf[..], read, len, queue);
      }
      EvictCountIsLeast(q0, need, cap, i);
      Append(p, tag);
      return lenp, None, evicted;
    }
  }

  lemma NotRepresented(buf: seq<byte>, read: int, len: int, q: seq<Block>)
    requires q != [] && len != TotalSize(q) - q[0].Size()
    ensures !Represents(buf, read, len, q[1..])
  {
    if Represents(buf, read, len, q[1..]) {
      RepresentsSize(buf, read, len, q[1..]);
    }
  }
}
