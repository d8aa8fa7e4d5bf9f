/**
 The non-temporal memory move: bytes up to a cache line, then 128-byte, 16-byte and 4-byte units and
 a rest of bytes, forwards or backwards, over one memory in which source and destination may overlap.
 */
module PmemMove {
  import opened Common


  newtype byte = x: int | 0 <= x < 256

  const FLUSH_ALIGN := 64
  const CHUNK_SIZE := 128
  const MOVNT_SIZE := 16
  const DWORD_SIZE := 4
  const ADDRESS_LIMIT := 0x1_0000_0000_0000_0000

  /** Memory with v put at address d. */
  function Splice(m: seq<byte>, d: nat, v: seq<byte>): (r: seq<byte>)
    requires d + |v| <= |m|
    ensures |r| == |m|
  {
    m[..d] + v + m[d + |v|..]
  }

  lemma SpliceAt(m: seq<byte>, d: nat, v: seq<byte>, i: nat)
    requires d + |v| <= |m| && i < |m|
    ensures Splice(m, d, v)[i] == if d <= i < d + |v| then v[i - d] else m[i]
  {
  }

  /** Memory after the n bytes at src have been copied to dest as if through a buffer. */
  function Moved(m: seq<byte>, dest: nat, src: nat, n: nat): (r: seq<byte>)
    requires dest + n <= |m| && src + n <= |m|
    ensures |r| == |m|
  {
    Splice(m, dest, m[src..src + n])
  }

  /** Byte by byte: inside the destination the old source, outside it the old memory. */
  lemma MovedAt(m: seq<byte>, dest: nat, src: nat, n: nat, i: nat)
    requires dest + n <= |m| && src + n <= |m| && i < |m|
    ensures Moved(m, dest, src, n)[i] == if dest <= i < dest + n then m[src + (i - dest)] else m[i]
  {
  }

  /** Copying a further unit forwards, when the destination does not reach into the unread source. */
  lemma ForwardUnit(m: seq<byte>, dest: nat, src: nat, done: nat, k: nat)
    requires dest + done + k <= |m| && src + done + k <= |m|
    requires dest <= src || dest >= src + done + k
    ensures var cur := Moved(m, dest, src, done);
            Splice(cur, dest + done, cur[src + done..src + done + k]) == Moved(m, dest, src, done + k)
  {
    var cur := Moved(m, dest, src, done);
    var left := Splice(cur, dest + done, cur[src + done..src + done + k]);
    var right := Moved(m, dest, src, done + k);
    forall i | 0 <= i < |m| ensures left[i] == right[i] {
      ForwardAt(m, dest, src, done, k, i);
    }
  }

  lemma ForwardAt(m: seq<byte>, dest: nat, src: nat, done: nat, k: nat, i: nat)
    requires dest + done + k <= |m| && src + done + k <= |m| && i < |m|
    requires dest <= src || dest >= src + done + k
    ensures var cur := Moved(m, dest, src, done);
            Splice(cur, dest + done, cur[src + done..src + done + k])[i] == Moved(m, dest, src, done + k)[i]
  {
    hide Moved, Splice;
    var cur := Moved(m, dest, src, done);
    SpliceAt(cur, dest + done, cur[src + done..src + done + k], i);
    MovedAt(m, dest, src, done + k, i);
    MovedAt(m, dest, src, done, i);
    if dest + done <= i < dest + done + k {
      MovedAt(m, dest, src, done, src + (i - dest));
    }
  }

  /** Copying a further unit backwards, when the destination lies above the source. */
  lemma BackwardUnit(m: seq<byte>, dest: nat, src: nat, rest: nat, len: nat, k: nat)
    requires rest + k <= len && dest + len <= |m| && src + len <= |m| && src < dest
    ensures var cur := Moved(m, dest + rest + k, src + rest + k, len - rest - k);
            Splice(cur, dest + rest, cur[src + rest..src + rest + k]) == Moved(m, dest + rest, src + rest, len - rest)
  {
    var cur := Moved(m, dest + rest + k, src + rest + k, len - rest - k);
    var a := Splice(cur, dest + rest, cur[src + rest..src + rest + k]);
    var b := Moved(m, dest + rest, src + rest, len - rest);
    forall i | 0 <= i < |m| ensures a[i] == b[i] {
      BackwardAt(m, dest, src, rest, len, k, i);
    }
  }

  lemma BackwardAt(m: seq<byte>, dest: nat, src: nat, rest: nat, len: nat, k: nat, i: nat)
    requires rest + k <= len && dest + len <= |m| && src + len <= |m| && src < dest && i < |m|
    ensures var cur := Moved(m, dest + rest + k, src + rest + k, len - rest - k);
            Splice(cur, dest + rest, cur[src + rest..src + rest + k])[i] == Moved(m, dest + rest, src + rest, len - rest)[i]
  {
    hide Moved, Splice;
    var cur := Moved(m, dest + rest + k, src + rest + k, len - rest - k);
    SpliceAt(cur, dest + rest, cur[src + rest..src + rest + k], i);
    MovedAt(m, dest + rest + k, src + rest + k, len - rest - k, i);
    MovedAt(m, dest + rest, src + rest, len - rest, i);
    if dest + rest <= i < dest + rest + k {
      MovedAt(m, dest + rest + k, src + rest + k, len - rest - k, src + (i - dest));
    }
  }

  /** Bytes up to the next cache line boundary, but never more than are left. */
  function BytesToLine(d: nat, rest: nat): (cnt: nat)
    ensures cnt <= rest && (cnt < rest ==> (d + cnt) % FLUSH_ALIGN == 0)
    ensures forall k :: d <= k < d + cnt ==> k % FLUSH_ALIGN != 0
  {
    var cnt := d % FLUSH_ALIGN;
    if cnt == 0 then 0 else if FLUSH_ALIGN - cnt > rest then rest else FLUSH_ALIGN - cnt
  }

  /** Bytes down to the last cache line boundary, but never more than are left. */
  function BytesPastLine(d: nat, rest: nat): (cnt: nat)
    ensures cnt <= rest && cnt <= d && (cnt < rest ==> (d - cnt) % FLUSH_ALIGN == 0)
    ensures forall k :: d - cnt < k <= d ==> k % FLUSH_ALIGN != 0
  {
    var cnt := d % FLUSH_ALIGN;
    if cnt > rest then rest else cnt
  }

  /** One store instruction: its address and width, and whether it bypasses the cache. */
  datatype Store = Store(addr: nat, width: nat, stream: bool)

  /** Streamed units must be aligned to their width. */
  predicate Aligned(s: Store) {
    s.stream ==> (s.width == MOVNT_SIZE && s.addr % MOVNT_SIZE == 0) || (s.width == DWORD_SIZE && s.addr % DWORD_SIZE == 0)
  }

  ghost predicate AllAligned(stores: seq<Store>) {
    forall i :: 0 <= i < |stores| ==> Aligned(stores[i])
  }

  class Memory {
    const mem: array<byte>
    ghost var stores: seq<Store>

    constructor (mem: array<byte>)
      ensures this.mem == mem && stores == []
    {
      this.mem := mem;
      stores := [];
    }

    /** Loads a unit. */
    method Load(s: nat, width: nat) returns (v: seq<byte>)
      requires s + width <= mem.Length
      ensures v == mem[s..s + width]
    {
      v := mem[s..s + width];
    }

    /** Stores a unit, byte by byte as far as this model is concerned. */
    method Put(d: nat, v: seq<byte>, stream: bool)
      requires d + |v| <= mem.Length
      modifies mem, this`stores
      ensures mem[..] == Splice(old(mem[..]), d, v)
      ensures stores == old(stores) + [Store(d, |v|, stream)]
    {
      stores := stores + [Store(d, |v|, stream)];
      ghost var before := mem[..];
      var i := 0;
      while i < |v|
        invariant i <= |v|
        invariant forall k :: 0 <= k < mem.Length ==> mem[k] == if d <= k < d + i then v[k - d] else before[k]
        invariant stores == old(stores) + [Store(d, |v|, stream)]
      {
        mem[d + i] := v[i];
        i := i + 1;
      }
    }

    /** Where a copy stands: `done` of `len` bytes from src have reached dest, low end first. */
    ghost predicate Ahead(m: seq<byte>, dest: nat, src: nat, len: nat, done: nat)
      reads this, mem
    {
      && done <= len && dest + len <= |m| == mem.Length && src + len <= |m|
      && (dest <= src || dest >= src + len)
      && mem[..] == Moved(m, dest, src, done)
      && AllAligned(stores)
    }

    /** Copies `cnt` units of one width upwards from where the copy stands. */
    method UnitsForward(width: nat, cnt: nat, stream: bool, d: nat, s: nat,
                        ghost m: seq<byte>, ghost dest: nat, ghost src: nat, ghost len: nat, ghost done: nat)
      requires Ahead(m, dest, src, len, done) && d == dest + done && s == src + done
      requires width > 0 && done + Times(cnt, width) <= len
      requires stream && cnt > 0 ==> Aligned(Store(d, width, true))
      modifies mem, this`stores
      ensures Ahead(m, dest, src, len, done + Times(cnt, width))
    {
      hide Splice, Moved, Ahead, Times, Aligned;
      var d', s', i := d, s, 0;
      ghost var moved: nat := 0;
      TimesZero(width);
      while i < cnt
        invariant 0 <= i <= cnt && d' == d + moved && s' == s + moved && moved == Times(i, width) <= Times(cnt, width)
        invariant stream && i < cnt ==> Aligned(Store(d', width, true))
        invariant Ahead(m, dest, src, len, done + moved)
      {
        TimesNext(i, cnt, width);
        AboveIsAligned(d', width);
        UnitForward(width, stream, d', s', m, dest, src, len, done + moved);
        d', s', i, moved := d' + width, s' + width, i + 1, moved + width;
      }
    }

    /** Copies one unit upwards. */
    method UnitForward(width: nat, stream: bool, d: nat, s: nat,
                       ghost m: seq<byte>, ghost dest: nat, ghost src: nat, ghost len: nat, ghost done: nat)
      requires Ahead(m, dest, src, len, done) && d == dest + done && s == src + done
      requires done + width <= len
      requires stream ==> Aligned(Store(d, width, true))
      modifies mem, this`stores
      ensures Ahead(m, dest, src, len, done + width)
    {
      hide Splice, Moved, Aligned, AllAligned;
      ForwardUnit(m, dest, src, done, width);
      StoresStayAligned(stores, Store(d, width, stream));
      var v := Load(s, width);
      assert v == Moved(m, dest, src, done)[src + done..src + done + width];
      Put(d, v, stream);
    }

    /** Copies `cnt` chunks upwards: each is eight loads and then eight stores of sixteen bytes. */
    method ChunksForward(cnt: nat, d: nat, s: nat,
                         ghost m: seq<byte>, ghost dest: nat, ghost src: nat, ghost len: nat, ghost done: nat)
      requires Ahead(m, dest, src, len, done) && d == dest + done && s == src + done
      requires done + cnt * CHUNK_SIZE <= len
      requires cnt > 0 ==> d % MOVNT_SIZE == 0
      modifies mem, this`stores
      ensures Ahead(m, dest, src, len, done + cnt * CHUNK_SIZE)
    {
      hide Splice, Moved, Ahead;
      var d', s', i := d, s, 0;
      while i < cnt
        invariant 0 <= i <= cnt && d' == d + i * CHUNK_SIZE && s' == s + i * CHUNK_SIZE
        invariant i < cnt ==> d' % MOVNT_SIZE == 0
        invariant Ahead(m, dest, src, len, done + i * CHUNK_SIZE)
      {
        ChunkForward(d', s', m, dest, src, len, done + i * CHUNK_SIZE);
        d', s', i := d' + CHUNK_SIZE, s' + CHUNK_SIZE, i + 1;
      }
    }

    /** One chunk upwards. */
    method ChunkForward(d: nat, s: nat,
                        ghost m: seq<byte>, ghost dest: nat, ghost src: nat, ghost len: nat, ghost done: nat)
      requires Ahead(m, dest, src, len, done) && d == dest + done && s == src + done
      requires done + CHUNK_SIZE <= len && d % MOVNT_SIZE == 0
      modifies mem, this`stores
      ensures Ahead(m, dest, src, len, done + CHUNK_SIZE)
    {
      ForwardUnit(m, dest, src, done, CHUNK_SIZE);
      hide Splice, Moved, AllAligned;
      var regs := LoadEight(s);
      assert mem[s..s + CHUNK_SIZE] == Moved(m, dest, src, done)[src + done..src + done + CHUNK_SIZE];
      StoreEightUp(d, regs, mem[s..s + CHUNK_SIZE]);
    }

    /** The registers hold these 128 bytes. */
    ghost predicate Holds(regs: seq<seq<byte>>, block: seq<byte>) {
      && |regs| == 8 && |block| == CHUNK_SIZE
      && forall j :: 0 <= j < 8 ==> regs[j] == block[j * MOVNT_SIZE..(j + 1) * MOVNT_SIZE]
    }

    method StoreEightUp(d: nat, regs: seq<seq<byte>>, ghost block: seq<byte>)
      requires d + CHUNK_SIZE <= mem.Length && d % MOVNT_SIZE == 0 && Holds(regs, block) && AllAligned(stores)
      modifies mem, this`stores
      ensures mem[..] == Splice(old(mem[..]), d, block) && AllAligned(stores)
    {
      hide Splice, AllAligned, Holds;
      ghost var before := mem[..];
      SpliceNothing(before, d);
      BlockParts(regs, block);
      var j := 0;
      while j < 8
        invariant j <= 8 && |before| == mem.Length
        invariant mem[..] == Splice(before, d, Up(block, j))
        invariant AllAligned(stores)
      {
        BlockPart(regs, block, j);
        StoresStayAligned(stores, Store(d + j * MOVNT_SIZE, MOVNT_SIZE, true));
        SpliceAbove(before, d, Up(block, j), regs[j]);
        hide Up, Down;
        Put(d + j * MOVNT_SIZE, regs[j], true);
        j := j + 1;
      }
    }

    method StoreEightDown(d: nat, regs: seq<seq<byte>>, ghost block: seq<byte>)
      requires d + CHUNK_SIZE <= mem.Length && d % MOVNT_SIZE == 0 && Holds(regs, block) && AllAligned(stores)
      modifies mem, this`stores
      ensures mem[..] == Splice(old(mem[..]), d, block) && AllAligned(stores)
    {
      hide Splice, AllAligned, Holds;
      ghost var before := mem[..];
      SpliceNothing(before, d + CHUNK_SIZE);
      BlockParts(regs, block);
      var j := 8;
      while j > 0
        invariant 0 <= j <= 8 && |before| == mem.Length
        invariant mem[..] == Splice(before, d + j * MOVNT_SIZE, Down(block, j))
        invariant AllAligned(stores)
      {
        j := j - 1;
        BlockPart(regs, block, j);
        StoresStayAligned(stores, Store(d + j * MOVNT_SIZE, MOVNT_SIZE, true));
        SpliceBelow(before, d + j * MOVNT_SIZE, regs[j], Down(block, j + 1));
        hide Up, Down;
        Put(d + j * MOVNT_SIZE, regs[j], true);
      }
    }

    /** The first j pieces of a block. */
    ghost function Up(block: seq<byte>, j: nat): (r: seq<byte>)
      requires |block| == CHUNK_SIZE && j <= 8
      ensures |r| == j * MOVNT_SIZE
    {
      block[..j * MOVNT_SIZE]
    }

    /** All but the first j pieces. */
    ghost function Down(block: seq<byte>, j: nat): (r: seq<byte>)
      requires |block| == CHUNK_SIZE && j <= 8
      ensures |r| == CHUNK_SIZE - j * MOVNT_SIZE
    {
      block[j * MOVNT_SIZE..]
    }

    lemma BlockParts(regs: seq<seq<byte>>, block: seq<byte>)
      requires Holds(regs, block)
      ensures |regs| == 8 && |block| == CHUNK_SIZE
      ensures Up(block, 0) == [] && Up(block, 8) == block && Down(block, 8) == [] && Down(block, 0) == block
    {
    }

    lemma BlockPart(regs: seq<seq<byte>>, block: seq<byte>, j: nat)
      requires Holds(regs, block) && j < 8
      ensures |regs| == 8 && |block| == CHUNK_SIZE && |regs[j]| == MOVNT_SIZE
      ensures Up(block, j) + regs[j] == Up(block, j + 1) && regs[j] + Down(block, j + 1) == Down(block, j)
    {
    }

    /** Eight sixteen-byte loads, before anything is stored. */
    method LoadEight(s: nat) returns (regs: seq<seq<byte>>)
      requires s + CHUNK_SIZE <= mem.Length
      ensures Holds(regs, mem[s..s + CHUNK_SIZE])
    {
      var a := Load(s, MOVNT_SIZE);
      var b := Load(s + 16, MOVNT_SIZE);
      var c := Load(s + 32, MOVNT_SIZE);
      var d := Load(s + 48, MOVNT_SIZE);
      var e := Load(s + 64, MOVNT_SIZE);
      var f := Load(s + 80, MOVNT_SIZE);
      var g := Load(s + 96, MOVNT_SIZE);
      var h := Load(s + 112, MOVNT_SIZE);
      regs := [a, b, c, d, e, f, g, h];
      assert mem[s..s + CHUNK_SIZE] == mem[..][s..s + CHUNK_SIZE];
      EightPieces(mem[..], s, regs);
    }

    /** Where a downward copy stands: all but the lowest `left` bytes have been copied. */
    ghost predicate Behind(m: seq<byte>, dest: nat, src: nat, len: nat, left: nat)
      reads this, mem
    {
      && left <= len && dest + len <= |m| == mem.Length && src + len <= |m|
      && src < dest
      && mem[..] == Moved(m, dest + left, src + left, len - left)
      && AllAligned(stores)
    }

    /** Copies `cnt` units of one width downwards from where the copy stands. */
    method UnitsBackward(width: nat, cnt: nat, stream: bool, d: nat, s: nat,
                         ghost m: seq<byte>, ghost dest: nat, ghost src: nat, ghost len: nat, ghost left: nat)
      requires Behind(m, dest, src, len, left) && d == dest + left && s == src + left
      requires width > 0 && Times(cnt, width) <= left
      requires stream && cnt > 0 ==> Aligned(Store(d, width, true))
      modifies mem, this`stores
      ensures Behind(m, dest, src, len, left - Times(cnt, width))
    {
      hide Splice, Moved, Behind, Times, Aligned;
      var d', s', i := d, s, 0;
      ghost var moved: nat := 0;
      TimesZero(width);
      while i < cnt
        invariant 0 <= i <= cnt && moved <= left && d' == d - moved && s' == s - moved
        invariant moved == Times(i, width) <= Times(cnt, width)
        invariant stream && i < cnt ==> Aligned(Store(d', width, true))
        invariant Behind(m, dest, src, len, left - moved)
      {
        TimesNext(i, cnt, width);
        BelowIsAligned(d', width);
        d', s', i, moved := d' - width, s' - width, i + 1, moved + width;
        UnitBackward(width, stream, d', s', m, dest, src, len, left - moved);
      }
    }

    /** Copies one unit downwards, to just below what has been copied. */
    method UnitBackward(width: nat, stream: bool, d: nat, s: nat,
                        ghost m: seq<byte>, ghost dest: nat, ghost src: nat, ghost len: nat, ghost rest: nat)
      requires Behind(m, dest, src, len, rest + width) && d == dest + rest && s == src + rest
      requires stream ==> Aligned(Store(d, width, true))
      modifies mem, this`stores
      ensures Behind(m, dest, src, len, rest)
    {
      hide Splice, Moved, Aligned, AllAligned;
      BackwardUnit(m, dest, src, rest, len, width);
      StoresStayAligned(stores, Store(d, width, stream));
      var v := Load(s, width);
      assert v == Moved(m, dest + rest + width, src + rest + width, len - rest - width)[src + rest..src + rest + width];
      Put(d, v, stream);
    }

    method ChunksBackward(cnt: nat, d: nat, s: nat,
                          ghost m: seq<byte>, ghost dest: nat, ghost src: nat, ghost len: nat, ghost left: nat)
      requires Behind(m, dest, src, len, left) && d == dest + left && s == src + left
      requires cnt * CHUNK_SIZE <= left
      requires cnt > 0 ==> d % MOVNT_SIZE == 0
      modifies mem, this`stores
      ensures Behind(m, dest, src, len, left - cnt * CHUNK_SIZE)
    {
      hide Splice, Moved, Behind;
      var d', s', i := d, s, 0;
      while i < cnt
        invariant 0 <= i <= cnt && d' == d - i * CHUNK_SIZE && s' == s - i * CHUNK_SIZE
        invariant i < cnt ==> d' % MOVNT_SIZE == 0
        invariant Behind(m, dest, src, len, left - i * CHUNK_SIZE)
      {
        ChunkBackward(d', s', m, dest, src, len, left - i * CHUNK_SIZE);
        d', s', i := d' - CHUNK_SIZE, s' - CHUNK_SIZE, i + 1;
      }
    }

    /** One chunk downwards: the eight loads again come before the eight stores. */
    method ChunkBackward(d: nat, s: nat,
                         ghost m: seq<byte>, ghost dest: nat, ghost src: nat, ghost len: nat, ghost left: nat)
      requires Behind(m, dest, src, len, left) && d == dest + left && s == src + left
      requires CHUNK_SIZE <= left && d % MOVNT_SIZE == 0
      modifies mem, this`stores
      ensures Behind(m, dest, src, len, left - CHUNK_SIZE)
    {
      hide Behind, Splice, Moved, AllAligned, Holds;
      BehindChunk(m, dest, src, len, left);
      var regs := LoadEight(s - CHUNK_SIZE);
      StoreEightDown(d - CHUNK_SIZE, regs, mem[s - CHUNK_SIZE..s]);
      ChunkIsBehind(m, dest, src, len, left - CHUNK_SIZE);
    }

    lemma BehindChunk(m: seq<byte>, dest: nat, src: nat, len: nat, left: nat)
      requires Behind(m, dest, src, len, left) && CHUNK_SIZE <= left
      ensures dest + left <= mem.Length && src + left <= mem.Length && AllAligned(stores) && left <= len
      ensures var rest := left - CHUNK_SIZE;
              && |m| == mem.Length && src < dest && dest + len <= |m| && src + len <= |m|
              && Splice(mem[..], dest + rest, mem[src + rest..src + left]) == Moved(m, dest + rest, src + rest, len - rest)
    {
      BackwardUnit(m, dest, src, left - CHUNK_SIZE, len, CHUNK_SIZE);
      assert mem[src + (left - CHUNK_SIZE)..src + left] == mem[..][src + (left - CHUNK_SIZE)..src + left];
    }

    lemma ChunkIsBehind(m: seq<byte>, dest: nat, src: nat, len: nat, rest: nat)
      requires rest <= len && |m| == mem.Length && src < dest && dest + len <= |m| && src + len <= |m|
      requires mem[..] == Moved(m, dest + rest, src + rest, len - rest) && AllAligned(stores)
      ensures Behind(m, dest, src, len, rest)
    {
    }

    /** Less than a chunk upwards: sixteen-byte units, then dwords, then bytes. */
    method TailForward(d: nat, s: nat, rest: nat, ghost m: seq<byte>, ghost dest: nat, ghost src: nat, ghost len: nat)
      requires rest <= len && Ahead(m, dest, src, len, len - rest) && d == dest + (len - rest) && s == src + (len - rest)
      requires rest > 0 ==> d % MOVNT_SIZE == 0
      modifies mem, this`stores
      ensures Ahead(m, dest, src, len, len)
    {
      hide *;
      TailParts(d, rest);
      var quads, rest1 := Units(rest, MOVNT_SIZE), Over(rest, MOVNT_SIZE);
      UnitsForward(MOVNT_SIZE, quads, true, d, s, m, dest, src, len, len - rest);
      var d1, s1 := d + Times(quads, MOVNT_SIZE), s + Times(quads, MOVNT_SIZE);
      var dwords, rest2 := Units(rest1, DWORD_SIZE), Over(rest1, DWORD_SIZE);
      UnitsForward(DWORD_SIZE, dwords, true, d1, s1, m, dest, src, len, len - rest1);
      var d2, s2 := d1 + Times(dwords, DWORD_SIZE), s1 + Times(dwords, DWORD_SIZE);
      TimesOne(rest2);
      UnitsForward(1, rest2, false, d2, s2, m, dest, src, len, len - rest2);
    }

    /** From a cache line boundary upwards: chunks, then the tail. */
    method LineForward(d: nat, s: nat, rest: nat, ghost m: seq<byte>, ghost dest: nat, ghost src: nat, ghost len: nat)
      requires rest <= len && Ahead(m, dest, src, len, len - rest) && d == dest + (len - rest) && s == src + (len - rest)
      requires rest > 0 ==> d % FLUSH_ALIGN == 0
      modifies mem, this`stores
      ensures Ahead(m, dest, src, len, len)
    {
      hide Ahead, Moved, Splice, AllAligned;
      var cnt := rest / CHUNK_SIZE;
      LineAligned(d, cnt);
      ChunksForward(cnt, d, s, m, dest, src, len, len - rest);
      TailForward(d + cnt * CHUNK_SIZE, s + cnt * CHUNK_SIZE, rest % CHUNK_SIZE, m, dest, src, len);
    }

    /** The upward copy: to a cache line, then chunks, sixteen-byte units, dwords and bytes. */
    method MoveForward(dest: nat, src: nat, len: nat)
      requires dest + len <= mem.Length && src + len <= mem.Length && (dest <= src || dest >= src + len)
      requires AllAligned(stores)
      modifies mem, this`stores
      ensures mem[..] == Moved(old(mem[..]), dest, src, len) && AllAligned(stores)
    {
      hide *;
      ghost var m := mem[..];
      var d, s, rest := dest, src, len;
      NothingAhead(dest, src, len);
      var cnt := BytesToLine(d, rest);
      if cnt > 0 {
        TimesOne(cnt);
        UnitsForward(1, cnt, false, d, s, m, dest, src, len, 0);
        d, s, rest := d + cnt, s + cnt, rest - cnt;
      }
      LineForward(d, s, rest, m, dest, src, len);
      AheadIsDone(m, dest, src, len);
    }

    /** Less than a chunk downwards. */
    method TailBackward(d: nat, s: nat, rest: nat, ghost m: seq<byte>, ghost dest: nat, ghost src: nat, ghost len: nat)
      requires Behind(m, dest, src, len, rest) && d == dest + rest && s == src + rest
      requires rest > 0 ==> d % MOVNT_SIZE == 0
      modifies mem, this`stores
      ensures Behind(m, dest, src, len, 0)
    {
      hide *;
      TailPartsDown(d, rest);
      var quads, rest1 := Units(rest, MOVNT_SIZE), Over(rest, MOVNT_SIZE);
      UnitsBackward(MOVNT_SIZE, quads, true, d, s, m, dest, src, len, rest);
      var d1, s1 := d - Times(quads, MOVNT_SIZE), s - Times(quads, MOVNT_SIZE);
      var dwords, rest2 := Units(rest1, DWORD_SIZE), Over(rest1, DWORD_SIZE);
      UnitsBackward(DWORD_SIZE, dwords, true, d1, s1, m, dest, src, len, rest1);
      var d2, s2 := d1 - Times(dwords, DWORD_SIZE), s1 - Times(dwords, DWORD_SIZE);
      TimesOne(rest2);
      UnitsBackward(1, rest2, false, d2, s2, m, dest, src, len, rest2);
    }

    /** From a cache line boundary downwards. */
    method LineBackward(d: nat, s: nat, rest: nat, ghost m: seq<byte>, ghost dest: nat, ghost src: nat, ghost len: nat)
      requires Behind(m, dest, src, len, rest) && d == dest + rest && s == src + rest
      requires rest > 0 ==> d % FLUSH_ALIGN == 0
      modifies mem, this`stores
      ensures Behind(m, dest, src, len, 0)
    {
      hide Behind, Moved, Splice, AllAligned;
      var cnt := rest / CHUNK_SIZE;
      LineAligned(d - cnt * CHUNK_SIZE, cnt);
      ChunksBackward(cnt, d, s, m, dest, src, len, rest);
      TailBackward(d - cnt * CHUNK_SIZE, s - cnt * CHUNK_SIZE, rest % CHUNK_SIZE, m, dest, src, len);
    }

    /** The downward copy, from the high end, in the same sequence of unit sizes. */
    method MoveBackward(dest: nat, src: nat, len: nat)
      requires dest + len <= mem.Length && src + len <= mem.Length && src < dest
      requires AllAligned(stores)
      modifies mem, this`stores
      ensures mem[..] == Moved(old(mem[..]), dest, src, len) && AllAligned(stores)
    {
      hide *;
      ghost var m := mem[..];
      var d, s, rest := dest + len, src + len, len;
      NothingBehind(dest, src, len);
      var cnt := BytesPastLine(d, rest);
      if cnt > 0 {
        TimesOne(cnt);
        UnitsBackward(1, cnt, false, d, s, m, dest, src, len, rest);
        d, s, rest := d - cnt, s - cnt, rest - cnt;
      }
      LineBackward(d, s, rest, m, dest, src, len);
      BehindIsDone(m, dest, src, len);
    }

    lemma NothingAhead(dest: nat, src: nat, len: nat)
      requires dest + len <= mem.Length && src + len <= mem.Length && (dest <= src || dest >= src + len)
      requires AllAligned(stores)
      ensures Ahead(mem[..], dest, src, len, 0)
    {
      SpliceNothing(mem[..], dest);
    }

    lemma NothingBehind(dest: nat, src: nat, len: nat)
      requires dest + len <= mem.Length && src + len <= mem.Length && src < dest
      requires AllAligned(stores)
      ensures Behind(mem[..], dest, src, len, len)
    {
      SpliceNothing(mem[..], dest + len);
    }

    lemma AheadIsDone(m: seq<byte>, dest: nat, src: nat, len: nat)
      requires Ahead(m, dest, src, len, len)
      ensures dest + len <= |m| && src + len <= |m| && mem[..] == Moved(m, dest, src, len) && AllAligned(stores)
    {
    }

    lemma BehindIsDone(m: seq<byte>, dest: nat, src: nat, len: nat)
      requires Behind(m, dest, src, len, 0)
      ensures dest + len <= |m| && src + len <= |m| && mem[..] == Moved(m, dest, src, len) && AllAligned(stores)
    {
    }

    /**
     The move: whatever the overlap, the destination ends up with the original source bytes, nothing
     else changes, and no streamed store is misaligned. The address difference wraps at 2^64.
     */
    method MemmoveMovnt(dest: nat, src: nat, len: nat) returns (result: Result)
      requires dest + len <= mem.Length && src + len <= mem.Length && mem.Length <= ADDRESS_LIMIT
      requires AllAligned(stores)
      modifies mem, this`stores
      ensures mem[..] == Moved(old(mem[..]), dest, src, len)
      ensures AllAligned(stores)
      ensures result == if len == 0 then Null else Address(dest)
    {
      if len == 0 {
        SpliceNothing(mem[..], dest);
        return Null;
      }
      if src == dest {
        assert Moved(mem[..], dest, src, len) == mem[..];
        return Address(dest);
      }
      if (dest - src) % ADDRESS_LIMIT >= len {
        MoveForward(dest, src, len);
      } else {
        MoveBackward(dest, src, len);
      }
      return Address(dest);
    }
  }

  datatype Result = Null | Address(addr: nat)

  lemma EightPieces(m: seq<byte>, s: nat, regs: seq<seq<byte>>)
    requires s + CHUNK_SIZE <= |m| && |regs| == 8
    requires regs[0] == m[s..s + 16] && regs[1] == m[s + 16..s + 32] && regs[2] == m[s + 32..s + 48]
    requires regs[3] == m[s + 48..s + 64] && regs[4] == m[s + 64..s + 80] && regs[5] == m[s + 80..s + 96]
    requires regs[6] == m[s + 96..s + 112] && regs[7] == m[s + 112..s + 128]
    ensures forall j :: 0 <= j < 8 ==> regs[j] == m[s..s + CHUNK_SIZE][j * MOVNT_SIZE..(j + 1) * MOVNT_SIZE]
  {
    forall j | 0 <= j < 8 ensures regs[j] == m[s..s + CHUNK_SIZE][j * MOVNT_SIZE..(j + 1) * MOVNT_SIZE] {
      assert regs[j] == m[s + 16 * j..s + 16 * j + 16];
      Piece(m, s, 16 * j);
    }
  }

  lemma Piece(m: seq<byte>, s: nat, at: nat)
    requires s + CHUNK_SIZE <= |m| && at + 16 <= CHUNK_SIZE
    ensures m[s..s + CHUNK_SIZE][at..at + 16] == m[s + at..s + at + 16]
  {
    var a, b := m[s..s + CHUNK_SIZE][at..at + 16], m[s + at..s + at + 16];
    forall i | 0 <= i < 16 ensures a[i] == b[i] {
      assert a[i] == m[s..s + CHUNK_SIZE][at + i] == m[s + (at + i)];
    }
  }

  /** Whole chunks from a cache line boundary keep sixteen-byte alignment. */
  lemma LineAligned(d: int, cnt: nat)
    ensures d % FLUSH_ALIGN == 0 ==> d % MOVNT_SIZE == 0 && (d + cnt * CHUNK_SIZE) % MOVNT_SIZE == 0
    ensures (d + cnt * CHUNK_SIZE) % FLUSH_ALIGN == 0 ==> d % MOVNT_SIZE == 0 && (d + cnt * CHUNK_SIZE) % MOVNT_SIZE == 0
  {
    var e := d + cnt * CHUNK_SIZE;
    if d % FLUSH_ALIGN == 0 {
      var k := d / FLUSH_ALIGN;
      Sixteens(4 * k);
      Sixteens(4 * k + 8 * cnt);
    }
    if e % FLUSH_ALIGN == 0 {
      var k := e / FLUSH_ALIGN;
      Sixteens(4 * k);
      Sixteens(4 * k - 8 * cnt);
    }
  }

  /** The bytes of so many units, the units in so many bytes, and the bytes left over. */
  function Times(i: nat, width: nat): nat {
    i * width
  }

  function Units(rest: nat, width: nat): nat
    requires width > 0
  {
    rest / width
  }

  function Over(rest: nat, width: nat): nat
    requires width > 0
  {
    rest % width
  }

  lemma TimesOne(i: nat)
    ensures Times(i, 1) == i
  {
  }

  lemma TimesZero(width: nat)
    ensures Times(0, width) == 0
  {
  }

  lemma TimesNext(i: nat, cnt: nat, width: nat)
    requires i < cnt
    ensures Times(i + 1, width) == Times(i, width) + width <= Times(cnt, width)
  {
    MulLe(i + 1, cnt, width);
  }

  /** How a tail divides, and that its streaming parts are aligned going up, */
  lemma TailParts(d: nat, rest: nat)
    requires rest > 0 ==> d % MOVNT_SIZE == 0
    ensures MOVNT_SIZE > 0 && DWORD_SIZE > 0
    ensures var rest1 := Over(rest, MOVNT_SIZE);
            && Times(Units(rest, MOVNT_SIZE), MOVNT_SIZE) + rest1 == rest
            && Times(Units(rest1, DWORD_SIZE), DWORD_SIZE) + Over(rest1, DWORD_SIZE) == rest1
            && (Units(rest, MOVNT_SIZE) > 0 ==> Aligned(Store(d, MOVNT_SIZE, true)))
            && (Units(rest1, DWORD_SIZE) > 0 ==> Aligned(Store(d + Times(Units(rest, MOVNT_SIZE), MOVNT_SIZE), DWORD_SIZE, true)))
  {
    if rest > 0 {
      FourApart(d, rest / 16);
    }
  }

  /** or down. */
  lemma TailPartsDown(d: nat, rest: nat)
    requires rest <= d && (rest > 0 ==> d % MOVNT_SIZE == 0)
    ensures MOVNT_SIZE > 0 && DWORD_SIZE > 0
    ensures var rest1 := Over(rest, MOVNT_SIZE);
            && Times(Units(rest, MOVNT_SIZE), MOVNT_SIZE) + rest1 == rest
            && Times(Units(rest1, DWORD_SIZE), DWORD_SIZE) + Over(rest1, DWORD_SIZE) == rest1
            && (Units(rest, MOVNT_SIZE) > 0 ==> Aligned(Store(d, MOVNT_SIZE, true)))
            && (Units(rest1, DWORD_SIZE) > 0 ==> Aligned(Store(d - Times(Units(rest, MOVNT_SIZE), MOVNT_SIZE), DWORD_SIZE, true)))
  {
    if rest > 0 {
      FourApart(d, -(rest / 16));
    }
  }

  lemma FourApart(d: int, q: int)
    requires d % 16 == 0
    ensures (d + q * 16) % 4 == 0
  {
    assert d + q * 16 == 4 * (4 * (d / 16 + q));
  }

  lemma Sixteens(q: int)
    ensures (16 * q) % 16 == 0
  {
  }

  lemma SpliceNothing(m: seq<byte>, d: nat)
    requires d <= |m|
    ensures Splice(m, d, []) == m
  {
  }

  lemma SpliceAbove(m: seq<byte>, d: nat, a: seq<byte>, b: seq<byte>)
    requires d + |a| + |b| <= |m|
    ensures Splice(Splice(m, d, a), d + |a|, b) == Splice(m, d, a + b)
  {
  }

  lemma SpliceBelow(m: seq<byte>, d: nat, b: seq<byte>, a: seq<byte>)
    requires d + |b| + |a| <= |m|
    ensures Splice(Splice(m, d + |b|, a), d, b) == Splice(m, d, b + a)
  {
  }

  lemma AboveIsAligned(d: nat, width: nat)
    ensures Aligned(Store(d, width, true)) ==> Aligned(Store(d + width, width, true))
  {
  }

  lemma BelowIsAligned(d: nat, width: nat)
    requires width <= d
    ensures Aligned(Store(d, width, true)) ==> Aligned(Store(d - width, width, true))
  {
  }

  lemma StoresStayAligned(stores: seq<Store>, s: Store)
    requires AllAligned(stores) && Aligned(s)
    ensures AllAligned(stores + [s])
  {
  }
}
