/**
 Free address ranges kept for reuse: extents indexed both by size and by address, coalesced when freed
 and split when taken.
 */
module ChunkExtents {
  import opened Common

  const CHUNK: nat := 0x40_0000
  const U64: nat := 0x1_0000_0000_0000_0000

  /** A free range; the same node sits in both indexes. */
  class Node {
    var addr: nat
    var size: nat
    var zeroed: bool

    constructor ()
    {
    }
  }

  predicate Aligned(a: nat, alignment: nat)
    requires alignment > 0
  {
    a % alignment == 0
  }

  /** Rounding up gains less than the alignment, and a whole number of chunks less when all are chunk multiples. */
  lemma ChunkCeiling(a: nat, k: nat)
    requires k > 0 && Aligned(a, CHUNK)
    ensures var c := Ceiling(a, k * CHUNK);
            && a <= c <= a + k * CHUNK - CHUNK && Aligned(c, k * CHUNK) && Aligned(c, CHUNK)
  {
    var t := a / CHUNK;
    var q := (t + k - 1) / k;
    var r := (t + k - 1) % k;
    assert t + k - 1 == q * k + r;
    var al := k * CHUNK;
    var lift := r * CHUNK + CHUNK - 1;
    assert a + al - 1 == q * al + lift;
    DivUnique(a + al - 1, al, q, lift);
    assert Ceiling(a, al) == q * al;
    MultipleMod(q, al);
    assert q * al == q * k * CHUNK;
    MultipleMod(q * k, CHUNK);
  }

  // ----- Extents as values -----

  datatype Extent = Extent(addr: nat, size: nat, zeroed: bool)

  /** The indexed nodes with what they hold. */
  type Extents = map<Node, Extent>

  ghost predicate Sound(x: Extent) {
    0 < x.addr && 0 < x.size && Aligned(x.addr, CHUNK) && Aligned(x.size, CHUNK) && x.addr + x.size < U64
  }

  predicate Within(a: nat, lo: nat, size: nat) {
    lo <= a < lo + size
  }

  /** Only zero bytes lie in an extent marked zeroed. */
  ghost predicate Honest(x: Extent, zeros: iset<nat>) {
    x.zeroed ==> AllZero(x.addr, x.size, zeros)
  }

  ghost predicate AllZero(lo: nat, size: nat, zeros: iset<nat>) {
    forall a: nat :: Within(a, lo, size) ==> a in zeros
  }

  /** Two extents neither overlap nor touch. */
  ghost predicate Apart(x: Extent, y: Extent) {
    x.addr + x.size < y.addr || y.addr + y.size < x.addr
  }

  ghost predicate Meets(x: Extent, y: Extent) {
    x.addr + x.size == y.addr
  }

  ghost predicate Kept(e: Extents, zeros: iset<nat>) {
    && (forall n :: n in e ==> Sound(e[n]) && Honest(e[n], zeros))
    && (forall n, m :: n in e && m in e && n != m ==> Apart(e[n], e[m]))
  }

  /** The same, but the extent of `node` may touch the one before it. */
  ghost predicate KeptBut(e: Extents, zeros: iset<nat>, node: Node) {
    && node in e
    && (forall n :: n in e ==> Sound(e[n]) && Honest(e[n], zeros))
    && (forall n, m :: n in e && m in e && n != m ==>
          Apart(e[n], e[m]) || (n == node && Meets(e[m], e[n])) || (m == node && Meets(e[n], e[m])))
  }

  ghost predicate Free(e: Extents, a: nat) {
    exists n :: n in e && Within(a, e[n].addr, e[n].size)
  }

  ghost predicate RangeTaken(e: Extents, lo: nat, size: nat) {
    forall a: nat :: Within(a, lo, size) ==> !Free(e, a)
  }

  // ----- Marks -----

  /** The address lies in an extent marked zeroed. */
  ghost predicate Marked(e: Extents, a: nat) {
    exists n :: n in e && e[n].zeroed && Within(a, e[n].addr, e[n].size)
  }

  ghost predicate Touches(x: Extent, lo: nat, size: nat) {
    x.addr + x.size == lo || lo + size == x.addr
  }

  /** The address lies in the range or in an extent that touches it. */
  ghost predicate Near(e: Extents, lo: nat, size: nat, a: nat) {
    Within(a, lo, size) || exists n :: n in e && Touches(e[n], lo, size) && Within(a, e[n].addr, e[n].size)
  }

  /** The range and all extents that touch it are zeroed. */
  ghost predicate ZeroAround(e: Extents, lo: nat, size: nat, zeroed: bool) {
    zeroed && forall n :: n in e && Touches(e[n], lo, size) ==> e[n].zeroed
  }

  /** The range has been joined with all it touches, marked zeroed exactly if all of that is; other marks stay. */
  ghost predicate MarksJoined(e: Extents, g: Extents, lo: nat, size: nat, zeroed: bool) {
    forall a: nat :: Marked(g, a) <==> if Near(e, lo, size, a) then ZeroAround(e, lo, size, zeroed) else Marked(e, a)
  }

  /** All marks stay but for this range. */
  ghost predicate MarksBut(e: Extents, g: Extents, lo: nat, size: nat) {
    forall a: nat :: Marked(g, a) <==> Marked(e, a) && !Within(a, lo, size)
  }

  /** Joining what the range was added to with what lies before it joins the range with all it touches. */
  lemma AddedMarks(e: Extents, zeros: iset<nat>, node: Node, lo: nat, size: nat, zeroed: bool, f: Extents)
    requires Kept(e, zeros) && RangeTaken(e, lo, size) && size > 0
    requires if node in e then e[node].addr == lo + size else forall n :: n in e ==> e[n].addr != lo + size
    requires var x := Added(e, node, lo, size, zeroed)[node];
             MarksJoined(e - {node}, f, x.addr, x.size, x.zeroed)
    ensures MarksJoined(e, f, lo, size, zeroed)
  {
    var x, r := Added(e, node, lo, size, zeroed)[node], e - {node};
    forall n | n in r ensures Touches(e[n], lo, size) == Touches(r[n], x.addr, x.size) {
      TakenAside(e, zeros, lo, size, n);
    }
    assert node in e ==> Touches(e[node], lo, size);
    assert ZeroAround(e, lo, size, zeroed) == ZeroAround(r, x.addr, x.size, x.zeroed);
    forall a: nat ensures Near(e, lo, size, a) == Near(r, x.addr, x.size, a) && (!Near(e, lo, size, a) ==> Marked(e, a) == Marked(r, a)) {
      NearAdded(e, node, lo, size, zeroed, a);
    }
    hide Near, ZeroAround, Marked, Kept;
  }

  lemma NearAdded(e: Extents, node: Node, lo: nat, size: nat, zeroed: bool, a: nat)
    requires node in e ==> e[node].addr == lo + size
    requires var x := Added(e, node, lo, size, zeroed)[node];
             forall n :: n in e && n != node ==> Touches(e[n], lo, size) == Touches(e[n], x.addr, x.size)
    ensures var x, r := Added(e, node, lo, size, zeroed)[node], e - {node};
            Near(e, lo, size, a) == Near(r, x.addr, x.size, a) && (!Near(e, lo, size, a) ==> Marked(e, a) == Marked(r, a))
  {
    var x, r := Added(e, node, lo, size, zeroed)[node], e - {node};
    if Near(e, lo, size, a) && !Within(a, x.addr, x.size) {
      var n: Node :| n in e && Touches(e[n], lo, size) && Within(a, e[n].addr, e[n].size);
      assert n in r && Within(a, r[n].addr, r[n].size);
    }
    if Near(r, x.addr, x.size, a) && !Within(a, lo, size) {
      if Within(a, x.addr, x.size) {
        assert Touches(e[node], lo, size) && Within(a, e[node].addr, e[node].size);
      } else {
        var n: Node :| n in r && Touches(r[n], x.addr, x.size) && Within(a, r[n].addr, r[n].size);
        assert Touches(e[n], lo, size) && Within(a, e[n].addr, e[n].size);
      }
    }
    if !Near(e, lo, size, a) && Marked(e, a) {
      var n: Node :| n in e && e[n].zeroed && Within(a, e[n].addr, e[n].size);
      assert n in r && r[n].zeroed && Within(a, r[n].addr, r[n].size);
    }
    if Marked(r, a) {
      var n: Node :| n in r && r[n].zeroed && Within(a, r[n].addr, r[n].size);
      assert e[n].zeroed && Within(a, e[n].addr, e[n].size);
    }
  }

  lemma JoinedMarks(e: Extents, zeros: iset<nat>, prev: Node, node: Node)
    requires KeptBut(e, zeros, node) && prev in e && prev != node && Meets(e[prev], e[node])
    ensures MarksJoined(e - {node}, Joined(e, prev, node), e[node].addr, e[node].size, e[node].zeroed)
  {
    var g, r, x := Joined(e, prev, node), e - {node}, e[node];
    forall n | n in r ensures Touches(r[n], x.addr, x.size) <==> n == prev {
      assert n != prev ==> Apart(e[n], e[prev]);
    }
    OneToucher(r, x.addr, x.size, x.zeroed, prev);
    forall a: nat ensures Marked(g, a) <==> if Near(r, x.addr, x.size, a) then g[node].zeroed else Marked(r, a) {
      JoinedMark(e, zeros, prev, node, a);
    }
    hide Near, ZeroAround, Marked, KeptBut, Sound, Honest;
  }

  lemma OneToucher(r: Extents, lo: nat, size: nat, zeroed: bool, prev: Node)
    requires prev in r && forall n :: n in r ==> (Touches(r[n], lo, size) <==> n == prev)
    ensures ZeroAround(r, lo, size, zeroed) == (zeroed && r[prev].zeroed)
  {
  }

  lemma JoinedMark(e: Extents, zeros: iset<nat>, prev: Node, node: Node, a: nat)
    requires KeptBut(e, zeros, node) && prev in e && prev != node && Meets(e[prev], e[node])
    requires forall n :: n in e && n != node ==> (Touches(e[n], e[node].addr, e[node].size) <==> n == prev)
    ensures var g, r, x := Joined(e, prev, node), e - {node}, e[node];
            Marked(g, a) <==> if Near(r, x.addr, x.size, a) then g[node].zeroed else Marked(r, a)
  {
    var g, r, x := Joined(e, prev, node), e - {node}, e[node];
    assert Near(r, x.addr, x.size, a) <==> Within(a, g[node].addr, g[node].size) by {
      if Near(r, x.addr, x.size, a) && !Within(a, x.addr, x.size) {
        var n: Node :| n in r && Touches(r[n], x.addr, x.size) && Within(a, r[n].addr, r[n].size);
        assert n == prev;
      }
      assert prev in r && Touches(r[prev], x.addr, x.size);
    }
    if Marked(g, a) {
      var n: Node :| n in g && g[n].zeroed && Within(a, g[n].addr, g[n].size);
      if n != node {
        assert n in r && r[n].zeroed && Within(a, r[n].addr, r[n].size);
        assert Apart(e[n], e[prev]) && (Apart(e[n], e[node]) || Meets(e[n], e[node]));
      }
    }
    if Marked(r, a) && !Near(r, x.addr, x.size, a) {
      var n: Node :| n in r && r[n].zeroed && Within(a, r[n].addr, r[n].size);
      assert n != prev;
      assert n in g && g[n].zeroed && Within(a, g[n].addr, g[n].size);
    }
  }

  lemma AloneMarks(e: Extents, zeros: iset<nat>, node: Node)
    requires Kept(e, zeros) && node in e
    ensures MarksJoined(e - {node}, e, e[node].addr, e[node].size, e[node].zeroed)
  {
    var r, x := e - {node}, e[node];
    forall n | n in r ensures !Touches(r[n], x.addr, x.size) {
      assert Apart(e[n], x);
    }
    forall a: nat ensures Marked(e, a) <==> if Within(a, x.addr, x.size) then x.zeroed else Marked(r, a) {
      if Marked(e, a) {
        var n: Node :| n in e && e[n].zeroed && Within(a, e[n].addr, e[n].size);
        assert n != node ==> n in r && r[n] == e[n] && Apart(e[n], x);
      }
      if Marked(r, a) {
        var n: Node :| n in r && r[n].zeroed && Within(a, r[n].addr, r[n].size);
        assert n in e && e[n].zeroed && Within(a, e[n].addr, e[n].size);
      }
    }
  }

  lemma CarvedMarks(e: Extents, zeros: iset<nat>, node: Node, lo: nat, size: nat, spare: Node?)
    requires Carvable(e, zeros, node, lo, size, spare)
    ensures MarksBut(e, Carved(e, node, lo, size, spare), lo, size)
  {
    var g := Carved(e, node, lo, size, spare);
    forall a: nat ensures Marked(g, a) <==> Marked(e, a) && !Within(a, lo, size) {
      if Marked(g, a) {
        var n: Node :| n in g && g[n].zeroed && Within(a, g[n].addr, g[n].size);
        var k := if n == spare then node else n;
        assert k in e && e[k].zeroed && Within(a, e[k].addr, e[k].size);
        assert k != node ==> Apart(e[k], e[node]);
      }
      if Marked(e, a) && !Within(a, lo, size) {
        var n: Node :| n in e && e[n].zeroed && Within(a, e[n].addr, e[n].size);
        var k: Node := if n != node || a < lo then n else if lo == e[node].addr then node else spare;
        assert k in g && g[k].zeroed && Within(a, g[k].addr, g[k].size);
      }
    }
  }

  /** A taken range lies on one side of every extent. */
  lemma TakenAside(e: Extents, zeros: iset<nat>, lo: nat, size: nat, n: Node)
    requires Kept(e, zeros) && RangeTaken(e, lo, size) && n in e && size > 0
    ensures e[n].addr + e[n].size <= lo || lo + size <= e[n].addr
  {
    var x := e[n];
    if !(x.addr + x.size <= lo || lo + size <= x.addr) {
      var a := if x.addr <= lo then lo else x.addr;
      assert Within(a, x.addr, x.size) && Within(a, lo, size);
      assert Free(e, a);
      assert false;
    }
  }

  /** The extents with the range joined to what follows it, or on its own. */
  ghost function Added(e: Extents, node: Node, lo: nat, size: nat, zeroed: bool): Extents {
    if node in e then e[node := Extent(lo, size + e[node].size, e[node].zeroed && zeroed)]
    else e[node := Extent(lo, size, zeroed)]
  }

  lemma AddedKept(e: Extents, zeros: iset<nat>, node: Node, lo: nat, size: nat, zeroed: bool)
    requires Kept(e, zeros) && RangeTaken(e, lo, size) && Sound(Extent(lo, size, zeroed))
    requires zeroed ==> AllZero(lo, size, zeros)
    requires if node in e then e[node].addr == lo + size else forall n :: n in e ==> e[n].addr != lo + size
    ensures KeptBut(Added(e, node, lo, size, zeroed), zeros, node)
  {
    var g := Added(e, node, lo, size, zeroed);
    SumAligned(size, if node in e then e[node].size else 0);
    forall n | n in e && n != node
      ensures Apart(g[n], g[node]) || Meets(g[n], g[node])
    {
      TakenAside(e, zeros, lo, size, n);
    }
    assert Honest(g[node], zeros);
    hide Free, Aligned;
  }

  lemma SumAligned(a: nat, b: nat)
    requires Aligned(a, CHUNK) && Aligned(b, CHUNK)
    ensures Aligned(a + b, CHUNK)
    ensures a >= b ==> Aligned(a - b, CHUNK)
  {
  }

  lemma AddedFree(e: Extents, zeros: iset<nat>, node: Node, lo: nat, size: nat, zeroed: bool, a: nat)
    requires Kept(e, zeros) && (node in e ==> e[node].addr == lo + size)
    ensures Free(Added(e, node, lo, size, zeroed), a) <==> Free(e, a) || Within(a, lo, size)
  {
    var g := Added(e, node, lo, size, zeroed);
    if Free(e, a) {
      var n: Node :| n in e && Within(a, e[n].addr, e[n].size);
      assert Within(a, g[n].addr, g[n].size);
    }
    if Within(a, lo, size) {
      assert Within(a, g[node].addr, g[node].size);
    }
    if Free(g, a) {
      var n: Node :| n in g && Within(a, g[n].addr, g[n].size);
      if n != node {
        assert Within(a, e[n].addr, e[n].size);
      } else if !Within(a, lo, size) {
        assert Within(a, e[node].addr, e[node].size);
      }
    }
  }

  /** The extents with `prev` merged into `node`. */
  ghost function Joined(e: Extents, prev: Node, node: Node): Extents
    requires prev in e && node in e
  {
    (e - {prev})[node := Extent(e[prev].addr, e[node].size + e[prev].size, e[node].zeroed && e[prev].zeroed)]
  }

  lemma JoinedKept(e: Extents, zeros: iset<nat>, prev: Node, node: Node)
    requires KeptBut(e, zeros, node) && prev in e && prev != node && Meets(e[prev], e[node])
    ensures Kept(Joined(e, prev, node), zeros)
  {
    var g := Joined(e, prev, node);
    SumAligned(e[node].size, e[prev].size);
    assert Honest(g[node], zeros);
    forall n | n in g && n != node ensures Apart(g[n], g[node]) {
      assert Apart(e[n], e[prev]) && (Apart(e[n], e[node]) || Meets(e[n], e[node]));
    }
    hide Aligned, Honest;
  }

  lemma NewNode(e: Extents, node: Node, lo: nat, size: nat, zeroed: bool)
    requires node !in e
    ensures Added(e, node, lo, size, zeroed) == e[node := Extent(lo, size, zeroed)]
  {
  }

  lemma AddedAll(e: Extents, zeros: iset<nat>, node: Node, lo: nat, size: nat, zeroed: bool)
    requires Kept(e, zeros) && RangeTaken(e, lo, size) && Sound(Extent(lo, size, zeroed))
    requires zeroed ==> AllZero(lo, size, zeros)
    requires if node in e then e[node].addr == lo + size else !StartsAt(e, lo + size)
    ensures var g := Added(e, node, lo, size, zeroed);
            && KeptBut(g, zeros, node) && node in g && g - {node} == e - {node}
            && forall a: nat :: Free(g, a) <==> Free(e, a) || Within(a, lo, size)
    ensures size > 0 && (node !in e ==> forall n :: n in e ==> e[n].addr != lo + size)
  {
    AddedKept(e, zeros, node, lo, size, zeroed);
    forall a: nat ensures Free(Added(e, node, lo, size, zeroed), a) <==> Free(e, a) || Within(a, lo, size) {
      AddedFree(e, zeros, node, lo, size, zeroed, a);
    }
    hide Free, Kept;
  }

  lemma JoinedFree(e: Extents, zeros: iset<nat>, prev: Node, node: Node, a: nat)
    requires KeptBut(e, zeros, node) && prev in e && prev != node && Meets(e[prev], e[node])
    ensures Free(Joined(e, prev, node), a) <==> Free(e, a)
  {
    var g := Joined(e, prev, node);
    if Free(e, a) {
      var n: Node :| n in e && Within(a, e[n].addr, e[n].size);
      var k: Node := if n == prev then node else n;
      assert k in g && Within(a, g[k].addr, g[k].size);
    }
    if Free(g, a) {
      var n: Node :| n in g && Within(a, g[n].addr, g[n].size);
      var k: Node := if n == node && a < e[node].addr then prev else n;
      assert k in e && Within(a, e[k].addr, e[k].size);
    }
  }

  /** Nothing touches the node when its predecessor does not. */
  lemma NotJoined(e: Extents, zeros: iset<nat>, prev: Node?, node: Node)
    requires KeptBut(e, zeros, node)
    requires prev == null ==> forall n :: n in e ==> e[n].addr >= e[node].addr
    requires prev != null ==>
               && prev in e && e[prev].addr < e[node].addr && !Meets(e[prev], e[node])
               && forall n :: n in e && e[n].addr < e[node].addr ==> e[n].addr <= e[prev].addr
    ensures Kept(e, zeros)
  {
    forall n | n in e && n != node ensures !Meets(e[n], e[node]) {
      if prev != null && n != prev {
        assert Apart(e[n], e[prev]);
      }
    }
    hide Aligned, Honest;
  }

  /** Growing an extent downwards over a taken range keeps its place in the order of addresses. */
  lemma PlaceKept(e: Extents, zeros: iset<nat>, node: Node, lo: nat, size: nat, m: Node)
    requires Kept(e, zeros) && RangeTaken(e, lo, size) && size > 0
    requires node in e && m in e && m != node && e[node].addr == lo + size
    ensures e[m].addr < e[node].addr <==> e[m].addr < lo
  {
    TakenAside(e, zeros, lo, size, m);
    assert Apart(e[m], e[node]);
  }

  /** The extents with the range cut out of a node's; a second node takes what is left behind it, if it must. */
  ghost function Carved(e: Extents, node: Node, lo: nat, size: nat, spare: Node?): Extents
    requires node in e && e[node].addr <= lo
  {
    var x := e[node];
    var lead, end := lo - x.addr, x.addr + x.size;
    var front := if lead != 0 then e[node := Extent(x.addr, lead, x.zeroed)] else e - {node};
    if end <= lo + size then front
    else if lead == 0 then front[node := Extent(lo + size, end - lo - size, x.zeroed)]
    else if spare == null then front
    else front[spare := Extent(lo + size, end - lo - size, x.zeroed)]
  }

  ghost predicate Carvable(e: Extents, zeros: iset<nat>, node: Node, lo: nat, size: nat, spare: Node?) {
    && Kept(e, zeros) && node in e && (spare != null ==> spare !in e) && size > 0
    && Aligned(lo, CHUNK) && Aligned(size, CHUNK)
    && e[node].addr <= lo && lo + size <= e[node].addr + e[node].size
    && (spare == null ==> lo == e[node].addr || lo + size == e[node].addr + e[node].size)
  }

  /** A piece of an extent at either side of the range. */
  lemma PieceKept(x: Extent, zeros: iset<nat>, lo: nat, size: nat)
    requires Sound(x) && Honest(x, zeros) && Aligned(lo, CHUNK) && Aligned(size, CHUNK)
    requires x.addr <= lo && lo + size <= x.addr + x.size
    ensures x.addr < lo ==> Sound(Extent(x.addr, lo - x.addr, x.zeroed)) && Honest(Extent(x.addr, lo - x.addr, x.zeroed), zeros)
    ensures var y := Extent(lo + size, x.addr + x.size - lo - size, x.zeroed);
            lo + size < x.addr + x.size ==> Sound(y) && Honest(y, zeros)
  {
    SumAligned(lo, x.addr);
    SumAligned(lo, size);
    SumAligned(x.addr, x.size);
    SumAligned(x.addr + x.size, lo + size);
    hide Aligned;
    assert forall a: nat :: Within(a, x.addr, lo - x.addr) ==> Within(a, x.addr, x.size);
    assert forall a: nat :: Within(a, lo + size, x.addr + x.size - lo - size) ==> Within(a, x.addr, x.size);
  }

  lemma CarvedKept(e: Extents, zeros: iset<nat>, node: Node, lo: nat, size: nat, spare: Node?)
    requires Carvable(e, zeros, node, lo, size, spare)
    ensures Kept(Carved(e, node, lo, size, spare), zeros)
  {
    PieceKept(e[node], zeros, lo, size);
    var g := Carved(e, node, lo, size, spare);
    forall n | n in g ensures Sound(g[n]) && Honest(g[n], zeros) {
      CarvedPart(e, zeros, node, lo, size, spare, n);
    }
    forall n, m | n in g && m in g && n != m ensures Apart(g[n], g[m]) {
      CarvedPart(e, zeros, node, lo, size, spare, n);
      CarvedPart(e, zeros, node, lo, size, spare, m);
      hide Carved, Sound, Honest;
    }
  }

  /** An extent after carving is one from before, or a piece of the carved one. */
  lemma CarvedPart(e: Extents, zeros: iset<nat>, node: Node, lo: nat, size: nat, spare: Node?, n: Node)
    requires Carvable(e, zeros, node, lo, size, spare) && n in Carved(e, node, lo, size, spare)
    ensures var g, x := Carved(e, node, lo, size, spare), e[node];
            var lead := Extent(x.addr, lo - x.addr, x.zeroed);
            var trail := Extent(lo + size, x.addr + x.size - lo - size, x.zeroed);
            || (n != node && n != spare && n in e && g[n] == e[n] && Apart(g[n], x))
            || (n == node && x.addr < lo && g[n] == lead)
            || (n == (if x.addr < lo then spare else node) && lo + size < x.addr + x.size && g[n] == trail)
  {
  }

  lemma CarvedFree(e: Extents, zeros: iset<nat>, node: Node, lo: nat, size: nat, spare: Node?, a: nat)
    requires Carvable(e, zeros, node, lo, size, spare)
    ensures Free(Carved(e, node, lo, size, spare), a) <==> Free(e, a) && !Within(a, lo, size)
  {
    var g := Carved(e, node, lo, size, spare);
    if Free(g, a) {
      var n: Node :| n in g && Within(a, g[n].addr, g[n].size);
      var k := if n == spare then node else n;
      assert k in e && Within(a, e[k].addr, e[k].size);
      if k != node {
        assert Apart(e[k], e[node]);
      }
    }
    if Free(e, a) && !Within(a, lo, size) {
      var n: Node :| n in e && Within(a, e[n].addr, e[n].size);
      if n != node || a < lo {
        assert n in g && Within(a, g[n].addr, g[n].size);
      } else {
        var k: Node := if lo == e[node].addr then node else spare;
        assert k in g && Within(a, g[k].addr, g[k].size);
      }
    }
  }

  ghost function Bytes(lo: nat, size: nat): iset<nat> {
    iset a: nat | Within(a, lo, size)
  }

  /** More zero bytes do no harm. */
  lemma KeptMore(e: Extents, zeros: iset<nat>, more: iset<nat>)
    requires Kept(e, zeros)
    ensures Kept(e, zeros + more)
  {
    forall n | n in e ensures Honest(e[n], zeros + more) {
    }
    hide Sound, Apart;
  }

  // ----- Choosing an extent -----

  /** The smallest extent of at least this size, the lowest of those. */
  ghost predicate BestFit(e: Extents, n: Node, need: nat) {
    && n in e && e[n].size >= need
    && forall m :: m in e && e[m].size >= need ==>
                     e[n].size < e[m].size || (e[n].size == e[m].size && e[n].addr <= e[m].addr)
  }

  ghost predicate NoFit(e: Extents, need: nat) {
    forall n :: n in e ==> e[n].size < need
  }

  /** All that was free still is, but for this range. */
  ghost predicate FreeBut(e: Extents, g: Extents, lo: nat, size: nat) {
    forall a: nat :: Free(g, a) <==> Free(e, a) && !Within(a, lo, size)
  }

  /** No extent is as large as the address space. */
  lemma TooLarge(e: Extents, zeros: iset<nat>, size: nat, alignment: nat)
    requires Kept(e, zeros) && 0 < size < U64 && 0 < alignment < U64 && Aligned(alignment, CHUNK)
    requires (size + alignment - CHUNK) % U64 < size
    ensures NoFit(e, size + alignment - CHUNK)
  {
    assert size + alignment - CHUNK >= U64;
    forall n | n in e ensures e[n].size < U64 {
      assert Sound(e[n]);
    }
  }

  lemma NoWrap(size: nat, alignment: nat)
    requires 0 < size < U64 && 0 < alignment < U64 && Aligned(alignment, CHUNK)
    requires (size + alignment - CHUNK) % U64 >= size
    ensures (size + alignment - CHUNK) % U64 == size + alignment - CHUNK
  {
  }

  // ----- The pool -----

  class Pool {
    var szad: set<Node>
    var ad: set<Node>

    /** The addresses whose bytes are zero. */
    ghost var zeros: iset<nat>

    ghost function Snap(): Extents
      reads this, ad
    {
      map n | n in ad :: ExtentOf(n)
    }

    ghost function ExtentOf(n: Node): Extent
      reads n
    {
      Extent(n.addr, n.size, n.zeroed)
    }

    ghost predicate Valid()
      reads this, ad
    {
      szad == ad && Kept(Snap(), zeros)
    }

    // ----- The indexes -----

    /** The extent with the least address not below the key. */
    method AdNsearch(key: nat) returns (r: Node?)
      ensures r != null ==> r in ad && r.addr >= key && forall n :: n in ad && n.addr >= key ==> r.addr <= n.addr
      ensures r == null ==> forall n :: n in ad ==> n.addr < key
    {
      r := null;
      var rest := ad;
      while rest != {}
        invariant rest <= ad
        invariant r != null ==> r in ad && r.addr >= key
        invariant forall n :: n in ad && n !in rest && n.addr >= key ==> r != null && r.addr <= n.addr
        decreases rest
      {
        var n :| n in rest;
        rest := rest - {n};
        if n.addr >= key && (r == null || n.addr < r.addr) {
          r := n;
        }
      }
    }

    /** The extent before this one. */
    method AdPrev(node: Node) returns (r: Node?)
      ensures r != null ==> r in ad && r.addr < node.addr && forall n :: n in ad && n.addr < node.addr ==> n.addr <= r.addr
      ensures r == null ==> forall n :: n in ad ==> n.addr >= node.addr
    {
      r := null;
      var rest := ad;
      while rest != {}
        invariant rest <= ad
        invariant r != null ==> r in ad && r.addr < node.addr
        invariant forall n :: n in ad && n !in rest && n.addr < node.addr ==> r != null && n.addr <= r.addr
        decreases rest
      {
        var n :| n in rest;
        rest := rest - {n};
        if n.addr < node.addr && (r == null || n.addr > r.addr) {
          r := n;
        }
      }
    }

    predicate SzBefore(n: Node, m: Node)
      reads n, m
    {
      n.size < m.size || (n.size == m.size && n.addr <= m.addr)
    }

    /** The smallest extent of at least this size, the lowest of those. */
    method SzadNsearch(size: nat) returns (r: Node?)
      ensures r != null ==> r in szad && r.size >= size && forall n :: n in szad && n.size >= size ==> SzBefore(r, n)
      ensures r == null ==> forall n :: n in szad ==> n.size < size
    {
      r := null;
      var rest := szad;
      while rest != {}
        invariant rest <= szad
        invariant r != null ==> r in szad && r.size >= size
        invariant forall n :: n in szad && n !in rest && n.size >= size ==> r != null && SzBefore(r, n)
        decreases rest
      {
        var n :| n in rest;
        rest := rest - {n};
        if n.size >= size && (r == null || SzBefore(n, r)) {
          r := n;
        }
      }
    }

    // ----- Freeing -----

    /**
     Takes a range back, joined with the extents it touches. Purging zeroes it unless it stays `unzeroed`.
     `nodes` says whether a node could be allocated; without one and with no extent right behind, the
     range is leaked.
     */
    method Record(chunk: nat, size: nat, zeroed: bool, unzeroed: bool, nodes: bool)
      requires Valid() && Sound(Extent(chunk, size, zeroed)) && RangeTaken(Snap(), chunk, size)
      requires zeroed ==> AllZero(chunk, size, zeros)
      modifies this, ad
      ensures Valid() && fresh(ad - old(ad))
      ensures zeros == old(zeros) + if unzeroed then iset{} else Bytes(chunk, size)
      ensures var e := old(Snap());
              Recorded(e, Snap(), chunk, size, zeroed || !unzeroed, nodes || StartsAt(e, chunk + size))
    {
      ghost var e := Snap();
      if !unzeroed {
        KeptMore(e, zeros, Bytes(chunk, size));
        zeros := zeros + Bytes(chunk, size);
      }
      assert Snap() == e && (zeroed || !unzeroed ==> AllZero(chunk, size, zeros));
      hide Kept, Sound, Recorded, StartsAt, AllZero;
      Rejoin(chunk, size, zeroed || !unzeroed, nodes);
    }

    method Rejoin(chunk: nat, size: nat, z: bool, nodes: bool)
      requires Valid() && Sound(Extent(chunk, size, z)) && RangeTaken(Snap(), chunk, size)
      requires z ==> AllZero(chunk, size, zeros)
      modifies this`ad, this`szad, ad
      ensures Valid() && fresh(ad - old(ad))
      ensures var e := old(Snap()); Recorded(e, Snap(), chunk, size, z, nodes || StartsAt(e, chunk + size))
    {
      hide Kept, KeptBut, Free, Added, MarksJoined, Marked, Sound, RangeTaken, AllZero, StartsAt;
      ghost var e := Snap();
      var xnode := null;
      if nodes {
        xnode := new Node();
      }
      var next := AdNsearch(chunk + size);
      NextIs(next, chunk + size);
      var node: Node;
      if next != null && next.addr == chunk + size {
        node := next;
        Behind(node, chunk, size, z);
      } else {
        if xnode == null {
          return;
        }
        node := xnode;
        NewNode(e, node, chunk, size, z);
        Put(node, chunk, size, z);
      }
      AddedAll(e, zeros, node, chunk, size, z);
      JoinBack(node);
      AddedMarks(e, zeros, node, chunk, size, z, Snap());
    }

    lemma NextIs(next: Node?, lo: nat)
      requires next != null ==> next in ad && next.addr >= lo && forall n :: n in ad && n.addr >= lo ==> next.addr <= n.addr
      requires next == null ==> forall n :: n in ad ==> n.addr < lo
      ensures StartsAt(Snap(), lo) <==> next != null && next.addr == lo
    {
      if next != null {
        assert next in Snap();
      }
    }

    /** Grows an extent downwards; its place among the others, by address, stays the same. */
    method Behind(node: Node, chunk: nat, size: nat, z: bool)
      requires szad == ad && node in ad
      modifies this`szad, node
      ensures szad == ad && Snap() == Added(old(Snap()), node, chunk, size, z)
    {
      szad := szad - {node};
      node.addr := chunk;
      node.size := node.size + size;
      node.zeroed := node.zeroed && z;
      szad := szad + {node};
    }

    method JoinBack(node: Node)
      requires szad == ad && KeptBut(Snap(), zeros, node)
      modifies this`ad, this`szad, ad
      ensures Valid() && ad <= old(ad)
      ensures forall a: nat :: Free(Snap(), a) <==> Free(old(Snap()), a)
      ensures var e := old(Snap()); MarksJoined(e - {node}, Snap(), e[node].addr, e[node].size, e[node].zeroed)
    {
      ghost var e := Snap();
      var prev := AdPrev(node);
      if prev != null && prev.addr + prev.size == node.addr {
        JoinedKept(e, zeros, prev, node);
        forall a: nat ensures Free(Joined(e, prev, node), a) <==> Free(e, a) {
          JoinedFree(e, zeros, prev, node, a);
        }
        JoinedMarks(e, zeros, prev, node);
        hide Free, Kept, KeptBut, MarksJoined;
        Merge(prev, node);
      } else {
        NotJoined(e, zeros, prev, node);
        AloneMarks(e, zeros, node);
      }
    }

    method Merge(prev: Node, node: Node)
      requires szad == ad && prev in ad && node in ad && prev != node
      modifies this`ad, this`szad, node
      ensures szad == ad && ad == old(ad) - {prev} && Snap() == Joined(old(Snap()), prev, node)
    {
      szad := szad - {prev};
      ad := ad - {prev};
      szad := szad - {node};
      node.addr := prev.addr;
      node.size := node.size + prev.size;
      node.zeroed := node.zeroed && prev.zeroed;
      szad := szad + {node};
    }

    // ----- Reusing -----

    /**
     Takes an aligned range out of the best fitting extent; 0 stands for none. `nodes` says whether node
     allocation succeeds, `unmap`, `unzeroed` and `again` what becomes of a range given back when it does not.
     */
    method Recycle(size: nat, alignment: nat, base: bool, zero: bool, nodes: bool, unmap: bool, unzeroed: bool, again: bool)
      returns (ret: nat, nowZero: bool, ghost from: Node?)
      requires Valid() && 0 < size < U64 && 0 < alignment < U64 && Aligned(size, CHUNK) && Aligned(alignment, CHUNK)
      modifies this, ad
      ensures Valid() && fresh(ad - old(ad))
      ensures from == null <==> base || NoFit(old(Snap()), size + alignment - CHUNK)
      ensures from == null ==> ret == 0 && nowZero == zero && Snap() == old(Snap()) && zeros == old(zeros)
      ensures from != null ==>
                var e := old(Snap());
                && BestFit(e, from, size + alignment - CHUNK)
                && var x, lo := e[from], Ceiling(e[from].addr, alignment);
                   && 0 < x.addr <= lo && lo + size <= x.addr + x.size && Aligned(lo, alignment)
                   && (nowZero <==> zero || x.zeroed)
                   && if nodes || lo == x.addr || lo + size == x.addr + x.size
                      then ret == lo && TakenOut(e, Snap(), lo, size) && Cleared(old(zeros), zeros, lo, size, nowZero)
                      else ret == 0 && CutShort(e, Snap(), x, lo, size, !unmap && again, !unzeroed)
                           && Cleared(old(zeros), zeros, lo, size, !unmap && !unzeroed)
    {
      ghost var e := Snap();
      ret, nowZero, from := 0, zero, null;
      if base {
        return;
      }
      var allocSize := (size + alignment - CHUNK) % U64;
      if allocSize < size {
        TooLarge(e, zeros, size, alignment);
        return;
      }
      NoWrap(size, alignment);
      var node := SzadNsearch(allocSize);
      if node == null {
        return;
      }
      from := node;
      assert BestFit(e, node, allocSize);
      assert Sound(e[node]);
      Lead(node.addr, alignment);
      var leadsize := Ceiling(node.addr, alignment) - node.addr;
      assert node.size >= leadsize + size;
      hide BestFit, Sound, Kept, Aligned, TakenOut, CutShort, Cleared;
      ret, nowZero := TakeFrom(node, node.addr + leadsize, size, zero, nodes, unmap, unzeroed, again);
    }

    lemma Lead(addr: nat, alignment: nat)
      requires 0 < alignment && Aligned(alignment, CHUNK) && Aligned(addr, CHUNK)
      ensures var c := Ceiling(addr, alignment);
              addr <= c <= addr + alignment - CHUNK && Aligned(c, alignment) && Aligned(c, CHUNK)
    {
      assert alignment == alignment / CHUNK * CHUNK;
      ChunkCeiling(addr, alignment / CHUNK);
    }

    /** Takes a range out of an extent and zeroes it if asked; the range goes back if a node is missing. */
    method TakeFrom(node: Node, lo: nat, size: nat, zero: bool, nodes: bool, unmap: bool, unzeroed: bool, again: bool)
      returns (ret: nat, nowZero: bool)
      requires Valid() && node in ad && 0 < size && Aligned(lo, CHUNK) && Aligned(size, CHUNK)
      requires node.addr <= lo && lo + size <= node.addr + node.size
      modifies this, ad
      ensures Valid() && fresh(ad - old(ad))
      ensures nowZero <==> zero || old(node.zeroed)
      ensures var e, x := old(Snap()), old(ExtentOf(node));
              if nodes || lo == x.addr || lo + size == x.addr + x.size
              then ret == lo && TakenOut(e, Snap(), lo, size) && Cleared(old(zeros), zeros, lo, size, nowZero)
              else ret == 0 && CutShort(e, Snap(), x, lo, size, !unmap && again, !unzeroed)
                   && Cleared(old(zeros), zeros, lo, size, !unmap && !unzeroed)
    {
      hide Kept, Honest, TakenOut, CutShort, Recorded, StartsAt, Carved, AllZero;
      ghost var e, x := Snap(), ExtentOf(node);
      ghost var z := zeros;
      var zeroed := node.zeroed;
      nowZero := zero || zeroed;
      OneExtent(node);
      var ok := Carve(node, lo, size, nodes);
      if !ok {
        ghost var g := Snap();
        FrontOnly(e, z, g, node, lo, size);
        GiveBack(lo, size, unmap, unzeroed, again);
        GivenBack(e, z, g, Snap(), node, lo, size, unmap, unzeroed, again);
        return 0, nowZero;
      }
      ret := lo;
      ZeroesInside(x, z, lo, size);
      ghost var f := Snap();
      if nowZero && !zeroed {
        KeptMore(f, zeros, Bytes(lo, size));
        zeros := zeros + Bytes(lo, size);
      }
      assert Snap() == f;
    }

    lemma OneExtent(node: Node)
      requires Valid() && node in ad
      ensures node in Snap() && Snap()[node] == ExtentOf(node) && Sound(ExtentOf(node)) && Honest(ExtentOf(node), zeros)
    {
    }

    /** Cuts the range out; a node is needed when something is left on both sides. */
    method Carve(node: Node, lo: nat, size: nat, nodes: bool) returns (ok: bool)
      requires Valid() && node in ad && 0 < size && Aligned(lo, CHUNK) && Aligned(size, CHUNK)
      requires node.addr <= lo && lo + size <= node.addr + node.size
      modifies this`ad, this`szad, node
      ensures Valid() && fresh(ad - old(ad))
      ensures ok <==> nodes || lo == old(node.addr) || lo + size == old(node.addr + node.size)
      ensures ok ==> TakenOut(old(Snap()), Snap(), lo, size)
      ensures !ok ==> Snap() == Carved(old(Snap()), node, lo, old(node.addr + node.size) - lo, null)
    {
      ghost var e := Snap();
      ghost var whole := node.addr + node.size - lo;
      assert Sound(e[node]);
      SumAligned(node.addr, node.size);
      SumAligned(node.addr + node.size, lo);
      var both := node.addr < lo && lo + size < node.addr + node.size;
      if both && !nodes {
        CarvedValid(e, zeros, node, lo, whole, null);
        hide Kept, Sound, TakenOut, Carved, Aligned;
        CutFront(node, lo);
        return false;
      }
      var spare: Node? := null;
      if both {
        spare := new Node();
      }
      CarvedValid(e, zeros, node, lo, size, spare);
      hide Kept, Sound, TakenOut, Aligned;
      Cut(node, lo, size, spare);
      return true;
    }

    method Cut(node: Node, lo: nat, size: nat, spare: Node?)
      requires szad == ad && node in ad && 0 < size && node.addr <= lo && lo + size <= node.addr + node.size
      requires spare != null ==> spare !in ad
      requires node.addr < lo && lo + size < node.addr + node.size ==> spare != null
      modifies this`ad, this`szad, node, spare
      ensures szad == ad && Snap() == Carved(old(Snap()), node, lo, size, spare)
      ensures ad <= old(ad) + {node} + if spare == null then {} else {spare}
    {
      var zeroed := node.zeroed;
      var leadsize := lo - node.addr;
      var trailsize := node.size - leadsize - size;
      Shrink(node, leadsize);
      if trailsize != 0 {
        Put(if leadsize == 0 then node else spare, lo + size, trailsize, zeroed);
      }
    }

    /** Leaves the node the front of its extent, or nothing. */
    method Shrink(node: Node, leadsize: nat)
      requires szad == ad && node in ad
      modifies this`ad, this`szad, node`size
      ensures szad == ad && ad == if leadsize != 0 then old(ad) else old(ad) - {node}
      ensures var e := old(Snap());
              Snap() == if leadsize != 0 then e[node := e[node].(size := leadsize)] else e - {node}
    {
      szad := szad - {node};
      ad := ad - {node};
      if leadsize != 0 {
        node.size := leadsize;
        szad := szad + {node};
        ad := ad + {node};
      }
    }

    method Put(n: Node, addr: nat, size: nat, zeroed: bool)
      requires szad == ad && n !in ad
      modifies this`ad, this`szad, n
      ensures szad == ad == old(ad) + {n} && Snap() == old(Snap())[n := Extent(addr, size, zeroed)]
    {
      n.addr := addr;
      n.size := size;
      n.zeroed := zeroed;
      szad := szad + {n};
      ad := ad + {n};
    }

    /** What is left when the node for the trailing space cannot be had: the leading space only. */
    method CutFront(node: Node, lo: nat)
      requires szad == ad && node in ad && node.addr < lo < node.addr + node.size
      modifies this`ad, this`szad, node
      ensures szad == ad == old(ad) && Snap() == Carved(old(Snap()), node, lo, old(node.addr + node.size) - lo, null)
    {
      Shrink(node, lo - node.addr);
    }

    /** Gives a range back, to the system or to the pool. */
    method GiveBack(lo: nat, size: nat, unmap: bool, unzeroed: bool, nodes: bool)
      requires Valid() && Sound(Extent(lo, size, false)) && RangeTaken(Snap(), lo, size)
      modifies this, ad
      ensures Valid() && fresh(ad - old(ad))
      ensures zeros == old(zeros) + if unmap || unzeroed then iset{} else Bytes(lo, size)
      ensures var e := old(Snap());
              Recorded(e, Snap(), lo, size, !unzeroed, !unmap && (nodes || StartsAt(e, lo + size)))
    {
      if !unmap {
        Record(lo, size, false, unzeroed, nodes);
      }
    }
  }

  ghost predicate StartsAt(e: Extents, lo: nat) {
    exists n :: n in e && e[n].addr == lo
  }

  /** The range is free again and joined with what it touches, or it is leaked and nothing changes. */
  ghost predicate Recorded(e: Extents, g: Extents, lo: nat, size: nat, zeroed: bool, kept: bool) {
    && (forall a: nat :: Free(g, a) <==> Free(e, a) || (kept && Within(a, lo, size)))
    && if kept then MarksJoined(e, g, lo, size, zeroed) else g == e
  }

  /** The range is taken: it is not free any more, and all else is and is marked as before. */
  ghost predicate TakenOut(e: Extents, g: Extents, lo: nat, size: nat) {
    FreeBut(e, g, lo, size) && MarksBut(e, g, lo, size)
  }

  /** The range has been zeroed, if it was to be. */
  ghost predicate Cleared(before: iset<nat>, zeros: iset<nat>, lo: nat, size: nat, clear: bool) {
    zeros == before + if clear then Bytes(lo, size) else iset{}
  }

  /**
   All behind the front of the extent is lost but for the range, and that too unless it is put back; the
   front and the range put back are one extent, zeroed if the old one was and the range has been wiped.
   */
  ghost predicate CutShort(e: Extents, g: Extents, x: Extent, lo: nat, size: nat, back: bool, wiped: bool) {
    forall a: nat ::
      && (Free(g, a) <==> Free(e, a) && (a < lo || x.addr + x.size <= a || (back && a < lo + size)))
      && (Marked(g, a) <==>
          if back && x.addr <= a < lo + size then x.zeroed && wiped else Marked(e, a) && (a < lo || x.addr + x.size <= a))
  }

  /** A range inside an extent that is honestly marked. */
  lemma ZeroesInside(x: Extent, zeros: iset<nat>, lo: nat, size: nat)
    requires Honest(x, zeros) && x.addr <= lo && lo + size <= x.addr + x.size
    ensures x.zeroed ==> AllZero(lo, size, zeros) && zeros + Bytes(lo, size) == zeros
    ensures zeros + iset{} == zeros
  {
    assert forall a: nat :: Within(a, lo, size) ==> Within(a, x.addr, x.size);
  }

  /** With only the front left, the range is not free and nothing lies right behind it. */
  lemma FrontOnly(e: Extents, zeros: iset<nat>, g: Extents, node: Node, lo: nat, size: nat)
    requires Kept(e, zeros) && node in e && e[node].addr < lo && 0 < size && lo + size < e[node].addr + e[node].size
    requires Aligned(lo, CHUNK) && Aligned(size, CHUNK)
    requires g == Carved(e, node, lo, e[node].addr + e[node].size - lo, null)
    ensures RangeTaken(g, lo, size) && Sound(Extent(lo, size, false))
    ensures !StartsAt(g, lo + size)
    ensures Carvable(e, zeros, node, lo, e[node].addr + e[node].size - lo, null)
  {
    var x := e[node];
    SumAligned(x.addr, x.size);
    SumAligned(x.addr + x.size, lo);
    hide Aligned;
    forall n | n in g ensures g[n].addr + g[n].size <= lo || x.addr + x.size < g[n].addr {
      if n != node {
        assert Apart(e[n], e[node]) && g[n] == e[n];
      }
    }
    hide Sound;
  }

  lemma GivenBack(e: Extents, zeros: iset<nat>, g: Extents, f: Extents, node: Node, lo: nat, size: nat, unmap: bool, unzeroed: bool, again: bool)
    requires node in e && e[node].addr < lo && 0 < size && lo + size < e[node].addr + e[node].size
    requires Carvable(e, zeros, node, lo, e[node].addr + e[node].size - lo, null)
    requires g == Carved(e, node, lo, e[node].addr + e[node].size - lo, null)
    requires Recorded(g, f, lo, size, !unzeroed, !unmap && again)
    ensures CutShort(e, f, e[node], lo, size, !unmap && again, !unzeroed)
  {
    var x, back := e[node], !unmap && again;
    CarvedMarks(e, zeros, node, lo, x.addr + x.size - lo, null);
    FrontTouches(e, zeros, g, node, lo, size, !unzeroed);
    forall a: nat
      ensures Free(f, a) <==> Free(e, a) && (a < lo || x.addr + x.size <= a || (back && a < lo + size))
      ensures Marked(f, a) <==>
              if back && x.addr <= a < lo + size then x.zeroed && !unzeroed else Marked(e, a) && (a < lo || x.addr + x.size <= a)
    {
      CarvedFree(e, zeros, node, lo, x.addr + x.size - lo, null, a);
      assert Within(a, x.addr, x.size) ==> Free(e, a);
      hide Free, Marked, Near, ZeroAround, Carved, Carvable;
    }
  }

  lemma FrontTouches(e: Extents, zeros: iset<nat>, g: Extents, node: Node, lo: nat, size: nat, wiped: bool)
    requires node in e && e[node].addr < lo && 0 < size && lo + size < e[node].addr + e[node].size
    requires Carvable(e, zeros, node, lo, e[node].addr + e[node].size - lo, null)
    requires g == Carved(e, node, lo, e[node].addr + e[node].size - lo, null)
    ensures ZeroAround(g, lo, size, wiped) == (e[node].zeroed && wiped)
    ensures forall a: nat :: Near(g, lo, size, a) <==> e[node].addr <= a < lo + size
  {
    var x := e[node];
    forall n | n in g ensures Touches(g[n], lo, size) <==> n == node {
      if n != node {
        assert Apart(e[n], x);
      }
    }
    hide Carvable, Touches;
    assert g[node] == Extent(x.addr, lo - x.addr, x.zeroed);
    forall a: nat | x.addr <= a < lo ensures Near(g, lo, size, a) {
      assert Touches(g[node], lo, size) && Within(a, g[node].addr, g[node].size);
    }
  }

  lemma CarvedValid(e: Extents, zeros: iset<nat>, node: Node, lo: nat, size: nat, spare: Node?)
    requires Carvable(e, zeros, node, lo, size, spare)
    ensures Kept(Carved(e, node, lo, size, spare), zeros) && TakenOut(e, Carved(e, node, lo, size, spare), lo, size)
  {
    CarvedKept(e, zeros, node, lo, size, spare);
    CarvedMarks(e, zeros, node, lo, size, spare);
    forall a: nat ensures Free(Carved(e, node, lo, size, spare), a) <==> Free(e, a) && !Within(a, lo, size) {
      CarvedFree(e, zeros, node, lo, size, spare, a);
    }
    hide Kept, Carved, Free, MarksBut;
  }
}
