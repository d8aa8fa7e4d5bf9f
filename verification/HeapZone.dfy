/**
 The chunk headers of one zone of the persistent heap: the walk the consistency check makes, the walk that
 fills the container when the heap is opened, the persists of a chunk split, and where chunks lie in the pool.
 */
module HeapZone {
  import opened Common

  /** `Limit` is the first value past the known types; the check lets it pass and rejects larger ones. */
  datatype ChunkType = Unknown | Base | Run | Bitmap | Limit | Garbage

  /** A chunk header; `magic` says whether the magic number is in place. */
  datatype Header = Header(magic: bool, kind: ChunkType, used: bool, size: nat)

  type Zone = seq<Header>

  /** What the walk demands of a header it lands on. */
  predicate Sound(h: Header, n: nat) {
    h.magic && !h.kind.Unknown? && !h.kind.Garbage? && 0 < h.size <= n
  }

  /** From i on, headers follow one another and end exactly at the end of the zone. */
  predicate Tiled(z: Zone, i: nat)
    decreases |z| - i
  {
    i == |z| || (i < |z| && Sound(z[i], |z|) && Tiled(z, i + z[i].size))
  }

  /** Where the walk from i lands. */
  function Heads(z: Zone, i: nat): (hs: set<nat>)
    requires Tiled(z, i)
    ensures forall c :: c in hs ==> i <= c < |z| && Sound(z[c], |z|)
    decreases |z| - i
  {
    if i == |z| then {} else {i} + Heads(z, i + z[i].size)
  }

  /** The consistency check's verdict: never used, or tiled. */
  predicate ZoneOk(z: Zone) {
    z == [] || !z[0].magic || Tiled(z, 0)
  }

  /** The consistency check. */
  method CheckZone(z: array<Header>) returns (ok: bool)
    ensures ok <==> ZoneOk(z[..])
  {
    var i := 0;
    while i < z.Length
      invariant i == 0 || (z.Length > 0 && z[0].magic)
      invariant i <= z.Length ==> (Tiled(z[..], 0) <==> Tiled(z[..], i))
      invariant i > z.Length ==> !Tiled(z[..], 0)
      decreases z.Length - i
    {
      var h := z[i];
      assert z[..][i] == h;
      if !h.magic {
        return i == 0;
      }
      if h.kind.Garbage? || h.kind.Unknown? {
        return false;
      }
      if h.size > z.Length {
        return false;
      }
      if h.size == 0 {
        return false;
      }
      i := i + h.size;
    }
    return i == z.Length;
  }

  // ----- Changing headers -----

  /** Headers the walk does not land on are free to hold anything. */
  lemma {:induction false} OffWalk(z: Zone, i: nat, j: nat, h: Header)
    requires Tiled(z, i) && j < |z| && j !in Heads(z, i)
    ensures Tiled(z[j := h], i) && Heads(z[j := h], i) == Heads(z, i)
    decreases |z| - i
  {
    if i < |z| {
      OffWalk(z, i + z[i].size, j, h);
    }
  }

  /** The used flag does not matter to the walk. */
  lemma {:induction false} FlagOnly(z: Zone, i: nat, j: nat, used: bool)
    requires Tiled(z, i) && j < |z|
    ensures Tiled(z[j := z[j].(used := used)], i) && Heads(z[j := z[j].(used := used)], i) == Heads(z, i)
    decreases |z| - i
  {
    if i < |z| {
      FlagOnly(z, i + z[i].size, j, used);
    }
  }

  /** The walk does not land inside a chunk. */
  lemma {:induction false} InsideIsOff(z: Zone, i: nat, c: nat, j: nat)
    requires Tiled(z, i) && c in Heads(z, i) && c < j < c + z[c].size
    ensures j < |z| && j !in Heads(z, i)
    decreases |z| - i
  {
    if i < |z| {
      if c == i {
        WalkFits(z, i);
      } else {
        InsideIsOff(z, i + z[i].size, c, j);
      }
    }
  }

  lemma WalkFits(z: Zone, i: nat)
    requires Tiled(z, i) && i < |z|
    ensures i + z[i].size <= |z|
  {
    assert Tiled(z, i + z[i].size);
  }

  /** No chunk reaches past the zone. */
  lemma {:induction false} ChunkFits(z: Zone, i: nat, c: nat)
    requires Tiled(z, i) && c in Heads(z, i)
    ensures c + z[c].size <= |z|
    decreases |z| - i
  {
    if c == i {
      WalkFits(z, i);
    } else {
      ChunkFits(z, i + z[i].size, c);
    }
  }

  /** Two heads never overlap. */
  lemma {:induction false} HeadsApart(z: Zone, i: nat, c: nat, d: nat)
    requires Tiled(z, i) && c in Heads(z, i) && d in Heads(z, i) && c < d
    ensures c + z[c].size <= d
  {
    if d < c + z[c].size {
      InsideIsOff(z, i, c, d);
    }
  }

  /** Shrinking a chunk in front of a sound header of the rest adds one chunk to the walk. */
  lemma {:induction false} ShrinkTiled(z: Zone, i: nat, c: nat, units: nat)
    requires Tiled(z, i) && c in Heads(z, i) && 0 < units < z[c].size && c + units < |z|
    requires Sound(z[c + units], |z|) && z[c + units].size == z[c].size - units
    ensures var r := z[c := z[c].(size := units)];
            Tiled(r, i) && Heads(r, i) == Heads(z, i) + {c + units}
    decreases |z| - i
  {
    var r := z[c := z[c].(size := units)];
    if c == i {
      var next := c + z[c].size;
      SameAbove(z, r, next);
      assert r[c + units] == z[c + units];
      assert Tiled(r, c + units) && Heads(r, c + units) == {c + units} + Heads(r, next);
    } else {
      ShrinkTiled(z, i + z[i].size, c, units);
    }
  }

  lemma {:induction false} SameAbove(z: Zone, r: Zone, i: nat)
    requires Tiled(z, i) && |r| == |z| && forall j :: i <= j < |z| ==> r[j] == z[j]
    ensures Tiled(r, i) && Heads(r, i) == Heads(z, i)
    decreases |z| - i
  {
    if i < |z| {
      SameAbove(z, r, i + z[i].size);
    }
  }

  /** The kind of a sound header does not matter to the walk either, as long as it is a known one. */
  lemma {:induction false} KindOnly(z: Zone, i: nat, c: nat)
    requires Tiled(z, i) && c in Heads(z, i)
    ensures Tiled(z[c := z[c].(kind := Base)], i) && Heads(z[c := z[c].(kind := Base)], i) == Heads(z, i)
    decreases |z| - i
  {
    var r := z[c := z[c].(kind := Base)];
    if i == c {
      SameAbove(z, r, i + z[i].size);
    } else {
      KindOnly(z, i + z[i].size, c);
    }
  }

  /** A walk over headers changed only at c still gets to c. */
  lemma {:induction false} TiledReaches(z: Zone, r: Zone, i: nat, c: nat)
    requires Tiled(z, i) && c in Heads(z, i) && |r| == |z| && Tiled(r, i)
    requires forall j :: 0 <= j < |z| && j != c ==> r[j] == z[j]
    ensures Tiled(r, c)
    decreases |z| - i
  {
    if i != c {
      TiledReaches(z, r, i + z[i].size, c);
    }
  }

  // ----- Filling the container -----

  /** How the walk that collects free chunks ends: past the last chunk, never, or at a header without the magic number. */
  datatype Walk = Done | Stuck | Missing(at: nat)

  function WalkFrom(z: Zone, i: nat): (w: Walk)
    ensures w.Missing? ==> i <= w.at < |z| && !z[w.at].magic
    decreases |z| - i
  {
    if i >= |z| then Done
    else if !z[i].magic then Missing(i)
    else if z[i].size == 0 then Stuck
    else WalkFrom(z, i + z[i].size)
  }

  /** The header it writes where it finds none: one chunk as large as the zone. The magic number is persisted last. */
  function WholeZone(n: nat, magic: bool): Header {
    Header(magic, Base, false, n)
  }

  /** The persist it makes next at a header without the magic number. */
  function Stamped(z: Zone, at: nat): (r: Zone)
    requires at < |z|
    ensures |r| == |z|
  {
    z[at := WholeZone(|z|, z[at] == WholeZone(|z|, false))]
  }

  /** The headers when it is done; it is not done if it is stuck. */
  function Filled(z: Zone): (r: Option<Zone>)
    ensures r.Some? ==> |r.value| == |z|
  {
    match WalkFrom(z, 0)
    case Done => Some(z)
    case Stuck => None
    case Missing(i) => Some(z[i := WholeZone(|z|, true)])
  }

  /** Where it lands. */
  function Landings(z: Zone, i: nat): (hs: set<nat>)
    ensures forall c :: c in hs ==> i <= c < |z|
    decreases |z| - i
  {
    if i >= |z| || !z[i].magic || z[i].size == 0 then {} else {i} + Landings(z, i + z[i].size)
  }

  /** On a consistent zone it lands on the chunks and changes nothing. */
  lemma {:induction false} TiledIsDone(z: Zone, i: nat)
    requires Tiled(z, i)
    ensures WalkFrom(z, i) == Done && Landings(z, i) == Heads(z, i)
    decreases |z| - i
  {
    if i < |z| {
      TiledIsDone(z, i + z[i].size);
    }
  }

  /** A walk over headers changed only at c, where it cannot go on, ends there. */
  lemma {:induction false} WalkStops(z: Zone, r: Zone, i: nat, c: nat)
    requires Tiled(z, i) && c in Heads(z, i) && |r| == |z|
    requires forall j :: 0 <= j < |z| && j != c ==> r[j] == z[j]
    ensures !r[c].magic ==> WalkFrom(r, i) == Missing(c)
    ensures r[c].magic && r[c].size == 0 ==> WalkFrom(r, i) == Stuck
    decreases |z| - i
  {
    if i != c {
      WalkStops(z, r, i + z[i].size, c);
    }
  }

  /** The headers before the one it stamps are not looked at again differently: cut short, it starts over and ends the same. */
  lemma {:induction false} StampAgain(z: Zone, i: nat)
    requires WalkFrom(z, i).Missing?
    ensures var c := WalkFrom(z, i).at;
            && WalkFrom(z[c := WholeZone(|z|, false)], i) == Missing(c)
            && WalkFrom(z[c := WholeZone(|z|, true)], i) == Done
    decreases |z| - i
  {
    if z[i].magic {
      StampAgain(z, i + z[i].size);
    }
  }

  /** Whatever the zone holds, each persist of filling leads to where filling ends, which is a zone it leaves alone. */
  lemma FillInterrupted(z: Zone)
    ensures WalkFrom(z, 0).Missing? ==> Filled(Stamped(z, WalkFrom(z, 0).at)) == Filled(z)
    ensures Filled(z).Some? ==> Filled(Filled(z).value) == Filled(z)
  {
    if WalkFrom(z, 0).Missing? {
      var c := WalkFrom(z, 0).at;
      StampAgain(z, 0);
      assert z[c := WholeZone(|z|, false)][c := WholeZone(|z|, true)] == z[c := WholeZone(|z|, true)];
    }
  }

  /** A zone never used becomes one free chunk. */
  lemma NewZone(z: Zone)
    requires |z| > 0 && !z[0].magic
    ensures Filled(z) == Some(z[0 := WholeZone(|z|, true)])
    ensures var r := z[0 := WholeZone(|z|, true)]; Tiled(r, 0) && Heads(r, 0) == {0}
  {
    var r := z[0 := WholeZone(|z|, true)];
    assert Tiled(r, |z|) && Heads(r, |z|) == {};
  }

  /** A chunk as large as the zone that does not start it makes the zone inconsistent. */
  lemma OverlongSpoils(z: Zone, c: nat)
    requires Tiled(z, 0) && c in Heads(z, 0) && c > 0
    ensures !Tiled(z[c := WholeZone(|z|, true)], 0)
  {
    var r := z[c := WholeZone(|z|, true)];
    if Tiled(r, 0) {
      TiledReaches(z, r, 0, c);
    }
  }

  /** Writes a header and makes it durable; the durable states so far are listed in order. */
  method Persist(z: array<Header>, i: nat, h: Header, ghost past: seq<Zone>) returns (ghost now: seq<Zone>)
    requires i < z.Length
    modifies z
    ensures z[..] == old(z[..])[i := h] && now == past + [z[..]]
  {
    z[i] := h;
    now := past + [z[..]];
  }

  /** Writes the header of a free chunk, the magic number last. */
  method WriteChunkHeader(z: array<Header>, i: nat, size: nat, ghost past: seq<Zone>) returns (ghost now: seq<Zone>)
    requires i < z.Length
    modifies z
    ensures z[..] == old(z[..])[i := Header(true, Base, false, size)]
    ensures now == past + [old(z[..])[i := Header(false, Base, false, size)], z[..]]
  {
    now := Persist(z, i, Header(false, Base, false, size), past);
    now := Persist(z, i, z[i].(magic := true), now);
  }

  /** Collects the free chunks when the heap is opened; `ends` is false where the code would not stop. */
  method FillBucket(z: array<Header>) returns (found: set<nat>, ends: bool)
    modifies z
    ensures ends <==> Filled(old(z[..])).Some?
    ensures ends ==> z[..] == Filled(old(z[..])).value
    ensures ends ==> found == set c | c in Landings(z[..], 0) && !z[..][c].used
  {
    hide Landings, WalkFrom, Filled;
    ghost var before := z[..];
    ghost var seen := {};
    var i := 0;
    found := {};
    FillEnds(before);
    while i < z.Length
      invariant Landings(z[..], 0) == seen + Landings(z[..], i) && forall c :: c in seen ==> c < z.Length
      invariant found == set c | c in seen && !z[..][c].used
      invariant if z[..] == before then WalkFrom(before, 0) == WalkFrom(before, i)
                else i >= z.Length && Filled(before) == Some(z[..])
      decreases z.Length - i
    {
      FillGoes(before, i, seen);
      if !z[i].magic {
        ghost var persists := WriteChunkHeader(z, i, z.Length, []);
      }
      if !z[i].used {
        found := found + {i};
      }
      if z[i].size == 0 {
        return found, false;
      }
      seen := seen + {i};
      i := i + z[i].size;
      FillEnds(z[..]);
    }
    ends := true;
  }

  lemma FillEnds(z: Zone)
    ensures forall i: nat :: i >= |z| ==> Landings(z, i) == {} && WalkFrom(z, i) == Done
    ensures WalkFrom(z, 0) == Done ==> Filled(z) == Some(z)
  {
  }

  /** One turn of it. */
  lemma FillGoes(z: Zone, i: nat, seen: set<nat>)
    requires i < |z| && Landings(z, 0) == seen + Landings(z, i) && WalkFrom(z, 0) == WalkFrom(z, i)
    ensures var next := i + z[i].size;
            z[i].magic && z[i].size > 0 ==>
              Landings(z, 0) == seen + {i} + Landings(z, next) && WalkFrom(z, 0) == WalkFrom(z, next)
    ensures z[i].magic && z[i].size == 0 ==> Filled(z).None?
    ensures var r := z[i := WholeZone(|z|, true)];
            !z[i].magic ==> Filled(z) == Some(r) && i !in seen && Landings(r, 0) == seen + {i}
  {
    StampLands(z, 0);
  }

  /** The header it stamps becomes the last it lands on. */
  lemma {:induction false} StampLands(z: Zone, i: nat)
    ensures WalkFrom(z, i).Missing? ==>
              var c := WalkFrom(z, i).at;
              c !in Landings(z, i) && Landings(z[c := WholeZone(|z|, true)], i) == Landings(z, i) + {c}
    decreases |z| - i
  {
    if i < |z| && z[i].magic && z[i].size > 0 {
      StampLands(z, i + z[i].size);
    }
  }

  // ----- Splitting a chunk -----

  /** The zone after the first n persists of splitting chunk c after `units`: 0 to 3 of them. */
  function SplitState(z: Zone, c: nat, units: nat, n: nat): (r: Zone)
    requires c < |z| && units <= z[c].size && c + units < |z| && n <= 3
    ensures |r| == |z|
  {
    var rest := Header(false, Base, false, z[c].size - units);
    if n == 0 then z
    else if n == 1 then z[c + units := rest]
    else if n == 2 then z[c + units := rest.(magic := true)]
    else
      var w := z[c + units := rest.(magic := true)];
      w[c := w[c].(size := units)]
  }

  /** Every durable state of a split is tiled, and only the last one has the new chunk. */
  lemma SplitStatesTiled(z: Zone, c: nat, units: nat, n: nat)
    requires Tiled(z, 0) && c in Heads(z, 0) && 0 < units < z[c].size && n <= 3
    ensures c + units < |z|
    ensures Tiled(SplitState(z, c, units, n), 0)
    ensures Heads(SplitState(z, c, units, n), 0) == Heads(z, 0) + if n == 3 then {c + units} else {}
  {
    InsideIsOff(z, 0, c, c + units);
    var rest := Header(false, Base, false, z[c].size - units);
    OffWalk(z, 0, c + units, rest);
    OffWalk(z, 0, c + units, rest.(magic := true));
    if n == 3 {
      ShrinkTiled(SplitState(z, c, units, 2), 0, c, units);
    }
  }

  /**
   A split keeps the zone consistent exactly when it is asked for at least one unit. The unit count
   is a rounded-down quotient, so a request of at most one chunk asks for none.
   */
  lemma SplitOkIffUnits(z: Zone, c: nat, units: nat)
    requires Tiled(z, 0) && c in Heads(z, 0) && units < z[c].size && c + units < |z|
    ensures (forall n :: 0 <= n <= 3 ==> ZoneOk(SplitState(z, c, units, n))) <==> units >= 1
  {
    if units >= 1 {
      forall n | 0 <= n <= 3 ensures ZoneOk(SplitState(z, c, units, n)) {
        SplitStatesTiled(z, c, units, n);
      }
    } else {
      var r := SplitState(z, c, 0, 3);
      if Tiled(r, 0) {
        TiledReaches(z, r, 0, c);
      }
      if c != 0 {
        assert r[0] == z[0];
      }
      assert !ZoneOk(r);
    }
  }

  /** In bytes: a chunk larger than the units asked for is split well exactly for requests above one chunk's size. */
  lemma RequestSplitsWell(z: Zone, c: nat, bytes: nat)
    requires Tiled(z, 0) && c in Heads(z, 0) && bytes > 0 && CalcUnits(bytes) < z[c].size
    ensures c + CalcUnits(bytes) < |z|
    ensures (forall n :: 0 <= n <= 3 ==> ZoneOk(SplitState(z, c, CalcUnits(bytes), n))) <==> bytes > CHUNK_SIZE
  {
    if CalcUnits(bytes) > 0 {
      InsideIsOff(z, 0, c, c + CalcUnits(bytes));
    }
    SplitOkIffUnits(z, c, CalcUnits(bytes));
  }

  /** A request for one byte, on a zone that is one free chunk. */
  lemma OneByteSpoilsZone(n: nat)
    requires n >= 1
    ensures var z := [Header(true, Base, false, n)] + seq(n - 1, _ => Header(false, Unknown, false, 0));
            && Tiled(z, 0) && Heads(z, 0) == {0} && ZoneOk(z)
            && !ZoneOk(SplitState(z, 0, CalcUnits(1), 3))
  {
    var z := [Header(true, Base, false, n)] + seq(n - 1, _ => Header(false, Unknown, false, 0));
    assert Tiled(z, n) && Heads(z, n) == {};
    assert CalcUnits(1) == 0;
    assert !Tiled(SplitState(z, 0, 0, 3), 0);
  }

  /** Units for a request of this many bytes. */
  function CalcUnits(size: nat): (units: nat)
    requires size > 0
    ensures units >= 1 <==> size > CHUNK_SIZE
    ensures units * CHUNK_SIZE < size <= (units + 1) * CHUNK_SIZE
  {
    (size - 1) / CHUNK_SIZE
  }

  /** Splits chunk c in place, persist by persist. */
  method SplitChunk(z: array<Header>, c: nat, units: nat) returns (ghost persists: seq<Zone>)
    requires Tiled(z[..], 0) && c in Heads(z[..], 0) && 0 < units < z[c].size
    modifies z
    ensures Tiled(z[..], 0) && Heads(z[..], 0) == old(Heads(z[..], 0)) + {c + units}
    ensures c + units < z.Length && z[c].size == units && z[c + units] == Header(true, Base, false, old(z[c].size) - units)
    ensures persists == [SplitState(old(z[..]), c, units, 1), SplitState(old(z[..]), c, units, 2), z[..]]
    ensures forall i :: 0 <= i < 3 ==> Tiled(persists[i], 0)
    ensures forall j :: 0 <= j < z.Length && j != c && j != c + units ==> z[j] == old(z[j])
  {
    ghost var before := z[..];
    SplitStatesTiled(before, c, units, 1);
    SplitStatesTiled(before, c, units, 2);
    SplitStatesTiled(before, c, units, 3);
    var rest := z[c].size - units;
    persists := WriteChunkHeader(z, c + units, rest, []);
    persists := Persist(z, c, z[c].(size := units), persists);
    assert z[..] == SplitState(before, c, units, 3);
  }

  // ----- Offsets -----

  const POOL_HEADER := 1024
  const INFO_SLOTS := 1024 * 32
  const MAX_CHUNK := 65535
  const CHUNK_HEADERS := 16 * 65535
  const CHUNK_SIZE := 262144
  const ZONE_SIZE := POOL_HEADER + CHUNK_HEADERS + CHUNK_SIZE * MAX_CHUNK

  /** Where the data of a chunk starts in the pool. */
  function DataOffset(zone: nat, chunk: nat): nat {
    POOL_HEADER + INFO_SLOTS + zone * ZONE_SIZE + POOL_HEADER + CHUNK_HEADERS + chunk * CHUNK_SIZE
  }

  /** Zone and chunk of a data offset, as 16-bit numbers. */
  function ChunkByOffset(offset: int): (r: (int, int)) {
    var o := offset - (POOL_HEADER + INFO_SLOTS);
    var zone := o / ZONE_SIZE % 0x1_0000;
    (zone, (o - zone * ZONE_SIZE - POOL_HEADER - CHUNK_HEADERS) / CHUNK_SIZE % 0x1_0000)
  }

  /** The offset stored in a pointer leads back to its chunk, and so does every other offset into the chunk. */
  lemma OffsetRoundTrip(zone: nat, chunk: nat, i: nat)
    requires zone < 0x1_0000 && chunk < MAX_CHUNK && i < CHUNK_SIZE
    ensures ChunkByOffset(DataOffset(zone, chunk) + i) == (zone, chunk)
  {
    var o := zone * ZONE_SIZE + POOL_HEADER + CHUNK_HEADERS + chunk * CHUNK_SIZE + i;
    assert o / ZONE_SIZE == zone;
  }
}
