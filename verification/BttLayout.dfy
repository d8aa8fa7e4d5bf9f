/**
 Where the block translation table puts its metadata: the layout write_layout computes and writes,
 what read_layout and the flog reader find of it again, and the offsets of data blocks.
 */
module BttLayout {
  import opened BttMedia
  import opened BttSafety
  import P = BttProtocol

  const ALIGNMENT := 4096
  const MIN_SIZE := 0x100_0000
  const MAX_ARENA := 0x80_0000_0000
  const MIN_LBA_SIZE := 512
  const LBA_ALIGNMENT := 256
  const MAP_ENTRY_SIZE := 4
  const FLOG_SIZE: nat := 16
  const FLOG_PAIR_ALIGN := 64
  const INFO_SIZE := 4096
  const DEFAULT_NFREE := 256

  /** The integer fields of an info block; offsets are relative to the start of its arena. */
  datatype Info = Info(externalLbasize: nat, externalNlba: nat, internalLbasize: nat, internalNlba: nat,
                       nfree: nat, nextoff: nat, dataoff: nat, mapoff: nat, flogoff: nat, infooff: nat)

  /** What the caller chooses. */
  datatype Geometry = Geometry(rawsize: nat, lbasize: nat, nfree: nat)

  /** Rounding up to the alignment of the metadata areas, and of flog pairs. */
  function PageAligned(x: nat): (r: nat)
    ensures r % ALIGNMENT == 0 && x <= r < x + ALIGNMENT
  {
    (x + 4095) / 4096 * 4096
  }

  function PairAligned(x: nat): (r: nat)
    ensures r % FLOG_PAIR_ALIGN == 0 && x <= r < x + FLOG_PAIR_ALIGN
  {
    (x + 63) / 64 * 64
  }

  function Quotient(a: nat, b: nat): (q: nat)
    requires b > 0
    ensures q * b <= a < q * b + b
  {
    assert a / b * b + a % b == a;
    a / b
  }

  // ----- Sizes -----

  function FlogArea(g: Geometry): (n: nat)
    ensures n % ALIGNMENT == 0 && n >= g.nfree * FLOG_PAIR_ALIGN
  {
    PageAligned(g.nfree * FLOG_PAIR_ALIGN)
  }

  /** The 32-bit sum may wrap, which the layout code rejects. */
  function InternalLbasize(lbasize: nat): (n: nat) {
    var size := if lbasize < MIN_LBA_SIZE then MIN_LBA_SIZE else lbasize;
    (size + LBA_ALIGNMENT - 1) % WORD_LIMIT / LBA_ALIGNMENT * LBA_ALIGNMENT
  }

  function ArenaCount(rawsize: nat): nat {
    rawsize / MAX_ARENA + if rawsize % MAX_ARENA >= MIN_SIZE then 1 else 0
  }

  function ArenaStart(k: nat): nat {
    k * MAX_ARENA
  }

  function ArenaSize(g: Geometry, k: nat): nat
    requires ArenaStart(k) <= g.rawsize
  {
    if g.rawsize - ArenaStart(k) > MAX_ARENA then MAX_ARENA else g.rawsize - ArenaStart(k)
  }

  /** Sizes a caller may ask for; the default flog size fits the smallest arena many times over. */
  predicate Sane(g: Geometry) {
    && MIN_SIZE <= g.rawsize
    && 0 < g.nfree && FlogArea(g) + 2 * INFO_SIZE + ALIGNMENT <= MIN_SIZE
    && g.lbasize < WORD_LIMIT
  }

  function InternalNlba(g: Geometry, size: nat): nat
    requires FlogArea(g) + 2 * INFO_SIZE + ALIGNMENT <= size
  {
    Quotient(size - 2 * INFO_SIZE - FlogArea(g) - ALIGNMENT, InternalLbasize(g.lbasize) + MAP_ENTRY_SIZE)
  }

  /** The arena is big enough for twice as many blocks as there are free ones. */
  predicate Fits(g: Geometry, k: nat)
    requires Sane(g)
  {
    && ArenaStart(k) <= g.rawsize && MIN_SIZE <= ArenaSize(g, k)
    && LBA_ALIGNMENT <= InternalLbasize(g.lbasize)
    && InternalNlba(g, ArenaSize(g, k)) >= 2 * g.nfree
  }

  function MapArea(external: nat): nat {
    PageAligned(external * MAP_ENTRY_SIZE)
  }

  /** The info block of arena k. */
  function InfoOf(g: Geometry, k: nat): Info
    requires Sane(g) && Fits(g, k)
  {
    var size := ArenaSize(g, k);
    var internal := InternalNlba(g, size);
    var external := internal - g.nfree;
    var infooff := size - INFO_SIZE;
    var flogoff := infooff - FlogArea(g);
    RegionsFit(g, k);
    Info(g.lbasize, external, InternalLbasize(g.lbasize), internal, g.nfree,
         if g.rawsize - ArenaStart(k) - size >= MIN_SIZE then size else 0,
         INFO_SIZE, flogoff - MapArea(external), flogoff, infooff)
  }

  lemma Distribute(n: nat, l: nat)
    ensures n * (l + MAP_ENTRY_SIZE) == n * l + n * MAP_ENTRY_SIZE
  {
  }

  lemma Smaller(n: nat, b: nat, c: nat)
    requires b >= c
    ensures n * b >= n * c
  {
    assert n * b == n * c + n * (b - c);
  }

  /** The map's padding is covered by the alignment the block count leaves room for. */
  lemma RegionsFit(g: Geometry, k: nat)
    requires Sane(g) && Fits(g, k)
    ensures var size := ArenaSize(g, k);
            var internal := InternalNlba(g, size);
            size >= 2 * INFO_SIZE + FlogArea(g) + MapArea(internal - g.nfree) + internal * InternalLbasize(g.lbasize)
  {
    Distribute(InternalNlba(g, ArenaSize(g, k)), InternalLbasize(g.lbasize));
  }

  /** No larger number of blocks, with their map entries, the flogs, two info blocks and a page to spare, fits. */
  lemma NoMoreBlocks(g: Geometry, k: nat, n: nat)
    requires Sane(g) && Fits(g, k) && n > InternalNlba(g, ArenaSize(g, k))
    ensures 2 * INFO_SIZE + FlogArea(g) + ALIGNMENT + n * InternalLbasize(g.lbasize) + n * MAP_ENTRY_SIZE > ArenaSize(g, k)
  {
    Distribute(n, InternalLbasize(g.lbasize));
    MoreBlocks(InternalNlba(g, ArenaSize(g, k)), n, InternalLbasize(g.lbasize) + MAP_ENTRY_SIZE);
  }

  lemma MoreBlocks(m: nat, n: nat, l: nat)
    requires m < n
    ensures m * l + l <= n * l
    decreases n
  {
    if n > m + 1 {
      MoreBlocks(m, n - 1, l);
    }
    assert n * l == (n - 1) * l + l;
  }

  /** A size that is not rejected was rounded without wrapping. */
  lemma NoWrap(lbasize: nat)
    requires lbasize < WORD_LIMIT && LBA_ALIGNMENT <= InternalLbasize(lbasize)
    ensures InternalLbasize(lbasize) >= MIN_LBA_SIZE && InternalLbasize(lbasize) >= lbasize
    ensures InternalLbasize(lbasize) % LBA_ALIGNMENT == 0 && InternalLbasize(lbasize) < WORD_LIMIT
  {
  }

  /** Even the smallest blocks in the largest arena have numbers below 2^30. */
  lemma BlockNumbersFit(g: Geometry, k: nat)
    requires Sane(g) && Fits(g, k)
    ensures InternalNlba(g, ArenaSize(g, k)) <= LBA_MASK && InternalLbasize(g.lbasize) >= g.lbasize
  {
    NoWrap(g.lbasize);
    Smaller(InternalNlba(g, ArenaSize(g, k)), InternalLbasize(g.lbasize) + MAP_ENTRY_SIZE, 516);
  }

  /**
   In every arena the info block, data, map, flog and backup info block lie one after the other, the
   data area has room for every internal block, and block numbers leave the two flag bits free.
   */
  lemma RegionsInOrder(g: Geometry, k: nat)
    requires Sane(g) && Fits(g, k)
    ensures var i := InfoOf(g, k);
            && i.dataoff == INFO_SIZE
            && i.dataoff + i.internalNlba * i.internalLbasize <= i.mapoff
            && i.mapoff + i.externalNlba * MAP_ENTRY_SIZE <= i.flogoff
            && i.flogoff + g.nfree * FLOG_PAIR_ALIGN <= i.infooff
            && i.infooff + INFO_SIZE == ArenaSize(g, k)
            && i.externalNlba + g.nfree == i.internalNlba && g.nfree <= i.externalNlba
            && i.internalNlba <= LBA_MASK
            && i.internalLbasize >= g.lbasize
  {
    RegionsFit(g, k);
    BlockNumbersFit(g, k);
  }

  /** The size left after k arenas. */
  function Left(g: Geometry, k: nat): nat {
    if g.rawsize > ArenaStart(k) then g.rawsize - ArenaStart(k) else 0
  }

  /** The loop over the remaining size runs once per arena counted up front. */
  lemma LoopStep(g: Geometry, k: nat)
    requires Sane(g)
    ensures Left(g, 0) == g.rawsize && ArenaStart(0) == 0
    ensures k < ArenaCount(g.rawsize) <==> Left(g, k) >= MIN_SIZE
    ensures k + 1 < ArenaCount(g.rawsize) <==> Left(g, k + 1) >= MIN_SIZE
    ensures 0 < ArenaCount(g.rawsize)
    ensures Left(g, k) >= MIN_SIZE ==>
              && ArenaStart(k) <= g.rawsize && Left(g, k) == g.rawsize - ArenaStart(k)
              && ArenaSize(g, k) == (if Left(g, k) > MAX_ARENA then MAX_ARENA else Left(g, k)) >= MIN_SIZE
              && Left(g, k + 1) == Left(g, k) - ArenaSize(g, k)
              && (Left(g, k + 1) >= MIN_SIZE ==> ArenaStart(k + 1) == ArenaStart(k) + ArenaSize(g, k))
  {
  }

  // ----- Writing the layout -----

  const ZERO_FLOG := Flog(0, MapEntry(Initial, 0), MapEntry(Initial, 0), 0)

  /** Where the layout code puts pair i: after each pair it rounds the namespace offset up. */
  function WrittenAt(base: nat, i: nat): nat {
    if i == 0 then base else PairAligned(WrittenAt(base, i - 1) + 2 * FLOG_SIZE)
  }

  /** Where the reader looks for pair i: it adds the rounded pair size. */
  function LookedForAt(base: nat, i: nat): nat {
    base + i * FLOG_PAIR_ALIGN
  }

  /** From the second pair on, the positions are aligned and evenly spaced. */
  lemma {:induction false} WrittenEvenly(base: nat, i: nat)
    requires i > 0
    ensures WrittenAt(base, i) == PairAligned(base + 2 * FLOG_SIZE) + (i - 1) * FLOG_PAIR_ALIGN
    decreases i
  {
    if i > 1 {
      WrittenEvenly(base, i - 1);
    } else {
      assert WrittenAt(base, 0) == base;
    }
  }

  /** The reader looks for each of the n pairs where it was written. */
  ghost predicate PairsFound(base: nat, n: nat) {
    forall i :: 0 <= i < n ==> WrittenAt(base, i) == LookedForAt(base, i)
  }

  /** Writer and reader agree on where the pairs are exactly when the flog starts on a pair boundary. */
  lemma PairsAgree(base: nat, n: nat)
    ensures PairsFound(base, n) <==> n <= 1 || base % FLOG_PAIR_ALIGN == 0
  {
    WrittenEvenly(base, 1);
    if n <= 1 || base % FLOG_PAIR_ALIGN == 0 {
      forall i | 0 <= i < n ensures WrittenAt(base, i) == LookedForAt(base, i) {
        if i > 0 {
          WrittenEvenly(base, i);
        }
      }
    } else {
      assert WrittenAt(base, 1) != LookedForAt(base, 1);
    }
  }

  /** Pairs are written upwards without touching each other. */
  lemma PairsApart(base: nat, i: nat, j: nat)
    requires i < j
    ensures WrittenAt(base, i) + 2 * FLOG_SIZE <= WrittenAt(base, j)
    ensures WrittenAt(base, j) <= base + 32 + j * FLOG_PAIR_ALIGN
  {
    WrittenEvenly(base, j);
    if i > 0 {
      WrittenEvenly(base, i);
    }
  }

  /** The flog entries the layout code writes for one arena, by namespace offset. */
  function PairsWritten(base: nat, external: nat, n: nat): map<nat, Flog> {
    if n == 0 then map[]
    else
      var pair := FreshPair(external, n - 1);
      PairsWritten(base, external, n - 1)
        [WrittenAt(base, n - 1) := pair.first][WrittenAt(base, n - 1) + FLOG_SIZE := pair.second]
  }

  lemma NoPairsYet(before: map<nat, Flog>, base: nat, external: nat)
    ensures before + PairsWritten(base, external, 0) == before && WrittenAt(base, 0) == base
  {
  }

  lemma OnePairMore(before: map<nat, Flog>, base: nat, external: nat, i: nat)
    ensures var at, free := WrittenAt(base, i), MapEntry(Zero, external + i);
            && before + PairsWritten(base, external, i + 1)
               == (before + PairsWritten(base, external, i))[at := Flog(0, free, free, 1)][at + FLOG_SIZE := ZERO_FLOG]
            && WrittenAt(base, i + 1) == PairAligned(at + FLOG_SIZE + FLOG_SIZE)
  {
  }

  function EntryAt(flogs: map<nat, Flog>, off: nat): Flog {
    if off in flogs then flogs[off] else ZERO_FLOG
  }

  function PairAt(flogs: map<nat, Flog>, off: nat): FlogPair {
    FlogPair(EntryAt(flogs, off), EntryAt(flogs, off + FLOG_SIZE))
  }

  lemma {:induction false} PairsWrittenRange(base: nat, external: nat, n: nat, off: nat)
    requires off in PairsWritten(base, external, n)
    ensures n > 0 && base <= off < WrittenAt(base, n - 1) + 2 * FLOG_SIZE
    decreases n
  {
    if n > 1 {
      PairsApart(base, n - 2, n - 1);
      PairsApart(base, 0, n - 1);
      if off != WrittenAt(base, n - 1) && off != WrittenAt(base, n - 1) + FLOG_SIZE {
        PairsWrittenRange(base, external, n - 1, off);
      }
    }
  }

  lemma {:induction false} PairsWrittenAt(base: nat, external: nat, n: nat, i: nat)
    requires i < n
    ensures PairAt(PairsWritten(base, external, n), WrittenAt(base, i)) == FreshPair(external, i)
    ensures WrittenAt(base, i) in PairsWritten(base, external, n)
    ensures WrittenAt(base, i) + FLOG_SIZE in PairsWritten(base, external, n)
    decreases n
  {
    if i < n - 1 {
      PairsWrittenAt(base, external, n - 1, i);
      PairsApart(base, i, n - 1);
    }
  }

  // ----- All arenas -----

  ghost predicate FitsUpTo(g: Geometry, n: nat) {
    Sane(g) && forall k :: 0 <= k < n ==> Fits(g, k)
  }

  /** Every arena of the namespace is big enough. */
  ghost predicate Accepted(g: Geometry) {
    FitsUpTo(g, ArenaCount(g.rawsize))
  }

  /** Info blocks of the first n arenas, primary and backup, by namespace offset. */
  ghost function InfosWritten(g: Geometry, n: nat): map<nat, Info>
    requires FitsUpTo(g, n)
  {
    if n == 0 then map[]
    else
      assert Fits(g, n - 1);
      var i := InfoOf(g, n - 1);
      InfosWritten(g, n - 1)[ArenaStart(n - 1) := i][ArenaStart(n - 1) + i.infooff := i]
  }

  /** Where arena k's flog starts in the namespace. */
  function FlogBase(g: Geometry, k: nat): nat
    requires Sane(g) && Fits(g, k)
  {
    ArenaStart(k) + InfoOf(g, k).flogoff
  }

  /** The flog entries written for arena k. */
  function ArenaPairs(g: Geometry, k: nat): map<nat, Flog>
    requires Sane(g) && Fits(g, k)
  {
    PairsWritten(FlogBase(g, k), InfoOf(g, k).externalNlba, g.nfree)
  }

  ghost function FlogsWritten(g: Geometry, n: nat): map<nat, Flog>
    requires FitsUpTo(g, n)
  {
    if n == 0 then map[]
    else
      assert Fits(g, n - 1);
      FlogsWritten(g, n - 1) + ArenaPairs(g, n - 1)
  }

  ghost function TotalNlba(g: Geometry, n: nat): nat
    requires FitsUpTo(g, n)
  {
    if n == 0 then 0
    else
      assert Fits(g, n - 1);
      TotalNlba(g, n - 1) + InfoOf(g, n - 1).externalNlba
  }

  lemma {:induction false} InfosWrittenAt(g: Geometry, n: nat, k: nat)
    requires FitsUpTo(g, n) && k < n
    ensures ArenaStart(k) in InfosWritten(g, n) && Fits(g, k) && InfosWritten(g, n)[ArenaStart(k)] == InfoOf(g, k)
  {
    assert Fits(g, n - 1) && Fits(g, k);
    if k < n - 1 {
      InfosWrittenAt(g, n - 1, k);
    }
  }

  /** No later arena writes a flog entry where an earlier one did. */
  lemma EarlierPairsApart(g: Geometry, n: nat, k: nat, i: nat, x: nat)
    requires k < n && i < g.nfree && Sane(g) && Fits(g, k) && Fits(g, n)
    requires x <= WrittenAt(FlogBase(g, k), i) + FLOG_SIZE
    ensures x !in ArenaPairs(g, n)
  {
    RegionsInOrder(g, k);
    if i > 0 {
      PairsApart(FlogBase(g, k), 0, i);
    }
    if x in ArenaPairs(g, n) {
      PairsWrittenRange(FlogBase(g, n), InfoOf(g, n).externalNlba, g.nfree, x);
    }
  }

  lemma PairAtUnion(a: map<nat, Flog>, b: map<nat, Flog>, off: nat)
    ensures off !in b && off + FLOG_SIZE !in b ==> PairAt(a + b, off) == PairAt(a, off)
    ensures off in b && off + FLOG_SIZE in b ==> PairAt(a + b, off) == PairAt(b, off)
  {
  }

  lemma FlogsWrittenStep(g: Geometry, n: nat)
    requires FitsUpTo(g, n) && 0 < n
    ensures Sane(g) && Fits(g, n - 1) && FitsUpTo(g, n - 1)
    ensures FlogsWritten(g, n) == FlogsWritten(g, n - 1) + ArenaPairs(g, n - 1)
  {
    assert Fits(g, n - 1);
  }

  lemma ArenaPairsAt(g: Geometry, k: nat, i: nat)
    requires Sane(g) && Fits(g, k) && i < g.nfree
    ensures var off := WrittenAt(FlogBase(g, k), i);
            && PairAt(ArenaPairs(g, k), off) == FreshPair(InfoOf(g, k).externalNlba, i)
            && off in ArenaPairs(g, k) && off + FLOG_SIZE in ArenaPairs(g, k)
  {
    PairsWrittenAt(FlogBase(g, k), InfoOf(g, k).externalNlba, g.nfree, i);
  }

  /** A flog pair of arena k is found again among those of all arenas. */
  lemma {:induction false} FlogsWrittenAt(g: Geometry, n: nat, k: nat, i: nat)
    requires FitsUpTo(g, n) && k < n && i < g.nfree && Fits(g, k)
    ensures var off := WrittenAt(FlogBase(g, k), i);
            && PairAt(FlogsWritten(g, n), off) == FreshPair(InfoOf(g, k).externalNlba, i)
            && off in FlogsWritten(g, n) && off + FLOG_SIZE in FlogsWritten(g, n)
  {
    hide *;
    FlogsWrittenStep(g, n);
    var off := WrittenAt(FlogBase(g, k), i);
    if k == n - 1 {
      ArenaPairsAt(g, k, i);
    } else {
      FlogsWrittenAt(g, n - 1, k, i);
      EarlierPairsApart(g, n - 1, k, i, off);
      EarlierPairsApart(g, n - 1, k, i, off + FLOG_SIZE);
    }
    PairAtUnion(FlogsWritten(g, n - 1), ArenaPairs(g, n - 1), off);
  }

  /** Whether the last arena, like all others, starts its flog on a pair boundary. */
  predicate FlogsAligned(g: Geometry) {
    g.nfree <= 1 || g.rawsize % MAX_ARENA < MIN_SIZE || g.rawsize % FLOG_PAIR_ALIGN == 0
  }

  /** The reader looks for every pair where it was written exactly when the size chosen allows it. */
  lemma FlogsFoundIffAligned(g: Geometry)
    requires Accepted(g)
    ensures FlogsAligned(g) <==>
            forall k :: 0 <= k < ArenaCount(g.rawsize) && Fits(g, k) ==> PairsFound(FlogBase(g, k), g.nfree)
  {
    forall k | 0 <= k < ArenaCount(g.rawsize)
      ensures Fits(g, k)
      ensures PairsFound(FlogBase(g, k), g.nfree) <==> g.nfree <= 1 || ArenaSize(g, k) % FLOG_PAIR_ALIGN == 0
    {
      assert Fits(g, k);
      PairsAgree(FlogBase(g, k), g.nfree);
      FlogBaseMod(g, k);
    }
    LastArena(g);
  }

  lemma FlogBaseMod(g: Geometry, k: nat)
    requires Sane(g) && Fits(g, k)
    ensures FlogBase(g, k) % FLOG_PAIR_ALIGN == ArenaSize(g, k) % FLOG_PAIR_ALIGN
  {
    var pages := FlogArea(g) / ALIGNMENT;
    SameRest(FlogBase(g, k), ArenaSize(g, k), k * (MAX_ARENA / 64) - 64 - 64 * pages);
  }

  lemma SameRest(x: int, y: int, q: int)
    requires x == y + 64 * q
    ensures x % FLOG_PAIR_ALIGN == y % FLOG_PAIR_ALIGN
  {
  }

  /** All arenas but the last are of the maximal size. */
  lemma ArenaSizes(g: Geometry, k: nat)
    requires MIN_SIZE <= g.rawsize && k < ArenaCount(g.rawsize)
    ensures ArenaStart(k) <= g.rawsize
    ensures ArenaSize(g, k) == if k < ArenaCount(g.rawsize) - 1 || g.rawsize % MAX_ARENA < MIN_SIZE then MAX_ARENA
                               else g.rawsize % MAX_ARENA
  {
  }

  /** Only the last arena can be of odd size. */
  lemma LastArena(g: Geometry)
    requires Accepted(g)
    ensures g.nfree > 1 ==>
              (FlogsAligned(g) <==>
               forall k :: 0 <= k < ArenaCount(g.rawsize) && Fits(g, k) ==> ArenaSize(g, k) % FLOG_PAIR_ALIGN == 0)
  {
    var n := ArenaCount(g.rawsize);
    forall k | 0 <= k < n ensures Fits(g, k) {
    }
    hide Fits;
    forall k | 0 <= k < n
      ensures ArenaStart(k) <= g.rawsize
      ensures ArenaSize(g, k) % FLOG_PAIR_ALIGN == 0 <==>
              k < n - 1 || g.rawsize % MAX_ARENA < MIN_SIZE || g.rawsize % FLOG_PAIR_ALIGN == 0
    {
      ArenaSizes(g, k);
      SameRest(g.rawsize, g.rawsize % MAX_ARENA, g.rawsize / MAX_ARENA * (MAX_ARENA / 64));
    }
    assert n > 0 && Fits(g, n - 1);
  }

  /** What a reopened namespace of good size holds: the fresh flog pairs of every arena. */
  lemma FreshFlogsReadBack(g: Geometry, k: nat, i: nat)
    requires Accepted(g) && FlogsAligned(g) && k < ArenaCount(g.rawsize) && i < g.nfree
    ensures Fits(g, k)
    ensures PairAt(FlogsWritten(g, ArenaCount(g.rawsize)), LookedForAt(FlogBase(g, k), i))
            == FreshPair(InfoOf(g, k).externalNlba, i)
  {
    assert Fits(g, k);
    FlogsFoundIffAligned(g);
    assert PairsFound(FlogBase(g, k), g.nfree);
    FlogsWrittenAt(g, ArenaCount(g.rawsize), k, i);
  }

  /** An arena opened on what was laid out is in the protocol's initial state. */
  lemma LaidOutArenaIsFresh(g: Geometry, k: nat, c: P.Config, m: Media)
    requires Accepted(g) && FlogsAligned(g) && k < ArenaCount(g.rawsize) && Fits(g, k)
    requires c.nlba == InfoOf(g, k).externalNlba && c.nfree == g.nfree && 0 < c.nlane <= c.nfree
    requires m.map_ == seq(c.nlba, _ => MapEntry(Initial, 0))
    requires |m.flogs| == c.nfree && forall i :: 0 <= i < c.nfree ==>
               m.flogs[i] == PairAt(FlogsWritten(g, ArenaCount(g.rawsize)), LookedForAt(FlogBase(g, k), i))
    requires |m.data| == InfoOf(g, k).internalNlba && forall b :: 0 <= b < |m.data| ==> |m.data[b]| == c.lbasize
    ensures FreshMedia(c, m) && Inv(c, P.Recovering(m, []))
  {
    RegionsInOrder(g, k);
    hide InfoOf, FlogsWritten, FlogBase, PairAt, Inv, Fits;
    forall i | 0 <= i < c.nfree ensures m.flogs[i] == FreshPair(c.nlba, i) {
      FreshFlogsReadBack(g, k, i);
    }
    FreshLayoutInv(c, m);
  }

  // ----- The table's handle -----

  /** The namespace as the layout code sees it: info blocks, flog entries and zeroed ranges by offset. */
  class Namespace {
    const isZeroed: bool
    var infos: map<nat, Info>
    var flogs: map<nat, Flog>
    var zeroed: seq<(nat, nat)>

    ghost function Snapshot(): Written
      reads this
    {
      Written(infos, flogs, zeroed)
    }

    constructor (isZeroed: bool)
      ensures this.isZeroed == isZeroed && infos == map[] && flogs == map[] && zeroed == []
    {
      this.isZeroed := isZeroed;
      infos, flogs, zeroed := map[], map[], [];
    }
  }

  /** What has been written to a namespace so far. */
  datatype Written = Written(infos: map<nat, Info>, flogs: map<nat, Flog>, zeroed: seq<(nat, nat)>)

  /** The layout of the first n arenas has been added. */
  ghost predicate LaidOut(before: Written, after: Written, isZeroed: bool, g: Geometry, n: nat)
    requires FitsUpTo(g, n)
  {
    && after.infos == before.infos + InfosWritten(g, n)
    && after.flogs == before.flogs + FlogsWritten(g, n)
    && after.zeroed == before.zeroed + if isZeroed then [] else Zeroings(g, n)
  }

  class Table {
    const rawsize: nat
    const lbasize: nat
    const ns: Namespace
    var nfree: nat
    var nlba: nat
    var narena: nat

    constructor (rawsize: nat, lbasize: nat, ns: Namespace)
      ensures this.rawsize == rawsize && this.lbasize == lbasize && this.ns == ns && nfree == DEFAULT_NFREE
    {
      this.rawsize, this.lbasize, this.ns := rawsize, lbasize, ns;
      nfree, nlba, narena := DEFAULT_NFREE, 0, 0;
    }

    /** Writes an arena's flog pairs, each one complete entry and one all-zero entry. */
    method WriteFlogs(base: nat, external: nat)
      modifies ns
      ensures ns.flogs == old(ns.flogs) + PairsWritten(base, external, nfree)
      ensures ns.infos == old(ns.infos) && ns.zeroed == old(ns.zeroed)
    {
      hide PairsWritten, WrittenAt, PairAligned;
      NoPairsYet(ns.flogs, base, external);
      var entryOff, nextFree, i := base, external, 0;
      while i < nfree
        invariant i <= nfree && nextFree == external + i && entryOff == WrittenAt(base, i)
        invariant ns.flogs == old(ns.flogs) + PairsWritten(base, external, i)
        invariant ns.infos == old(ns.infos) && ns.zeroed == old(ns.zeroed)
      {
        OnePairMore(old(ns.flogs), base, external, i);
        var free := MapEntry(Zero, nextFree);
        ns.flogs := ns.flogs[entryOff := Flog(0, free, free, 1)];
        entryOff := entryOff + FLOG_SIZE;
        ns.flogs := ns.flogs[entryOff := ZERO_FLOG];
        entryOff := entryOff + FLOG_SIZE;
        entryOff := PairAligned(entryOff);
        nextFree, i := nextFree + 1, i + 1;
      }
    }

    /** Lays out one arena: map, flog, and the info block at both ends. */
    method WriteArena(arenaOff: nat, size: nat, left: nat, internal: nat, internalLbasize: nat, flogSize: nat,
                      ghost k: nat)
      requires Sane(Geometry(rawsize, lbasize, nfree)) && Fits(Geometry(rawsize, lbasize, nfree), k)
      requires arenaOff == ArenaStart(k) && size == ArenaSize(Geometry(rawsize, lbasize, nfree), k)
      requires left == rawsize - ArenaStart(k) - size
      requires internal == InternalNlba(Geometry(rawsize, lbasize, nfree), size)
      requires internalLbasize == InternalLbasize(lbasize) && flogSize == FlogArea(Geometry(rawsize, lbasize, nfree))
      modifies ns
      ensures ns.Snapshot() == WithArena(old(ns.Snapshot()), ns.isZeroed, Geometry(rawsize, lbasize, nfree), k)
    {
      ghost var g := Geometry(rawsize, lbasize, nfree);
      RegionsInOrder(g, k);
      var external := internal - nfree;
      var mapsize := PageAligned(external * MAP_ENTRY_SIZE);
      var nextoff := if left >= MIN_SIZE then size else 0;
      var infooff := size - INFO_SIZE;
      var flogoff := infooff - flogSize;
      var mapoff := flogoff - mapsize;
      var info := Info(lbasize, external, internalLbasize, internal, nfree,
                       nextoff, INFO_SIZE, mapoff, flogoff, infooff);
      assert info == InfoOf(g, k);
      if !ns.isZeroed {
        ns.zeroed := ns.zeroed + [(mapoff, mapsize)];
      }
      WriteFlogs(arenaOff + flogoff, external);
      ns.infos := ns.infos[arenaOff := info];
      ns.infos := ns.infos[arenaOff + infooff := info];
    }

    /** Computes the layout and, if asked to, writes it; fails when some arena is too small. */
    method WriteLayout(write: bool) returns (ok: bool)
      requires Sane(Geometry(rawsize, lbasize, nfree))
      modifies this`nlba, this`narena, ns
      ensures ok <==> Accepted(Geometry(rawsize, lbasize, nfree))
      ensures narena == ArenaCount(rawsize)
      ensures nlba == if ok then TotalNlba(Geometry(rawsize, lbasize, nfree), narena) else old(nlba)
      ensures ok && write ==>
                LaidOut(old(ns.Snapshot()), ns.Snapshot(), ns.isZeroed, Geometry(rawsize, lbasize, nfree), narena)
      ensures !write ==> ns.Snapshot() == old(ns.Snapshot())
    {
      narena := ArenaCount(rawsize);
      LoopStep(Geometry(rawsize, lbasize, nfree), 0);
      if InternalLbasize(lbasize) < LBA_ALIGNMENT {
        assert Accepted(Geometry(rawsize, lbasize, nfree)) ==> Fits(Geometry(rawsize, lbasize, nfree), 0);
        return false;
      }
      hide *;
      var total;
      ok, total := LayoutArenas(write);
      if ok {
        nlba := total;
      }
    }

    /** The loop over arenas; the number of turns is the number of arenas counted up front. */
    method LayoutArenas(write: bool) returns (ok: bool, total: nat)
      requires Sane(Geometry(rawsize, lbasize, nfree)) && LBA_ALIGNMENT <= InternalLbasize(lbasize)
      requires narena == ArenaCount(rawsize)
      modifies ns
      ensures ok <==> Accepted(Geometry(rawsize, lbasize, nfree))
      ensures ok ==> total == TotalNlba(Geometry(rawsize, lbasize, nfree), narena)
      ensures ok && write ==>
                LaidOut(old(ns.Snapshot()), ns.Snapshot(), ns.isZeroed, Geometry(rawsize, lbasize, nfree), narena)
      ensures !write ==> ns.Snapshot() == old(ns.Snapshot())
    {
      hide TotalNlba, Fits, InternalLbasize, LaidOut, WithArena, ArenaStart, ArenaCount, FlogArea, InternalNlba, ArenaSize, Left;
      var g := Geometry(rawsize, lbasize, nfree);
      var flogSize, internalLbasize := FlogArea(g), InternalLbasize(lbasize);
      var left, arenaNum, arenaOff := rawsize, 0, 0;
      total := 0;
      LoopStep(g, 0);
      NothingLaidOut(ns.Snapshot(), ns.isZeroed, g);
      while left >= MIN_SIZE
        invariant arenaNum <= narena == ArenaCount(rawsize)
        invariant FitsUpTo(g, arenaNum)
        invariant left == Left(g, arenaNum)
        invariant write && left >= MIN_SIZE ==> arenaOff == ArenaStart(arenaNum)
        invariant arenaNum < narena <==> left >= MIN_SIZE
        invariant total == TotalNlba(g, arenaNum)
        invariant write ==> LaidOut(old(ns.Snapshot()), ns.Snapshot(), ns.isZeroed, g, arenaNum)
        invariant !write ==> ns.Snapshot() == old(ns.Snapshot())
      {
        LoopStep(g, arenaNum);
        var size := left;
        if size > MAX_ARENA {
          size := MAX_ARENA;
        }
        left := left - size;
        var internal := InternalNlba(g, size);
        FitsMeansEnough(g, arenaNum);
        if internal < 2 * nfree {
          ok := false;
          return;
        }
        TotalMore(g, arenaNum);
        total := total + internal - nfree;
        if write {
          LaidOutMore(old(ns.Snapshot()), ns.Snapshot(), ns.isZeroed, g, arenaNum);
          WriteArena(arenaOff, size, left, internal, internalLbasize, flogSize, arenaNum);
          arenaOff := arenaOff + if left >= MIN_SIZE then size else 0;
        }
        arenaNum := arenaNum + 1;
      }
      ok := true;
    }

    lemma DefaultIsSane()
      requires MIN_SIZE <= rawsize && lbasize < WORD_LIMIT
      ensures Sane(Default())
    {
    }

    /** What the layout will be when it is written with the default number of free blocks. */
    ghost function Default(): (g: Geometry)
      ensures g.rawsize == rawsize && g.lbasize == lbasize
    {
      Geometry(rawsize, lbasize, DEFAULT_NFREE)
    }

    /**
     Follows the chain of info blocks. When one is missing the namespace is not laid out yet, and the sizes
     are computed that writing the layout will give; that, a block size or a chain that does not fit may fail.
     */
    method ReadLayout() returns (outcome: Outcome)
      requires MIN_SIZE <= rawsize && lbasize < WORD_LIMIT
      modifies this, ns
      ensures ns.Snapshot() == old(ns.Snapshot())
      ensures outcome == Blank ==>
                Accepted(Default()) && nfree == DEFAULT_NFREE
                && narena == ArenaCount(rawsize) && nlba == TotalNlba(Default(), narena)
      ensures match Follow(ns.infos, lbasize, 0, rawsize)
              case Missing => (if Accepted(Default()) then outcome == Blank else outcome == Rejected) && narena == ArenaCount(rawsize)
              case Broken => outcome == Rejected
              case Whole(count, smallest, total) =>
                outcome == Loaded && narena == count && nlba == total && nfree == Smallest(smallest, DEFAULT_NFREE)
    {
      hide TotalNlba, Fits, ArenaStart, ArenaCount, ArenaSize, Left, InfoOf, Sane, Follow, After;
      var count: nat, smallest: nat, left: nat, total: nat, arenaOff: nat := 0, WORD_LIMIT - 1, rawsize, 0, 0;
      nfree := DEFAULT_NFREE;
      ghost var all := Follow(ns.infos, lbasize, 0, rawsize);
      FollowSmall(ns.infos, lbasize, 0, rawsize);
      FollowStarts(all);
      while left >= MIN_SIZE
        invariant nfree == DEFAULT_NFREE && ns.Snapshot() == old(ns.Snapshot())
        invariant smallest <= WORD_LIMIT - 1
        invariant After(count, smallest, total, Follow(ns.infos, lbasize, arenaOff, left)) == all
        decreases left
      {
        if arenaOff !in ns.infos {
          FollowEnds(ns.infos, lbasize, arenaOff, left, count, smallest, total);
          DefaultIsSane();
          var ok := WriteLayout(false);
          return if ok then Blank else Rejected;
        }
        FollowStep(ns.infos, lbasize, arenaOff, left, count, smallest, total);
        count := count + 1;
        var info := ns.infos[arenaOff];
        if info.externalLbasize != lbasize || info.nfree == 0 || info.externalNlba == 0 {
          return Rejected;
        }
        if info.nextoff != 0 && info.nextoff != MAX_ARENA {
          return Rejected;
        }
        if info.nfree < smallest {
          smallest := info.nfree;
        }
        total := total + info.externalNlba;
        arenaOff := arenaOff + info.nextoff;
        if info.nextoff == 0 {
          break;
        }
        if info.nextoff > left {
          return Rejected;
        }
        left := left - info.nextoff;
      }
      FollowEnds(ns.infos, lbasize, arenaOff, left, count, smallest, total);
      narena, nlba := count, total;
      if smallest < nfree {
        nfree := smallest;
      }
      return Loaded;
    }
  }

  datatype Outcome = Loaded | Blank | Rejected

  /** What following the info blocks comes to. */
  datatype Chain = Missing | Broken | Whole(count: nat, smallest: nat, total: nat)

  /** The blocks of a chain from this offset on, with this much space left; the last names no further one. */
  function Follow(infos: map<nat, Info>, lbasize: nat, off: nat, left: nat): (c: Chain)
    decreases left
  {
    if left < MIN_SIZE then Whole(0, WORD_LIMIT - 1, 0)
    else if off !in infos then Missing
    else
      var i := infos[off];
      if i.externalLbasize != lbasize || i.nfree == 0 || i.externalNlba == 0 then Broken
      else if i.nextoff == 0 then Whole(1, Smallest(i.nfree, WORD_LIMIT - 1), i.externalNlba)
      else if i.nextoff != MAX_ARENA || i.nextoff > left then Broken
      else
        var rest := Follow(infos, lbasize, off + i.nextoff, left - i.nextoff);
        if rest.Whole? then Whole(rest.count + 1, Smallest(i.nfree, rest.smallest), i.externalNlba + rest.total) else rest
  }

  function Smallest(a: nat, b: nat): (s: nat)
    ensures s <= a && s <= b && (s == a || s == b)
  {
    if a < b then a else b
  }

  /** Blocks already followed, and those still to come. */
  function After(count: nat, smallest: nat, total: nat, rest: Chain): Chain {
    if rest.Whole? then Whole(count + rest.count, Smallest(smallest, rest.smallest), total + rest.total) else rest
  }

  lemma FollowStep(infos: map<nat, Info>, lbasize: nat, off: nat, left: nat, count: nat, smallest: nat, total: nat)
    requires off in infos && left >= MIN_SIZE
    ensures var i, all := infos[off], After(count, smallest, total, Follow(infos, lbasize, off, left));
            if i.externalLbasize != lbasize || i.nfree == 0 || i.externalNlba == 0 then all == Broken
            else if i.nextoff == 0 then
              smallest <= WORD_LIMIT - 1 ==> all == Whole(count + 1, Smallest(smallest, i.nfree), total + i.externalNlba)
            else if i.nextoff != MAX_ARENA || i.nextoff > left then all == Broken
            else all == After(count + 1, Smallest(smallest, i.nfree), total + i.externalNlba,
                              Follow(infos, lbasize, off + i.nextoff, left - i.nextoff))
  {
  }

  lemma FollowEnds(infos: map<nat, Info>, lbasize: nat, off: nat, left: nat, count: nat, smallest: nat, total: nat)
    ensures left < MIN_SIZE && smallest <= WORD_LIMIT - 1 ==>
              After(count, smallest, total, Follow(infos, lbasize, off, left)) == Whole(count, smallest, total)
    ensures left >= MIN_SIZE && off !in infos ==> After(count, smallest, total, Follow(infos, lbasize, off, left)) == Missing
  {
  }

  lemma FollowStarts(rest: Chain)
    ensures rest.Whole? && rest.smallest <= WORD_LIMIT - 1 ==> After(0, WORD_LIMIT - 1, 0, rest) == rest
    ensures !rest.Whole? ==> After(0, WORD_LIMIT - 1, 0, rest) == rest
  {
  }

  lemma {:induction false} FollowSmall(infos: map<nat, Info>, lbasize: nat, off: nat, left: nat)
    ensures var c := Follow(infos, lbasize, off, left); c.Whole? ==> c.smallest <= WORD_LIMIT - 1
    decreases left
  {
    if left >= MIN_SIZE && off in infos && 0 < infos[off].nextoff <= left {
      FollowSmall(infos, lbasize, off + infos[off].nextoff, left - infos[off].nextoff);
    }
  }

  /** 16 MiB and 32 bytes are an accepted size, and the reader looks for the flog pairs in the wrong places. */
  lemma UnalignedIsAccepted()
    ensures var g := Geometry(0x100_0020, 512, DEFAULT_NFREE);
            Accepted(g) && !FlogsAligned(g) && Fits(g, 0) && !PairsFound(FlogBase(g, 0), g.nfree)
  {
    var g := Geometry(0x100_0020, 512, DEFAULT_NFREE);
    assert Fits(g, 0);
    assert FitsUpTo(g, 1);
    FlogBaseMod(g, 0);
    PairsAgree(FlogBase(g, 0), g.nfree);
  }

  /** The primary info block of every arena is there. */
  ghost predicate InfosPresent(infos: map<nat, Info>, g: Geometry)
    requires Accepted(g)
  {
    forall k :: 0 <= k < ArenaCount(g.rawsize) ==>
      ArenaStart(k) in infos && Fits(g, k) && infos[ArenaStart(k)] == InfoOf(g, k)
  }

  /** A layout that has been written is what the reader needs. */
  lemma LaidOutIsPresent(before: Written, after: Written, isZeroed: bool, g: Geometry)
    requires Accepted(g) && LaidOut(before, after, isZeroed, g, ArenaCount(g.rawsize))
    ensures InfosPresent(after.infos, g)
  {
    forall k | 0 <= k < ArenaCount(g.rawsize)
      ensures ArenaStart(k) in after.infos && Fits(g, k) && after.infos[ArenaStart(k)] == InfoOf(g, k)
    {
      InfosWrittenAt(g, ArenaCount(g.rawsize), k);
    }
  }

  /** One turn of the reader's loop over a good layout. */
  lemma ReadStep(g: Geometry, k: nat)
    requires Accepted(g)
    ensures Left(g, 0) == g.rawsize && ArenaStart(0) == 0 && TotalNlba(g, 0) == 0
    ensures 0 < ArenaCount(g.rawsize)
    ensures k < ArenaCount(g.rawsize) ==> Left(g, k) >= MIN_SIZE
    ensures k < ArenaCount(g.rawsize) ==>
              && Fits(g, k) && FitsUpTo(g, k + 1)
              && var info := InfoOf(g, k);
              && info.externalLbasize == g.lbasize && info.nfree == g.nfree > 0 && info.externalNlba > 0
              && TotalNlba(g, k + 1) == TotalNlba(g, k) + info.externalNlba
              && if k + 1 < ArenaCount(g.rawsize)
                 then info.nextoff == MAX_ARENA <= Left(g, k) && Left(g, k + 1) == Left(g, k) - MAX_ARENA
                      && ArenaStart(k + 1) == ArenaStart(k) + MAX_ARENA
                 else info.nextoff == 0
  {
    LoopStep(g, k);
    if k < ArenaCount(g.rawsize) {
      assert Fits(g, k);
      RegionsInOrder(g, k);
    }
  }

  /** What the reader follows from arena k on, on a layout that is there: every arena once, and all their blocks. */
  lemma {:induction false} PresentIsFollowed(infos: map<nat, Info>, g: Geometry, k: nat)
    requires Accepted(g) && InfosPresent(infos, g) && k < ArenaCount(g.rawsize)
    ensures Left(g, 0) == g.rawsize && ArenaStart(0) == 0 && TotalNlba(g, 0) == 0 && FitsUpTo(g, k) && FitsUpTo(g, ArenaCount(g.rawsize))
    ensures var c := Follow(infos, g.lbasize, ArenaStart(k), Left(g, k));
            && c.Whole? && c.count == ArenaCount(g.rawsize) - k && c.smallest == Smallest(g.nfree, WORD_LIMIT - 1)
            && c.total + TotalNlba(g, k) == TotalNlba(g, ArenaCount(g.rawsize))
    decreases ArenaCount(g.rawsize) - k
  {
    hide ArenaCount, ArenaStart, Left, Fits, InfoOf, Sane, TotalNlba, ArenaSize;
    ReadStep(g, 0);
    ReadStep(g, k);
    if k + 1 < ArenaCount(g.rawsize) {
      PresentIsFollowed(infos, g, k + 1);
    }
  }

  lemma MapInsert<V>(a: map<nat, V>, b: map<nat, V>, j: nat, k: nat, v: V)
    ensures (a + b)[j := v][k := v] == a + b[j := v][k := v]
  {
  }

  lemma MapJoin<V>(a: map<nat, V>, b: map<nat, V>, c: map<nat, V>)
    ensures a + b + c == a + (b + c)
  {
  }

  lemma NothingLaidOut(w: Written, isZeroed: bool, g: Geometry)
    requires Sane(g)
    ensures LaidOut(w, w, isZeroed, g, 0) && TotalNlba(g, 0) == 0
  {
  }

  /** One more arena's writes on top of what is there. */
  ghost function WithArena(w: Written, isZeroed: bool, g: Geometry, k: nat): Written
    requires Sane(g) && Fits(g, k)
  {
    var info := InfoOf(g, k);
    Written(w.infos[ArenaStart(k) := info][ArenaStart(k) + info.infooff := info],
            w.flogs + ArenaPairs(g, k),
            w.zeroed + if isZeroed then [] else [(info.mapoff, MapArea(info.externalNlba))])
  }

  lemma LaidOutMore(before: Written, w: Written, isZeroed: bool, g: Geometry, k: nat)
    requires FitsUpTo(g, k) && Fits(g, k) && LaidOut(before, w, isZeroed, g, k)
    ensures FitsUpTo(g, k + 1) && LaidOut(before, WithArena(w, isZeroed, g, k), isZeroed, g, k + 1)
  {
    hide InfosWritten, FlogsWritten, Zeroings, InfoOf, ArenaPairs;
    ArenaWritten(g, k);
    MapInsert(before.infos, InfosWritten(g, k), ArenaStart(k), ArenaStart(k) + InfoOf(g, k).infooff, InfoOf(g, k));
    MapJoin(before.flogs, FlogsWritten(g, k), ArenaPairs(g, k));
  }

  lemma FitsMeansEnough(g: Geometry, k: nat)
    requires Sane(g) && LBA_ALIGNMENT <= InternalLbasize(g.lbasize)
    requires ArenaStart(k) <= g.rawsize && MIN_SIZE <= ArenaSize(g, k)
    ensures Fits(g, k) <==> InternalNlba(g, ArenaSize(g, k)) >= 2 * g.nfree
  {
  }

  lemma TotalMore(g: Geometry, k: nat)
    requires FitsUpTo(g, k) && Fits(g, k)
    ensures FitsUpTo(g, k + 1)
    ensures TotalNlba(g, k + 1) == TotalNlba(g, k) + InternalNlba(g, ArenaSize(g, k)) - g.nfree
  {
  }

  /** What laying out one more arena adds. */
  lemma ArenaWritten(g: Geometry, k: nat)
    requires FitsUpTo(g, k) && Fits(g, k)
    ensures FitsUpTo(g, k + 1)
    ensures FlogsWritten(g, k + 1) == FlogsWritten(g, k) + ArenaPairs(g, k)
    ensures var info := InfoOf(g, k);
            && InfosWritten(g, k + 1) == InfosWritten(g, k)[ArenaStart(k) := info][ArenaStart(k) + info.infooff := info]
            && Zeroings(g, k + 1) == Zeroings(g, k) + [(info.mapoff, MapArea(info.externalNlba))]
  {
  }

  /** The ranges zeroed for the maps: their offsets are passed relative to the arena. */
  ghost function Zeroings(g: Geometry, n: nat): seq<(nat, nat)>
    requires FitsUpTo(g, n)
  {
    if n == 0 then []
    else
      assert Fits(g, n - 1);
      var info := InfoOf(g, n - 1);
      Zeroings(g, n - 1) + [(info.mapoff, MapArea(info.externalNlba))]
  }

  // ----- External LBAs -----

  /** LBAs in the first k arenas. */
  function LbasBefore(external: seq<nat>, k: nat): nat
    requires k <= |external|
  {
    if k == 0 then 0 else LbasBefore(external, k - 1) + external[k - 1]
  }

  lemma {:induction false} LbasBeforeMonotone(external: seq<nat>, j: nat, k: nat)
    requires j <= k <= |external|
    ensures LbasBefore(external, j) <= LbasBefore(external, k)
    decreases k
  {
    if j < k {
      LbasBeforeMonotone(external, j, k - 1);
    }
  }

  /** Finds the arena an external LBA lives in and its number there. */
  method LbaToArenaLba(external: seq<nat>, lba: nat) returns (arena: nat, premap: nat)
    requires lba < LbasBefore(external, |external|)
    ensures arena < |external| && premap < external[arena]
    ensures LbasBefore(external, arena) + premap == lba
  {
    arena, premap := 0, lba;
    while arena < |external|
      invariant arena <= |external|
      invariant LbasBefore(external, arena) + premap == lba
    {
      if premap < external[arena] {
        break;
      }
      premap := premap - external[arena];
      arena := arena + 1;
    }
  }

  lemma LbasUpTo(external: seq<nat>, a: nat)
    requires a < |external|
    ensures LbasBefore(external, a + 1) == LbasBefore(external, a) + external[a]
  {
  }

  /** The answer is the only one: external LBAs and (arena, pre-map LBA) pairs correspond one to one. */
  lemma ArenaLbasAreUnique(external: seq<nat>, a: nat, p: nat, b: nat, q: nat)
    requires a < |external| && p < external[a] && b < |external| && q < external[b]
    ensures LbasBefore(external, a) + p < LbasBefore(external, |external|)
    ensures LbasBefore(external, a) + p == LbasBefore(external, b) + q <==> a == b && p == q
  {
    hide LbasBefore;
    LbasUpTo(external, a);
    LbasUpTo(external, b);
    LbasBeforeMonotone(external, a + 1, |external|);
    if a < b {
      LbasBeforeMonotone(external, a + 1, b);
    } else if b < a {
      LbasBeforeMonotone(external, b + 1, a);
    }
  }

  // ----- Data offsets -----

  /** The read path multiplies the whole 32-bit map entry, flag bits included. */
  function ReadOffset(entry: nat, internalLbasize: nat): nat {
    entry * internalLbasize % WORD_LIMIT
  }

  /** The write path masks the flag bits off first. */
  function WriteOffset(entry: nat, internalLbasize: nat): nat {
    entry % (LBA_MASK + 1) * internalLbasize % WORD_LIMIT
  }

  /** Because block sizes are multiples of four, the flag bits drop out of the read path's product. */
  lemma SameOffset(e: MapEntry, internalLbasize: nat)
    requires e.flags.Normal? && e.lba <= LBA_MASK && internalLbasize % LBA_ALIGNMENT == 0
    ensures ReadOffset(Pack(e), internalLbasize) == WriteOffset(Pack(e), internalLbasize)
    ensures WriteOffset(Pack(e), internalLbasize) == e.lba * internalLbasize % WORD_LIMIT
  {
    var units := internalLbasize / LBA_ALIGNMENT;
    assert internalLbasize == 256 * units;
    Scale(e.lba, 0xC000_0000, units);
    assert Pack(e) % (LBA_MASK + 1) == e.lba;
  }

  lemma Scale(lba: nat, flags: nat, units: nat)
    requires flags == 0xC000_0000
    ensures (lba + flags) * (256 * units) % WORD_LIMIT == lba * (256 * units) % WORD_LIMIT
  {
    assert (lba + flags) * (256 * units) == lba * (256 * units) + flags * (256 * units);
    assert flags * (256 * units) == 0x1_0000_0000 * (192 * units);
  }

  /** Two blocks of the data area share no byte. */
  predicate Apart(i: nat, j: nat, internalLbasize: nat) {
    var a, b := i * internalLbasize % WORD_LIMIT, j * internalLbasize % WORD_LIMIT;
    a + internalLbasize <= b || b + internalLbasize <= a
  }

  /**
   The 32-bit product keeps the blocks of an arena apart exactly when the offset of the last one
   fits 32 bits; otherwise some block overlaps block 0.
   */
  lemma BlocksApartIffOffsetsFit(n: nat, internalLbasize: nat)
    requires n > 0 && 0 < internalLbasize < WORD_LIMIT
    ensures (forall i, j :: 0 <= i < j < n ==> Apart(i, j, internalLbasize)) <==>
            (n - 1) * internalLbasize < WORD_LIMIT
  {
    if (n - 1) * internalLbasize < WORD_LIMIT {
      forall i, j | 0 <= i < j < n ensures Apart(i, j, internalLbasize) {
        Ordered(i, j, n, internalLbasize);
      }
    } else {
      var j := Quotient(WORD_LIMIT - 1, internalLbasize) + 1;
      FirstWrapped(j, n, internalLbasize);
      assert 0 < j < n && !Apart(0, j, internalLbasize);
    }
  }

  lemma Ordered(i: nat, j: nat, n: nat, l: nat)
    requires i < j < n && l > 0 && (n - 1) * l < WORD_LIMIT
    ensures i * l + l <= j * l < WORD_LIMIT
  {
    Smaller(l, j, i + 1);
    Smaller(l, n - 1, j);
    assert l * (i + 1) == i * l + l;
  }

  lemma FirstWrapped(j: nat, n: nat, l: nat)
    requires 0 < l < WORD_LIMIT && (n - 1) * l >= WORD_LIMIT && j > 0 && n > 0
    requires (j - 1) * l <= WORD_LIMIT - 1 < (j - 1) * l + l
    ensures 0 < j < n && j * l % WORD_LIMIT < l
  {
    assert j * l == (j - 1) * l + l;
    if n <= j {
      Smaller(l, j - 1, n - 1);
    }
  }

  lemma FullArenaBlocks()
    ensures var g := Geometry(MAX_ARENA, 512, DEFAULT_NFREE);
            && Sane(g) && InternalLbasize(512) == 512 && ArenaSize(g, 0) == MAX_ARENA
            && InternalNlba(g, MAX_ARENA) >= 0x4000_0000 - 0x100_0000
  {
    var g := Geometry(MAX_ARENA, 512, DEFAULT_NFREE);
    assert FlogArea(g) == 16384 && InternalLbasize(512) == 512;
    hide FlogArea, InternalLbasize;
  }

  /** A full arena of the smallest blocks is far beyond 32-bit offsets: its blocks overlap. */
  lemma FullArenaOverlaps()
    ensures var g := Geometry(MAX_ARENA, 512, DEFAULT_NFREE);
            && Sane(g) && Fits(g, 0)
            && (InfoOf(g, 0).internalNlba - 1) * InfoOf(g, 0).internalLbasize >= WORD_LIMIT
  {
    hide InternalNlba, FlogArea, Sane, InternalLbasize;
    FullArenaBlocks();
  }

  // ----- Zeroing the maps -----

  ghost predicate ByteZeroed(zeroed: seq<(nat, nat)>, b: nat) {
    exists i :: 0 <= i < |zeroed| && zeroed[i].0 <= b < zeroed[i].0 + zeroed[i].1
  }

  /** The map bytes of arena k, in namespace offsets. */
  predicate InMap(g: Geometry, k: nat, b: nat)
    requires Sane(g) && Fits(g, k)
  {
    var info := InfoOf(g, k);
    ArenaStart(k) + info.mapoff <= b < ArenaStart(k) + info.mapoff + info.externalNlba * MAP_ENTRY_SIZE
  }

  /** Every zeroed range lies in the first arena. */
  lemma {:induction false} ZeroingsAreLow(g: Geometry, n: nat)
    requires FitsUpTo(g, n)
    ensures |Zeroings(g, n)| == n
    ensures forall i :: 0 <= i < n ==> Zeroings(g, n)[i].0 + Zeroings(g, n)[i].1 <= MAX_ARENA
    ensures n > 0 ==> Fits(g, 0) && Zeroings(g, n)[0] == (InfoOf(g, 0).mapoff, MapArea(InfoOf(g, 0).externalNlba))
  {
    hide Fits, Sane, InfoOf, MapArea;
    if n > 0 {
      assert Fits(g, n - 1);
      ZeroingsAreLow(g, n - 1);
      MapIsLow(g, n - 1);
    }
  }

  /** A map ends inside its arena. */
  lemma MapIsLow(g: Geometry, k: nat)
    requires Sane(g) && Fits(g, k)
    ensures InfoOf(g, k).mapoff + MapArea(InfoOf(g, k).externalNlba) <= MAX_ARENA
  {
    hide Fits, Sane, InternalNlba, FlogArea, MapArea, InternalLbasize;
    RegionsInOrder(g, k);
  }

  /** Every map byte of every arena is zeroed. */
  ghost predicate MapsZeroed(g: Geometry, n: nat)
    requires FitsUpTo(g, n)
  {
    forall k, b :: 0 <= k < n && Fits(g, k) && InMap(g, k, b) ==> ByteZeroed(Zeroings(g, n), b)
  }

  lemma FirstMapZeroed(g: Geometry, b: nat)
    requires FitsUpTo(g, 1) && Fits(g, 0) && InMap(g, 0, b)
    ensures ByteZeroed(Zeroings(g, 1), b)
  {
    ZeroingsAreLow(g, 1);
    assert Zeroings(g, 1)[0].0 <= b < Zeroings(g, 1)[0].0 + Zeroings(g, 1)[0].1;
  }

  lemma SecondMapNotZeroed(g: Geometry, n: nat)
    requires FitsUpTo(g, n) && n > 1
    ensures !MapsZeroed(g, n)
  {
    assert Fits(g, 1);
    ZeroingsAreLow(g, n);
    RegionsInOrder(g, 1);
    hide InfoOf, Fits;
    var b := ArenaStart(1) + InfoOf(g, 1).mapoff;
    assert InMap(g, 1, b) && !ByteZeroed(Zeroings(g, n), b);
  }

  /**
   On a namespace that did not come zeroed, the map of every arena is zeroed exactly when there is
   only one: the offsets handed to the zeroing callback are relative to the arena.
   */
  lemma MapsZeroedIffOneArena(g: Geometry)
    requires Accepted(g)
    ensures MapsZeroed(g, ArenaCount(g.rawsize)) <==> ArenaCount(g.rawsize) == 1
  {
    LoopStep(g, 0);
    hide Fits, Zeroings, InMap;
    if ArenaCount(g.rawsize) == 1 {
      forall k, b | 0 <= k < 1 && Fits(g, k) && InMap(g, k, b) ensures ByteZeroed(Zeroings(g, 1), b) {
        FirstMapZeroed(g, b);
      }
    } else {
      SecondMapNotZeroed(g, ArenaCount(g.rawsize));
    }
  }

  /** Two full arenas are an accepted size, and the second one's map is not zeroed. */
  lemma TwoArenasAreAccepted()
    ensures var g := Geometry(2 * MAX_ARENA, 4096, DEFAULT_NFREE);
            && Accepted(g) && ArenaCount(g.rawsize) == 2 && !MapsZeroed(g, 2)
  {
    var g := Geometry(2 * MAX_ARENA, 4096, DEFAULT_NFREE);
    assert Fits(g, 0) && Fits(g, 1);
    assert FitsUpTo(g, 2);
    MapsZeroedIffOneArena(g);
  }
}
