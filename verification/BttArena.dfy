/**
 One arena of the block translation table as the object a single thread works on: reopening, the
 flog update, whole reads and writes, and the consistency check, each proved against the contents
 and the block ownership of the media.
 */
module BttArena {
  import opened BttMedia
  import opened BttWrites
  import opened BttProtocol

  datatype Status = Ok | Invalid

  class Arena {
    // On media
    const map_: array<MapEntry>
    const flogs: array<FlogPair>
    const data: array<Block>
    const lbasize: nat
    // At run time
    const rt: array<FlogRuntime>
    var error: bool

    ghost function Media(): Media
      reads map_, flogs, data
    {
      BttMedia.Media.Media(map_[..], flogs[..], data[..])
    }

    ghost predicate Separate() {
      && map_ as object != flogs && map_ as object != data && map_ as object != rt
      && flogs as object != data && flogs as object != rt && data as object != rt
      && rt.Length == flogs.Length
      && map_.Length > 0
    }

    /** Open and idle: consistent media, nothing pending, run-time flogs loaded. */
    ghost predicate Valid()
      reads map_, flogs, data, rt
    {
      && Separate()
      && Consistent(Media(), lbasize)
      && (forall k :: 0 <= k < flogs.Length ==> !Pending(Media(), k) && rt[k] == Load(flogs[k]))
    }

    ghost function Shown(): seq<Content>
      reads map_, flogs, data
      requires Consistent(Media(), lbasize)
    {
      Contents(Media(), lbasize)
    }

    constructor (map_: array<MapEntry>, flogs: array<FlogPair>, data: array<Block>, lbasize: nat)
      requires map_ as object != flogs && map_ as object != data && flogs as object != data
      requires map_.Length > 0
      ensures this.map_ == map_ && this.flogs == flogs && this.data == data && this.lbasize == lbasize
      ensures Separate() && !error && fresh(rt)
    {
      this.map_ := map_;
      this.flogs := flogs;
      this.data := data;
      this.lbasize := lbasize;
      this.rt := new FlogRuntime[flogs.Length](_ => FlogRuntime(Flog(0, MapEntry(Initial, 0), MapEntry(Initial, 0), 0), 0));
      this.error := false;
    }

    // ----- Reopening -----

    /** One of the copies names an LBA the arena does not have. */
    predicate OutOfRange(p: FlogPair, n: nat) {
      p.first.lba >= n || p.second.lba >= n
    }

    /** Loads one flog pair and, if its transaction is incomplete, completes it in the map. */
    method ReadFlogPair(k: nat) returns (status: Status)
      requires Separate() && k < flogs.Length
      modifies this, map_, rt
      ensures (status == Invalid) <==> OutOfRange(flogs[k], map_.Length)
      ensures (status == Invalid || Select(flogs[k]).BadSeq?) ==> map_[..] == old(map_[..]) && rt[..] == old(rt[..])
      ensures error <==> old(error) || (status == Ok && Select(flogs[k]).BadSeq?)
      ensures status == Ok && Select(flogs[k]).Current? ==> rt[..] == old(rt[..])[k := Load(flogs[k])]
      ensures status == Ok && (SecondFollows(flogs[k]) || (flogs[k].first.seqNo == 0 && flogs[k].second.seqNo != 0)) ==>
                rt[k] == FlogRuntime(flogs[k].second, 0)
      ensures status == Ok && (FirstFollows(flogs[k]) || (flogs[k].first.seqNo != 0 && flogs[k].second.seqNo == 0)) ==>
                rt[k] == FlogRuntime(flogs[k].first, 1)
      ensures Shape(old(Media())) ==> status == Ok && Media() == RecoverOne(old(Media()), k) && error == old(error)
    {
      var pair := flogs[k];
      if pair.first.lba >= map_.Length {
        return Invalid;
      }
      if pair.second.lba >= map_.Length {
        return Invalid;
      }
      assert Shape(Media()) ==> PairOk(pair, map_.Length);
      var current: Flog;
      var next: nat;
      if pair.first.seqNo == pair.second.seqNo {
        error := true;
        return Ok;
      } else if pair.first.seqNo == 0 {
        current, next := pair.second, 0;
      } else if pair.second.seqNo == 0 {
        current, next := pair.first, 1;
      } else if NextSeq(pair.first.seqNo) == pair.second.seqNo {
        current, next := pair.second, 0;
      } else {
        current, next := pair.first, 1;
      }
      rt[k] := FlogRuntime(current, next);
      if current.oldMap == current.newMap {
        return Ok;
      }
      var entry := map_[current.lba];
      if entry.flags.Initial? {
        entry := MapEntry(Normal, current.lba);
      }
      if current.newMap != entry && current.oldMap == entry {
        map_[current.lba] := current.newMap;
      }
      return Ok;
    }

    /** Loads all flog pairs; on consistent media this is recovery, and it leaves the arena idle. */
    method ReadFlogs() returns (status: Status)
      requires Separate()
      modifies this, map_, rt
      ensures flogs[..] == old(flogs[..])
      ensures status == Invalid <==> exists k :: 0 <= k < flogs.Length && OutOfRange(flogs[k], map_.Length)
      ensures status == Ok ==> (error <==> old(error) || exists k :: 0 <= k < flogs.Length && Select(flogs[k]).BadSeq?)
      ensures Consistent(old(Media()), lbasize) ==>
                && status == Ok && error == old(error)
                && Media() == Recover(old(Media()))
                && Valid()
                && Shown() == Durable(old(Media()), lbasize)
    {
      hide Partition, Pending, CurrentFlog;
      ghost var before := Media();
      ghost var good := Consistent(before, lbasize);
      var k := 0;
      if good {
        RecoverSettles(before, lbasize);
      }
      while k < flogs.Length
        invariant k <= flogs.Length
        invariant flogs[..] == before.flogs && data[..] == before.data
        invariant forall j :: 0 <= j < k ==> !OutOfRange(flogs[j], map_.Length)
        invariant error <==> old(error) || exists j :: 0 <= j < k && Select(flogs[j]).BadSeq?
        invariant good ==>
            && Shape(Media()) && error == old(error)
            && RecoverFrom(Media(), k) == Recover(before)
            && forall j :: 0 <= j < k ==> rt[j] == Load(flogs[j])
      {
        status := ReadFlogPair(k);
        if status == Invalid {
          return;
        }
        k := k + 1;
      }
      status := Ok;
    }

    // ----- Updating a block -----

    /** Writes a new flog entry over the stale copy, sequence number last. */
    method FlogUpdate(lane: nat, lba: nat, old_: MapEntry, new_: MapEntry)
      requires Separate() && lane < flogs.Length && rt[lane].next < 2
      modifies flogs, rt
      ensures var seqNo := NextSeq(old(rt[lane].flog.seqNo));
              && Media() == PutHalf2(PutHalf1(old(Media()), lane, old(rt[lane].next), lba, old_),
                                     lane, old(rt[lane].next), new_, seqNo)
              && rt[..] == old(rt[..])[lane := FlogRuntime(Flog(lba, old_, new_, seqNo), 1 - old(rt[lane].next))]
      ensures old(rt[lane].flog.seqNo) == 1 ==> flogs[lane].Slot(old(rt[lane].next)).seqNo == 2
      ensures old(rt[lane].flog.seqNo) == 2 ==> flogs[lane].Slot(old(rt[lane].next)).seqNo == 3
      ensures old(rt[lane].flog.seqNo) == 3 ==> flogs[lane].Slot(old(rt[lane].next)).seqNo == 1
    {
      var next, seqNo := rt[lane].next, NextSeq(rt[lane].flog.seqNo);
      flogs[lane] := flogs[lane].With(next, flogs[lane].Slot(next).(lba := lba, oldMap := old_));
      assert Media() == PutHalf1(old(Media()), lane, next, lba, old_);
      flogs[lane] := flogs[lane].With(next, flogs[lane].Slot(next).(newMap := new_, seqNo := seqNo));
      rt[lane] := FlogRuntime(Flog(lba, old_, new_, seqNo), 1 - next);
    }

    lemma FreeBlockInRange(lane: nat)
      requires Valid() && lane < flogs.Length
      ensures FlogBlock(Media(), lane) == rt[lane].flog.oldMap.lba < data.Length
    {
      assert OwnedBlock(Media(), map_.Length + lane) == FlogBlock(Media(), lane);
    }

    /** Replaces one block; everything else keeps its contents and the arena is idle again. */
    method Write(lane: nat, lba: nat, buf: Block) returns (status: Status)
      requires Valid() && lane < flogs.Length && |buf| == lbasize
      modifies map_, flogs, data, rt
      ensures Valid()
      ensures (status == Invalid) <==> lba >= map_.Length || error
      ensures Shown() == if status == Ok then old(Shown())[lba := Bytes(buf)] else old(Shown())
    {
      if lba >= map_.Length {
        return Invalid;
      }
      if error {
        return Invalid;
      }
      var free := MapEntry(Normal, rt[lane].flog.oldMap.lba);
      ghost var m := Media();
      FreeBlockInRange(lane);
      WriteWholeReplaces(m, lbasize, lane, lba, buf);
      data[free.lba] := buf;
      assert Media() == m.(data := m.data[free.lba := buf]);
      var old_ := Normalized(map_[lba], lba);
      FlogUpdate(lane, lba, old_, free);
      map_[lba] := free;
      assert Media() == WriteWhole(m, lane, lba, buf);
      return Ok;
    }

    /** Sets the zero or error flag of one map entry. */
    method SetFlagOf(lba: nat, flag: SetFlag) returns (status: Status)
      requires Valid()
      modifies map_
      ensures Valid()
      ensures (status == Invalid) <==> lba >= map_.Length || error
      ensures Shown() ==
              if status == Ok then old(Shown())[lba := if flag.SetZero? then Bytes(Zeros(lbasize)) else Bad]
              else old(Shown())
      ensures map_[..] ==
              if status == Invalid || (flag.SetZero? && old(map_[lba].flags.Zero?)) then old(map_[..])
              else old(map_[..])[lba := MapEntry(flag.Flag(), old(MapBlock(Media(), lba)))]
    {
      if lba >= map_.Length {
        return Invalid;
      }
      if error {
        return Invalid;
      }
      var old_ := Normalized(map_[lba], lba);
      if flag.SetZero? && IsZeroOrInitial(old_) {
        return Ok;
      }
      ghost var m := Media();
      RecoverNothing(m, 0);
      FlagKeepsConsistent(m, lbasize, lba, flag.Flag());
      FlagIsCommit(m, lbasize, lba, flag.Flag());
      map_[lba] := MapEntry(flag.Flag(), old_.lba);
      assert Media() == m.(map_ := m.map_[lba := MapEntry(flag.Flag(), MapBlock(m, lba))]);
      RecoverNothing(Media(), 0);
      return Ok;
    }

    /** Reads one block: its error flag, zeros, or its mapped block. */
    method Read(lba: nat) returns (status: Status, content: Content)
      requires Valid()
      ensures (status == Invalid) <==> lba >= map_.Length
      ensures status == Ok ==> content == Shown()[lba]
    {
      if lba >= map_.Length {
        return Invalid, Bad;
      }
      var entry := map_[lba];
      if entry.flags.Error? {
        return Ok, Bad;
      }
      if IsZeroOrInitial(entry) {
        return Ok, Bytes(Zeros(lbasize));
      }
      assert OwnedBlock(Media(), lba) < data.Length;
      return Ok, Bytes(data[entry.lba]);
    }

    // ----- The consistency check -----

    /** Marks one more named block, or notes that it is marked already. */
    static method Mark(bitmap: array<bool>, block: nat, consistentSoFar: bool, ghost named: seq<nat>, ghost i: nat)
      returns (consistent: bool)
      requires Marks(bitmap[..], named, i) && i < |named| && named[i] == block < bitmap.Length
      requires consistentSoFar == Distinct(named[..i])
      modifies bitmap
      ensures Marks(bitmap[..], named, i + 1)
      ensures consistent == Distinct(named[..i + 1])
    {
      MarkOne(bitmap[..], named, i);
      consistent := consistentSoFar;
      if bitmap[block] {
        assert bitmap[..][block := true] == bitmap[..];
        consistent := false;
      } else {
        ghost var marked := bitmap[..][block := true];
        bitmap[block] := true;
        assert bitmap[..] == marked;
      }
    }

    /** First pass of the check: the blocks the map names; stops at one outside the arena. */
    method MarkMap(bitmap: array<bool>) returns (inRange: bool, consistent: bool)
      requires bitmap.Length == data.Length && forall b :: 0 <= b < bitmap.Length ==> !bitmap[b]
      requires bitmap as object != map_ && bitmap as object != flogs && bitmap as object != data && bitmap as object != rt
      modifies bitmap
      ensures inRange == AllBelow(MapBlocks(map_[..]), data.Length)
      ensures inRange ==> Marks(bitmap[..], MapBlocks(map_[..]), map_.Length)
      ensures inRange ==> consistent == Distinct(MapBlocks(map_[..]))
    {
      hide Marks, Distinct, MapBlocks, AllBelow, Normalized;
      consistent := true;
      ghost var named := MapBlocks(map_[..]);
      var remaining, base, nextIndex: nat := 0, 0, 0;
      var i := 0;
      NothingMarked(bitmap[..], map_[..]);
      while i < map_.Length
        invariant 0 <= i <= map_.Length && remaining % 4 == 0 && 0 <= remaining
        invariant remaining > 0 ==> base + nextIndex == i && 4 * i + remaining <= 4 * map_.Length
        invariant Marks(bitmap[..], named, i)
        invariant consistent == Distinct(named[..i])
      {
        if remaining == 0 {
          // a mapping of the remaining map area may come back shorter than asked for
          var mlen: int :| 4 <= mlen <= 4 * (map_.Length - i) && mlen % 4 == 0;
          remaining, base, nextIndex := mlen, i, 0;
        }
        var entry := map_[base + nextIndex];
        var block := if entry.flags.Initial? then i else entry.lba;
        NamedAt(map_[..], i, data.Length);
        if block >= data.Length {
          return false, false;
        }
        consistent := Mark(bitmap, block, consistent, named, i);
        nextIndex, remaining, i := nextIndex + 1, remaining - 4, i + 1;
      }
      inRange := true;
      AllNamed(bitmap[..], named);
    }

    lemma NothingMarked(bitmap: seq<bool>, es: seq<MapEntry>)
      requires forall b :: 0 <= b < |bitmap| ==> !bitmap[b]
      ensures |MapBlocks(es)| == |es| && Marks(bitmap, MapBlocks(es), 0) && Distinct(MapBlocks(es)[..0])
    {
    }

    lemma NamedAt(es: seq<MapEntry>, i: nat, n: nat)
      requires i < |es|
      ensures |MapBlocks(es)| == |es| && MapBlocks(es)[i] == if es[i].flags.Initial? then i else es[i].lba
      ensures MapBlocks(es)[i] >= n ==> !AllBelow(MapBlocks(es), n)
    {
    }

    lemma AllNamed(bitmap: seq<bool>, named: seq<nat>)
      requires Marks(bitmap, named, |named|)
      ensures AllBelow(named, |bitmap|) && named[..|named|] == named
    {
    }

    /** Second pass: the free blocks the run-time flog names. */
    method MarkFlogs(bitmap: array<bool>, consistentSoFar: bool) returns (consistent: bool)
      requires bitmap.Length == data.Length
      requires bitmap as object != map_ && bitmap as object != flogs && bitmap as object != data && bitmap as object != rt
      requires forall k :: 0 <= k < rt.Length ==> rt[k].flog.oldMap.lba < data.Length
      requires Marks(bitmap[..], MapBlocks(map_[..]), map_.Length)
      requires consistentSoFar == Distinct(MapBlocks(map_[..]))
      modifies bitmap
      ensures Marks(bitmap[..], MapBlocks(map_[..]) + FreeBlocks(rt[..]), map_.Length + rt.Length)
      ensures consistent == Distinct(MapBlocks(map_[..]) + FreeBlocks(rt[..]))
    {
      consistent := consistentSoFar;
      ghost var named := MapBlocks(map_[..]) + FreeBlocks(rt[..]);
      MarksExtend(bitmap[..], MapBlocks(map_[..]), FreeBlocks(rt[..]));
      var k := 0;
      while k < rt.Length
        invariant 0 <= k <= rt.Length
        invariant Marks(bitmap[..], named, map_.Length + k)
        invariant consistent == Distinct(named[..map_.Length + k])
      {
        var block := rt[k].flog.oldMap.lba;
        assert named[map_.Length + k] == block;
        consistent := Mark(bitmap, block, consistent, named, map_.Length + k);
        k := k + 1;
      }
      assert named[..map_.Length + k] == named;
    }

    /**
     Marks every block named by the map and then every free block of the flog. The answer is -1 when
     the map names a block outside the arena, and otherwise 1 exactly when no block is named twice
     and none is missing.
     */
    method CheckArena() returns (code: int)
      requires forall k :: 0 <= k < rt.Length ==> rt[k].flog.oldMap.lba < data.Length
      ensures code == -1 || code == 0 || code == 1
      ensures code == -1 <==> !AllBelow(MapBlocks(map_[..]), data.Length)
      ensures code == 1 <==> ExactCover(MapBlocks(map_[..]) + FreeBlocks(rt[..]), data.Length)
    {
      ghost var named := MapBlocks(map_[..]) + FreeBlocks(rt[..]);
      var bitmap := new bool[data.Length](_ => false);
      var inRange, consistent := MarkMap(bitmap);
      if !inRange {
        if ExactCover(named, data.Length) {
          CoverCoversPrefix(MapBlocks(map_[..]), FreeBlocks(rt[..]), data.Length);
        }
        return -1;
      }
      consistent := MarkFlogs(bitmap, consistent);
      assert named[..map_.Length + rt.Length] == named;
      var b := 0;
      while b < data.Length
        invariant 0 <= b <= data.Length
        invariant consistent == (Distinct(named) && forall c :: 0 <= c < b ==> c in named)
      {
        assert bitmap[..][b] == (b in named);
        if !bitmap[b] {
          consistent := false;
        }
        b := b + 1;
      }
      return if consistent then 1 else 0;
    }

    /** The check accepts every arena that is open and idle. */
    lemma IdlePassesCheck()
      requires Valid()
      ensures ExactCover(MapBlocks(map_[..]) + FreeBlocks(rt[..]), data.Length)
    {
      var m, named := Media(), MapBlocks(map_[..]) + FreeBlocks(rt[..]);
      forall i | 0 <= i < data.Length ensures named[i] == OwnedBlock(m, i) {
      }
      forall b | 0 <= b < data.Length ensures b in named {
        EveryBlockIsOwned(m, b);
      }
    }
  }

  /** The block each map entry names. */
  ghost function MapBlocks(es: seq<MapEntry>): (bs: seq<nat>) {
    seq(|es|, i requires 0 <= i < |es| => Normalized(es[i], i).lba)
  }

  /** The free block each flog entry names. */
  ghost function FreeBlocks(rt: seq<FlogRuntime>): (bs: seq<nat>) {
    seq(|rt|, k requires 0 <= k < |rt| => rt[k].flog.oldMap.lba)
  }

  ghost predicate Distinct(s: seq<nat>) {
    forall i, j :: 0 <= i < j < |s| ==> s[i] != s[j]
  }

  ghost predicate AllBelow(s: seq<nat>, n: nat) {
    forall i :: 0 <= i < |s| ==> s[i] < n
  }

  /** Every block below n is named exactly once, and nothing else is named. */
  ghost predicate ExactCover(s: seq<nat>, n: nat) {
    && AllBelow(s, n)
    && Distinct(s)
    && (forall b :: 0 <= b < n ==> b in s)
  }

  /** The bitmap marks exactly the blocks among the first i named. */
  ghost predicate Marks(bitmap: seq<bool>, named: seq<nat>, i: nat) {
    && i <= |named|
    && (forall b :: 0 <= b < |bitmap| ==> bitmap[b] == (b in named[..i]))
    && (forall j :: 0 <= j < i ==> named[j] < |bitmap|)
  }

  lemma MarksExtend(bitmap: seq<bool>, a: seq<nat>, b: seq<nat>)
    requires Marks(bitmap, a, |a|)
    ensures Marks(bitmap, a + b, |a|) && Distinct((a + b)[..|a|]) == Distinct(a)
  {
    assert (a + b)[..|a|] == a == a[..|a|];
  }

  lemma CoverCoversPrefix(a: seq<nat>, b: seq<nat>, n: nat)
    requires ExactCover(a + b, n)
    ensures AllBelow(a, n)
  {
    forall i | 0 <= i < |a| ensures a[i] < n {
      assert a[i] == (a + b)[i];
    }
  }

  lemma MarkOne(bitmap: seq<bool>, named: seq<nat>, i: nat)
    requires Marks(bitmap, named, i) && i < |named| && named[i] < |bitmap|
    ensures Marks(bitmap[named[i] := true], named, i + 1)
    ensures Distinct(named[..i + 1]) == (Distinct(named[..i]) && !bitmap[named[i]])
  {
    assert named[..i + 1] == named[..i] + [named[i]];
  }

  /** An arena the check accepts, and in which nothing is pending, has its blocks partitioned. */
  lemma CheckedIsPartition(m: Media)
    requires Shape(m) && forall k :: 0 <= k < |m.flogs| ==> !Pending(m, k)
    requires ExactCover(MapBlocks(m.map_) + FreeBlocks(seq(|m.flogs|, k requires 0 <= k < |m.flogs| => Load(m.flogs[k]))), |m.data|)
    ensures Partition(m)
  {
    var named := MapBlocks(m.map_) + FreeBlocks(seq(|m.flogs|, k requires 0 <= k < |m.flogs| => Load(m.flogs[k])));
    forall i | 0 <= i < |m.data| ensures OwnedBlock(m, i) == named[i] {
    }
  }
}
