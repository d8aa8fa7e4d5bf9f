/**
 The durable writes of the block translation table, one lemma pair each: what the write keeps of
 the media's invariant, and what it changes of the contents a reopening would show.
 */
module BttWrites {
  import opened BttMedia

  /** The first half of a flog update: LBA and old entry of the copy that is not current. */
  function PutHalf1(m: Media, k: nat, next: nat, lba: nat, old_: MapEntry): Media
    requires k < |m.flogs| && next < 2
  {
    m.(flogs := m.flogs[k := m.flogs[k].With(next, m.flogs[k].Slot(next).(lba := lba, oldMap := old_))])
  }

  /** The second half: new entry and sequence number, which makes the copy current. */
  function PutHalf2(m: Media, k: nat, next: nat, newMap: MapEntry, seqNo: nat): Media
    requires k < |m.flogs| && next < 2
  {
    m.(flogs := m.flogs[k := m.flogs[k].With(next, m.flogs[k].Slot(next).(newMap := newMap, seqNo := seqNo))])
  }

  // ----- Data blocks -----

  /** Data lives apart from map and flog: overwriting a block changes no owner. */
  lemma DataKeepsConsistent(m: Media, lbasize: nat, b: nat, block: Block)
    requires Consistent(m, lbasize) && b < |m.data| && |block| == lbasize
    ensures Consistent(m.(data := m.data[b := block]), lbasize)
    ensures forall k :: 0 <= k < |m.flogs| ==>
              Pending(m.(data := m.data[b := block]), k) == Pending(m, k)
              && FlogBlock(m.(data := m.data[b := block]), k) == FlogBlock(m, k)
  {
    PartitionSame(m, m.(data := m.data[b := block]));
  }

  lemma DataIsInvisibleAt(m: Media, lbasize: nat, k: nat, block: Block, lba: nat)
    requires Consistent(m, lbasize) && k < |m.flogs| && !Pending(m, k) && |block| == lbasize && lba < |m.map_|
    requires FlogBlock(m, k) < |m.data|
    requires Consistent(m.(data := m.data[FlogBlock(m, k) := block]), lbasize)
    ensures Shape(m) && Durable(m.(data := m.data[FlogBlock(m, k) := block]), lbasize)[lba] == Durable(m, lbasize)[lba]
  {
    hide Consistent, Partition, Durable, Shape, Pending;
    BlocksApart(m, lbasize, k, lba);
    var r := m.(data := m.data[FlogBlock(m, k) := block]);
    OnlyDataDiffers(m, r);
    DurableAt(m, lbasize, lba);
    DurableAt(r, lbasize, lba);
  }

  /** The block of flog pair k is no other pair's and not mapped. */
  lemma BlocksApart(m: Media, lbasize: nat, k: nat, lba: nat)
    requires Consistent(m, lbasize) && k < |m.flogs| && lba < |m.map_|
    ensures Shape(m) && MapBlock(m, lba) != FlogBlock(m, k)
    ensures forall j :: 0 <= j < |m.flogs| && j != k ==> FlogBlock(m, j) != FlogBlock(m, k)
  {
    hide Partition;
    OwnersDiffer(m, lba, |m.map_| + k);
    forall j | 0 <= j < |m.flogs| && j != k ensures FlogBlock(m, j) != FlogBlock(m, k) {
      OwnersDiffer(m, |m.map_| + j, |m.map_| + k);
    }
  }

  lemma OnlyDataDiffers(m: Media, r: Media)
    requires Shape(m) && r.flogs == m.flogs && r.map_ == m.map_ && |r.data| == |m.data|
    ensures Shape(r)
    ensures forall j, lba: nat :: 0 <= j < |m.flogs| ==> PendingFor(r, j, lba) == PendingFor(m, j, lba)
    ensures forall j :: 0 <= j < |m.flogs| ==> FlogBlock(r, j) == FlogBlock(m, j)
  {
  }

  /** Writing the free block of a settled flog pair shows at no LBA, neither now nor after a crash. */
  lemma DataIsInvisible(m: Media, lbasize: nat, k: nat, block: Block)
    requires Consistent(m, lbasize) && k < |m.flogs| && !Pending(m, k) && |block| == lbasize
    requires FlogBlock(m, k) < |m.data|
    ensures var r := m.(data := m.data[FlogBlock(m, k) := block]);
            Consistent(r, lbasize) && Durable(r, lbasize) == Durable(m, lbasize)
  {
    var r := m.(data := m.data[FlogBlock(m, k) := block]);
    DataKeepsConsistent(m, lbasize, FlogBlock(m, k), block);
    forall lba | 0 <= lba < |m.map_| ensures Durable(r, lbasize)[lba] == Durable(m, lbasize)[lba] {
      DataIsInvisibleAt(m, lbasize, k, block, lba);
    }
  }

  // ----- Flog halves -----

  /** Overwriting LBA and old entry of the stale copy changes nothing that recovery looks at. */
  lemma Half1KeepsConsistent(m: Media, lbasize: nat, k: nat, lba: nat, old_: MapEntry)
    requires Consistent(m, lbasize) && k < |m.flogs| && lba < |m.map_|
    ensures var r := PutHalf1(m, k, 1 - CurrentIndex(m.flogs[k]), lba, old_);
            && Consistent(r, lbasize)
            && (forall j :: 0 <= j < |m.flogs| ==>
                  && CurrentFlog(r.flogs[j]) == CurrentFlog(m.flogs[j])
                  && CurrentIndex(r.flogs[j]) == CurrentIndex(m.flogs[j])
                  && Pending(r, j) == Pending(m, j) && FlogBlock(r, j) == FlogBlock(m, j))
            && StaleFlog(r.flogs[k]).lba == lba && StaleFlog(r.flogs[k]).oldMap == old_
  {
    var r := PutHalf1(m, k, 1 - CurrentIndex(m.flogs[k]), lba, old_);
    forall j | 0 <= j < |m.flogs|
      ensures CurrentFlog(r.flogs[j]) == CurrentFlog(m.flogs[j]) && PairOk(r.flogs[j], |m.map_|)
              && CurrentIndex(r.flogs[j]) == CurrentIndex(m.flogs[j])
    {
      assert PairOk(m.flogs[j], |m.map_|);
    }
    assert Shape(r);
    PartitionSame(m, r);
  }

  /** The second half alone makes the entry current and pending, and moves no block. */
  lemma Half2Commits(m: Media, lbasize: nat, k: nat, lba: nat, old_: MapEntry)
    requires Consistent(m, lbasize) && k < |m.flogs| && lba < |m.map_|
    requires !Pending(m, k)
    requires StaleFlog(m.flogs[k]).lba == lba && StaleFlog(m.flogs[k]).oldMap == old_
    requires old_ == Normalized(m.map_[lba], lba)
    requires forall j :: 0 <= j < |m.flogs| && Pending(m, j) ==> CurrentFlog(m.flogs[j]).lba != lba
    ensures var cur := CurrentFlog(m.flogs[k]);
            var free := MapEntry(Normal, cur.oldMap.lba);
            var r := PutHalf2(m, k, 1 - CurrentIndex(m.flogs[k]), free, NextSeq(cur.seqNo));
            && Consistent(r, lbasize)
            && CurrentFlog(r.flogs[k]) == Flog(lba, old_, free, NextSeq(cur.seqNo))
            && CurrentIndex(r.flogs[k]) == 1 - CurrentIndex(m.flogs[k])
            && Pending(r, k)
            && (forall j :: 0 <= j < |m.flogs| ==> FlogBlock(r, j) == FlogBlock(m, j))
            && (forall j :: 0 <= j < |m.flogs| && j != k ==>
                  r.flogs[j] == m.flogs[j] && Pending(r, j) == Pending(m, j))
  {
    var cur := CurrentFlog(m.flogs[k]);
    var free := MapEntry(Normal, cur.oldMap.lba);
    var r := PutHalf2(m, k, 1 - CurrentIndex(m.flogs[k]), free, NextSeq(cur.seqNo));
    assert PairOk(m.flogs[k], |m.map_|);
    assert CurrentFlog(r.flogs[k]) == Flog(lba, old_, free, NextSeq(cur.seqNo));
    assert PairOk(r.flogs[k], |m.map_|);
    assert Shape(r);
    OwnersDiffer(m, lba, |m.map_| + k);
    assert OwnedBlock(m, |m.map_| + k) == FlogBlock(m, k);
    assert Pending(r, k);
    PartitionSame(m, r);
  }

  /** The first half of a flog update changes nothing a reopening would show. */
  lemma Half1IsInvisible(m: Media, lbasize: nat, k: nat, lba: nat, old_: MapEntry)
    requires Consistent(m, lbasize) && k < |m.flogs| && lba < |m.map_|
    ensures var r := PutHalf1(m, k, 1 - CurrentIndex(m.flogs[k]), lba, old_);
            Consistent(r, lbasize) && Durable(r, lbasize) == Durable(m, lbasize)
  {
    var r := PutHalf1(m, k, 1 - CurrentIndex(m.flogs[k]), lba, old_);
    Half1KeepsConsistent(m, lbasize, k, lba, old_);
    forall i | 0 <= i < |m.map_| ensures Durable(r, lbasize)[i] == Durable(m, lbasize)[i] {
      DurableAt(m, lbasize, i);
      DurableAt(r, lbasize, i);
      forall j | 0 <= j < |m.flogs| ensures PendingFor(r, j, i) == PendingFor(m, j, i) {
      }
    }
  }

  /** The second half makes the whole new block durable at its LBA, and changes no other LBA. */
  lemma Half2IsCommit(m: Media, lbasize: nat, k: nat, lba: nat, old_: MapEntry)
    requires Consistent(m, lbasize) && k < |m.flogs| && lba < |m.map_|
    requires !Pending(m, k) && FlogBlock(m, k) < |m.data|
    requires StaleFlog(m.flogs[k]).lba == lba && StaleFlog(m.flogs[k]).oldMap == old_
    requires old_ == Normalized(m.map_[lba], lba)
    requires forall j :: 0 <= j < |m.flogs| && Pending(m, j) ==> CurrentFlog(m.flogs[j]).lba != lba
    ensures var cur := CurrentFlog(m.flogs[k]);
            var r := PutHalf2(m, k, 1 - CurrentIndex(m.flogs[k]), MapEntry(Normal, cur.oldMap.lba), NextSeq(cur.seqNo));
            && Consistent(r, lbasize)
            && Durable(r, lbasize) == Durable(m, lbasize)[lba := Bytes(m.data[FlogBlock(m, k)])]
  {
    var cur := CurrentFlog(m.flogs[k]);
    var r := PutHalf2(m, k, 1 - CurrentIndex(m.flogs[k]), MapEntry(Normal, cur.oldMap.lba), NextSeq(cur.seqNo));
    Half2Commits(m, lbasize, k, lba, old_);
    forall i | 0 <= i < |m.map_|
      ensures Durable(r, lbasize)[i] == Durable(m, lbasize)[lba := Bytes(m.data[FlogBlock(m, k)])][i]
    {
      DurableAt(m, lbasize, i);
      DurableAt(r, lbasize, i);
      forall j | 0 <= j < |m.flogs| && j != k ensures PendingFor(r, j, i) == PendingFor(m, j, i) {
      }
      assert PendingFor(r, k, i) == (i == lba) && !PendingFor(m, k, i);
    }
  }

  // ----- Map flags -----

  /** Changing the flags of an entry keeps its block, so no owner changes. */
  lemma FlagKeepsConsistent(m: Media, lbasize: nat, lba: nat, flags: Flags)
    requires Consistent(m, lbasize) && lba < |m.map_| && !flags.Initial?
    requires forall j :: 0 <= j < |m.flogs| && Pending(m, j) ==> CurrentFlog(m.flogs[j]).lba != lba
    ensures var r := m.(map_ := m.map_[lba := MapEntry(flags, MapBlock(m, lba))]);
            && Consistent(r, lbasize)
            && forall j :: 0 <= j < |m.flogs| ==>
                 Pending(r, j) == Pending(m, j) && FlogBlock(r, j) == FlogBlock(m, j)
  {
    var e := MapEntry(flags, MapBlock(m, lba));
    var r := m.(map_ := m.map_[lba := e]);
    forall j | 0 <= j < |m.flogs|
      ensures Pending(r, j) == Pending(m, j) && FlogBlock(r, j) == FlogBlock(m, j)
    {
      OwnersDiffer(m, lba, |m.map_| + j);
      assert OwnedBlock(m, |m.map_| + j) == FlogBlock(m, j);
      if !Pending(m, j) {
        NotPendingStays(m, r, j, lba, e);
      }
    }
    PartitionSame(m, r);
  }

  /** Setting a flag changes how its LBA reads, now and after a crash, and no other LBA. */
  lemma FlagIsCommit(m: Media, lbasize: nat, lba: nat, flags: Flags)
    requires Consistent(m, lbasize) && lba < |m.map_| && (flags.Zero? || flags.Error?)
    requires forall j :: 0 <= j < |m.flogs| && Pending(m, j) ==> CurrentFlog(m.flogs[j]).lba != lba
    ensures var r := m.(map_ := m.map_[lba := MapEntry(flags, MapBlock(m, lba))]);
            && Consistent(r, lbasize)
            && Durable(r, lbasize) ==
               Durable(m, lbasize)[lba := if flags.Zero? then Bytes(Zeros(lbasize)) else Bad]
  {
    var r := m.(map_ := m.map_[lba := MapEntry(flags, MapBlock(m, lba))]);
    FlagKeepsConsistent(m, lbasize, lba, flags);
    forall i | 0 <= i < |m.map_|
      ensures Durable(r, lbasize)[i] ==
              Durable(m, lbasize)[lba := if flags.Zero? then Bytes(Zeros(lbasize)) else Bad][i]
    {
      DurableAt(m, lbasize, i);
      DurableAt(r, lbasize, i);
      forall j | 0 <= j < |m.flogs| ensures PendingFor(r, j, i) == PendingFor(m, j, i) {
      }
      forall j | 0 <= j < |m.flogs| ensures !PendingFor(m, j, lba) {
      }
    }
  }

  // ----- A whole write -----

  /** The data write and both flog halves of an undisturbed block write, in order. */
  function WriteToFlog(m: Media, k: nat, lba: nat, block: Block): Media
    requires Shape(m) && k < |m.flogs| && lba < |m.map_| && FlogBlock(m, k) < |m.data| && !Pending(m, k)
  {
    var f, next := CurrentFlog(m.flogs[k]), 1 - CurrentIndex(m.flogs[k]);
    var m1 := m.(data := m.data[f.oldMap.lba := block]);
    var m2 := PutHalf1(m1, k, next, lba, Normalized(m.map_[lba], lba));
    PutHalf2(m2, k, next, MapEntry(Normal, f.oldMap.lba), NextSeq(f.seqNo))
  }

  /** All four durable writes: the map entry comes last. */
  function WriteWhole(m: Media, k: nat, lba: nat, block: Block): Media
    requires Shape(m) && k < |m.flogs| && lba < |m.map_| && FlogBlock(m, k) < |m.data| && !Pending(m, k)
  {
    var r := WriteToFlog(m, k, lba, block);
    r.(map_ := r.map_[lba := MapEntry(Normal, CurrentFlog(m.flogs[k]).oldMap.lba)])
  }

  /** Up to the flog an undisturbed write has committed its block and left one map write to do. */
  lemma WriteToFlogCommits(m: Media, lbasize: nat, k: nat, lba: nat, block: Block)
    requires Consistent(m, lbasize) && k < |m.flogs| && lba < |m.map_| && |block| == lbasize
    requires forall j :: 0 <= j < |m.flogs| ==> !Pending(m, j)
    requires FlogBlock(m, k) < |m.data|
    ensures var r := WriteToFlog(m, k, lba, block);
            && Consistent(r, lbasize)
            && (forall j :: 0 <= j < |m.flogs| ==> Pending(r, j) == (j == k))
            && CurrentIndex(r.flogs[k]) == 1 - CurrentIndex(m.flogs[k])
            && CurrentFlog(r.flogs[k]) ==
               Flog(lba, Normalized(m.map_[lba], lba), MapEntry(Normal, FlogBlock(m, k)),
                    NextSeq(CurrentFlog(m.flogs[k]).seqNo))
            && Durable(r, lbasize) == Durable(m, lbasize)[lba := Bytes(block)]
  {
    assert Shape(m);
    hide Consistent, Partition, Contents, Durable;
    var free, old_ := FlogBlock(m, k), Normalized(m.map_[lba], lba);
    var m1 := m.(data := m.data[free := block]);
    DataIsInvisible(m, lbasize, k, block);
    DataKeepsConsistent(m, lbasize, free, block);
    assert Shape(m1);
    forall j | 0 <= j < |m.flogs| ensures !Pending(m1, j) {
      assert !Pending(m, j);
    }
    var m2 := PutHalf1(m1, k, 1 - CurrentIndex(m.flogs[k]), lba, old_);
    Half1KeepsConsistent(m1, lbasize, k, lba, old_);
    Half1IsInvisible(m1, lbasize, k, lba, old_);
    Half2Commits(m2, lbasize, k, lba, old_);
    Half2IsCommit(m2, lbasize, k, lba, old_);
  }

  /** An undisturbed write replaces one LBA's contents and leaves nothing pending. */
  lemma WriteWholeReplaces(m: Media, lbasize: nat, k: nat, lba: nat, block: Block)
    requires Consistent(m, lbasize) && k < |m.flogs| && lba < |m.map_| && |block| == lbasize
    requires forall j :: 0 <= j < |m.flogs| ==> !Pending(m, j)
    requires FlogBlock(m, k) < |m.data|
    ensures var r := WriteWhole(m, k, lba, block);
            && Consistent(r, lbasize)
            && (forall j :: 0 <= j < |m.flogs| ==> !Pending(r, j))
            && CurrentIndex(r.flogs[k]) == 1 - CurrentIndex(m.flogs[k])
            && CurrentFlog(r.flogs[k]) ==
               Flog(lba, Normalized(m.map_[lba], lba), MapEntry(Normal, FlogBlock(m, k)),
                    NextSeq(CurrentFlog(m.flogs[k]).seqNo))
            && Contents(r, lbasize) == Contents(m, lbasize)[lba := Bytes(block)]
  {
    assert Shape(m);
    hide Partition, Contents, Durable;
    WriteToFlogCommits(m, lbasize, k, lba, block);
    var committed := WriteToFlog(m, k, lba, block);
    hide Consistent, WriteToFlog;
    var r := RecoverOne(committed, k);
    RecoverOneConsistent(committed, lbasize, k);
    RecoverAbsorbsOne(committed, lbasize, k);
    ContentsAreDurable(m, lbasize);
    ContentsAreDurable(r, lbasize);
    SameRecoverySameDurable(r, committed, lbasize);
  }

  lemma ContentsAreDurable(m: Media, lbasize: nat)
    requires Consistent(m, lbasize)
    requires forall j :: 0 <= j < |m.flogs| ==> !Pending(m, j)
    ensures Contents(m, lbasize) == Durable(m, lbasize)
  {
    RecoverNothing(m, 0);
  }

  lemma SameRecoverySameDurable(m: Media, r: Media, lbasize: nat)
    requires Consistent(m, lbasize) && Consistent(r, lbasize)
    requires Recover(m) == Recover(r)
    ensures Durable(m, lbasize) == Durable(r, lbasize)
  {
  }
}
