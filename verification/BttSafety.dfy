/**
 The invariant of the block translation table protocol and the proof that every step keeps it:
 partition of the blocks, agreement of run-time and durable flog state, exclusion by the map
 locks, and the protection a published read-tracking entry gives.
 */
module BttSafety {
  import opened Common

  import opened BttMedia
  import opened BttWrites
  import opened BttProtocol

  /** The lane holds the map lock of its LBA. */
  predicate Holds(pc: Pc) {
    pc.WriteLocked? || pc.WriteHave? || pc.WriteHalf? || pc.WriteCommitted?
    || pc.SetLocked? || pc.SetHave? || pc.Unlock?
  }

  /** The lane has read the old map entry under the lock and not yet replaced it. */
  predicate KnowsOld(pc: Pc) {
    pc.WriteHave? || pc.WriteHalf? || pc.WriteCommitted? || pc.SetHave?
  }

  /** The lane's new block is complete on media and not mapped yet. */
  predicate HasData(pc: Pc) {
    pc.WriteLock? || pc.WriteLocked? || pc.WriteHave? || pc.WriteHalf? || pc.WriteCommitted?
  }

  /** The writer's scan of the read tracking table has passed this slot and it may overwrite its block. */
  predicate Passed(pc: Pc, slot: nat) {
    (pc.WriteScan? && slot < pc.slot) || pc.WriteData?
  }

  predicate EntrySeen(c: Config, e: MapEntry, seen: Content) {
    && (e.flags.Error? ==> seen == Bad)
    && (IsZeroOrInitial(e) ==> seen == Bytes(Zeros(c.lbasize)))
  }

  predicate LaneOk(c: Config, s: State, l: nat)
    requires Sized(c, s) && s.Running? && l < c.nlane
  {
    var pc := s.lanes[l];
    && PcSized(c, s, l)
    && (pc.ReadGot? ==> EntrySeen(c, pc.entry, pc.seen))
    && ((pc.ReadPublished? || pc.ReadData?) ==> s.rtt[l] == pc.entry)
    && (pc.ReadData? ==> pc.seen == Bytes(s.media.data[pc.entry.lba]) && pc.buf <= s.media.data[pc.entry.lba])
    && (HasData(pc) ==> FlogBlock(s.media, l) < |s.media.data| && s.media.data[FlogBlock(s.media, l)] == pc.block)
    && (Holds(pc) ==> s.locks[LockOf(c, pc.lba)] == Some(l))
    && (KnowsOld(pc) ==> Normalized(s.media.map_[pc.lba], pc.lba) == pc.old_)
    && (pc.WriteHalf? ==> StaleFlog(s.media.flogs[l]).lba == pc.lba && StaleFlog(s.media.flogs[l]).oldMap == pc.old_)
    && (pc.WriteCommitted? ==> s.rt[l].flog.lba == pc.lba && s.rt[l].flog.oldMap == pc.old_)
  }

  /** A writer that may overwrite its free block does not own the block this reader is reading. */
  predicate Guarded(c: Config, s: State, r: nat, w: nat)
    requires Sized(c, s) && s.Running? && r < c.nlane && w < c.nlane
  {
    s.lanes[r].ReadData? && Passed(s.lanes[w], r) ==> s.rt[w].flog.oldMap.lba != s.lanes[r].entry.lba
  }

  ghost predicate RunningInv(c: Config, s: State)
    requires Sized(c, s) && s.Running?
  {
    && (forall k :: 0 <= k < c.nfree ==> Pending(s.media, k) == (k < c.nlane && s.lanes[k].WriteCommitted?))
    && (forall l :: 0 <= l < c.nlane ==> LaneOk(c, s, l))
    && (forall r, w :: 0 <= r < c.nlane && 0 <= w < c.nlane ==> Guarded(c, s, r, w))
  }

  /** Holds in every reachable state, whether running, crashed or being reopened. */
  ghost predicate Inv(c: Config, s: State) {
    && Sized(c, s)
    && Consistent(s.media, c.lbasize)
    && (forall k :: 0 <= k < |s.rt| ==> s.rt[k] == Load(s.media.flogs[k]))
    && (s.Recovering? ==> forall k :: 0 <= k < |s.rt| ==> !Pending(s.media, k))
    && (s.Running? ==> RunningInv(c, s))
  }

  // ----- The initial state -----

  /** What write_layout writes: a zeroed map and, per pair, one complete entry and one all-zero entry. */
  function FreshPair(nlba: nat, k: nat): FlogPair {
    var free := MapEntry(Zero, nlba + k);
    FlogPair(Flog(0, free, free, 1), Flog(0, MapEntry(Initial, 0), MapEntry(Initial, 0), 0))
  }

  ghost predicate FreshMedia(c: Config, m: Media) {
    && 0 < c.nlane <= c.nfree && 0 < c.nlba
    && m.map_ == seq(c.nlba, _ => MapEntry(Initial, 0))
    && m.flogs == seq(c.nfree, k requires k >= 0 => FreshPair(c.nlba, k))
    && |m.data| == c.nlba + c.nfree
    && forall b :: 0 <= b < |m.data| ==> |m.data[b]| == c.lbasize
  }

  /** A fresh layout satisfies the invariant before it is opened, and every block reads as zeros. */
  lemma FreshLayoutInv(c: Config, m: Media)
    requires FreshMedia(c, m)
    ensures Inv(c, Recovering(m, []))
    ensures forall lba :: 0 <= lba < c.nlba ==> Durable(m, c.lbasize)[lba] == Bytes(Zeros(c.lbasize))
  {
    forall k | 0 <= k < c.nfree ensures PairOk(m.flogs[k], c.nlba) {
      assert m.flogs[k] == FreshPair(c.nlba, k);
    }
    forall k | 0 <= k < c.nfree ensures !Pending(m, k) && FlogBlock(m, k) == c.nlba + k {
      assert m.flogs[k] == FreshPair(c.nlba, k);
    }
    forall i | 0 <= i < |m.data| ensures OwnedBlock(m, i) == i {
    }
    forall lba | 0 <= lba < c.nlba ensures Durable(m, c.lbasize)[lba] == Bytes(Zeros(c.lbasize)) {
      DurableAt(m, c.lbasize, lba);
    }
  }

  // ----- Steps that leave media and flog state alone -----

  /** Only this lane's program counter, its tracking slot and the locks differ. */
  predicate OnlyLane(c: Config, s: State, t: State, lane: nat)
    requires Sized(c, s) && s.Running? && lane < c.nlane
  {
    && t.Running? && t.media == s.media && t.rt == s.rt
    && |t.lanes| == c.nlane && |t.rtt| == c.nfree && |t.locks| == c.nfree
    && t.lanes == s.lanes[lane := t.lanes[lane]]
    && t.rtt == s.rtt[lane := t.rtt[lane]]
  }

  lemma OnlyLaneSized(c: Config, s: State, t: State, lane: nat)
    requires Sized(c, s) && s.Running? && lane < c.nlane && OnlyLane(c, s, t, lane)
    requires PcSized(c, t, lane)
    ensures Sized(c, t)
  {
    forall k | 0 <= k < c.nlane ensures PcSized(c, t, k) {
      assert PcSized(c, s, k);
    }
  }

  lemma OnlyLaneInv(c: Config, s: State, t: State, lane: nat)
    requires Inv(c, s) && s.Running? && lane < c.nlane && OnlyLane(c, s, t, lane) && Sized(c, t)
    requires !s.lanes[lane].WriteCommitted? && !t.lanes[lane].WriteCommitted?
    requires forall k :: 0 <= k < c.nlane && k != lane && Holds(s.lanes[k]) ==>
               t.locks[LockOf(c, s.lanes[k].lba)] == Some(k)
    requires LaneOk(c, t, lane)
    requires forall k :: 0 <= k < c.nlane ==> Guarded(c, t, lane, k) && Guarded(c, t, k, lane)
    ensures Inv(c, t)
  {
    forall k | 0 <= k < c.nlane ensures LaneOk(c, t, k) {
      assert LaneOk(c, s, k);
    }
    forall r, w | 0 <= r < c.nlane && 0 <= w < c.nlane ensures Guarded(c, t, r, w) {
      assert Guarded(c, s, r, w);
    }
  }

  /** No other lane can be holding the lock a lane takes or gives back. */
  lemma LockIsMine(c: Config, s: State, lane: nat, k: nat)
    requires Inv(c, s) && s.Running? && lane < c.nlane && k < c.nlane && k != lane && Holds(s.lanes[k])
    requires !s.lanes[lane].Idle?
    requires s.locks[LockOf(c, s.lanes[lane].lba)].None? || Holds(s.lanes[lane])
    ensures LockOf(c, s.lanes[k].lba) != LockOf(c, s.lanes[lane].lba)
  {
    assert LaneOk(c, s, k) && LaneOk(c, s, lane);
  }

  lemma BeginKeepsInv(c: Config, s: State, l: Label, t: State)
    requires Inv(c, s) && Step(c, s, l, t) && l.At?
    requires l.act.StartRead? || l.act.StartWrite? || l.act.StartSet?
    ensures Inv(c, t)
  {
    hide Consistent, Partition;
    var lane := l.lane;
    assert LaneOk(c, s, lane);
    OnlyLaneSized(c, s, t, lane);
    forall k | 0 <= k < c.nlane && k != lane && Holds(s.lanes[k])
      ensures t.locks[LockOf(c, s.lanes[k].lba)] == Some(k)
    {
      assert LaneOk(c, s, k);
    }
    forall k | 0 <= k < c.nlane ensures Guarded(c, t, lane, k) && Guarded(c, t, k, lane) {
      assert Guarded(c, s, lane, k) && Guarded(c, s, k, lane);
    }
    OnlyLaneInv(c, s, t, lane);
  }

  lemma FinishKeepsInv(c: Config, s: State, l: Label, t: State)
    requires Inv(c, s) && Step(c, s, l, t) && l.At?
    requires l.act.FinishRead? || l.act.FinishEarly? || l.act.SetNothing?
    ensures Inv(c, t)
  {
    hide Consistent, Partition;
    var lane := l.lane;
    assert LaneOk(c, s, lane);
    OnlyLaneSized(c, s, t, lane);
    forall k | 0 <= k < c.nlane && k != lane && Holds(s.lanes[k])
      ensures t.locks[LockOf(c, s.lanes[k].lba)] == Some(k)
    {
      assert LaneOk(c, s, k);
    }
    forall k | 0 <= k < c.nlane ensures Guarded(c, t, lane, k) && Guarded(c, t, k, lane) {
      assert Guarded(c, s, lane, k) && Guarded(c, s, k, lane);
    }
    OnlyLaneInv(c, s, t, lane);
  }

  lemma LookKeepsInv(c: Config, s: State, l: Label, t: State)
    requires Inv(c, s) && Step(c, s, l, t) && l.At?
    requires l.act.ReadMap? || l.act.Publish?
    ensures Inv(c, t)
  {
    hide Consistent, Partition;
    var lane := l.lane;
    assert LaneOk(c, s, lane);
    assert MapBlock(s.media, s.lanes[lane].lba) < |s.media.data|;
    OnlyLaneSized(c, s, t, lane);
    forall k | 0 <= k < c.nlane && k != lane && Holds(s.lanes[k])
      ensures t.locks[LockOf(c, s.lanes[k].lba)] == Some(k)
    {
      assert LaneOk(c, s, k);
    }
    forall k | 0 <= k < c.nlane ensures Guarded(c, t, lane, k) && Guarded(c, t, k, lane) {
      assert Guarded(c, s, lane, k) && Guarded(c, s, k, lane);
    }
    OnlyLaneInv(c, s, t, lane);
  }

  lemma AdvanceKeepsInv(c: Config, s: State, l: Label, t: State)
    requires Inv(c, s) && Step(c, s, l, t) && l.At?
    requires l.act.ReadByte? || l.act.ReadOld?
    ensures Inv(c, t)
  {
    hide Consistent, Partition;
    var lane := l.lane;
    assert LaneOk(c, s, lane);
    OnlyLaneSized(c, s, t, lane);
    forall k | 0 <= k < c.nlane && k != lane && Holds(s.lanes[k])
      ensures t.locks[LockOf(c, s.lanes[k].lba)] == Some(k)
    {
      assert LaneOk(c, s, k);
    }
    forall k | 0 <= k < c.nlane ensures Guarded(c, t, lane, k) && Guarded(c, t, k, lane) {
      assert Guarded(c, s, lane, k) && Guarded(c, s, k, lane);
    }
    OnlyLaneInv(c, s, t, lane);
  }

  lemma LockingKeepsInv(c: Config, s: State, l: Label, t: State)
    requires Inv(c, s) && Step(c, s, l, t) && l.At?
    requires l.act.Lock? || l.act.Release?
    ensures Inv(c, t)
  {
    hide Consistent, Partition;
    var lane := l.lane;
    assert LaneOk(c, s, lane);
    OnlyLaneSized(c, s, t, lane);
    forall k | 0 <= k < c.nlane && k != lane && Holds(s.lanes[k])
      ensures t.locks[LockOf(c, s.lanes[k].lba)] == Some(k)
    {
      assert LaneOk(c, s, k);
      LockIsMine(c, s, lane, k);
    }
    forall k | 0 <= k < c.nlane ensures Guarded(c, t, lane, k) && Guarded(c, t, k, lane) {
      assert Guarded(c, s, lane, k) && Guarded(c, s, k, lane);
    }
    OnlyLaneInv(c, s, t, lane);
  }


  // ----- Reader and scanning writer -----

  /** A mapped block is no flog pair's block, so a reader that finds the map unchanged is protected. */
  lemma RecheckKeepsInv(c: Config, s: State, l: Label, t: State)
    requires Inv(c, s) && Step(c, s, l, t) && l.At? && l.act.Recheck?
    ensures Inv(c, t)
  {
    hide Consistent, Partition, Shape;
    var lane := l.lane;
    var pc := s.lanes[lane];
    assert LaneOk(c, s, lane);
    assert MapBlock(s.media, pc.lba) < |s.media.data|;
    OnlyLaneSized(c, s, t, lane);
    forall k | 0 <= k < c.nlane ensures Guarded(c, t, lane, k) && Guarded(c, t, k, lane) {
      assert Guarded(c, s, k, lane);
      BlocksApart(s.media, c.lbasize, k, pc.lba);
      FreeBlock(c, s, k);
    }
    forall k | 0 <= k < c.nlane && k != lane && Holds(s.lanes[k])
      ensures t.locks[LockOf(c, s.lanes[k].lba)] == Some(k)
    {
      assert LaneOk(c, s, k);
    }
    OnlyLaneInv(c, s, t, lane);
  }

  /** Passing a slot means its reader, if any, is reading another block. */
  lemma ScanKeepsInv(c: Config, s: State, l: Label, t: State)
    requires Inv(c, s) && Step(c, s, l, t) && l.At? && l.act.Scan?
    ensures Inv(c, t)
  {
    hide Consistent, Partition;
    var lane := l.lane;
    assert LaneOk(c, s, lane);
    OnlyLaneSized(c, s, t, lane);
    forall k | 0 <= k < c.nlane ensures Guarded(c, t, lane, k) && Guarded(c, t, k, lane) {
      assert Guarded(c, s, lane, k) && Guarded(c, s, k, lane);
      assert LaneOk(c, s, k);
    }
    forall k | 0 <= k < c.nlane && k != lane && Holds(s.lanes[k])
      ensures t.locks[LockOf(c, s.lanes[k].lba)] == Some(k)
    {
      assert LaneOk(c, s, k);
    }
    OnlyLaneInv(c, s, t, lane);
  }

  // ----- Writing data -----

  /** The state after a lane in its data phase has put these bytes in its free block. */
  predicate PutsBlock(c: Config, s: State, t: State, lane: nat, block: Block)
    requires Sized(c, s) && s.Running? && lane < c.nlane
  {
    && s.lanes[lane].WriteData? && |block| == c.lbasize
    && t.Running? && |t.lanes| == c.nlane
    && (t.lanes[lane] == s.lanes[lane] || t.lanes[lane] == WriteLock(s.lanes[lane].lba, block))
    && t == s.(media := s.media.(data := s.media.data[s.rt[lane].flog.oldMap.lba := block]),
               lanes := s.lanes[lane := t.lanes[lane]])
  }

  lemma PutsBlockSized(c: Config, s: State, t: State, lane: nat, block: Block)
    requires Inv(c, s) && s.Running? && lane < c.nlane && PutsBlock(c, s, t, lane, block)
    ensures Sized(c, t) && Consistent(t.media, c.lbasize)
    ensures forall k :: 0 <= k < c.nfree ==>
              Pending(t.media, k) == Pending(s.media, k) && FlogBlock(t.media, k) == FlogBlock(s.media, k)
  {
    DataKeepsConsistent(s.media, c.lbasize, s.rt[lane].flog.oldMap.lba, block);
    forall k | 0 <= k < c.nlane ensures PcSized(c, t, k) {
      assert PcSized(c, s, k) && PcSized(c, s, lane);
    }
    forall i | 0 <= i < c.nlba ensures MapBlock(t.media, i) < |t.media.data| {
      assert MapBlock(s.media, i) < |s.media.data|;
    }
  }

  /** The block a lane with nothing pending may write to. */
  lemma FreeBlock(c: Config, s: State, lane: nat)
    requires Inv(c, s) && s.Running? && lane < c.nlane
    ensures !s.lanes[lane].WriteCommitted? ==> FlogBlock(s.media, lane) == s.rt[lane].flog.oldMap.lba
  {
    assert s.rt[lane] == Load(s.media.flogs[lane]);
  }

  /** A data write reaches neither a block being read nor another lane's new block. */
  lemma PutsBlockLaneOk(c: Config, s: State, t: State, lane: nat, block: Block, k: nat)
    requires Inv(c, s) && s.Running? && lane < c.nlane && PutsBlock(c, s, t, lane, block)
    requires Sized(c, t) && k < c.nlane
    requires forall j :: 0 <= j < c.nfree ==> FlogBlock(t.media, j) == FlogBlock(s.media, j)
    ensures LaneOk(c, t, k)
  {
    hide Consistent, Partition, Shape;
    assert LaneOk(c, s, k) && Guarded(c, s, k, lane) && LaneOk(c, s, lane);
    FreeBlock(c, s, lane);
    BlocksApart(s.media, c.lbasize, lane, 0);
  }

  lemma DataKeepsInv(c: Config, s: State, l: Label, t: State)
    requires Inv(c, s) && Step(c, s, l, t) && l.At?
    requires l.act.Tear? || l.act.PutData?
    ensures Inv(c, t)
  {
    hide Consistent, Partition;
    var lane := l.lane;
    var block := if l.act.Tear? then l.act.junk else s.lanes[lane].block;
    assert PutsBlock(c, s, t, lane, block);
    PutsBlockSized(c, s, t, lane, block);
    forall k | 0 <= k < c.nlane ensures LaneOk(c, t, k) {
      PutsBlockLaneOk(c, s, t, lane, block, k);
    }
    forall r, w | 0 <= r < c.nlane && 0 <= w < c.nlane ensures Guarded(c, t, r, w) {
      assert Guarded(c, s, r, w);
    }
  }

  // ----- Flog writes -----

  /** Lane k's entries in rt and media agree, and all other lanes are as before. */
  lemma FlogLaneOk(c: Config, s: State, t: State, lane: nat, k: nat)
    requires Inv(c, s) && s.Running? && lane < c.nlane && Sized(c, t) && t.Running? && k < c.nlane && k != lane
    requires t.lanes[k] == s.lanes[k] && t.rtt == s.rtt && t.locks == s.locks && t.rt[k] == s.rt[k]
    requires t.media.data == s.media.data && t.media.map_ == s.media.map_ && t.media.flogs[k] == s.media.flogs[k]
    requires FlogBlock(t.media, k) == FlogBlock(s.media, k)
    ensures LaneOk(c, t, k)
  {
    assert LaneOk(c, s, k);
  }

  lemma FlogHalf1Sized(c: Config, s: State, l: Label, t: State)
    requires Inv(c, s) && Step(c, s, l, t) && l.At? && l.act.FlogHalf1?
    ensures Sized(c, t) && Consistent(t.media, c.lbasize)
    ensures StaleFlog(t.media.flogs[l.lane]).lba == s.lanes[l.lane].lba
    ensures StaleFlog(t.media.flogs[l.lane]).oldMap == s.lanes[l.lane].old_
    ensures forall k :: 0 <= k < c.nfree ==>
              && FlogBlock(t.media, k) == FlogBlock(s.media, k)
              && t.rt[k] == Load(t.media.flogs[k])
              && Pending(t.media, k) == Pending(s.media, k)
              && (k != l.lane ==> t.media.flogs[k] == s.media.flogs[k])
  {
    hide Consistent, Partition;
    var lane, pc := l.lane, s.lanes[l.lane];
    Half1KeepsConsistent(s.media, c.lbasize, lane, pc.lba, pc.old_);
    forall k | 0 <= k < c.nlane ensures PcSized(c, t, k) {
      assert PcSized(c, s, k);
    }
    forall i | 0 <= i < c.nlba ensures MapBlock(t.media, i) < |t.media.data| {
      assert MapBlock(s.media, i) < |s.media.data|;
    }
  }

  /** The first half of the flog update is not yet a commitment. */
  lemma FlogHalf1KeepsInv(c: Config, s: State, l: Label, t: State)
    requires Inv(c, s) && Step(c, s, l, t) && l.At? && l.act.FlogHalf1?
    ensures Inv(c, t)
  {
    hide Consistent, Partition;
    FlogHalf1Sized(c, s, l, t);
    assert LaneOk(c, s, l.lane);
    forall k | 0 <= k < c.nlane ensures LaneOk(c, t, k) {
      if k != l.lane {
        FlogLaneOk(c, s, t, l.lane, k);
      }
    }
    forall r, w | 0 <= r < c.nlane && 0 <= w < c.nlane ensures Guarded(c, t, r, w) {
      assert Guarded(c, s, r, w);
    }
  }

  /** The map locks keep pending updates of one LBA apart. */
  lemma LockedLbaNotPending(c: Config, s: State, lane: nat, k: nat)
    requires Inv(c, s) && s.Running? && lane < c.nlane && k < c.nfree && k != lane
    requires Holds(s.lanes[lane])
    requires Pending(s.media, k)
    ensures CurrentFlog(s.media.flogs[k]).lba != s.lanes[lane].lba
  {
    assert LaneOk(c, s, lane) && LaneOk(c, s, k);
    assert s.rt[k] == Load(s.media.flogs[k]);
  }

  lemma FlogHalf2Sized(c: Config, s: State, l: Label, t: State)
    requires Inv(c, s) && Step(c, s, l, t) && l.At? && l.act.FlogHalf2?
    ensures Sized(c, t) && Consistent(t.media, c.lbasize) && Pending(t.media, l.lane)
    ensures forall k :: 0 <= k < c.nfree ==>
              && FlogBlock(t.media, k) == FlogBlock(s.media, k)
              && t.rt[k] == Load(t.media.flogs[k])
              && (k != l.lane ==> t.media.flogs[k] == s.media.flogs[k] && Pending(t.media, k) == Pending(s.media, k))
  {
    hide Consistent, Partition;
    var lane, pc := l.lane, s.lanes[l.lane];
    assert LaneOk(c, s, lane);
    forall k | 0 <= k < c.nfree && Pending(s.media, k) ensures CurrentFlog(s.media.flogs[k]).lba != pc.lba {
      LockedLbaNotPending(c, s, lane, k);
    }
    Half2Commits(s.media, c.lbasize, lane, pc.lba, pc.old_);
    forall k | 0 <= k < c.nlane ensures PcSized(c, t, k) {
      assert PcSized(c, s, k);
    }
    assert MapBlock(s.media, pc.lba) < |s.media.data|;
    forall i | 0 <= i < c.nlba ensures MapBlock(t.media, i) < |t.media.data| {
      assert MapBlock(s.media, i) < |s.media.data|;
    }
  }

  /** The second half of the flog update commits the write. */
  lemma FlogHalf2KeepsInv(c: Config, s: State, l: Label, t: State)
    requires Inv(c, s) && Step(c, s, l, t) && l.At? && l.act.FlogHalf2?
    ensures Inv(c, t)
  {
    hide Consistent, Partition;
    FlogHalf2Sized(c, s, l, t);
    assert LaneOk(c, s, l.lane);
    forall k | 0 <= k < c.nlane ensures LaneOk(c, t, k) {
      if k != l.lane {
        FlogLaneOk(c, s, t, l.lane, k);
      }
    }
    forall r, w | 0 <= r < c.nlane && 0 <= w < c.nlane ensures Guarded(c, t, r, w) {
      assert Guarded(c, s, r, w);
    }
  }

  // ----- Map writes -----

  /** The map write of a committed entry is the same single write recovery would make. */
  lemma PutMapIsRecovery(c: Config, s: State, l: Label, t: State)
    requires Inv(c, s) && Step(c, s, l, t) && l.At? && l.act.PutMap?
    ensures Pending(s.media, l.lane) && t.media == RecoverOne(s.media, l.lane)
    ensures CurrentFlog(s.media.flogs[l.lane]).lba == s.lanes[l.lane].lba
  {
    assert LaneOk(c, s, l.lane);
    assert s.rt[l.lane] == Load(s.media.flogs[l.lane]);
  }

  /** A map entry written under the lock disturbs no lane but the writer. */
  lemma MapWriteLaneOk(c: Config, s: State, t: State, lane: nat, k: nat)
    requires Inv(c, s) && s.Running? && lane < c.nlane && Sized(c, t) && t.Running? && k < c.nlane && k != lane
    requires Holds(s.lanes[lane]) && t.lanes[k] == s.lanes[k]
    requires t.rtt == s.rtt && t.locks == s.locks && t.rt == s.rt
    requires t.media.data == s.media.data && t.media.flogs == s.media.flogs
    requires forall i :: 0 <= i < c.nlba && i != s.lanes[lane].lba ==> t.media.map_[i] == s.media.map_[i]
    requires FlogBlock(t.media, k) == FlogBlock(s.media, k)
    ensures LaneOk(c, t, k)
  {
    assert LaneOk(c, s, k) && LaneOk(c, s, lane);
  }

  lemma PutMapSized(c: Config, s: State, l: Label, t: State)
    requires Inv(c, s) && Step(c, s, l, t) && l.At? && l.act.PutMap?
    ensures Sized(c, t) && Consistent(t.media, c.lbasize)
  {
    PutMapIsRecovery(c, s, l, t);
    RecoverOneConsistent(s.media, c.lbasize, l.lane);
    forall k | 0 <= k < c.nlane ensures PcSized(c, t, k) {
      assert PcSized(c, s, k);
    }
    forall i | 0 <= i < c.nlba ensures MapBlock(t.media, i) < |t.media.data| {
      assert OwnedBlock(t.media, i) < |t.media.data|;
    }
  }

  lemma PutMapKeepsInv(c: Config, s: State, l: Label, t: State)
    requires Inv(c, s) && Step(c, s, l, t) && l.At? && l.act.PutMap?
    ensures Inv(c, t)
  {
    hide Consistent, Partition;
    var lane := l.lane;
    PutMapSized(c, s, l, t);
    PutMapIsRecovery(c, s, l, t);
    RecoverOneConsistent(s.media, c.lbasize, lane);
    assert LaneOk(c, s, lane);
    forall k | 0 <= k < c.nlane ensures LaneOk(c, t, k) {
      if k != lane {
        RecoverOneKeepsOthers(s.media, c.lbasize, lane, k);
        MapWriteLaneOk(c, s, t, lane, k);
      }
    }
    forall r, w | 0 <= r < c.nlane && 0 <= w < c.nlane ensures Guarded(c, t, r, w) {
      assert Guarded(c, s, r, w);
    }
  }

  lemma SetMapSized(c: Config, s: State, l: Label, t: State)
    requires Inv(c, s) && Step(c, s, l, t) && l.At? && l.act.SetMap?
    ensures t.media == s.media.(map_ := s.media.map_[s.lanes[l.lane].lba :=
                         MapEntry(s.lanes[l.lane].flag.Flag(), MapBlock(s.media, s.lanes[l.lane].lba))])
    ensures Sized(c, t) && Consistent(t.media, c.lbasize)
    ensures forall j :: 0 <= j < c.nfree ==>
              Pending(t.media, j) == Pending(s.media, j) && FlogBlock(t.media, j) == FlogBlock(s.media, j)
  {
    hide Consistent, Partition;
    var lane, pc := l.lane, s.lanes[l.lane];
    assert LaneOk(c, s, lane);
    forall k | 0 <= k < c.nfree && Pending(s.media, k) ensures CurrentFlog(s.media.flogs[k]).lba != pc.lba {
      if k != lane {
        LockedLbaNotPending(c, s, lane, k);
      }
    }
    FlagKeepsConsistent(s.media, c.lbasize, pc.lba, pc.flag.Flag());
    forall k | 0 <= k < c.nlane ensures PcSized(c, t, k) {
      assert PcSized(c, s, k);
    }
    forall i | 0 <= i < c.nlba ensures MapBlock(t.media, i) < |t.media.data| {
      assert MapBlock(s.media, i) < |s.media.data|;
    }
  }

  lemma SetMapKeepsInv(c: Config, s: State, l: Label, t: State)
    requires Inv(c, s) && Step(c, s, l, t) && l.At? && l.act.SetMap?
    ensures Inv(c, t)
  {
    hide Consistent, Partition;
    SetMapSized(c, s, l, t);
    assert LaneOk(c, s, l.lane);
    forall k | 0 <= k < c.nlane ensures LaneOk(c, t, k) {
      if k != l.lane {
        MapWriteLaneOk(c, s, t, l.lane, k);
      }
    }
    forall r, w | 0 <= r < c.nlane && 0 <= w < c.nlane ensures Guarded(c, t, r, w) {
      assert Guarded(c, s, r, w);
    }
  }

  // ----- Power failure and reopening -----

  /** Power may fail in any state, and reopening repairs one pair at a time. */
  lemma ReopenKeepsInv(c: Config, s: State, l: Label, t: State)
    requires Inv(c, s) && Step(c, s, l, t)
    requires l.Crash? || l.ReadPair? || l.Opened?
    ensures Inv(c, t)
  {
    if l.ReadPair? {
      var k := |s.rt|;
      RecoverOneConsistent(s.media, c.lbasize, k);
      assert OwnedBlock(t.media, c.nlba + k) == FlogBlock(t.media, k) == t.rt[k].flog.oldMap.lba;
      forall i | 0 <= i < c.nlba ensures MapBlock(t.media, i) < |t.media.data| {
        assert OwnedBlock(t.media, i) < |t.media.data|;
      }
    } else if l.Opened? {
      forall k | 0 <= k < c.nlane ensures PcSized(c, t, k) {
      }
      forall k | 0 <= k < c.nlane ensures LaneOk(c, t, k) {
      }
    }
  }

  lemma LaneStepKeepsInv(c: Config, s: State, l: Label, t: State)
    requires Inv(c, s) && Step(c, s, l, t) && l.At?
    ensures Inv(c, t)
  {
    hide *;
    match l.act
    case StartRead(_) => BeginKeepsInv(c, s, l, t);
    case StartWrite(_, _) => BeginKeepsInv(c, s, l, t);
    case StartSet(_, _) => BeginKeepsInv(c, s, l, t);
    case FinishRead(_) => FinishKeepsInv(c, s, l, t);
    case FinishEarly(_) => FinishKeepsInv(c, s, l, t);
    case SetNothing => FinishKeepsInv(c, s, l, t);
    case ReadMap => LookKeepsInv(c, s, l, t);
    case Publish => LookKeepsInv(c, s, l, t);
    case ReadByte => AdvanceKeepsInv(c, s, l, t);
    case ReadOld => AdvanceKeepsInv(c, s, l, t);
    case Lock => LockingKeepsInv(c, s, l, t);
    case Release => LockingKeepsInv(c, s, l, t);
    case Recheck => RecheckKeepsInv(c, s, l, t);
    case Scan => ScanKeepsInv(c, s, l, t);
    case Tear(_) => DataKeepsInv(c, s, l, t);
    case PutData => DataKeepsInv(c, s, l, t);
    case FlogHalf1 => FlogHalf1KeepsInv(c, s, l, t);
    case FlogHalf2 => FlogHalf2KeepsInv(c, s, l, t);
    case PutMap => PutMapKeepsInv(c, s, l, t);
    case SetMap => SetMapKeepsInv(c, s, l, t);
  }

  /** Every step of every lane, every power failure and every step of reopening keeps the invariant. */
  lemma StepKeepsInv(c: Config, s: State, l: Label, t: State)
    requires Inv(c, s) && Step(c, s, l, t)
    ensures Inv(c, t)
  {
    hide *;
    if l.At? {
      LaneStepKeepsInv(c, s, l, t);
    } else {
      ReopenKeepsInv(c, s, l, t);
    }
  }
}
