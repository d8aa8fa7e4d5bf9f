/**
 The block translation table as a concurrent protocol: lanes interleave the single accesses of
 btt_read, btt_write, btt_set_zero and btt_set_error on one arena, power may fail between any two
 accesses, and reopening reads the flog pairs one by one. Every durable write is one step, except
 that a data block may hold any bytes while it is being written and is read byte by byte.
 */
module BttProtocol {
  import opened Common

  import opened BttMedia
  import opened BttWrites

  /** Fixed at layout and open time: map size, flog pairs, usable lanes, bytes in a block. */
  datatype Config = Config(nlba: nat, nfree: nat, nlane: nat, lbasize: nat)

  /** Run-time copy of a lane's current flog entry and the copy to overwrite next. */
  datatype FlogRuntime = FlogRuntime(flog: Flog, next: nat)

  /** The flags btt_set_zero and btt_set_error set. */
  datatype SetFlag = SetZero | SetError {
    function Flag(): Flags {
      if SetZero? then Zero else Error
    }
  }

  /**
   Where a lane is inside its operation. `seen` is an auxiliary variable: the contents of the
   LBA at the moment its map entry was last read.
   */
  datatype Pc =
    | Idle
    | ReadStart(lba: nat)
    | ReadGot(lba: nat, entry: MapEntry, seen: Content)
    | ReadPublished(lba: nat, entry: MapEntry, seen: Content)
    | ReadData(lba: nat, entry: MapEntry, seen: Content, buf: Block)
    | WriteScan(lba: nat, block: Block, slot: nat)
    | WriteData(lba: nat, block: Block)
    | WriteLock(lba: nat, block: Block)
    | WriteLocked(lba: nat, block: Block)
    | WriteHave(lba: nat, block: Block, old_: MapEntry)
    | WriteHalf(lba: nat, block: Block, old_: MapEntry)
    | WriteCommitted(lba: nat, block: Block, old_: MapEntry)
    | SetLock(lba: nat, flag: SetFlag)
    | SetLocked(lba: nat, flag: SetFlag)
    | SetHave(lba: nat, flag: SetFlag, old_: MapEntry)
    | Unlock(lba: nat)

  /** Reopening has loaded `rt`, one entry for each flog pair read so far. */
  datatype State =
    | Running(media: Media, rt: seq<FlogRuntime>, rtt: seq<MapEntry>, locks: seq<Option<nat>>, lanes: seq<Pc>)
    | Recovering(media: Media, rt: seq<FlogRuntime>)

  /** One access of a lane; `result` is what the operation returns. */
  datatype Action =
    | StartRead(lba: nat)
    | ReadMap
    | Publish
    | Recheck
    | ReadByte
    | FinishRead(result: Content)
    | FinishEarly(result: Content)
    | StartWrite(lba: nat, block: Block)
    | Scan
    | Tear(junk: Block)
    | PutData
    | StartSet(lba: nat, flag: SetFlag)
    | Lock
    | ReadOld
    | FlogHalf1
    | FlogHalf2
    | PutMap
    | SetMap
    | SetNothing
    | Release

  datatype Label = At(lane: nat, act: Action) | Crash | ReadPair | Opened

  /** The rtt value of an unused slot: the error flag and no block. */
  const IDLE_SLOT := MapEntry(Error, 0)

  /** The map lock of an LBA: entries in one 64-byte line share a lock. */
  function LockOf(c: Config, lba: nat): (n: nat)
    requires c.nfree > 0
    ensures n < c.nfree
  {
    (lba * 4 / 64) % c.nfree
  }

  /** The first sixteen LBAs share the first lock, and each further sixteen take the next one, round and round. */
  lemma LocksByLine(c: Config, lba: nat)
    requires c.nfree > 0
    ensures lba < 16 ==> LockOf(c, lba) == 0
    ensures LockOf(c, lba + 16) == (LockOf(c, lba) + 1) % c.nfree
    ensures forall i :: lba / 16 * 16 <= i < lba / 16 * 16 + 16 ==> LockOf(c, i) == LockOf(c, lba)
  {
    var n := lba / 16;
    assert lba * 4 / 64 == n && (lba + 16) * 4 / 64 == n + 1;
    NextLock(n, c.nfree);
    forall i | n * 16 <= i < n * 16 + 16 ensures LockOf(c, i) == LockOf(c, lba) {
      assert i * 4 / 64 == n;
    }
  }

  lemma NextLock(n: nat, k: nat)
    requires k > 0
    ensures (n + 1) % k == (n % k + 1) % k
  {
    var q, r := n / k, n % k;
    assert n == q * k + r;
    if r + 1 < k {
      DivUnique(n + 1, k, q, r + 1);
      DivUnique(r + 1, k, 0, r + 1);
    } else {
      assert n + 1 == (q + 1) * k + 0;
      DivUnique(n + 1, k, q + 1, 0);
      DivUnique(k, k, 1, 0);
    }
  }

  /** The run-time state read_flog_pair builds for one pair. */
  function Load(p: FlogPair): FlogRuntime {
    FlogRuntime(CurrentFlog(p), 1 - CurrentIndex(p))
  }

  /** The block a lane writes to: the old block of its current flog entry, taken as normal. */
  function FreeEntry(rt: FlogRuntime): MapEntry {
    MapEntry(Normal, rt.flog.oldMap.lba)
  }

  /** The new flog entry a lane is about to make current. */
  function NewFlog(rt: FlogRuntime, lba: nat, old_: MapEntry): Flog {
    Flog(lba, old_, FreeEntry(rt), NextSeq(rt.flog.seqNo))
  }

  // ----- Sizes -----

  predicate Sized(c: Config, s: State) {
    && 0 < c.nlane <= c.nfree && 0 < c.nlba
    && |s.media.map_| == c.nlba && |s.media.flogs| == c.nfree
    && Shape(s.media)
    && (s.Running? ==> |s.rt| == c.nfree && |s.rtt| == c.nfree && |s.locks| == c.nfree && |s.lanes| == c.nlane)
    && (s.Recovering? ==> |s.rt| <= c.nfree)
    && (forall k :: 0 <= k < |s.rt| ==> s.rt[k].next < 2 && s.rt[k].flog.oldMap.lba < |s.media.data|)
    && (s.Running? ==> forall l :: 0 <= l < c.nlane ==> PcSized(c, s, l))
    && (forall i :: 0 <= i < c.nlba ==> MapBlock(s.media, i) < |s.media.data|)
    && (forall b :: 0 <= b < |s.media.data| ==> |s.media.data[b]| == c.lbasize)
  }

  predicate PcSized(c: Config, s: State, l: nat)
    requires s.Running? && l < |s.lanes|
  {
    var pc := s.lanes[l];
    && (pc.Idle? || pc.lba < c.nlba)
    && ((pc.ReadPublished? || pc.ReadData?) ==> pc.entry.flags.Normal?)
    && ((pc.ReadGot? || pc.ReadPublished? || pc.ReadData?) && pc.entry.flags.Normal? ==> pc.entry.lba < |s.media.data|)
    && ((pc.WriteScan? || pc.WriteData? || pc.WriteLock? || pc.WriteLocked? || pc.WriteHave? || pc.WriteHalf?
         || pc.WriteCommitted?) ==> |pc.block| == c.lbasize)
    && (pc.WriteScan? ==> pc.slot < c.nlane)
  }

  // ----- Steps -----

  /** Whether the step can be taken: the lane is at that point, and a lock it takes is free. */
  predicate Enabled(c: Config, s: State, l: Label)
    requires Sized(c, s)
  {
    match l
    case Crash => true
    case ReadPair => s.Recovering? && |s.rt| < c.nfree
    case Opened => s.Recovering? && |s.rt| == c.nfree
    case At(lane, act) => s.Running? && lane < c.nlane && PcSized(c, s, lane) && LaneEnabled(c, s, lane, act)
  }

  predicate LaneEnabled(c: Config, s: State, lane: nat, act: Action)
    requires Sized(c, s) && s.Running? && lane < c.nlane && PcSized(c, s, lane)
  {
    var pc := s.lanes[lane];
    match act
    case StartRead(lba) => pc.Idle? && lba < c.nlba
    case ReadMap => pc.ReadStart?
    case Publish => pc.ReadGot? && pc.entry.flags.Normal?
    case Recheck => pc.ReadPublished?
    case ReadByte => pc.ReadData? && |pc.buf| < c.lbasize
    case FinishRead(result) => pc.ReadData? && |pc.buf| >= c.lbasize && result == Bytes(pc.buf)
    case FinishEarly(result) =>
      pc.ReadGot? && if pc.entry.flags.Error? then result == Bad
                     else IsZeroOrInitial(pc.entry) && result == Bytes(Zeros(c.lbasize))
    case StartWrite(lba, block) => pc.Idle? && lba < c.nlba && |block| == c.lbasize
    case Scan => pc.WriteScan? && s.rtt[pc.slot] != FreeEntry(s.rt[lane])
    case Tear(junk) => pc.WriteData? && |junk| == c.lbasize
    case PutData => pc.WriteData?
    case StartSet(lba, _) => pc.Idle? && lba < c.nlba
    case Lock => (pc.WriteLock? || pc.SetLock?) && s.locks[LockOf(c, pc.lba)].None?
    case ReadOld => pc.WriteLocked? || pc.SetLocked?
    case FlogHalf1 => pc.WriteHave?
    case FlogHalf2 => pc.WriteHalf?
    case PutMap => pc.WriteCommitted?
    case SetMap => pc.SetHave? && !SetIsNoop(pc)
    case SetNothing => pc.SetHave? && SetIsNoop(pc)
    case Release => pc.Unlock?
  }

  /** Zeroing a block that already reads as zeros drops the lock without touching the map. */
  predicate SetIsNoop(pc: Pc)
    requires pc.SetHave?
  {
    pc.flag.SetZero? && IsZeroOrInitial(pc.old_)
  }

  function Apply(c: Config, s: State, l: Label): State
    requires Sized(c, s) && Enabled(c, s, l)
  {
    match l
    case Crash => Recovering(s.media, [])
    case ReadPair => Recovering(RecoverOne(s.media, |s.rt|), s.rt + [Load(s.media.flogs[|s.rt|])])
    case Opened =>
      Running(s.media, s.rt, seq(c.nfree, _ => IDLE_SLOT), seq(c.nfree, _ => None), seq(c.nlane, _ => Idle))
    case At(lane, act) => LaneApply(c, s, lane, act)
  }

  function LaneApply(c: Config, s: State, lane: nat, act: Action): State
    requires Sized(c, s) && s.Running? && lane < c.nlane && PcSized(c, s, lane) && LaneEnabled(c, s, lane, act)
  {
    var pc := s.lanes[lane];
    match act
    case StartRead(lba) => s.(lanes := s.lanes[lane := ReadStart(lba)])
    case ReadMap =>
      s.(lanes := s.lanes[lane := ReadGot(pc.lba, s.media.map_[pc.lba], Visible(s.media, c.lbasize, pc.lba))])
    case Publish =>
      s.(rtt := s.rtt[lane := pc.entry],
         lanes := s.lanes[lane := ReadPublished(pc.lba, pc.entry, pc.seen)])
    case Recheck =>
      var latest, now := s.media.map_[pc.lba], Visible(s.media, c.lbasize, pc.lba);
      s.(lanes := s.lanes[lane := if pc.entry == latest then ReadData(pc.lba, pc.entry, now, [])
                                  else ReadGot(pc.lba, latest, now)])
    case ReadByte =>
      s.(lanes := s.lanes[lane := pc.(buf := pc.buf + [s.media.data[pc.entry.lba][|pc.buf|]])])
    case FinishRead(_) => s.(rtt := s.rtt[lane := IDLE_SLOT], lanes := s.lanes[lane := Idle])
    case FinishEarly(_) => s.(lanes := s.lanes[lane := Idle])
    case StartWrite(lba, block) => s.(lanes := s.lanes[lane := WriteScan(lba, block, 0)])
    case Scan =>
      s.(lanes := s.lanes[lane := if pc.slot + 1 < c.nlane then pc.(slot := pc.slot + 1)
                                  else WriteData(pc.lba, pc.block)])
    case Tear(junk) =>
      s.(media := s.media.(data := s.media.data[s.rt[lane].flog.oldMap.lba := junk]))
    case PutData =>
      s.(media := s.media.(data := s.media.data[s.rt[lane].flog.oldMap.lba := pc.block]),
         lanes := s.lanes[lane := WriteLock(pc.lba, pc.block)])
    case StartSet(lba, flag) => s.(lanes := s.lanes[lane := SetLock(lba, flag)])
    case Lock =>
      s.(locks := s.locks[LockOf(c, pc.lba) := Some(lane)],
         lanes := s.lanes[lane := if pc.WriteLock? then WriteLocked(pc.lba, pc.block)
                                  else SetLocked(pc.lba, pc.flag)])
    case ReadOld =>
      var old_ := Normalized(s.media.map_[pc.lba], pc.lba);
      s.(lanes := s.lanes[lane := if pc.WriteLocked? then WriteHave(pc.lba, pc.block, old_)
                                  else SetHave(pc.lba, pc.flag, old_)])
    case FlogHalf1 =>
      s.(media := PutHalf1(s.media, lane, s.rt[lane].next, pc.lba, pc.old_),
         lanes := s.lanes[lane := WriteHalf(pc.lba, pc.block, pc.old_)])
    case FlogHalf2 =>
      var f := NewFlog(s.rt[lane], pc.lba, pc.old_);
      s.(media := PutHalf2(s.media, lane, s.rt[lane].next, f.newMap, f.seqNo),
         rt := s.rt[lane := FlogRuntime(f, 1 - s.rt[lane].next)],
         lanes := s.lanes[lane := WriteCommitted(pc.lba, pc.block, pc.old_)])
    case PutMap =>
      s.(media := s.media.(map_ := s.media.map_[pc.lba := s.rt[lane].flog.newMap]),
         lanes := s.lanes[lane := Unlock(pc.lba)])
    case SetMap =>
      s.(media := s.media.(map_ := s.media.map_[pc.lba := MapEntry(pc.flag.Flag(), pc.old_.lba)]),
         lanes := s.lanes[lane := Unlock(pc.lba)])
    case SetNothing => s.(lanes := s.lanes[lane := Unlock(pc.lba)])
    case Release =>
      s.(locks := s.locks[LockOf(c, pc.lba) := None], lanes := s.lanes[lane := Idle])
  }

  ghost predicate Step(c: Config, s: State, l: Label, t: State) {
    Sized(c, s) && Enabled(c, s, l) && t == Apply(c, s, l)
  }
}
