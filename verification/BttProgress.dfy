/**
 When the lanes of the block translation table can go on: a lane waits only for a map lock, whose holder can
 always go on, or for a slot of the read tracking table. A read that ends early can leave its slot set, and
 then a writer, even of the same lane, may wait for ever.
 */
module BttProgress {
  import opened Common

  import opened BttMedia
  import opened BttWrites
  import opened BttProtocol
  import opened BttSafety
  import opened BttAtomicity

  // ----- Waiting -----

  predicate WaitsForLock(c: Config, s: State, lane: nat)
    requires Sized(c, s) && s.Running? && lane < c.nlane
  {
    var pc := s.lanes[lane];
    (pc.WriteLock? || pc.SetLock?) && s.locks[LockOf(c, pc.lba)].Some?
  }

  /** The writer has come to a slot of the read tracking table that names its free block. */
  predicate WaitsForSlot(c: Config, s: State, lane: nat)
    requires Sized(c, s) && s.Running? && lane < c.nlane && PcSized(c, s, lane)
  {
    var pc := s.lanes[lane];
    pc.WriteScan? && s.rtt[pc.slot] == FreeEntry(s.rt[lane])
  }

  predicate Waits(c: Config, s: State, lane: nat)
    requires Sized(c, s) && s.Running? && lane < c.nlane && PcSized(c, s, lane)
  {
    WaitsForLock(c, s, lane) || WaitsForSlot(c, s, lane)
  }

  /** An access the lane can make next; an idle lane can start a read. */
  function NextMove(c: Config, s: State, lane: nat): Action
    requires Sized(c, s) && s.Running? && lane < c.nlane
  {
    var pc := s.lanes[lane];
    match pc
    case Idle => StartRead(0)
    case ReadStart(_) => ReadMap
    case ReadGot(_, entry, _) =>
      if entry.flags.Normal? then Publish
      else if entry.flags.Error? then FinishEarly(Bad)
      else FinishEarly(Bytes(Zeros(c.lbasize)))
    case ReadPublished(_, _, _) => Recheck
    case ReadData(_, _, _, buf) => if |buf| < c.lbasize then ReadByte else FinishRead(Bytes(buf))
    case WriteScan(_, _, _) => Scan
    case WriteData(_, _) => PutData
    case WriteLock(_, _) => Lock
    case WriteLocked(_, _) => ReadOld
    case WriteHave(_, _, _) => FlogHalf1
    case WriteHalf(_, _, _) => FlogHalf2
    case WriteCommitted(_, _, _) => PutMap
    case SetLock(_, _) => Lock
    case SetLocked(_, _) => ReadOld
    case SetHave(_, _, _) => if SetIsNoop(pc) then SetNothing else SetMap
    case Unlock(_) => Release
  }

  /** Power may fail at any time, reopening goes on, and a lane can make an access exactly when it does not wait. */
  lemma MovesUnlessWaits(c: Config, s: State, lane: nat)
    requires Sized(c, s)
    ensures Enabled(c, s, Crash)
    ensures s.Recovering? ==> Enabled(c, s, ReadPair) || Enabled(c, s, Opened)
    ensures s.Running? && lane < c.nlane ==>
              PcSized(c, s, lane) && ((exists act :: Enabled(c, s, At(lane, act))) <==> !Waits(c, s, lane))
  {
    if s.Running? && lane < c.nlane {
      if !Waits(c, s, lane) {
        assert Enabled(c, s, At(lane, NextMove(c, s, lane)));
      }
    }
  }

  // ----- Locks -----

  /** A map lock is held by a lane that is between taking and releasing it. */
  ghost predicate LocksHeld(c: Config, s: State)
    requires Sized(c, s)
  {
    s.Running? ==> forall n :: 0 <= n < c.nfree && s.locks[n].Some? ==> HeldBy(c, s, n, s.locks[n].value)
  }

  predicate HeldBy(c: Config, s: State, n: nat, lane: nat)
    requires Sized(c, s) && s.Running?
  {
    lane < c.nlane && Holds(s.lanes[lane]) && LockOf(c, s.lanes[lane].lba) == n
  }

  /** One lane's step leaves the others' run-time state alone. */
  predicate OthersSame(s: State, t: State, lane: nat)
    requires s.Running? && lane < |s.lanes|
  {
    && t.Running? && |t.lanes| == |s.lanes| && |t.rt| == |s.rt| && |t.rtt| == |s.rtt|
    && (forall k :: 0 <= k < |s.lanes| && k != lane ==> t.lanes[k] == s.lanes[k])
    && (forall k :: 0 <= k < |s.rt| && k != lane ==> t.rt[k] == s.rt[k])
    && (forall k :: 0 <= k < |s.rtt| && k != lane ==> t.rtt[k] == s.rtt[k])
  }

  /** What it does to the locks. */
  predicate LocksAfter(c: Config, s: State, t: State, lane: nat)
    requires s.Running? && t.Running? && lane < |s.lanes| == |t.lanes| && 0 < c.nfree == |s.locks|
  {
    var pc, now := s.lanes[lane], t.lanes[lane];
    || (t.locks == s.locks && (Holds(pc) ==> Holds(now) && now.lba == pc.lba))
    || (!pc.Idle? && Holds(now) && now.lba == pc.lba && t.locks == s.locks[LockOf(c, pc.lba) := Some(lane)])
    || (Holds(pc) && t.locks == s.locks[LockOf(c, pc.lba) := None])
  }

  lemma LaneStepOnly(c: Config, s: State, l: Label, t: State)
    requires Step(c, s, l, t) && l.At?
    ensures s.Running? && l.lane < c.nlane == |s.lanes| && OthersSame(s, t, l.lane) && 0 < c.nfree == |s.locks|
    ensures LocksAfter(c, s, t, l.lane)
  {
    hide Shape, LockOf, NewFlog, Visible;
  }

  lemma StepKeepsLocksHeld(c: Config, s: State, l: Label, t: State)
    requires Inv(c, s) && LocksHeld(c, s) && Step(c, s, l, t)
    ensures Inv(c, t) && LocksHeld(c, t)
  {
    StepKeepsInv(c, s, l, t);
    if l.At? {
      LaneStepOnly(c, s, l, t);
      LaneLocks(c, s, t, l.lane);
    } else if l.Opened? {
      OpenedLeavesNothing(c, s, t, 0);
    }
    hide Inv, LaneApply, Step, OthersSame, LocksAfter, Shape;
  }

  lemma LaneLocks(c: Config, s: State, t: State, lane: nat)
    requires Inv(c, s) && LocksHeld(c, s) && Sized(c, t) && s.Running? && lane < c.nlane
    requires OthersSame(s, t, lane) && LocksAfter(c, s, t, lane)
    ensures LocksHeld(c, t)
  {
    assert LaneOk(c, s, lane);
    hide Inv, Shape, LockOf, LaneOk, Consistent;
    forall n | 0 <= n < c.nfree && t.locks[n].Some? ensures HeldBy(c, t, n, t.locks[n].value) {
      assert s.locks[n].Some? ==> HeldBy(c, s, n, s.locks[n].value);
    }
  }

  /** Whoever holds a lock another lane waits for can go on. */
  lemma HolderMoves(c: Config, s: State, lane: nat)
    requires Inv(c, s) && LocksHeld(c, s) && s.Running? && lane < c.nlane && PcSized(c, s, lane)
    requires WaitsForLock(c, s, lane)
    ensures var h := s.locks[LockOf(c, s.lanes[lane].lba)].value;
            h < c.nlane && h != lane && PcSized(c, s, h) && !Waits(c, s, h)
  {
    var n := LockOf(c, s.lanes[lane].lba);
    assert HeldBy(c, s, n, s.locks[n].value);
  }

  // ----- Slots -----

  predicate InRead(pc: Pc) {
    pc.ReadStart? || pc.ReadGot? || pc.ReadPublished? || pc.ReadData?
  }

  /** The lane's slot names a block although the lane is not reading. */
  predicate Left(c: Config, s: State, k: nat)
    requires Sized(c, s) && s.Running? && k < c.nlane
  {
    s.rtt[k] != IDLE_SLOT && !InRead(s.lanes[k])
  }

  /** A slot a writer waits for belongs to a reader that can go on, or has been left set. */
  lemma SlotOwner(c: Config, s: State, lane: nat)
    requires Sized(c, s) && s.Running? && lane < c.nlane && PcSized(c, s, lane) && WaitsForSlot(c, s, lane)
    ensures var k := s.lanes[lane].slot;
            k < c.nlane && PcSized(c, s, k) && (Left(c, s, k) || (InRead(s.lanes[k]) && !Waits(c, s, k)))
  {
  }

  /** A slot is left set exactly by a read that ends early after having published a block; the lane's next read takes it up. */
  lemma LeftStep(c: Config, s: State, l: Label, t: State, k: nat)
    requires Step(c, s, l, t) && Sized(c, t) && s.Running? && t.Running? && k < c.nlane
    ensures Left(c, t, k) <==>
            if l.lane != k then Left(c, s, k)
            else (l.act.FinishEarly? && s.rtt[k] != IDLE_SLOT) || (Left(c, s, k) && !l.act.StartRead?)
  {
  }

  /** Nothing is left set when the arena is opened. */
  lemma OpenedLeavesNothing(c: Config, s: State, t: State, k: nat)
    requires Step(c, s, Opened, t) && Sized(c, t) && k < c.nlane
    ensures !Left(c, t, k) && LocksHeld(c, t)
  {
  }

  /** With no slot left set, whoever a waiting lane waits for is another lane, and that one can go on. */
  lemma WaitedForMoves(c: Config, s: State, lane: nat) returns (h: nat)
    requires Inv(c, s) && LocksHeld(c, s) && s.Running? && lane < c.nlane && PcSized(c, s, lane) && Waits(c, s, lane)
    requires forall k :: 0 <= k < c.nlane ==> !Left(c, s, k)
    ensures h < c.nlane && h != lane && PcSized(c, s, h) && !Waits(c, s, h)
    ensures WaitsForSlot(c, s, lane) ==> h == s.lanes[lane].slot
  {
    if WaitsForSlot(c, s, lane) {
      SlotOwner(c, s, lane);
      h := s.lanes[lane].slot;
    } else {
      HolderMoves(c, s, lane);
      h := s.locks[LockOf(c, s.lanes[lane].lba)].value;
    }
  }

  /** All lanes are stopped exactly when every one waits for a slot. */
  lemma AllStoppedIff(c: Config, s: State)
    requires Inv(c, s) && LocksHeld(c, s) && s.Running?
    ensures forall lane :: 0 <= lane < c.nlane ==> PcSized(c, s, lane)
    ensures (forall lane :: 0 <= lane < c.nlane ==> Waits(c, s, lane)) <==>
            (forall lane :: 0 <= lane < c.nlane ==> WaitsForSlot(c, s, lane))
  {
    if forall lane :: 0 <= lane < c.nlane ==> Waits(c, s, lane) {
      forall lane | 0 <= lane < c.nlane ensures WaitsForSlot(c, s, lane) {
        assert Waits(c, s, lane);
        if WaitsForLock(c, s, lane) {
          HolderMoves(c, s, lane);
        }
      }
    }
  }

  // ----- Waiting for ever -----

  /** These writers wait for slots of each other, or for their own. */
  ghost predicate Stuck(c: Config, s: State, d: set<nat>)
    requires Sized(c, s)
  {
    s.Running? && d != {} && forall lane :: lane in d ==> StuckLane(c, s, d, lane)
  }

  predicate StuckLane(c: Config, s: State, d: set<nat>, lane: nat)
    requires Sized(c, s) && s.Running?
  {
    lane < c.nlane && PcSized(c, s, lane) && WaitsForSlot(c, s, lane) && s.lanes[lane].slot in d
  }

  /** Another lane's step does not help a writer whose slot is not that lane's. */
  lemma StuckLaneStays(c: Config, s: State, t: State, d: set<nat>, lane: nat, mover: nat)
    requires Sized(c, s) && Sized(c, t) && s.Running? && mover < c.nlane == |s.lanes| && OthersSame(s, t, mover)
    requires StuckLane(c, s, d, lane) && mover != lane && mover != s.lanes[lane].slot
    ensures StuckLane(c, t, d, lane) && t.lanes[lane] == s.lanes[lane]
  {
    hide Shape;
  }

  /** A lane that moves is not waiting. */
  lemma MoverIsFree(c: Config, s: State, l: Label, d: set<nat>)
    requires Sized(c, s) && Enabled(c, s, l) && l.At? && Stuck(c, s, d)
    ensures l.lane !in d
  {
    if l.lane in d {
      assert StuckLane(c, s, d, l.lane);
      MovesUnlessWaits(c, s, l.lane);
    }
  }

  /** Nothing but a power failure ends that. */
  lemma StuckStays(c: Config, s: State, l: Label, t: State, d: set<nat>)
    requires Step(c, s, l, t) && Sized(c, t) && Stuck(c, s, d) && l != Crash
    ensures Stuck(c, t, d) && forall lane :: lane in d ==> t.lanes[lane] == s.lanes[lane]
  {
    LaneStepOnly(c, s, l, t);
    MoverIsFree(c, s, l, d);
    hide Sized, Apply, Enabled, StuckLane, OthersSame, LocksAfter, LockOf;
    forall lane | lane in d ensures StuckLane(c, t, d, lane) && t.lanes[lane] == s.lanes[lane] {
      SlotInside(c, s, d, lane);
      StuckLaneStays(c, s, t, d, lane, l.lane);
    }
    LanesInside(c, s, t, d);
  }

  lemma SlotInside(c: Config, s: State, d: set<nat>, lane: nat)
    requires Sized(c, s) && Stuck(c, s, d) && lane in d
    ensures StuckLane(c, s, d, lane) && lane < |s.lanes| && s.lanes[lane].WriteScan? && s.lanes[lane].slot in d
  {
  }

  lemma LanesInside(c: Config, s: State, t: State, d: set<nat>)
    requires Sized(c, s) && Stuck(c, s, d) && Sized(c, t) && t.Running?
    ensures forall lane :: lane in d ==> lane < |s.lanes| && lane < |t.lanes|
  {
    forall lane | lane in d ensures lane < c.nlane {
      assert StuckLane(c, s, d, lane);
    }
  }

  lemma {:induction false} StuckForEver(c: Config, states: seq<State>, labels: seq<Label>, d: set<nat>, i: nat)
    requires Run(c, states, labels) && i < |states| && Inv(c, states[0]) && Stuck(c, states[0], d)
    requires forall j :: 0 <= j < i ==> labels[j] != Crash
    ensures Sized(c, states[i]) && Stuck(c, states[i], d)
    ensures forall lane :: lane in d ==> states[i].lanes[lane] == states[0].lanes[lane]
  {
    hide Inv, Stuck, Sized, Enabled, Apply, WaitsForSlot;
    RunKeepsInv(c, states, labels, i);
    InvSized(c, states[i]);
    if i > 0 {
      StuckForEver(c, states, labels, d, i - 1);
      StuckStays(c, states[i - 1], labels[i - 1], states[i], d);
    }
  }

  /** It takes slots left set: each one waited for is. */
  lemma StuckNeedsLeft(c: Config, s: State, d: set<nat>, lane: nat)
    requires Sized(c, s) && Stuck(c, s, d) && lane in d
    ensures lane < c.nlane && s.lanes[lane].WriteScan? && s.lanes[lane].slot < c.nlane && Left(c, s, s.lanes[lane].slot)
  {
    assert StuckLane(c, s, d, lane) && StuckLane(c, s, d, s.lanes[lane].slot);
  }

  lemma InvSized(c: Config, s: State)
    requires Inv(c, s)
    ensures Sized(c, s)
  {
  }

  // ----- How it comes to that -----

  /** Some run from a fresh layout ends here. */
  ghost predicate Reached(c: Config, s: State) {
    Inv(c, s) && LocksHeld(c, s) && exists states, labels :: RunTo(c, states, labels, s)
  }

  ghost predicate RunTo(c: Config, states: seq<State>, labels: seq<Label>, s: State) {
    && Run(c, states, labels) && states[|labels|] == s
    && states[0].Recovering? && states[0].rt == [] && FreshMedia(c, states[0].media)
  }

  lemma ReachedMore(c: Config, s: State, l: Label)
    requires Reached(c, s) && Sized(c, s) && Enabled(c, s, l)
    ensures Reached(c, Apply(c, s, l))
  {
    var t := Apply(c, s, l);
    StepKeepsLocksHeld(c, s, l, t);
    hide Inv, LocksHeld, FreshMedia;
    var states, labels :| RunTo(c, states, labels, s);
    RunMore(c, states, labels, l, t);
    assert RunTo(c, states + [t], labels + [l], t);
  }

  /** Every state of every run from a fresh layout is reached, so all of the above holds of it. */
  lemma {:induction false} RunReached(c: Config, states: seq<State>, labels: seq<Label>, i: nat)
    requires Run(c, states, labels) && i < |states|
    requires states[0].Recovering? && states[0].rt == [] && FreshMedia(c, states[0].media)
    ensures Reached(c, states[i])
  {
    hide FreshMedia, Inv, LocksHeld, Sized, Enabled, Apply;
    if i == 0 {
      FreshReached(c, states[0].media);
    } else {
      RunReached(c, states, labels, i - 1);
      assert Step(c, states[i - 1], labels[i - 1], states[i]);
      ReachedMore(c, states[i - 1], labels[i - 1]);
    }
  }

  lemma RunMore(c: Config, states: seq<State>, labels: seq<Label>, l: Label, t: State)
    requires Run(c, states, labels) && Step(c, states[|labels|], l, t)
    ensures Run(c, states + [t], labels + [l])
  {
    hide Step;
  }

  /** A state between operations: every lane idle, no map lock taken. */
  ghost predicate Quiet(c: Config, s: State) {
    && Sized(c, s) && s.Running?
    && (forall k :: 0 <= k < c.nlane ==> s.lanes[k].Idle?)
    && (forall n :: 0 <= n < c.nfree ==> s.locks[n].None?)
  }

  lemma FreshReached(c: Config, m: Media)
    requires FreshMedia(c, m)
    ensures Reached(c, Recovering(m, []))
  {
    FreshLayoutInv(c, m);
    assert RunTo(c, [Recovering(m, [])], [], Recovering(m, []));
    hide FreshMedia, Consistent, Shape;
  }

  /** Reopening goes on to the end. */
  lemma {:induction false} OpeningReached(c: Config, s: State) returns (t: State)
    requires Reached(c, s) && s.Recovering? && Sized(c, s)
    ensures Reached(c, t) && Quiet(c, t) && forall k :: 0 <= k < c.nfree ==> t.rtt[k] == IDLE_SLOT
    decreases c.nfree - |s.rt|
  {
    if |s.rt| < c.nfree {
      ReachedMore(c, s, ReadPair);
      t := OpeningReached(c, Apply(c, s, ReadPair));
    } else {
      ReachedMore(c, s, Opened);
      t := Apply(c, s, Opened);
      ReachedSized(c, t);
    }
  }

  lemma ReachedSized(c: Config, s: State)
    requires Reached(c, s)
    ensures Sized(c, s) && Inv(c, s)
  {
  }

  lemma Go(c: Config, s: State, l: Label) returns (t: State)
    requires Reached(c, s) && Sized(c, s) && Enabled(c, s, l)
    ensures t == Apply(c, s, l) && Reached(c, t) && Sized(c, t)
  {
    t := Apply(c, s, l);
    ReachedMore(c, s, l);
    ReachedSized(c, t);
  }

  /** A writer's scan passes slots that do not name its free block. */
  lemma {:induction false} ScanReached(c: Config, s: State, lane: nat) returns (t: State)
    requires Reached(c, s) && Sized(c, s) && s.Running? && lane < c.nlane && s.lanes[lane].WriteScan?
    requires forall k :: 0 <= k < c.nlane ==> s.rtt[k] != FreeEntry(s.rt[lane])
    ensures Reached(c, t) && Sized(c, t)
    ensures t == s.(lanes := s.lanes[lane := WriteData(s.lanes[lane].lba, s.lanes[lane].block)])
    decreases if s.lanes[lane].slot < c.nlane then c.nlane - s.lanes[lane].slot else 0
  {
    hide Shape, Reached, FreeEntry;
    assert PcSized(c, s, lane);
    t := Go(c, s, At(lane, Scan));
    if s.lanes[lane].slot + 1 < c.nlane {
      t := ScanReached(c, t, lane);
    }
  }

  lemma Twice<T>(q: seq<T>, i: nat, x: T, y: T)
    requires i < |q|
    ensures q[i := x][i := y] == q[i := y] && q[i := q[i]] == q
  {
  }

  /** A write up to the lock. */
  lemma DataReached(c: Config, s: State, lane: nat, lba: nat, block: Block) returns (t: State)
    requires Reached(c, s) && Sized(c, s) && s.Running? && lane < c.nlane && s.lanes[lane].Idle? && lba < c.nlba && |block| == c.lbasize
    requires forall k :: 0 <= k < c.nlane ==> s.rtt[k] != FreeEntry(s.rt[lane])
    ensures Reached(c, t) && Sized(c, t)
    ensures t == s.(media := s.media.(data := s.media.data[s.rt[lane].flog.oldMap.lba := block]),
                    lanes := s.lanes[lane := WriteLock(lba, block)])
  {
    hide Shape, Reached, FreeEntry;
    var u := Go(c, s, At(lane, StartWrite(lba, block)));
    var v := ScanReached(c, u, lane);
    t := Go(c, v, At(lane, PutData));
    Twice(s.lanes, lane, WriteScan(lba, block, 0), WriteData(lba, block));
    Twice(s.lanes, lane, WriteData(lba, block), WriteLock(lba, block));
  }

  /** The lock and the old map entry. */
  lemma OldReached(c: Config, s: State, lane: nat) returns (t: State)
    requires Reached(c, s) && Sized(c, s) && s.Running? && lane < c.nlane && PcSized(c, s, lane)
    requires (s.lanes[lane].WriteLock? || s.lanes[lane].SetLock?) && s.locks[LockOf(c, s.lanes[lane].lba)].None?
    ensures Reached(c, t) && Sized(c, t)
    ensures var pc := s.lanes[lane];
            var old_ := Normalized(s.media.map_[pc.lba], pc.lba);
            t == s.(locks := s.locks[LockOf(c, pc.lba) := Some(lane)],
                    lanes := s.lanes[lane := if pc.WriteLock? then WriteHave(pc.lba, pc.block, old_) else SetHave(pc.lba, pc.flag, old_)])
  {
    hide Shape, Reached, Normalized, LockOf;
    var u := Go(c, s, At(lane, Lock));
    t := Go(c, u, At(lane, ReadOld));
    Twice(s.lanes, lane, u.lanes[lane], t.lanes[lane]);
  }

  /** Both halves of the flog entry. */
  lemma FlogReached(c: Config, s: State, lane: nat) returns (t: State)
    requires Reached(c, s) && Sized(c, s) && s.Running? && lane < c.nlane && PcSized(c, s, lane) && s.lanes[lane].WriteHave?
    ensures Reached(c, t) && Sized(c, t)
    ensures var pc := s.lanes[lane];
            && t.Running? && t.media.map_ == s.media.map_
            && t == s.(media := t.media,
                       rt := s.rt[lane := FlogRuntime(NewFlog(s.rt[lane], pc.lba, pc.old_), 1 - s.rt[lane].next)],
                       lanes := s.lanes[lane := WriteCommitted(pc.lba, pc.block, pc.old_)])
  {
    hide Shape, Reached, NewFlog;
    var u := Go(c, s, At(lane, FlogHalf1));
    t := Go(c, u, At(lane, FlogHalf2));
    Twice(s.lanes, lane, u.lanes[lane], t.lanes[lane]);
  }

  /** The map entry, and the lock again. */
  lemma MapReached(c: Config, s: State, lane: nat, act: Action, e: MapEntry) returns (t: State)
    requires Reached(c, s) && Sized(c, s) && s.Running? && lane < c.nlane && PcSized(c, s, lane)
    requires || (act == PutMap && s.lanes[lane].WriteCommitted? && e == s.rt[lane].flog.newMap)
             || (act == SetMap && s.lanes[lane].SetHave? && !SetIsNoop(s.lanes[lane])
                 && e == MapEntry(s.lanes[lane].flag.Flag(), s.lanes[lane].old_.lba))
    ensures Reached(c, t) && Sized(c, t)
    ensures var lba := s.lanes[lane].lba;
            t == s.(media := s.media.(map_ := s.media.map_[lba := e]), locks := s.locks[LockOf(c, lba) := None], lanes := s.lanes[lane := Idle])
  {
    hide Shape, Reached, LockOf;
    var u := Go(c, s, At(lane, act));
    t := Go(c, u, At(lane, Release));
    Twice(s.lanes, lane, u.lanes[lane], t.lanes[lane]);
  }

  /** A write of one lane while the others do nothing. */
  lemma WriteReached(c: Config, s: State, lane: nat, lba: nat, block: Block) returns (t: State)
    requires Reached(c, s) && Quiet(c, s) && lane < c.nlane && lba < c.nlba && |block| == c.lbasize
    requires forall k :: 0 <= k < c.nlane ==> s.rtt[k] != FreeEntry(s.rt[lane])
    ensures Reached(c, t) && Quiet(c, t) && t.rtt == s.rtt
    ensures t.media.map_[lba] == FreeEntry(s.rt[lane])
    ensures t.rt[lane].flog.oldMap == Normalized(s.media.map_[lba], lba)
  {
    hide Shape, Reached, FreeEntry, Normalized, LockOf;
    var d := DataReached(c, s, lane, lba, block);
    var o := OldReached(c, d, lane);
    var f := FlogReached(c, o, lane);
    t := MapReached(c, f, lane, PutMap, f.rt[lane].flog.newMap);
    Twice(s.locks, LockOf(c, lba), Some(lane), None);
  }

  /** A read up to the published block. */
  lemma PublishReached(c: Config, s: State, r: nat, lba: nat) returns (t: State)
    requires Reached(c, s) && Sized(c, s) && s.Running? && r < c.nlane && s.lanes[r].Idle? && lba < c.nlba
    requires s.media.map_[lba].flags.Normal?
    ensures Reached(c, t) && Sized(c, t) && t.Running? && t.lanes[r].ReadPublished? && t.lanes[r].lba == lba
    ensures t.lanes[r].entry == s.media.map_[lba]
    ensures t == s.(rtt := s.rtt[r := s.media.map_[lba]], lanes := s.lanes[r := t.lanes[r]])
  {
    hide Shape, Reached, Visible;
    var u := Go(c, s, At(r, StartRead(lba)));
    var v := Go(c, u, At(r, ReadMap));
    t := Go(c, v, At(r, Publish));
    Twice(s.lanes, r, u.lanes[r], v.lanes[r]);
    Twice(s.lanes, r, v.lanes[r], t.lanes[r]);
  }

  /** It finds the LBA zeroed when it looks again. */
  lemma EarlyReached(c: Config, s: State, r: nat) returns (t: State)
    requires Reached(c, s) && Sized(c, s) && s.Running? && r < c.nlane && PcSized(c, s, r) && s.lanes[r].ReadPublished?
    requires s.media.map_[s.lanes[r].lba].flags.Zero?
    ensures Reached(c, t) && Sized(c, t) && t == s.(lanes := s.lanes[r := Idle])
  {
    hide Shape, Reached, Visible;
    var u := Go(c, s, At(r, Recheck));
    t := Go(c, u, At(r, FinishEarly(Bytes(Zeros(c.lbasize)))));
    Twice(s.lanes, r, u.lanes[r], Idle);
  }

  /** A read that another lane's zeroing of the LBA overtakes ends early and leaves its slot set. */
  lemma LeftReached(c: Config, s: State, r: nat, w: nat, lba: nat) returns (t: State)
    requires Reached(c, s) && Quiet(c, s) && r < c.nlane && w < c.nlane && r != w && lba < c.nlba
    requires s.media.map_[lba].flags.Normal?
    ensures Reached(c, t) && Quiet(c, t) && t.rtt == s.rtt[r := s.media.map_[lba]] && t.rt == s.rt
    ensures t.media.map_[lba] == MapEntry(Zero, s.media.map_[lba].lba)
  {
    hide Shape, Reached, LockOf;
    var p := PublishReached(c, s, r, lba);
    var b := Go(c, p, At(w, StartSet(lba, SetZero)));
    var o := OldReached(c, b, w);
    var m := MapReached(c, o, w, SetMap, MapEntry(Zero, s.media.map_[lba].lba));
    t := EarlyReached(c, m, r);
  }

  /**
   On every arena of at least two lanes: a lane that has written an LBA reads it, the LBA is zeroed by another
   lane in the middle of that read, the first lane writes it again, and its next write waits for ever for its
   own slot.
   */
  lemma OwnSlotIsReached(c: Config, m: Media, block: Block) returns (s: State)
    requires FreshMedia(c, m) && c.nlane >= 2 && |block| == c.lbasize
    ensures Reached(c, s) && Sized(c, s) && Stuck(c, s, {0}) && s.lanes[0] == WriteScan(0, block, 0)
  {
    hide FreshMedia, Shape, Reached;
    FreshReached(c, m);
    ReachedSized(c, Recovering(m, []));
    var a := OpeningReached(c, Recovering(m, []));
    var b := WriteReached(c, a, 0, 0, block);
    var d := LeftReached(c, b, 0, 1, 0);
    OwnBlock(c, b, 0, 0);
    var e := WriteReached(c, d, 0, 0, block);
    s := Go(c, e, At(0, StartWrite(0, block)));
    assert StuckLane(c, s, {0}, 0);
  }

  /** A mapped block is not the lane's free one. */
  lemma OwnBlock(c: Config, s: State, lane: nat, lba: nat)
    requires Reached(c, s) && Quiet(c, s) && lane < c.nlane && lba < c.nlba
    ensures MapBlock(s.media, lba) != s.rt[lane].flog.oldMap.lba
  {
    assert !Pending(s.media, lane) && s.rt[lane] == Load(s.media.flogs[lane]);
    assert OwnedBlock(s.media, lba) != OwnedBlock(s.media, c.nlba + lane);
  }
}
