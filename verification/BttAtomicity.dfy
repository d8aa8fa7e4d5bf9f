/**
 What the block translation table promises its callers, over whole runs: writes are atomic under
 power failure, completed operations survive, and a read returns the contents its LBA had at one
 moment of the read, whole.
 */
module BttAtomicity {
  import opened Common

  import opened BttMedia
  import opened BttWrites
  import opened BttProtocol
  import opened BttSafety

  // ----- Commit points -----

  /** An update of one LBA. */
  datatype Update = Update(lba: nat, content: Content)

  /** How a block reads once the flag is set on it. */
  function FlagContent(c: Config, flag: SetFlag): Content {
    if flag.SetZero? then Bytes(Zeros(c.lbasize)) else Bad
  }

  /**
   The update a step makes durable: a write commits with the second half of its flog entry, setting
   a flag commits with the map write (or on finding it set), and no other step commits anything.
   */
  function Commit(c: Config, s: State, l: Label): (u: Option<Update>)
    requires Sized(c, s) && Enabled(c, s, l)
    ensures u.Some? ==> u.value.lba < c.nlba
  {
    if l.At? && l.act.FlogHalf2? then Some(Update(s.lanes[l.lane].lba, Bytes(s.lanes[l.lane].block)))
    else if l.At? && (l.act.SetMap? || l.act.SetNothing?) then
      Some(Update(s.lanes[l.lane].lba, FlagContent(c, s.lanes[l.lane].flag)))
    else None
  }

  function After(contents: seq<Content>, u: Option<Update>): seq<Content>
    requires u.Some? ==> u.value.lba < |contents|
  {
    if u.Some? then contents[u.value.lba := u.value.content] else contents
  }

  lemma DataStepIsAtomic(c: Config, s: State, l: Label, t: State)
    requires Inv(c, s) && Step(c, s, l, t) && l.At?
    requires l.act.Tear? || l.act.PutData?
    ensures Consistent(t.media, c.lbasize)
    ensures Durable(t.media, c.lbasize) == Durable(s.media, c.lbasize)
  {
    hide Consistent, Partition, Durable;
    assert LaneOk(c, s, l.lane) && s.rt[l.lane] == Load(s.media.flogs[l.lane]);
    DataIsInvisible(s.media, c.lbasize, l.lane, if l.act.Tear? then l.act.junk else s.lanes[l.lane].block);
  }

  lemma FlogStepIsAtomic(c: Config, s: State, l: Label, t: State)
    requires Inv(c, s) && Step(c, s, l, t) && l.At?
    requires l.act.FlogHalf1? || l.act.FlogHalf2?
    ensures Consistent(t.media, c.lbasize)
    ensures Durable(t.media, c.lbasize) == After(Durable(s.media, c.lbasize), Commit(c, s, l))
  {
    hide Consistent, Partition, Durable;
    var lane, pc := l.lane, s.lanes[l.lane];
    assert LaneOk(c, s, lane) && s.rt[lane] == Load(s.media.flogs[lane]);
    if l.act.FlogHalf1? {
      Half1IsInvisible(s.media, c.lbasize, lane, pc.lba, pc.old_);
    } else {
      forall k | 0 <= k < c.nfree && Pending(s.media, k) ensures CurrentFlog(s.media.flogs[k]).lba != pc.lba {
        LockedLbaNotPending(c, s, lane, k);
      }
      Half2IsCommit(s.media, c.lbasize, lane, pc.lba, pc.old_);
    }
  }

  lemma SetStepIsAtomic(c: Config, s: State, l: Label, t: State)
    requires Inv(c, s) && Step(c, s, l, t) && l.At?
    requires l.act.SetMap? || l.act.SetNothing?
    ensures Consistent(t.media, c.lbasize)
    ensures Durable(t.media, c.lbasize) == After(Durable(s.media, c.lbasize), Commit(c, s, l))
  {
    hide Consistent, Partition, Durable;
    var lane, pc := l.lane, s.lanes[l.lane];
    assert LaneOk(c, s, lane);
    forall k | 0 <= k < c.nfree && Pending(s.media, k) ensures CurrentFlog(s.media.flogs[k]).lba != pc.lba {
      if k != lane {
        LockedLbaNotPending(c, s, lane, k);
      }
    }
    if l.act.SetMap? {
      FlagIsCommit(s.media, c.lbasize, pc.lba, pc.flag.Flag());
    } else {
      DurableAt(s.media, c.lbasize, pc.lba);
    }
  }

  /** The remaining steps leave the media alone and commit nothing. */
  lemma QuietStep(c: Config, s: State, l: Label, t: State)
    requires Step(c, s, l, t) && !l.ReadPair?
    requires l.At? ==> !(l.act.PutMap? || l.act.SetMap? || l.act.SetNothing? || l.act.FlogHalf1? || l.act.FlogHalf2?
                         || l.act.Tear? || l.act.PutData?)
    ensures t.media == s.media && Commit(c, s, l).None?
  {
    hide Sized, Visible, LockOf, Load;
  }

  lemma RecoverStepIsAtomic(c: Config, s: State, l: Label, t: State)
    requires Inv(c, s) && Step(c, s, l, t)
    requires (l.ReadPair? || (l.At? && l.act.PutMap?)) && Consistent(t.media, c.lbasize)
    ensures Durable(t.media, c.lbasize) == Durable(s.media, c.lbasize) && Commit(c, s, l).None?
  {
    hide Consistent, Partition;
    if l.ReadPair? {
      RecoverAbsorbsOne(s.media, c.lbasize, |s.rt|);
    } else {
      PutMapIsRecovery(c, s, l, t);
      RecoverAbsorbsOne(s.media, c.lbasize, l.lane);
    }
  }

  /** One step changes what a crash would leave by exactly the update it commits. */
  lemma StepIsAtomic(c: Config, s: State, l: Label, t: State)
    requires Inv(c, s) && Step(c, s, l, t)
    ensures Inv(c, t)
    ensures Durable(t.media, c.lbasize) == After(Durable(s.media, c.lbasize), Commit(c, s, l))
  {
    hide Sized, Consistent, Durable, RunningInv, Apply, Enabled;
    StepKeepsInv(c, s, l, t);
    if l.ReadPair? || (l.At? && l.act.PutMap?) {
      RecoverStepIsAtomic(c, s, l, t);
    } else if l.At? && (l.act.SetMap? || l.act.SetNothing?) {
      SetStepIsAtomic(c, s, l, t);
    } else if l.At? && (l.act.FlogHalf1? || l.act.FlogHalf2?) {
      FlogStepIsAtomic(c, s, l, t);
    } else if l.At? && (l.act.Tear? || l.act.PutData?) {
      DataStepIsAtomic(c, s, l, t);
    } else {
      QuietStep(c, s, l, t);
    }
  }

  // ----- Runs -----

  /** States and labels of an interleaving, with any number of power failures in it. */
  ghost predicate Run(c: Config, states: seq<State>, labels: seq<Label>) {
    && |states| == |labels| + 1
    && forall i :: 0 <= i < |labels| ==> Step(c, states[i], labels[i], states[i + 1])
  }

  lemma {:induction false} RunKeepsInv(c: Config, states: seq<State>, labels: seq<Label>, i: nat)
    requires Run(c, states, labels) && Inv(c, states[0]) && i < |states|
    ensures Inv(c, states[i])
  {
    if i > 0 {
      RunKeepsInv(c, states, labels, i - 1);
      StepKeepsInv(c, states[i - 1], labels[i - 1], states[i]);
    }
  }

  /** The updates the first n steps of a run commit, in order. */
  ghost function Commits(c: Config, states: seq<State>, labels: seq<Label>, n: nat): (us: seq<Update>)
    requires Run(c, states, labels) && n <= |labels|
    ensures forall i :: 0 <= i < |us| ==> us[i].lba < c.nlba
  {
    if n == 0 then []
    else
      assert Step(c, states[n - 1], labels[n - 1], states[n - 1 + 1]);
      var u := Commit(c, states[n - 1], labels[n - 1]);
      Commits(c, states, labels, n - 1) + if u.Some? then [u.value] else []
  }

  /** Contents after a list of whole updates, one after the other. */
  function Replay(contents: seq<Content>, us: seq<Update>): (r: seq<Content>)
    requires forall i :: 0 <= i < |us| ==> us[i].lba < |contents|
    ensures |r| == |contents|
  {
    if us == [] then contents
    else Replay(contents, us[..|us| - 1])[us[|us| - 1].lba := us[|us| - 1].content]
  }

  /**
   Over any interleaving of operations on any lanes, with power failures and reopenings anywhere,
   what a reopening shows is always the initial contents with the committed updates replayed, each
   one whole and in commit order.
   */
  lemma {:induction false} RunIsAtomic(c: Config, states: seq<State>, labels: seq<Label>, n: nat)
    requires Run(c, states, labels) && Inv(c, states[0]) && n <= |labels|
    ensures Inv(c, states[n])
    ensures |Durable(states[0].media, c.lbasize)| == c.nlba
    ensures Durable(states[n].media, c.lbasize) ==
            Replay(Durable(states[0].media, c.lbasize), Commits(c, states, labels, n))
  {
    hide Apply, RunningInv, Durable, Consistent;
    if n > 0 {
      RunIsAtomic(c, states, labels, n - 1);
      StepIsAtomic(c, states[n - 1], labels[n - 1], states[n]);
      var u := Commit(c, states[n - 1], labels[n - 1]);
      var us := Commits(c, states, labels, n - 1);
      if u.Some? {
        assert (us + [u.value])[..|us|] == us;
      } else {
        assert us + [] == us;
      }
    }
  }

  /** A reopened arena reads, LBA by LBA, exactly as its durable contents, with nothing pending. */
  lemma OpenedShowsDurable(c: Config, s: State, t: State)
    requires Inv(c, s) && Step(c, s, Opened, t)
    ensures Inv(c, t) && Contents(t.media, c.lbasize) == Durable(s.media, c.lbasize)
    ensures forall lane :: 0 <= lane < c.nlane ==> t.lanes[lane] == Idle
  {
    StepKeepsInv(c, s, Opened, t);
    RecoverNothing(s.media, 0);
  }

  /** Reopening never meets a flog pair it has to reject, so it always runs to its end. */
  lemma ReopeningNeverStuck(c: Config, s: State)
    requires Inv(c, s) && s.Recovering?
    ensures if |s.rt| == c.nfree then Enabled(c, s, Opened) else Enabled(c, s, ReadPair)
    ensures forall k :: 0 <= k < c.nfree ==>
              && Select(s.media.flogs[k]).Current?
              && s.media.flogs[k].first.lba < c.nlba && s.media.flogs[k].second.lba < c.nlba
  {
    forall k | 0 <= k < c.nfree
      ensures Select(s.media.flogs[k]).Current?
              && s.media.flogs[k].first.lba < c.nlba && s.media.flogs[k].second.lba < c.nlba
    {
      assert PairOk(s.media.flogs[k], c.nlba);
    }
  }

  // ----- Operations commit once -----

  /** The updates this lane commits in steps i..m. */
  ghost function LaneCommits(c: Config, states: seq<State>, labels: seq<Label>, lane: nat, i: nat, m: nat): seq<Update>
    requires Run(c, states, labels) && i <= m <= |labels|
  {
    if m == i then []
    else
      assert Step(c, states[m - 1], labels[m - 1], states[m - 1 + 1]);
      var u := Commit(c, states[m - 1], labels[m - 1]);
      LaneCommits(c, states, labels, lane, i, m - 1)
      + if u.Some? && labels[m - 1].lane == lane then [u.value] else []
  }

  /** Between steps i and m the lane has not been idle and power has not failed. */
  ghost predicate Busy(c: Config, states: seq<State>, labels: seq<Label>, lane: nat, i: nat, m: nat)
    requires Run(c, states, labels) && i <= m <= |labels|
  {
    forall n :: i < n <= m ==> states[n].Running? && lane < |states[n].lanes| && !states[n].lanes[lane].Idle?
  }

  /** The lane is in an operation that will commit this update and has not done so yet. */
  predicate Intends(c: Config, pc: Pc, u: Update) {
    || ((pc.WriteScan? || pc.WriteData? || pc.WriteLock? || pc.WriteLocked? || pc.WriteHave? || pc.WriteHalf?)
        && u == Update(pc.lba, Bytes(pc.block)))
    || ((pc.SetLock? || pc.SetLocked? || pc.SetHave?) && u == Update(pc.lba, FlagContent(c, pc.flag)))
  }

  /** The lane's operation on this LBA has committed and is finishing. */
  predicate Committed(pc: Pc, u: Update) {
    (pc.WriteCommitted? || pc.Unlock?) && pc.lba == u.lba
  }

  /** The update an operation is started for. */
  function Intent(c: Config, act: Action): Option<Update> {
    match act
    case StartWrite(lba, block) => Some(Update(lba, Bytes(block)))
    case StartSet(lba, flag) => Some(Update(lba, FlagContent(c, flag)))
    case _ => None
  }

  lemma UpdateStarts(c: Config, s: State, l: Label, t: State, u: Update)
    requires Step(c, s, l, t) && l.At? && Intent(c, l.act) == Some(u)
    ensures t.Running? && l.lane < |t.lanes| && Intends(c, t.lanes[l.lane], u)
  {
  }

  /** One step of an update in progress: it commits what it intends, once, and nothing else. */
  lemma UpdateStep(c: Config, s: State, l: Label, t: State, lane: nat, u: Update)
    requires Step(c, s, l, t) && s.Running? && lane < |s.lanes|
    requires t.Running? && lane < |t.lanes| && !t.lanes[lane].Idle?
    requires Intends(c, s.lanes[lane], u) || Committed(s.lanes[lane], u)
    ensures Intends(c, t.lanes[lane], u) <==> !Committed(t.lanes[lane], u)
    ensures if Intends(c, s.lanes[lane], u) && Committed(t.lanes[lane], u)
            then Commit(c, s, l) == Some(u) && l.lane == lane
            else (Intends(c, s.lanes[lane], u) <==> Intends(c, t.lanes[lane], u))
                 && (Commit(c, s, l).Some? ==> l.lane != lane)
  {
    hide Shape, Visible, RecoverOne, LockOf, Load, NewFlog, PutHalf1, PutHalf2;
    if !l.At? || l.lane != lane {
      LaneUntouched(c, s, l, t, lane);
      hide Step;
    }
  }

  /** A step of another lane leaves this one where it is. */
  lemma LaneUntouched(c: Config, s: State, l: Label, t: State, lane: nat)
    requires Step(c, s, l, t) && s.Running? && lane < |s.lanes| && t.Running? && lane < |t.lanes|
    requires !l.At? || l.lane != lane
    ensures l.At? ==> t.lanes[lane] == s.lanes[lane]
    ensures !l.At? ==> t.lanes[lane].Idle?
  {
    hide Shape, Visible, RecoverOne, LockOf, Load;
  }

  /**
   An update in progress has committed nothing until its commit point, and exactly the update it
   was started for from then on: never part of it, never twice.
   */
  lemma {:induction false} UpdateCommitsOnce(
    c: Config, states: seq<State>, labels: seq<Label>, lane: nat, u: Update, i: nat, m: nat)
    requires Run(c, states, labels) && i < m <= |labels|
    requires labels[i].At? && labels[i].lane == lane && Intent(c, labels[i].act) == Some(u)
    requires Busy(c, states, labels, lane, i, m)
    ensures Intends(c, states[m].lanes[lane], u) || Committed(states[m].lanes[lane], u)
    ensures LaneCommits(c, states, labels, lane, i + 1, m) ==
            if Intends(c, states[m].lanes[lane], u) then [] else [u]
  {
    hide Step, Sized, Apply, Enabled, Commit, Intends, Committed;
    assert Step(c, states[m - 1], labels[m - 1], states[m - 1 + 1]);
    if m == i + 1 {
      UpdateStarts(c, states[i], labels[i], states[m], u);
    } else {
      UpdateCommitsOnce(c, states, labels, lane, u, i, m - 1);
      UpdateStep(c, states[m - 1], labels[m - 1], states[m], lane, u);
    }
  }

  /** An operation that completes has committed its update, whole and exactly once. */
  lemma CompletedOperationCommitted(
    c: Config, states: seq<State>, labels: seq<Label>, lane: nat, u: Update, i: nat, m: nat)
    requires Run(c, states, labels) && i < m < |labels|
    requires labels[i].At? && labels[i].lane == lane && Intent(c, labels[i].act) == Some(u)
    requires Busy(c, states, labels, lane, i, m) && labels[m] == At(lane, Release)
    ensures LaneCommits(c, states, labels, lane, i + 1, m) == [u]
  {
    UpdateCommitsOnce(c, states, labels, lane, u, i, m);
    assert Step(c, states[m], labels[m], states[m + 1]);
  }

  // ----- Reads -----

  predicate Reading(s: State, lane: nat, lba: nat) {
    && s.Running? && lane < |s.lanes|
    && var pc := s.lanes[lane];
       (pc.ReadStart? || pc.ReadGot? || pc.ReadPublished? || pc.ReadData?) && pc.lba == lba
  }

  /** The map shows this content at the LBA. */
  predicate ReadsAs(c: Config, s: State, lba: nat, content: Content) {
    Sized(c, s) && lba < c.nlba && Visible(s.media, c.lbasize, lba) == content
  }

  /** In state j, and in the same read of this lane ever since, the LBA read as `content`. */
  ghost predicate ReadAsAt(
    c: Config, states: seq<State>, lane: nat, lba: nat, content: Content, j: nat, k: nat)
    requires j <= k < |states|
  {
    && (forall i :: j <= i <= k ==> Reading(states[i], lane, lba))
    && ReadsAs(c, states[j], lba, content)
  }

  /** A step of a read either looks at the map afresh or keeps what the read saw. */
  lemma ReadStep(c: Config, s: State, l: Label, t: State, lane: nat)
    requires Step(c, s, l, t) && t.Running? && lane < |t.lanes|
    requires t.lanes[lane].ReadGot? || t.lanes[lane].ReadPublished? || t.lanes[lane].ReadData?
    ensures s.Running? && lane < |s.lanes| && Reading(s, lane, t.lanes[lane].lba)
    ensures || ReadsAs(c, s, t.lanes[lane].lba, t.lanes[lane].seen)
            || (!s.lanes[lane].ReadStart? && s.lanes[lane].seen == t.lanes[lane].seen)
  {
    hide Shape, Visible, RecoverOne, LockOf;
  }

  lemma {:induction false} SeenWasVisible(c: Config, states: seq<State>, labels: seq<Label>, lane: nat, k: nat) returns (j: nat)
    requires Run(c, states, labels) && states[0].Recovering? && k < |states|
    requires states[k].Running? && lane < |states[k].lanes|
    requires states[k].lanes[lane].ReadGot? || states[k].lanes[lane].ReadPublished? || states[k].lanes[lane].ReadData?
    ensures j <= k && ReadAsAt(c, states, lane, states[k].lanes[lane].lba, states[k].lanes[lane].seen, j, k)
  {
    assert Step(c, states[k - 1], labels[k - 1], states[k - 1 + 1]);
    ReadStep(c, states[k - 1], labels[k - 1], states[k], lane);
    var lba, seen := states[k].lanes[lane].lba, states[k].lanes[lane].seen;
    if ReadsAs(c, states[k - 1], lba, seen) {
      j := k - 1;
    } else {
      j := SeenWasVisible(c, states, labels, lane, k - 1);
    }
  }

  /** What a finishing read returns is what it saw when it last looked at the map. */
  lemma ReadReturnsSeen(c: Config, s: State, l: Label, t: State, result: Content)
    requires Inv(c, s) && Step(c, s, l, t) && l.At?
    requires l.act == FinishRead(result) || l.act == FinishEarly(result)
    ensures s.lanes[l.lane].ReadGot? || s.lanes[l.lane].ReadData?
    ensures result == s.lanes[l.lane].seen
  {
    assert LaneOk(c, s, l.lane);
  }

  /**
   Whatever the other lanes do meanwhile, a read returns the whole contents its LBA had at one
   moment of the read: an error, zeros, or all the bytes of one block.
   */
  lemma ReadsAreLinearizable(c: Config, states: seq<State>, labels: seq<Label>, k: nat, result: Content)
    requires Run(c, states, labels) && Inv(c, states[0]) && states[0].Recovering? && k < |labels|
    requires labels[k].At? && (labels[k].act == FinishRead(result) || labels[k].act == FinishEarly(result))
    ensures exists lba, j :: 0 <= j <= k && ReadAsAt(c, states, labels[k].lane, lba, result, j, k)
  {
    RunKeepsInv(c, states, labels, k);
    assert Step(c, states[k], labels[k], states[k + 1]);
    ReadReturnsSeen(c, states[k], labels[k], states[k + 1], result);
    var j := SeenWasVisible(c, states, labels, labels[k].lane, k);
  }

  lemma StillReads(c: Config, s: State, l: Label, t: State, lane: nat)
    requires Step(c, s, l, t) && s.Running? && t.Running? && lane < c.nlane
    requires s.lanes[lane].ReadData? && t.lanes[lane].ReadData?
    ensures t.lanes[lane].entry == s.lanes[lane].entry && t.lanes[lane].seen == s.lanes[lane].seen
    ensures |t.media.data| == |s.media.data|
  {
    hide Shape, Visible, RecoverOne, LockOf;
  }

  lemma BothRead(c: Config, s: State, t: State, lane: nat)
    requires Inv(c, s) && Inv(c, t) && s.Running? && t.Running? && lane < c.nlane
    requires s.lanes[lane].ReadData? && t.lanes[lane].ReadData?
    ensures var e, f := s.lanes[lane].entry, t.lanes[lane].entry;
            && e.lba < |s.media.data| && s.lanes[lane].seen == Bytes(s.media.data[e.lba])
            && f.lba < |t.media.data| && t.lanes[lane].seen == Bytes(t.media.data[f.lba])
  {
    assert LaneOk(c, s, lane) && LaneOk(c, t, lane);
  }

  /** While a lane reads a block, no step of any lane changes a byte of it. */
  lemma BlockBeingReadIsStable(c: Config, s: State, l: Label, t: State, lane: nat)
    requires Inv(c, s) && Step(c, s, l, t) && s.Running? && t.Running? && lane < c.nlane
    requires s.lanes[lane].ReadData? && t.lanes[lane].ReadData?
    ensures t.lanes[lane].entry == s.lanes[lane].entry
    ensures s.lanes[lane].entry.lba < |s.media.data| == |t.media.data|
    ensures t.media.data[s.lanes[lane].entry.lba] == s.media.data[s.lanes[lane].entry.lba]
  {
    hide Consistent, Shape, Visible, RecoverOne, LockOf;
    StepKeepsInv(c, s, l, t);
    BothRead(c, s, t, lane);
    StillReads(c, s, l, t, lane);
  }
}
