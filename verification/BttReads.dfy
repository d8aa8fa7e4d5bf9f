/**
 What reads of the block translation table return in terms of the writes: the contents after all
 updates committed up to some step, which never lies before an update that had completed when the read
 began, and never moves back from one read to the next.
 */
module BttReads {
  import opened BttMedia
  import opened BttWrites
  import opened BttProtocol
  import opened BttSafety
  import opened BttAtomicity

  /** A lane has committed an update of this LBA and not yet put it in the map. */
  predicate PendingAt(s: State, lba: nat) {
    s.Running? && exists lane :: 0 <= lane < |s.lanes| && CommittedAt(s, lane, lba)
  }

  predicate CommittedAt(s: State, lane: nat, lba: nat)
    requires s.Running? && lane < |s.lanes|
  {
    s.lanes[lane].WriteCommitted? && s.lanes[lane].lba == lba
  }

  /** Unless an update of it is pending, an LBA reads as it would after a crash. */
  lemma VisibleIsDurable(c: Config, s: State, lba: nat)
    requires Inv(c, s) && s.Running? && lba < c.nlba && !PendingAt(s, lba)
    ensures MapBlock(s.media, lba) < |s.media.data|
    ensures Visible(s.media, c.lbasize, lba) == Durable(s.media, c.lbasize)[lba]
  {
    hide Consistent, Durable;
    DurableAt(s.media, c.lbasize, lba);
    forall k | 0 <= k < |s.media.flogs| ensures !PendingFor(s.media, k, lba) {
      if PendingFor(s.media, k, lba) {
        PendingIsCommitted(c, s, k, lba);
      }
    }
  }

  lemma PendingIsCommitted(c: Config, s: State, k: nat, lba: nat)
    requires Inv(c, s) && s.Running? && k < c.nfree && PendingFor(s.media, k, lba)
    ensures k < c.nlane && CommittedAt(s, k, lba)
  {
    assert LaneOk(c, s, k) && s.rt[k] == Load(s.media.flogs[k]);
  }

  /** In every reachable state an LBA reads as its committed updates replayed, except while one is pending. */
  lemma VisibleIsReplay(c: Config, states: seq<State>, labels: seq<Label>, n: nat, lba: nat)
    requires Run(c, states, labels) && Inv(c, states[0]) && n <= |labels|
    requires states[n].Running? && lba < c.nlba && !PendingAt(states[n], lba)
    ensures Inv(c, states[n]) && MapBlock(states[n].media, lba) < |states[n].media.data|
    ensures |Durable(states[0].media, c.lbasize)| == c.nlba
    ensures Visible(states[n].media, c.lbasize, lba)
            == Replay(Durable(states[0].media, c.lbasize), Commits(c, states, labels, n))[lba]
  {
    hide Inv, Step, Durable, Commits, Replay, Visible, PendingAt;
    RunIsAtomic(c, states, labels, n);
    VisibleIsDurable(c, states[n], lba);
  }

  // ----- While an update is pending -----

  /** The pending update's lane holds the map lock of the LBA. */
  lemma OneHolder(c: Config, s: State, lane: nat, other: nat)
    requires Inv(c, s) && s.Running? && lane < c.nlane && other < c.nlane
    requires Holds(s.lanes[lane]) && Holds(s.lanes[other]) && s.lanes[lane].lba == s.lanes[other].lba
    ensures lane == other
  {
    assert LaneOk(c, s, lane) && LaneOk(c, s, other);
  }

  /** The block a lane may still write is not the one an LBA is mapped to. */
  lemma DataElsewhere(c: Config, s: State, lane: nat, lba: nat)
    requires Inv(c, s) && s.Running? && lane < c.nlane && s.lanes[lane].WriteData? && lba < c.nlba
    ensures MapBlock(s.media, lba) != s.rt[lane].flog.oldMap.lba
  {
    assert LaneOk(c, s, lane) && s.rt[lane] == Load(s.media.flogs[lane]);
    assert !Pending(s.media, lane);
    OwnersDiffer(s.media, lba, |s.media.map_| + lane);
  }

  /** The lock keeps its map entry from changing. */
  lemma PendingKeepsMap(c: Config, s: State, l: Label, t: State, lba: nat)
    requires Inv(c, s) && Step(c, s, l, t) && s.Running? && t.Running? && lba < c.nlba && PendingAt(t, lba)
    ensures |t.media.map_| == c.nlba && t.media.map_[lba] == s.media.map_[lba]
  {
    hide Consistent, Shape, RecoverOne, LockOf, Visible;
    var lane :| 0 <= lane < |t.lanes| && CommittedAt(t, lane, lba);
    if l.act.PutMap? || l.act.SetMap? {
      if s.lanes[l.lane].lba == lba {
        OneHolder(c, s, l.lane, lane);
      }
    }
  }

  /** And nobody writes to the block it is mapped to. */
  lemma MappedKept(c: Config, s: State, l: Label, t: State, lba: nat)
    requires Inv(c, s) && Step(c, s, l, t) && s.Running? && t.Running? && lba < c.nlba
    ensures MapBlock(s.media, lba) < |s.media.data| == |t.media.data|
    ensures t.media.data[MapBlock(s.media, lba)] == s.media.data[MapBlock(s.media, lba)]
  {
    hide Consistent, Shape, RecoverOne, LockOf, Visible;
    if l.act.Tear? || l.act.PutData? {
      DataElsewhere(c, s, l.lane, lba);
    }
  }

  /** An LBA with a pending update goes on reading as before until the update is put in the map. */
  lemma PendingKeepsVisible(c: Config, s: State, l: Label, t: State, lba: nat)
    requires Inv(c, s) && Step(c, s, l, t) && s.Running? && t.Running? && lba < c.nlba && PendingAt(t, lba)
    ensures MapBlock(s.media, lba) < |s.media.data| && lba < |t.media.map_| && MapBlock(t.media, lba) < |t.media.data|
    ensures Visible(t.media, c.lbasize, lba) == Visible(s.media, c.lbasize, lba)
  {
    hide RunningInv, Consistent, PendingAt, Step;
    PendingKeepsMap(c, s, l, t, lba);
    MappedKept(c, s, l, t, lba);
  }

  // ----- Where a read stands among the commits -----

  /** How many steps' commits an LBA shows after n steps: all n, or those before its pending update's commit. */
  ghost function Point(c: Config, states: seq<State>, labels: seq<Label>, lba: nat, n: nat): (p: nat)
    requires Run(c, states, labels) && n <= |labels|
    ensures p <= n && (p == n || PendingAt(states[n], lba))
  {
    if n == 0 || !PendingAt(states[n], lba) then n
    else if PendingAt(states[n - 1], lba) then Point(c, states, labels, lba, n - 1)
    else n - 1
  }

  /** It never moves back. */
  lemma {:induction false} PointMonotone(c: Config, states: seq<State>, labels: seq<Label>, lba: nat, m: nat, n: nat)
    requires Run(c, states, labels) && m <= n <= |labels|
    ensures Point(c, states, labels, lba, m) <= Point(c, states, labels, lba, n)
    decreases n
  {
    if m < n {
      PointMonotone(c, states, labels, lba, m, n - 1);
    }
  }

  /** A state with a pending update came from a running one. */
  lemma PendingRuns(c: Config, s: State, l: Label, t: State, lba: nat)
    requires Step(c, s, l, t) && PendingAt(t, lba)
    ensures s.Running?
  {
    hide Sized, RecoverOne, Load;
  }

  /** After any number of steps an LBA reads as the updates committed up to its point, replayed. */
  lemma {:induction false} VisibleAtPoint(c: Config, states: seq<State>, labels: seq<Label>, lba: nat, n: nat)
    requires Run(c, states, labels) && Inv(c, states[0]) && states[0].Recovering? && n <= |labels|
    requires states[n].Running? && lba < c.nlba
    ensures Inv(c, states[n]) && MapBlock(states[n].media, lba) < |states[n].media.data|
    ensures |Durable(states[0].media, c.lbasize)| == c.nlba
    ensures Visible(states[n].media, c.lbasize, lba)
            == Replay(Durable(states[0].media, c.lbasize), Commits(c, states, labels, Point(c, states, labels, lba, n)))[lba]
    decreases n
  {
    hide Inv, Step, PendingAt, Durable, Commits, Replay, Visible;
    RunKeepsInv(c, states, labels, n);
    if !PendingAt(states[n], lba) {
      VisibleIsReplay(c, states, labels, n, lba);
    } else {
      assert Step(c, states[n - 1], labels[n - 1], states[n - 1 + 1]);
      PendingRuns(c, states[n - 1], labels[n - 1], states[n], lba);
      RunKeepsInv(c, states, labels, n - 1);
      PendingKeepsVisible(c, states[n - 1], labels[n - 1], states[n], lba);
      if PendingAt(states[n - 1], lba) {
        VisibleAtPoint(c, states, labels, lba, n - 1);
      } else {
        VisibleIsReplay(c, states, labels, n - 1, lba);
      }
    }
  }

  // ----- Reads after writes -----

  /** Step m completes an update of this LBA. */
  ghost predicate Completes(states: seq<State>, labels: seq<Label>, m: nat, lba: nat)
    requires m < |labels| && |states| == |labels| + 1
  {
    && labels[m].At? && labels[m].act.Release? && states[m].Running? && labels[m].lane < |states[m].lanes|
    && states[m].lanes[labels[m].lane] == Unlock(lba)
  }

  /** A completing update still holds the lock, so none is pending. */
  lemma CompletesAtPoint(c: Config, states: seq<State>, labels: seq<Label>, m: nat, lba: nat)
    requires Run(c, states, labels) && Inv(c, states[0]) && m < |labels| && Completes(states, labels, m, lba)
    ensures Point(c, states, labels, lba, m) == m
  {
    hide Step, Consistent;
    RunKeepsInv(c, states, labels, m);
    if PendingAt(states[m], lba) {
      var lane :| 0 <= lane < |states[m].lanes| && CommittedAt(states[m], lane, lba);
      OneHolder(c, states[m], lane, labels[m].lane);
    }
  }

  lemma ReadGoesOn(c: Config, s: State, l: Label, t: State, lane: nat, lba: nat)
    requires Step(c, s, l, t) && t.Running? && lane < |t.lanes| && !t.lanes[lane].Idle?
    requires Reading(s, lane, lba) || l == At(lane, StartRead(lba))
    ensures Reading(t, lane, lba)
  {
    hide Shape, Visible, RecoverOne, LockOf;
  }

  /** A read goes on with the LBA it was started for. */
  lemma {:induction false} ReadKeepsLba(c: Config, states: seq<State>, labels: seq<Label>, lane: nat, lba: nat, r: nat, k: nat)
    requires Run(c, states, labels) && r < k <= |labels| && labels[r] == At(lane, StartRead(lba))
    requires Busy(c, states, labels, lane, r, k)
    ensures Reading(states[k], lane, lba)
    decreases k
  {
    hide Step, Reading;
    assert Step(c, states[k - 1], labels[k - 1], states[k - 1 + 1]);
    if r + 1 < k {
      ReadKeepsLba(c, states, labels, lane, lba, r, k - 1);
    }
    ReadGoesOn(c, states[k - 1], labels[k - 1], states[k], lane, lba);
  }

  /** The moment a read looked at the map lies after its start. */
  lemma LooksAfterStart(c: Config, states: seq<State>, lane: nat, lba: nat, content: Content, r: nat, j: nat, k: nat)
    requires j <= k < |states| && r <= k && ReadAsAt(c, states, lane, lba, content, j, k)
    requires !Reading(states[r], lane, lba)
    ensures r < j && Reading(states[j], lane, lba)
  {
    hide Reading, ReadsAs;
    assert Reading(states[j], lane, lba);
  }

  /**
   A read returns its LBA after the updates committed by some step of the run, replayed from the initial
   contents: not before any update of it that had completed when the read began, and in the order in
   which reads follow each other.
   */
  lemma ReadSeesCommits(c: Config, states: seq<State>, labels: seq<Label>, lane: nat, lba: nat, r: nat, k: nat, result: Content)
    returns (j: nat)
    requires Run(c, states, labels) && Inv(c, states[0]) && states[0].Recovering? && r < k < |labels|
    requires labels[r] == At(lane, StartRead(lba)) && Busy(c, states, labels, lane, r, k)
    requires labels[k] == At(lane, FinishRead(result)) || labels[k] == At(lane, FinishEarly(result))
    ensures r < j <= k && lba < c.nlba && |Durable(states[0].media, c.lbasize)| == c.nlba
    ensures var n := Point(c, states, labels, lba, j);
            && result == Replay(Durable(states[0].media, c.lbasize), Commits(c, states, labels, n))[lba]
            && forall m :: 0 <= m <= r && Completes(states, labels, m, lba) ==> m <= n
  {
    hide Inv, Step, Point, Durable, Replay, Commits, PendingAt, Completes, Busy;
    ReadKeepsLba(c, states, labels, lane, lba, r, k);
    assert Step(c, states[k], labels[k], states[k + 1]) && Step(c, states[r], labels[r], states[r + 1]);
    RunKeepsInv(c, states, labels, k);
    ReadReturnsSeen(c, states[k], labels[k], states[k + 1], result);
    j := SeenWasVisible(c, states, labels, lane, k);
    StartIdle(c, states[r], labels[r], states[r + 1]);
    LooksAfterStart(c, states, lane, lba, result, r, j, k);
    VisibleAtPoint(c, states, labels, lba, j);
    forall m | 0 <= m <= r && Completes(states, labels, m, lba) ensures m <= Point(c, states, labels, lba, j) {
      CompletesAtPoint(c, states, labels, m, lba);
      PointMonotone(c, states, labels, lba, m, j);
    }
  }

  lemma StartIdle(c: Config, s: State, l: Label, t: State)
    requires Step(c, s, l, t) && l.At? && l.act.StartRead?
    ensures s.Running? && l.lane < |s.lanes| && s.lanes[l.lane].Idle? && l.act.lba < c.nlba
  {
    hide Shape;
  }
}
