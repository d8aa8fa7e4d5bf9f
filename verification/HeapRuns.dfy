/**
 Whole runs of the persistent heap: every clean step keeps the invariant, an allocation takes effect at
 one persist and a free at one persist, reopening ends settled however often it is cut short, and every
 step that is not clean can be followed by clean ones to a state reopening does not settle.
 */
module HeapRuns {
  import opened Common

  import opened HeapZone
  import opened HeapRecovery
  import opened HeapSafety

  // ----- Single steps -----

  /** What a step does to the pointers that would survive a crash: only two kinds of step change them. */
  ghost function Commit(s: State, l: Label, kept: map<nat, nat>): map<nat, nat>
    requires Sized(s) && Enabled(s, l)
  {
    if l.At? && l.act.NullPtr? then kept - {s.lanes[l.arena].ptr}
    else if l.At? && l.act.ClearSlot? && s.lanes[l.arena].ptr in s.media.ptrs
    then kept[s.lanes[l.arena].ptr := s.media.ptrs[s.lanes[l.arena].ptr]]
    else kept
  }

  lemma RecoverKeepsInv(s: State, t: State)
    requires Inv(s) && Step(s, Recover, t)
    ensures Inv(t) && Survivors(t.media) == Survivors(s.media)
  {
    if !NeverUsed(s.media) {
      RecoverStepOk(s.media, s.at);
    }
    hide Survivors, Tiled, Heads;
  }

  lemma AllFreeSurvive(m: Media)
    requires forall i :: 0 <= i < |m.slots| ==> m.slots[i].Free_?
    ensures Survivors(m) == m.ptrs
  {
  }

  /** Only a heap never used has a header to write, and with its magic number it is one free chunk. */
  lemma StampKeepsInv(s: State, t: State)
    requires Inv(s) && Step(s, Stamp, t)
    ensures Inv(t) && Survivors(t.media) == Survivors(s.media)
  {
    StepKeepsSized(s, Stamp, t);
    AllFreeSurvive(s.media);
    AllFreeSurvive(t.media);
    if NeverUsed(s.media) {
      NewZone(s.media.zone);
    } else {
      TiledIsDone(s.media.zone, 0);
    }
  }

  lemma OpenedKeepsInv(s: State, found: set<nat>, t: State)
    requires Inv(s) && Step(s, Opened(found), t)
    ensures Inv(t) && t.media == s.media
  {
    StepKeepsSized(s, Opened(found), t);
    TiledIsDone(s.media.zone, 0);
    forall p | p in t.media.ptrs ensures t.media.ptrs[p] !in t.bucket {
      assert Unguarded(s.media, p);
    }
    forall a | 0 <= a < |t.lanes| ensures ArenaOk(t, a) && PcWhole(t, a) {
      assert s.media.slots[a].Free_?;
    }
  }

  lemma CrashKeepsInv(s: State, t: State)
    requires Inv(s) && Step(s, Crash, t)
    ensures Inv(t) && t.media == s.media
  {
    hide Tiled, Heads, RunningOk, DurableOk;
  }

  /** Every step of a run keeps the invariant and commits at most one operation. */
  lemma StepKeepsInv(s: State, l: Label, t: State)
    requires Inv(s) && Step(s, l, t) && Clean(s, l)
    ensures Inv(t) && Survivors(t.media) == Commit(s, l, Survivors(s.media))
  {
    match l
    case Crash => CrashKeepsInv(s, t);
    case Recover => RecoverKeepsInv(s, t);
    case Stamp => StampKeepsInv(s, t);
    case Opened(found) => OpenedKeepsInv(s, found, t);
    case At(a, act) =>
      hide Survivors;
      match act
      case StartMalloc(_, _) => StartsKeepInv(s, l, t);
      case StartFree(_) => StartsKeepInv(s, l, t);
      case Pick(_) => VolatileKeepsInv(s, l, t);
      case PickNothing => VolatileKeepsInv(s, l, t);
      case PutBack(_) => VolatileKeepsInv(s, l, t);
      case FitExactly => VolatileKeepsInv(s, l, t);
      case WriteRest => SplitKeepsInv(s, l, t);
      case WriteMagic => SplitKeepsInv(s, l, t);
      case ShrinkChunk(_) => SplitKeepsInv(s, l, t);
      case SetPtr => SetPtrKeepsInv(s, l, t);
      case MarkUsed => MarksKeepInv(s, l, t);
      case RefuseFree => VolatileKeepsInv(s, l, t);
      case ClearUsed(_) => MarksKeepInv(s, l, t);
      case NullPtr => NullPtrKeepsInv(s, l, t);
      case ClearSlot => ClearSlotKeepsInv(s, l, t);
  }

  /**
   Power may fail at any time, and an arena inside an operation can always go on. A chunk taken out is put back
   exactly if it is too small, and split exactly if it is larger than asked for.
   */
  lemma ArenaGoesOn(s: State, a: nat)
    requires Inv(s)
    ensures Enabled(s, Crash)
    ensures s.Running? && a < |s.lanes| && !s.lanes[a].Idle? ==> exists act :: Enabled(s, At(a, act))
    ensures s.Running? && a < |s.lanes| && s.lanes[a].Got? ==>
              var units, size := s.lanes[a].units, s.media.zone[s.lanes[a].chunk].size;
              && (forall added :: Enabled(s, At(a, PutBack(added))) <==> size < units)
              && (Enabled(s, At(a, FitExactly)) <==> size == units) && (Enabled(s, At(a, WriteRest)) <==> size > units)
  {
    if s.Running? && a < |s.lanes| && !s.lanes[a].Idle? {
      assert PcWhole(s, a);
      if s.lanes[a].Got? {
        ChunkFits(s.media.zone, 0, s.lanes[a].chunk);
      }
      hide Tiled, Heads, RunningOk, DurableOk;
      assert Enabled(s, At(a, NextAction(s, a)));
    }
  }

  /** A next action of an arena inside an operation. */
  function NextAction(s: State, a: nat): Action
    requires s.Running? && a < |s.lanes| && (s.lanes[a].Got? ==> s.lanes[a].chunk < |s.media.zone|)
  {
    var pc := s.lanes[a];
    match pc
    case Idle => PickNothing
    case Picking(_, _) => PickNothing
    case Got(_, units, c) =>
      if s.media.zone[c].size < units then PutBack(true) else if s.media.zone[c].size == units then FitExactly else WriteRest
    case Split1(_, _, _) => WriteMagic
    case Split2(_, _, _) => ShrinkChunk(true)
    case Fitted(_, _) => SetPtr
    case Pointed(_, _) => MarkUsed
    case Unmark(_, _) => ClearUsed(true)
    case Unmarked(_, _) => NullPtr
    case Finishing(_) => ClearSlot
  }

  // ----- Recovery by itself -----

  /** Recovery turns every durable state of a run into a settled one holding exactly the survivors. */
  lemma {:induction false} RecoverySettles(m: Media, i: nat)
    requires DurableOk(m) && i <= |m.slots| && PtrsInside(m)
    requires forall j :: 0 <= j < i ==> m.slots[j].Free_?
    ensures Settled(Recovered(m, i)) && Recovered(m, i).ptrs == Survivors(m)
    decreases |m.slots| - i, if i < |m.slots| then Work(m, i) else 0
  {
    if i == |m.slots| {
      AllFreeSurvive(m);
      AllFreeSettled(m);
    } else if m.slots[i].Free_? {
      RecoverySettles(m, i + 1);
    } else {
      hide DurableOk, Settled, Survivors;
      RecoverStepOk(m, i);
      RecoverySettles(RecoverStep(m, i), i);
    }
  }

  lemma AllFreeSettled(m: Media)
    requires DurableOk(m) && forall i :: 0 <= i < |m.slots| ==> m.slots[i].Free_?
    ensures Settled(m)
  {
    forall c | c in Heads(m.zone, 0) && Pointed_(m, c) ensures m.zone[c].used {
      var p :| p in m.ptrs && m.ptrs[p] == c;
      assert Unguarded(m, p);
    }
  }

  /** Skipping slots already clear changes nothing. */
  lemma {:induction false} SkipsCleared(m: Media, i: nat, j: nat)
    requires PtrsInside(m) && i <= j <= |m.slots| && forall k :: i <= k < j ==> m.slots[k].Free_?
    ensures Recovered(m, i) == Recovered(m, j)
    decreases j - i
  {
    if i < j {
      SkipsCleared(m, i + 1, j);
    }
  }

  /** Recovery cut short after any number of persists and started over ends where it would have ended. */
  lemma {:induction false} InterruptedRecovery(m: Media, i: nat, n: nat)
    requires PtrsInside(m) && i <= |m.slots| && forall k :: 0 <= k < i ==> m.slots[k].Free_?
    ensures Recovered(CutShort(m, i, n), 0) == Recovered(m, 0) && Reopened(CutShort(m, i, n)) == Reopened(m)
    decreases n
  {
    if n == 0 || i == |m.slots| {
    } else if m.slots[i].Free_? {
      InterruptedRecovery(m, i + 1, n - 1);
    } else {
      SkipsCleared(m, 0, i);
      SkipsCleared(RecoverStep(m, i), 0, i);
      InterruptedRecovery(RecoverStep(m, i), i, n - 1);
    }
  }

  /** The durable state after at most n moves of recovery. */
  function CutShort(m: Media, i: nat, n: nat): (r: Media)
    requires PtrsInside(m) && i <= |m.slots|
    ensures PtrsInside(r) && |r.slots| == |m.slots|
    decreases n
  {
    if n == 0 || i == |m.slots| then m
    else if m.slots[i].Free_? then CutShort(m, i + 1, n - 1)
    else CutShort(RecoverStep(m, i), i, n - 1)
  }

  /** And so does filling, whatever the headers hold. */
  lemma InterruptedFilling(m: Media)
    requires PtrsInside(m) && forall i :: 0 <= i < |m.slots| ==> m.slots[i].Free_?
    requires WalkFrom(m.zone, 0).Missing?
    ensures Reopened(m.(zone := Stamped(m.zone, WalkFrom(m.zone, 0).at))) == Reopened(m)
  {
    SkipsCleared(m, 0, |m.slots|);
    SkipsCleared(m.(zone := Stamped(m.zone, WalkFrom(m.zone, 0).at)), 0, |m.slots|);
    FillInterrupted(m.zone);
  }

  /** Any run, clean or not. */
  ghost predicate AnyRun(s: State, ls: seq<Label>, t: State)
    decreases ls
  {
    if ls == [] then s == t else exists u :: Step(s, ls[0], u) && AnyRun(u, ls[1..], t)
  }

  lemma {:induction false} AnyRunJoins(s: State, ls: seq<Label>, t: State, more: seq<Label>, u: State)
    requires AnyRun(s, ls, t) && AnyRun(t, more, u)
    ensures AnyRun(s, ls + more, u)
    decreases ls
  {
    if ls == [] {
      assert ls + more == more;
    } else {
      hide Step;
      var v :| Step(s, ls[0], v) && AnyRun(v, ls[1..], t);
      AnyRunJoins(v, ls[1..], t, more, u);
      assert (ls + more)[1..] == ls[1..] + more;
    }
  }

  lemma OneStep(s: State, l: Label)
    requires Sized(s) && Enabled(s, l)
    ensures AnyRun(s, [l], Apply(s, l))
  {
    hide Sized, Enabled, Apply;
    assert AnyRun(Apply(s, l), [l][1..], Apply(s, l));
  }

  lemma {:induction false} RecoveryRuns(m: Media, i: nat) returns (ls: seq<Label>)
    requires PtrsInside(m) && i <= |m.slots|
    ensures AnyRun(Recovering(m, i), ls, Recovering(Recovered(m, i), |m.slots|))
    decreases |m.slots| - i, if i < |m.slots| then Work(m, i) else 0
  {
    if i == |m.slots| {
      ls := [];
    } else {
      var u := Apply(Recovering(m, i), Recover);
      OneStep(Recovering(m, i), Recover);
      var more := RecoveryRuns(u.media, u.at);
      ls := [Recover] + more;
      hide AnyRun;
      AnyRunJoins(Recovering(m, i), [Recover], u, more, Recovering(Recovered(m, i), |m.slots|));
    }
  }

  lemma FillingRuns(m: Media) returns (ls: seq<Label>)
    requires PtrsInside(m) && Filled(m.zone).Some?
    ensures var z := Filled(m.zone).value;
            WalkFrom(z, 0) == Done && AnyRun(Recovering(m, |m.slots|), ls, Recovering(m.(zone := z), |m.slots|))
    decreases WalkFrom(m.zone, 0).Missing?, WalkFrom(m.zone, 0).Missing? && m.zone[WalkFrom(m.zone, 0).at] != WholeZone(|m.zone|, false)
  {
    if WalkFrom(m.zone, 0).Missing? {
      var u := Apply(Recovering(m, |m.slots|), Stamp);
      StampAgain(m.zone, 0);
      FillInterrupted(m.zone);
      OneStep(Recovering(m, |m.slots|), Stamp);
      var more := FillingRuns(u.media);
      ls := [Stamp] + more;
      hide AnyRun;
      AnyRunJoins(Recovering(m, |m.slots|), [Stamp], u, more, Recovering(m.(zone := Filled(m.zone).value), |m.slots|));
    } else {
      ls := [];
    }
  }

  /** The steps of reopening get to what it is said to leave, if anything; otherwise they end nowhere. */
  lemma ReopeningRuns(m: Media, found: set<nat>) returns (ls: seq<Label>)
    requires PtrsInside(m)
    ensures Reopened(m).Some? && (forall c :: c in found ==> c in Landings(Reopened(m).value.zone, 0) && !Reopened(m).value.zone[c].used) ==>
              AnyRun(Recovering(m, 0), ls, Running(Reopened(m).value, found, seq(|m.slots|, _ => Idle)))
    ensures Reopened(m).None? ==>
              var s := Recovering(Recovered(m, 0), |m.slots|);
              AnyRun(Recovering(m, 0), ls, s) && forall l :: Enabled(s, l) ==> l == Crash
  {
    ls := RecoveryRuns(m, 0);
    var k := Recovered(m, 0);
    var s := Recovering(k, |m.slots|);
    if Reopened(m).Some? {
      var more := FillingRuns(k);
      var t := Recovering(Reopened(m).value, |m.slots|);
      hide AnyRun;
      AnyRunJoins(Recovering(m, 0), ls, s, more, t);
      ls := ls + more;
      if Enabled(t, Opened(found)) {
        OneStep(t, Opened(found));
        AnyRunJoins(Recovering(m, 0), ls, t, [Opened(found)], Apply(t, Opened(found)));
        ls := ls + [Opened(found)];
      }
    }
  }

  /** A crash at this durable state is repaired: reopening ends, with exactly the chunks pointed to marked used. */
  ghost predicate RecoversWell(m: Media) {
    PtrsInside(m) && Reopened(m).Some? && Settled(Reopened(m).value)
  }

  /** Reopening a durable state of a run ends settled, with exactly the survivors. */
  lemma ReopenSettles(m: Media)
    requires DurableOk(m) || NeverUsed(m)
    ensures RecoversWell(m) && Reopened(m).value.ptrs == Survivors(m)
  {
    if DurableOk(m) {
      PtrsInZone(m);
      RecoverySettles(m, 0);
      TiledIsDone(Recovered(m, 0).zone, 0);
    } else {
      SkipsCleared(m, 0, |m.slots|);
      NewZone(m.zone);
      AllFreeSurvive(m);
    }
  }

  // ----- Runs -----

  /** A run all of whose steps are clean. */
  ghost predicate Run(s: State, ls: seq<Label>, t: State)
    decreases ls
  {
    if ls == [] then s == t
    else exists u :: Step(s, ls[0], u) && Clean(s, ls[0]) && Run(u, ls[1..], t)
  }

  /** What the steps of a run commit, in order. */
  ghost function Replay(s: State, ls: seq<Label>, kept: map<nat, nat>): map<nat, nat>
    decreases ls
  {
    if ls == [] || !Sized(s) || !Enabled(s, ls[0]) then kept
    else Replay(Apply(s, ls[0]), ls[1..], Commit(s, ls[0], kept))
  }

  lemma InvDurable(s: State)
    requires Inv(s)
    ensures DurableOk(s.media) || NeverUsed(s.media)
  {
  }

  /** Crash a clean run wherever one likes: recovery finds exactly what the run has committed. */
  lemma {:induction false} RunRecovers(s: State, ls: seq<Label>, t: State)
    requires Inv(s) && Run(s, ls, t)
    ensures Inv(t) && RecoversWell(t.media)
    ensures Reopened(t.media).value.ptrs == Replay(s, ls, Survivors(s.media))
    decreases ls
  {
    hide InUse, NeverUsed, DurableOk, Settled, Survivors, Reopened, Sized;
    if ls == [] {
      InvDurable(t);
      ReopenSettles(t.media);
    } else {
      var u :| Step(s, ls[0], u) && Clean(s, ls[0]) && Run(u, ls[1..], t);
      StepKeepsInv(s, ls[0], u);
      RunRecovers(u, ls[1..], t);
    }
  }

  /** Whenever the heap is open with no operation in progress, its pointers are the survivors and own all used chunks. */
  lemma IdleIsSettled(s: State)
    requires Inv(s) && s.Running? && forall a :: 0 <= a < |s.lanes| ==> s.lanes[a].Idle?
    ensures Settled(s.media) && s.media.ptrs == Survivors(s.media)
    ensures forall c :: c in s.bucket ==> !Pointed_(s.media, c)
  {
    forall a | 0 <= a < |s.media.slots| ensures s.media.slots[a].Free_? {
      assert ArenaOk(s, a);
    }
    AllFreeSettled(s.media);
    AllFreeSurvive(s.media);
  }

  /** A new heap, never opened or with everything free again. */
  lemma FreshInv(z: Zone, arenas: nat)
    requires if |z| > 0 && !z[0].magic then true else Tiled(z, 0) && forall c :: c in Heads(z, 0) ==> !z[c].used
    ensures Inv(Recovering(Media(z, map[], seq(arenas, _ => Free_)), 0))
  {
  }

  // ----- A chunk taken while it is being freed -----

  /** Two pointers to one chunk, with no allocation pending that could take either back. */
  predicate Doubled(m: Media, p: nat, q: nat) {
    && p != q && p in m.ptrs && q in m.ptrs && m.ptrs[p] == m.ptrs[q]
    && forall i :: 0 <= i < |m.slots| ==> m.slots[i] != AllocSlot(p) && m.slots[i] != AllocSlot(q)
  }

  lemma {:induction false} DoubledStays(m: Media, i: nat, p: nat, q: nat)
    requires PtrsInside(m) && i <= |m.slots| && Doubled(m, p, q)
    ensures Doubled(Recovered(m, i), p, q)
    decreases |m.slots| - i, if i < |m.slots| then Work(m, i) else 0
  {
    if i < |m.slots| {
      if m.slots[i].Free_? {
        DoubledStays(m, i + 1, p, q);
      } else {
        DoubledStays(RecoverStep(m, i), i, p, q);
      }
    }
  }

  /** Arena b has unmarked chunk c but not nulled pointer p, and arena a is on its way to put c behind q too. */
  ghost predicate Stealing(s: State, a: nat, b: nat) {
    && s.Running? && Sized(s) && a < |s.lanes| && b < |s.lanes| && s.lanes[b].Unmarked?
    && var pc, p, c := s.lanes[a], s.lanes[b].ptr, s.lanes[b].chunk;
    && (Holding(pc) || pc.Pointed? || pc.Finishing?) && pc.ptr != p && (!pc.Finishing? ==> pc.chunk == c)
    && p in s.media.ptrs && s.media.ptrs[p] == c
    && (pc.Got? ==> 1 <= pc.units <= s.media.zone[c].size)
    && (pc.Pointed? || pc.Finishing? ==> pc.ptr in s.media.ptrs && s.media.ptrs[pc.ptr] == c)
    && (forall i :: 0 <= i < |s.media.slots| ==> s.media.slots[i] != AllocSlot(p))
    && (forall i :: 0 <= i < |s.media.slots| && i != a ==> s.media.slots[i] != AllocSlot(pc.ptr))
    && (pc.Got? ==> pc.chunk + s.media.zone[c].size <= |s.media.zone|)
  }

  /** What the arena does next to finish. */
  function NextStep(s: State, a: nat): Action
    requires s.Running? && a < |s.lanes| && Sized(s)
  {
    match s.lanes[a]
    case Got(_, units, c) =>
      assert PcSized(s, a);
      if s.media.zone[c].size == units then FitExactly else WriteRest
    case Split1(_, _, _) => WriteMagic
    case Split2(_, _, _) => ShrinkChunk(true)
    case Fitted(_, _) => SetPtr
    case Pointed(_, _) => MarkUsed
    case _ => ClearSlot
  }

  /** How many steps that may still take. */
  function StepsLeft(pc: Pc): nat {
    match pc
    case Got(_, _, _) => 6
    case Split1(_, _, _) => 5
    case Split2(_, _, _) => 4
    case Fitted(_, _) => 3
    case Pointed(_, _) => 2
    case _ => 1
  }

  lemma StealEnabled(s: State, a: nat, b: nat)
    requires Stealing(s, a, b)
    ensures Enabled(s, At(a, NextStep(s, a))) && Clean(s, At(a, NextStep(s, a)))
  {
    assert PcSized(s, a);
  }

  lemma StealStep(s: State, a: nat, b: nat, t: State)
    requires Stealing(s, a, b) && !s.lanes[a].Finishing? && Step(s, At(a, NextStep(s, a)), t)
    ensures Stealing(t, a, b) && StepsLeft(t.lanes[a]) < StepsLeft(s.lanes[a])
    ensures t.lanes[a].ptr == s.lanes[a].ptr && t.lanes[b] == s.lanes[b]
  {
    StepKeepsSized(s, At(a, NextStep(s, a)), t);
    assert PcSized(s, a);
  }

  /** Left alone, the arena finishes, and a crash then finds two pointers to one chunk. */
  lemma {:induction false} StealRun(s: State, a: nat, b: nat) returns (ls: seq<Label>, t: State)
    requires Stealing(s, a, b)
    ensures Run(s, ls, t) && t.Running? && PtrsInside(t.media) && Doubled(t.media, s.lanes[b].ptr, s.lanes[a].ptr)
    decreases StepsLeft(s.lanes[a])
  {
    StealEnabled(s, a, b);
    var l := At(a, NextStep(s, a));
    var u := Apply(s, l);
    if s.lanes[a].Finishing? {
      ls, t := [l], u;
      assert Run(u, ls[1..], t);
    } else {
      StealStep(s, a, b, u);
      var more;
      more, t := StealRun(u, a, b);
      ls := [l] + more;
      assert ls[1..] == more;
    }
    hide Stealing, Sized, Enabled, Apply;
    assert Step(s, l, u);
  }

  lemma StealStarts(s: State, a: nat, b: nat)
    requires Inv(s) && s.Running? && a < |s.lanes| && b < |s.lanes| && s.lanes[b].Unmarked? && s.lanes[a].Picking?
    requires s.lanes[b].chunk in s.bucket
    requires 1 <= s.lanes[a].units && s.lanes[b].chunk < |s.media.zone|
    requires s.lanes[a].units <= s.media.zone[s.lanes[b].chunk].size
    requires Enabled(s, At(a, Pick(s.lanes[b].chunk)))
    ensures Stealing(Apply(s, At(a, Pick(s.lanes[b].chunk))), a, b)
  {
    hide Tiled, Heads, PtrsOk;
    var t, p, q := Apply(s, At(a, Pick(s.lanes[b].chunk))), s.lanes[b].ptr, s.lanes[a].ptr;
    assert ArenaOk(s, a) && ArenaOk(s, b) && Guards(s.media, a, q) && Guards(s.media, b, p);
    forall i | 0 <= i < |s.media.slots| ensures s.media.slots[i] != AllocSlot(p) && (i != a ==> s.media.slots[i] != AllocSlot(q)) {
      assert Guards(s.media, i, p) ==> i == b;
      assert Guards(s.media, i, q) ==> i == a;
    }
    ChunkFits(s.media.zone, 0, s.lanes[b].chunk);
    StepKeepsSized(s, At(a, Pick(s.lanes[b].chunk)), t);
  }

  /**
   Freeing puts the chunk in the container before its pointer is nulled. If another arena's allocation
   takes it in between and it is large enough, the allocation can complete, splitting the chunk if need be;
   a crash then leaves two pointers to one chunk, and recovery lets both stand.
   */
  lemma UncleanPickBreaks(s: State, a: nat, c: nat) returns (ls: seq<Label>, t: State)
    requires Inv(s) && Enabled(s, At(a, Pick(c))) && !Clean(s, At(a, Pick(c)))
    ensures Run(Apply(s, At(a, Pick(c))), ls, t) && !RecoversWell(t.media)
    ensures exists p :: p in t.media.ptrs && p != s.lanes[a].ptr && Doubled(t.media, p, s.lanes[a].ptr)
  {
    var b :| 0 <= b < |s.lanes| && s.lanes[b].Unmarked? && s.lanes[b].chunk == c;
    StealStarts(s, a, b);
    ls, t := StealRun(Apply(s, At(a, Pick(c))), a, b);
    DoubledStays(t.media, 0, s.lanes[b].ptr, s.lanes[a].ptr);
    hide Inv, Tiled, Heads, Stealing, Sized;
  }

  // ----- A free the container refuses -----

  /** A pointer to an unused chunk, with no operation pending that would take it back or mark the chunk. */
  predicate Lost(m: Media, p: nat) {
    && PtrsInside(m) && Tiled(m.zone, 0) && p in m.ptrs && !m.zone[m.ptrs[p]].used
    && (forall i :: 0 <= i < |m.slots| ==> !Guards(m, i, p))
    && forall q :: q in m.ptrs && q != p ==> m.ptrs[q] != m.ptrs[p]
  }

  lemma {:induction false} LostStays(m: Media, i: nat, p: nat)
    requires PtrsInside(m) && i <= |m.slots| && Lost(m, p)
    ensures Lost(Recovered(m, i), p)
    decreases |m.slots| - i, if i < |m.slots| then Work(m, i) else 0
  {
    if i < |m.slots| {
      if m.slots[i].Free_? {
        LostStays(m, i + 1, p);
      } else {
        LostStep(m, i, p);
        LostStays(RecoverStep(m, i), i, p);
      }
    }
  }

  lemma LostStep(m: Media, i: nat, p: nat)
    requires i < |m.slots| && Lost(m, p) && !m.slots[i].Free_?
    ensures Lost(RecoverStep(m, i), p)
  {
    assert !Guards(m, i, p);
    var r := RecoverStep(m, i);
    forall j | 0 <= j < |r.slots| ensures !Guards(r, j, p) {
      assert !Guards(m, j, p);
    }
    StepTiled(m, i);
  }

  /** Recovery only flips used flags, which do not matter to the walk. */
  lemma StepTiled(m: Media, i: nat)
    requires PtrsInside(m) && i < |m.slots| && Tiled(m.zone, 0)
    ensures Tiled(RecoverStep(m, i).zone, 0) && Heads(RecoverStep(m, i).zone, 0) == Heads(m.zone, 0)
  {
    if !m.slots[i].Free_? && m.slots[i].ptr in m.ptrs {
      FlagOnly(m.zone, 0, m.ptrs[m.slots[i].ptr], m.slots[i].FreeSlot?);
    }
  }

  lemma LostIsUnsettled(m: Media, p: nat)
    requires Lost(m, p)
    ensures !RecoversWell(m)
  {
    LostStays(m, 0, p);
    var r := Recovered(m, 0);
    TiledIsDone(r.zone, 0);
    if Settled(r) {
      assert Pointed_(r, r.ptrs[p]);
    }
  }

  /** A free up to its end: the container takes the chunk in, or has no memory to. */
  function FreeLabels(a: nat, added: bool): seq<Label> {
    if added then [At(a, ClearUsed(true)), At(a, NullPtr), At(a, ClearSlot)]
    else [At(a, ClearUsed(false)), At(a, ClearSlot)]
  }

  lemma RefusedIsLost(s: State, a: nat) returns (t: State)
    requires Inv(s) && Enabled(s, At(a, ClearUsed(false)))
    ensures Sized(Apply(s, At(a, ClearUsed(false))))
    ensures Step(Apply(s, At(a, ClearUsed(false))), At(a, ClearSlot), t) && Lost(t.media, s.lanes[a].ptr)
  {
    StepKeepsSized(s, At(a, ClearUsed(false)), Apply(s, At(a, ClearUsed(false))));
    FlagOnly(s.media.zone, 0, s.lanes[a].chunk, false);
    var u, p := Apply(s, At(a, ClearUsed(false))), s.lanes[a].ptr;
    t := Apply(u, At(a, ClearSlot));
    assert ArenaOk(s, a) && PcWhole(s, a) && Guards(s.media, a, p);
    forall i | 0 <= i < |t.media.slots| ensures !Guards(t.media, i, p) {
      assert i != a ==> !Guards(s.media, i, p);
    }
    hide Tiled, Heads;
  }

  /** The container takes the chunk in: the free goes on and completes. */
  lemma FreeCompletes(s: State, a: nat) returns (t: State)
    requires Inv(s) && Enabled(s, At(a, ClearUsed(true)))
    ensures AnyRun(s, FreeLabels(a, true), t) && Inv(t)
  {
    hide Tiled, Heads, DurableOk, RunningOk;
    var ls := FreeLabels(a, true);
    var u := Apply(s, ls[0]);
    StepKeepsInv(s, ls[0], u);
    var v := Apply(u, ls[1]);
    StepKeepsInv(u, ls[1], v);
    t := Apply(v, ls[2]);
    StepKeepsInv(v, ls[2], t);
    assert AnyRun(v, [ls[2]], t) by { assert AnyRun(t, [ls[2]][1..], t); }
    assert AnyRun(u, [ls[1], ls[2]], t) by { assert [ls[1], ls[2]][1..] == [ls[2]]; }
    assert ls[1..] == [ls[1], ls[2]];
  }

  /** The container refuses it: the pointer is lost. */
  lemma FreeRefused(s: State, a: nat) returns (t: State)
    requires Inv(s) && Enabled(s, At(a, ClearUsed(false)))
    ensures AnyRun(s, FreeLabels(a, false), t) && Lost(t.media, s.lanes[a].ptr)
    ensures t.Running? && |t.lanes| == |s.lanes| && t.lanes == s.lanes[a := Idle]
    ensures a < |s.media.slots| && t.media.slots == s.media.slots[a := Free_]
  {
    t := RefusedIsLost(s, a);
    var ls := FreeLabels(a, false);
    assert AnyRun(Apply(s, ls[0]), ls[1..], t) by { assert AnyRun(t, ls[1..][1..], t); }
    hide Inv, Tiled, Heads;
  }

  /**
   Freeing clears the used flag before it asks the container to take the chunk in, and gives up without
   nulling the pointer when the container cannot. So a free leaves a state recovery settles exactly when
   the container took the chunk in.
   */
  lemma FreeSettlesIff(s: State, a: nat, added: bool) returns (t: State)
    requires Inv(s) && Enabled(s, At(a, ClearUsed(added)))
    ensures AnyRun(s, FreeLabels(a, added), t)
    ensures RecoversWell(t.media) <==> added
  {
    if added {
      t := FreeCompletes(s, a);
      InvDurable(t);
      ReopenSettles(t.media);
    } else {
      t := FreeRefused(s, a);
      LostIsUnsettled(t.media, s.lanes[a].ptr);
    }
    hide *;
  }

  /** With nothing else going on, recovery does not change the state a refused free leaves, and reopening offers the chunk again. */
  lemma RefusedFreeStays(s: State, a: nat) returns (t: State)
    requires Inv(s) && Enabled(s, At(a, ClearUsed(false)))
    requires forall b :: 0 <= b < |s.lanes| && b != a ==> s.lanes[b].Idle?
    ensures AnyRun(s, FreeLabels(a, false), t) && t.Running? && forall b :: 0 <= b < |t.lanes| ==> t.lanes[b].Idle?
    ensures PtrsInside(t.media) && Reopened(t.media) == Some(t.media) && !Settled(t.media)
    ensures var p := s.lanes[a].ptr;
            p in t.media.ptrs && !t.media.zone[t.media.ptrs[p]].used
  {
    t := FreeRefused(s, a);
    forall i | 0 <= i < |t.media.slots| ensures t.media.slots[i].Free_? {
      assert ArenaOk(s, i);
    }
    SkipsCleared(t.media, 0, |t.media.slots|);
    TiledIsDone(t.media.zone, 0);
    LostIsUnsettled(t.media, s.lanes[a].ptr);
  }

  // ----- A split after no units -----

  /** The header of chunk c replaced, except for the used flag. */
  function Rehead(z: Zone, c: nat, h: Header): (r: Zone)
    requires c < |z|
    ensures |r| == |z|
  {
    z[c := h.(used := z[c].used)]
  }

  function Reheaded(m: Media, c: nat, h: Header): Media
    requires c < |m.zone|
  {
    m.(zone := Rehead(m.zone, c, h))
  }

  /** Recovery looks at and changes used flags only, so it goes the same way. */
  lemma {:induction false} RecoveredReheaded(m: Media, i: nat, c: nat, h: Header)
    requires PtrsInside(m) && i <= |m.slots| && c < |m.zone|
    ensures Recovered(Reheaded(m, c, h), i) == Reheaded(Recovered(m, i), c, h)
    decreases |m.slots| - i, if i < |m.slots| then Work(m, i) else 0
  {
    if i < |m.slots| {
      var r := Reheaded(m, c, h);
      if m.slots[i].Free_? {
        RecoveredReheaded(m, i + 1, c, h);
      } else {
        StepReheaded(m, i, c, h);
        RecoveredReheaded(RecoverStep(m, i), i, c, h);
      }
    }
  }

  lemma StepReheaded(m: Media, i: nat, c: nat, h: Header)
    requires PtrsInside(m) && i < |m.slots| && c < |m.zone|
    ensures RecoverStep(Reheaded(m, c, h), i) == Reheaded(RecoverStep(m, i), c, h)
  {
    if !m.slots[i].Free_? && m.slots[i].ptr in m.ptrs {
      var d, used := m.ptrs[m.slots[i].ptr], m.slots[i].FreeSlot?;
      var z := m.zone;
      assert Rehead(z, c, h)[d := Rehead(z, c, h)[d].(used := used)] == Rehead(z[d := z[d].(used := used)], c, h);
    }
  }

  lemma {:induction false} RecoveredTiled(m: Media, i: nat)
    requires PtrsInside(m) && i <= |m.slots| && Tiled(m.zone, 0)
    ensures Tiled(Recovered(m, i).zone, 0) && Heads(Recovered(m, i).zone, 0) == Heads(m.zone, 0)
    decreases |m.slots| - i, if i < |m.slots| then Work(m, i) else 0
  {
    if i < |m.slots| {
      if m.slots[i].Free_? {
        RecoveredTiled(m, i + 1);
      } else {
        StepTiled(m, i);
        RecoveredTiled(RecoverStep(m, i), i);
      }
    }
  }

  /** The header a split after no units leaves after its first, second and third persist. */
  function NoUnitsHeader(size: nat, n: nat): Header {
    if n == 1 then Header(false, Base, false, size)
    else if n == 2 then Header(true, Base, false, size)
    else Header(true, Base, false, 0)
  }

  /** Such a split, persist by persist: it writes over the header of the chunk it splits. */
  lemma NoUnitsSteps(s: State, a: nat, added: bool) returns (t1: State, t2: State, t3: State)
    requires Inv(s) && Enabled(s, At(a, WriteRest)) && s.lanes[a].units == 0
    ensures var c := s.lanes[a].chunk;
            && c in Heads(s.media.zone, 0) && !s.media.zone[c].used
            && Step(s, At(a, WriteRest), t1) && t1.media == Reheaded(s.media, c, NoUnitsHeader(s.media.zone[c].size, 1))
            && Step(t1, At(a, WriteMagic), t2) && t2.media == Reheaded(s.media, c, NoUnitsHeader(s.media.zone[c].size, 2))
            && Step(t2, At(a, ShrinkChunk(added)), t3)
            && t3.media == Reheaded(s.media, c, NoUnitsHeader(s.media.zone[c].size, 3))
  {
    assert PcWhole(s, a) && ArenaOk(s, a);
    hide Tiled, Heads, DurableOk, RunningOk;
    t1 := Apply(s, At(a, WriteRest));
    StepKeepsSized(s, At(a, WriteRest), t1);
    t2 := Apply(t1, At(a, WriteMagic));
    StepKeepsSized(t1, At(a, WriteMagic), t2);
    t3 := Apply(t2, At(a, ShrinkChunk(added)));
  }

  /** What recovery makes of a durable state with that header. */
  lemma NoUnitsRecovered(m: Media, c: nat, h: Header)
    requires DurableOk(m) && c in Heads(m.zone, 0)
    ensures PtrsInside(m) && PtrsInside(Reheaded(m, c, h))
    ensures var r := Recovered(m, 0);
            && Tiled(r.zone, 0) && Heads(r.zone, 0) == Heads(m.zone, 0) && Settled(r) && r.ptrs == Survivors(m) && c in Heads(r.zone, 0) && r.zone[c].size == m.zone[c].size
            && Recovered(Reheaded(m, c, h), 0) == Reheaded(r, c, h)
  {
    PtrsInZone(m);
    RecoverySettles(m, 0);
    RecoveredTiled(m, 0);
    RecoveredSizes(m, 0, c);
    RecoveredReheaded(m, 0, c, h);
  }

  lemma {:induction false} RecoveredSizes(m: Media, i: nat, c: nat)
    requires PtrsInside(m) && i <= |m.slots| && c < |m.zone|
    ensures Recovered(m, i).zone[c].size == m.zone[c].size && Recovered(m, i).zone[c].magic == m.zone[c].magic
    decreases |m.slots| - i, if i < |m.slots| then Work(m, i) else 0
  {
    if i < |m.slots| {
      if m.slots[i].Free_? {
        RecoveredSizes(m, i + 1, c);
      } else {
        RecoveredSizes(RecoverStep(m, i), i, c);
      }
    }
  }

  /**
   After the first persist the header lacks its magic number, and reopening writes a chunk as large as the
   zone there. That does no harm exactly when the chunk starts the zone and nothing in the zone stays in use.
   */
  lemma NoUnitsFirst(m: Media, c: nat)
    requires DurableOk(m) && c in Heads(m.zone, 0)
    ensures PtrsInside(m) && PtrsInside(Reheaded(m, c, NoUnitsHeader(m.zone[c].size, 1)))
    ensures Survivors(m) == map[] <==> forall d :: d in Heads(m.zone, 0) ==> !Recovered(m, 0).zone[d].used
    ensures var r := Reopened(Reheaded(m, c, NoUnitsHeader(m.zone[c].size, 1)));
            && r.Some? && r.value.zone[c] == WholeZone(|m.zone|, true) && r.value.ptrs == Survivors(m)
            && (Settled(r.value) <==> c == 0 && Survivors(m) == map[])
  {
    hide Settled, Survivors, Reheaded, Rehead, Recovered, DurableOk, Tiled, Heads;
    var h := NoUnitsHeader(m.zone[c].size, 1);
    NoUnitsRecovered(m, c, h);
    var r := Recovered(m, 0);
    InUseIff(r);
    FilledOver(r, c, h);
    WholeZoneSettledIff(r, c);
  }

  /** Filling writes the whole zone's header over one without the magic number. */
  lemma FilledOver(r: Media, c: nat, h: Header)
    requires Tiled(r.zone, 0) && c in Heads(r.zone, 0) && !h.magic
    ensures var z := Reheaded(r, c, h).zone; Filled(z) == Some(r.zone[c := WholeZone(|r.zone|, true)])
    ensures Reheaded(r, c, h).(zone := r.zone[c := WholeZone(|r.zone|, true)]) == r.(zone := r.zone[c := WholeZone(|r.zone|, true)])
  {
    var z := Rehead(r.zone, c, h);
    WalkStops(r.zone, z, 0, c);
    assert z[c := WholeZone(|z|, true)] == r.zone[c := WholeZone(|z|, true)];
  }

  lemma WholeZoneSettledIff(r: Media, c: nat)
    requires Settled(r) && c in Heads(r.zone, 0)
    ensures Settled(r.(zone := r.zone[c := WholeZone(|r.zone|, true)])) <==> c == 0 && r.ptrs == map[]
  {
    var z := r.zone[c := WholeZone(|r.zone|, true)];
    if c == 0 {
      NewZone(z[0 := WholeZone(|z|, false)]);
      assert z[0 := WholeZone(|z|, false)][0 := WholeZone(|z|, true)] == z;
      OneChunkSettledIff(r.(zone := z));
    } else {
      OverlongSpoils(r.zone, c);
    }
  }

  lemma InUseIff(m: Media)
    requires Settled(m)
    ensures m.ptrs == map[] <==> forall d :: d in Heads(m.zone, 0) ==> !m.zone[d].used
  {
    if m.ptrs != map[] {
      var p :| p in m.ptrs;
      assert Pointed_(m, m.ptrs[p]);
    }
  }

  lemma OneChunkSettledIff(m: Media)
    requires Tiled(m.zone, 0) && Heads(m.zone, 0) == {0} && !m.zone[0].used
    requires forall i :: 0 <= i < |m.slots| ==> m.slots[i].Free_?
    ensures Settled(m) <==> m.ptrs == map[]
  {
    if m.ptrs != map[] {
      var p :| p in m.ptrs;
      assert Pointed_(m, m.ptrs[p]);
    }
  }

  /** After the second persist the chunk has its size back, and all is well. */
  lemma NoUnitsSecond(m: Media, c: nat)
    requires DurableOk(m) && c in Heads(m.zone, 0)
    ensures RecoversWell(Reheaded(m, c, NoUnitsHeader(m.zone[c].size, 2)))
  {
    var h := NoUnitsHeader(m.zone[c].size, 2);
    NoUnitsRecovered(m, c, h);
    var r := Recovered(m, 0);
    var z := Rehead(r.zone, c, h);
    assert z == r.zone[c := r.zone[c].(kind := Base)];
    KindOnly(r.zone, 0, c);
    TiledIsDone(z, 0);
    KindSettled(r, r.(zone := z));
  }

  lemma KindSettled(m: Media, r: Media)
    requires Settled(m) && r.ptrs == m.ptrs && r.slots == m.slots && |r.zone| == |m.zone|
    requires Tiled(r.zone, 0) && Heads(r.zone, 0) == Heads(m.zone, 0)
    requires forall c :: 0 <= c < |m.zone| ==> r.zone[c].used == m.zone[c].used
    ensures Settled(r)
  {
    PointedSame(m, r);
  }

  /** After the third the chunk has no size: the consistency check rejects the zone, and reopening never ends. */
  lemma NoUnitsThird(m: Media, c: nat)
    requires DurableOk(m) && c in Heads(m.zone, 0)
    ensures var r := Reheaded(m, c, NoUnitsHeader(m.zone[c].size, 3));
            PtrsInside(r) && Reopened(r).None? && !ZoneOk(r.zone)
  {
    var h := NoUnitsHeader(m.zone[c].size, 3);
    NoUnitsRecovered(m, c, h);
    var r := Recovered(m, 0);
    WalkStops(r.zone, Rehead(r.zone, c, h), 0, c);
    var z := Rehead(m.zone, c, h);
    if Tiled(z, 0) {
      TiledReaches(m.zone, z, 0, c);
    }
  }

  /** Such a split breaks the zone with its third persist. */
  lemma NoUnitsBreaks(s: State, a: nat, added: bool) returns (ls: seq<Label>, t: State)
    requires Inv(s) && Enabled(s, At(a, WriteRest)) && s.lanes[a].units == 0
    ensures ls == [At(a, WriteMagic), At(a, ShrinkChunk(added))] && Run(Apply(s, At(a, WriteRest)), ls, t)
    ensures PtrsInside(t.media) && Reopened(t.media).None? && !ZoneOk(t.media.zone)
  {
    var t1, t2, t3 := NoUnitsSteps(s, a, added);
    NoUnitsThird(s.media, s.lanes[a].chunk);
    ls, t := [At(a, WriteMagic), At(a, ShrinkChunk(added))], t3;
    hide Inv, Tiled, Heads, Sized, Enabled, Apply;
    assert Run(t2, [At(a, ShrinkChunk(added))], t3) by { assert Run(t3, [At(a, ShrinkChunk(added))][1..], t3); }
    assert ls[1..] == [At(a, ShrinkChunk(added))];
  }

  /** Cut short after its first persist it breaks the zone exactly if the chunk is not the first or something stays in use. */
  lemma NoUnitsCutShort(s: State, a: nat)
    requires Inv(s) && Enabled(s, At(a, WriteRest)) && s.lanes[a].units == 0
    ensures RecoversWell(Apply(s, At(a, WriteRest)).media) <==> s.lanes[a].chunk == 0 && Survivors(s.media) == map[]
    ensures var m := Apply(s, At(a, WriteRest)).media;
            && PtrsInside(m) && Reopened(m).Some? && s.lanes[a].chunk < |m.zone|
            && Reopened(m).value.zone[s.lanes[a].chunk] == WholeZone(|m.zone|, true)
            && Reopened(m).value.ptrs == Survivors(s.media)
  {
    var t1, t2, t3 := NoUnitsSteps(s, a, true);
    InvDurable(s);
    NoUnitsFirst(s.media, s.lanes[a].chunk);
    hide Inv, Tiled, Heads, Reopened, Settled, DurableOk, Survivors, Enabled, Apply;
  }

  // ----- Exactly which steps are safe -----

  /**
   From a state of a clean run, a step is clean exactly when no clean run after it can be cut short at a
   durable state that recovery does not settle.
   */
  lemma StepSafeIff(s: State, l: Label)
    requires Inv(s) && Enabled(s, l)
    ensures Clean(s, l) <==> forall ls, t :: Run(Apply(s, l), ls, t) ==> RecoversWell(t.media)
  {
    var u := Apply(s, l);
    if Clean(s, l) {
      StepKeepsInv(s, l, u);
      forall ls, t | Run(u, ls, t) ensures RecoversWell(t.media) {
        RunRecovers(u, ls, t);
      }
    } else {
      var ls, t := UncleanBreaks(s, l);
    }
    hide *;
  }

  lemma UncleanBreaks(s: State, l: Label) returns (ls: seq<Label>, t: State)
    requires Inv(s) && Enabled(s, l) && !Clean(s, l)
    ensures Run(Apply(s, l), ls, t) && !RecoversWell(t.media)
  {
    var a := l.arena;
    if l.act.Pick? {
      ls, t := UncleanPickBreaks(s, a, l.act.chunk);
    } else if l.act.ClearUsed? {
      t := RefusedIsLost(s, a);
      ls := [At(a, ClearSlot)];
      LostIsUnsettled(t.media, s.lanes[a].ptr);
      assert Run(t, ls[1..], t);
    } else {
      ls, t := NoUnitsBreaks(s, a, true);
    }
    hide Inv, Tiled, Heads, Sized, Enabled, Apply;
  }

  // ----- Such steps are reached -----

  lemma {:induction false} RunExtends(s: State, ls: seq<Label>, t: State, l: Label)
    requires Run(s, ls, t) && Sized(t) && Enabled(t, l) && Clean(t, l)
    ensures Run(s, ls + [l], Apply(t, l))
    decreases ls
  {
    hide Sized, Enabled, Apply, Clean;
    if ls == [] {
      assert Run(Apply(t, l), (ls + [l])[1..], Apply(t, l));
    } else {
      var u :| Step(s, ls[0], u) && Clean(s, ls[0]) && Run(u, ls[1..], t);
      RunExtends(u, ls[1..], t, l);
      assert (ls + [l])[1..] == ls[1..] + [l];
    }
  }

  lemma OneMore(s: State, ls: seq<Label>, t: State, l: Label) returns (more: seq<Label>, u: State)
    requires Run(s, ls, t) && Inv(t) && Enabled(t, l) && Clean(t, l)
    ensures Run(s, more, u) && Inv(u) && Sized(u) && u == Apply(t, l)
  {
    more, u := ls + [l], Apply(t, l);
    StepKeepsInv(t, l, u);
    RunExtends(s, ls, t, l);
  }

  /** A heap never opened, with room for one chunk, and two arenas. */
  function SmallHeap(): State {
    Recovering(Media([Header(false, Unknown, false, 0)], map[], [Free_, Free_]), 0)
  }

  lemma SmallHeapInv()
    ensures Inv(SmallHeap()) && Run(SmallHeap(), [], SmallHeap())
    ensures forall h: Header :: !h.magic ==> WalkFrom([h], 0) == Missing(0)
    ensures forall used :: var z := [Header(true, Base, used, 1)];
                           Tiled(z, 0) && Heads(z, 0) == {0} && WalkFrom(z, 0) == Done && Landings(z, 0) == {0}
  {
    forall used ensures var z := [Header(true, Base, used, 1)];
                        Tiled(z, 0) && Heads(z, 0) == {0} && WalkFrom(z, 0) == Done && Landings(z, 0) == {0}
    {
      assert Tiled([Header(true, Base, used, 1)], 1);
      TiledIsDone([Header(true, Base, used, 1)], 0);
    }
    FreshInv(SmallHeap().media.zone, 2);
    assert SmallHeap().media.slots == seq(2, _ => Free_);
  }

  lemma SmallHeapOpens() returns (ls: seq<Label>, t: State)
    ensures Run(SmallHeap(), ls, t) && Inv(t) && Sized(t)
    ensures t == Running(Media([Header(true, Base, false, 1)], map[], [Free_, Free_]), {0}, [Idle, Idle])
  {
    hide Run, Inv, Tiled, Heads, WalkFrom, Landings;
    SmallHeapInv();
    var s := SmallHeap();
    ls, t := OneMore(s, [], s, Recover);
    ls, t := OneMore(s, ls, t, Recover);
    ls, t := OneMore(s, ls, t, Stamp);
    assert t.media.zone == [Header(false, Base, false, 1)];
    ls, t := OneMore(s, ls, t, Stamp);
    assert t.media.zone == [Header(true, Base, false, 1)];
    ls, t := OneMore(s, ls, t, Opened({0}));
    assert t.lanes == [Idle, Idle];
  }

  lemma SmallHeapFits() returns (ls: seq<Label>, t: State)
    ensures Run(SmallHeap(), ls, t) && Inv(t) && Sized(t)
    ensures t == Running(Media([Header(true, Base, false, 1)], map[], [AllocSlot(0), Free_]), {}, [Fitted(0, 0), Idle])
  {
    hide Run, Inv, Tiled, Heads;
    SmallHeapInv();
    ls, t := SmallHeapOpens();
    ls, t := OneMore(SmallHeap(), ls, t, At(0, StartMalloc(0, 1)));
    ls, t := OneMore(SmallHeap(), ls, t, At(0, Pick(0)));
    ls, t := OneMore(SmallHeap(), ls, t, At(0, FitExactly));
  }

  lemma SmallHeapAllocates() returns (ls: seq<Label>, t: State)
    ensures Run(SmallHeap(), ls, t) && Inv(t) && Sized(t)
    ensures t == Running(Media([Header(true, Base, true, 1)], map[0 := 0], [Free_, Free_]), {}, [Idle, Idle])
  {
    hide Run, Inv, Tiled, Heads;
    SmallHeapInv();
    ls, t := SmallHeapFits();
    ls, t := OneMore(SmallHeap(), ls, t, At(0, SetPtr));
    ls, t := OneMore(SmallHeap(), ls, t, At(0, MarkUsed));
    ls, t := OneMore(SmallHeap(), ls, t, At(0, ClearSlot));
  }

  /** A clean run of a small heap reaches a free and an allocation about to meet at its one chunk. */
  lemma UncleanPickIsReached() returns (ls: seq<Label>, t: State)
    ensures Inv(SmallHeap()) && Run(SmallHeap(), ls, t)
    ensures Sized(t) && Enabled(t, At(1, Pick(0))) && !Clean(t, At(1, Pick(0)))
  {
    hide Run, Inv, Tiled, Heads;
    SmallHeapInv();
    ls, t := SmallHeapAllocates();
    ls, t := OneMore(SmallHeap(), ls, t, At(0, StartFree(0)));
    ls, t := OneMore(SmallHeap(), ls, t, At(1, StartMalloc(1, 1)));
    ls, t := OneMore(SmallHeap(), ls, t, At(0, ClearUsed(true)));
    assert t.lanes[0].Unmarked?;
    assert BeingFreed(t, 0);
  }

  /** One reaches a free the container may refuse. */
  lemma RefusedFreeIsReached() returns (ls: seq<Label>, t: State)
    ensures Inv(SmallHeap()) && Run(SmallHeap(), ls, t)
    ensures Sized(t) && Enabled(t, At(0, ClearUsed(false))) && !Clean(t, At(0, ClearUsed(false)))
  {
    hide Run, Inv, Tiled, Heads;
    SmallHeapInv();
    ls, t := SmallHeapAllocates();
    ls, t := OneMore(SmallHeap(), ls, t, At(0, StartFree(0)));
  }

  /**
   A request of at most one chunk's size asks for no units, and one reaches a split after none. Here nothing
   else is in use, so only the third persist does harm.
   */
  lemma NoUnitsIsReached(bytes: nat) returns (ls: seq<Label>, t: State, more: seq<Label>, u: State)
    requires 1 <= bytes <= CHUNK_SIZE
    ensures Inv(SmallHeap()) && Run(SmallHeap(), ls, t) && t.Running? && t.lanes == [Got(0, CalcUnits(bytes), 0), Idle]
    ensures Sized(t) && Enabled(t, At(0, WriteRest)) && !Clean(t, At(0, WriteRest))
    ensures RecoversWell(Apply(t, At(0, WriteRest)).media) && Run(Apply(t, At(0, WriteRest)), more, u)
    ensures PtrsInside(u.media) && Reopened(u.media).None? && !ZoneOk(u.media.zone)
  {
    hide Run, Inv, Tiled, Heads, Survivors, ZoneOk, Reopened, RecoversWell, WalkFrom;
    SmallHeapInv();
    ls, t := SmallHeapOpens();
    ls, t := OneMore(SmallHeap(), ls, t, At(0, StartMalloc(0, CalcUnits(bytes))));
    ls, t := OneMore(SmallHeap(), ls, t, At(0, Pick(0)));
    NothingSurvives(t.media);
    NoUnitsCutShort(t, 0);
    more, u := NoUnitsBreaks(t, 0, true);
  }

  lemma NothingSurvives(m: Media)
    ensures m.ptrs == map[] ==> Survivors(m) == map[]
  {
  }

  /** A heap of two free chunks and one arena. */
  function PairHeap(): State {
    Recovering(Media([Header(true, Base, false, 1), Header(true, Base, false, 1)], map[], [Free_]), 0)
  }

  lemma PairHeapInv()
    ensures Inv(PairHeap()) && Run(PairHeap(), [], PairHeap())
    ensures var z := [Header(true, Base, false, 1), Header(true, Base, false, 1)];
            Tiled(z, 0) && Heads(z, 0) == {0, 1} && WalkFrom(z, 0) == Done && Landings(z, 0) == {0, 1}
  {
    var z := [Header(true, Base, false, 1), Header(true, Base, false, 1)];
    assert Tiled(z, 2) && Heads(z, 2) == {};
    assert Tiled(z, 1) && Heads(z, 1) == {1};
    TiledIsDone(z, 0);
    FreshInv(z, 1);
    assert PairHeap().media.slots == seq(1, _ => Free_);
  }

  lemma PairHeapFits() returns (ls: seq<Label>, t: State)
    ensures Run(PairHeap(), ls, t) && Inv(t) && Sized(t)
    ensures t == Running(PairHeap().media.(slots := [AllocSlot(0)]), {0}, [Fitted(0, 1)])
  {
    hide Run, Inv, Tiled, Heads, WalkFrom, Landings;
    PairHeapInv();
    ls, t := OneMore(PairHeap(), [], PairHeap(), Recover);
    ls, t := OneMore(PairHeap(), ls, t, Opened({0, 1}));
    assert t.lanes == [Idle];
    ls, t := OneMore(PairHeap(), ls, t, At(0, StartMalloc(0, 1)));
    ls, t := OneMore(PairHeap(), ls, t, At(0, Pick(1)));
    ls, t := OneMore(PairHeap(), ls, t, At(0, FitExactly));
  }

  lemma PairHeapAllocates() returns (ls: seq<Label>, t: State)
    ensures Run(PairHeap(), ls, t) && Inv(t) && Sized(t)
    ensures t == Running(Media([Header(true, Base, false, 1), Header(true, Base, true, 1)], map[0 := 1], [Free_]), {0}, [Idle])
  {
    hide Run, Inv, Tiled, Heads;
    ls, t := PairHeapFits();
    ls, t := OneMore(PairHeap(), ls, t, At(0, SetPtr));
    ls, t := OneMore(PairHeap(), ls, t, At(0, MarkUsed));
    ls, t := OneMore(PairHeap(), ls, t, At(0, ClearSlot));
  }

  /** With a chunk behind it in use, the first persist of such a split on chunk 0 makes reopening offer the whole zone again. */
  lemma OverLiveIsReached(bytes: nat) returns (ls: seq<Label>, t: State)
    requires 1 <= bytes <= CHUNK_SIZE
    ensures Inv(PairHeap()) && Run(PairHeap(), ls, t) && Sized(t) && Enabled(t, At(0, WriteRest))
    ensures t.Running? && t.lanes == [Got(1, CalcUnits(bytes), 0)] && t.media.ptrs == map[0 := 1]
    ensures var m := Apply(t, At(0, WriteRest)).media;
            && !RecoversWell(m) && PtrsInside(m) && Reopened(m).Some?
            && Reopened(m).value.zone[0] == WholeZone(2, true) && Reopened(m).value.ptrs == map[0 := 1]
  {
    hide Run, Inv, Tiled, Heads, Reopened, Settled, Survivors, RecoversWell;
    PairHeapInv();
    ls, t := PairHeapAllocates();
    ls, t := OneMore(PairHeap(), ls, t, At(0, StartMalloc(1, CalcUnits(bytes))));
    ls, t := OneMore(PairHeap(), ls, t, At(0, Pick(0)));
    OneSurvives(t);
    NoUnitsCutShort(t, 0);
  }

  lemma OneSurvives(t: State)
    requires t.media.slots == [AllocSlot(1)] && t.media.ptrs == map[0 := 1]
    ensures Survivors(t.media) == map[0 := 1] && Survivors(t.media) != map[]
  {
    assert 0 in Survivors(t.media);
  }
}
