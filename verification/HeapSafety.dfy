/**
 What the persistent heap's protocol keeps: every durable state recovers to one in which pointers and
 used chunks correspond one to one. This holds of every run in which no allocation takes a chunk whose
 freeing has not yet nulled its pointer; from a run that does, recovery can go wrong.
 */
module HeapSafety {
  import opened HeapZone
  import opened HeapRecovery

  /** Slot i guards this pointer. */
  predicate Guards(m: Media, i: nat, p: nat)
    requires i < |m.slots|
  {
    p in PtrOf(m.slots[i])
  }

  ghost predicate Unguarded(m: Media, p: nat) {
    forall i :: 0 <= i < |m.slots| ==> !Guards(m, i, p)
  }

  ghost predicate Pointed_(m: Media, c: nat) {
    exists p :: p in m.ptrs && m.ptrs[p] == c
  }

  /** Pointers name distinct chunks of the zone. */
  ghost predicate PtrsOk(m: Media) {
    && Tiled(m.zone, 0)
    && (forall p :: p in m.ptrs ==> m.ptrs[p] in Heads(m.zone, 0))
    && (forall p, q :: p in m.ptrs && q in m.ptrs && p != q ==> m.ptrs[p] != m.ptrs[q])
  }

  /** Holds of the durable state between any two persists. */
  ghost predicate DurableOk(m: Media) {
    && PtrsOk(m)
    && (forall i, j, p :: 0 <= i < j < |m.slots| && Guards(m, i, p) ==> !Guards(m, j, p))
    && (forall p :: p in m.ptrs && Unguarded(m, p) ==> m.zone[m.ptrs[p]].used)
    && (forall c :: c in Heads(m.zone, 0) && m.zone[c].used ==> Pointed_(m, c))
  }

  /** The good outcome: no operation pending, and exactly the chunks pointed to are used. */
  ghost predicate Settled(m: Media) {
    && PtrsOk(m)
    && (forall i :: 0 <= i < |m.slots| ==> m.slots[i].Free_?)
    && (forall c :: c in Heads(m.zone, 0) ==> (m.zone[c].used <==> Pointed_(m, c)))
  }

  /** The pointers a recovery leaves: those of unfinished allocations are taken back. */
  ghost function Survivors(m: Media): (r: map<nat, nat>) {
    map p | p in m.ptrs && !AllocPending(m, p) :: m.ptrs[p]
  }

  ghost predicate AllocPending(m: Media, p: nat) {
    exists i :: 0 <= i < |m.slots| && m.slots[i] == AllocSlot(p)
  }

  // ----- Recovery -----

  lemma FlagKeepsPtrs(m: Media, c: nat, used: bool)
    requires PtrsOk(m) && c < |m.zone|
    ensures PtrsOk(SetUsed(m, c, used)) && Heads(SetUsed(m, c, used).zone, 0) == Heads(m.zone, 0)
  {
    FlagOnly(m.zone, 0, c, used);
  }

  /** One persist of recovery keeps the durable invariant and what will survive. */
  lemma RecoverStepOk(m: Media, i: nat)
    requires DurableOk(m) && i < |m.slots|
    ensures forall p :: p in m.ptrs ==> m.ptrs[p] < |m.zone|
    ensures var r := RecoverStep(m, i);
            && DurableOk(r) && |r.slots| == |m.slots| && Survivors(r) == Survivors(m)
            && forall j :: 0 <= j < |m.slots| && j != i ==> r.slots[j] == m.slots[j]
  {
    hide DurableOk, Survivors, AllocPending;
    PtrsInZone(m);
    match m.slots[i]
    case Free_ =>
    case AllocSlot(p) =>
      if p in m.ptrs && m.zone[m.ptrs[p]].used {
        FlagOk(m, i, p, false);
      } else if p in m.ptrs {
        NullOk(m, i, p);
        PendingDoesNotSurvive(m, i, p);
      } else {
        ClearOk(m, i, p);
      }
    case FreeSlot(p) =>
      if p in m.ptrs && !m.zone[m.ptrs[p]].used {
        FlagOk(m, i, p, true);
      } else {
        ClearOk(m, i, p);
        FreedSurvives(m, i, p);
      }
  }

  lemma PtrsInZone(m: Media)
    requires DurableOk(m)
    ensures forall p :: p in m.ptrs ==> m.ptrs[p] < |m.zone|
  {
  }

  lemma PendingDoesNotSurvive(m: Media, i: nat, p: nat)
    requires i < |m.slots| && m.slots[i] == AllocSlot(p)
    ensures p !in Survivors(m) && Survivors(m) - {p} == Survivors(m)
  {
    assert AllocPending(m, p);
  }

  lemma FreedSurvives(m: Media, i: nat, p: nat)
    requires DurableOk(m) && i < |m.slots| && m.slots[i] == FreeSlot(p)
    ensures p in m.ptrs ==> Survivors(m)[p := m.ptrs[p]] == Survivors(m)
  {
    if AllocPending(m, p) {
      var j :| 0 <= j < |m.slots| && m.slots[j] == AllocSlot(p);
      assert Guards(m, i, p) && Guards(m, j, p);
    }
  }

  /** The used flag of a guarded pointer's chunk may take either value. */
  lemma FlagOk(m: Media, i: nat, p: nat, used: bool)
    requires DurableOk(m) && i < |m.slots| && Guards(m, i, p) && p in m.ptrs
    ensures m.ptrs[p] < |m.zone|
    ensures var r := SetUsed(m, m.ptrs[p], used); DurableOk(r) && Survivors(r) == Survivors(m)
  {
    var c := m.ptrs[p];
    var r := SetUsed(m, c, used);
    FlagKeepsPtrs(m, c, used);
    forall q | q in r.ptrs && Unguarded(r, q) ensures r.zone[r.ptrs[q]].used {
      assert Unguarded(m, q) by {
        forall j | 0 <= j < |m.slots| ensures !Guards(m, j, q) {
          assert !Guards(r, j, q);
        }
      }
    }
    forall d | d in Heads(r.zone, 0) && r.zone[d].used ensures Pointed_(r, d) {
      if d == c {
        assert r.ptrs[p] == d;
      } else {
        assert Pointed_(m, d);
        var q :| q in m.ptrs && m.ptrs[q] == d;
        assert r.ptrs[q] == d;
      }
    }
    forall j, k, q | 0 <= j < k < |r.slots| && Guards(r, j, q) ensures !Guards(r, k, q) {
      assert Guards(m, j, q) && !Guards(m, k, q);
    }
    SameSurvivors(m, r);
  }

  lemma SameSurvivors(m: Media, r: Media)
    requires r.slots == m.slots && r.ptrs == m.ptrs
    ensures Survivors(r) == Survivors(m)
  {
    forall p ensures AllocPending(m, p) == AllocPending(r, p) {
    }
  }

  /** A pointer to an unused chunk may be nulled; nothing survives less if its allocation is pending. */
  lemma NullOk(m: Media, i: nat, p: nat)
    requires DurableOk(m) && i < |m.slots| && Guards(m, i, p) && p in m.ptrs
    requires m.ptrs[p] < |m.zone| && !m.zone[m.ptrs[p]].used
    ensures var r := m.(ptrs := m.ptrs - {p});
            && DurableOk(r)
            && Survivors(r) == Survivors(m) - {p}
  {
    var r := m.(ptrs := m.ptrs - {p});
    forall q ensures AllocPending(m, q) == AllocPending(r, q) {
    }
    forall d | d in Heads(r.zone, 0) && r.zone[d].used ensures Pointed_(r, d) {
      assert Pointed_(m, d);
      var q :| q in m.ptrs && m.ptrs[q] == d;
      assert r.ptrs[q] == d;
    }
    forall q | q in r.ptrs && Unguarded(r, q) ensures r.zone[r.ptrs[q]].used {
      assert Unguarded(m, q) by {
        forall j | 0 <= j < |m.slots| ensures !Guards(m, j, q) {
          assert !Guards(r, j, q);
        }
      }
    }
    forall j, k, q | 0 <= j < k < |r.slots| && Guards(r, j, q) ensures !Guards(r, k, q) {
      assert Guards(m, j, q) && !Guards(m, k, q);
    }
  }

  /** A slot may be cleared once its pointer is null or names a used chunk. */
  lemma ClearOk(m: Media, i: nat, p: nat)
    requires DurableOk(m) && i < |m.slots| && Guards(m, i, p)
    requires p in m.ptrs ==> m.ptrs[p] < |m.zone| && m.zone[m.ptrs[p]].used
    ensures var r := m.(slots := m.slots[i := Free_]);
            && DurableOk(r)
            && Survivors(r) == if p in m.ptrs then Survivors(m)[p := m.ptrs[p]] else Survivors(m)
  {
    var r := m.(slots := m.slots[i := Free_]);
    forall j, q | 0 <= j < |r.slots| ensures Guards(r, j, q) == (j != i && Guards(m, j, q)) {
    }
    forall q | q in r.ptrs && Unguarded(r, q) ensures r.zone[r.ptrs[q]].used {
      if q != p {
        assert Unguarded(m, q) by {
          forall j | 0 <= j < |m.slots| ensures !Guards(m, j, q) {
            assert !Guards(r, j, q);
          }
        }
      }
    }
    forall d | d in Heads(r.zone, 0) && r.zone[d].used ensures Pointed_(r, d) {
      assert Pointed_(m, d);
      var q :| q in m.ptrs && m.ptrs[q] == d;
      assert r.ptrs[q] == d;
    }
    ClearSurvivors(m, i, p);
  }

  lemma ClearSurvivors(m: Media, i: nat, p: nat)
    requires DurableOk(m) && i < |m.slots| && Guards(m, i, p)
    ensures var r := m.(slots := m.slots[i := Free_]);
            Survivors(r) == if p in m.ptrs then Survivors(m)[p := m.ptrs[p]] else Survivors(m)
  {
    var r := m.(slots := m.slots[i := Free_]);
    forall q ensures AllocPending(r, q) == (q != p && AllocPending(m, q)) {
      if AllocPending(r, q) {
        var j :| 0 <= j < |r.slots| && r.slots[j] == AllocSlot(q);
        assert Guards(m, j, q);
        assert m.slots[j] == AllocSlot(q);
      }
      if q != p && AllocPending(m, q) {
        var j :| 0 <= j < |m.slots| && m.slots[j] == AllocSlot(q);
        assert r.slots[j] == AllocSlot(q);
      }
    }
  }

  // ----- Running -----

  /** The arena has taken a chunk out of the container. */
  predicate Holding(pc: Pc) {
    pc.Got? || pc.Split1? || pc.Split2? || pc.Fitted?
  }

  /** It can only put the chunk back, or would split it after no units at all. */
  predicate Misfit(z: Zone, pc: Pc) {
    pc.Got? && pc.chunk < |z| && !(1 <= pc.units <= z[pc.chunk].size)
  }

  /** The slot an arena at this point has set. */
  predicate SlotFits(pc: Pc, s: Slot) {
    match pc
    case Idle => s.Free_?
    case Finishing(p) => PtrOf(s) == {p}
    case Unmark(p, _) => s == FreeSlot(p)
    case Unmarked(p, _) => s == FreeSlot(p)
    case _ => s == AllocSlot(pc.ptr)
  }

  /** A chunk taken out is unused, and only one that does not fit may still be pointed to, by a free in progress. */
  ghost predicate HeldOk(s: State, pc: Pc)
    requires s.Running? && Holding(pc)
  {
    && pc.chunk < |s.media.zone| && !s.media.zone[pc.chunk].used && pc.chunk !in s.bucket
    && forall p :: p in s.media.ptrs && s.media.ptrs[p] == pc.chunk ==>
                     Misfit(s.media.zone, pc) && InWindow(s, p, pc.chunk)
  }

  ghost predicate ArenaOk(s: State, a: nat)
    requires s.Running? && a < |s.lanes| && |s.lanes| == |s.media.slots|
    requires forall p :: p in s.media.ptrs ==> s.media.ptrs[p] < |s.media.zone|
  {
    var pc, m := s.lanes[a], s.media;
    && SlotFits(pc, m.slots[a])
    && (Holding(pc) ==> HeldOk(s, pc))
    && ((pc.Picking? || Holding(pc)) ==> pc.ptr !in m.ptrs)
    && (pc.Pointed? ==> pc.ptr in m.ptrs && m.ptrs[pc.ptr] == pc.chunk && !m.zone[pc.chunk].used && pc.chunk !in s.bucket)
    && (pc.Unmark? ==> pc.ptr in m.ptrs && m.ptrs[pc.ptr] == pc.chunk && m.zone[pc.chunk].used)
    && (pc.Unmarked? ==> pc.ptr in m.ptrs && m.ptrs[pc.ptr] == pc.chunk && !m.zone[pc.chunk].used)
    && (pc.Finishing? && pc.ptr in m.ptrs ==> m.zone[m.ptrs[pc.ptr]].used)
  }

  /** Arenas hold different chunks. */
  predicate ArenasApart(s: State, a: nat, b: nat)
    requires s.Running? && a < |s.lanes| && b < |s.lanes|
  {
    a != b && Holding(s.lanes[a]) && Holding(s.lanes[b]) ==> s.lanes[a].chunk != s.lanes[b].chunk
  }

  /** Some arena is freeing this chunk and has not nulled the pointer yet. */
  predicate InWindow(s: State, p: nat, c: nat)
    requires s.Running?
  {
    exists a :: 0 <= a < |s.lanes| && s.lanes[a] == Unmarked(p, c)
  }

  /** Chunks named are on the walk, and a split in progress has written what it should off it. */
  predicate PcWhole(s: State, a: nat)
    requires s.Running? && a < |s.lanes| && Tiled(s.media.zone, 0)
  {
    var pc, z := s.lanes[a], s.media.zone;
    && (!pc.Idle? && !pc.Picking? && !pc.Finishing? ==> pc.chunk in Heads(z, 0))
    && ((pc.Split1? || pc.Split2?) ==> 0 < pc.units < z[pc.chunk].size && pc.chunk + pc.units < |z|)
    && (pc.Split1? ==> z[pc.chunk + pc.units] == Header(false, Base, false, z[pc.chunk].size - pc.units))
    && (pc.Split2? ==> z[pc.chunk + pc.units] == Header(true, Base, false, z[pc.chunk].size - pc.units))
  }

  ghost predicate Whole(s: State) {
    && Tiled(s.media.zone, 0)
    && (forall p :: p in s.media.ptrs ==> s.media.ptrs[p] in Heads(s.media.zone, 0))
    && (s.Running? ==> |s.lanes| == |s.media.slots| && forall a :: 0 <= a < |s.lanes| ==> PcWhole(s, a))
  }

  /** The heap has never been opened: its first header lacks the magic number, and nothing is allocated. */
  ghost predicate NeverUsed(m: Media) {
    |m.zone| > 0 && !m.zone[0].magic && m.ptrs == map[] && forall i :: 0 <= i < |m.slots| ==> m.slots[i].Free_?
  }

  ghost predicate RunningOk(s: State)
    requires s.Running? && |s.lanes| == |s.media.slots|
    requires forall p :: p in s.media.ptrs ==> s.media.ptrs[p] < |s.media.zone|
  {
    && Tiled(s.media.zone, 0)
    && (forall a :: 0 <= a < |s.lanes| ==> ArenaOk(s, a))
    && (forall a, b :: 0 <= a < |s.lanes| && 0 <= b < |s.lanes| ==> ArenasApart(s, a, b))
    && (forall c :: c in s.bucket ==> c in Heads(s.media.zone, 0) && !s.media.zone[c].used)
    && (forall p :: p in s.media.ptrs && s.media.ptrs[p] in s.bucket ==> InWindow(s, p, s.media.ptrs[p]))
  }

  ghost predicate Inv(s: State) {
    && Sized(s)
    && ((s.Recovering? && NeverUsed(s.media)) || InUse(s))
  }

  ghost predicate InUse(s: State) {
    && Whole(s) && DurableOk(s.media) && (s.Running? ==> |s.lanes| == |s.media.slots| && PtrsInside(s.media) && RunningOk(s))
    && (s.Recovering? ==> forall i :: 0 <= i < s.at <= |s.media.slots| ==> s.media.slots[i].Free_?)
  }

  /** Some arena has unmarked this chunk and not yet nulled its pointer. */
  predicate BeingFreed(s: State, c: nat)
    requires s.Running?
  {
    exists a :: 0 <= a < |s.lanes| && s.lanes[a].Unmarked? && s.lanes[a].chunk == c
  }

  /**
   The step takes no fitting chunk out from under a free in progress, frees into a container that takes the
   chunk in, and splits after at least one unit.
   */
  predicate Clean(s: State, l: Label) {
    l.At? && s.Running? && l.arena < |s.lanes| ==>
      match l.act
      case Pick(c) =>
        s.lanes[l.arena].Picking? && c < |s.media.zone| && 1 <= s.lanes[l.arena].units <= s.media.zone[c].size ==>
          !BeingFreed(s, c)
      case ClearUsed(added) => added
      case WriteRest => s.lanes[l.arena].Got? ==> s.lanes[l.arena].units >= 1
      case _ => true
  }

  // ----- Durable effects of the steps -----

  /** A new slot may guard any pointer no other slot guards. */
  lemma GuardOk(m: Media, a: nat, slot: Slot, p: nat)
    requires DurableOk(m) && a < |m.slots| && m.slots[a].Free_? && Unguarded(m, p)
    requires slot == FreeSlot(p) || (slot == AllocSlot(p) && p !in m.ptrs)
    ensures var r := m.(slots := m.slots[a := slot]); DurableOk(r) && Survivors(r) == Survivors(m)
  {
    var r := m.(slots := m.slots[a := slot]);
    forall j, q | 0 <= j < |r.slots| ensures Guards(r, j, q) == if j == a then q == p else Guards(m, j, q) {
    }
    forall q | q in r.ptrs && Unguarded(r, q) ensures r.zone[r.ptrs[q]].used {
      assert Unguarded(m, q) by {
        forall j | 0 <= j < |m.slots| ensures !Guards(m, j, q) {
          assert !Guards(r, j, q);
        }
      }
    }
    forall i, j, q | 0 <= i < j < |r.slots| && Guards(r, i, q) ensures !Guards(r, j, q) {
      assert !Guards(m, a, q);
      if i != a && j != a {
        assert Guards(m, i, q) && !Guards(m, j, q);
      }
    }
    forall d | d in Heads(r.zone, 0) && r.zone[d].used ensures Pointed_(r, d) {
      assert Pointed_(m, d);
      var q :| q in m.ptrs && m.ptrs[q] == d;
      assert r.ptrs[q] == d;
    }
    forall q | q in m.ptrs ensures AllocPending(r, q) == AllocPending(m, q) {
      if AllocPending(m, q) {
        var j :| 0 <= j < |m.slots| && m.slots[j] == AllocSlot(q);
        assert r.slots[j] == AllocSlot(q);
      }
      if AllocPending(r, q) {
        var j :| 0 <= j < |r.slots| && r.slots[j] == AllocSlot(q);
        assert m.slots[j] == AllocSlot(q);
      }
    }
  }

  /** Headers may change as long as the walk keeps its chunks and their flags; new chunks are unused. */
  lemma ZoneOnly(m: Media, z: Zone)
    requires DurableOk(m) && |z| == |m.zone| && Tiled(z, 0) && Heads(m.zone, 0) <= Heads(z, 0)
    requires forall c :: c in Heads(m.zone, 0) ==> z[c].used == m.zone[c].used
    requires forall c :: c in Heads(z, 0) && c !in Heads(m.zone, 0) ==> !z[c].used
    ensures DurableOk(m.(zone := z)) && Survivors(m.(zone := z)) == Survivors(m)
  {
    var r := m.(zone := z);
    SameSurvivors(m, r);
    forall q | q in r.ptrs && Unguarded(r, q) ensures r.zone[r.ptrs[q]].used {
      assert Unguarded(m, q) by {
        forall j | 0 <= j < |m.slots| ensures !Guards(m, j, q) {
          assert !Guards(r, j, q);
        }
      }
    }
    forall d | d in Heads(r.zone, 0) && r.zone[d].used ensures Pointed_(r, d) {
      assert Pointed_(m, d);
      var q :| q in m.ptrs && m.ptrs[q] == d;
      assert r.ptrs[q] == d;
    }
    forall j, k, q | 0 <= j < k < |r.slots| && Guards(r, j, q) ensures !Guards(r, k, q) {
      assert Guards(m, j, q) && !Guards(m, k, q);
    }
  }

  /** A pointer under an allocation guard may be set to a chunk nothing points to. */
  lemma SetPtrOk(m: Media, a: nat, p: nat, c: nat)
    requires DurableOk(m) && a < |m.slots| && m.slots[a] == AllocSlot(p) && p !in m.ptrs
    requires c in Heads(m.zone, 0) && !Pointed_(m, c)
    ensures var r := m.(ptrs := m.ptrs[p := c]); DurableOk(r) && Survivors(r) == Survivors(m)
  {
    var r := m.(ptrs := m.ptrs[p := c]);
    assert Guards(r, a, p);
    forall q, q' | q in r.ptrs && q' in r.ptrs && q != q' ensures r.ptrs[q] != r.ptrs[q'] {
    }
    forall q | q in r.ptrs && Unguarded(r, q) ensures r.zone[r.ptrs[q]].used {
      assert q != p;
      assert Unguarded(m, q) by {
        forall j | 0 <= j < |m.slots| ensures !Guards(m, j, q) {
          assert !Guards(r, j, q);
        }
      }
    }
    forall d | d in Heads(r.zone, 0) && r.zone[d].used ensures Pointed_(r, d) {
      assert Pointed_(m, d);
      var q :| q in m.ptrs && m.ptrs[q] == d;
      assert r.ptrs[q] == d;
    }
    forall j, k, q | 0 <= j < k < |r.slots| && Guards(r, j, q) ensures !Guards(r, k, q) {
      assert Guards(m, j, q) && !Guards(m, k, q);
    }
    assert AllocPending(r, p);
    forall q ensures AllocPending(m, q) == AllocPending(r, q) {
    }
  }

  // ----- Steps keep the invariant -----

  /** A pointer no busy arena works on is guarded by no slot. */
  lemma NotBusyUnguarded(s: State, p: nat)
    requires Inv(s) && s.Running? && NotBusy(s, p)
    ensures Unguarded(s.media, p)
  {
    forall i | 0 <= i < |s.media.slots| ensures !Guards(s.media, i, p) {
      assert ArenaOk(s, i);
    }
  }

  /** A step that changes neither headers nor pointers keeps the invariant of the run. */
  lemma OnlySlot(s: State, a: nat, t: State)
    requires Inv(s) && OnlyLane(s, a, t)
    requires Sized(t) && DurableOk(t.media) && PcWhole(t, a) && ArenaOk(t, a)
    ensures Inv(t)
  {
    hide ArenaOk, PcWhole, DurableOk, Tiled, Heads, Holding;
    forall b | 0 <= b < |t.lanes| ensures PcWhole(t, b) && ArenaOk(t, b) {
      if b != a {
        SlotOthers(s, a, t, b);
      }
    }
    SlotApart(s, a, t);
    forall p | p in t.media.ptrs && t.media.ptrs[p] in t.bucket ensures InWindow(t, p, t.media.ptrs[p]) {
      SlotWindow(s, a, t, p);
    }
    SlotBucket(s, a, t);
  }

  /** What such a step may do. */
  ghost predicate OnlyLane(s: State, a: nat, t: State) {
    && s.Running? && a < |s.lanes| && t.Running? && |t.lanes| == |s.lanes|
    && t.lanes == s.lanes[a := t.lanes[a]]
    && t.media.zone == s.media.zone && t.media.ptrs == s.media.ptrs && |t.media.slots| == |s.lanes| == |s.media.slots|
    && t.media.slots == s.media.slots[a := t.media.slots[a]]
    && t.bucket <= s.bucket + (if Holding(s.lanes[a]) && !Holding(t.lanes[a]) then {s.lanes[a].chunk} else {})
    && !s.lanes[a].Unmarked?
    && (Holding(t.lanes[a]) ==>
          (Holding(s.lanes[a]) && t.lanes[a].chunk == s.lanes[a].chunk) || t.lanes[a].chunk in s.bucket)
  }

  lemma SlotOthers(s: State, a: nat, t: State, b: nat)
    requires Inv(s) && OnlyLane(s, a, t) && b < |s.lanes| && b != a
    ensures Tiled(t.media.zone, 0) && PtrsInside(t.media)
    ensures PcWhole(t, b) && ArenaOk(t, b)
  {
    hide DurableOk, Tiled, Heads;
    assert PcWhole(s, b) && ArenaOk(s, b) && ArenasApart(s, a, b);
    if Holding(s.lanes[b]) {
      forall p | p in t.media.ptrs && t.media.ptrs[p] == s.lanes[b].chunk ensures InWindow(t, p, s.lanes[b].chunk) {
        SameWindow(s, a, t, p, s.lanes[b].chunk);
      }
    }
    if s.lanes[b].Pointed? && Holding(s.lanes[a]) {
      PointedNotHeld(s, b, a);
    }
  }

  /** The chunk of a pointer just written is held by nobody. */
  lemma PointedNotHeld(s: State, a: nat, b: nat)
    requires Inv(s) && s.Running? && a < |s.lanes| && b < |s.lanes| && s.lanes[a].Pointed? && Holding(s.lanes[b])
    ensures s.lanes[b].chunk != s.lanes[a].chunk
  {
    hide DurableOk, Tiled, Heads, PcWhole;
    var p, c := s.lanes[a].ptr, s.lanes[a].chunk;
    assert ArenaOk(s, a) && ArenaOk(s, b);
    if s.lanes[b].chunk == c {
      assert InWindow(s, p, c);
      var w :| 0 <= w < |s.lanes| && s.lanes[w] == Unmarked(p, c);
      BusyApart(s, a, w);
    }
  }

  lemma SlotApart(s: State, a: nat, t: State)
    requires Inv(s) && OnlyLane(s, a, t)
    ensures forall b, c :: 0 <= b < |t.lanes| && 0 <= c < |t.lanes| ==> ArenasApart(t, b, c)
  {
    hide DurableOk, Tiled, Heads, PcWhole;
    forall b, c | 0 <= b < |t.lanes| && 0 <= c < |t.lanes| ensures ArenasApart(t, b, c) {
      assert ArenasApart(s, b, c) && ArenaOk(s, b) && ArenaOk(s, c);
    }
  }

  lemma SlotWindow(s: State, a: nat, t: State, p: nat)
    requires Inv(s) && OnlyLane(s, a, t) && p in t.media.ptrs && t.media.ptrs[p] in t.bucket
    ensures InWindow(t, p, t.media.ptrs[p])
  {
    hide DurableOk, Tiled, Heads, PcWhole;
    assert ArenaOk(s, a);
    assert InWindow(s, p, s.media.ptrs[p]);
    SameWindow(s, a, t, p, s.media.ptrs[p]);
  }

  lemma SlotBucket(s: State, a: nat, t: State)
    requires Inv(s) && OnlyLane(s, a, t)
    ensures forall c :: c in t.bucket ==> c in Heads(t.media.zone, 0) && !t.media.zone[c].used
  {
    hide DurableOk, Tiled, Heads;
    assert ArenaOk(s, a) && PcWhole(s, a);
  }

  /** A window stays open while its arena does not move. */
  lemma SameWindow(s: State, a: nat, t: State, p: nat, c: nat)
    requires s.Running? && a < |s.lanes| && t.Running? && |t.lanes| == |s.lanes|
    requires t.lanes == s.lanes[a := t.lanes[a]]
    requires !(s.lanes[a].Unmarked? && s.lanes[a].ptr == p) && InWindow(s, p, c)
    ensures InWindow(t, p, c)
  {
    var b :| 0 <= b < |s.lanes| && s.lanes[b] == Unmarked(p, c);
    assert t.lanes[b] == Unmarked(p, c);
  }

  lemma PointedSame(m: Media, r: Media)
    requires r.ptrs == m.ptrs
    ensures forall c :: Pointed_(r, c) == Pointed_(m, c)
  {
  }

  lemma StartsKeepInv(s: State, l: Label, t: State)
    requires Inv(s) && Step(s, l, t) && l.At?
    requires l.act.StartMalloc? || l.act.StartFree?
    ensures Inv(t) && Survivors(t.media) == Survivors(s.media)
  {
    NotBusyUnguarded(s, l.act.ptr);
    assert ArenaOk(s, l.arena);
    GuardOk(s.media, l.arena, if l.act.StartMalloc? then AllocSlot(l.act.ptr) else FreeSlot(l.act.ptr), l.act.ptr);
    StepKeepsSized(s, l, t);
    OnlySlot(s, l.arena, t);
  }

  lemma VolatileKeepsInv(s: State, l: Label, t: State)
    requires Inv(s) && Step(s, l, t) && l.At? && Clean(s, l)
    requires l.act.Pick? || l.act.PickNothing? || l.act.PutBack? || l.act.FitExactly? || l.act.RefuseFree?
    ensures Inv(t) && Survivors(t.media) == Survivors(s.media)
  {
    hide DurableOk, Tiled, Heads;
    assert ArenaOk(s, l.arena) && PcWhole(s, l.arena);
    if l.act.Pick? {
      PickedOk(s, l, t);
    }
    assert OnlyLane(s, l.arena, t);
    assert PcWhole(t, l.arena) && ArenaOk(t, l.arena);
    StepKeepsSized(s, l, t);
    OnlySlot(s, l.arena, t);
  }

  /** A chunk in the container is pointed to by frees in progress only. */
  lemma PickedOk(s: State, l: Label, t: State)
    requires Inv(s) && Step(s, l, t) && l.At? && Clean(s, l) && l.act.Pick?
    ensures HeldOk(t, t.lanes[l.arena])
  {
    hide DurableOk, Tiled, Heads, PcWhole;
    var c := l.act.chunk;
    forall p | p in t.media.ptrs && t.media.ptrs[p] == c ensures Misfit(t.media.zone, t.lanes[l.arena]) && InWindow(t, p, c) {
      assert InWindow(s, p, c);
      SameWindow(s, l.arena, t, p, c);
    }
  }

  /** The index lies in the chunk this arena holds. */
  predicate InChunk(s: State, a: nat, j: nat)
    requires s.Running? && a < |s.lanes| && Holding(s.lanes[a])
  {
    s.lanes[a].chunk < |s.media.zone| && s.lanes[a].chunk <= j < s.lanes[a].chunk + s.media.zone[s.lanes[a].chunk].size
  }

  /** Nobody else's pending split header lies inside this arena's chunk. */
  lemma SplitsApart(s: State, a: nat, b: nat, j: nat)
    requires Inv(s) && s.Running? && a < |s.lanes| && b < |s.lanes| && a != b
    requires Holding(s.lanes[a]) && Holding(s.lanes[b]) && InChunk(s, a, j)
    ensures s.lanes[b].chunk != j
    ensures s.lanes[b].Split1? || s.lanes[b].Split2? ==> s.lanes[b].chunk + s.lanes[b].units != j
  {
    assert ArenasApart(s, a, b) && PcWhole(s, a) && PcWhole(s, b);
    var z, c, d := s.media.zone, s.lanes[a].chunk, s.lanes[b].chunk;
    if c < d {
      HeadsApart(z, 0, c, d);
    } else {
      HeadsApart(z, 0, d, c);
    }
  }

  /** Only headers inside this arena's chunk differ; the walk may have gained the chunk `extra`. */
  ghost predicate OnlyChunk(s: State, a: nat, t: State, extra: set<nat>)
    requires s.Running? && a < |s.lanes| && Holding(s.lanes[a]) && Tiled(s.media.zone, 0)
  {
    && t.Running? && |t.lanes| == |s.lanes| && t.lanes == s.lanes[a := t.lanes[a]]
    && t.media == s.media.(zone := t.media.zone) && |t.media.zone| == |s.media.zone|
    && Tiled(t.media.zone, 0) && Heads(t.media.zone, 0) == Heads(s.media.zone, 0) + extra
    && extra !! Heads(s.media.zone, 0) && s.bucket <= t.bucket <= s.bucket + extra
    && (forall j :: 0 <= j < |s.media.zone| && !InChunk(s, a, j) ==> t.media.zone[j] == s.media.zone[j])
    && (forall c :: c in Heads(s.media.zone, 0) ==> t.media.zone[c].used == s.media.zone[c].used)
    && (forall c :: c in extra ==> !t.media.zone[c].used)
  }

  /** What a persist of a split leaves alone: every other arena's view. */
  lemma SplitOthers(s: State, a: nat, t: State, extra: set<nat>, b: nat)
    requires Inv(s) && s.Running? && a < |s.lanes| && b < |s.lanes| && a != b && Holding(s.lanes[a])
    requires OnlyChunk(s, a, t, extra)
    ensures PcWhole(t, b) && ArenaOk(t, b)
  {
    hide DurableOk, Tiled, Heads;
    assert PcWhole(s, a) && PcWhole(s, b) && ArenaOk(s, b) && ArenasApart(s, a, b);
    if Holding(s.lanes[b]) {
      if InChunk(s, a, s.lanes[b].chunk) {
        SplitsApart(s, a, b, s.lanes[b].chunk);
      }
      if s.lanes[b].Split1? || s.lanes[b].Split2? {
        var i := s.lanes[b].chunk + s.lanes[b].units;
        if InChunk(s, a, i) {
          SplitsApart(s, a, b, i);
        }
      }
      forall p | p in t.media.ptrs && t.media.ptrs[p] == s.lanes[b].chunk ensures InWindow(t, p, s.lanes[b].chunk) {
        SameWindow(s, a, t, p, s.lanes[b].chunk);
      }
    }
  }

  lemma SplitBucket(s: State, a: nat, t: State, extra: set<nat>)
    requires Inv(s) && s.Running? && a < |s.lanes| && Holding(s.lanes[a])
    requires OnlyChunk(s, a, t, extra)
    ensures forall c :: c in t.bucket ==> c in Heads(t.media.zone, 0) && !t.media.zone[c].used
    ensures forall p :: p in t.media.ptrs && t.media.ptrs[p] in t.bucket ==> InWindow(t, p, t.media.ptrs[p])
  {
    forall p | p in t.media.ptrs && t.media.ptrs[p] in t.bucket ensures InWindow(t, p, t.media.ptrs[p]) {
      assert InWindow(s, p, s.media.ptrs[p]);
      var b :| 0 <= b < |s.lanes| && s.lanes[b] == Unmarked(p, s.media.ptrs[p]);
      assert t.lanes[b] == Unmarked(p, s.media.ptrs[p]);
    }
  }

  /** Writing the header of the rest touches only the arena's own chunk, off the walk. */
  lemma RestStep(s: State, l: Label, t: State)
    requires Inv(s) && Step(s, l, t) && l.At? && Clean(s, l)
    requires l.act.WriteRest? || l.act.WriteMagic?
    ensures Holding(s.lanes[l.arena]) && OnlyChunk(s, l.arena, t, {}) && PcWhole(t, l.arena)
  {
    hide DurableOk, RunningOk, Tiled, Heads;
    var pc, z := s.lanes[l.arena], s.media.zone;
    assert PcWhole(s, l.arena);
    InsideIsOff(z, 0, pc.chunk, pc.chunk + pc.units);
    OffWalk(z, 0, pc.chunk + pc.units, t.media.zone[pc.chunk + pc.units]);
  }

  /** Shrinking the chunk adds the rest to the walk. */
  lemma ShrinkStep(s: State, l: Label, t: State)
    requires Inv(s) && Step(s, l, t) && l.At? && l.act.ShrinkChunk?
    ensures Holding(s.lanes[l.arena])
    ensures OnlyChunk(s, l.arena, t, {s.lanes[l.arena].chunk + s.lanes[l.arena].units}) && PcWhole(t, l.arena)
  {
    hide DurableOk, RunningOk;
    hide Tiled, Heads;
    var pc, z := s.lanes[l.arena], s.media.zone;
    assert PcWhole(s, l.arena);
    InsideIsOff(z, 0, pc.chunk, pc.chunk + pc.units);
    ShrinkTiled(z, 0, pc.chunk, pc.units);
  }

  lemma SplitKeepsInv(s: State, l: Label, t: State)
    requires Inv(s) && Step(s, l, t) && l.At? && Clean(s, l)
    requires l.act.WriteRest? || l.act.WriteMagic? || l.act.ShrinkChunk?
    ensures Inv(t) && Survivors(t.media) == Survivors(s.media)
  {
    hide Tiled, Heads, DurableOk, Survivors, ArenaOk, PcWhole, ArenasApart, InWindow, Clean;
    var a := l.arena;
    var extra := if l.act.ShrinkChunk? then {s.lanes[a].chunk + s.lanes[a].units} else {};
    if l.act.ShrinkChunk? {
      ShrinkStep(s, l, t);
    } else {
      RestStep(s, l, t);
    }
    SplitSelf(s, l, t);
    SplitApart(s, a, t);
    ZoneOnly(s.media, t.media.zone);
    SplitBucket(s, a, t, extra);
    forall b | 0 <= b < |t.lanes| && b != a ensures PcWhole(t, b) && ArenaOk(t, b) {
      SplitOthers(s, a, t, extra, b);
    }
    HeadsKept(s, t);
    StepKeepsSized(s, l, t);
  }

  lemma HeadsKept(s: State, t: State)
    requires Inv(s) && s.Running? && s.media.ptrs == t.media.ptrs && Tiled(t.media.zone, 0)
    requires Heads(s.media.zone, 0) <= Heads(t.media.zone, 0)
    ensures forall p :: p in t.media.ptrs ==> t.media.ptrs[p] in Heads(t.media.zone, 0)
  {
  }

  lemma SplitSelf(s: State, l: Label, t: State)
    requires Inv(s) && Step(s, l, t) && l.At?
    requires l.act.WriteRest? || l.act.WriteMagic? || l.act.ShrinkChunk?
    requires t.Running? && Tiled(t.media.zone, 0) && PcWhole(t, l.arena) && Holding(s.lanes[l.arena])
    requires OnlyChunk(s, l.arena, t, if l.act.ShrinkChunk? then {s.lanes[l.arena].chunk + s.lanes[l.arena].units} else {})
    requires forall p :: p in t.media.ptrs ==> t.media.ptrs[p] < |t.media.zone|
    ensures ArenaOk(t, l.arena)
  {
    assert ArenaOk(s, l.arena) && PcWhole(s, l.arena);
    PointedSame(s.media, t.media);
    hide DurableOk, Tiled, RunningOk;
  }

  lemma SplitApart(s: State, a: nat, t: State)
    requires Inv(s) && s.Running? && a < |s.lanes| && Holding(s.lanes[a])
    requires t.Running? && |t.lanes| == |s.lanes| && t.lanes == s.lanes[a := t.lanes[a]]
    requires Holding(t.lanes[a]) ==> t.lanes[a].chunk == s.lanes[a].chunk
    ensures forall b, c :: 0 <= b < |t.lanes| && 0 <= c < |t.lanes| ==> ArenasApart(t, b, c)
  {
    forall b, c | 0 <= b < |t.lanes| && 0 <= c < |t.lanes| ensures ArenasApart(t, b, c) {
      assert ArenasApart(s, b, c);
    }
    hide *;
  }

  // ----- Steps on a pointer or its chunk's flag -----

  /** Busy arenas work on different pointers. */
  lemma BusyApart(s: State, a: nat, b: nat)
    requires Inv(s) && s.Running? && a < |s.lanes| && b < |s.lanes| && a != b
    requires !s.lanes[a].Idle? && !s.lanes[b].Idle?
    ensures s.lanes[a].ptr != s.lanes[b].ptr
  {
    assert ArenaOk(s, a) && ArenaOk(s, b);
    assert Guards(s.media, a, s.lanes[a].ptr) && Guards(s.media, b, s.lanes[b].ptr);
    hide PtrsOk, Tiled;
  }

  /** Only pointer p, the used flag of chunk c and c's place in the bucket may differ; c is nobody else's. */
  ghost predicate OnlyPtr(s: State, a: nat, t: State, p: nat, c: nat)
    requires s.Running? && a < |s.lanes| && Tiled(s.media.zone, 0)
  {
    && t.Running? && |t.lanes| == |s.lanes| && t.lanes == s.lanes[a := t.lanes[a]]
    && t.media.slots == s.media.slots && !s.lanes[a].Idle? && s.lanes[a].ptr == p
    && c in Heads(s.media.zone, 0) && |t.media.zone| == |s.media.zone|
    && t.media.zone == s.media.zone[c := s.media.zone[c].(used := t.media.zone[c].used)]
    && (forall q :: q != p ==> (q in t.media.ptrs <==> q in s.media.ptrs))
    && (forall q :: q != p && q in s.media.ptrs ==> t.media.ptrs[q] == s.media.ptrs[q] && s.media.ptrs[q] != c)
    && (p in t.media.ptrs ==> t.media.ptrs[p] == c)
    && (forall b :: 0 <= b < |s.lanes| && b != a && Holding(s.lanes[b]) && s.lanes[b].chunk == c ==>
          p !in t.media.ptrs && !t.media.zone[c].used && c !in t.bucket)
    && s.bucket <= t.bucket <= s.bucket + {c}
  }

  lemma PtrOthers(s: State, a: nat, t: State, p: nat, c: nat, b: nat)
    requires Inv(s) && s.Running? && a < |s.lanes| && b < |s.lanes| && a != b
    requires OnlyPtr(s, a, t, p, c)
    ensures Tiled(t.media.zone, 0) && Heads(t.media.zone, 0) == Heads(s.media.zone, 0)
    ensures |s.media.slots| == |s.lanes|
    ensures forall q :: q in t.media.ptrs ==> t.media.ptrs[q] in Heads(t.media.zone, 0)
    ensures PcWhole(t, b) && ArenaOk(t, b)
  {
    var z := s.media.zone;
    assert PcWhole(s, b) && ArenaOk(s, b);
    if !s.lanes[b].Idle? {
      BusyApart(s, a, b);
    }
    FlagOnly(z, 0, c, t.media.zone[c].used);
    if s.lanes[b].Split1? || s.lanes[b].Split2? {
      InsideIsOff(z, 0, s.lanes[b].chunk, s.lanes[b].chunk + s.lanes[b].units);
    }
    hide DurableOk, Tiled, Heads;
    OthersAgree(s, a, t, p, c, b);
  }

  lemma OthersAgree(s: State, a: nat, t: State, p: nat, c: nat, b: nat)
    requires s.Running? && a < |s.lanes| && b < |s.lanes| && a != b && |s.media.slots| == |s.lanes|
    requires Tiled(s.media.zone, 0) && OnlyPtr(s, a, t, p, c)
    requires forall q :: q in s.media.ptrs ==> s.media.ptrs[q] < |s.media.zone|
    requires forall q :: q in t.media.ptrs ==> t.media.ptrs[q] < |t.media.zone|
    requires ArenaOk(s, b) && (!s.lanes[b].Idle? ==> s.lanes[b].ptr != p)
    ensures ArenaOk(t, b)
  {
    hide Tiled, Heads;
    if Holding(s.lanes[b]) {
      var d := s.lanes[b].chunk;
      forall q | q in t.media.ptrs && t.media.ptrs[q] == d ensures Misfit(t.media.zone, t.lanes[b]) && InWindow(t, q, d) {
        SameWindow(s, a, t, q, d);
      }
    }
  }

  /** Pieces of the invariant that such a step keeps, given the arena's own part. */
  lemma PtrKeepsInv(s: State, a: nat, t: State, p: nat, c: nat)
    requires Inv(s) && s.Running? && a < |s.lanes| && OnlyPtr(s, a, t, p, c)
    requires Sized(t) && DurableOk(t.media)
    requires forall q :: q in t.media.ptrs ==> t.media.ptrs[q] < |t.media.zone|
    requires Tiled(t.media.zone, 0) ==> PcWhole(t, a) && ArenaOk(t, a)
    requires Holding(t.lanes[a]) ==> Holding(s.lanes[a]) && t.lanes[a].chunk == s.lanes[a].chunk
    requires s.lanes[a].Unmarked? ==> p !in t.media.ptrs
    requires c in t.bucket ==> !t.media.zone[c].used && (p in t.media.ptrs ==> t.lanes[a] == Unmarked(p, c))
    ensures Inv(t)
  {
    hide ArenaOk, PcWhole, Tiled, Heads, ArenasApart, InWindow, DurableOk, Holding, Sized, PtrsInside;
    PtrWalk(s, a, t, p, c);
    forall b | 0 <= b < |t.lanes| && b != a ensures PcWhole(t, b) && ArenaOk(t, b) {
      PtrOthers(s, a, t, p, c, b);
    }
    PtrWindows(s, a, t, p, c);
    PtrApart(s, a, t);
    PtrBucket(s, a, t, p, c);
  }

  /** The walk stays, and pointers name chunks on it. */
  lemma PtrWalk(s: State, a: nat, t: State, p: nat, c: nat)
    requires Inv(s) && s.Running? && a < |s.lanes| && OnlyPtr(s, a, t, p, c)
    ensures Tiled(t.media.zone, 0) && Heads(t.media.zone, 0) == Heads(s.media.zone, 0)
    ensures |t.lanes| == |t.media.slots| && PtrsInside(t.media)
    ensures forall q :: q in t.media.ptrs ==> t.media.ptrs[q] in Heads(t.media.zone, 0)
  {
    FlagOnly(s.media.zone, 0, c, t.media.zone[c].used);
    hide Tiled, Heads, DurableOk, ArenaOk, PcWhole;
  }

  lemma PtrApart(s: State, a: nat, t: State)
    requires Inv(s) && s.Running? && a < |s.lanes|
    requires t.Running? && |t.lanes| == |s.lanes| && t.lanes == s.lanes[a := t.lanes[a]]
    requires Holding(t.lanes[a]) ==> Holding(s.lanes[a]) && t.lanes[a].chunk == s.lanes[a].chunk
    ensures forall b, c :: 0 <= b < |t.lanes| && 0 <= c < |t.lanes| ==> ArenasApart(t, b, c)
  {
    forall b, c | 0 <= b < |t.lanes| && 0 <= c < |t.lanes| ensures ArenasApart(t, b, c) {
      assert ArenasApart(s, b, c);
    }
    hide *;
  }

  lemma PtrBucket(s: State, a: nat, t: State, p: nat, c: nat)
    requires Inv(s) && s.Running? && a < |s.lanes| && OnlyPtr(s, a, t, p, c)
    requires c in t.bucket ==> !t.media.zone[c].used
    requires Tiled(t.media.zone, 0) && Heads(t.media.zone, 0) == Heads(s.media.zone, 0)
    ensures forall d :: d in t.bucket ==> d in Heads(t.media.zone, 0) && !t.media.zone[d].used
  {
    hide Tiled, Heads, DurableOk, ArenaOk, PcWhole;
  }

  lemma PtrWindows(s: State, a: nat, t: State, p: nat, c: nat)
    requires Inv(s) && s.Running? && a < |s.lanes| && OnlyPtr(s, a, t, p, c)
    requires c in t.bucket && p in t.media.ptrs ==> t.lanes[a] == Unmarked(p, c)
    ensures forall q :: q in t.media.ptrs && t.media.ptrs[q] in t.bucket ==> InWindow(t, q, t.media.ptrs[q])
  {
    forall q | q in t.media.ptrs && t.media.ptrs[q] in t.bucket ensures InWindow(t, q, t.media.ptrs[q]) {
      if q == p {
        assert t.lanes[a] == Unmarked(p, c);
      } else {
        assert InWindow(s, q, s.media.ptrs[q]);
        var b :| 0 <= b < |s.lanes| && s.lanes[b] == Unmarked(q, s.media.ptrs[q]);
        assert b != a;
        assert t.lanes[b] == Unmarked(q, s.media.ptrs[q]);
      }
    }
  }

  /** A pointer's chunk is held, if at all, while a free of it is in progress. */
  lemma HolderOfPtr(s: State, a: nat, b: nat)
    requires Inv(s) && s.Running? && a < |s.lanes| && b < |s.lanes| && Holding(s.lanes[b])
    requires s.lanes[a].Pointed? || s.lanes[a].Unmark? || s.lanes[a].Unmarked?
    requires s.lanes[b].chunk == s.lanes[a].chunk
    ensures s.lanes[a].Unmarked? && s.lanes[a].chunk !in s.bucket
  {
    hide DurableOk, Tiled, Heads, PcWhole;
    assert ArenaOk(s, a) && ArenaOk(s, b);
    if s.lanes[a].Pointed? {
      PointedNotHeld(s, a, b);
    }
  }

  /** What the invariant says of one arena. */
  lemma OneArena(s: State, a: nat)
    requires Inv(s) && s.Running? && a < |s.lanes|
    ensures |s.lanes| == |s.media.slots| && DurableOk(s.media) && Tiled(s.media.zone, 0)
    ensures PtrsInside(s.media) && PcWhole(s, a) && ArenaOk(s, a)
  {
  }

  lemma SetPtrOnly(s: State, l: Label, t: State)
    requires Inv(s) && Step(s, l, t) && l.At? && l.act.SetPtr?
    ensures OnlyPtr(s, l.arena, t, s.lanes[l.arena].ptr, s.lanes[l.arena].chunk)
    ensures !Pointed_(s.media, s.lanes[l.arena].chunk)
  {
    hide DurableOk, Tiled, Heads;
    assert ArenaOk(s, l.arena) && PcWhole(s, l.arena);
    forall b | 0 <= b < |s.lanes| && b != l.arena && Holding(s.lanes[b]) ensures s.lanes[b].chunk != s.lanes[l.arena].chunk {
      assert ArenasApart(s, l.arena, b);
    }
  }

  lemma SetPtrKeepsInv(s: State, l: Label, t: State)
    requires Inv(s) && Step(s, l, t) && l.At? && l.act.SetPtr?
    ensures Inv(t) && Survivors(t.media) == Survivors(s.media)
  {
    hide Inv, DurableOk, Tiled, Heads, OnlyPtr, Survivors;
    var a := l.arena;
    var p, c := s.lanes[a].ptr, s.lanes[a].chunk;
    OneArena(s, a);
    SetPtrOnly(s, l, t);
    SetPtrOk(s.media, a, p, c);
    PtrsInZone(t.media);
    StepKeepsSized(s, l, t);
    PtrKeepsInv(s, a, t, p, c);
  }

  /** The chunk behind the pointer of an arena that has marked or is freeing it. */
  lemma ChunkOfPtr(s: State, l: Label, t: State)
    requires Inv(s) && Step(s, l, t) && l.At? && (l.act.MarkUsed? || l.act.ClearUsed? || l.act.NullPtr?)
    ensures var p, c := s.lanes[l.arena].ptr, s.lanes[l.arena].chunk;
            && OnlyPtr(s, l.arena, t, p, c) && |s.lanes| == |s.media.slots| && Guards(s.media, l.arena, p)
            && p in s.media.ptrs && s.media.ptrs[p] == c && s.media.zone[c].used == l.act.ClearUsed?
            && SlotFits(s.lanes[l.arena], s.media.slots[l.arena])
  {
    assert ArenaOk(s, l.arena) && PcWhole(s, l.arena);
    forall b | 0 <= b < |s.lanes| && Holding(s.lanes[b]) && s.lanes[b].chunk == s.lanes[l.arena].chunk
      ensures s.lanes[l.arena].Unmarked? && s.lanes[l.arena].chunk !in s.bucket
    {
      HolderOfPtr(s, l.arena, b);
    }
    hide DurableOk, RunningOk, Tiled, Heads;
  }

  lemma MarksKeepInv(s: State, l: Label, t: State)
    requires Inv(s) && Step(s, l, t) && l.At? && Clean(s, l) && (l.act.MarkUsed? || l.act.ClearUsed?)
    ensures Inv(t) && Survivors(t.media) == Survivors(s.media)
  {
    hide Inv, DurableOk, Survivors, Tiled, Heads, OnlyPtr;
    var a := l.arena;
    var p, c := s.lanes[a].ptr, s.lanes[a].chunk;
    OneArena(s, a);
    ChunkOfPtr(s, l, t);
    FlagOk(s.media, a, p, l.act.MarkUsed?);
    FlagOnly(s.media.zone, 0, c, l.act.MarkUsed?);
    PtrsInZone(t.media);
    assert ArenaOk(t, a) by { hide ArenaOk; ArenaAfterMark(s, l, t); }
    StepKeepsSized(s, l, t);
    PtrKeepsInv(s, a, t, p, c);
  }

  lemma ArenaAfterMark(s: State, l: Label, t: State)
    requires s.Running? && t.Running? && Sized(s) && l.At? && Enabled(s, l) && t == Apply(s, l)
    requires l.act.MarkUsed? || l.act == ClearUsed(true) || l.act.NullPtr?
    requires |s.lanes| == |s.media.slots|
    requires forall p :: p in s.media.ptrs ==> s.media.ptrs[p] < |s.media.zone|
    requires forall p :: p in t.media.ptrs ==> t.media.ptrs[p] < |t.media.zone|
    requires ArenaOk(s, l.arena)
    ensures ArenaOk(t, l.arena)
  {
    hide Tiled, Heads;
  }

  /** Nulling the pointer is the step at which a free takes effect. */
  lemma NullPtrKeepsInv(s: State, l: Label, t: State)
    requires Inv(s) && Step(s, l, t) && l.At? && l.act.NullPtr?
    ensures Inv(t) && Survivors(t.media) == Survivors(s.media) - {s.lanes[l.arena].ptr}
  {
    hide Inv, DurableOk, Survivors, Tiled, Heads, OnlyPtr, ArenaOk;
    var a := l.arena;
    var p, c := s.lanes[a].ptr, s.lanes[a].chunk;
    OneArena(s, a);
    ChunkOfPtr(s, l, t);
    NullOk(s.media, a, p);
    PtrsInZone(t.media);
    ArenaAfterMark(s, l, t);
    StepKeepsSized(s, l, t);
    PtrKeepsInv(s, a, t, p, c);
  }

  /** Clearing the slot is the step at which an allocation takes effect. */
  lemma ClearSlotKeepsInv(s: State, l: Label, t: State)
    requires Inv(s) && Step(s, l, t) && l.At? && l.act.ClearSlot?
    ensures var p := s.lanes[l.arena].ptr;
            && Inv(t)
            && Survivors(t.media) == if p in s.media.ptrs then Survivors(s.media)[p := s.media.ptrs[p]] else Survivors(s.media)
  {
    var a := l.arena;
    assert ArenaOk(s, a);
    assert Guards(s.media, a, s.lanes[a].ptr);
    ClearOk(s.media, a, s.lanes[a].ptr);
    PtrsInZone(t.media);
    hide DurableOk, Survivors;
    StepKeepsSized(s, l, t);
    OnlySlot(s, a, t);
  }
}
