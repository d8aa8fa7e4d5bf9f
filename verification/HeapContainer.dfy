/**
 Where the free chunks of the persistent heap are. Over every clean run each unused chunk of the walk is
 in exactly one place: in the container, with the arena that took it out, or out of the container's reach
 because taking it in was refused or it was left out when the heap was opened.
 */
module HeapContainer {
  import opened Common

  import opened HeapZone
  import opened HeapRecovery
  import opened HeapSafety
  import opened HeapRuns

  /** An unused chunk of the walk. */
  predicate Spare(s: State, c: nat)
    requires Tiled(s.media.zone, 0)
  {
    c in Heads(s.media.zone, 0) && !s.media.zone[c].used
  }

  /** The arena has taken its chunk out of the container and not marked it used yet. */
  predicate Carries(pc: Pc) {
    Holding(pc) || pc.Pointed?
  }

  predicate Carried(s: State, c: nat)
    requires s.Running?
  {
    exists a :: 0 <= a < |s.lanes| && Carries(s.lanes[a]) && s.lanes[a].chunk == c
  }

  /** The chunks out of reach after a step, given those before it; reopening starts afresh. */
  ghost function Outside(s: State, l: Label, out: set<nat>): set<nat>
    requires Sized(s) && Enabled(s, l)
  {
    match l
    case Opened(found) => (set c | c in Landings(s.media.zone, 0) && !s.media.zone[c].used && c !in found)
    case At(a, act) =>
      (match act
       case PutBack(added) => if added then out else out + {s.lanes[a].chunk}
       case ShrinkChunk(added) => if added then out else out + {s.lanes[a].chunk + s.lanes[a].units}
       case _ => out)
    case _ => out
  }

  /** Every unused chunk is in one of the three places, and nothing else is. */
  ghost predicate Accounted(s: State, out: set<nat>) {
    s.Running? ==>
      && Tiled(s.media.zone, 0)
      && (forall c :: Spare(s, c) <==> c in s.bucket || c in out || Carried(s, c))
      && (forall c :: c in out || Carried(s, c) ==> c !in s.bucket)
      && (forall c :: c in out ==> !Carried(s, c))
  }

  // ----- Steps -----

  lemma OpenedAccounts(s: State, found: set<nat>, t: State)
    requires Inv(s) && Step(s, Opened(found), t)
    ensures Accounted(t, Outside(s, Opened(found), {}))
  {
    OpenedKeepsInv(s, found, t);
    TiledIsDone(s.media.zone, 0);
  }

  /** Only lane a moved, and it carries a chunk exactly if it did, the same one. */
  ghost predicate SameCarrier(s: State, a: nat, t: State)
    requires s.Running? && a < |s.lanes|
  {
    && t.Running? && |t.lanes| == |s.lanes| && t.lanes == s.lanes[a := t.lanes[a]]
    && Carries(t.lanes[a]) == Carries(s.lanes[a])
    && (Carries(s.lanes[a]) ==> t.lanes[a].chunk == s.lanes[a].chunk)
  }

  lemma SameCarried(s: State, a: nat, t: State, c: nat)
    requires s.Running? && a < |s.lanes| && SameCarrier(s, a, t)
    ensures Carried(t, c) == Carried(s, c)
  {
    if Carried(s, c) {
      var b :| 0 <= b < |s.lanes| && Carries(s.lanes[b]) && s.lanes[b].chunk == c;
      assert Carries(t.lanes[b]) && t.lanes[b].chunk == c;
    }
    if Carried(t, c) {
      var b :| 0 <= b < |t.lanes| && Carries(t.lanes[b]) && t.lanes[b].chunk == c;
      assert Carries(s.lanes[b]) && s.lanes[b].chunk == c;
    }
  }

  /** Two arenas never carry the same chunk. */
  lemma CarriersApart(s: State, a: nat, b: nat)
    requires Inv(s) && s.Running? && a < |s.lanes| && b < |s.lanes| && a != b
    requires Carries(s.lanes[a]) && Carries(s.lanes[b])
    ensures s.lanes[a].chunk != s.lanes[b].chunk
  {
    hide Tiled, Heads, Misfit;
    assert ArenasApart(s, a, b) && ArenaOk(s, a) && ArenaOk(s, b);
    if s.lanes[a].Pointed? && s.lanes[b].Pointed? {
      BusyApart(s, a, b);
    } else if s.lanes[a].Pointed? {
      PointedNotHeld(s, a, b);
    } else if s.lanes[b].Pointed? {
      PointedNotHeld(s, b, a);
    }
  }

  /** An arena that lets go of its chunk leaves it carried by nobody, and the other chunks as they were. */
  lemma LetGo(s: State, a: nat, t: State, c: nat)
    requires Inv(s) && s.Running? && a < |s.lanes| && Carries(s.lanes[a])
    requires t.Running? && |t.lanes| == |s.lanes| && t.lanes == s.lanes[a := t.lanes[a]] && !Carries(t.lanes[a])
    ensures Carried(t, c) <==> Carried(s, c) && c != s.lanes[a].chunk
  {
    hide Inv;
    if Carried(s, c) && c != s.lanes[a].chunk {
      var b :| 0 <= b < |s.lanes| && Carries(s.lanes[b]) && s.lanes[b].chunk == c;
      assert Carries(t.lanes[b]) && t.lanes[b].chunk == c;
    }
    if Carried(t, c) {
      var b :| 0 <= b < |t.lanes| && Carries(t.lanes[b]) && t.lanes[b].chunk == c;
      assert Carries(s.lanes[b]) && s.lanes[b].chunk == c;
      CarriersApart(s, a, b);
    }
  }

  lemma TakenUp(s: State, a: nat, t: State, c: nat)
    requires s.Running? && a < |s.lanes| && !Carries(s.lanes[a])
    requires t.Running? && |t.lanes| == |s.lanes| && t.lanes == s.lanes[a := t.lanes[a]] && Carries(t.lanes[a])
    ensures Carried(t, c) <==> Carried(s, c) || c == t.lanes[a].chunk
  {
    if Carried(s, c) {
      var b :| 0 <= b < |s.lanes| && Carries(s.lanes[b]) && s.lanes[b].chunk == c;
      assert Carries(t.lanes[b]) && t.lanes[b].chunk == c;
    }
    if Carried(t, c) && c != t.lanes[a].chunk {
      var b :| 0 <= b < |t.lanes| && Carries(t.lanes[b]) && t.lanes[b].chunk == c;
      assert Carries(s.lanes[b]) && s.lanes[b].chunk == c;
    }
  }

  /** A pick moves a chunk from the container to an arena. */
  lemma PickAccounts(s: State, out: set<nat>, l: Label, t: State)
    requires Inv(s) && Accounted(s, out) && Step(s, l, t) && l.At? && l.act.Pick?
    ensures Accounted(t, out)
  {
    hide Inv, Tiled, Heads;
    forall c: nat ensures Carried(t, c) <==> Carried(s, c) || c == l.act.chunk {
      TakenUp(s, l.arena, t, c);
    }
    assert forall c :: Spare(t, c) == Spare(s, c);
  }

  /** Putting a chunk back moves it to the container, or out of reach. */
  lemma PutBackAccounts(s: State, out: set<nat>, l: Label, t: State)
    requires Inv(s) && Accounted(s, out) && Step(s, l, t) && l.At? && l.act.PutBack?
    ensures Accounted(t, Outside(s, l, out))
  {
    hide Inv, Tiled, Heads;
    var d := s.lanes[l.arena].chunk;
    assert Carried(s, d);
    forall c: nat ensures Carried(t, c) <==> Carried(s, c) && c != d {
      LetGo(s, l.arena, t, c);
    }
    assert forall c :: Spare(t, c) == Spare(s, c);
  }

  /** A split keeps the arena's chunk and adds the rest to the container, or out of reach. */
  lemma SplitAccounts(s: State, out: set<nat>, l: Label, t: State)
    requires Inv(s) && Accounted(s, out) && Step(s, l, t) && l.At? && Clean(s, l)
    requires l.act.WriteRest? || l.act.WriteMagic? || l.act.ShrinkChunk?
    ensures Accounted(t, Outside(s, l, out))
  {
    hide Inv, Tiled, Heads, Clean;
    var a := l.arena;
    var rest := s.lanes[a].chunk + s.lanes[a].units;
    var extra := if l.act.ShrinkChunk? then {rest} else {};
    if l.act.ShrinkChunk? {
      ShrinkStep(s, l, t);
    } else {
      RestStep(s, l, t);
    }
    forall c: nat ensures Carried(t, c) == Carried(s, c) {
      SameCarried(s, a, t, c);
    }
    forall c: nat ensures Spare(t, c) <==> Spare(s, c) || c in extra {
    }
    assert forall c :: c in extra ==> !Spare(s, c);
    assert t.bucket - s.bucket <= extra;
  }

  /** Marking a chunk used takes it off the account; unmarking it puts it in the container. */
  lemma MarksAccount(s: State, out: set<nat>, l: Label, t: State)
    requires Inv(s) && Accounted(s, out) && Step(s, l, t) && l.At? && Clean(s, l) && (l.act.MarkUsed? || l.act.ClearUsed?)
    ensures Accounted(t, out)
  {
    hide Inv, Tiled, Heads;
    var a := l.arena;
    var d := s.lanes[a].chunk;
    ChunkOfPtr(s, l, t);
    FlagOnly(s.media.zone, 0, d, l.act.MarkUsed?);
    if l.act.MarkUsed? {
      assert Carried(s, d);
      forall c: nat ensures Carried(t, c) <==> Carried(s, c) && c != d {
        LetGo(s, a, t, c);
      }
    } else {
      assert !Spare(s, d);
      forall c: nat ensures Carried(t, c) == Carried(s, c) {
        SameCarried(s, a, t, c);
      }
    }
    assert forall c :: Spare(t, c) <==> if c == d then l.act.ClearUsed? else Spare(s, c);
  }

  /** The other steps move no chunk. */
  lemma RestAccounts(s: State, out: set<nat>, l: Label, t: State)
    requires Inv(s) && Accounted(s, out) && Step(s, l, t) && l.At?
    requires !l.act.Pick? && !l.act.PutBack? && !l.act.MarkUsed? && !l.act.ClearUsed?
    requires !l.act.WriteRest? && !l.act.WriteMagic? && !l.act.ShrinkChunk?
    ensures Accounted(t, out)
  {
    hide Inv, Tiled, Heads;
    forall c: nat ensures Carried(t, c) == Carried(s, c) {
      SameCarried(s, l.arena, t, c);
    }
    assert t.media.zone == s.media.zone && t.bucket == s.bucket;
    assert forall c :: Spare(t, c) == Spare(s, c);
  }

  /** A heap that is not open has no container. */
  lemma ClosedAccounts(t: State, out: set<nat>)
    requires t.Recovering?
    ensures Accounted(t, out)
  {
  }

  lemma StepAccounts(s: State, out: set<nat>, l: Label, t: State)
    requires Inv(s) && Accounted(s, out) && Step(s, l, t) && Clean(s, l)
    ensures Accounted(t, Outside(s, l, out))
  {
    hide Inv, Tiled, Heads, Accounted;
    match l
    case Crash => ClosedAccounts(t, out);
    case Recover => ClosedAccounts(t, out);
    case Stamp => ClosedAccounts(t, out);
    case Opened(found) => OpenedAccounts(s, found, t);
    case At(a, act) =>
      match act
      case Pick(_) => PickAccounts(s, out, l, t);
      case PutBack(_) => PutBackAccounts(s, out, l, t);
      case WriteRest => SplitAccounts(s, out, l, t);
      case WriteMagic => SplitAccounts(s, out, l, t);
      case ShrinkChunk(_) => SplitAccounts(s, out, l, t);
      case MarkUsed => MarksAccount(s, out, l, t);
      case ClearUsed(_) => MarksAccount(s, out, l, t);
      case _ => RestAccounts(s, out, l, t);
  }

  // ----- Runs -----

  /** The chunks out of reach after a run. */
  ghost function OutsideAfter(s: State, ls: seq<Label>, out: set<nat>): set<nat>
    decreases ls
  {
    if ls == [] || !Sized(s) || !Enabled(s, ls[0]) then out
    else OutsideAfter(Apply(s, ls[0]), ls[1..], Outside(s, ls[0], out))
  }

  /** Over every clean run each unused chunk stays in exactly one of the three places. */
  lemma {:induction false} RunAccounts(s: State, out: set<nat>, ls: seq<Label>, t: State)
    requires Inv(s) && Accounted(s, out) && HeapRuns.Run(s, ls, t)
    ensures Inv(t) && Accounted(t, OutsideAfter(s, ls, out))
    decreases ls
  {
    hide Inv, Accounted, Clean, Enabled, Apply, Sized, Outside;
    if ls != [] {
      var u :| Step(s, ls[0], u) && Clean(s, ls[0]) && HeapRuns.Run(u, ls[1..], t);
      StepKeepsInv(s, ls[0], u);
      StepAccounts(s, out, ls[0], u);
      RunAccounts(u, Outside(s, ls[0], out), ls[1..], t);
    }
  }

  /**
   With every arena idle, a heap that was opened since the run began and refused nothing has all its unused
   chunks in the container: splitting and putting back lose none.
   */
  lemma IdleContainerIsFull(m: Media, ls: seq<Label>, t: State)
    requires Inv(Recovering(m, 0)) && HeapRuns.Run(Recovering(m, 0), ls, t)
    requires t.Running? && forall a :: 0 <= a < |t.lanes| ==> t.lanes[a].Idle?
    ensures Tiled(t.media.zone, 0)
    ensures t.bucket == (set c | c in Heads(t.media.zone, 0) && !t.media.zone[c].used && c !in OutsideAfter(Recovering(m, 0), ls, {}))
  {
    RunAccounts(Recovering(m, 0), {}, ls, t);
    hide OutsideAfter, Heads, Tiled, Inv, HeapRuns.Run;
    var out := OutsideAfter(Recovering(m, 0), ls, {});
    assert forall c :: !Carried(t, c);
    forall c ensures c in t.bucket <==> c in Heads(t.media.zone, 0) && !t.media.zone[c].used && c !in out {
      if c in t.bucket || c in Heads(t.media.zone, 0) {
        assert Spare(t, c) <==> c in t.bucket || c in out;
      }
    }
  }
}
