/**
 One chunk of an arena: its page map changed in place as runs are split, freed, joined and trimmed, with
 the index of idle runs and the counts kept in step.
 */
module ArenaRuns {
  import opened Common

  import opened ArenaMap
  import opened ArenaTally

  class Chunk {
    /** The first page behind the chunk's header. */
    const bias: nat
    const entries: array<Bits>
    var header: Headers
    var nrunsAvail: nat
    var nrunsAdjac: nat
    var ndirty: nat
    var nactive: nat
    var avail: set<nat>

    /** Set while the chunk is the arena's spare, whose one run is not indexed. */
    var spare: bool

    /** The runs that tile the chunk behind its header. */
    ghost var runs: seq<Run>

    function Tallied(): Tally
      reads this`nrunsAvail, this`nrunsAdjac, this`ndirty, this`avail
    {
      Tally(nrunsAvail, nrunsAdjac, ndirty, avail)
    }

    ghost predicate LaidOn(s: nat, rs: seq<Run>, e: nat)
      reads this`header, entries
    {
      Laid(entries[..], header, s, rs, e)
    }

    ghost predicate Tiled()
      reads this, entries
    {
      && 0 < bias < entries.Length && LaidOn(bias, runs, entries.Length) && Apart(runs)
      && nactive == Nactive(runs)
    }

    ghost predicate Valid()
      reads this, entries
    {
      && Tiled()
      && if spare then Tallied() == Tally(0, 0, 0, {}) && |runs| == 1 && runs[0].Idle?
         else Tallied() == TallyOf(runs, bias)
    }

    /** A new chunk of n pages: one idle run, not indexed yet, just like that of a retired chunk. */
    constructor (n: nat, bias: nat, unzeroed: bool)
      requires 0 < bias < n
      ensures Valid() && spare && entries.Length == n && this.bias == bias && fresh(entries)
      ensures Busy(runs, bias) == {} && nactive == 0
    {
      this.bias := bias;
      header, nrunsAvail, nrunsAdjac, ndirty, nactive, avail, spare := map[], 0, 0, 0, 0, {}, true;
      entries := new Bits[n](_ => Bits(false, false, false, unzeroed, n - bias));
      runs := [Idle(n - bias, false)];
    }

    /** Everything but x pages behind a, which count as busy whatever the map holds for them. */
    ghost predicate Hole(a: seq<Run>, x: nat, b: seq<Run>)
      reads this`header, this`nrunsAvail, this`nrunsAdjac, this`ndirty, this`avail, this`spare, entries
    {
      var w := bias + Pages(a);
      && 0 < bias < entries.Length && x > 0 && w + x <= entries.Length && !spare
      && LaidOn(bias, a, w) && LaidOn(w + x, b, entries.Length) && Apart(a) && Apart(b)
      && Tallied() == TallyOf(Among(a, Large(x, false), b), bias)
    }

    // ----- The index of idle runs -----

    predicate AdjacPred(w: nat)
      reads this, entries
      requires 0 < bias <= w < entries.Length
    {
      !(w - 1 < bias) && !entries[w - 1].used
    }

    predicate AdjacSucc(w: nat, n: nat)
      reads this, entries
      requires w + n <= entries.Length
    {
      w + n != entries.Length && !entries[w + n].used
    }

    /** What the neighbouring entries say about a run of n pages between a and b, where they may be looked at. */
    ghost predicate Between(a: seq<Run>, n: nat, b: seq<Run>, pred: bool, succ: bool)
      reads this`header, entries
    {
      var w := bias + Pages(a);
      && 0 < bias && 0 < n && w + n <= entries.Length && Positive(a) && Positive(b)
      && (if pred then LaidOn(bias, a, w) else a != [] ==> !a[|a| - 1].Idle?)
      && (if succ then LaidOn(w + n, b, entries.Length) else b != [] ==> !b[0].Idle?)
    }

    lemma PredIs(a: seq<Run>, n: nat, b: seq<Run>, succ: bool, d: bool)
      requires Between(a, n, b, true, succ)
      ensures var w := bias + Pages(a);
              && (AdjacPred(w) <==> Touch(a, [Idle(n, d)]) == 1)
              && (AdjacPred(w) ==> a[|a| - 1].Idle? && entries[w - 1].dirty == a[|a| - 1].dirty)
    {
      if a != [] {
        LastEntry(entries[..], header, bias, a, bias + Pages(a));
        LaidSize(entries[..], header, bias, a, bias + Pages(a));
      }
    }

    lemma SuccIs(a: seq<Run>, n: nat, b: seq<Run>, pred: bool, d: bool)
      requires Between(a, n, b, pred, true)
      ensures var w := bias + Pages(a);
              && (AdjacSucc(w, n) <==> Touch([Idle(n, d)], b) == 1)
              && (AdjacSucc(w, n) ==> b[0].Idle? && entries[w + n].dirty == b[0].dirty)
    {
      LaidSize(entries[..], header, bias + Pages(a) + n, b, entries.Length);
    }

    /** Indexes the idle run of n pages at w, which lies between a and b. */
    method AvailInsert(w: nat, n: nat, maybePred: bool, maybeSucc: bool, ghost a: seq<Run>, ghost d: bool, ghost b: seq<Run>)
      requires w == bias + Pages(a) && Between(a, n, b, maybePred, maybeSucc) && w < entries.Length
      requires !entries[w].used && entries[w].size == n && entries[w].dirty == d
      requires MayJoin(a, [Idle(n, d)]) && MayJoin([Idle(n, d)], b)
      requires Tallied() == TallyOf(Among(a, Large(n, false), b), bias)
      modifies this`nrunsAvail, this`nrunsAdjac, this`ndirty, this`avail
      ensures Tallied() == TallyOf(Among(a, Idle(n, d), b), bias)
    {
      IdleCounts(a, n, d, b, bias);
      FewerAdjac(Among(a, Idle(n, d), b));
      Neighbours(a, n, d, b, maybePred, maybeSucc);
      hide Navail, Nadjac, Ndirty, Avail, Pages, Touch, Between;
      if maybePred && AdjacPred(w) {
        assert entries[w - 1].dirty != d;
        nrunsAdjac := nrunsAdjac + 1;
      }
      if maybeSucc && AdjacSucc(w, n) {
        assert entries[w + n].dirty != d;
        nrunsAdjac := nrunsAdjac + 1;
      }
      nrunsAvail := nrunsAvail + 1;
      assert nrunsAvail > nrunsAdjac;
      if entries[w].dirty {
        ndirty := ndirty + n;
      }
      avail := avail + {w};
    }

    /** Looking at the neighbours where allowed gives how often an idle run would touch. */
    lemma Neighbours(a: seq<Run>, n: nat, d: bool, b: seq<Run>, maybePred: bool, maybeSucc: bool)
      requires Between(a, n, b, maybePred, maybeSucc) && bias + Pages(a) < entries.Length
      requires MayJoin(a, [Idle(n, d)]) && MayJoin([Idle(n, d)], b)
      ensures var w := bias + Pages(a);
              && Touch(a, [Idle(n, d)]) == (if maybePred && AdjacPred(w) then 1 else 0)
              && Touch([Idle(n, d)], b) == (if maybeSucc && AdjacSucc(w, n) then 1 else 0)
              && (maybePred && AdjacPred(w) ==> entries[w - 1].dirty != d)
              && (maybeSucc && AdjacSucc(w, n) ==> entries[w + n].dirty != d)
    {
      if maybePred {
        PredIs(a, n, b, maybeSucc, d);
      }
      if maybeSucc {
        SuccIs(a, n, b, maybePred, d);
      }
    }

    /** Takes the idle run of n pages at w, which lies between a and b, out of the index. */
    method AvailRemove(w: nat, n: nat, maybePred: bool, maybeSucc: bool, ghost a: seq<Run>, ghost d: bool, ghost b: seq<Run>)
      requires w == bias + Pages(a) && Between(a, n, b, maybePred, maybeSucc) && w < entries.Length
      requires !entries[w].used && entries[w].size == n && entries[w].dirty == d
      requires MayJoin(a, [Idle(n, d)]) && MayJoin([Idle(n, d)], b)
      requires Tallied() == TallyOf(Among(a, Idle(n, d), b), bias)
      modifies this`nrunsAvail, this`nrunsAdjac, this`ndirty, this`avail
      ensures Tallied() == TallyOf(Among(a, Large(n, false), b), bias)
    {
      IdleCounts(a, n, d, b, bias);
      FewerAdjac(Among(a, Large(n, false), b));
      Neighbours(a, n, d, b, maybePred, maybeSucc);
      hide Navail, Nadjac, Ndirty, Avail, Pages, Touch, Between;
      if maybePred && AdjacPred(w) {
        assert entries[w - 1].dirty != d;
        nrunsAdjac := nrunsAdjac - 1;
      }
      if maybeSucc && AdjacSucc(w, n) {
        assert entries[w + n].dirty != d;
        nrunsAdjac := nrunsAdjac - 1;
      }
      nrunsAvail := nrunsAvail - 1;
      assert nrunsAvail > nrunsAdjac || nrunsAvail == 0 == nrunsAdjac;
      if entries[w].dirty {
        ndirty := ndirty - n;
      }
      avail := avail - {w};
    }

    // ----- Taking a run out and putting one in -----

    /** A run of the chunk with what lies around it. */
    ghost predicate Here(a: seq<Run>, r: Run, b: seq<Run>, w: nat)
      reads this, entries
    {
      && Valid() && !spare && runs == Among(a, r, b) && w == bias + Pages(a)
    }

    lemma OpenRun(a: seq<Run>, r: Run, b: seq<Run>, w: nat)
      requires Here(a, r, b, w)
      ensures 0 < r.pages && w + r.pages <= entries.Length && Ends(entries[..], header, w, r)
      ensures LaidOn(bias, a, w) && LaidOn(w + r.pages, b, entries.Length) && Positive(a) && Positive(b)
      ensures Apart(a) && Apart(b) && MayJoin(a, [r]) && MayJoin([r], b)
    {
      AroundLaid(entries[..], header, bias, a, r, b, entries.Length);
      LaidPositive(entries[..], header, bias, a, w);
      LaidPositive(entries[..], header, w + r.pages, b, entries.Length);
      AroundApart(a, r, b);
    }

    /** A busy run is a hole already. */
    lemma BusyIsHole(a: seq<Run>, r: Run, b: seq<Run>, w: nat)
      requires Here(a, r, b, w) && !r.Idle?
      ensures Hole(a, r.pages, b)
    {
      OpenRun(a, r, b, w);
      BusyKind(a, r, b, bias);
    }

    /** Filling a hole with a busy run of the same size makes the chunk whole. */
    lemma FillHole(a: seq<Run>, r: Run, b: seq<Run>)
      requires Hole(a, r.pages, b) && !r.Idle? && Ends(entries[..], header, bias + Pages(a), r)
      ensures LaidOn(bias, Among(a, r, b), entries.Length) && Apart(Among(a, r, b))
      ensures Tallied() == TallyOf(Among(a, r, b), bias)
    {
      AroundLaid(entries[..], header, bias, a, r, b, entries.Length);
      AroundApart(a, r, b);
      BusyKind(a, r, b, bias);
    }

    // ----- Page map entries -----

    method UnallocatedSet(i: nat, size: nat, dirty: bool, unzeroed: bool)
      requires i < entries.Length
      modifies entries
      ensures entries[..] == old(entries[..])[i := Bits(false, false, dirty, unzeroed, size)]
    {
      entries[i] := Bits(false, false, dirty, unzeroed, size);
    }

    method LargeSet(i: nat, size: nat, dirty: bool)
      requires i < entries.Length
      modifies entries
      ensures entries[..] == old(entries[..])[i := Bits(true, true, dirty, old(entries[i].unzeroed), size)]
    {
      entries[i] := Bits(true, true, dirty, entries[i].unzeroed, size);
    }

    /** The same as Hole, of another page map. */
    ghost predicate HoleOn(m: seq<Bits>, a: seq<Run>, x: nat, b: seq<Run>)
      reads this`header, this`nrunsAvail, this`nrunsAdjac, this`ndirty, this`avail, this`spare
    {
      var w := bias + Pages(a);
      && 0 < bias < |m| && x > 0 && w + x <= |m| && !spare
      && Laid(m, header, bias, a, w) && Laid(m, header, w + x, b, |m|) && Apart(a) && Apart(b)
      && Tallied() == TallyOf(Among(a, Large(x, false), b), bias)
    }

    /** Entries of a hole may change. */
    lemma HoleStays(m: seq<Bits>, a: seq<Run>, x: nat, b: seq<Run>)
      requires HoleOn(m, a, x, b) && |m| == entries.Length
      requires forall i :: 0 <= i < |m| && !(bias + Pages(a) <= i < bias + Pages(a) + x) ==> entries[i] == m[i]
      ensures Hole(a, x, b)
    {
      LaidFrame(m, header, entries[..], header, bias, a, bias + Pages(a));
      LaidFrame(m, header, entries[..], header, bias + Pages(a) + x, b, entries.Length);
    }

    /** Gives out the first pages of an idle run; what is left stays idle. */
    method SplitRemove(w: nat, need: nat, ghost a: seq<Run>, ghost t: nat, ghost d: bool, ghost b: seq<Run>, ghost c: seq<Run>)
      requires Here(a, Idle(t, d), b, w) && 0 < need <= t && c == WithRest(t - need, d, b)
      modifies this`nrunsAvail, this`nrunsAdjac, this`ndirty, this`avail, this`nactive, entries
      ensures Hole(a, need, c) && nactive == old(nactive) + need
      ensures forall i :: 0 <= i < w + need ==> entries[i] == old(entries[i])
    {
      hide *;
      RemoveReady(a, t, need, d, b, c, w);
      var total, flagDirty := entries[w].size, entries[w].dirty;
      assert entries[w + total - 1].dirty == flagDirty;
      TakeRun(w, total, a, d, b);
      nactive := nactive + need;
      if total > need {
        Leave(w, need, total, a, d, b, c, flagDirty);
      }
    }

    lemma RemoveReady(a: seq<Run>, t: nat, need: nat, d: bool, b: seq<Run>, c: seq<Run>, w: nat)
      requires Here(a, Idle(t, d), b, w) && 0 < need <= t && c == WithRest(t - need, d, b)
      ensures w + t <= entries.Length && w == bias + Pages(a)
      ensures entries[w].size == t && entries[w].dirty == d && entries[w + t - 1].dirty == d
      ensures if t == need then c == b else c == Cons(Idle(t - need, d), b) && MayJoin([Idle(t - need, d)], b)
    {
      OpenRun(a, Idle(t, d), b, w);
      RestIs(t, t - need, d, b, c);
    }

    lemma RestIs(t: nat, n: nat, d: bool, b: seq<Run>, c: seq<Run>)
      requires MayJoin([Idle(t, d)], b) && c == WithRest(n, d, b)
      ensures if n == 0 then c == b else c == Cons(Idle(n, d), b) && MayJoin([Idle(n, d)], b)
    {
    }

    lemma SameHole(a: seq<Run>, x: nat, b: seq<Run>)
      requires Hole(a, x, b)
      ensures bias + Pages(a) + x <= entries.Length
    {
    }

    /** Takes an idle run out of the index, leaving a hole. */
    method TakeRun(w: nat, total: nat, ghost a: seq<Run>, ghost d: bool, ghost b: seq<Run>)
      requires Here(a, Idle(total, d), b, w)
      modifies this`nrunsAvail, this`nrunsAdjac, this`ndirty, this`avail
      ensures Hole(a, total, b)
    {
      OpenRun(a, Idle(total, d), b, w);
      assert Between(a, total, b, true, true);
      hide Ends, Positive, MayJoin, TallyOf;
      AvailRemove(w, total, true, true, a, d, b);
    }

    /** Marks both ends of n pages as an idle run; a clean one keeps what is known about zero pages. */
    method MarkIdle(at: nat, n: nat, dirty: bool)
      requires n > 0 && at + n <= entries.Length
      modifies entries
      ensures Ends(entries[..], header, at, Idle(n, dirty))
      ensures forall i :: 0 <= i < entries.Length && i != at && i != at + n - 1 ==> entries[i] == old(entries[i])
    {
      if dirty {
        UnallocatedSet(at, n, true, false);
        UnallocatedSet(at + n - 1, n, true, false);
      } else {
        UnallocatedSet(at, n, false, entries[at].unzeroed);
        UnallocatedSet(at + n - 1, n, false, entries[at + n - 1].unzeroed);
      }
    }

    /** Marks the tail of a hole as an idle run and indexes it. */
    method Leave(w: nat, need: nat, total: nat, ghost a: seq<Run>, ghost d: bool, ghost b: seq<Run>,
                 ghost c: seq<Run>, dirty: bool)
      requires Hole(a, total, b) && w == bias + Pages(a) && w + total <= entries.Length && 0 < need < total && dirty == d
      requires MayJoin([Idle(total - need, d)], b) && c == Cons(Idle(total - need, d), b)
      modifies this`nrunsAvail, this`nrunsAdjac, this`ndirty, this`avail, entries
      ensures Hole(a, need, c)
      ensures forall i :: 0 <= i < w + need ==> entries[i] == old(entries[i])
    {
      var rem := total - need;
      ghost var m := entries[..];
      MarkIdle(w + need, rem, dirty);
      HoleStays(m, a, total, b);
      ghost var r := Idle(rem, d);
      LeaveReady(a, need, r, b, w);
      hide Hole, HoleOn, Ends;
      AvailInsert(w + need, rem, false, true, Snoc(a, Large(need, false)), d, b);
      LeaveDone(a, need, r, b, w);
    }

    lemma LeaveReady(a: seq<Run>, need: nat, r: Run, b: seq<Run>, w: nat)
      requires Hole(a, need + r.pages, b) && w == bias + Pages(a) && r.Idle? && need > 0 && r.pages > 0
      ensures w + need == bias + Pages(Snoc(a, Large(need, false)))
      ensures Between(Snoc(a, Large(need, false)), r.pages, b, false, true)
      ensures Tallied() == TallyOf(Among(Snoc(a, Large(need, false)), Large(r.pages, false), b), bias)
      ensures MayJoin(Snoc(a, Large(need, false)), [r])
      ensures LaidOn(bias, a, w) && LaidOn(w + need + r.pages, b, entries.Length) && Apart(a) && Apart(b)
      ensures w + need + r.pages <= entries.Length && 0 < bias && !spare
    {
      BusyMerge(a, need, r.pages, false, b, bias);
      ConcatSums(a, [Large(need, false)]);
      LaidPositive(entries[..], header, bias, a, w);
      LaidPositive(entries[..], header, w + need + r.pages, b, entries.Length);
    }

    lemma LeaveDone(a: seq<Run>, need: nat, r: Run, b: seq<Run>, w: nat)
      requires w == bias + Pages(a) && r.Idle? && need > 0 && MayJoin([r], b) && Ends(entries[..], header, w + need, r)
      requires LaidOn(bias, a, w) && LaidOn(w + need + r.pages, b, entries.Length) && Apart(a) && Apart(b)
      requires w + need + r.pages <= entries.Length && 0 < bias && !spare
      requires Tallied() == TallyOf(Among(Snoc(a, Large(need, false)), r, b), bias)
      ensures Hole(a, need, Cons(r, b))
    {
      AmongShift(a, Large(need, false), r, b);
      assert Cons(r, b)[1..] == b && Cons(r, b)[0] == r;
      ConcatApart([r], b);
    }

    /** Marks a hole as a large run. */
    method FillLarge(w: nat, need: nat, dirty: bool, ghost a: seq<Run>, ghost b: seq<Run>)
      requires Hole(a, need, b) && w == bias + Pages(a) && w + need <= entries.Length
      requires nactive == Nactive(a) + need + Nactive(b)
      modifies entries, this`runs
      ensures Valid() && runs == Among(a, Large(need, dirty), b)
    {
      ghost var m := entries[..];
      LargeSet(w + need - 1, 0, dirty);
      LargeSet(w, need, dirty);
      HoleStays(m, a, need, b);
      runs := Among(a, Large(need, dirty), b);
      FillHole(a, Large(need, dirty), b);
      AroundCounts(a, Large(need, dirty), b);
      hide TallyOf, LaidOn, Apart, Pages, Nactive;
    }

    lemma ActiveAround(a: seq<Run>, r: Run, b: seq<Run>, w: nat)
      requires Here(a, r, b, w)
      ensures nactive == Nactive(a) + (if r.Idle? then 0 else r.pages) + Nactive(b)
    {
      AroundCounts(a, r, b);
    }

    lemma ActiveRest(n: nat, d: bool, b: seq<Run>)
      ensures Nactive(WithRest(n, d, b)) == Nactive(b)
    {
      ConcatSums(Rest(n, d), b);
    }

    /** The idle run at w with what lies around it. */
    lemma Locate(w: nat) returns (a: seq<Run>, t: nat, d: bool, b: seq<Run>)
      requires Valid() && !spare && w in avail
      ensures Here(a, Idle(t, d), b, w) && w < entries.Length && t == entries[w].size && d == entries[w].dirty
    {
      var i := FindAvail(runs, bias, w);
      a, t, d, b := runs[..i], runs[i].pages, runs[i].dirty, runs[i + 1..];
      OpenRun(a, runs[i], b, w);
    }

    /** Gives out the first pages of the idle run at w as a large run. */
    method RunSplitLarge(w: nat, need: nat) returns (ghost a: seq<Run>, ghost t: nat, ghost d: bool, ghost b: seq<Run>)
      requires Valid() && !spare && w in avail && w < entries.Length && 0 < need <= entries[w].size
      modifies this`nrunsAvail, this`nrunsAdjac, this`ndirty, this`avail, this`nactive, this`runs, entries
      ensures Valid() && w == bias + Pages(a) && t == old(entries[w].size) && d == old(entries[w].dirty)
      ensures old(runs) == Among(a, Idle(t, d), b) && runs == Among(a, Large(need, d), WithRest(t - need, d, b))
      ensures nactive == old(nactive) + need && Gains(old(runs), runs, bias, Block(w, need, true))
    {
      a, t, d, b := Locate(w);
      SplitLargeAt(w, need, a, t, d, b);
    }

    method SplitLargeAt(w: nat, need: nat, ghost a: seq<Run>, ghost t: nat, ghost d: bool, ghost b: seq<Run>)
      requires Here(a, Idle(t, d), b, w) && 0 < need <= t
      modifies this`nrunsAvail, this`nrunsAdjac, this`ndirty, this`avail, this`nactive, this`runs, entries
      ensures Valid() && runs == Among(a, Large(need, d), WithRest(t - need, d, b))
      ensures nactive == old(nactive) + need && Gains(old(runs), runs, bias, Block(w, need, true))
    {
      hide *;
      SplitReady(a, t, Large(need, d), d, b, w);
      var dirty := entries[w].dirty;
      ghost var c := WithRest(t - need, d, b);
      SplitRemove(w, need, a, t, d, b, c);
      SameHole(a, need, c);
      FillLarge(w, need, dirty, a, c);
    }

    lemma SplitReady(a: seq<Run>, t: nat, r: Run, d: bool, b: seq<Run>, w: nat)
      requires Here(a, Idle(t, d), b, w) && 0 < r.pages <= t && !r.Idle?
      ensures w < entries.Length && entries[w].dirty == d && w == bias + Pages(a) && runs == Among(a, Idle(t, d), b)
      ensures nactive == Nactive(a) + Nactive(WithRest(t - r.pages, d, b))
      ensures Gains(runs, Among(a, r, WithRest(t - r.pages, d, b)), bias, Block(w, r.pages, r.Large?))
    {
      hide Gains, Nactive, Busy, WithRest, TallyOf, Laid, Apart, Positive, MayJoin, Among, Pages, LaidOn, Valid;
      OpenRun(a, Idle(t, d), b, w);
      ActiveAround(a, Idle(t, d), b, w);
      ActiveRest(t - r.pages, d, b);
      SplitBusy(a, t, r, d, b, bias);
    }

    method SmallSet(i: nat, runind: nat, dirty: bool)
      requires i < entries.Length
      modifies entries
      ensures entries[..] == old(entries[..])[i := Bits(true, false, dirty, old(entries[i].unzeroed), runind)]
    {
      entries[i] := Bits(true, false, dirty, entries[i].unzeroed, runind);
    }

    /** Gives out the first pages of the idle run at w as a small run. */
    method RunSplitSmall(w: nat, need: nat) returns (ghost a: seq<Run>, ghost t: nat, ghost d: bool, ghost b: seq<Run>)
      requires Valid() && !spare && w in avail && w < entries.Length && 0 < need <= entries[w].size
      modifies this`nrunsAvail, this`nrunsAdjac, this`ndirty, this`avail, this`nactive, this`runs, this`header, entries
      ensures Valid() && w == bias + Pages(a) && t == old(entries[w].size) && d == old(entries[w].dirty)
      ensures old(runs) == Among(a, Idle(t, d), b) && runs == Among(a, Small(need, d), WithRest(t - need, d, b))
      ensures nactive == old(nactive) + need && Gains(old(runs), runs, bias, Block(w, need, false))
    {
      hide *;
      a, t, d, b := Locate(w);
      SplitReady(a, t, Small(need, d), d, b, w);
      var dirty := entries[w].dirty;
      ghost var c := WithRest(t - need, d, b);
      SplitRemove(w, need, a, t, d, b, c);
      SameHole(a, need, c);
      FillSmall(w, need, dirty, a, c);
    }

    /** Marks a hole as a small run and writes the run's header. */
    method FillSmall(w: nat, need: nat, dirty: bool, ghost a: seq<Run>, ghost b: seq<Run>)
      requires Hole(a, need, b) && w == bias + Pages(a) && w + need <= entries.Length
      requires nactive == Nactive(a) + need + Nactive(b)
      modifies entries, this`runs, this`header
      ensures Valid() && runs == Among(a, Small(need, dirty), b)
    {
      ghost var m, h := entries[..], header;
      SmallBits(w, need, dirty);
      header := header[w := need];
      runs := Among(a, Small(need, dirty), b);
      SmallDone(m, h, a, need, dirty, b, w);
    }

    lemma SmallDone(m: seq<Bits>, h: Headers, a: seq<Run>, need: nat, dirty: bool, b: seq<Run>, w: nat)
      requires 0 < bias && w == bias + Pages(a) && need > 0 && w + need <= |m| == entries.Length && !spare
      requires Laid(m, h, bias, a, w) && Laid(m, h, w + need, b, |m|) && Apart(a) && Apart(b)
      requires Tallied() == TallyOf(Among(a, Large(need, false), b), bias)
      requires forall i :: 0 <= i < |m| && !(w <= i < w + need) ==> entries[i] == m[i]
      requires header == h[w := need] && Ends(entries[..], header, w, Small(need, dirty))
      requires runs == Among(a, Small(need, dirty), b) && nactive == Nactive(a) + need + Nactive(b)
      ensures Valid()
    {
      HoleWithHeader(m, h, a, need, b, w);
      AroundCounts(a, Small(need, dirty), b);
      hide TallyOf, Laid, Apart, Pages, Nactive, Hole, Ends, Among;
      FillHole(a, Small(need, dirty), b);
    }

    /** A hole's own entries and header may change. */
    lemma HoleWithHeader(m: seq<Bits>, h: Headers, a: seq<Run>, need: nat, b: seq<Run>, w: nat)
      requires 0 < bias && w == bias + Pages(a) && need > 0 && w + need <= |m| == entries.Length && !spare
      requires Laid(m, h, bias, a, w) && Laid(m, h, w + need, b, |m|) && Apart(a) && Apart(b)
      requires Tallied() == TallyOf(Among(a, Large(need, false), b), bias)
      requires forall i :: 0 <= i < |m| && !(w <= i < w + need) ==> entries[i] == m[i]
      requires forall i :: i != w && i in h ==> i in header && header[i] == h[i]
      ensures Hole(a, need, b)
    {
      hide TallyOf, Laid, Apart, Pages, Among;
      LaidFrame(m, h, entries[..], header, bias, a, w);
      LaidFrame(m, h, entries[..], header, w + need, b, entries.Length);
    }

    method SmallBits(w: nat, need: nat, dirty: bool)
      requires 0 < need && w + need <= entries.Length
      modifies entries
      ensures CountUp(entries[..], w, need) && entries[w].dirty == entries[w + need - 1].dirty == dirty
      ensures forall i :: w < i < w + need - 1 ==> !entries[i].dirty
      ensures forall i :: 0 <= i < entries.Length && !(w <= i < w + need) ==> entries[i] == old(entries[i])
    {
      SmallSet(w, 0, dirty);
      for i := 1 to (if need > 1 then need - 1 else 1)
        invariant CountUp(entries[..], w, i) && entries[w].dirty == dirty && forall j :: w < j < w + i ==> !entries[j].dirty
        invariant forall j :: 0 <= j < entries.Length && !(w <= j < w + need) ==> entries[j] == old(entries[j])
      {
        SmallSet(w + i, i, false);
      }
      SmallSet(w + need - 1, need - 1, dirty);
    }

    /** A split adds one run in use. */
    lemma SplitBusy(a: seq<Run>, t: nat, r: Run, d: bool, b: seq<Run>, s: nat)
      requires 0 < r.pages <= t && !r.Idle? && Positive(a) && Positive(b)
      ensures Gains(Among(a, Idle(t, d), b), Among(a, r, WithRest(t - r.pages, d, b)), s, Block(s + Pages(a), r.pages, r.Large?))
    {
      hide *;
      var c, w := WithRest(t - r.pages, d, b), s + Pages(a);
      RestBusy(t - r.pages, d, b, w + r.pages);
      AroundSets(a, r, c, s);
      AroundSets(a, Idle(t, d), b, s);
      BusyWithin(a, s);
      BusyWithin(b, w + t);
      assert Busy(c, w + r.pages) == Busy(b, w + t);
      var before, after := Busy(a, s), Busy(b, w + t);
      assert Busy(Among(a, Idle(t, d), b), s) == before + after;
      assert Busy(Among(a, r, c), s) == before + {Block(w, r.pages, r.Large?)} + after;
      Added(before, after, Block(w, r.pages, r.Large?));
      GainsIs(Among(a, Idle(t, d), b), Among(a, r, c), s, Block(w, r.pages, r.Large?));
    }

    lemma Added(before: set<Block>, after: set<Block>, t: Block)
      ensures before + {t} + after == before + after + {t}
    {
    }

    lemma GainsIs(rs: seq<Run>, new_: seq<Run>, s: nat, t: Block)
      requires t !in Busy(rs, s) && Busy(new_, s) == Busy(rs, s) + {t}
      ensures Gains(rs, new_, s, t)
    {
    }

    lemma RestBusy(n: nat, d: bool, b: seq<Run>, s: nat)
      ensures Busy(WithRest(n, d, b), s) == Busy(b, s + n)
    {
      if n == 0 {
        assert WithRest(n, d, b) == b;
      } else {
        assert WithRest(n, d, b)[1..] == b;
      }
    }

    // ----- Freeing and joining -----

    method SizeSet(i: nat, size: nat)
      requires i < entries.Length
      modifies entries
      ensures entries[..] == old(entries[..])[i := old(entries[i]).(size := size)]
    {
      entries[i] := entries[i].(size := size);
    }

    /** Gives both ends of y idle pages their joint size. */
    method Resize(v: nat, y: nat, ghost d: bool)
      requires y > 0 && v + y <= entries.Length && !entries[v].used && !entries[v + y - 1].used
      requires entries[v].dirty == entries[v + y - 1].dirty == d && !entries[v].large && !entries[v + y - 1].large
      modifies entries
      ensures Ends(entries[..], header, v, Idle(y, d))
      ensures forall i :: 0 <= i < entries.Length && !(v <= i < v + y) ==> entries[i] == old(entries[i])
    {
      SizeSet(v, y);
      SizeSet(v + y - 1, y);
    }

    /** The entry behind a hole tells whether the run there can be joined. */
    lemma NextTells(a: seq<Run>, x: nat, b: seq<Run>, d: bool, w: nat)
      requires Hole(a, x, b) && w == bias + Pages(a)
      ensures w + x <= entries.Length
      ensures JoinsNext(d, b) <==> w + x < entries.Length && !entries[w + x].used && entries[w + x].dirty == d
      ensures !JoinsNext(d, b) ==> MayJoin([Idle(x, d)], b)
    {
      LaidSize(entries[..], header, w + x, b, entries.Length);
    }

    lemma NextReady(a: seq<Run>, x: nat, b: seq<Run>, d: bool, w: nat)
      requires Hole(a, x, b) && w == bias + Pages(a) && JoinsNext(d, b)
      ensures b != [] && 0 < bias && !spare
      ensures var n, c := b[0].pages, b[1..];
              && b[0] == Idle(n, d) && n > 0 && w + x + n <= entries.Length && Ends(entries[..], header, w + x, Idle(n, d))
              && entries[w + x].size == n
              && w + x == bias + Pages(Snoc(a, Large(x, false))) && Between(Snoc(a, Large(x, false)), n, c, false, true)
              && MayJoin(Snoc(a, Large(x, false)), [Idle(n, d)]) && MayJoin([Idle(n, d)], c)
              && Tallied() == TallyOf(Among(Snoc(a, Large(x, false)), Idle(n, d), c), bias)
              && LaidOn(bias, a, w) && LaidOn(w + x + n, c, entries.Length) && Apart(a) && Apart(c)
    {
      hide TallyOf, Apart, Nactive, Navail, Nadjac, Ndirty, CountUp;
      var n, c := b[0].pages, b[1..];
      assert b == Cons(Idle(n, d), c);
      AmongShift(a, Large(x, false), Idle(n, d), c);
      ConcatSums(a, [Large(x, false)]);
      LaidPositive(entries[..], header, bias, a, w);
      LaidPositive(entries[..], header, w + x, b, entries.Length);
      ConcatApart([Idle(n, d)], c);
    }

    lemma NextJoined(m: seq<Bits>, a: seq<Run>, x: nat, n: nat, c: seq<Run>, w: nat)
      requires x > 0 && n > 0 && 0 < bias && w == bias + Pages(a) && w + x + n <= |m| == entries.Length && !spare
      requires Laid(m, header, bias, a, w) && Laid(m, header, w + x + n, c, |m|) && Apart(a) && Apart(c)
      requires Tallied() == TallyOf(Among(Snoc(a, Large(x, false)), Large(n, false), c), bias)
      requires forall i :: 0 <= i < |m| && !(w <= i < w + x + n) ==> entries[i] == m[i]
      ensures Hole(a, x + n, c)
    {
      BusyMerge(a, x, n, false, c, bias);
      hide TallyOf, Laid, Apart, Pages;
      HoleStays(m, a, x + n, c);
    }

    lemma IdleEnds(s: nat, n: nat, d: bool)
      requires Ends(entries[..], header, s, Idle(n, d))
      ensures 0 < n && s + n <= entries.Length && entries[s].size == n
      ensures !entries[s].used && !entries[s + n - 1].used && entries[s].dirty == entries[s + n - 1].dirty == d
      ensures !entries[s].large && !entries[s + n - 1].large
    {
    }

    /** Joins a hole whose ends are marked idle with an equally dirty idle run behind it. */
    method CoalesceForward(w: nat, x: nat, d: bool, ghost a: seq<Run>, ghost b: seq<Run>) returns (y: nat, ghost c: seq<Run>)
      requires Hole(a, x, b) && w == bias + Pages(a) && Ends(entries[..], header, w, Idle(x, d))
      modifies this`nrunsAvail, this`nrunsAdjac, this`ndirty, this`avail, entries
      ensures Hole(a, y, c) && Ends(entries[..], header, w, Idle(y, d)) && MayJoin([Idle(y, d)], c)
      ensures if JoinsNext(d, b) then y == x + b[0].pages && c == b[1..] else y == x && c == b
    {
      hide Hole, Between, MayJoin, Apart, TallyOf, Ends, Pages, Laid, Positive, JoinsNext, Among, Snoc, Cons;
      NextTells(a, x, b, d, w);
      IdleEnds(w, x, d);
      y, c := x, b;
      if w + x < entries.Length && !entries[w + x].used && entries[w + x].dirty == d {
        NextReady(a, x, b, d, w);
        ghost var m := entries[..];
        var n := entries[w + x].size;
        IdleEnds(w + x, n, d);
        SameJoin(n, x + n, d, b[1..]);
        c := b[1..];
        AvailRemove(w + x, n, false, true, Snoc(a, Large(x, false)), d, c);
        y := x + n;
        Resize(w, y, d);
        NextJoined(m, a, x, n, c, w);
      }
    }

    /** The entry before a hole tells whether the run there can be joined. */
    lemma PrevTells(a: seq<Run>, x: nat, b: seq<Run>, d: bool, w: nat)
      requires Hole(a, x, b) && w == bias + Pages(a)
      ensures 0 < w <= entries.Length
      ensures JoinsPrev(a, d) <==> w > bias && !entries[w - 1].used && entries[w - 1].dirty == d
      ensures !JoinsPrev(a, d) ==> MayJoin(a, [Idle(x, d)])
    {
      LaidSize(entries[..], header, bias, a, w);
      if a != [] {
        LastEntry(entries[..], header, bias, a, w);
      }
    }

    lemma PrevReady(a: seq<Run>, x: nat, b: seq<Run>, d: bool, w: nat)
      requires Hole(a, x, b) && w == bias + Pages(a) && JoinsPrev(a, d)
      ensures a != [] && 0 < bias && !spare
      ensures var p, c := a[|a| - 1].pages, a[..|a| - 1];
              && a[|a| - 1] == Idle(p, d) && 0 < p <= w && w + x <= entries.Length && Ends(entries[..], header, w - p, Idle(p, d))
              && entries[w - 1].size == p
              && w - p == bias + Pages(c) && Between(c, p, Cons(Large(x, false), b), true, false)
              && MayJoin(c, [Idle(p, d)]) && MayJoin([Idle(p, d)], Cons(Large(x, false), b))
              && Tallied() == TallyOf(Among(c, Idle(p, d), Cons(Large(x, false), b)), bias)
              && LaidOn(bias, c, w - p) && LaidOn(w + x, b, entries.Length) && Apart(c) && Apart(b)
    {
      hide TallyOf, Apart, Laid, Nactive, Navail, Nadjac, Ndirty, CountUp;
      var p, c := a[|a| - 1].pages, a[..|a| - 1];
      LastOf(a, p, d, Large(x, false), b);
      LastEntry(entries[..], header, bias, a, w);
      ConcatSums(c, [Idle(p, d)]);
      LaidPositive(entries[..], header, bias, c, w - p);
      LaidPositive(entries[..], header, w + x, b, entries.Length);
      ConcatApart(c, [Idle(p, d)]);
    }

    lemma PrevJoined(m: seq<Bits>, c: seq<Run>, p: nat, x: nat, b: seq<Run>, v: nat)
      requires x > 0 && p > 0 && 0 < bias && v == bias + Pages(c) && v + p + x <= |m| == entries.Length && !spare
      requires Laid(m, header, bias, c, v) && Laid(m, header, v + p + x, b, |m|) && Apart(c) && Apart(b)
      requires Tallied() == TallyOf(Among(c, Large(p, false), Cons(Large(x, false), b)), bias)
      requires forall i :: 0 <= i < |m| && !(v <= i < v + p + x) ==> entries[i] == m[i]
      ensures Hole(c, p + x, b)
    {
      BusyMerge(c, p, x, false, b, bias);
      hide TallyOf, Laid, Apart, Pages;
      HoleStays(m, c, p + x, b);
    }

    /** Joins it with an equally dirty idle run before it. */
    method CoalesceBackward(w: nat, x: nat, d: bool, ghost a: seq<Run>, ghost b: seq<Run>) returns (v: nat, y: nat, ghost c: seq<Run>)
      requires Hole(a, x, b) && w == bias + Pages(a) && Ends(entries[..], header, w, Idle(x, d))
      modifies this`nrunsAvail, this`nrunsAdjac, this`ndirty, this`avail, entries
      ensures Hole(c, y, b) && v == bias + Pages(c) && Ends(entries[..], header, v, Idle(y, d)) && MayJoin(c, [Idle(y, d)])
      ensures if JoinsPrev(a, d) then y == a[|a| - 1].pages + x && c == a[..|a| - 1] else y == x && c == a
    {
      hide Hole, Between, MayJoin, Apart, TallyOf, Ends, Pages, Laid, Positive, JoinsPrev, Among, Snoc, Cons;
      PrevTells(a, x, b, d, w);
      IdleEnds(w, x, d);
      v, y, c := w, x, a;
      if w > bias && !entries[w - 1].used && entries[w - 1].dirty == d {
        PrevReady(a, x, b, d, w);
        ghost var m := entries[..];
        var p := entries[w - 1].size;
        c := a[..|a| - 1];
        v := w - p;
        IdleEnds(v, p, d);
        JoinAnySize(c, p, p + x, d);
        AvailRemove(v, p, true, false, c, d, Cons(Large(x, false), b));
        y := p + x;
        Resize(v, y, d);
        PrevJoined(m, c, p, x, b, v);
      }
    }

    /** Indexes a hole whose ends are marked idle and that joins neither neighbour. */
    method InsertRun(v: nat, y: nat, d: bool, ghost c: seq<Run>, ghost e: seq<Run>)
      requires Hole(c, y, e) && v == bias + Pages(c) && Ends(entries[..], header, v, Idle(y, d))
      requires MayJoin(c, [Idle(y, d)]) && MayJoin([Idle(y, d)], e) && nactive == Nactive(c) + Nactive(e)
      modifies this`nrunsAvail, this`nrunsAdjac, this`ndirty, this`avail, this`runs
      ensures Valid() && !spare && runs == Among(c, Idle(y, d), e)
    {
      hide *;
      InsertReady(v, y, d, c, e);
      AvailInsert(v, y, true, true, c, d, e);
      runs := Among(c, Idle(y, d), e);
      InsertDone();
    }

    lemma InsertReady(v: nat, y: nat, d: bool, c: seq<Run>, e: seq<Run>)
      requires Hole(c, y, e) && v == bias + Pages(c) && Ends(entries[..], header, v, Idle(y, d))
      requires MayJoin(c, [Idle(y, d)]) && MayJoin([Idle(y, d)], e) && nactive == Nactive(c) + Nactive(e)
      ensures Between(c, y, e, true, true) && 0 < bias && v < entries.Length && !spare
      ensures !entries[v].used && entries[v].size == y && entries[v].dirty == d
      ensures Tallied() == TallyOf(Among(c, Large(y, false), e), bias)
      ensures var rs := Among(c, Idle(y, d), e);
              LaidOn(bias, rs, entries.Length) && Apart(rs) && nactive == Nactive(rs)
    {
      hide *;
      HoleParts(c, y, e);
      IdleEnds(v, y, d);
      InsertBetween(v, y, c, e);
      InsertLaid(v, y, d, c, e);
      TalliesOf(c, y, e);
      AroundCounts(c, Idle(y, d), e);
    }

    lemma TalliesOf(c: seq<Run>, y: nat, e: seq<Run>)
      requires Hole(c, y, e)
      ensures Tallied() == TallyOf(Among(c, Large(y, false), e), bias)
    {
    }

    lemma InsertBetween(v: nat, y: nat, c: seq<Run>, e: seq<Run>)
      requires 0 < bias && y > 0 && v == bias + Pages(c) && v + y <= entries.Length
      requires LaidOn(bias, c, v) && LaidOn(v + y, e, entries.Length)
      ensures Between(c, y, e, true, true)
    {
      hide Laid, Pages, Positive;
      LaidPositive(entries[..], header, bias, c, v);
      LaidPositive(entries[..], header, v + y, e, entries.Length);
    }

    lemma InsertLaid(v: nat, y: nat, d: bool, c: seq<Run>, e: seq<Run>)
      requires v == bias + Pages(c) && Ends(entries[..], header, v, Idle(y, d)) && v + y <= entries.Length
      requires LaidOn(bias, c, v) && LaidOn(v + y, e, entries.Length) && Apart(c) && Apart(e)
      requires MayJoin(c, [Idle(y, d)]) && MayJoin([Idle(y, d)], e)
      ensures LaidOn(bias, Among(c, Idle(y, d), e), entries.Length) && Apart(Among(c, Idle(y, d), e))
    {
      hide Laid, Pages, Ends, Apart, MayJoin, Among;
      AroundLaid(entries[..], header, bias, c, Idle(y, d), e, entries.Length);
      AroundApart(c, Idle(y, d), e);
    }

    lemma HoleParts(c: seq<Run>, y: nat, e: seq<Run>)
      requires Hole(c, y, e)
      ensures var v := bias + Pages(c);
              && 0 < bias < entries.Length && y > 0 && v + y <= entries.Length && !spare
              && LaidOn(bias, c, v) && LaidOn(v + y, e, entries.Length) && Apart(c) && Apart(e)
    {
    }

    lemma InsertDone()
      requires 0 < bias < entries.Length && !spare && LaidOn(bias, runs, entries.Length) && Apart(runs)
      requires nactive == Nactive(runs) && Tallied() == TallyOf(runs, bias)
      ensures Valid()
    {
    }

    /** Retires a chunk that is one idle run: it becomes the spare and leaves the index. */
    method ChunkDalloc()
      requires Valid() && !spare && |runs| == 1 && runs[0].Idle?
      modifies this`nrunsAvail, this`nrunsAdjac, this`ndirty, this`avail, this`spare
      ensures Valid() && spare
    {
      ghost var d, n := runs[0].dirty, entries.Length - bias;
      LoneRun(d);
      LoneBusy(n, bias);
      AvailRemove(bias, entries.Length - bias, false, false, [], d, []);
      spare := true;
    }

    lemma LoneRun(d: bool)
      requires Tiled() && |runs| == 1 && runs[0].Idle? && d == runs[0].dirty
      ensures runs == [Idle(entries.Length - bias, d)] && Among([], Idle(entries.Length - bias, d), []) == runs
      ensures Between([], entries.Length - bias, [], false, false)
      ensures Ends(entries[..], header, bias, runs[0])
    {
      LaidSize(entries[..], header, bias, runs, entries.Length);
    }

    /** Takes a retired chunk back into use. */
    method ChunkAlloc()
      requires Valid() && spare
      modifies this`nrunsAvail, this`nrunsAdjac, this`ndirty, this`avail, this`spare
      ensures Valid() && !spare
    {
      ghost var d, n := runs[0].dirty, entries.Length - bias;
      LoneRun(d);
      LoneBusy(n, bias);
      AvailInsert(bias, entries.Length - bias, false, false, [], d, []);
      spare := false;
    }

    /** The busy run of this block with what lies around it. */
    lemma LocateBusy(t: Block) returns (a: seq<Run>, r: Run, b: seq<Run>)
      requires Valid() && !spare && t in Busy(runs, bias)
      ensures Here(a, r, b, t.start) && !r.Idle? && r.pages == t.pages && r.Large? == t.large && Ends(entries[..], header, t.start, r)
      ensures 0 < t.pages && t.start + t.pages <= entries.Length
    {
      var i := FindBusy(runs, bias, t);
      a, r, b := runs[..i], runs[i], runs[i + 1..];
      OpenRun(a, r, b, t.start);
    }

    /** The page count of the run in use at w. */
    method RunPages(w: nat, ghost r: Run) returns (n: nat)
      requires w < entries.Length && Ends(entries[..], header, w, r) && !r.Idle?
      ensures n == r.pages
    {
      if entries[w].large {
        n := entries[w].size;
        assert n == 1 || entries[w + n - 1].size == 0;
      } else {
        n := header[w];
      }
    }

    /** Turns a hole into an idle run, joined with its neighbours; tells how long the run has become. */
    method FreeHole(w: nat, x: nat, d: bool, ghost a: seq<Run>, ghost b: seq<Run>) returns (size: nat)
      requires Hole(a, x, b) && w == bias + Pages(a) && w + x <= entries.Length && nactive == Nactive(a) + Nactive(b)
      modifies this`nrunsAvail, this`nrunsAdjac, this`ndirty, this`avail, this`runs, entries
      ensures Valid() && !spare && runs == Freed(a, x, d, b)
      ensures size == entries.Length - bias <==> |runs| == 1 && runs[0].Idle?
    {
      ghost var m := entries[..];
      MarkIdle(w, x, d);
      HoleStays(m, a, x, b);
      FreedActive(a, x, d, b);
      hide Hole, HoleOn, Ends, Nactive, Pages, Freed, Valid;
      ghost var c, e;
      var v, y;
      y, c := CoalesceForward(w, x, d, a, b);
      v, size, e := CoalesceBackward(w, y, d, a, c);
      SameJoin(y, size, d, c);
      FreedIs(a, x, d, b, e, size, c);
      InsertRun(v, size, d, e, c);
      WholeIff(e, size, d, c);
    }

    lemma WholeIff(e: seq<Run>, n: nat, d: bool, c: seq<Run>)
      requires Valid() && !spare && runs == Among(e, Idle(n, d), c)
      ensures n == entries.Length - bias <==> |runs| == 1 && runs[0].Idle?
    {
      OpenRun(e, Idle(n, d), c, bias + Pages(e));
      LaidSize(entries[..], header, bias, e, bias + Pages(e));
      LaidSize(entries[..], header, bias + Pages(e) + n, c, entries.Length);
      if e == [] && c == [] {
        assert runs == [Idle(n, d)];
      }
    }

    lemma JoinAnySize(c: seq<Run>, p: nat, y: nat, d: bool)
      requires MayJoin(c, [Idle(p, d)])
      ensures MayJoin(c, [Idle(y, d)])
    {
    }

    lemma SameJoin(y: nat, n: nat, d: bool, c: seq<Run>)
      requires MayJoin([Idle(y, d)], c)
      ensures MayJoin([Idle(n, d)], c)
    {
    }

    /** Frees the run in use at w; a chunk left with one idle run becomes the spare. */
    method RunDalloc(w: nat, ghost x: nat, ghost large: bool, dirty: bool, cleaned: bool) returns (ghost a: seq<Run>, ghost r: Run, ghost b: seq<Run>)
      requires Valid() && !spare && Block(w, x, large) in Busy(runs, bias)
      modifies this`nrunsAvail, this`nrunsAdjac, this`ndirty, this`avail, this`nactive, this`runs, this`spare, entries
      ensures Valid() && old(runs) == Among(a, r, b) && r.pages == x && w == bias + Pages(a) && !r.Idle?
      ensures runs == Freed(a, x, dirty || (!cleaned && r.dirty), b)
      ensures spare <==> |runs| == 1 && runs[0].Idle?
      ensures nactive == old(nactive) - x && Loses(old(runs), runs, bias, Block(w, x, large))
      ensures Ndirty(runs) == Ndirty(old(runs)) + if dirty || (!cleaned && r.dirty) then x else 0
    {
      a, r, b := LocateBusy(Block(w, x, large));
      var pages := RunPages(w, r);
      assert entries[w].dirty == entries[w + pages - 1].dirty == r.dirty;
      var flagDirty := dirty || (!cleaned && entries[w].dirty);
      DallocReady(a, r, b, w, flagDirty);
      hide *;
      nactive := nactive - pages;
      var size := FreeHole(w, pages, flagDirty, a, b);
      if size == entries.Length - bias {
        ChunkDalloc();
      }
    }

    lemma DallocReady(a: seq<Run>, r: Run, b: seq<Run>, w: nat, d: bool)
      requires Here(a, r, b, w) && !r.Idle?
      ensures Hole(a, r.pages, b) && nactive == Nactive(a) + r.pages + Nactive(b)
      ensures Loses(runs, Freed(a, r.pages, d, b), bias, Block(w, r.pages, r.Large?))
      ensures Ndirty(Freed(a, r.pages, d, b)) == Ndirty(runs) + if d then r.pages else 0
    {
      BusyIsHole(a, r, b, w);
      ActiveAround(a, r, b, w);
      OpenRun(a, r, b, w);
      FreedTotals(a, r, d, b, bias);
    }

    // ----- Trimming -----

    /** Cuts a large run in two, both in use. */
    method CutLarge(w: nat, total: nat, head: nat) returns (ghost a: seq<Run>, ghost d: bool, ghost b: seq<Run>)
      requires Valid() && !spare && Block(w, total, true) in Busy(runs, bias)
      requires 0 < head < total
      modifies this`runs, entries
      ensures Valid() && nactive == old(nactive)
      ensures old(runs) == Among(a, Large(total, d), b) && w == bias + Pages(a)
      ensures runs == Among(a, Large(head, d), Cons(Large(total - head, d), b))
      ensures Busy(runs, bias) == Busy(old(runs), bias) - {Block(w, total, true)} + {Block(w, head, true), Block(w + head, total - head, true)}
      ensures Block(w + head, total - head, true) !in Busy(old(runs), bias)
    {
      ghost var r;
      a, r, b := LocateBusy(Block(w, total, true));
      var flagDirty := entries[w].dirty;
      d := flagDirty;
      ghost var m := entries[..];
      CutReady(a, r, b, w, head);
      hide *;
      CutBits(w, total, head, flagDirty);
      runs := Among(a, Large(head, flagDirty), Cons(Large(total - head, flagDirty), b));
      CutDone(m, a, head, total - head, flagDirty, b, w);
    }

    lemma CutReady(a: seq<Run>, r: Run, b: seq<Run>, w: nat, head: nat)
      requires Here(a, r, b, w) && r.Large? && 0 < head < r.pages
      ensures w < entries.Length && HoleOn(entries[..], a, r.pages, b) && nactive == Nactive(a) + r.pages + Nactive(b)
      ensures r == Large(r.pages, entries[w].dirty) && w + r.pages <= entries.Length
      ensures runs == Among(a, r, b) && w == bias + Pages(a)
      ensures entries[w + r.pages - 1].dirty == entries[w].dirty && entries[w + r.pages - 1].used
      ensures entries[w + r.pages - 1].large && entries[w + r.pages - 1].size == 0
      ensures var y := r.pages - head;
              && Busy(Among(a, Large(head, r.dirty), Cons(Large(y, r.dirty), b)), bias)
                 == Busy(runs, bias) - {Block(w, r.pages, r.Large?)} + {Block(w, head, true), Block(w + head, y, true)}
              && Block(w + head, y, true) !in Busy(runs, bias)
    {
      hide Busy, Nactive, TallyOf, Laid, Apart, Pages, MayJoin, Positive, Among;
      BusyIsHole(a, r, b, w);
      ActiveAround(a, r, b, w);
      OpenRun(a, r, b, w);
      CutBusy(a, r, head, b, bias);
    }

    /** Marks the two parts of a large run. */
    method CutBits(w: nat, total: nat, head: nat, dirty: bool)
      requires 0 < head < total && w + total <= entries.Length
      requires var last := entries[w + total - 1]; last.used && last.large && last.size == 0 && last.dirty == dirty
      modifies entries
      ensures Ends(entries[..], header, w, Large(head, dirty)) && Ends(entries[..], header, w + head, Large(total - head, dirty))
      ensures entries[w].large && entries[w + head].large
      ensures forall i :: 0 <= i < entries.Length && !(w <= i < w + total) ==> entries[i] == old(entries[i])
    {
      LargeSet(w + head - 1, 0, dirty);
      LargeSet(w, head, dirty);
      LargeSet(w + head, total - head, dirty);
    }

    lemma CutDone(m: seq<Bits>, a: seq<Run>, x: nat, y: nat, d: bool, b: seq<Run>, w: nat)
      requires HoleOn(m, a, x + y, b) && w == bias + Pages(a) && x > 0 && y > 0 && |m| == entries.Length
      requires forall i :: 0 <= i < |m| && !(w <= i < w + x + y) ==> entries[i] == m[i]
      requires Ends(entries[..], header, w, Large(x, d)) && Ends(entries[..], header, w + x, Large(y, d))
      requires runs == Among(a, Large(x, d), Cons(Large(y, d), b)) && nactive == Nactive(a) + x + y + Nactive(b)
      ensures Valid() && !spare
    {
      hide TallyOf, Laid, Apart, Pages, Nactive, Hole, HoleOn, Ends, Among, Cons;
      var c := Cons(Large(y, d), b);
      CutHole(m, a, x, y, d, b, w);
      FillHole(a, Large(x, d), c);
      AroundCounts(a, Large(x, d), c);
      ConsActive(y, d, b);
      HoleBounds(a, x, c);
    }

    lemma HoleBounds(a: seq<Run>, x: nat, b: seq<Run>)
      requires Hole(a, x, b)
      ensures 0 < bias < entries.Length && !spare
    {
    }

    lemma CutHole(m: seq<Bits>, a: seq<Run>, x: nat, y: nat, d: bool, b: seq<Run>, w: nat)
      requires HoleOn(m, a, x + y, b) && w == bias + Pages(a) && x > 0 && y > 0 && |m| == entries.Length
      requires forall i :: 0 <= i < |m| && !(w <= i < w + x + y) ==> entries[i] == m[i]
      requires Ends(entries[..], header, w + x, Large(y, d))
      ensures Hole(a, x, Cons(Large(y, d), b))
    {
      hide TallyOf, Apart, Pages, Ends, Among;
      HoleStays(m, a, x + y, b);
      ConsApart(Large(y, d), b);
      BusyMerge(a, x, y, d, b, bias);
    }

    /** Frees the first pages of a large run, as dirty as the run is. */
    method RunTrimHead(w: nat, oldPages: nat, newPages: nat) returns (ghost a: seq<Run>, ghost d: bool, ghost b: seq<Run>)
      requires Valid() && !spare && Block(w, oldPages, true) in Busy(runs, bias)
      requires 0 < newPages < oldPages
      modifies this`nrunsAvail, this`nrunsAdjac, this`ndirty, this`avail, this`nactive, this`runs, this`spare, entries
      ensures Valid() && !spare && nactive == old(nactive) - (oldPages - newPages)
      ensures Busy(runs, bias) ==
              Busy(old(runs), bias) - {Block(w, oldPages, true)} + {Block(w + (oldPages - newPages), newPages, true)}
      ensures old(runs) == Among(a, Large(oldPages, d), b) && w == bias + Pages(a)
      ensures runs == Among(Front(a, oldPages - newPages, d), Large(newPages, d), b)
      ensures Ndirty(runs) == Ndirty(old(runs)) + if d then oldPages - newPages else 0
    {
      hide Among, Ndirty, Front, Freed, Positive, Cons, Busy, Pages, Valid;
      var head := oldPages - newPages;
      BlocksApart(w, oldPages);
      a, d, b := CutLarge(w, oldPages, head);
      CutDirty(a, head, newPages, d, b);
      RunsPositive();
      ghost var e, r, f := RunDalloc(w, head, true, false, false);
      SamePlace(a, Large(head, d), Cons(Large(newPages, d), b), e, r, f);
      FrontFreed(a, head, d, Large(newPages, d), b);
      InUse(Block(w + head, newPages, true));
    }

    lemma RunsPositive()
      requires Valid()
      ensures Positive(runs)
    {
      LaidPositive(entries[..], header, bias, runs, entries.Length);
    }

    /** Frees the last pages of a large run, as dirty as the run is or the caller says. */
    method RunTrimTail(w: nat, oldPages: nat, newPages: nat, dirty: bool) returns (ghost a: seq<Run>, ghost d: bool, ghost b: seq<Run>)
      requires Valid() && !spare && Block(w, oldPages, true) in Busy(runs, bias)
      requires 0 < newPages < oldPages
      modifies this`nrunsAvail, this`nrunsAdjac, this`ndirty, this`avail, this`nactive, this`runs, this`spare, entries
      ensures Valid() && !spare && nactive == old(nactive) - (oldPages - newPages)
      ensures Busy(runs, bias) == Busy(old(runs), bias) - {Block(w, oldPages, true)} + {Block(w, newPages, true)}
      ensures old(runs) == Among(a, Large(oldPages, d), b) && w == bias + Pages(a)
      ensures runs == Among(a, Large(newPages, d), Behind(oldPages - newPages, dirty || d, b))
      ensures Ndirty(runs) == Ndirty(old(runs)) + if dirty || d then oldPages - newPages else 0
    {
      hide Among, Ndirty, Behind, Freed, Positive, Cons, Snoc, Busy, Pages, Valid;
      var tail := oldPages - newPages;
      BlocksApart(w, oldPages);
      a, d, b := CutLarge(w, oldPages, newPages);
      CutDirty(a, newPages, tail, d, b);
      AmongShift(a, Large(newPages, d), Large(tail, d), b);
      AmongParts(a, Large(newPages, d), []);
      RunsPositive();
      ghost var e, r, f := RunDalloc(w + newPages, tail, true, dirty, false);
      SamePlace(Snoc(a, Large(newPages, d)), Large(tail, d), b, e, r, f);
      BehindFreed(a, Large(newPages, d), tail, dirty || d, b);
      InUse(Block(w, newPages, true));
    }

    /** No other run in use starts where this one does. */
    lemma BlocksApart(w: nat, x: nat)
      requires Valid() && !spare && Block(w, x, true) in Busy(runs, bias)
      ensures forall t :: t in Busy(runs, bias) && t.start == w ==> t == Block(w, x, true)
    {
      var a, r, b := LocateBusy(Block(w, x, true));
      OpenRun(a, r, b, w);
      AroundSets(a, r, b, bias);
      BusyWithin(a, bias);
      BusyWithin(b, w + x);
    }

    /** With a run in use the chunk is no spare. */
    lemma InUse(t: Block)
      requires Valid() && t in Busy(runs, bias)
      ensures !(|runs| == 1 && runs[0].Idle?)
    {
    }

    // ----- Allocating -----

    lemma AvailInside()
      requires Valid()
      ensures forall v :: v in avail ==> v < entries.Length
    {
      StartsWithin(entries[..], header, bias, runs, entries.Length);
    }

    /** The smallest idle run that is large enough, the lowest of those. */
    method AvailNsearch(need: nat) returns (w: nat, found: bool)
      requires Valid()
      ensures if found then BestFit(avail, entries[..], w, need) else NoFit(avail, entries[..], need)
    {
      AvailInside();
      hide Valid;
      w, found := 0, false;
      var rest := avail;
      while rest != {}
        invariant rest <= avail
        invariant found ==> Fits(avail, entries[..], w, need)
        invariant forall v :: Fits(avail, entries[..], v, need) && v !in rest ==> found && NoLarger(entries[..], w, v)
        decreases rest
      {
        var v :| v in rest;
        rest := rest - {v};
        if entries[v].size >= need && (!found || entries[v].size < entries[w].size || (entries[v].size == entries[w].size && v < w)) {
          assert Fits(avail, entries[..], v, need);
          w, found := v, true;
        }
      }
    }

    /** Gives out the best fitting run, or a run of the retired chunk; `ok` tells whether there was one. */
    method RunAllocLarge(need: nat) returns (w: nat, ok: bool, ghost a: seq<Run>, ghost t: nat, ghost d: bool, ghost b: seq<Run>)
      requires Valid() && 0 < need <= entries.Length - bias
      modifies this`nrunsAvail, this`nrunsAdjac, this`ndirty, this`avail, this`nactive, this`runs, this`spare, entries
      ensures Valid() && (ok <==> old(spare) || !NoFit(old(avail), old(entries[..]), need))
      ensures ok && !old(spare) ==> BestFit(old(avail), old(entries[..]), w, need)
      ensures ok ==>
                && !spare && nactive == old(nactive) + need
                && Gains(old(runs), runs, bias, Block(w, need, true))
      ensures ok ==>
                && w == bias + Pages(a) && need <= t && old(runs) == Among(a, Idle(t, d), b)
                && runs == Among(a, Large(need, d), WithRest(t - need, d, b))
      ensures !ok ==> runs == old(runs) && nactive == old(nactive)
    {
      a, t, d, b := [], 0, false, [];
      w, ok := AvailNsearch(need);
      if !ok {
        if !spare {
          return;
        }
        SpareSize();
        ChunkAlloc();
        AloneAvail();
        w, ok := bias, true;
      } else {
        SpareEmpty();
      }
      a, t, d, b := RunSplitLarge(w, need);
    }

    lemma SpareEmpty()
      requires Valid() && avail != {}
      ensures !spare
    {
    }

    lemma SpareSize()
      requires Valid() && spare
      ensures entries[bias].size == entries.Length - bias && avail == {}
    {
      LaidSize(entries[..], header, bias, runs, entries.Length);
    }

    lemma AloneAvail()
      requires Valid() && !spare && |runs| == 1 && runs[0].Idle?
      ensures bias in avail && entries[bias].size == entries.Length - bias
    {
      LaidSize(entries[..], header, bias, runs, entries.Length);
    }

    /** Sets a run in use once more. */
    method RunInitLarge(w: nat, need: nat)
      requires Valid() && !spare && Block(w, need, true) in Busy(runs, bias)
      modifies entries, this`runs
      ensures Valid() && runs == old(runs)
    {
      ghost var a, r, b := LocateBusy(Block(w, need, true));
      var flagDirty := entries[w].dirty;
      AgainReady(a, r, b, w);
      hide *;
      FillLarge(w, need, flagDirty, a, b);
    }

    lemma AgainReady(a: seq<Run>, r: Run, b: seq<Run>, w: nat)
      requires Here(a, r, b, w) && r.Large?
      ensures w < entries.Length && Hole(a, r.pages, b) && nactive == Nactive(a) + r.pages + Nactive(b)
      ensures r == Large(r.pages, entries[w].dirty) && w + r.pages <= entries.Length && w == bias + Pages(a)
      ensures runs == Among(a, r, b)
    {
      BusyIsHole(a, r, b, w);
      ActiveAround(a, r, b, w);
      OpenRun(a, r, b, w);
    }

    // ----- Purging -----

    /** Puts the idle dirty runs in use for purging: all, or only those touching other idle runs. */
    method StashDirty(all: bool) returns (stashed: seq<nat>, ghost blocks: seq<Block>)
      requires Valid() && !spare
      modifies this`nrunsAvail, this`nrunsAdjac, this`ndirty, this`avail, this`nactive, this`runs, entries
      ensures Valid() && nrunsAdjac == 0 && (all ==> ndirty == 0)
      ensures Stashed(old(runs), runs, bias, stashed, blocks)
      ensures runs == Stashing(old(runs), all)
    {
      hide *;
      StashStart(all);
      ghost var done, rest := [], runs;
      var pageind := bias;
      stashed, blocks := [], [];
      while pageind < entries.Length
        invariant Valid() && !spare && runs == done + rest && pageind == bias + Pages(done) <= entries.Length
        invariant Swept(done, rest, all)
        invariant Stashed(old(runs), runs, bias, stashed, blocks)
        invariant Passed(old(runs), done, rest, all)
        decreases entries.Length - pageind
      {
        ghost var before := runs;
        RestLeft(done, rest);
        ghost var r, c := rest[0], rest[1..];
        var npages, hit := StashOne(pageind, all, done, r, c);
        PassedStep(old(runs), done, rest, all, if hit then Large(npages, true) else r);
        if hit {
          StashedMore(old(runs), before, runs, bias, stashed, blocks, pageind, npages);
          stashed, blocks := stashed + [pageind], blocks + [Block(pageind, npages, true)];
        }
        ghost var now := if hit then Large(npages, true) else r;
        AmongParts(done, now, c);
        done, rest := Snoc(done, now), c;
        pageind := pageind + npages;
        PlaceWithin(done, rest);
      }
      AllSwept(done, rest, all);
      AllPassed(old(runs), done, rest, all);
    }

    lemma StashStart(all: bool)
      requires Valid()
      ensures [] + runs == runs && Pages([]) == 0 && bias <= entries.Length
      ensures Swept([], runs, all) && Passed(runs, [], runs, all) && Stashed(runs, runs, bias, [], [])
    {
    }

    lemma RestLeft(done: seq<Run>, rest: seq<Run>)
      requires Valid() && !spare && runs == done + rest && bias + Pages(done) < entries.Length
      ensures rest != [] && Here(done, rest[0], rest[1..], bias + Pages(done)) && Cons(rest[0], rest[1..]) == rest
    {
      LaidSplit(entries[..], header, bias, done, rest, entries.Length);
      if rest != [] {
        assert done + rest == Among(done, rest[0], rest[1..]);
      }
    }

    lemma PlaceWithin(done: seq<Run>, rest: seq<Run>)
      requires Valid() && runs == done + rest
      ensures bias + Pages(done) <= entries.Length
    {
      LaidSplit(entries[..], header, bias, done, rest, entries.Length);
      LaidSize(entries[..], header, bias + Pages(done), rest, entries.Length);
    }

    lemma AllSwept(done: seq<Run>, rest: seq<Run>, all: bool)
      requires Valid() && !spare && runs == done + rest && bias + Pages(done) == entries.Length && Swept(done, rest, all)
      ensures nrunsAdjac == 0 && (all ==> ndirty == 0) && rest == []
    {
      LaidSplit(entries[..], header, bias, done, rest, entries.Length);
      LaidSize(entries[..], header, bias + Pages(done), rest, entries.Length);
      assert rest == [] && done + rest == done;
    }

    /** Visits the run at w; tells its length and whether it was put in use. */
    method StashOne(w: nat, all: bool, ghost done: seq<Run>, ghost r: Run, ghost c: seq<Run>) returns (npages: nat, hit: bool)
      requires Here(done, r, c, w) && Swept(done, Cons(r, c), all)
      modifies this`nrunsAvail, this`nrunsAdjac, this`ndirty, this`avail, this`nactive, this`runs, entries
      ensures Valid() && !spare && npages == r.pages && npages > 0
      ensures var now := if hit then Large(npages, true) else r;
              runs == Among(done, now, c) && Swept(Snoc(done, now), c, all)
      ensures hit <==> r.Idle? && r.dirty && (all || Touch(done, [r]) == 1 || Touch([r], c) == 1)
      ensures hit ==> Gains(old(runs), runs, bias, Block(w, npages, true))
      ensures !hit ==> runs == old(runs)
    {
      OpenRun(done, r, c, w);
      hit := false;
      if !entries[w].used {
        npages := entries[w].size;
        Neighbours(done, npages, r.dirty, c, true, true);
        if entries[w].dirty && (all || AdjacPred(w) || AdjacSucc(w, npages)) {
          SweptStep(done, r, Large(npages, true), c, all);
          NoRest(r.dirty, c);
          hide *;
          SplitLargeAt(w, npages, done, npages, true, c);
          hit := true;
        } else {
          SweptStep(done, r, r, c, all);
        }
      } else {
        npages := RunPages(w, r);
        SweptStep(done, r, r, c, all);
      }
    }

    /** Gives purged runs back, clean. */
    method UnstashPurged(stashed: seq<nat>, ghost blocks: seq<Block>, ghost before: seq<Run>)
      requires Valid() && !spare && Stashed(before, runs, bias, stashed, blocks)
      modifies this`nrunsAvail, this`nrunsAdjac, this`ndirty, this`avail, this`nactive, this`runs, this`spare, entries
      ensures Valid() && Busy(runs, bias) == Busy(before, bias) && Ndirty(runs) == Ndirty(old(runs))
    {
      hide *;
      NothingLeft(before, runs, bias, stashed, blocks);
      var i := 0;
      while i < |stashed|
        invariant i <= |stashed| == |blocks| && Valid() && Ndirty(runs) == Ndirty(old(runs))
        invariant Stashed(before, runs, bias, stashed[i..], blocks[i..])
        decreases |stashed| - i
      {
        ghost var now := runs;
        NextBlock(before, stashed[i..], blocks[i..]);
        assert stashed[i..][0] == stashed[i] && blocks[i..][0] == blocks[i];
        ghost var a, r, b := RunDalloc(stashed[i], blocks[i].pages, true, false, true);
        StashedLess(before, now, runs, bias, stashed[i..], blocks[i..]);
        assert stashed[i..][1..] == stashed[i + 1..] && blocks[i..][1..] == blocks[i + 1..];
        i := i + 1;
      }
      NothingLeft(before, runs, bias, stashed[i..], blocks[i..]);
    }

    /** The next stashed run is in use, so the chunk is not spare. */
    lemma NextBlock(before: seq<Run>, stashed: seq<nat>, blocks: seq<Block>)
      requires Valid() && Stashed(before, runs, bias, stashed, blocks) && stashed != []
      ensures !spare && blocks != [] && blocks[0] in Busy(runs, bias) && blocks[0] == Block(stashed[0], blocks[0].pages, true)
    {
      assert blocks[0] in Busy(runs, bias);
      InUse(blocks[0]);
    }

    /**
     Purges the chunk: afterwards the same runs are in use, and with `all` no idle page is dirty. No other
     thread changes the chunk between stashing and unstashing.
     */
    method PurgeChunk(all: bool)
      requires Valid()
      modifies this`nrunsAvail, this`nrunsAdjac, this`ndirty, this`avail, this`nactive, this`runs, this`spare, entries
      ensures Valid() && Busy(runs, bias) == Busy(old(runs), bias)
      ensures all || old(nrunsAdjac) == 0 ==> ndirty == 0
      ensures Ndirty(runs) == Ndirty(Stashing(old(runs), all || old(nrunsAdjac) == 0))
    {
      if spare {
        SpareCounts();
        ChunkAlloc();
      }
      var whole := all || nrunsAdjac == 0;
      var stashed;
      ghost var blocks;
      stashed, blocks := StashDirty(whole);
      DirtyIs();
      UnstashPurged(stashed, blocks, old(runs));
      DirtyIs();
    }

    lemma SpareCounts()
      requires Valid() && spare
      ensures |runs| == 1 && nrunsAdjac == 0 && Nadjac(runs) == 0
    {
    }

    lemma DirtyIs()
      requires Valid()
      ensures ndirty == if spare then 0 else Ndirty(runs)
    {
    }

    // ----- Aligned allocation -----

    /** Gives out pages that start at a multiple of the alignment, cut from a run that is surely long enough. */
    method Palloc(size: nat, alignment: nat) returns (ret: nat, ok: bool, ghost a: seq<Run>, ghost t: nat, ghost d: bool, ghost b: seq<Run>)
      requires Valid() && 0 < size && 0 < alignment && size + alignment - 1 <= entries.Length - bias
      modifies this`nrunsAvail, this`nrunsAdjac, this`ndirty, this`avail, this`nactive, this`runs, this`spare, entries
      ensures Valid() && (ok <==> old(spare) || !NoFit(old(avail), old(entries[..]), size + alignment - 1))
      ensures ok ==> ret % alignment == 0 && Gains(old(runs), runs, bias, Block(ret, size, true)) && nactive == old(nactive) + size
      ensures ok ==>
                var lead, total := ret - bias - Pages(a), size + alignment - 1;
                && 0 <= lead < alignment && total <= t && old(runs) == Among(a, Idle(t, d), b)
                && (!old(spare) ==> BestFit(old(avail), old(entries[..]), bias + Pages(a), total))
                && runs == Among(Front(a, lead, d), Large(size, d), Behind(total - lead - size, d, WithRest(t - total, d, b)))
      ensures ok ==> Ndirty(runs) + (if d then size else 0) == Ndirty(old(runs))
      ensures !ok ==> ret == 0 && runs == old(runs) && nactive == old(nactive)
    {
      hide Valid, Busy, Gains, BestFit, NoFit, Among, Ndirty, Pages, Front, Behind, WithRest;
      var allocSize := size + alignment - 1;
      var run;
      run, ok, a, t, d, b := RunAllocLarge(allocSize);
      if !ok {
        ret := 0;
        return;
      }
      CeilingGain(run, alignment);
      ret := Ceiling(run, alignment);
      var leadsize := ret - run;
      assert allocSize >= leadsize + size;
      TakenDirty(a, t, d, b, allocSize);
      CutOut(run, allocSize, leadsize, size, old(runs), a, d, WithRest(t - allocSize, d, b));
    }

    /** Nothing in use before starts within a run given out since. */
    lemma PartsFresh(before: seq<Run>, run: nat, allocSize: nat)
      requires Valid() && Gains(before, runs, bias, Block(run, allocSize, true))
      ensures forall t :: t in Busy(before, bias) ==> !(run <= t.start < run + allocSize)
    {
      LaidPositive(entries[..], header, bias, runs, entries.Length);
      BusyWithin(runs, bias);
      forall t | t in Busy(before, bias) ensures !(run <= t.start < run + allocSize) {
        BusyDisjoint(runs, bias, t, Block(run, allocSize, true));
      }
    }

    /** Trims a new run to the part wanted and sets that in use. */
    method CutOut(run: nat, allocSize: nat, leadsize: nat, size: nat, ghost before: seq<Run>,
                  ghost a: seq<Run>, ghost d: bool, ghost b: seq<Run>)
      requires Valid() && !spare && 0 < size && leadsize + size <= allocSize
      requires Gains(before, runs, bias, Block(run, allocSize, true))
      requires runs == Among(a, Large(allocSize, d), b) && run == bias + Pages(a)
      modifies this`nrunsAvail, this`nrunsAdjac, this`ndirty, this`avail, this`nactive, this`runs, this`spare, entries
      ensures Valid() && Gains(before, runs, bias, Block(run + leadsize, size, true)) && nactive == old(nactive) - (allocSize - size)
      ensures runs == Among(Front(a, leadsize, d), Large(size, d), Behind(allocSize - leadsize - size, d, b))
      ensures Ndirty(runs) == Ndirty(old(runs)) + if d then allocSize - size else 0
    {
      hide Valid, Busy, Among, Ndirty, Pages, Front, Behind;
      var ret, trailsize := run + leadsize, allocSize - leadsize - size;
      PartsFresh(before, run, allocSize);
      RunsPositive();
      NoTrim(a, d, b);
      FrontPages(a, leadsize, d);
      if leadsize != 0 {
        ghost var e, f, g := RunTrimHead(run, allocSize, allocSize - leadsize);
        SamePlace(a, Large(allocSize, d), b, e, Large(allocSize, f), g);
        RunsPositive();
      }
      if trailsize != 0 {
        ghost var e, f, g := RunTrimTail(ret, size + trailsize, size, false);
        SamePlace(Front(a, leadsize, d), Large(size + trailsize, d), b, e, Large(size + trailsize, f), g);
      }
      RunInitLarge(ret, size);
    }
  }

  lemma LastOf(a: seq<Run>, p: nat, d: bool, r: Run, b: seq<Run>)
    requires a != [] && a[|a| - 1] == Idle(p, d)
    ensures var c := a[..|a| - 1]; a == Snoc(c, Idle(p, d)) && a == c + [Idle(p, d)] && Among(a, r, b) == Among(c, Idle(p, d), Cons(r, b))
  {
  }

  lemma ConsActive(y: nat, d: bool, b: seq<Run>)
    ensures Nactive(Cons(Large(y, d), b)) == y + Nactive(b)
  {
    assert Cons(Large(y, d), b)[1..] == b;
  }

  lemma ConsApart(r: Run, b: seq<Run>)
    requires Apart(b) && !r.Idle?
    ensures Apart(Cons(r, b)) && Cons(r, b) != [] && Cons(r, b)[0] == r && Cons(r, b)[1..] == b
  {
    ConcatApart([r], b);
  }

  /** What the sweep for dirty runs has passed holds no two touching idle runs, and with `all` no dirty ones. */
  predicate Swept(done: seq<Run>, rest: seq<Run>, all: bool) {
    && Nadjac(done) == 0 && (all ==> Ndirty(done) == 0)
    && (done != [] && rest != [] && done[|done| - 1].Idle? && done[|done| - 1].dirty ==> !rest[0].Idle?)
  }

  lemma SweptStep(done: seq<Run>, r: Run, now: Run, c: seq<Run>, all: bool)
    requires Swept(done, Cons(r, c), all) && MayJoin(done, [r])
    requires now == r || !now.Idle?
    requires now.Idle? && now.dirty ==> !all && Touch(done, [now]) == 0 && Touch([now], c) == 0
    ensures Swept(Snoc(done, now), c, all)
  {
    ConcatAdjac(done, [now]);
    ConcatSums(done, [now]);
    assert Cons(r, c)[0] == r;
  }

  /** A dirty idle run is stashed if all are, or if it touches an idle run; the rest stay as they are. */
  function Outcome(rs: seq<Run>, i: nat, all: bool): Run
    requires i < |rs|
  {
    if rs[i].Idle? && rs[i].dirty && (all || (i > 0 && rs[i - 1].Idle?) || (i + 1 < |rs| && rs[i + 1].Idle?))
    then Large(rs[i].pages, true)
    else rs[i]
  }

  function Stashing(rs: seq<Run>, all: bool): seq<Run> {
    seq(|rs|, i requires 0 <= i < |rs| => Outcome(rs, i, all))
  }

  /** The sweep has passed the first runs of the list it started on. */
  ghost predicate Passed(rs: seq<Run>, done: seq<Run>, rest: seq<Run>, all: bool) {
    && Apart(rs) && |done| <= |rs| && rest == rs[|done|..]
    && forall i :: 0 <= i < |done| ==> done[i] == Outcome(rs, i, all)
  }

  /** A run already stashed was dirty, so the run behind it is not, and looking at it later changes nothing. */
  lemma PassedStep(rs: seq<Run>, done: seq<Run>, rest: seq<Run>, all: bool, now: Run)
    requires Passed(rs, done, rest, all) && rest != []
    requires now == if rest[0].Idle? && rest[0].dirty && (all || Touch(done, [rest[0]]) == 1 || Touch([rest[0]], rest[1..]) == 1)
                    then Large(rest[0].pages, true) else rest[0]
    ensures Passed(rs, Snoc(done, now), rest[1..], all)
  {
    var k := |done|;
    assert rest[0] == rs[k] && (k + 1 < |rs| ==> rest[1..][0] == rs[k + 1]);
    if k > 0 {
      assert done[k - 1] == Outcome(rs, k - 1, all);
      assert MayTouch(rs[k - 1], rs[k - 1 + 1]);
    }
    assert rest[1..] == rs[k + 1..];
  }

  lemma AllPassed(rs: seq<Run>, done: seq<Run>, rest: seq<Run>, all: bool)
    requires Passed(rs, done, rest, all) && rest == []
    ensures done + rest == Stashing(rs, all)
  {
    assert |done| == |rs|;
  }

  lemma NoRest(d: bool, c: seq<Run>)
    ensures WithRest(0, d, c) == c
  {
  }

  lemma AmongParts(done: seq<Run>, r: Run, c: seq<Run>)
    ensures Among(done, r, c) == Snoc(done, r) + c && Pages(Snoc(done, r)) == Pages(done) + r.pages
  {
    ConcatSums(done, [r]);
  }

  /** The second list has these further blocks in use, at the pages listed. */
  ghost predicate Stashed(before: seq<Run>, rs: seq<Run>, s: nat, stashed: seq<nat>, blocks: seq<Block>) {
    && |stashed| == |blocks|
    && (forall i :: 0 <= i < |blocks| ==> blocks[i] == Block(stashed[i], blocks[i].pages, true) && blocks[i] !in Busy(before, s))
    && (forall i, j :: 0 <= i < j < |blocks| ==> blocks[i] != blocks[j])
    && Busy(rs, s) == Busy(before, s) + set t | t in blocks
  }

  lemma StashedMore(before: seq<Run>, rs: seq<Run>, new_: seq<Run>, s: nat, stashed: seq<nat>, blocks: seq<Block>, w: nat, n: nat)
    requires Stashed(before, rs, s, stashed, blocks) && Gains(rs, new_, s, Block(w, n, true))
    ensures Stashed(before, new_, s, stashed + [w], blocks + [Block(w, n, true)])
  {
  }

  lemma StashedLess(before: seq<Run>, rs: seq<Run>, new_: seq<Run>, s: nat, stashed: seq<nat>, blocks: seq<Block>)
    requires Stashed(before, rs, s, stashed, blocks) && blocks != [] && Loses(rs, new_, s, blocks[0])
    ensures Stashed(before, new_, s, stashed[1..], blocks[1..])
  {
    assert blocks == [blocks[0]] + blocks[1..];
    assert forall i :: 0 < i < |blocks| ==> blocks[i] != blocks[0];
    assert blocks[0] !in blocks[1..];
  }

  lemma NothingLeft(before: seq<Run>, rs: seq<Run>, s: nat, stashed: seq<nat>, blocks: seq<Block>)
    requires Stashed(before, rs, s, stashed, blocks)
    ensures |stashed| == |blocks| && stashed[0..] == stashed && blocks[0..] == blocks
    ensures stashed == [] ==> Busy(rs, s) == Busy(before, s)
  {
  }

  predicate Fits(av: set<nat>, m: seq<Bits>, v: nat, need: nat) {
    v in av && v < |m| && m[v].size >= need
  }

  predicate NoLarger(m: seq<Bits>, v: nat, u: nat) {
    v < |m| && u < |m| && (m[v].size < m[u].size || (m[v].size == m[u].size && v <= u))
  }

  ghost predicate BestFit(av: set<nat>, m: seq<Bits>, w: nat, need: nat) {
    Fits(av, m, w, need) && forall v :: Fits(av, m, v, need) ==> NoLarger(m, w, v)
  }

  ghost predicate NoFit(av: set<nat>, m: seq<Bits>, need: nat) {
    forall v :: !Fits(av, m, v, need)
  }

  /** The run behind is idle and just as dirty. */
  predicate JoinsNext(d: bool, b: seq<Run>) {
    b != [] && b[0].Idle? && b[0].dirty == d
  }

  predicate JoinsPrev(a: seq<Run>, d: bool) {
    a != [] && a[|a| - 1].Idle? && a[|a| - 1].dirty == d
  }

  /** The list with x pages between a and b become idle and joined with equally dirty idle neighbours. */
  function Freed(a: seq<Run>, x: nat, d: bool, b: seq<Run>): seq<Run> {
    var n := if JoinsNext(d, b) then b[0].pages else 0;
    var p := if JoinsPrev(a, d) then a[|a| - 1].pages else 0;
    (if JoinsPrev(a, d) then a[..|a| - 1] else a) + [Idle(p + x + n, d)] + if JoinsNext(d, b) then b[1..] else b
  }

  /** The runs before one whose first x pages became idle. */
  function Front(a: seq<Run>, x: nat, d: bool): seq<Run> {
    if x == 0 then a
    else if JoinsPrev(a, d) then a[..|a| - 1] + [Idle(a[|a| - 1].pages + x, d)]
    else a + [Idle(x, d)]
  }

  /** The runs behind one whose last x pages became idle. */
  function Behind(x: nat, d: bool, b: seq<Run>): seq<Run> {
    if x == 0 then b
    else if JoinsNext(d, b) then [Idle(x + b[0].pages, d)] + b[1..]
    else [Idle(x, d)] + b
  }

  lemma FrontFreed(a: seq<Run>, x: nat, d: bool, r: Run, b: seq<Run>)
    requires x > 0 && !r.Idle?
    ensures Freed(a, x, d, Cons(r, b)) == Among(Front(a, x, d), r, b)
  {
  }

  lemma BehindFreed(a: seq<Run>, r: Run, x: nat, d: bool, b: seq<Run>)
    requires x > 0 && !r.Idle?
    ensures Freed(Snoc(a, r), x, d, b) == Among(a, r, Behind(x, d, b))
  {
    assert Snoc(a, r)[|a|] == r;
  }

  lemma FrontPages(a: seq<Run>, x: nat, d: bool)
    ensures Pages(Front(a, x, d)) == Pages(a) + x
  {
    if x > 0 {
      ConcatSums(a, [Idle(x, d)]);
      if JoinsPrev(a, d) {
        var e := a[..|a| - 1];
        assert a == e + [a[|a| - 1]];
        ConcatSums(e, [a[|a| - 1]]);
        ConcatSums(e, [Idle(a[|a| - 1].pages + x, d)]);
      }
    }
  }

  lemma NoTrim(a: seq<Run>, d: bool, b: seq<Run>)
    ensures Front(a, 0, d) == a && Behind(0, d, b) == b
  {
  }

  /** A list has one run starting at each page. */
  lemma SamePlace(a: seq<Run>, r: Run, b: seq<Run>, e: seq<Run>, t: Run, f: seq<Run>)
    requires Among(a, r, b) == Among(e, t, f) && Pages(a) == Pages(e) && Positive(Among(a, r, b))
    ensures a == e && r == t && b == f
  {
    hide Pages;
    var rs := Among(a, r, b);
    assert a == rs[..|a|] && b == rs[|a| + 1..] && r == rs[|a|];
    assert e == rs[..|e|] && f == rs[|e| + 1..] && t == rs[|e|];
    if |a| < |e| {
      LongerPages(rs, |a|, |e|);
    } else if |e| < |a| {
      LongerPages(rs, |e|, |a|);
    }
  }

  lemma LongerPages(rs: seq<Run>, i: nat, j: nat)
    requires i < j <= |rs| && Positive(rs)
    ensures Pages(rs[..i]) < Pages(rs[..j])
  {
    assert rs[..j] == rs[..i] + rs[i..j];
    ConcatSums(rs[..i], rs[i..j]);
    assert rs[i..j][0] == rs[i];
  }

  /** Cutting a run in use makes no page idle. */
  lemma CutDirty(a: seq<Run>, x: nat, y: nat, d: bool, b: seq<Run>)
    ensures Ndirty(Among(a, Large(x, d), Cons(Large(y, d), b))) == Ndirty(Among(a, Large(x + y, d), b))
  {
    var c := Cons(Large(y, d), b);
    AroundCounts(a, Large(x, d), c);
    AroundCounts(a, Large(x + y, d), b);
    assert c[1..] == b;
  }

  /** Taking the first pages of an idle run takes that many dirty pages, if it is dirty. */
  lemma TakenDirty(a: seq<Run>, t: nat, d: bool, b: seq<Run>, need: nat)
    requires 0 < need <= t
    ensures Ndirty(Among(a, Large(need, d), WithRest(t - need, d, b))) + (if d then need else 0) == Ndirty(Among(a, Idle(t, d), b))
  {
    AroundCounts(a, Large(need, d), WithRest(t - need, d, b));
    AroundCounts(a, Idle(t, d), b);
    ConcatSums(Rest(t - need, d), b);
  }

  lemma FreedIs(a: seq<Run>, x: nat, d: bool, b: seq<Run>, e: seq<Run>, n: nat, c: seq<Run>)
    requires c == if JoinsNext(d, b) then b[1..] else b
    requires e == if JoinsPrev(a, d) then a[..|a| - 1] else a
    requires n == (if JoinsPrev(a, d) then a[|a| - 1].pages else 0) + (x + if JoinsNext(d, b) then b[0].pages else 0)
    ensures Among(e, Idle(n, d), c) == Freed(a, x, d, b)
    ensures Nactive(e) == Nactive(a) && Nactive(c) == Nactive(b)
  {
    hide Nactive;
    FreedActive(a, x, d, b);
  }

  /** Joining leaves the pages in use alone. */
  lemma FreedActive(a: seq<Run>, x: nat, d: bool, b: seq<Run>)
    ensures Nactive(if JoinsNext(d, b) then b[1..] else b) == Nactive(b)
    ensures Nactive(if JoinsPrev(a, d) then a[..|a| - 1] else a) == Nactive(a)
  {
    if JoinsPrev(a, d) {
      assert a == a[..|a| - 1] + [a[|a| - 1]];
      ConcatSums(a[..|a| - 1], [a[|a| - 1]]);
    }
  }

  /** Freeing takes one block out of use; all idle dirty pages stay, and its own are added if it is dirty. */
  lemma FreedTotals(a: seq<Run>, r: Run, d: bool, b: seq<Run>, s: nat)
    requires !r.Idle? && Positive(a) && Positive(b) && r.pages > 0
    ensures var rs, fs := Among(a, r, b), Freed(a, r.pages, d, b);
            && Pages(fs) == Pages(rs) && Ndirty(fs) == Ndirty(rs) + (if d then r.pages else 0)
            && Busy(fs, s) == Busy(rs, s) - {Block(s + Pages(a), r.pages, r.Large?)}
  {
    FreedSums(a, r, d, b);
    FreedSets(a, r, d, b, s);
  }

  /** What a split leaves idle, with the runs behind. */
  function WithRest(n: nat, d: bool, b: seq<Run>): seq<Run> {
    Rest(n, d) + b
  }

  function Rest(n: nat, d: bool): seq<Run> {
    if n == 0 then [] else [Idle(n, d)]
  }

  lemma FreedSums(a: seq<Run>, r: Run, d: bool, b: seq<Run>)
    requires !r.Idle?
    ensures var rs, fs := Among(a, r, b), Freed(a, r.pages, d, b);
            Pages(fs) == Pages(rs) && Ndirty(fs) == Ndirty(rs) + (if d then r.pages else 0)
  {
    hide Freed, Nadjac, Navail, Nactive, Among;
    var c, e := if JoinsNext(d, b) then b[1..] else b, if JoinsPrev(a, d) then a[..|a| - 1] else a;
    var n := (if JoinsPrev(a, d) then a[|a| - 1].pages else 0) + (r.pages + if JoinsNext(d, b) then b[0].pages else 0);
    FreedIs(a, r.pages, d, b, e, n, c);
    AroundCounts(a, r, b);
    AroundCounts(e, Idle(n, d), c);
    if JoinsPrev(a, d) {
      assert a == e + [a[|a| - 1]];
      ConcatSums(e, [a[|a| - 1]]);
    }
  }

  lemma FreedSets(a: seq<Run>, r: Run, d: bool, b: seq<Run>, s: nat)
    requires !r.Idle? && Positive(a) && Positive(b) && r.pages > 0
    ensures Busy(Freed(a, r.pages, d, b), s) == Busy(Among(a, r, b), s) - {Block(s + Pages(a), r.pages, r.Large?)}
  {
    hide Freed, Busy, Avail, Positive, Pages, Among;
    FreedBusy(a, r.pages, d, b, s);
    AroundSets(a, r, b, s);
    BusyWithin(a, s);
    BusyWithin(b, s + Pages(a) + r.pages);
  }

  lemma FreedBusy(a: seq<Run>, x: nat, d: bool, b: seq<Run>, s: nat)
    ensures Busy(Freed(a, x, d, b), s) == Busy(a, s) + Busy(b, s + Pages(a) + x)
  {
    hide Freed, Busy, Avail, Positive, Pages, Nactive, Among;
    var c, e := if JoinsNext(d, b) then b[1..] else b, if JoinsPrev(a, d) then a[..|a| - 1] else a;
    var n := (if JoinsPrev(a, d) then a[|a| - 1].pages else 0) + (x + if JoinsNext(d, b) then b[0].pages else 0);
    FreedIs(a, x, d, b, e, n, c);
    AroundSets(e, Idle(n, d), c, s);
    EdgeBusy(a, d, s);
    BackBusy(b, d, s + Pages(a) + x);
  }

  lemma BackBusy(b: seq<Run>, d: bool, s: nat)
    ensures JoinsNext(d, b) ==> Busy(b, s) == Busy(b[1..], s + b[0].pages)
  {
  }

  lemma LoneBusy(n: nat, s: nat)
    ensures TallyOf(Among([], Large(n, false), []), s) == Tally(0, 0, 0, {})
  {
    AroundCounts([], Large(n, false), []);
    AroundSets([], Large(n, false), [], s);
  }

  lemma EdgeBusy(a: seq<Run>, d: bool, s: nat)
    ensures JoinsPrev(a, d) ==>
              Busy(a[..|a| - 1], s) == Busy(a, s) && Pages(a) == Pages(a[..|a| - 1]) + a[|a| - 1].pages
  {
    if JoinsPrev(a, d) {
      assert a == a[..|a| - 1] + [a[|a| - 1]];
      ConcatSets(a[..|a| - 1], [a[|a| - 1]], s);
      ConcatSums(a[..|a| - 1], [a[|a| - 1]]);
    }
  }

  lemma CutBusy(a: seq<Run>, r: Run, x: nat, b: seq<Run>, s: nat)
    requires r.Large? && 0 < x < r.pages && Positive(a) && Positive(b)
    ensures var w, y := s + Pages(a), r.pages - x;
            && Busy(Among(a, Large(x, r.dirty), Cons(Large(y, r.dirty), b)), s)
               == Busy(Among(a, r, b), s) - {Block(w, r.pages, r.Large?)} + {Block(w, x, true), Block(w + x, y, true)}
            && Block(w + x, y, true) !in Busy(Among(a, r, b), s)
  {
    var w, y := s + Pages(a), r.pages - x;
    hide *;
    TwoBusy(a, x, y, r.dirty, b, s);
    AroundSets(a, r, b, s);
    BusyWithin(a, s);
    BusyWithin(b, w + r.pages);
    var before, after := Busy(a, s), Busy(b, w + r.pages);
    Replaced(before, after, Block(w, r.pages, r.Large?), {Block(w, x, true), Block(w + x, y, true)});
  }

  lemma Replaced(before: set<Block>, after: set<Block>, t: Block, us: set<Block>)
    requires t !in before + after
    ensures before + us + after == before + {t} + after - {t} + us
  {
  }

  lemma TwoBusy(a: seq<Run>, x: nat, y: nat, d: bool, b: seq<Run>, s: nat)
    ensures var w := s + Pages(a);
            Busy(Among(a, Large(x, d), Cons(Large(y, d), b)), s)
            == Busy(a, s) + {Block(w, x, true), Block(w + x, y, true)} + Busy(b, w + x + y)
  {
    var c := Cons(Large(y, d), b);
    assert c[1..] == b && c[0] == Large(y, d);
    assert Busy(c, s + Pages(a) + x) == {Block(s + Pages(a) + x, y, true)} + Busy(b, s + Pages(a) + x + y);
    AroundSets(a, Large(x, d), c, s);
    hide Busy, Avail, Pages;
  }
}
