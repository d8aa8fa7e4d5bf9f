/**
 One bin of a thread cache: a stack of pointers whose oldest are returned, arena by arena, by compacting
 the stack in place while one arena's lock is held at a time.
 */
module Tcache {
  import opened Common

  type Ptr = nat
  type ArenaId = nat

  /** Which arena a pointer's chunk belongs to. */
  type Owner = Ptr -> ArenaId

  // ----- What a flush returns, and in which order -----

  function ArenaOf(own: Owner, p: Ptr): ArenaId {
    own(p)
  }

  function Of(q: seq<Ptr>, own: Owner, a: ArenaId): (r: seq<Ptr>)
    ensures |r| <= |q|
  {
    if q == [] then []
    else Of(q[..|q| - 1], own, a) + if ArenaOf(own, q[|q| - 1]) == a then [q[|q| - 1]] else []
  }

  function NotOf(q: seq<Ptr>, own: Owner, a: ArenaId): (r: seq<Ptr>)
    ensures |r| <= |q|
  {
    if q == [] then []
    else NotOf(q[..|q| - 1], own, a) + if ArenaOf(own, q[|q| - 1]) == a then [] else [q[|q| - 1]]
  }

  /** The first pointer's arena has something, so the rest gets shorter. */
  lemma {:induction false} Shrinks(q: seq<Ptr>, own: Owner)
    requires q != []
    ensures |NotOf(q, own, ArenaOf(own, q[0]))| < |q|
  {
    if |q| > 1 {
      assert q[..|q| - 1][0] == q[0];
      Shrinks(q[..|q| - 1], own);
    }
  }

  lemma NoneSorted(q: seq<Ptr>, own: Owner, a: ArenaId)
    ensures Of(q[..0], own, a) == [] && NotOf(q[..0], own, a) == []
  {
  }

  /** One pointer more goes with its arena's or with the others. */
  lemma OneSorted(q: seq<Ptr>, own: Owner, a: ArenaId, i: nat)
    requires i < |q|
    ensures Of(q[..i + 1], own, a) == Of(q[..i], own, a) + if ArenaOf(own, q[i]) == a then [q[i]] else []
    ensures NotOf(q[..i + 1], own, a) == NotOf(q[..i], own, a) + if ArenaOf(own, q[i]) == a then [] else [q[i]]
  {
    assert q[..i + 1][..i] == q[..i];
  }

  /** Arena by arena, in the order of each arena's oldest pointer. */
  function Flushed(q: seq<Ptr>, own: Owner): (r: seq<Ptr>)
    decreases |q|
  {
    if q == [] then []
    else
      Shrinks(q, own);
      Of(q, own, ArenaOf(own, q[0])) + Flushed(NotOf(q, own, ArenaOf(own, q[0])), own)
  }

  lemma NoneFlushed(own: Owner)
    ensures Flushed([], own) == []
  {
  }

  /** The arenas whose locks are taken, in order. */
  function Locks(q: seq<Ptr>, own: Owner): (r: seq<ArenaId>)
    decreases |q|
  {
    if q == [] then []
    else
      Shrinks(q, own);
      [ArenaOf(own, q[0])] + Locks(NotOf(q, own, ArenaOf(own, q[0])), own)
  }

  lemma {:induction false} OfConcat(q: seq<Ptr>, r: seq<Ptr>, own: Owner, a: ArenaId)
    ensures Of(q + r, own, a) == Of(q, own, a) + Of(r, own, a)
    decreases |r|
  {
    if r == [] {
      assert q + r == q;
    } else {
      assert (q + r)[..|q + r| - 1] == q + r[..|r| - 1];
      OfConcat(q, r[..|r| - 1], own, a);
    }
  }

  lemma {:induction false} OfAndNotOf(q: seq<Ptr>, own: Owner, a: ArenaId, b: ArenaId)
    ensures Of(NotOf(q, own, a), own, b) == if a == b then [] else Of(q, own, b)
    ensures Of(Of(q, own, a), own, b) == if a == b then Of(q, own, b) else []
    decreases |q|
  {
    if q != [] {
      var p := q[|q| - 1];
      OfAndNotOf(q[..|q| - 1], own, a, b);
      OfConcat(NotOf(q[..|q| - 1], own, a), if ArenaOf(own, p) == a then [] else [p], own, b);
      OfConcat(Of(q[..|q| - 1], own, a), if ArenaOf(own, p) == a then [p] else [], own, b);
      assert [p][..0] == [];
      assert Of([p], own, b) == if ArenaOf(own, p) == b then [p] else [];
    }
  }

  /** Each arena gets exactly its own pointers, once each and oldest first. */
  lemma {:induction false} FlushIsExact(q: seq<Ptr>, own: Owner, b: ArenaId)
    ensures Of(Flushed(q, own), own, b) == Of(q, own, b)
    decreases |q|
  {
    if q != [] {
      var a := ArenaOf(own, q[0]);
      Shrinks(q, own);
      OfConcat(Of(q, own, a), Flushed(NotOf(q, own, a), own), own, b);
      FlushIsExact(NotOf(q, own, a), own, b);
      OfAndNotOf(q, own, a, b);
    }
  }

  lemma {:induction false} SplitIsMultiset(q: seq<Ptr>, own: Owner, a: ArenaId)
    ensures multiset(Of(q, own, a)) + multiset(NotOf(q, own, a)) == multiset(q)
  {
    if q != [] {
      var p, x := q[..|q| - 1], q[|q| - 1];
      SplitIsMultiset(p, own, a);
      assert q == p + [x];
      AddOne(Of(p, own, a), NotOf(p, own, a), p, x);
    }
  }

  lemma AddOne(s: seq<Ptr>, t: seq<Ptr>, p: seq<Ptr>, x: Ptr)
    requires multiset(s) + multiset(t) == multiset(p)
    ensures multiset(s + [x]) + multiset(t + []) == multiset(p + [x]) == multiset(s + []) + multiset(t + [x])
  {
    assert s + [] == s && t + [] == t;
  }

  /** Nothing is lost and nothing is returned twice. */
  lemma {:induction false} FlushIsPermutation(q: seq<Ptr>, own: Owner)
    ensures multiset(Flushed(q, own)) == multiset(q)
    decreases |q|
  {
    if q != [] {
      var a := ArenaOf(own, q[0]);
      Shrinks(q, own);
      FlushIsPermutation(NotOf(q, own, a), own);
      SplitIsMultiset(q, own, a);
    }
  }

  lemma {:induction false} NotOfHas(q: seq<Ptr>, own: Owner, a: ArenaId, p: Ptr)
    ensures p in NotOf(q, own, a) <==> p in q && ArenaOf(own, p) != a
  {
    if q != [] {
      NotOfHas(q[..|q| - 1], own, a, p);
      assert q == q[..|q| - 1] + [q[|q| - 1]];
    }
  }

  /** Exactly the arenas that own a flushed pointer are locked, each of them once. */
  lemma {:induction false} LocksOnce(q: seq<Ptr>, own: Owner)
    ensures forall b :: b in Locks(q, own) <==> exists p :: p in q && ArenaOf(own, p) == b
    ensures forall i, j :: 0 <= i < j < |Locks(q, own)| ==> Locks(q, own)[i] != Locks(q, own)[j]
    decreases |q|
  {
    if q != [] {
      var a := ArenaOf(own, q[0]);
      var rest := NotOf(q, own, a);
      Shrinks(q, own);
      LocksOnce(rest, own);
      assert Locks(q, own) == [a] + Locks(rest, own);
      forall b ensures b in Locks(q, own) <==> exists p :: p in q && ArenaOf(own, p) == b {
        if b in Locks(q, own) && b != a {
          var p :| p in rest && ArenaOf(own, p) == b;
          NotOfHas(q, own, a, p);
        }
        if exists p :: p in q && ArenaOf(own, p) == b {
          var p :| p in q && ArenaOf(own, p) == b;
          NotOfHas(q, own, a, p);
        }
      }
      if a in Locks(rest, own) {
        var p :| p in rest && ArenaOf(own, p) == a;
        NotOfHas(q, own, a, p);
      }
    }
  }

  /** Right shift. */
  function Shr(n: nat, k: nat): (r: nat)
    ensures r <= n
  {
    if k == 0 then n else Shr(n / 2, k - 1)
  }

  /** It divides by a power of two, rounding down. */
  lemma {:induction false} ShrDivides(n: nat, k: nat)
    ensures Shr(n, k) == n / Pow2(k)
  {
    if k > 0 {
      var p := Pow2(k - 1);
      ShrDivides(n / 2, k - 1);
      HalvesTwice(n, p);
    }
  }

  lemma HalvesTwice(n: nat, p: nat)
    requires p > 0
    ensures n / 2 / p == n / (2 * p)
  {
    var q, r := n / 2 / p, n / 2 % p;
    assert n / 2 == p * q + r;
    assert n == 2 * (p * q) + (2 * r + n % 2);
    assert 2 * (p * q) == q * (2 * p);
    DivUnique(n, 2 * p, q, 2 * r + n % 2);
  }

  lemma {:induction false} ShrShrinks(n: nat, k: nat)
    ensures Shr(n, k + 1) <= Shr(n, k)
  {
    if k > 0 {
      ShrShrinks(n / 2, k - 1);
    }
  }

  lemma Assoc(a: seq<Ptr>, b: seq<Ptr>, c: seq<Ptr>)
    ensures a + (b + c) == a + b + c
  {
  }

  // ----- The bin -----

  class Bin {
    const own: Owner
    const home: ArenaId
    const avail: array<Ptr>
    var ncached: nat
    var lowWater: int
    var lgFillDiv: nat
    var nrequests: nat

    /** Pointers given back, the locks taken for it, and the requests credited to the home arena. */
    ghost var returned: seq<Ptr>
    ghost var locked: seq<ArenaId>
    ghost var credited: nat

    ghost predicate Valid()
      reads this
    {
      && avail.Length >= 2 && ncached <= avail.Length
      && -1 <= lowWater <= ncached
      && 1 <= lgFillDiv && Shr(avail.Length, lgFillDiv) >= 1
    }

    ghost function Cached(): seq<Ptr>
      reads this, avail
      requires ncached <= avail.Length
    {
      avail[..ncached]
    }

    constructor (own: Owner, home: ArenaId, ncachedMax: nat)
      requires ncachedMax >= 2
      ensures Valid() && Cached() == [] && fresh(avail) && avail.Length == ncachedMax
      ensures this.own == own && this.home == home && lowWater == 0 && lgFillDiv == 1
      ensures returned == [] && locked == [] && credited == 0 && nrequests == 0
    {
      this.own, this.home := own, home;
      avail := new Ptr[ncachedMax];
      ncached, lowWater, lgFillDiv, nrequests := 0, 0, 1, 0;
      returned, locked, credited := [], [], 0;
    }

    /** The cells from n on are as they were. */
    predicate Kept(n: nat, was: seq<Ptr>)
      reads avail
    {
      avail.Length == |was| && forall i :: n <= i < avail.Length ==> avail[i] == was[i]
    }

    lemma KeptOn(n: nat, m: nat, was: seq<Ptr>, first: seq<Ptr>)
      requires m <= n && Kept(m, was) && |first| == |was| && forall i :: n <= i < |was| ==> was[i] == first[i]
      ensures Kept(n, first)
    {
    }

    /** One pass: returns the first pointer's arena's share and moves the others to the front. */
    method Pass(nflush: nat) returns (ndeferred: nat)
      requires 0 < nflush <= ncached <= avail.Length
      modifies this`returned, this`locked, avail
      ensures var q, a := old(avail[..nflush]), old(ArenaOf(own, avail[0]));
              && ndeferred < nflush && avail[..ndeferred] == NotOf(q, own, a)
              && returned == old(returned) + Of(q, own, a) && locked == old(locked) + [a]
      ensures Kept(nflush, old(avail[..]))
    {
      hide *;
      var arena := ArenaOf(own, avail[0]);
      ghost var q := avail[..nflush];
      NoneSorted(q, own, arena);
      locked := locked + [arena];
      ndeferred := 0;
      for i := 0 to nflush
        invariant ndeferred <= i && avail[..ndeferred] == NotOf(q[..i], own, arena)
        invariant forall j :: i <= j < avail.Length ==> avail[j] == old(avail[j])
        invariant returned == old(returned) + Of(q[..i], own, arena)
        invariant locked == old(locked) + [arena]
      {
        var ptr := avail[i];
        assert ptr == q[i];
        OneSorted(q, own, arena, i);
        if ArenaOf(own, ptr) == arena {
          returned := returned + [ptr];
        } else {
          ghost var front := avail[..ndeferred];
          avail[ndeferred] := ptr;
          assert avail[..ndeferred] == front;
          ndeferred := ndeferred + 1;
        }
      }
      assert q[..nflush] == q;
      Shrinks(q, own);
      RestKept(nflush, old(avail[..]));
    }

    lemma RestKept(n: nat, before: seq<Ptr>)
      requires n <= avail.Length == |before| && forall j :: n <= j < avail.Length ==> avail[j] == before[j]
      ensures Kept(n, before)
    {
    }

    /** Keeps the newest `rem` pointers and returns the others; a small bin and a large bin go the same way. */
    method Flush(rem: nat)
      requires Valid() && rem <= ncached
      modifies this`returned, this`locked, this`credited, this`nrequests, this`ncached, this`lowWater, avail
      ensures Valid() && Cached() == old(Cached())[old(ncached) - rem..]
      ensures var q := old(Cached())[..old(ncached) - rem];
              returned == old(returned) + Flushed(q, own) && locked == old(locked) + Locks(q, own)
      ensures nrequests == 0 && credited == old(credited) + old(nrequests)
      ensures lowWater == if rem < old(lowWater) then rem else old(lowWater)
    {
      hide Flushed, Locks;
      var n: nat := ncached - rem;
      assert avail[..ncached][..n] == avail[..n] && avail[..ncached][n..] == avail[n..ncached];
      ghost var was := avail[..];
      assert was[..n] == avail[..n] && was[n..ncached] == avail[n..ncached];
      FlushOldest(n);
      assert avail[n..ncached] == was[n..ncached];
      Slide(rem);
      ncached := rem;
      if ncached < lowWater {
        lowWater := ncached;
      }
    }

    /** Returns the oldest pointers; the others stay where they are. */
    method FlushOldest(n: nat)
      requires n <= ncached <= avail.Length
      modifies this`returned, this`locked, this`credited, this`nrequests, avail
      ensures Kept(n, old(avail[..]))
      ensures returned == old(returned) + Flushed(old(avail[..n]), own)
      ensures locked == old(locked) + Locks(old(avail[..n]), own)
      ensures nrequests == 0 && credited == old(credited) + old(nrequests)
    {
      var nflush: nat := n;
      ghost var q := avail[..n];
      var merged := false;
      ghost var done: seq<ArenaId> := [];
      while nflush > 0
        invariant nflush <= n
        invariant Kept(n, old(avail[..]))
        invariant returned + Flushed(avail[..nflush], own) == old(returned) + Flushed(q, own)
        invariant done + Locks(avail[..nflush], own) == Locks(q, own) && locked == old(locked) + done
        invariant merged <==> home in done
        invariant credited + nrequests == old(credited) + old(nrequests) && (merged ==> nrequests == 0)
      {
        ghost var arena := ArenaOf(own, avail[0]);
        assert avail[..nflush][0] == avail[0];
        NotYet(done, avail[..nflush], q);
        hide *;
        ghost var from, was := nflush, avail[..];
        nflush, merged := Round(nflush, merged);
        Assoc(done, [arena], Locks(avail[..nflush], own));
        KeptOn(n, from, was, old(avail[..]));
        done := done + [arena];
      }
      assert avail[..0] == [] && Flushed([], own) == [] && Locks([], own) == [];
      hide *;
      if !merged {
        credited := credited + nrequests;
        nrequests := 0;
      }
    }

    /** Credits the requests if it is the home arena's turn, and makes one pass. */
    method Round(nflush: nat, merged: bool) returns (ndeferred: nat, now: bool)
      requires 0 < nflush <= ncached <= avail.Length && (ArenaOf(own, avail[0]) == home ==> !merged)
      modifies this`returned, this`locked, this`credited, this`nrequests, avail
      ensures ndeferred < nflush && Kept(nflush, old(avail[..]))
      ensures returned + Flushed(avail[..ndeferred], own) == old(returned) + Flushed(old(avail[..nflush]), own)
      ensures locked == old(locked) + [old(ArenaOf(own, avail[0]))]
      ensures Locks(old(avail[..nflush]), own) == [old(ArenaOf(own, avail[0]))] + Locks(avail[..ndeferred], own)
      ensures now == (merged || old(ArenaOf(own, avail[0])) == home)
      ensures credited + nrequests == old(credited) + old(nrequests)
      ensures if old(ArenaOf(own, avail[0])) == home then nrequests == 0 else nrequests == old(nrequests)
    {
      NextPass(returned, avail[..nflush]);
      hide *;
      now := Credit(ArenaOf(own, avail[0]), merged);
      ndeferred := Pass(nflush);
    }

    /** Credits the requests when the home arena's lock is taken, which happens at most once in a flush. */
    method Credit(arena: ArenaId, merged: bool) returns (now: bool)
      requires arena == home ==> !merged
      modifies this`credited, this`nrequests
      ensures now == (merged || arena == home)
      ensures credited + nrequests == old(credited) + old(nrequests)
      ensures if arena == home then nrequests == 0 else nrequests == old(nrequests)
    {
      now := merged;
      if arena == home {
        assert !merged;
        now := true;
        credited := credited + nrequests;
        nrequests := 0;
      }
    }

    lemma NextPass(before: seq<Ptr>, now: seq<Ptr>)
      requires now != []
      ensures var rest := NotOf(now, own, ArenaOf(own, now[0]));
              && before + Flushed(now, own) == before + Of(now, own, ArenaOf(own, now[0])) + Flushed(rest, own)
              && Locks(now, own) == [ArenaOf(own, now[0])] + Locks(rest, own)
    {
      Shrinks(now, own);
      var arena := ArenaOf(own, now[0]);
      Assoc(before, Of(now, own, arena), Flushed(NotOf(now, own, arena), own));
    }

    /** An arena still to be locked has not been locked in this flush. */
    lemma NotYet(done: seq<ArenaId>, now: seq<Ptr>, q: seq<Ptr>)
      requires now != [] && done + Locks(now, own) == Locks(q, own)
      ensures ArenaOf(own, now[0]) !in done
    {
      NextPass([], now);
      LocksOnce(q, own);
      var all := Locks(q, own);
      assert all[|done|] == ArenaOf(own, now[0]);
      assert forall i :: 0 <= i < |done| ==> all[i] == done[i];
    }

    /** Moves the newest pointers to the front. */
    method Slide(rem: nat)
      requires rem <= ncached <= avail.Length
      modifies avail
      ensures avail[..rem] == old(avail[ncached - rem..ncached])
    {
      forall i | 0 <= i < rem {
        avail[i] := avail[ncached - rem + i];
      }
    }

    /** Takes the newest pointer; a miss is remembered in the low water mark. */
    method Pop() returns (ptr: Ptr, hit: bool)
      requires Valid()
      modifies this`ncached, this`lowWater
      ensures Valid() && hit == (old(ncached) > 0)
      ensures hit ==> old(Cached()) == Cached() + [ptr]
      ensures !hit ==> Cached() == [] && lowWater == -1
      ensures hit ==> lowWater == if ncached < old(lowWater) then ncached else old(lowWater)
    {
      if ncached == 0 {
        lowWater := -1;
        return 0, false;
      }
      ncached := ncached - 1;
      if ncached < lowWater {
        lowWater := ncached;
      }
      return avail[ncached], true;
    }

    /** Caches a freed pointer, first returning the older half of a full bin. */
    method Push(ptr: Ptr)
      requires Valid()
      modifies this`returned, this`locked, this`credited, this`nrequests, this`ncached, this`lowWater, avail
      ensures Valid()
      ensures var n := old(ncached);
              var keep := if n == avail.Length then avail.Length / 2 else n;
              && Cached() == old(Cached())[n - keep..] + [ptr]
              && returned == old(returned) + Flushed(old(Cached())[..n - keep], own)
    {
      MakeRoom();
      hide *;
      avail[ncached] := ptr;
      ncached := ncached + 1;
      assert avail[..ncached] == avail[..ncached - 1] + [ptr];
    }

    method MakeRoom()
      requires Valid()
      modifies this`returned, this`locked, this`credited, this`nrequests, this`ncached, this`lowWater, avail
      ensures Valid() && ncached < avail.Length
      ensures var n := old(ncached);
              var keep := if n == avail.Length then avail.Length / 2 else n;
              && Cached() == old(Cached())[n - keep..]
              && returned == old(returned) + Flushed(old(Cached())[..n - keep], own)
    {
      hide Flushed, Locks, ArenaOf, Shr;
      NoneFlushed(own);
      if ncached == avail.Length {
        Flush(avail.Length / 2);
      } else {
        assert avail[..ncached][..0] == [];
      }
    }

    /** Refills an empty bin from the arena; `got` is what the arena could give. */
    method Fill(got: seq<Ptr>)
      requires Valid() && ncached == 0 && |got| <= Shr(avail.Length, lgFillDiv)
      modifies this`ncached, this`lowWater, this`credited, this`nrequests, avail
      ensures ncached == |got| && Cached() == got && nrequests == 0 && credited == old(credited) + old(nrequests)
      ensures Valid()
      ensures lowWater == old(lowWater)
    {
      forall i | 0 <= i < |got| {
        avail[i] := got[i];
      }
      credited := credited + nrequests;
      nrequests := 0;
      ncached := |got|;
    }

    method CollectIdle()
      requires Valid() && lowWater > 0
      modifies this`returned, this`locked, this`credited, this`nrequests, this`ncached, this`lowWater, avail
      ensures Valid()
      ensures var away := (3 * old(lowWater) + 3) / 4;
              && away <= old(ncached) && Cached() == old(Cached())[away..]
              && returned == old(returned) + Flushed(old(Cached())[..away], own)
    {
      var rem: nat := ncached - lowWater + lowWater / 4;
      assert ncached - rem == (3 * lowWater + 3) / 4;
      hide Flushed, Locks, ArenaOf, Shr;
      Flush(rem);
    }

    /** Periodic collection: three quarters, rounded up, of what lay below the low water mark goes back. */
    method Collect()
      requires Valid()
      modifies this`returned, this`locked, this`credited, this`nrequests, this`ncached, this`lowWater, this`lgFillDiv, avail
      ensures Valid() && lowWater == ncached
      ensures old(lowWater) > 0 ==>
                var away := (3 * old(lowWater) + 3) / 4;
                && Cached() == old(Cached())[away..]
                && returned == old(returned) + Flushed(old(Cached())[..away], own)
      ensures old(lowWater) <= 0 ==> Cached() == old(Cached()) && returned == old(returned)
      ensures lgFillDiv == if old(lowWater) > 0 && Shr(avail.Length, old(lgFillDiv) + 1) >= 1 then old(lgFillDiv) + 1
                           else if old(lowWater) < 0 && old(lgFillDiv) > 1 then old(lgFillDiv) - 1 else old(lgFillDiv)
    {
      hide Flushed, Locks, ArenaOf, Shr;
      if lowWater > 0 {
        CollectIdle();
        FillLess();
      } else {
        if lowWater < 0 {
          FillMore();
        }
      }
      lowWater := ncached;
    }

    method FillLess()
      requires Valid()
      modifies this`lgFillDiv
      ensures Valid()
      ensures lgFillDiv == old(lgFillDiv) + if Shr(avail.Length, old(lgFillDiv) + 1) >= 1 then 1 else 0
    {
      if Shr(avail.Length, lgFillDiv + 1) >= 1 {
        lgFillDiv := lgFillDiv + 1;
      }
    }

    method FillMore()
      requires Valid()
      modifies this`lgFillDiv
      ensures Valid()
      ensures lgFillDiv == if old(lgFillDiv) > 1 then old(lgFillDiv) - 1 else 1
    {
      if lgFillDiv > 1 {
        ShrShrinks(avail.Length, lgFillDiv - 1);
        lgFillDiv := lgFillDiv - 1;
      }
    }
  }
}
