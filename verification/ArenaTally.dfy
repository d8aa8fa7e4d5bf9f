/**
 How the counts and the index of idle runs change when one run of a chunk becomes idle or stops being so.
 */
module ArenaTally {
  import opened ArenaMap

  /** The counts kept per chunk, with the starts of the idle runs that are indexed. */
  datatype Tally = Tally(navail: nat, nadjac: nat, ndirty: nat, avail: set<nat>)

  function TallyOf(rs: seq<Run>, s: nat): Tally {
    Tally(Navail(rs), Nadjac(rs), Ndirty(rs), Avail(rs, s))
  }

  predicate Positive(rs: seq<Run>) {
    forall i :: 0 <= i < |rs| ==> rs[i].pages > 0
  }

  lemma {:induction false} LaidPositive(m: seq<Bits>, h: Headers, s: nat, rs: seq<Run>, e: nat)
    requires Laid(m, h, s, rs, e)
    ensures Positive(rs)
    decreases rs
  {
    if rs != [] {
      LaidPositive(m, h, s + rs[0].pages, rs[1..], e);
    }
  }

  lemma {:induction false} AvailWithin(rs: seq<Run>, s: nat)
    requires Positive(rs)
    ensures forall w :: w in Avail(rs, s) ==> s <= w < s + Pages(rs)
    decreases rs
  {
    if rs != [] {
      AvailWithin(rs[1..], s + rs[0].pages);
    }
  }

  /** What one idle run contributes. */
  lemma IdleCounts(a: seq<Run>, n: nat, d: bool, b: seq<Run>, s: nat)
    requires Positive(a) && Positive(b) && n > 0
    ensures var idle, busy, w := TallyOf(Among(a, Idle(n, d), b), s), TallyOf(Among(a, Large(n, false), b), s), s + Pages(a);
            && idle.navail == busy.navail + 1
            && idle.nadjac == busy.nadjac + Touch(a, [Idle(n, d)]) + Touch([Idle(n, d)], b)
            && idle.ndirty == busy.ndirty + (if d then n else 0)
            && w !in busy.avail && idle.avail == busy.avail + {w}
  {
    IdleSums(a, n, d, b);
    IdleSets(a, n, d, b, s);
    hide Navail, Nadjac, Ndirty, Avail, Pages, Touch;
  }

  lemma IdleSums(a: seq<Run>, n: nat, d: bool, b: seq<Run>)
    ensures var idle, busy := Among(a, Idle(n, d), b), Among(a, Large(n, false), b);
            && Navail(idle) == Navail(busy) + 1 && Ndirty(idle) == Ndirty(busy) + (if d then n else 0)
            && Nadjac(idle) == Nadjac(busy) + Touch(a, [Idle(n, d)]) + Touch([Idle(n, d)], b)
  {
    AroundCounts(a, Idle(n, d), b);
    AroundCounts(a, Large(n, false), b);
    assert Touch(a, [Large(n, false)]) == 0 && Touch([Large(n, false)], b) == 0;
    hide Navail, Nadjac, Ndirty, Pages, Touch;
  }

  lemma IdleSets(a: seq<Run>, n: nat, d: bool, b: seq<Run>, s: nat)
    requires Positive(a) && Positive(b) && n > 0
    ensures var idle, busy, w := Avail(Among(a, Idle(n, d), b), s), Avail(Among(a, Large(n, false), b), s), s + Pages(a);
            w !in busy && idle == busy + {w}
  {
    AroundSets(a, Idle(n, d), b, s);
    AroundSets(a, Large(n, false), b, s);
    AvailWithin(a, s);
    AvailWithin(b, s + Pages(a) + n);
    hide Avail, Busy, Pages;
  }

  /** Two busy runs in a row count like one. */
  lemma BusyMerge(a: seq<Run>, x: nat, y: nat, e: bool, b: seq<Run>, s: nat)
    ensures TallyOf(Among(a, Large(x, false), Cons(Large(y, e), b)), s) == TallyOf(Among(a, Large(x + y, false), b), s)
    ensures Among(Snoc(a, Large(x, false)), Large(y, e), b) == Among(a, Large(x, false), Cons(Large(y, e), b))
    ensures TallyOf(Among(Snoc(a, Large(x, false)), Large(y, e), b), s) == TallyOf(Among(a, Large(x + y, false), b), s)
  {
    MergeSums(a, x, y, e, b);
    MergeSets(a, x, y, e, b, s);
    AmongShift(a, Large(x, false), Large(y, e), b);
    hide Navail, Nadjac, Ndirty, Avail, Pages;
  }

  lemma MergeSums(a: seq<Run>, x: nat, y: nat, e: bool, b: seq<Run>)
    ensures var two, one := Among(a, Large(x, false), Cons(Large(y, e), b)), Among(a, Large(x + y, false), b);
            Navail(two) == Navail(one) && Nadjac(two) == Nadjac(one) && Ndirty(two) == Ndirty(one)
  {
    var c := Cons(Large(y, e), b);
    AroundCounts(a, Large(x, false), c);
    AroundCounts(a, Large(x + y, false), b);
    BusyFront(y, e, b, 0);
    assert Touch([Large(x, false)], c) == 0 && Touch([Large(x + y, false)], b) == 0;
    assert Touch(a, [Large(x, false)]) == 0 && Touch(a, [Large(x + y, false)]) == 0;
    hide Navail, Nadjac, Ndirty, Pages, Touch;
  }

  lemma BusyFront(y: nat, e: bool, b: seq<Run>, s: nat)
    ensures var c := Cons(Large(y, e), b);
            && Navail(c) == Navail(b) && Nadjac(c) == Nadjac(b) && Ndirty(c) == Ndirty(b) && Avail(c, s) == Avail(b, s + y)
  {
    assert Cons(Large(y, e), b)[1..] == b;
    if b == [] {
      assert [Large(y, e)] + b == [Large(y, e)];
    }
  }

  lemma MergeSets(a: seq<Run>, x: nat, y: nat, e: bool, b: seq<Run>, s: nat)
    ensures Avail(Among(a, Large(x, false), Cons(Large(y, e), b)), s) == Avail(Among(a, Large(x + y, false), b), s)
  {
    AroundSets(a, Large(x, false), Cons(Large(y, e), b), s);
    AroundSets(a, Large(x + y, false), b, s);
    BusyFront(y, e, b, s + Pages(a) + x);
    hide Avail, Busy, Pages;
  }

  /** Which kind of busy run it is does not count. */
  lemma BusyKind(a: seq<Run>, r: Run, b: seq<Run>, s: nat)
    requires !r.Idle?
    ensures TallyOf(Among(a, r, b), s) == TallyOf(Among(a, Large(r.pages, false), b), s)
  {
    hide Navail, Nadjac, Ndirty, Nactive, Avail, Busy, Pages, Among;
    AroundCounts(a, r, b);
    AroundCounts(a, Large(r.pages, false), b);
    AroundSets(a, r, b, s);
    AroundSets(a, Large(r.pages, false), b, s);
  }

  lemma {:induction false} BusyWithin(rs: seq<Run>, s: nat)
    requires Positive(rs)
    ensures forall t :: t in Busy(rs, s) ==> s <= t.start && t.pages > 0 && t.start + t.pages <= s + Pages(rs)
    decreases rs
  {
    if rs != [] {
      BusyWithin(rs[1..], s + rs[0].pages);
    }
  }

  /** Two blocks in use never overlap. */
  lemma {:induction false} BusyDisjoint(rs: seq<Run>, s: nat, t: Block, u: Block)
    requires Positive(rs) && t in Busy(rs, s) && u in Busy(rs, s) && t != u
    ensures t.start + t.pages <= u.start || u.start + u.pages <= t.start
    decreases rs
  {
    var rest := rs[1..];
    BusyWithin(rest, s + rs[0].pages);
    if t in Busy(rest, s + rs[0].pages) && u in Busy(rest, s + rs[0].pages) {
      BusyDisjoint(rest, s + rs[0].pages, t, u);
    }
  }
}
