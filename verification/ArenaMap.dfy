/**
 The page map of an arena's chunk, abstractly: a list of runs that tile the chunk, what the map holds at
 both ends of each, and the counts kept about them.
 */
module ArenaMap {
  /** A page's entry; sizes are in pages. Entries inside a run hold leftovers. */
  datatype Bits = Bits(used: bool, large: bool, dirty: bool, unzeroed: bool, size: nat)

  /** A run of pages: idle, or given out whole, or cut into small regions. */
  datatype Run =
    | Idle(pages: nat, dirty: bool)
    | Large(pages: nat, dirty: bool)
    | Small(pages: nat, dirty: bool)

  /** A run in use: where it starts, how long it is, and whether it is given out whole. */
  datatype Block = Block(start: nat, pages: nat, large: bool)

  /** The page counts that small runs carry in their own headers. */
  type Headers = map<nat, nat>

  // ----- Lists of runs -----

  function Cons(r: Run, b: seq<Run>): seq<Run> {
    [r] + b
  }

  function Snoc(a: seq<Run>, r: Run): seq<Run> {
    a + [r]
  }

  /** A run with those before and behind it. */
  function Among(a: seq<Run>, r: Run, b: seq<Run>): seq<Run> {
    a + [r] + b
  }

  lemma AmongShift(a: seq<Run>, x: Run, y: Run, b: seq<Run>)
    ensures Among(Snoc(a, x), y, b) == Among(a, x, Cons(y, b))
  {
  }

  function Pages(rs: seq<Run>): nat {
    if rs == [] then 0 else rs[0].pages + Pages(rs[1..])
  }

  /** Number of idle runs. */
  function Navail(rs: seq<Run>): nat {
    if rs == [] then 0 else (if rs[0].Idle? then 1 else 0) + Navail(rs[1..])
  }

  /** Number of places where two idle runs touch. */
  function Nadjac(rs: seq<Run>): nat {
    if |rs| < 2 then 0 else Touch(rs[..1], rs[1..]) + Nadjac(rs[1..])
  }

  function Touch(a: seq<Run>, b: seq<Run>): nat {
    if a != [] && b != [] && a[|a| - 1].Idle? && b[0].Idle? then 1 else 0
  }

  /** Number of idle dirty pages. */
  function Ndirty(rs: seq<Run>): nat {
    if rs == [] then 0 else (if rs[0].Idle? && rs[0].dirty then rs[0].pages else 0) + Ndirty(rs[1..])
  }

  /** Number of pages in use. */
  function Nactive(rs: seq<Run>): nat {
    if rs == [] then 0 else (if rs[0].Idle? then 0 else rs[0].pages) + Nactive(rs[1..])
  }

  /** Where the idle runs start, with the list starting at page s. */
  function Avail(rs: seq<Run>, s: nat): set<nat> {
    if rs == [] then {} else (if rs[0].Idle? then {s} else {}) + Avail(rs[1..], s + rs[0].pages)
  }

  function Busy(rs: seq<Run>, s: nat): set<Block> {
    if rs == [] then {}
    else (if rs[0].Idle? then {} else {Block(s, rs[0].pages, rs[0].Large?)}) + Busy(rs[1..], s + rs[0].pages)
  }

  /** The second list has one more block in use than the first. */
  predicate Gains(rs: seq<Run>, new_: seq<Run>, s: nat, t: Block) {
    t !in Busy(rs, s) && Busy(new_, s) == Busy(rs, s) + {t}
  }

  /** The second list has one block less in use. */
  predicate Loses(rs: seq<Run>, new_: seq<Run>, s: nat, t: Block) {
    Busy(new_, s) == Busy(rs, s) - {t}
  }

  /** No two idle runs that touch are equally dirty. */
  predicate Apart(rs: seq<Run>) {
    forall i :: 0 <= i < |rs| - 1 ==> MayTouch(rs[i], rs[i + 1])
  }

  predicate MayTouch(r: Run, t: Run) {
    !(r.Idle? && t.Idle? && r.dirty == t.dirty)
  }

  predicate MayJoin(a: seq<Run>, b: seq<Run>) {
    a != [] && b != [] ==> MayTouch(a[|a| - 1], b[0])
  }

  lemma {:induction false} ConcatSums(a: seq<Run>, b: seq<Run>)
    ensures Pages(a + b) == Pages(a) + Pages(b) && Navail(a + b) == Navail(a) + Navail(b)
    ensures Ndirty(a + b) == Ndirty(a) + Ndirty(b) && Nactive(a + b) == Nactive(a) + Nactive(b)
    decreases a
  {
    if a == [] {
      assert a + b == b;
    } else {
      assert (a + b)[1..] == a[1..] + b && (a + b)[0] == a[0];
      ConcatSums(a[1..], b);
    }
  }

  lemma {:induction false} ConcatSets(a: seq<Run>, b: seq<Run>, s: nat)
    ensures Avail(a + b, s) == Avail(a, s) + Avail(b, s + Pages(a))
    ensures Busy(a + b, s) == Busy(a, s) + Busy(b, s + Pages(a))
    decreases a
  {
    if a == [] {
      assert a + b == b;
    } else {
      assert (a + b)[1..] == a[1..] + b && (a + b)[0] == a[0];
      ConcatSets(a[1..], b, s + a[0].pages);
    }
  }

  lemma {:induction false} ConcatAdjac(a: seq<Run>, b: seq<Run>)
    ensures Nadjac(a + b) == Nadjac(a) + Nadjac(b) + Touch(a, b)
    decreases a
  {
    if a == [] {
      assert a + b == b;
    } else {
      ConcatAdjac(a[1..], b);
      ConcatTouch(a, b);
    }
  }

  lemma ConcatTouch(a: seq<Run>, b: seq<Run>)
    requires a != [] && Nadjac(a[1..] + b) == Nadjac(a[1..]) + Nadjac(b) + Touch(a[1..], b)
    ensures Nadjac(a + b) == Nadjac(a) + Nadjac(b) + Touch(a, b)
  {
    assert (a + b)[1..] == a[1..] + b;
    assert (a + b)[..1] == a[..1];
    if |a| == 1 {
      assert a[1..] + b == b && a[..1] == a;
    } else {
      assert a[1..][|a| - 2] == a[|a| - 1];
    }
  }

  lemma ConcatApart(a: seq<Run>, b: seq<Run>)
    ensures Apart(a + b) <==> Apart(a) && Apart(b) && MayJoin(a, b)
  {
    var c := a + b;
    if Apart(c) {
      forall i | 0 <= i < |a| - 1 ensures MayTouch(a[i], a[i + 1]) {
        assert MayTouch(c[i], c[i + 1]);
      }
      forall i | 0 <= i < |b| - 1 ensures MayTouch(b[i], b[i + 1]) {
        assert MayTouch(c[|a| + i], c[|a| + i + 1]);
      }
      if a != [] && b != [] {
        assert MayTouch(c[|a| - 1], c[|a|]);
      }
    }
    if Apart(a) && Apart(b) && MayJoin(a, b) {
      forall i | 0 <= i < |c| - 1 ensures MayTouch(c[i], c[i + 1]) {
        if i >= |a| {
          assert MayTouch(b[i - |a|], b[i - |a| + 1]);
        } else if i < |a| - 1 {
          assert MayTouch(a[i], a[i + 1]);
        }
      }
    }
  }

  /** There are more idle runs than places where idle runs touch. */
  lemma {:induction false} FewerAdjac(rs: seq<Run>)
    ensures Nadjac(rs) < Navail(rs) || Navail(rs) == 0 == Nadjac(rs)
    ensures Nadjac(rs) + (if rs != [] && !rs[0].Idle? then 1 else 0) <= Navail(rs) || Navail(rs) == 0
    decreases rs
  {
    if |rs| >= 2 {
      FewerAdjac(rs[1..]);
      if rs[0].Idle? && rs[1].Idle? {
        assert Navail(rs[1..]) > 0;
      }
    }
  }

  // ----- The map -----

  /** What the map holds for a run that starts at page s. */
  predicate Ends(m: seq<Bits>, h: Headers, s: nat, r: Run) {
    && r.pages > 0 && s + r.pages <= |m|
    && var first, last := m[s], m[s + r.pages - 1];
       match r
       case Idle(n, d) =>
         !first.used && !last.used && !first.large && !last.large && first.size == last.size == n
         && first.dirty == last.dirty == d
       case Large(n, d) =>
         first.used && last.used && first.large && last.large && first.size == n
         && (n > 1 ==> last.size == 0) && first.dirty == last.dirty == d
       case Small(n, d) =>
         CountUp(m, s, n) && first.dirty == last.dirty == d && s in h && h[s] == n
  }

  /** Each page of a small run tells how far it is from the run's start. */
  predicate CountUp(m: seq<Bits>, s: nat, n: nat)
    requires s + n <= |m|
  {
    forall i :: s <= i < s + n ==> m[i].used && !m[i].large && m[i].size == i - s
  }

  /** The map holds these runs from page s to page e. */
  predicate Laid(m: seq<Bits>, h: Headers, s: nat, rs: seq<Run>, e: nat)
    decreases rs
  {
    if rs == [] then s == e else Ends(m, h, s, rs[0]) && Laid(m, h, s + rs[0].pages, rs[1..], e)
  }

  lemma {:induction false} LaidSplit(m: seq<Bits>, h: Headers, s: nat, a: seq<Run>, b: seq<Run>, e: nat)
    ensures Laid(m, h, s, a + b, e) <==> Laid(m, h, s, a, s + Pages(a)) && Laid(m, h, s + Pages(a), b, e)
    decreases a
  {
    if a == [] {
      assert a + b == b;
    } else {
      assert (a + b)[1..] == a[1..] + b;
      LaidSplit(m, h, s + a[0].pages, a[1..], b, e);
    }
  }

  lemma {:induction false} LaidSize(m: seq<Bits>, h: Headers, s: nat, rs: seq<Run>, e: nat)
    requires Laid(m, h, s, rs, e)
    ensures e == s + Pages(rs) && (rs != [] ==> s < e <= |m|)
    decreases rs
  {
    if rs != [] {
      LaidSize(m, h, s + rs[0].pages, rs[1..], e);
    }
  }

  /** Entries outside do not matter. */
  lemma {:induction false} LaidFrame(m: seq<Bits>, h: Headers, m': seq<Bits>, h': Headers, s: nat, rs: seq<Run>, e: nat)
    requires Laid(m, h, s, rs, e) && |m'| == |m|
    requires forall i :: s <= i < e && i < |m| ==> m'[i] == m[i] && (i in h ==> i in h' && h'[i] == h[i])
    ensures Laid(m', h', s, rs, e)
    decreases rs
  {
    if rs != [] {
      LaidSize(m, h, s, rs, e);
      LaidSize(m, h, s + rs[0].pages, rs[1..], e);
      LaidFrame(m, h, m', h', s + rs[0].pages, rs[1..], e);
    }
  }

  /** The entry before a place tells the state of the run that ends there. */
  lemma {:induction false} LastEntry(m: seq<Bits>, h: Headers, s: nat, rs: seq<Run>, e: nat)
    requires Laid(m, h, s, rs, e) && rs != []
    ensures 0 < e <= |m| && rs[|rs| - 1].pages <= e && Ends(m, h, e - rs[|rs| - 1].pages, rs[|rs| - 1])
    ensures Laid(m, h, s, rs[..|rs| - 1], e - rs[|rs| - 1].pages)
    decreases rs
  {
    LaidSize(m, h, s, rs, e);
    if |rs| > 1 {
      LastEntry(m, h, s + rs[0].pages, rs[1..], e);
      assert rs[1..][|rs| - 2] == rs[|rs| - 1];
      assert rs[..|rs| - 1][1..] == rs[1..][..|rs| - 2];
    }
  }

  // ----- One run in its place -----

  /** The totals of a list in terms of one of its runs, at page w. */
  lemma AroundCounts(a: seq<Run>, r: Run, b: seq<Run>)
    ensures var rs := Among(a, r, b);
            && Pages(rs) == Pages(a) + r.pages + Pages(b)
            && Navail(rs) == Navail(a) + (if r.Idle? then 1 else 0) + Navail(b)
            && Ndirty(rs) == Ndirty(a) + (if r.Idle? && r.dirty then r.pages else 0) + Ndirty(b)
            && Nactive(rs) == Nactive(a) + (if r.Idle? then 0 else r.pages) + Nactive(b)
            && Nadjac(rs) == Nadjac(a) + Touch(a, [r]) + Nadjac(b) + Touch([r], b)
  {
    ConcatSums(a, [r]);
    ConcatSums(Snoc(a, r), b);
    ConcatAdjac(a, [r]);
    ConcatAdjac(Snoc(a, r), b);
  }

  lemma AroundSets(a: seq<Run>, r: Run, b: seq<Run>, s: nat)
    ensures var rs, w := Among(a, r, b), s + Pages(a);
            && Avail(rs, s) == Avail(a, s) + (if r.Idle? then {w} else {}) + Avail(b, w + r.pages)
            && Busy(rs, s) == Busy(a, s) + (if r.Idle? then {} else {Block(w, r.pages, r.Large?)}) + Busy(b, w + r.pages)
  {
    ConcatSums(a, [r]);
    ConcatSets(a, [r], s);
    ConcatSets(Snoc(a, r), b, s);
  }

  lemma AroundApart(a: seq<Run>, r: Run, b: seq<Run>)
    ensures Apart(Among(a, r, b)) <==> Apart(a) && Apart(b) && MayJoin(a, [r]) && MayJoin([r], b)
  {
    ConcatApart(a, [r]);
    ConcatApart(Snoc(a, r), b);
    assert Snoc(a, r) != [] && Snoc(a, r)[|a|] == r;
  }

  lemma AroundLaid(m: seq<Bits>, h: Headers, s: nat, a: seq<Run>, r: Run, b: seq<Run>, e: nat)
    ensures var w := s + Pages(a);
            Laid(m, h, s, Among(a, r, b), e) <==>
            Laid(m, h, s, a, w) && Ends(m, h, w, r) && Laid(m, h, w + r.pages, b, e)
  {
    assert Among(a, r, b) == a + Cons(r, b);
    LaidSplit(m, h, s, a, Cons(r, b), e);
    assert Cons(r, b)[1..] == b;
  }

  /** A run is found where the list says it starts. */
  lemma {:induction false} FindBusy(rs: seq<Run>, s: nat, t: Block) returns (i: nat)
    requires t in Busy(rs, s)
    ensures i < |rs| && s + Pages(rs[..i]) == t.start && rs[i].pages == t.pages && !rs[i].Idle? && rs[i].Large? == t.large
    ensures rs == Among(rs[..i], rs[i], rs[i + 1..])
    decreases rs
  {
    if !rs[0].Idle? && t == Block(s, rs[0].pages, rs[0].Large?) {
      i := 0;
    } else {
      var j := FindBusy(rs[1..], s + rs[0].pages, t);
      i := j + 1;
      assert rs[..i][1..] == rs[1..][..j];
    }
  }

  lemma {:induction false} FindAvail(rs: seq<Run>, s: nat, w: nat) returns (i: nat)
    requires w in Avail(rs, s)
    ensures i < |rs| && s + Pages(rs[..i]) == w && rs[i].Idle?
    ensures rs == Among(rs[..i], rs[i], rs[i + 1..])
    decreases rs
  {
    if rs[0].Idle? && w == s {
      i := 0;
    } else {
      var j := FindAvail(rs[1..], s + rs[0].pages, w);
      i := j + 1;
      assert rs[..i][1..] == rs[1..][..j];
    }
  }

  /** Starts of a list lie within it. */
  lemma {:induction false} StartsWithin(m: seq<Bits>, h: Headers, s: nat, rs: seq<Run>, e: nat)
    requires Laid(m, h, s, rs, e)
    ensures forall w :: w in Avail(rs, s) ==> s <= w < e
    ensures forall t :: t in Busy(rs, s) ==> s <= t.start < e && t.pages > 0 && t.start + t.pages <= e
    decreases rs
  {
    if rs != [] {
      LaidSize(m, h, s, rs, e);
      LaidSize(m, h, s + rs[0].pages, rs[1..], e);
      StartsWithin(m, h, s + rs[0].pages, rs[1..], e);
    }
  }
}
