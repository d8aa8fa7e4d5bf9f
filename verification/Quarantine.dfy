/**
 The per-thread quarantine: a ring buffer that delays the freeing of pointers, holding no more than a
 limit of bytes and freeing oldest first.
 */
module Quarantine {
  import opened Common

  /** A pointer and its usable size, which is never zero. */
  datatype Obj = Obj(ptr: nat, usize: nat)

  /** What the thread's slot holds: nothing yet, a queue, or one of the two shutdown marks. */
  datatype Stage = Absent | Active | Purgatory | Reincarnated

  function Sum(q: seq<Obj>): nat {
    if q == [] then 0 else q[0].usize + Sum(q[1..])
  }

  lemma {:induction false} SumSplit(q: seq<Obj>, r: seq<Obj>)
    ensures Sum(q + r) == Sum(q) + Sum(r)
  {
    if q == [] {
      assert q + r == r;
    } else {
      assert (q + r)[1..] == q[1..] + r;
      SumSplit(q[1..], r);
    }
  }

  predicate Positive(q: seq<Obj>) {
    forall i :: 0 <= i < |q| ==> q[i].usize > 0
  }

  // ----- The queue, abstractly -----

  /** Dropping from the front until the rest is within the bound. */
  function Drained(q: seq<Obj>, bound: nat): (r: seq<Obj>) {
    if Sum(q) > bound && q != [] then Drained(q[1..], bound) else q
  }

  /** Exactly the longest tail within the bound is kept. */
  lemma {:induction false} DrainedIsLongestTail(q: seq<Obj>, bound: nat)
    ensures var r := Drained(q, bound);
            && |r| <= |q| && r == q[|q| - |r|..] && Sum(r) <= bound
            && forall k :: 0 <= k < |q| - |r| ==> Sum(q[k..]) > bound
  {
    var r := Drained(q, bound);
    if Sum(q) > bound && q != [] {
      DrainedIsLongestTail(q[1..], bound);
      forall k | 0 <= k < |q| - |r| ensures Sum(q[k..]) > bound {
        if k > 0 {
          assert q[k..] == q[1..][k - 1..];
        } else {
          assert q[0..] == q;
        }
      }
    }
  }

  /** A bound of zero keeps nothing. */
  lemma {:induction false} DrainedToNothing(q: seq<Obj>)
    requires Positive(q)
    ensures Drained(q, 0) == []
  {
    if q != [] {
      DrainedToNothing(q[1..]);
    }
  }

  /** The queue after a pointer goes in: `tight` says the ring was full and could not grow. */
  function Entered(q: seq<Obj>, o: Obj, limit: nat, tight: bool): (r: seq<Obj>) {
    var kept := Kept(q, o, limit);
    var room := if tight && kept != [] then kept[1..] else kept;
    if o.usize <= limit then room + [o] else []
  }

  /** What stays when room is made for a pointer. */
  function Kept(q: seq<Obj>, o: Obj, limit: nat): seq<Obj> {
    Drained(q, if limit >= o.usize then limit - o.usize else 0)
  }

  /** Entering never exceeds the limit and keeps a tail of the queue. */
  lemma EnteredFits(q: seq<Obj>, o: Obj, limit: nat, tight: bool)
    requires Positive(q)
    ensures var r := Entered(q, o, limit, tight);
            && Sum(r) <= limit && |r| <= |q| + 1
            && (o.usize <= limit ==> r != [] && r[|r| - 1] == o && r[..|r| - 1] == q[|q| + 1 - |r|..])
            && (o.usize > limit ==> r == [])
  {
    var bound := if limit >= o.usize then limit - o.usize else 0;
    DrainedIsLongestTail(q, bound);
    if o.usize <= limit {
      var r := Entered(q, o, limit, tight);
      var kept, room := Kept(q, o, limit), r[..|r| - 1];
      SumSplit(kept[..|kept| - |room|], room);
      assert kept == kept[..|kept| - |room|] + room;
      SumSplit(room, [o]);
      assert Sum([o]) == o.usize;
    }
  }

  /** Without memory pressure no pointer leaves that the limit would have allowed to stay. */
  lemma EnteredKeepsMost(q: seq<Obj>, o: Obj, limit: nat, k: nat)
    requires o.usize <= limit && k <= |q| && Sum(q[k..] + [o]) <= limit
    ensures |Entered(q, o, limit, false)| >= |q| - k + 1
  {
    SumSplit(q[k..], [o]);
    assert Sum([o]) == o.usize;
    DrainedIsLongestTail(q, limit - o.usize);
  }

  // ----- The ring buffer -----

  /** The cells of a ring from `first` on. */
  function Ring(cells: seq<Obj>, first: nat, n: nat): (r: seq<Obj>)
    requires |cells| > 0
    ensures |r| == n
  {
    seq(n, i requires 0 <= i < n => cells[(first + i) % |cells|])
  }

  lemma Wraps(first: nat, i: nat, size: nat)
    requires first < size && i <= size
    ensures (first + i) % size == if first + i < size then first + i else first + i - size
  {
  }

  /** Dropping the oldest cell. */
  lemma RingRest(cells: seq<Obj>, first: nat, n: nat)
    requires 0 < n <= |cells| && first < |cells|
    ensures Ring(cells, (first + 1) % |cells|, n - 1) == Ring(cells, first, n)[1..]
  {
    var next := (first + 1) % |cells|;
    forall i | 0 <= i < n - 1
      ensures Ring(cells, next, n - 1)[i] == Ring(cells, first, n)[1..][i]
    {
      Wraps(first, 1, |cells|);
      Wraps(next, i, |cells|);
      Wraps(first, i + 1, |cells|);
    }
  }

  /** What taking the oldest cell does to the queue, its sum and all that has left it. */
  lemma Oldest(cells: seq<Obj>, first: nat, n: nat, gone: seq<Obj>)
    requires 0 < n <= |cells| && first < |cells|
    ensures var q, rest := Ring(cells, first, n), Ring(cells, (first + 1) % |cells|, n - 1);
            && q[0] == cells[first] && rest == q[1..] && Sum(q) == q[0].usize + Sum(rest)
            && gone + [q[0]] + rest == gone + q && (Positive(q) ==> Positive(rest))
  {
    RingRest(cells, first, n);
    var q := Ring(cells, first, n);
    Wraps(first, 0, |cells|);
    assert q == [q[0]] + q[1..];
  }

  /** Storing behind the newest cell. */
  lemma RingPush(cells: seq<Obj>, first: nat, n: nat, o: Obj)
    requires n < |cells| && first < |cells|
    ensures Ring(cells[(first + n) % |cells| := o], first, n + 1) == Ring(cells, first, n) + [o]
  {
    var at := (first + n) % |cells|;
    forall i | 0 <= i < n + 1
      ensures Ring(cells[at := o], first, n + 1)[i] == (Ring(cells, first, n) + [o])[i]
    {
      Wraps(first, n, |cells|);
      Wraps(first, i, |cells|);
    }
  }

  /** A ring copied to the start of a larger one, in one piece or in two. */
  lemma RingUnrolled(cells: seq<Obj>, first: nat, n: nat)
    requires first < |cells| && n <= |cells|
    ensures Ring(cells, first, n) ==
            if first + n <= |cells| then cells[first..first + n] else cells[first..] + cells[..n - (|cells| - first)]
  {
    var r := if first + n <= |cells| then cells[first..first + n] else cells[first..] + cells[..n - (|cells| - first)];
    forall i | 0 <= i < n ensures Ring(cells, first, n)[i] == r[i] {
      Wraps(first, i, |cells|);
    }
  }

  class Queue {
    const limit: nat
    var stage: Stage
    var objs: array<Obj>
    var first: nat
    var curobjs: nat
    var curbytes: nat

    /** Everything given back to the allocator so far, in order. */
    ghost var freed: seq<Obj>

    ghost predicate Shaped()
      reads this, objs
    {
      && 0 < objs.Length && first < objs.Length && curobjs <= objs.Length
      && (stage != Active ==> curobjs == 0)
      && curbytes == Sum(Held())
      && Positive(Held())
    }

    ghost predicate Valid()
      reads this, objs
    {
      Shaped() && curbytes <= limit
    }

    ghost function Held(): (q: seq<Obj>)
      reads this, objs
      requires 0 < objs.Length
    {
      Ring(objs[..], first, curobjs)
    }

    /** A thread's queue; the ring's size is a power of two, so that masking an index is taking a remainder. */
    constructor (limit: nat, lg: nat)
      ensures Valid() && Held() == [] && freed == [] && stage == Active && fresh(objs)
      ensures this.limit == limit
    {
      this.limit := limit;
      stage := Active;
      first, curobjs, curbytes, freed := 0, 0, 0, [];
      objs := new Obj[Pow2(lg)](_ => Obj(0, 0));
    }

    method DrainOne()
      requires Shaped() && curobjs > 0
      modifies this
      ensures Shaped() && objs == old(objs) && stage == old(stage)
      ensures Held() == old(Held())[1..] && freed == old(freed) + [old(Held())[0]]
      ensures freed + Held() == old(freed) + old(Held())
    {
      var o := objs[first];
      Oldest(objs[..], first, curobjs, freed);
      assert objs[..][first] == o;
      hide *;
      freed := freed + [o];
      curbytes := curbytes - o.usize;
      curobjs := curobjs - 1;
      first := (first + 1) % objs.Length;
    }

    method Drain(bound: nat)
      requires Shaped()
      modifies this
      ensures Shaped() && objs == old(objs) && stage == old(stage)
      ensures Held() == Drained(old(Held()), bound)
      ensures freed + Held() == old(freed) + old(Held())
    {
      while curbytes > bound && curobjs > 0
        invariant Shaped() && objs == old(objs) && stage == old(stage)
        invariant Drained(Held(), bound) == Drained(old(Held()), bound)
        invariant freed + Held() == old(freed) + old(Held())
        decreases curobjs
      {
        assert Drained(Held(), bound) == Drained(Held()[1..], bound);
        hide Drained, Ring, Sum;
        DrainOne();
      }
    }

    /** Doubles the ring; when there is no memory for that, makes room by freeing the oldest. */
    method Grow(nomem: bool)
      requires Shaped() && curobjs == objs.Length && stage == Active
      modifies this
      ensures Shaped() && curobjs < objs.Length && stage == Active
      ensures objs == old(objs) || fresh(objs)
      ensures Held() == if nomem then old(Held())[1..] else old(Held())
      ensures freed + Held() == old(freed) + old(Held())
    {
      if nomem {
        DrainOne();
      } else {
        Move();
      }
    }

    method Move()
      requires Shaped() && curobjs == objs.Length && stage == Active
      modifies this`objs, this`first
      ensures Shaped() && curobjs < objs.Length && fresh(objs) && Held() == old(Held())
    {
      var bigger := Unrolled();
      hide Ring, Sum;
      objs := bigger;
      first := 0;
    }

    /** A ring of twice the size holding the same queue from its first cell on. */
    method Unrolled() returns (bigger: array<Obj>)
      requires Shaped()
      ensures fresh(bigger) && bigger.Length == 2 * objs.Length && Ring(bigger[..], 0, curobjs) == Held()
    {
      var n := curobjs;
      RingUnrolled(objs[..], first, n);
      bigger := new Obj[2 * objs.Length](_ => Obj(0, 0));
      if first + n <= objs.Length {
        forall i | 0 <= i < n {
          bigger[i] := objs[first + i];
        }
      } else {
        var a := objs.Length - first;
        forall i | 0 <= i < a {
          bigger[i] := objs[first + i];
        }
        forall i | 0 <= i < n - a {
          bigger[a + i] := objs[i];
        }
      }
      assert bigger[..][..n] == Held();
      RingUnrolled(bigger[..], 0, n);
    }

    /** Takes a pointer in place of freeing it. */
    method Enter(o: Obj, nomem: bool)
      requires Valid() && o.usize > 0
      modifies this, objs
      ensures Valid() && (objs == old(objs) || fresh(objs))
      ensures freed + Held() == old(freed) + old(Held()) + [o]
      ensures old(stage) == Active ==>
                Held() == Entered(old(Held()), o, limit, nomem && |Kept(old(Held()), o, limit)| == old(objs.Length))
      ensures stage == if old(stage) == Purgatory then Reincarnated else old(stage)
    {
      if stage != Active {
        if stage == Purgatory {
          stage := Reincarnated;
        }
        freed := freed + [o];
        return;
      }
      ghost var q := Held();
      if curbytes + o.usize > limit {
        Drain(if limit >= o.usize then limit - o.usize else 0);
      }
      assert Held() == Kept(q, o, limit);
      KeptFits(q, o, limit);
      EnterRoom(o, nomem);
    }

    lemma KeptFits(q: seq<Obj>, o: Obj, limit: nat)
      requires Positive(q)
      ensures o.usize <= limit ==> Sum(Kept(q, o, limit)) + o.usize <= limit
      ensures o.usize > limit ==> Kept(q, o, limit) == []
    {
      if o.usize <= limit {
        DrainedIsLongestTail(q, limit - o.usize);
      } else {
        DrainedToNothing(q);
      }
    }

    /** Takes a pointer once the limit allows it, or frees it if nothing ever will. */
    method EnterRoom(o: Obj, nomem: bool)
      requires Shaped() && o.usize > 0 && stage == Active
      requires if o.usize <= limit then curbytes + o.usize <= limit else Held() == []
      modifies this, objs
      ensures Valid() && (objs == old(objs) || fresh(objs)) && stage == Active
      ensures freed + Held() == old(freed) + old(Held()) + [o]
      ensures var room := if nomem && old(curobjs == objs.Length) then old(Held())[1..] else old(Held());
              Held() == if o.usize <= limit then room + [o] else []
    {
      ghost var kept := Held();
      if curobjs == objs.Length {
        Grow(nomem);
        if nomem {
          assert kept == kept[..1] + Held();
          SumSplit(kept[..1], Held());
        }
      }
      assert curobjs < objs.Length;
      ghost var room := Held();
      hide Ring;
      if curbytes + o.usize <= limit {
        Place(o);
      } else {
        assert curbytes == 0;
        freed := freed + [o];
      }
    }

    /** Stores behind the newest. */
    method Place(o: Obj)
      requires Shaped() && curobjs < objs.Length && stage == Active && curbytes + o.usize <= limit && o.usize > 0
      modifies this`curobjs, this`curbytes, objs
      ensures Valid() && Held() == old(Held()) + [o]
    {
      var offset := (first + curobjs) % objs.Length;
      RingPush(objs[..], first, curobjs, o);
      SumSplit(Held(), [o]);
      assert Sum([o]) == o.usize;
      objs[offset] := o;
      curbytes := curbytes + o.usize;
      curobjs := curobjs + 1;
    }

    /** Thread shutdown: nothing stays behind. */
    method Cleanup()
      requires Valid()
      modifies this
      ensures Valid() && Held() == [] && freed == old(freed) + old(Held())
      ensures stage == if old(stage).Absent? then Absent else Purgatory
    {
      if stage == Reincarnated {
        stage := Purgatory;
      } else if stage == Active {
        DrainedToNothing(Held());
        Drain(0);
        stage := Purgatory;
      }
    }
  }
}
