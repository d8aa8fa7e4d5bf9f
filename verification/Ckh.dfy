/**
 The cuckoo hash table: buckets of four cells, two hash functions, eviction with relocation, and
 rebuilding into a bigger or smaller table. The table is shown to be a finite map.
 */
module Ckh {
  import opened Common

  const LG_BUCKET_CELLS: nat := 2
  const BUCKET_CELLS: nat := 4

  datatype Cell = Empty | Full(key: nat, data: nat)

  /** The two hash values of a key. */
  datatype Hashes = Hashes(primary: nat -> nat, secondary: nat -> nat)

  /** Buckets a key may live in, in a table of 2^lg buckets. */
  function First(h: Hashes, lg: nat, key: nat): (b: nat)
    ensures b < Pow2(lg)
  {
    h.primary(key) % Pow2(lg)
  }

  function Second(h: Hashes, lg: nat, key: nat): (b: nat)
    ensures b < Pow2(lg)
  {
    h.secondary(key) % Pow2(lg)
  }

  predicate Home(h: Hashes, lg: nat, key: nat, bucket: nat) {
    bucket == First(h, lg, key) || bucket == Second(h, lg, key)
  }

  /** Every key sits in one of its two buckets. */
  ghost predicate Housed(t: seq<Cell>, h: Hashes, lg: nat) {
    && |t| == Pow2(lg) * BUCKET_CELLS
    && forall i :: 0 <= i < |t| && t[i].Full? ==> Home(h, lg, t[i].key, i / BUCKET_CELLS)
  }

  ghost predicate HasKey(t: seq<Cell>, k: nat) {
    exists i :: 0 <= i < |t| && t[i].Full? && t[i].key == k
  }

  /** The cells hold exactly this map, each key once. */
  ghost predicate Represents(t: seq<Cell>, m: map<nat, nat>) {
    && (forall i :: 0 <= i < |t| && t[i].Full? ==> t[i].key in m && m[t[i].key] == t[i].data)
    && (forall k :: k in m ==> HasKey(t, k))
    && (forall i, j :: 0 <= i < j < |t| && t[i].Full? && t[j].Full? ==> t[i].key != t[j].key)
  }

  function CountFull(t: seq<Cell>): (n: nat)
    ensures n <= |t|
  {
    if t == [] then 0 else CountFull(t[..|t| - 1]) + if t[|t| - 1].Full? then 1 else 0
  }

  lemma {:induction false} CountUpdate(t: seq<Cell>, i: nat, c: Cell)
    requires i < |t|
    ensures CountFull(t[i := c]) ==
            CountFull(t) + (if c.Full? then 1 else 0) - (if t[i].Full? then 1 else 0)
  {
    var last := |t| - 1;
    if i == last {
      assert t[i := c][..last] == t[..last];
    } else {
      assert t[i := c][..last] == t[..last][i := c];
      CountUpdate(t[..last], i, c);
    }
  }

  lemma {:induction false} CountPrefix(t: seq<Cell>, i: nat)
    requires i <= |t|
    ensures CountFull(t[..i]) <= CountFull(t)
    ensures i < |t| ==> CountFull(t[..i + 1]) == CountFull(t[..i]) + if t[i].Full? then 1 else 0
    decreases |t| - i
  {
    if i < |t| {
      assert t[..i + 1][..i] == t[..i];
      CountPrefix(t, i + 1);
    } else {
      assert t[..i] == t;
    }
  }

  lemma {:induction false} CountNone(t: seq<Cell>)
    requires forall i :: 0 <= i < |t| ==> t[i].Empty?
    ensures CountFull(t) == 0
  {
    if t != [] {
      CountNone(t[..|t| - 1]);
    }
  }

  /** Filling an empty cell adds one entry. */
  lemma FillCell(t: seq<Cell>, m: map<nat, nat>, i: nat, k: nat, d: nat)
    requires Represents(t, m) && i < |t| && t[i].Empty? && k !in m
    ensures Represents(t[i := Full(k, d)], m[k := d])
  {
    var r := t[i := Full(k, d)];
    forall x | x in m[k := d] ensures HasKey(r, x) {
      if x == k {
        assert r[i].key == k;
      } else {
        var j :| 0 <= j < |t| && t[j].Full? && t[j].key == x;
        assert r[j] == t[j];
      }
    }
  }

  /** Emptying a cell removes its entry. */
  lemma ClearCell(t: seq<Cell>, m: map<nat, nat>, i: nat)
    requires Represents(t, m) && i < |t| && t[i].Full?
    ensures Represents(t[i := Empty], m - {t[i].key})
  {
    var r := t[i := Empty];
    forall x | x in m - {t[i].key} ensures HasKey(r, x) {
      var j :| 0 <= j < |t| && t[j].Full? && t[j].key == x;
      assert r[j] == t[j];
    }
    forall j | 0 <= j < |r| && r[j].Full? ensures r[j].key in m - {t[i].key} && m[r[j].key] == r[j].data {
      assert r[j] == t[j];
    }
  }

  /** Swapping an item into a full cell exchanges the two entries. */
  lemma SwapCell(t: seq<Cell>, m: map<nat, nat>, i: nat, k: nat, d: nat)
    requires Represents(t, m) && i < |t| && t[i].Full? && k !in m
    ensures Represents(t[i := Full(k, d)], (m - {t[i].key})[k := d])
    ensures t[i].key !in (m - {t[i].key})[k := d]
    ensures (m - {t[i].key})[k := d][t[i].key := t[i].data] == m[k := d]
  {
    ClearCell(t, m, i);
    FillCell(t[i := Empty], m - {t[i].key}, i, k, d);
    assert t[i := Empty][i := Full(k, d)] == t[i := Full(k, d)];
  }

  lemma EmptyIs(t: seq<Cell>, h: Hashes, lg: nat)
    requires |t| == Pow2(lg) * BUCKET_CELLS && forall i :: 0 <= i < |t| ==> t[i].Empty?
    ensures Housed(t, h, lg) && Represents(t, map[]) && CountFull(t) == 0
  {
    CountNone(t);
  }

  lemma MincellsIs(n: nat)
    ensures (n + (3 - n % 3)) / 3 * 4 == 4 * (n / 3 + 1) && 4 * n <= 3 * (4 * (n / 3 + 1))
  {
  }

  /** A bucket's cells are four in a row. */
  function CellAt(bucket: nat, i: nat): nat {
    bucket * BUCKET_CELLS + i
  }

  /** The i-th cell tried when starting at the offset. */
  function Rotated(i: nat, offset: nat): (r: nat)
    ensures r < BUCKET_CELLS
  {
    (i + offset) % BUCKET_CELLS
  }

  lemma RotatedBack(j: nat, offset: nat) returns (i: nat)
    requires j < BUCKET_CELLS && offset < BUCKET_CELLS
    ensures i < BUCKET_CELLS && Rotated(i, offset) == j
  {
    i := if offset <= j then j - offset else j + BUCKET_CELLS - offset;
  }

  lemma BucketCell(lg: nat, bucket: nat, i: nat)
    requires bucket < Pow2(lg) && i < BUCKET_CELLS
    ensures CellAt(bucket, i) < Pow2(lg) * BUCKET_CELLS
    ensures CellAt(bucket, i) / BUCKET_CELLS == bucket
  {
  }

  /** Once all full cells are among the first i, the rest are empty. */
  lemma {:induction false} NoneBeyond(t: seq<Cell>, i: nat, j: nat)
    requires i <= j < |t| && CountFull(t[..i]) == CountFull(t)
    ensures t[j].Empty?
  {
    CountMonotone(t, i, j);
    CountPrefix(t, j);
    CountPrefix(t, j + 1);
  }

  lemma {:induction false} CountMonotone(t: seq<Cell>, i: nat, j: nat)
    requires i <= j <= |t|
    ensures CountFull(t[..i]) <= CountFull(t[..j])
    decreases j
  {
    if i < j {
      CountMonotone(t, i, j - 1);
      CountPrefix(t, j - 1);
    }
  }

  // ----- When an insertion fails -----

  ghost predicate FullBucket(t: seq<Cell>, bucket: nat) {
    CellAt(bucket, BUCKET_CELLS) <= |t| && forall j :: 0 <= j < BUCKET_CELLS ==> t[CellAt(bucket, j)].Full?
  }

  ghost predicate SameFull(t: seq<Cell>, u: seq<Cell>) {
    |t| == |u| && forall i :: 0 <= i < |t| ==> t[i].Full? == u[i].Full?
  }

  lemma SameFullBuckets(t: seq<Cell>, u: seq<Cell>)
    requires SameFull(t, u)
    ensures forall b :: FullBucket(t, b) == FullBucket(u, b)
  {
  }

  lemma SameFullJoins(t: seq<Cell>, u: seq<Cell>, v: seq<Cell>)
    requires SameFull(t, u) && SameFull(u, v)
    ensures SameFull(t, v)
  {
  }

  /** Where a key evicted from this bucket goes. */
  function Other(h: Hashes, lg: nat, key: nat, bucket: nat): nat {
    if Second(h, lg, key) != bucket then Second(h, lg, key) else First(h, lg, key)
  }

  /**
   The keys evicted in turn on behalf of k, and the buckets gone through: all full, the first the second
   home of k, each further one the other home of the key evicted, and none the first again. In the end the
   way is back at the first bucket, or the turns are used up at yet another full one.
   */
  ghost predicate Walks(t: seq<Cell>, h: Hashes, lg: nat, k: nat, from: nat, closes: bool, turns: nat, ks: seq<nat>, bs: seq<nat>) {
    && WalksSoFar(t, h, lg, k, from, ks, bs)
    && if closes then ks != [] && |ks| <= turns && bs[|ks|] == from
       else |ks| == turns && FullBucket(t, bs[|ks|]) && (turns > 0 ==> bs[|ks|] != from)
  }

  ghost predicate WalksSoFar(t: seq<Cell>, h: Hashes, lg: nat, k: nat, from: nat, ks: seq<nat>, bs: seq<nat>) {
    && |bs| == |ks| + 1 && bs[0] == from
    && (forall i :: 0 <= i < |ks| ==> Home(h, lg, ks[i], bs[i]) && bs[i + 1] == Other(h, lg, ks[i], bs[i]))
    && (forall i :: 0 <= i < |ks| ==> FullBucket(t, bs[i]) && (HasKey(t, ks[i]) || ks[i] == k))
    && (forall i :: 0 < i < |ks| ==> bs[i] != from && ks[i] != ks[i - 1])
  }

  /** Inserting k into this table can fail: both its buckets are full and evicting can come back or go on too long. */
  ghost predicate Fails(t: seq<Cell>, h: Hashes, lg: nat, k: nat, closes: bool, turns: nat) {
    && FullBucket(t, First(h, lg, k)) && FullBucket(t, Second(h, lg, k))
    && exists ks, bs :: Walks(t, h, lg, k, Second(h, lg, k), closes, turns, ks, bs)
  }

  /** A table of this size that holds these items of m cannot take in the further item k. */
  ghost predicate FailsOn(t: seq<Cell>, c: map<nat, nat>, k: nat, h: Hashes, lg: nat, m: map<nat, nat>, closes: bool, turns: nat) {
    && Housed(t, h, lg) && Represents(t, c) && k in m && k !in c
    && (forall x :: x in c ==> x in m && m[x] == c[x])
    && Fails(t, h, lg, k, closes, turns)
  }

  ghost predicate MayFail(h: Hashes, lg: nat, m: map<nat, nat>, closes: bool, turns: nat) {
    exists t, c, k :: FailsOn(t, c, k, h, lg, m, closes, turns)
  }

  lemma MayFailMore(h: Hashes, lg: nat, m: map<nat, nat>, more: map<nat, nat>, closes: bool, turns: nat)
    requires MayFail(h, lg, m, closes, turns) && forall x :: x in m ==> x in more && more[x] == m[x]
    ensures MayFail(h, lg, more, closes, turns)
  {
    hide Fails, Housed, Represents;
    var t, c, k :| FailsOn(t, c, k, h, lg, m, closes, turns);
    assert FailsOn(t, c, k, h, lg, more, closes, turns);
  }

  /** There is no table of 2^lg buckets to be had. */
  predicate Refused(memory: nat -> bool, lgMax: nat, lg: nat) {
    lg + LG_BUCKET_CELLS > lgMax || !memory(lg + LG_BUCKET_CELLS)
  }

  /** From this size on every one is to be had and can fail, up to one that is refused. */
  ghost predicate GaveUp(h: Hashes, memory: nat -> bool, lgMax: nat, from: nat, m: map<nat, nat>, turns: nat) {
    exists n :: n >= from && Refused(memory, lgMax, n) && AllFail(h, memory, lgMax, from, n, m, turns)
  }

  ghost predicate AllFail(h: Hashes, memory: nat -> bool, lgMax: nat, from: nat, to: nat, m: map<nat, nat>, turns: nat) {
    forall l :: from <= l < to ==> !Refused(memory, lgMax, l) && MayFail(h, l, m, true, turns)
  }

  /** In a table of this size or a bigger one evicting can go on for all the turns given. */
  ghost predicate RunsAway(h: Hashes, from: nat, m: map<nat, nat>, turns: nat) {
    exists l :: l >= from && MayFail(h, l, m, false, turns)
  }

  lemma AllFailMore(h: Hashes, memory: nat -> bool, lgMax: nat, from: nat, to: nat, m: map<nat, nat>, more: map<nat, nat>, turns: nat)
    requires AllFail(h, memory, lgMax, from, to, m, turns)
    requires forall x :: x in m ==> x in more && more[x] == m[x]
    ensures AllFail(h, memory, lgMax, from, to, more, turns)
  {
    hide MayFail;
    forall l | from <= l < to ensures MayFail(h, l, more, true, turns) {
      MayFailMore(h, l, m, more, true, turns);
    }
  }

  /** What growing from one size tells about growing from a smaller one, of a table and the item in hand. */
  lemma FailAbove(h: Hashes, memory: nat -> bool, lgMax: nat, first: nat, lg: nat, now: nat,
                  c: map<nat, nat>, key: nat, data: nat, turns: nat)
    requires key !in c && first <= lg && AllFail(h, memory, lgMax, first + 1, lg + 1, c[key := data], turns)
    ensures GaveUp(h, memory, lgMax, lg + 1, c, turns) ==> GaveUp(h, memory, lgMax, first + 1, c[key := data], turns)
    ensures AllFail(h, memory, lgMax, lg + 1, now, c, turns) ==> AllFail(h, memory, lgMax, first + 1, now, c[key := data], turns)
    ensures RunsAway(h, lg + 1, c, turns) ==> RunsAway(h, first, c[key := data], turns)
  {
    hide MayFail, Refused;
    var m, from, mid := c[key := data], first + 1, lg + 1;
    forall to: nat | AllFail(h, memory, lgMax, mid, to, c, turns) ensures AllFail(h, memory, lgMax, from, to, m, turns) {
      AllFailMore(h, memory, lgMax, mid, to, c, m, turns);
    }
    if GaveUp(h, memory, lgMax, mid, c, turns) {
      var n :| n >= mid && Refused(memory, lgMax, n) && AllFail(h, memory, lgMax, mid, n, c, turns);
      assert AllFail(h, memory, lgMax, from, n, m, turns);
    }
    if RunsAway(h, mid, c, turns) {
      var l :| l >= mid && MayFail(h, l, c, false, turns);
      MayFailMore(h, l, c, m, false, turns);
    }
  }

  /** How an attempt ended; Running means the eviction loop had not ended within the given turns. */
  datatype Attempt = Placed | Cycle(key: nat, data: nat) | Running(key: nat, data: nat)

  datatype Outcome = Done | OutOfMemory | StillRunning

  class Table {
    const hashes: Hashes
    const lgMin: nat
    const lgMax: nat
    var tab: array<Cell>
    var count: nat
    var lg: nat
    ghost var contents: map<nat, nat>

    /** The table is a finite map, every key is in one of its two buckets, and the count is right. */
    ghost predicate Valid()
      reads this, tab
    {
      && lgMin <= lg
      && Housed(tab[..], hashes, lg)
      && Represents(tab[..], contents)
      && count == CountFull(tab[..])
    }

    /** An empty table for at least minitems items at three quarters load, and no bigger than it need be. */
    constructor (hashes: Hashes, minitems: nat, lgMax: nat)
      requires minitems > 0
      ensures Valid() && contents == map[] && this.hashes == hashes && this.lgMax == lgMax && lg == lgMin
      ensures 4 * minitems <= 3 * tab.Length
      ensures 4 * (minitems / 3 + 1) <= tab.Length && (lg > 0 ==> tab.Length < 8 * (minitems / 3 + 1))
    {
      var mincells := (minitems + (3 - minitems % 3)) / 3 * 4;
      MincellsIs(minitems);
      var lgCells := LG_BUCKET_CELLS;
      assert Pow2(1) == 2 && Pow2(lgCells) == 4;
      while Pow2(lgCells) < mincells
        invariant LG_BUCKET_CELLS <= lgCells && (lgCells > LG_BUCKET_CELLS ==> Pow2(lgCells) < 2 * mincells)
        decreases mincells - Pow2(lgCells)
      {
        lgCells := lgCells + 1;
      }
      this.hashes, this.lgMin, this.lgMax := hashes, lgCells - LG_BUCKET_CELLS, lgMax;
      lg, count, contents := lgCells - LG_BUCKET_CELLS, 0, map[];
      CellsOf(lgCells - LG_BUCKET_CELLS);
      tab := new Cell[Pow2(lgCells)](_ => Empty);
      new;
      EmptyIs(tab[..], hashes, lg);
    }

    // ----- Searching -----

    method BucketSearch(bucket: nat, key: nat) returns (cell: Option<nat>)
      requires bucket < Pow2(lg) && tab.Length == Pow2(lg) * BUCKET_CELLS
      ensures cell.Some? ==> cell.value < tab.Length && tab[cell.value].Full? && tab[cell.value].key == key
      ensures cell.None? ==> forall i :: 0 <= i < tab.Length && i / BUCKET_CELLS == bucket && tab[i].Full? ==> tab[i].key != key
    {
      var i := 0;
      while i < BUCKET_CELLS
        invariant i <= BUCKET_CELLS
        invariant forall j :: 0 <= j < i && tab[CellAt(bucket, j)].Full? ==> tab[CellAt(bucket, j)].key != key
      {
        BucketCell(lg, bucket, i);
        var c := tab[CellAt(bucket, i)];
        if c.Full? && c.key == key {
          return Some(CellAt(bucket, i));
        }
        i := i + 1;
      }
      forall j | 0 <= j < tab.Length && j / BUCKET_CELLS == bucket && tab[j].Full? ensures tab[j].key != key {
        assert j == CellAt(bucket, j % BUCKET_CELLS);
      }
      return None;
    }

    /** Finds the cell of a key, exactly when the map has it. */
    method InternalSearch(key: nat) returns (cell: Option<nat>)
      requires Valid()
      ensures cell.Some? <==> key in contents
      ensures cell.Some? ==> cell.value < tab.Length && tab[cell.value] == Full(key, contents[key])
    {
      cell := BucketSearch(First(hashes, lg, key), key);
      if cell.Some? {
        return;
      }
      cell := BucketSearch(Second(hashes, lg, key), key);
      assert forall i :: 0 <= i < tab.Length && tab[..][i].Full? && tab[..][i].key == key ==>
          Home(hashes, lg, key, i / BUCKET_CELLS);
    }

    method Search(key: nat) returns (data: Option<nat>)
      requires Valid()
      ensures data == if key in contents then Some(contents[key]) else None
    {
      var cell := InternalSearch(key);
      return if cell.Some? then Some(tab[cell.value].data) else None;
    }

    // ----- Inserting -----

    ghost predicate BucketFull(bucket: nat)
      reads this, tab
    {
      && bucket < Pow2(lg) && tab.Length == Pow2(lg) * BUCKET_CELLS
      && FullBucket(tab[..], bucket)
    }

    /** Puts an item into an empty cell of one of its buckets. */
    method Fill(cell: nat, key: nat, data: nat)
      requires Valid() && key !in contents && cell < tab.Length && tab[cell].Empty?
      requires Home(hashes, lg, key, cell / BUCKET_CELLS)
      modifies this`count, this`contents, tab
      ensures Valid() && contents == old(contents)[key := data] && count == old(count) + 1
    {
      FillCell(tab[..], contents, cell, key, data);
      CountUpdate(tab[..], cell, Full(key, data));
      tab[cell] := Full(key, data);
      assert tab[..] == old(tab[..])[cell := Full(key, data)];
      count := count + 1;
      contents := contents[key := data];
    }

    /** Tries the cells of one bucket from an arbitrary one on. */
    method TryBucketInsert(bucket: nat, key: nat, data: nat) returns (full: bool)
      requires Valid() && key !in contents && bucket < Pow2(lg) && Home(hashes, lg, key, bucket)
      modifies this`count, this`contents, tab
      ensures Valid()
      ensures full ==> contents == old(contents) && count == old(count) && BucketFull(bucket) && tab[..] == old(tab[..])
      ensures !full ==> !FullBucket(old(tab[..]), bucket)
      ensures !full ==> contents == old(contents)[key := data] && count == old(count) + 1
    {
      var offset: nat :| offset < BUCKET_CELLS;
      var i := 0;
      forall j | 0 <= j < BUCKET_CELLS ensures CellAt(bucket, j) < tab.Length && CellAt(bucket, j) / BUCKET_CELLS == bucket {
        BucketCell(lg, bucket, j);
      }
      assert tab.Length == Pow2(lg) * BUCKET_CELLS;
      hide Valid, Home, Represents, Housed, CellAt;
      while i < BUCKET_CELLS && tab[CellAt(bucket, Rotated(i, offset))].Full?
        invariant i <= BUCKET_CELLS
        invariant forall j :: 0 <= j < i ==> tab[CellAt(bucket, Rotated(j, offset))].Full?
      {
        i := i + 1;
      }
      if i < BUCKET_CELLS {
        Fill(CellAt(bucket, Rotated(i, offset)), key, data);
        return false;
      }
      forall j | 0 <= j < BUCKET_CELLS ensures tab[CellAt(bucket, j)].Full? {
        var k := RotatedBack(j, offset);
      }
      return true;
    }

    /** Swaps the item in hand into an arbitrary cell of a full bucket. */
    method Evict(bucket: nat, key: nat, data: nat) returns (outKey: nat, outData: nat)
      requires Valid() && key !in contents && Home(hashes, lg, key, bucket) && BucketFull(bucket)
      modifies this`contents, tab
      ensures Valid() && Home(hashes, lg, outKey, bucket) && SameFull(tab[..], old(tab[..]))
      ensures outKey !in contents && outKey != key && contents[outKey := outData] == old(contents)[key := data]
    {
      var i: nat :| i < BUCKET_CELLS;
      BucketCell(lg, bucket, i);
      var cell := CellAt(bucket, i);
      outKey, outData := tab[cell].key, tab[cell].data;
      SwapCell(tab[..], contents, cell, key, data);
      CountUpdate(tab[..], cell, Full(key, data));
      tab[cell] := Full(key, data);
      assert tab[..] == old(tab[..])[cell := Full(key, data)];
      contents := (contents - {outKey})[key := data];
    }

    /** Evicts and relocates items until one finds a free cell or the chain is back where it began. */
    method EvictRelocInsert(argBucket: nat, argKey: nat, argData: nat, turns: nat) returns (r: Attempt, ghost ks: seq<nat>, ghost bs: seq<nat>)
      requires Valid() && argKey !in contents && Home(hashes, lg, argKey, argBucket) && BucketFull(argBucket)
      modifies this`count, this`contents, tab
      ensures Valid()
      ensures r.Placed? ==> contents == old(contents)[argKey := argData] && count == old(count) + 1
      ensures !r.Placed? ==> r.key !in contents && contents[r.key := r.data] == old(contents)[argKey := argData]
                             && count == old(count)
      ensures !r.Placed? ==> Walks(old(tab[..]), hashes, lg, argKey, argBucket, r.Cycle?, turns, ks, bs)
      ensures r.Placed? ==> WalksSoFar(old(tab[..]), hashes, lg, argKey, argBucket, ks, bs) && !FullBucket(old(tab[..]), bs[|ks|])
    {
      hide *;
      var bucket, key, data, t := argBucket, argKey, argData, turns;
      ks, bs := [], [argBucket];
      WalkStarts(tab[..], hashes, lg, argKey, argBucket);
      ItemsHeld();
      while t > 0
        invariant 0 <= t <= turns && |ks| == turns - t && |bs| == |ks| + 1 && bs[|ks|] == bucket
        invariant |ks| > 0 ==> bucket != argBucket && key == ks[|ks| - 1]
        invariant WalksSoFar(old(tab[..]), hashes, lg, argKey, argBucket, ks, bs)
        invariant SameFull(tab[..], old(tab[..]))
        invariant Valid() && key !in contents && Home(hashes, lg, key, bucket) && BucketFull(bucket)
        invariant contents[key := data] == old(contents)[argKey := argData] && count == old(count)
        decreases t
      {
        FullThen(old(tab[..]), bucket);
        ghost var before := tab[..];
        key, data := Evict(bucket, key, data);
        SameFullJoins(tab[..], before, old(tab[..]));
        var other := Second(hashes, lg, key);
        if other == bucket {
          other := First(hashes, lg, key);
        }
        OtherIs(key, bucket, other);
        KeyWasThere(old(tab[..]), old(contents), argKey, argData, contents, key, data);
        WalkMore(old(tab[..]), hashes, lg, argKey, argBucket, ks, bs, key);
        ks, bs := ks + [key], bs + [other];
        if other == argBucket {
          WalkEnds(old(tab[..]), hashes, lg, argKey, argBucket, true, turns, ks, bs);
          return Cycle(key, data), ks, bs;
        }
        bucket := other;
        SameFullBuckets(tab[..], old(tab[..]));
        var full := TryBucketInsert(bucket, key, data);
        if !full {
          return Placed, ks, bs;
        }
        t := t - 1;
      }
      FullThen(old(tab[..]), bucket);
      WalkEnds(old(tab[..]), hashes, lg, argKey, argBucket, false, turns, ks, bs);
      return Running(key, data), ks, bs;
    }

    lemma ItemsHeld()
      requires Valid()
      ensures Represents(tab[..], contents)
    {
    }

    lemma FullThen(before: seq<Cell>, bucket: nat)
      requires BucketFull(bucket) && SameFull(tab[..], before)
      ensures FullBucket(before, bucket)
    {
      SameFullBuckets(tab[..], before);
    }

    lemma OtherIs(key: nat, bucket: nat, other: nat)
      requires other == if Second(hashes, lg, key) == bucket then First(hashes, lg, key) else Second(hashes, lg, key)
      ensures other == Other(hashes, lg, key, bucket) < Pow2(lg) && Home(hashes, lg, key, other)
    {
    }

    /** Tries both buckets of a key and then eviction. */
    method TryInsert(key: nat, data: nat, turns: nat) returns (r: Attempt)
      requires Valid() && key !in contents
      modifies this`count, this`contents, tab
      ensures Valid()
      ensures r.Placed? ==> contents == old(contents)[key := data] && count == old(count) + 1
      ensures !r.Placed? ==> r.key !in contents && contents[r.key := r.data] == old(contents)[key := data]
                             && count == old(count)
      ensures !r.Placed? ==> Fails(old(tab[..]), hashes, lg, key, r.Cycle?, turns)
    {
      hide Valid, Represents, Housed, FullBucket, Walks, HasKey;
      var full := TryBucketInsert(First(hashes, lg, key), key, data);
      if !full {
        return Placed;
      }
      full := TryBucketInsert(Second(hashes, lg, key), key, data);
      if !full {
        return Placed;
      }
      ghost var ks, bs;
      r, ks, bs := EvictRelocInsert(Second(hashes, lg, key), key, data, turns);
    }

    // ----- Rebuilding -----

    /**
     Reinserts all items of the old table into the fresh current one. When an item finds no place the
     count is put back and the old table is as it was.
     */
    method Rebuild(old_: array<Cell>, ghost m: map<nat, nat>, turns: nat) returns (r: Outcome)
      requires tab != old_ && tab.Length == Pow2(lg) * BUCKET_CELLS && forall i :: 0 <= i < tab.Length ==> tab[i].Empty?
      requires Represents(old_[..], m) && count == CountFull(old_[..]) && lgMin <= lg
      modifies this`count, this`contents, tab
      ensures old_[..] == old(old_[..])
      ensures r == Done ==> Valid() && contents == m && count == old(count)
      ensures r == OutOfMemory ==> count == old(count)
      ensures r != Done ==> MayFail(hashes, lg, m, r == OutOfMemory, turns)
    {
      hide Fails, MayFail;
      ghost var t := old_[..];
      var total := count;
      count, contents := 0, map[];
      CountNone(tab[..]);
      var i, nins := 0, 0;
      assert t[..0] == [];
      while nins < total
        invariant i <= |t| && nins == CountFull(t[..i]) && total == CountFull(t)
        invariant old_[..] == t
        invariant Valid() && count == nins && Moved(t[..i], m, contents)
        decreases |t| - i
      {
        MoreToCome(t, i);
        CountPrefix(t, i);
        MovedMore(t, m, contents, i);
        if old_[i].Full? {
          FailedOne(t, i, m, turns);
          var attempt := TryInsert(old_[i].key, old_[i].data, turns);
          if attempt.Cycle? {
            count := total;
            return OutOfMemory;
          }
          if attempt.Running? {
            return StillRunning;
          }
          nins := nins + 1;
        }
        i := i + 1;
      }
      CountPrefix(t, i);
      AllMoved(t, m, contents, i);
      return Done;
    }

    lemma FailedOne(t: seq<Cell>, i: nat, m: map<nat, nat>, turns: nat)
      requires Valid() && Represents(t, m) && i < |t| && t[i].Full? && t[i].key !in contents && Moved(t[..i], m, contents)
      ensures forall closes :: Fails(tab[..], hashes, lg, t[i].key, closes, turns) ==> MayFail(hashes, lg, m, closes, turns)
    {
      hide Fails, Housed;
      forall closes | Fails(tab[..], hashes, lg, t[i].key, closes, turns) ensures MayFail(hashes, lg, m, closes, turns) {
        assert FailsOn(tab[..], contents, t[i].key, hashes, lg, m, closes, turns);
      }
    }

    /** A fresh table of 2^lgCells empty cells; none beyond the address space, nor where memory refuses. */
    method Allocate(lgCells: nat, memory: nat -> bool) returns (cells: array?<Cell>)
      ensures cells == null <==> lgCells > lgMax || !memory(lgCells)
      ensures cells != null ==> fresh(cells) && cells.Length == Pow2(lgCells)
                                && forall i :: 0 <= i < cells.Length ==> cells[i].Empty?
    {
      if lgCells > lgMax || !memory(lgCells) {
        return null;
      }
      cells := new Cell[Pow2(lgCells)](_ => Empty);
    }

    /** Doubles the table until everything can be placed; gives up only for lack of memory. */
    method Grow(memory: nat -> bool, turns: nat) returns (r: Outcome)
      requires Valid()
      modifies this`tab, this`lg, this`count, this`contents
      ensures tab == old(tab) || fresh(tab)
      ensures old(tab)[..] == old(tab[..])
      ensures r != StillRunning ==> Valid() && contents == old(contents) && count == old(count)
      ensures r == Done ==> lg > old(lg) && !Refused(memory, lgMax, lg)
                            && AllFail(hashes, memory, lgMax, old(lg) + 1, lg, contents, turns)
      ensures r == OutOfMemory ==> lg == old(lg) && tab == old(tab)
      ensures r == OutOfMemory ==> GaveUp(hashes, memory, lgMax, old(lg) + 1, contents, turns)
      ensures r == StillRunning ==> RunsAway(hashes, old(lg) + 1, old(contents), turns)
    {
      hide MayFail, Housed, Represents, CountFull;
      var lgPrev, lgCells := lg, lg + LG_BUCKET_CELLS;
      ghost var m := contents;
      var previous := tab;
      while true
        invariant Valid() && contents == m && count == old(count) && lg == lgPrev && tab == previous
        invariant previous[..] == old(previous[..])
        invariant lgPrev + LG_BUCKET_CELLS <= lgCells
        invariant AllFail(hashes, memory, lgMax, lgPrev + 1, lgCells - LG_BUCKET_CELLS + 1, m, turns)
        decreases if lgCells <= lgMax then lgMax - lgCells + 1 else 0
      {
        lgCells := lgCells + 1;
        var cells := Allocate(lgCells, memory);
        if cells == null {
          return OutOfMemory;
        }
        CellsOf(lgCells - LG_BUCKET_CELLS);
        tab, lg := cells, lgCells - LG_BUCKET_CELLS;
        r := Rebuild(previous, m, turns);
        if r == Done || r == StillRunning {
          return;
        }
        tab, lg, contents := previous, lgPrev, m;
      }
    }

    /** Halves the table if everything can still be placed. */
    method Shrink(memory: nat -> bool, turns: nat) returns (r: Outcome)
      requires Valid() && lg > lgMin
      modifies this`tab, this`lg, this`count, this`contents
      ensures tab == old(tab) || fresh(tab)
      ensures r != StillRunning ==> Valid() && contents == old(contents) && count == old(count)
      ensures r == Done ==> lg == old(lg) - 1 && !Refused(memory, lgMax, old(lg) - 1)
      ensures r == OutOfMemory ==> lg == old(lg)
      ensures r == OutOfMemory ==> Refused(memory, lgMax, old(lg) - 1)
                                   || MayFail(hashes, old(lg) - 1, old(contents), true, turns)
      ensures r == StillRunning ==> MayFail(hashes, old(lg) - 1, old(contents), false, turns)
    {
      hide MayFail, Housed, Represents, CountFull;
      var lgPrev, previous := lg, tab;
      ghost var m := contents;
      var lgCells := lg + LG_BUCKET_CELLS - 1;
      var cells := Allocate(lgCells, memory);
      if cells == null {
        return OutOfMemory;
      }
      CellsOf(lgCells - LG_BUCKET_CELLS);
      tab, lg := cells, lgCells - LG_BUCKET_CELLS;
      r := Rebuild(previous, m, turns);
      if r == OutOfMemory {
        tab, lg, contents := previous, lgPrev, m;
      }
    }

    // ----- The map operations -----

    /**
     Adds a new key. On success the map gains exactly this entry, and the table has grown only past sizes
     that can fail. Out of memory, exactly one entry of the old map plus the new one is left over, and every
     other one is in the table; then both buckets of the key were full, evicting could not make room, and
     every bigger table that was to be had can fail as well.
     */
    method Insert(argKey: nat, argData: nat, memory: nat -> bool, turns: nat) returns (r: Outcome, ghost lost: nat)
      requires Valid() && argKey !in contents
      modifies this, tab
      ensures r == Done ==> Valid() && contents == old(contents)[argKey := argData] && count == old(count) + 1
      ensures r == Done ==> lg == old(lg) || (lg > old(lg) && Fails(old(tab[..]), hashes, old(lg), argKey, true, turns)
                            && AllFail(hashes, memory, lgMax, old(lg) + 1, lg, contents, turns))
      ensures r == OutOfMemory ==>
                && Valid() && lost in old(contents)[argKey := argData] && count == old(count)
                && contents == old(contents)[argKey := argData] - {lost}
      ensures r == OutOfMemory ==>
                && Fails(old(tab[..]), hashes, old(lg), argKey, true, turns)
                && GaveUp(hashes, memory, lgMax, old(lg) + 1, old(contents)[argKey := argData], turns)
      ensures r == StillRunning ==> RunsAway(hashes, old(lg), old(contents)[argKey := argData], turns)
    {
      hide MayFail, Housed, Represents, CountFull, Fails;
      var key, data := argKey, argData;
      ghost var target := contents[argKey := argData];
      lost := key;
      while true
        invariant Valid() && key !in contents && contents[key := data] == target && count == old(count)
        invariant tab == old(tab) || fresh(tab)
        invariant if lg == old(lg) then tab == old(tab) && tab[..] == old(tab[..]) && key == argKey
                  else lg > old(lg) && Fails(old(tab[..]), hashes, old(lg), argKey, true, turns)
        invariant AllFail(hashes, memory, lgMax, old(lg) + 1, lg, target, turns)
        invariant lg > old(lg) ==> !Refused(memory, lgMax, lg)
        decreases if lg <= lgMax then lgMax - lg + 1 else 0
      {
        ghost var before := lg;
        HandFails(key, data, target, turns);
        var attempt := TryInsert(key, data, turns);
        if attempt.Placed? {
          return Done, lost;
        }
        if attempt.Running? {
          return StillRunning, lost;
        }
        key, data := attempt.key, attempt.data;
        ghost var inside := contents;
        r := Grow(memory, turns);
        FailAbove(hashes, memory, lgMax, old(lg), before, lg, inside, key, data, turns);
        if r == StillRunning {
          return;
        }
        if r == OutOfMemory {
          lost := key;
          assert contents[key := data] - {key} == contents;
          return;
        }
      }
    }

    /** The item in hand and those in the table make up the whole. */
    lemma HandFails(key: nat, data: nat, target: map<nat, nat>, turns: nat)
      requires Valid() && key !in contents && contents[key := data] == target
      ensures forall closes :: Fails(tab[..], hashes, lg, key, closes, turns) ==> MayFail(hashes, lg, target, closes, turns)
    {
      hide Fails, Housed, Represents;
      forall closes | Fails(tab[..], hashes, lg, key, closes, turns) ensures MayFail(hashes, lg, target, closes, turns) {
        assert FailsOn(tab[..], contents, key, hashes, lg, target, closes, turns);
      }
    }

    /** Empties a full cell. */
    method EmptyCell(cell: nat)
      requires Valid() && cell < tab.Length && tab[cell].Full?
      modifies this`count, this`contents, tab
      ensures Valid() && contents == old(contents) - {old(tab[cell].key)} && count == old(count) - 1
    {
      ClearCell(tab[..], contents, cell);
      CountUpdate(tab[..], cell, Empty);
      contents := contents - {tab[cell].key};
      tab[cell] := Empty;
      assert tab[..] == old(tab[..])[cell := Empty];
      count := count - 1;
    }

    lemma QuarterIs()
      requires Valid()
      ensures tab.Length == 4 * Pow2(lg + LG_BUCKET_CELLS - 2)
    {
    }

    /** Removes a key and shrinks a table less than a quarter full. */
    method Remove(key: nat, memory: nat -> bool, turns: nat) returns (data: Option<nat>, r: Outcome)
      requires Valid()
      modifies this, tab
      ensures data == if key in old(contents) then Some(old(contents)[key]) else None
      ensures r != StillRunning ==> Valid() && contents == old(contents) - {key}
      ensures r != StillRunning ==> count == old(count) - if key in old(contents) then 1 else 0
      ensures r == Done ==> lg == old(lg) - if old(Sparse(key)) then 1 else 0
      ensures r != Done ==> old(Sparse(key))
      ensures r == OutOfMemory ==> lg == old(lg)
      ensures r == OutOfMemory ==> Refused(memory, lgMax, old(lg) - 1)
                                   || MayFail(hashes, old(lg) - 1, old(contents) - {key}, true, turns)
      ensures r == StillRunning ==> MayFail(hashes, old(lg) - 1, old(contents) - {key}, false, turns)
    {
      hide MayFail, Valid, Represents, Pow2;
      var cell := InternalSearch(key);
      r := Done;
      if cell.None? {
        return None, Done;
      }
      data := Some(tab[cell.value].data);
      EmptyCell(cell.value);
      QuarterIs();
      if count < Pow2(lg + LG_BUCKET_CELLS - 2) && lg > lgMin {
        r := Shrink(memory, turns);
      }
    }

    /** Without this key the table is less than a quarter full and may be halved. */
    ghost predicate Sparse(key: nat)
      reads this, tab
    {
      key in contents && 4 * (count - 1) < tab.Length && lg > lgMin
    }
  }

  lemma WalkStarts(t: seq<Cell>, h: Hashes, lg: nat, k: nat, from: nat)
    ensures WalksSoFar(t, h, lg, k, from, [], [from]) && SameFull(t, t)
  {
  }

  lemma WalkMore(t: seq<Cell>, h: Hashes, lg: nat, k: nat, from: nat, ks: seq<nat>, bs: seq<nat>, key: nat)
    requires WalksSoFar(t, h, lg, k, from, ks, bs) && |bs| == |ks| + 1 && FullBucket(t, bs[|ks|])
    requires Home(h, lg, key, bs[|ks|]) && (HasKey(t, key) || key == k)
    requires |ks| > 0 ==> bs[|ks|] != from && key != ks[|ks| - 1]
    ensures WalksSoFar(t, h, lg, k, from, ks + [key], bs + [Other(h, lg, key, bs[|ks|])])
  {
    hide Home, FullBucket, Other, HasKey;
  }

  lemma WalkEnds(t: seq<Cell>, h: Hashes, lg: nat, k: nat, from: nat, closes: bool, turns: nat, ks: seq<nat>, bs: seq<nat>)
    requires WalksSoFar(t, h, lg, k, from, ks, bs) && |bs| == |ks| + 1
    requires if closes then 0 < |ks| <= turns && bs[|ks|] == from
             else |ks| == turns && FullBucket(t, bs[|ks|]) && (turns > 0 ==> bs[|ks|] != from)
    ensures Walks(t, h, lg, k, from, closes, turns, ks, bs)
  {
  }

  /** An item evicted since was in the table before, or is the new one. */
  lemma KeyWasThere(t: seq<Cell>, before: map<nat, nat>, argKey: nat, argData: nat, now: map<nat, nat>, key: nat, data: nat)
    requires Represents(t, before) && now[key := data] == before[argKey := argData]
    ensures HasKey(t, key) || key == argKey
  {
    assert key in now[key := data];
  }

  lemma MoreToCome(t: seq<Cell>, i: nat)
    requires i <= |t| && CountFull(t[..i]) < CountFull(t)
    ensures i < |t|
  {
    assert t[..|t|] == t;
  }

  /** The entries found in these cells, and no others, have been moved. */
  ghost predicate Moved(t: seq<Cell>, m: map<nat, nat>, contents: map<nat, nat>) {
    && (forall k :: k in contents <==> HasKey(t, k))
    && (forall k :: k in contents ==> k in m && contents[k] == m[k])
  }

  lemma MovedMore(t: seq<Cell>, m: map<nat, nat>, contents: map<nat, nat>, i: nat)
    requires Represents(t, m) && i < |t| && Moved(t[..i], m, contents)
    ensures t[i].Empty? ==> Moved(t[..i + 1], m, contents)
    ensures t[i].Full? ==> t[i].key !in contents && Moved(t[..i + 1], m, contents[t[i].key := t[i].data])
  {
    forall k ensures HasKey(t[..i + 1], k) <==> HasKey(t[..i], k) || (t[i].Full? && t[i].key == k) {
      if HasKey(t[..i], k) {
        var j :| 0 <= j < i && t[..i][j].Full? && t[..i][j].key == k;
        assert t[..i + 1][j] == t[j];
      }
      if t[i].Full? && t[i].key == k {
        assert t[..i + 1][i] == t[i];
      }
      if HasKey(t[..i + 1], k) {
        var j :| 0 <= j < i + 1 && t[..i + 1][j].Full? && t[..i + 1][j].key == k;
        if j < i {
          assert t[..i][j] == t[j];
        }
      }
    }
  }

  lemma AllMoved(t: seq<Cell>, m: map<nat, nat>, contents: map<nat, nat>, i: nat)
    requires Represents(t, m) && i <= |t| && CountFull(t[..i]) == CountFull(t) && Moved(t[..i], m, contents)
    ensures contents == m
  {
    forall k | k in m ensures k in contents {
      assert HasKey(t, k);
      var j :| 0 <= j < |t| && t[j].Full? && t[j].key == k;
      if j >= i {
        NoneBeyond(t, i, j);
      }
      assert t[..i][j] == t[j];
      assert HasKey(t[..i], k);
    }
  }

  lemma CellsOf(lg: nat)
    ensures Pow2(lg + LG_BUCKET_CELLS) == Pow2(lg) * BUCKET_CELLS
  {
    assert Pow2(lg + 2) == 2 * Pow2(lg + 1);
  }
}
