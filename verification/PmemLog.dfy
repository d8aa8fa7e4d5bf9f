/**
 The append-only log: appended bytes become part of the log at the moment the write offset is durable,
 so power failure at any moment leaves the log as it was before the call or as it is after it.
 */
module PmemLog {
  type Byte = bv8

  const U64: nat := 0x1_0000_0000_0000_0000
  const HALF64: nat := 0x8000_0000_0000_0000

  // ----- What a power failure may leave -----

  /** For each byte of the pool, and for the write offset, the values the medium may hold. */
  datatype Medium = Medium(bytes: seq<set<Byte>>, write: set<nat>)

  /** What is found when the pool is opened again. */
  datatype Image = Image(bytes: seq<Byte>, write: nat)

  ghost predicate Possible(m: Medium, img: Image) {
    && |img.bytes| == |m.bytes| && img.write in m.write
    && forall i :: 0 <= i < |img.bytes| ==> img.bytes[i] in m.bytes[i]
  }

  /** The open-time check on the offsets; `start` and the pool size are fixed. */
  predicate Opens(img: Image, start: nat) {
    start <= img.write <= |img.bytes|
  }

  function Held(img: Image, start: nat): seq<Byte>
    requires Opens(img, start)
  {
    img.bytes[start..img.write]
  }

  /** Whatever the failure leaves opens, and holds one of these two. */
  ghost predicate Shows(m: Medium, start: nat, before: seq<Byte>, after: seq<Byte>) {
    forall img :: Possible(m, img) ==> Opens(img, start) && Held(img, start) in {before, after}
  }

  /** The first n bytes of the log are durable. */
  ghost predicate Certain(m: Medium, start: nat, held: seq<Byte>) {
    && start + |held| <= |m.bytes|
    && forall i :: 0 <= i < |held| ==> m.bytes[start + i] == {held[i]}
  }

  /** Durable bytes and a write offset at one of two ends make the log show one of two contents. */
  lemma CertainShows(m: Medium, start: nat, before: seq<Byte>, after: seq<Byte>)
    requires Certain(m, start, before) && Certain(m, start, after)
    requires m.write <= {start + |before|, start + |after|}
    ensures Shows(m, start, before, after)
  {
    forall img | Possible(m, img) ensures Opens(img, start) && Held(img, start) in {before, after} {
      var held := if img.write == start + |before| then before else after;
      assert img.write == start + |held|;
      forall i | 0 <= i < |held| ensures img.bytes[start + i] == held[i] {
        assert img.bytes[start + i] in m.bytes[start + i];
      }
      assert Held(img, start) == held;
    }
  }

  // ----- The operations on contents -----

  /** Appending to a log with this much room: all or nothing, and a full log refuses even nothing. */
  function Appended(held: seq<Byte>, buf: seq<Byte>, capacity: nat): (r: seq<Byte>) {
    if Accepts(held, buf, capacity) then held + buf else held
  }

  predicate Accepts(held: seq<Byte>, buf: seq<Byte>, capacity: nat) {
    |held| < capacity && |buf| <= capacity - |held|
  }

  function Gathered(iov: seq<seq<Byte>>): (r: seq<Byte>) {
    if iov == [] then [] else iov[0] + Gathered(iov[1..])
  }

  lemma GatheredEnds(iov: seq<seq<Byte>>, held: seq<Byte>)
    ensures Gathered(iov[..0]) == [] && held + Gathered(iov[..0]) == held && iov[..|iov|] == iov
  {
  }

  lemma Joins(a: seq<Byte>, b: seq<Byte>, c: seq<Byte>)
    ensures a + b + c == a + (b + c)
  {
  }

  lemma {:induction false} GatheredSnoc(iov: seq<seq<Byte>>, n: nat)
    requires n < |iov|
    ensures Gathered(iov[..n + 1]) == Gathered(iov[..n]) + iov[n]
    decreases n
  {
    if n == 0 {
      assert iov[..1][1..] == [];
    } else {
      assert iov[..n + 1][1..] == iov[1..][..n] && iov[..n][1..] == iov[1..][..n - 1];
      GatheredSnoc(iov[1..], n - 1);
    }
  }

  lemma {:induction false} GatheredPrefix(iov: seq<seq<Byte>>, n: nat)
    requires n <= |iov|
    ensures Gathered(iov[..n]) <= Gathered(iov)
    decreases |iov| - n
  {
    if n == |iov| {
      assert iov[..n] == iov;
    } else {
      GatheredSnoc(iov, n);
      GatheredPrefix(iov, n + 1);
    }
  }

  /** Buffers appended one by one. */
  function AppendedEach(held: seq<Byte>, iov: seq<seq<Byte>>, capacity: nat): (r: seq<Byte>)
    decreases iov
  {
    if iov == [] then held else AppendedEach(Appended(held, iov[0], capacity), iov[1..], capacity)
  }

  /** Gathering first and appending once comes to the same as appending one by one whenever all of it fits. */
  lemma {:induction false} GatheredIsEach(held: seq<Byte>, iov: seq<seq<Byte>>, capacity: nat)
    requires |held| <= capacity && |Gathered(iov)| <= capacity - |held|
    ensures AppendedEach(held, iov, capacity) == held + Gathered(iov)
    decreases iov
  {
    if iov != [] {
      var next := Appended(held, iov[0], capacity);
      assert next == held + iov[0];
      GatheredIsEach(next, iov[1..], capacity);
    }
  }

  /** Two appends in a row leave what one append of both leaves, exactly when both fit or the first does not. */
  lemma TwoAppends(held: seq<Byte>, a: seq<Byte>, b: seq<Byte>, capacity: nat)
    requires |held| <= capacity
    ensures Appended(Appended(held, a, capacity), b, capacity) == Appended(held, a + b, capacity)
            <==> (|a| + |b| <= capacity - |held| || (|a| > capacity - |held| && (|b| > capacity - |held| || b == []))
                  || (a == [] && |b| > capacity - |held|) || |held| == capacity)
  {
    var one, two := Appended(held, a + b, capacity), Appended(Appended(held, a, capacity), b, capacity);
    if |a| + |b| <= capacity - |held| {
      if |held| < capacity {
        assert held + (a + b) == held + a + b;
      }
    } else {
      assert one == held;
    }
  }

  /** The space test adds lengths up in 64 bits, so this many bytes pass for few. */
  predicate PassesForFew(total: nat, free: nat) {
    total >= U64 && total % U64 <= free
  }

  /** The space test is right exactly when the wrapped total does not fit by accident. */
  lemma SpaceTestRightIff(total: nat, free: nat)
    requires free < U64
    ensures (total % U64 <= free <==> total <= free) <==> !PassesForFew(total, free)
  {
    if total < U64 {
      assert total % U64 == total;
    }
  }

  /** What a caller can see to beforehand: a total below 2^64 never passes for few. */
  lemma BelowIsRight(total: nat, free: nat)
    requires free < U64
    ensures total < U64 ==> !PassesForFew(total, free) && (total % U64 <= free <==> total <= free)
  {
    SpaceTestRightIff(total, free);
  }

  /** The same buffer named n times. */
  function Repeated(buf: seq<Byte>, n: nat): seq<seq<Byte>> {
    if n == 0 then [] else [buf] + Repeated(buf, n - 1)
  }

  lemma {:induction false} RepeatedTotal(buf: seq<Byte>, n: nat)
    ensures |Gathered(Repeated(buf, n))| == n * |buf|
  {
    if n > 0 {
      RepeatedTotal(buf, n - 1);
      assert Repeated(buf, n)[1..] == Repeated(buf, n - 1);
    }
  }

  /** Named 2^24 times, a buffer of 2^40 bytes passes for none at all. */
  lemma NamedTooOften(buf: seq<Byte>, free: nat)
    requires |buf| == 0x100_0000_0000
    ensures PassesForFew(|Gathered(Repeated(buf, 0x100_0000))|, free)
  {
    RepeatedTotal(buf, 0x100_0000);
  }

  // ----- Walking -----

  /** The pieces a walk hands out from `offset` on if nobody stops it; offsets are 64 bits wide. */
  function Pieces(pool: seq<Byte>, offset: nat, write: nat, size: nat): (r: seq<seq<Byte>>)
    requires 0 < size < U64 && write <= |pool| && write <= HALF64
    decreases StepsLeft(offset, write, size)
  {
    if offset >= write then []
    else
      StepsShrink(offset, write, size);
      [pool[offset..offset + PieceLen(offset, write, size)]] + Pieces(pool, Advance(offset, size), write, size)
  }

  function PieceLen(offset: nat, write: nat, size: nat): (len: nat)
    requires offset < write
    ensures len <= write - offset
  {
    if size < write - offset then size else write - offset
  }

  function Advance(offset: nat, size: nat): nat {
    (offset + size) % U64
  }

  /** A step that overflows goes back, but always further back. */
  function StepsLeft(offset: nat, write: nat, size: nat): nat {
    if offset >= write then 0 else if size < HALF64 then write - offset else offset + 1
  }

  lemma StepsShrink(offset: nat, write: nat, size: nat)
    requires 0 < size < U64 && offset < write <= HALF64
    ensures StepsLeft(Advance(offset, size), write, size) < StepsLeft(offset, write, size)
  {
  }

  /** While the offset does not overflow, the pieces are the contents in order, all full but the last. */
  lemma {:induction false} PiecesCover(pool: seq<Byte>, offset: nat, write: nat, size: nat)
    requires 0 < size && write <= |pool| && write <= HALF64 && offset <= write && offset + size < U64
    ensures Gathered(Pieces(pool, offset, write, size)) == pool[offset..write]
    ensures var ps := Pieces(pool, offset, write, size);
            forall k :: 0 <= k < |ps| ==> 0 < |ps[k]| <= size && (k < |ps| - 1 ==> |ps[k]| == size)
    decreases write - offset
  {
    hide Pieces, PieceLen, Gathered, StepsLeft, Advance;
    PiecesStep(pool, offset, write, size);
    if offset < write {
      var ps := Pieces(pool, offset, write, size);
      var len := PieceLen(offset, write, size);
      var rest := ps[1..];
      if offset + size < write {
        PiecesCover(pool, offset + size, write, size);
      }
      GatheredFirst(ps);
      SlicesJoin(pool, offset, offset + len, write);
      assert forall k :: 0 < k < |ps| ==> ps[k] == rest[k - 1];
    }
  }

  lemma SlicesJoin(pool: seq<Byte>, i: nat, j: nat, k: nat)
    requires i <= j <= k <= |pool|
    ensures pool[i..j] + pool[j..k] == pool[i..k]
  {
  }

  lemma GatheredFirst(iov: seq<seq<Byte>>)
    ensures Gathered(iov) == if iov == [] then [] else iov[0] + Gathered(iov[1..])
    ensures iov != [] && iov[1..] == [] ==> Gathered(iov) == iov[0]
  {
  }

  /** The next piece, and what comes after it. */
  lemma PiecesStep(pool: seq<Byte>, offset: nat, write: nat, size: nat)
    requires 0 < size && write <= |pool| && write <= HALF64 && offset <= write && offset + size < U64
    ensures offset == write ==> Pieces(pool, offset, write, size) == [] && Gathered(Pieces(pool, offset, write, size)) == []
    ensures offset < write ==>
              var ps, len := Pieces(pool, offset, write, size), PieceLen(offset, write, size);
              && ps != [] && ps[0] == pool[offset..offset + len]
              && if offset + size < write then len == size && ps[1..] == Pieces(pool, offset + size, write, size)
                 else len == write - offset && ps[1..] == []
  {
    hide Advance, StepsLeft, Gathered;
    AdvanceStays(offset, size);
    if offset < write {
      var rest := Pieces(pool, offset + size, write, size);
      assert Pieces(pool, offset, write, size) == [pool[offset..offset + PieceLen(offset, write, size)]] + rest;
      assert offset + size >= write ==> rest == [];
    } else {
      GatheredFirst(Pieces(pool, offset, write, size));
    }
  }

  lemma AdvanceStays(offset: nat, size: nat)
    requires offset + size < U64
    ensures Advance(offset, size) == offset + size
  {
  }

  /** A walk in pieces yields the contents exactly when there are none or the first step does not overflow. */
  lemma WalkIsContentsIff(pool: seq<Byte>, start: nat, write: nat, size: nat)
    requires 0 < size < U64 && start <= write <= |pool| && write <= HALF64
    ensures Gathered(Pieces(pool, start, write, size)) == pool[start..write] <==> start == write || start + size < U64
  {
    if start == write {
    } else if start + size < U64 {
      PiecesCover(pool, start, write, size);
    } else {
      var ps := Pieces(pool, start, write, size);
      var next := (start + size) % U64;
      assert next == start + size - U64 < start;
      assert ps[0] == pool[start..write] && ps[1..] == Pieces(pool, next, write, size);
      var again := ps[1..];
      assert again[0] != [];
      assert |Gathered(again)| >= |again[0]|;
    }
  }

  /** On every log that holds something, the largest size makes the walk start over one byte too early. */
  lemma LargestSizeWalksAgain(pool: seq<Byte>, start: nat, write: nat)
    requires 0 < start < write <= |pool| && write <= HALF64
    ensures var ps := Pieces(pool, start, write, U64 - 1);
            |ps| >= 2 && ps[0] == pool[start..write] && ps[1] == pool[start - 1..write]
    ensures Gathered(Pieces(pool, start, write, U64 - 1)) != pool[start..write]
  {
    var ps := Pieces(pool, start, write, U64 - 1);
    assert Advance(start, U64 - 1) == start - 1;
    assert ps == [pool[start..write]] + Pieces(pool, start - 1, write, U64 - 1);
    assert Pieces(pool, start - 1, write, U64 - 1)[0] == pool[start - 1..write];
    WalkIsContentsIff(pool, start, write, U64 - 1);
  }

  /** The callback asked to go on after each proper prefix shorter than n pieces. */
  predicate WentOn(go: seq<seq<Byte>> -> bool, handed: seq<seq<Byte>>, n: nat) {
    forall k :: 0 < k < n && k <= |handed| ==> go(handed[..k])
  }

  lemma WentOnSnoc(go: seq<seq<Byte>> -> bool, handed: seq<seq<Byte>>, piece: seq<Byte>)
    requires WentOn(go, handed, |handed| + 1)
    ensures WentOn(go, handed + [piece], |handed| + 1)
    ensures go(handed + [piece]) ==> WentOn(go, handed + [piece], |handed| + 2)
  {
    var more := handed + [piece];
    assert more[..|more|] == more;
    assert forall k :: 0 < k <= |handed| ==> more[..k] == handed[..k];
  }

  // ----- Several calls -----

  datatype Call = AppendCall(buf: seq<Byte>) | AppendVCall(iov: seq<seq<Byte>>) | RewindCall

  /** The contents after a call that completes. */
  function After(held: seq<Byte>, call: Call, rdonly: bool, capacity: nat): (r: seq<Byte>) {
    if rdonly then held
    else match call
      case AppendCall(buf) => Appended(held, buf, capacity)
      case AppendVCall(iov) => Appended(held, Gathered(iov), capacity)
      case RewindCall => []
  }

  function AfterAll(held: seq<Byte>, calls: seq<Call>, rdonly: bool, capacity: nat): (r: seq<Byte>)
    decreases calls
  {
    if calls == [] then held else AfterAll(After(held, calls[0], rdonly, capacity), calls[1..], rdonly, capacity)
  }

  /** No gathered append names no buffer at all or passes for few when its turn comes. */
  predicate Performable(held: seq<Byte>, calls: seq<Call>, rdonly: bool, capacity: nat)
    decreases calls
  {
    calls == []
    || (&& (calls[0].AppendVCall? ==>
              && calls[0].iov != []
              && (rdonly || |held| >= capacity || !PassesForFew(|Gathered(calls[0].iov)|, capacity - |held|)))
        && Performable(After(held, calls[0], rdonly, capacity), calls[1..], rdonly, capacity))
  }

  /** Calls with totals below 2^64 are that. */
  lemma {:induction false} BelowIsPerformable(held: seq<Byte>, calls: seq<Call>, rdonly: bool, capacity: nat)
    requires capacity < U64
    requires forall i :: 0 <= i < |calls| && calls[i].AppendVCall? ==> calls[i].iov != [] && |Gathered(calls[i].iov)| < U64
    ensures Performable(held, calls, rdonly, capacity)
    decreases calls
  {
    if calls != [] {
      BelowIsPerformable(After(held, calls[0], rdonly, capacity), calls[1..], rdonly, capacity);
    }
  }

  lemma {:induction false} AfterOneMore(held: seq<Byte>, calls: seq<Call>, rdonly: bool, capacity: nat, n: nat)
    requires n < |calls|
    ensures AfterAll(held, calls[..n + 1], rdonly, capacity) == After(AfterAll(held, calls[..n], rdonly, capacity), calls[n], rdonly, capacity)
    ensures Performable(held, calls, rdonly, capacity) ==> Performable(AfterAll(held, calls[..n], rdonly, capacity), calls[n..], rdonly, capacity)
    decreases calls
  {
    if n == 0 {
      assert calls[..1] == [calls[0]] && calls[..0] == [] && calls[0..] == calls;
    } else {
      AfterOneMore(After(held, calls[0], rdonly, capacity), calls[1..], rdonly, capacity, n - 1);
      assert calls[..n][1..] == calls[1..][..n - 1] && calls[..n + 1][1..] == calls[1..][..n] && calls[n..] == calls[1..][n - 1..];
    }
  }

  /** Whatever the failure leaves opens, and holds what some number of whole calls leave, `least` or more. */
  ghost predicate ShowsPrefix(
    m: Medium, start: nat, held: seq<Byte>, calls: seq<Call>, rdonly: bool, capacity: nat, least: nat)
  {
    forall img :: Possible(m, img) ==>
      Opens(img, start)
      && exists n :: least <= n <= |calls| && Held(img, start) == AfterAll(held, calls[..n], rdonly, capacity)
  }

  lemma ShowsIsPrefix(
    m: Medium, start: nat, held: seq<Byte>, calls: seq<Call>, rdonly: bool, capacity: nat, least: nat, i: nat, j: nat)
    requires least <= i <= |calls| && least <= j <= |calls|
    requires Shows(m, start, AfterAll(held, calls[..i], rdonly, capacity), AfterAll(held, calls[..j], rdonly, capacity))
    ensures ShowsPrefix(m, start, held, calls, rdonly, capacity, least)
  {
    hide AfterAll, Possible, Opens;
  }

  /**
   Opens a log, performs calls on it, and may be cut off at any moment: what is left opens again, and holds
   the contents after some prefix of the calls, each of them whole. From the moment a call returned, which
   is what `marks` records, the prefix includes it.
   */
  method Session(img: Image, start: nat, rdonly: bool, calls: seq<Call>) returns (log: Log, ghost marks: seq<nat>)
    requires Opens(img, start) && |img.bytes| <= HALF64
    requires Performable(Held(img, start), calls, rdonly, |img.bytes| - start)
    ensures log.Valid() && log.start == start && log.Contents() == AfterAll(Held(img, start), calls, rdonly, |img.bytes| - start)
    ensures |marks| == |calls| + 1 && marks[0] == 0 && marks[|calls|] == |log.history| - 1
    ensures forall i, k :: 0 <= i <= |calls| && marks[i] <= k < |log.history| ==>
              ShowsPrefix(log.history[k], start, Held(img, start), calls, rdonly, |img.bytes| - start, i)
  {
    hide AfterAll, Performable, ShowsPrefix, Opens, Log.AtPrefix, Log.Valid;
    log := new Log(img, start, rdonly);
    ghost var held := Held(img, start);
    log.OpensAtPrefix(held, calls);
    var i := 0;
    marks := [0];
    while i < |calls|
      invariant i <= |calls| && log.start == start && log.rdonly == rdonly && log.pool.Length == |img.bytes|
      invariant fresh(log) && fresh(log.pool) && log.AtPrefix(held, calls, i, marks)
    {
      log.PerformNext(held, calls, i, marks);
      i, marks := i + 1, marks + [|log.history| - 1];
    }
    log.AtEnd(held, calls, marks);
  }

  // ----- The pool -----

  class Log {
    const start: nat
    const pool: array<Byte>
    const rdonly: bool
    var write: nat

    /** What the medium may hold now, and what it may have held at each moment so far. */
    ghost var medium: Medium
    ghost var history: seq<Medium>

    ghost predicate Shaped()
      reads this, pool
    {
      && start <= write <= pool.Length <= HALF64
      && |medium.bytes| == pool.Length
      && (forall i :: 0 <= i < pool.Length ==> pool[i] in medium.bytes[i])
      && history != [] && history[|history| - 1] == medium
    }

    /** Between calls all of the log is durable. */
    ghost predicate Valid()
      reads this, pool
    {
      Shaped() && medium.write == {write} && Certain(medium, start, pool[start..write])
    }

    function Contents(): (r: seq<Byte>)
      reads this, pool
      requires start <= write <= pool.Length
    {
      pool[start..write]
    }

    function Capacity(): nat
      reads this
      requires start <= pool.Length
    {
      pool.Length - start
    }

    /** Opens what a failure left. */
    constructor (img: Image, start: nat, rdonly: bool)
      requires Opens(img, start) && |img.bytes| <= HALF64
      ensures |history| == 1
      ensures Valid() && fresh(pool) && this.start == start && this.rdonly == rdonly && pool.Length == |img.bytes|
      ensures Contents() == Held(img, start)
    {
      this.start := start;
      this.rdonly := rdonly;
      write := img.write;
      pool := new Byte[|img.bytes|](i requires 0 <= i < |img.bytes| => img.bytes[i]);
      medium := Medium(seq(|img.bytes|, i requires 0 <= i < |img.bytes| => {img.bytes[i]}), {img.write});
      new;
      history := [medium];
    }

    /** Every moment since `from` shows one of two contents. */
    ghost predicate AlwaysShows(from: nat, before: seq<Byte>, after: seq<Byte>)
      reads this
    {
      from <= |history| && forall k :: from <= k < |history| ==> Shows(history[k], start, before, after)
    }

    /** Stores one byte behind the log; it may reach the medium at any time from now on. */
    method Store(i: nat, b: Byte)
      requires Shaped() && write <= i < pool.Length
      modifies this`medium, this`history, pool
      ensures Shaped() && pool[..] == old(pool[..])[i := b]
      ensures medium == old(medium).(bytes := old(medium).bytes[i := old(medium).bytes[i] + {b}])
      ensures history == old(history) + [medium]
    {
      pool[i] := b;
      medium := medium.(bytes := medium.bytes[i := medium.bytes[i] + {b}]);
      history := history + [medium];
    }

    /** Makes a range of the pool durable. */
    ghost method PersistData(lo: nat, hi: nat)
      requires Shaped() && lo <= hi <= pool.Length
      modifies this`medium, this`history
      ensures Shaped() && medium.write == old(medium.write) && history == old(history) + [medium]
      ensures forall i :: 0 <= i < pool.Length ==>
                            medium.bytes[i] == if lo <= i < hi then {pool[i]} else old(medium.bytes)[i]
    {
      medium := medium.(bytes := seq(pool.Length, i requires 0 <= i < |medium.bytes| == pool.Length reads this, pool =>
                  if lo <= i < hi then {pool[i]} else medium.bytes[i]));
      history := history + [medium];
    }

    /** Writes the offset, which may reach the medium at once, and then makes it durable. */
    method CommitOffset(w: nat)
      requires Shaped() && start <= w <= pool.Length && medium.write == {write}
      modifies this`write, this`medium, this`history
      ensures Shaped() && write == w && medium == old(medium).(write := {w})
      ensures history == old(history) + [old(medium).(write := {old(write), w}), medium]
    {
      ghost var was := write;
      write := w;
      medium := medium.(write := {was, w});
      history := history + [medium];
      medium := medium.(write := {w});
      history := history + [medium];
    }

    /** Such a byte shows in nothing. */
    method StoreBehind(i: nat, b: Byte)
      requires Shaped() && write <= i < pool.Length
      requires medium.write == {write} && Certain(medium, start, Contents())
      modifies this`medium, this`history, pool
      ensures Shaped() && medium.write == {write} && Certain(medium, start, Contents())
      ensures pool[..] == old(pool[..])[i := b] && Contents() == old(Contents())
      ensures history == old(history) + [medium] && Shows(medium, start, Contents(), Contents())
    {
      hide Shows;
      Store(i, b);
      assert Contents() == pool[..][start..write];
      CertainShows(medium, start, Contents(), Contents());
    }

    /** Copies a buffer behind the log; the log itself is not touched. */
    method Copy(at: nat, buf: seq<Byte>)
      requires Shaped() && write <= at && at + |buf| <= pool.Length
      requires medium.write == {write} && Certain(medium, start, Contents())
      modifies this`medium, this`history, pool
      ensures Shaped() && medium.write == {write} && Certain(medium, start, Contents())
      ensures pool[start..at + |buf|] == old(pool[start..at]) + buf && Contents() == old(Contents())
      ensures old(history) <= history && AlwaysShows(|old(history)|, Contents(), Contents())
    {
      hide Shows, Certain;
      for i := 0 to |buf|
        invariant Shaped() && medium.write == {write} && Certain(medium, start, Contents())
        invariant pool[..at] == old(pool[..at]) && pool[at..at + i] == buf[..i]
        invariant Contents() == old(Contents())
        invariant old(history) <= history && AlwaysShows(|old(history)|, Contents(), Contents())
      {
        StoreBehind(at + i, buf[i]);
        assert pool[..at] == pool[..][..at] && pool[at..at + i] == pool[..][at..at + i];
      }
      assert pool[start..at] == pool[..at][start..] == old(pool[start..at]);
      assert pool[start..at + |buf|] == pool[start..at] + pool[at..at + |buf|];
    }

    /** Data first, then the offset. */
    method Persist(w: nat)
      requires Shaped() && write <= w <= pool.Length
      requires medium.write == {write} && Certain(medium, start, Contents())
      modifies this`write, this`medium, this`history
      ensures Valid() && write == w
      ensures old(history) <= history && AlwaysShows(|old(history)|, old(Contents()), pool[start..w])
    {
      ghost var before, after := Contents(), pool[start..w];
      PersistData(write, w);
      assert Certain(medium, start, after) by {
        forall i | 0 <= i < |after| ensures medium.bytes[start + i] == {after[i]} {
          if i < |before| {
            assert before[i] == after[i] && medium.bytes[start + i] == {before[i]};
          }
        }
      }
      assert Certain(medium, start, before) by {
        forall i | 0 <= i < |before| ensures medium.bytes[start + i] == {before[i]} {
          assert before[i] == after[i] && medium.bytes[start + i] == {after[i]};
        }
      }
      CertainShows(medium, start, before, after);
      CommitOffset(w);
      CertainShows(history[|history| - 2], start, before, after);
      CertainShows(medium, start, before, after);
    }

    method Append(buf: seq<Byte>) returns (ok: bool)
      requires Valid()
      modifies this`write, this`medium, this`history, pool
      ensures Valid() && (ok <==> !rdonly && Accepts(old(Contents()), buf, Capacity()))
      ensures Contents() == if ok then Appended(old(Contents()), buf, Capacity()) else old(Contents())
      ensures old(history) <= history && AlwaysShows(|old(history)|, old(Contents()), Contents())
    {
      if rdonly {
        return false;
      }
      if write >= pool.Length {
        return false;
      }
      if |buf| > pool.Length - write {
        return false;
      }
      Copy(write, buf);
      label copied:
      Persist(write + |buf|);
      Widen(|old(history)|, |old@copied(history)|, old(Contents()), Contents());
      return true;
    }

    /** Showing only the contents before is showing one of before and after. */
    lemma Widen(from: nat, mid: nat, before: seq<Byte>, after: seq<Byte>)
      requires from <= mid <= |history|
      requires forall k :: from <= k < mid ==> Shows(history[k], start, before, before)
      requires AlwaysShows(mid, before, after)
      ensures AlwaysShows(from, before, after)
    {
    }

    /** Copies the buffers one after the other behind the log. */
    method CopyAll(iov: seq<seq<Byte>>) returns (at: nat)
      requires Valid() && write + |Gathered(iov)| <= pool.Length
      modifies this`medium, this`history, pool
      ensures Shaped() && medium.write == {write} && Certain(medium, start, Contents())
      ensures at == write + |Gathered(iov)| && pool[start..at] == old(Contents()) + Gathered(iov)
      ensures Contents() == old(Contents())
      ensures old(history) <= history && AlwaysShows(|old(history)|, old(Contents()), old(Contents()))
    {
      hide Certain, Shows, Gathered;
      at := write;
      GatheredEnds(iov, Contents());
      for i := 0 to |iov|
        invariant Shaped() && medium.write == {write} && Certain(medium, start, Contents())
        invariant Contents() == old(Contents())
        invariant at == write + |Gathered(iov[..i])| <= pool.Length
        invariant pool[start..at] == old(Contents()) + Gathered(iov[..i])
        invariant old(history) <= history && AlwaysShows(|old(history)|, old(Contents()), old(Contents()))
      {
        GatheredSnoc(iov, i);
        GatheredPrefix(iov, i + 1);
        label before:
        Copy(at, iov[i]);
        Chain(|old(history)|, |old@before(history)|, old(Contents()));
        Joins(old(Contents()), Gathered(iov[..i]), iov[i]);
        at := at + |iov[i]|;
      }
    }

    /** Appends several buffers as one. A total that passes for few would be copied past the end of the pool. */
    method AppendV(iov: seq<seq<Byte>>) returns (ok: bool)
      requires Valid() && |iov| > 0
      requires |Gathered(iov)| < U64 || rdonly || write >= pool.Length || !PassesForFew(|Gathered(iov)|, pool.Length - write)
      modifies this`write, this`medium, this`history, pool
      ensures Valid() && (ok <==> !rdonly && Accepts(old(Contents()), Gathered(iov), Capacity()))
      ensures Contents() == if ok then Appended(old(Contents()), Gathered(iov), Capacity()) else old(Contents())
      ensures old(history) <= history && AlwaysShows(|old(history)|, old(Contents()), Contents())
    {
      if rdonly {
        return false;
      }
      if write >= pool.Length {
        return false;
      }
      var count := 0;
      for i := 0 to |iov|
        invariant count == |Gathered(iov[..i])| % U64
        modifies {}
      {
        GatheredSnoc(iov, i);
        count := (count + |iov[i]|) % U64;
      }
      assert iov[..|iov|] == iov;
      BelowIsRight(|Gathered(iov)|, pool.Length - write);
      SpaceTestRightIff(|Gathered(iov)|, pool.Length - write);
      if count > pool.Length - write {
        return false;
      }
      var at := CopyAll(iov);
      label copied:
      Persist(at);
      Widen(|old(history)|, |old@copied(history)|, old(Contents()), Contents());
      return true;
    }

    lemma Chain(from: nat, mid: nat, held: seq<Byte>)
      requires from <= mid <= |history|
      requires forall k :: from <= k < mid ==> Shows(history[k], start, held, held)
      requires AlwaysShows(mid, held, held)
      ensures AlwaysShows(from, held, held)
    {
    }

    method Tell() returns (n: nat)
      requires Valid()
      ensures n == |Contents()|
    {
      n := write - start;
    }

    method Rewind()
      requires Valid()
      modifies this`write, this`medium, this`history
      ensures Valid() && Contents() == if rdonly then old(Contents()) else []
      ensures old(history) <= history && AlwaysShows(|old(history)|, old(Contents()), Contents())
    {
      if !rdonly {
        ghost var before := Contents();
        CommitOffset(start);
        CertainShows(history[|history| - 2], start, before, []);
        CertainShows(medium, start, before, []);
      }
    }

    /** One call. */
    method Perform(call: Call)
      requires Valid() && Performable(Contents(), [call], rdonly, Capacity())
      modifies this`write, this`medium, this`history, pool
      ensures Valid() && Contents() == After(old(Contents()), call, rdonly, Capacity())
      ensures old(history) <= history && AlwaysShows(|old(history)|, old(Contents()), Contents())
    {
      match call
      case AppendCall(buf) =>
        var ok := Append(buf);
      case AppendVCall(iov) =>
        var ok := AppendV(iov);
      case RewindCall =>
        Rewind();
    }

    /** So many of the calls are done, and every moment so far shows as many whole calls as had returned by then. */
    ghost predicate AtPrefix(held: seq<Byte>, calls: seq<Call>, n: nat, marks: seq<nat>)
      reads this, pool
    {
      && n <= |calls| && Valid() && Contents() == AfterAll(held, calls[..n], rdonly, Capacity())
      && |marks| == n + 1 && marks[0] == 0 && marks[n] == |history| - 1
      && forall i, k :: 0 <= i <= n && marks[i] <= k < |history| ==>
                          ShowsPrefix(history[k], start, held, calls, rdonly, Capacity(), i)
    }

    lemma OpensAtPrefix(held: seq<Byte>, calls: seq<Call>)
      requires Valid() && |history| == 1 && held == Contents()
      ensures AtPrefix(held, calls, 0, [0])
    {
      assert calls[..0] == [];
      CertainShows(medium, start, held, held);
      ShowsIsPrefix(medium, start, held, calls, rdonly, Capacity(), 0, 0, 0);
    }

    lemma AtEnd(held: seq<Byte>, calls: seq<Call>, marks: seq<nat>)
      requires AtPrefix(held, calls, |calls|, marks)
      ensures Valid() && Contents() == AfterAll(held, calls, rdonly, Capacity())
      ensures |marks| == |calls| + 1 && marks[0] == 0 && marks[|calls|] == |history| - 1
      ensures forall i, k :: 0 <= i <= |calls| && marks[i] <= k < |history| ==>
                ShowsPrefix(history[k], start, held, calls, rdonly, Capacity(), i)
    {
      assert calls[..|calls|] == calls;
    }

    method PerformNext(ghost held: seq<Byte>, calls: seq<Call>, n: nat, ghost marks: seq<nat>)
      requires n < |calls| && AtPrefix(held, calls, n, marks) && Performable(held, calls, rdonly, Capacity())
      modifies this`write, this`medium, this`history, pool
      ensures |history| > 0
      ensures AtPrefix(held, calls, n + 1, marks + [|history| - 1])
    {
      hide AfterAll, Shows, ShowsPrefix, Certain, After;
      AfterOneMore(held, calls, rdonly, Capacity(), n);
      ghost var before := history;
      Perform(calls[n]);
      CertainShows(medium, start, Contents(), Contents());
      ShowsIsPrefix(medium, start, held, calls, rdonly, Capacity(), n + 1, n + 1, n + 1);
      forall i, k | 0 <= i <= n && marks[i] <= k < |history|
        ensures ShowsPrefix(history[k], start, held, calls, rdonly, Capacity(), i)
      {
        if k >= |before| {
          ShowsIsPrefix(history[k], start, held, calls, rdonly, Capacity(), i, n, n + 1);
        }
      }
    }

    /**
     Hands out the contents piece by piece; `go` is the callback's answer, which may depend on all it has
     been handed so far. A size of 0 means everything at once, whatever the answer.
     */
    method Walk(size: nat, go: seq<seq<Byte>> -> bool) returns (handed: seq<seq<Byte>>)
      requires Valid() && size < U64
      ensures size == 0 ==> handed == [Contents()]
      ensures size != 0 ==>
                var all := Pieces(pool[..], start, write, size);
                && handed <= all && WentOn(go, handed, |handed|)
                && (handed == all || (handed != [] && !go(handed)))
    {
      if size == 0 {
        return [pool[start..write]];
      }
      var offset: nat := start;
      handed := [];
      ghost var all := Pieces(pool[..], start, write, size);
      assert handed + all == all;
      while offset < write
        invariant handed + Pieces(pool[..], offset, write, size) == all
        invariant WentOn(go, handed, |handed| + 1)
        decreases StepsLeft(offset, write, size)
      {
        HandOne(handed, pool[..], offset, write, size);
        StepsShrink(offset, write, size);
        var len := PieceLen(offset, write, size);
        assert pool[..][offset..offset + len] == pool[offset..offset + len];
        hide *;
        WentOnSnoc(go, handed, pool[offset..offset + len]);
        handed := handed + [pool[offset..offset + len]];
        if !go(handed) {
          return;
        }
        offset := Advance(offset, size);
      }
    }

    /** Handing out one piece leaves the pieces from the next offset. */
    lemma HandOne(handed: seq<seq<Byte>>, bytes: seq<Byte>, offset: nat, write: nat, size: nat)
      requires 0 < size < U64 && offset < write <= |bytes| && write <= HALF64
      ensures var more := handed + [bytes[offset..offset + PieceLen(offset, write, size)]];
              more + Pieces(bytes, Advance(offset, size), write, size) == handed + Pieces(bytes, offset, write, size)
    {
    }
  }
}
