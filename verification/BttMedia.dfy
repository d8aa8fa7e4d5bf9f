/**
 The on-media state of one arena of the Block Translation Table and the pure part of
 recovery: which half of a flog pair is current, whether the current entry still has to
 be rolled forward, and what an arena contains once it has been.
 */
module BttMedia {

  /** The state a map entry's two top bits encode: 00, 01, 10 and 11. */
  datatype Flags = Initial | Error | Zero | Normal

  datatype MapEntry = MapEntry(flags: Flags, lba: nat)

  newtype byte = x: int | 0 <= x < 256

  type Block = seq<byte>

  /** A flog entry: pre-map LBA, freed post-map entry, new post-map entry, sequence number. */
  datatype Flog = Flog(lba: nat, oldMap: MapEntry, newMap: MapEntry, seqNo: nat)

  /** The two alternating copies of one flog slot. */
  datatype FlogPair = FlogPair(first: Flog, second: Flog) {
    function Slot(i: nat): Flog
      requires i < 2
    {
      if i == 0 then first else second
    }

    function With(i: nat, f: Flog): FlogPair
      requires i < 2
    {
      if i == 0 then FlogPair(f, second) else FlogPair(first, f)
    }
  }

  datatype Media = Media(map_: seq<MapEntry>, flogs: seq<FlogPair>, data: seq<Block>)

  /** What a read of an LBA reports: an I/O error or a whole block. */
  datatype Content = Bad | Bytes(block: Block)

  // ----- Map entries -----

  const LBA_MASK := 0x3fff_ffff
  const WORD_LIMIT := 0x1_0000_0000

  /** The little-endian word stored for an entry (all LBAs are below 2^30). */
  function Pack(e: MapEntry): (w: nat)
    requires e.lba <= LBA_MASK
  {
    e.lba + match e.flags
            case Initial => 0
            case Error => 0x4000_0000
            case Zero => 0x8000_0000
            case Normal => 0xC000_0000
  }

  function Unpack(w: nat): (e: MapEntry)
    requires w < WORD_LIMIT
  {
    var top := w / 0x4000_0000;
    MapEntry(if top == 0 then Initial else if top == 1 then Error else if top == 2 then Zero else Normal,
             w % 0x4000_0000)
  }

  /** Entries and words correspond one to one, so comparing entries is comparing words. */
  lemma WordsAreEntries(e: MapEntry, w: nat)
    requires e.lba <= LBA_MASK && w < WORD_LIMIT
    ensures Pack(e) < WORD_LIMIT && Unpack(Pack(e)) == e
    ensures Unpack(w).lba <= LBA_MASK && Pack(Unpack(w)) == w
    ensures Pack(e) >= 0x8000_0000 <==> e.flags.Zero? || e.flags.Normal?
    ensures (Pack(e) / 0x4000_0000) % 2 == 1 <==> e.flags.Error? || e.flags.Normal?
  {
  }

  /** An entry in its initial state stands for the identity mapping. */
  function Normalized(e: MapEntry, premap: nat): MapEntry {
    if e.flags.Initial? then MapEntry(Normal, premap) else e
  }

  predicate IsZeroOrInitial(e: MapEntry) {
    e.flags.Zero? || e.flags.Initial?
  }

  function Zeros(n: nat): Block {
    seq(n, _ => 0)
  }

  /** Contents of an LBA as the map alone shows them. */
  function Visible(m: Media, lbasize: nat, lba: nat): Content
    requires lba < |m.map_|
    requires MapBlock(m, lba) < |m.data|
  {
    var e := m.map_[lba];
    if e.flags.Error? then Bad
    else if IsZeroOrInitial(e) then Bytes(Zeros(lbasize))
    else Bytes(m.data[e.lba])
  }

  // ----- Flog pairs -----

  /** The 2-bit sequence numbers cycle 1, 2, 3; the table maps 0 to 0. */
  function NextSeq(s: nat): (n: nat) {
    match s % 4
    case 0 => 0
    case 1 => 2
    case 2 => 3
    case _ => 1
  }

  datatype Pick = BadSeq | Current(index: nat)

  /** Which copy of a pair is current; equal sequence numbers are a layout error. */
  function Select(p: FlogPair): (pick: Pick)
    ensures pick.Current? ==> pick.index < 2
  {
    if p.first.seqNo == p.second.seqNo then BadSeq
    else if p.first.seqNo == 0 then Current(1)
    else if p.second.seqNo == 0 then Current(0)
    else if NextSeq(p.first.seqNo) == p.second.seqNo then Current(1)
    else Current(0)
  }

  /**
   Among numbers of the cycle the current copy is the one whose number comes next after the other's, or the
   only one in use; writing the next number into the stale copy makes that one current, whatever else it holds.
   */
  lemma SelectPicksLater(p: FlogPair, f: Flog)
    requires p.first.seqNo <= 3 && p.second.seqNo <= 3
    ensures Select(p).BadSeq? <==> p.first.seqNo == p.second.seqNo
    ensures Select(p).Current? ==>
              var i := Select(p).index;
              var cur, stale := p.Slot(i).seqNo, p.Slot(1 - i).seqNo;
              && cur != 0 && (stale == 0 || NextSeq(stale) == cur)
              && (f.seqNo == NextSeq(cur) ==> Select(p.With(1 - i, f)) == Current(1 - i))
  {
  }

  /** The three orders in which the second copy's number comes right after the first's. */
  predicate SecondFollows(p: FlogPair) {
    (p.first.seqNo, p.second.seqNo) in {(1, 2), (2, 3), (3, 1)}
  }

  /** The three orders in which the first copy's number comes right after the second's. */
  predicate FirstFollows(p: FlogPair) {
    (p.first.seqNo, p.second.seqNo) in {(2, 1), (3, 2), (1, 3)}
  }

  /** The choice in plain numbers, and the number an update writes over each current one. */
  lemma SelectByNumbers(p: FlogPair)
    requires p.first.seqNo <= 3 && p.second.seqNo <= 3
    ensures Select(p) == Current(1) <==> SecondFollows(p) || (p.first.seqNo == 0 && p.second.seqNo != 0)
    ensures Select(p) == Current(0) <==> FirstFollows(p) || (p.first.seqNo != 0 && p.second.seqNo == 0)
    ensures NextSeq(1) == 2 && NextSeq(2) == 3 && NextSeq(3) == 1
  {
    assert 1 <= p.first.seqNo && 1 <= p.second.seqNo && p.first.seqNo != p.second.seqNo ==>
        SecondFollows(p) || FirstFollows(p);
  }

  function CurrentIndex(p: FlogPair): (i: nat)
    ensures i < 2
  {
    match Select(p)
    case Current(i) => i
    case BadSeq => 0
  }

  function CurrentFlog(p: FlogPair): Flog {
    p.Slot(CurrentIndex(p))
  }

  function StaleFlog(p: FlogPair): Flog {
    p.Slot(1 - CurrentIndex(p))
  }

  /** The shape every pair has between any two durable writes of the protocol. */
  predicate PairOk(p: FlogPair, nlba: nat) {
    var cur, stale := CurrentFlog(p), StaleFlog(p);
    && Select(p).Current?
    && 1 <= cur.seqNo <= 3
    && (stale.seqNo == 0 || (1 <= stale.seqNo <= 3 && NextSeq(stale.seqNo) == cur.seqNo))
    && cur.lba < nlba && stale.lba < nlba
    && (cur.oldMap != cur.newMap ==> cur.newMap.flags.Normal?)
  }

  // ----- Ownership of blocks -----

  /** The well-formedness needed to speak of the arena's blocks at all. */
  predicate Shape(m: Media) {
    && |m.data| == |m.map_| + |m.flogs|
    && forall k :: 0 <= k < |m.flogs| ==> PairOk(m.flogs[k], |m.map_|)
  }

  /** The current entry of this flog pair was committed but the map was not updated yet. */
  predicate Pending(m: Media, k: nat)
    requires Shape(m) && k < |m.flogs|
  {
    var f := CurrentFlog(m.flogs[k]);
    var e := Normalized(m.map_[f.lba], f.lba);
    f.oldMap != f.newMap && f.newMap != e && f.oldMap == e
  }

  /** The one block a flog pair holds: its free block, or the new block of a pending update. */
  function FlogBlock(m: Media, k: nat): nat
    requires Shape(m) && k < |m.flogs|
  {
    var f := CurrentFlog(m.flogs[k]);
    if Pending(m, k) then f.newMap.lba else f.oldMap.lba
  }

  function MapBlock(m: Media, lba: nat): nat
    requires lba < |m.map_|
  {
    Normalized(m.map_[lba], lba).lba
  }

  /** Owner i is LBA i when i is an LBA, and a flog pair otherwise. */
  function OwnedBlock(m: Media, i: nat): nat
    requires Shape(m) && i < |m.data|
  {
    if i < |m.map_| then MapBlock(m, i) else FlogBlock(m, i - |m.map_|)
  }

  /** Every owner holds a block of the arena and no two hold the same one. */
  ghost predicate Partition(m: Media)
    requires Shape(m)
  {
    && (forall i :: 0 <= i < |m.data| ==> OwnedBlock(m, i) < |m.data|)
    && (forall i, j :: 0 <= i < j < |m.data| ==> OwnedBlock(m, i) != OwnedBlock(m, j))
  }

  /** The durable invariant: what holds of the media between any two durable writes. */
  ghost predicate Consistent(m: Media, lbasize: nat) {
    && Shape(m)
    && Partition(m)
    && (forall j, k :: 0 <= j < k < |m.flogs| && Pending(m, j) && Pending(m, k) ==>
         CurrentFlog(m.flogs[j]).lba != CurrentFlog(m.flogs[k]).lba)
    && (forall b :: 0 <= b < |m.data| ==> |m.data[b]| == lbasize)
  }

  /** Because owners and blocks are equally many, no block is without an owner. */
  lemma {:induction false} EveryBlockIsOwned(m: Media, b: nat)
    requires Shape(m) && Partition(m) && b < |m.data|
    ensures exists i :: 0 <= i < |m.data| && OwnedBlock(m, i) == b
  {
    if forall i :: 0 <= i < |m.data| ==> OwnedBlock(m, i) != b {
      var owned := seq(|m.data|, i requires 0 <= i < |m.data| => OwnedBlock(m, i));
      Pigeonhole(owned, |m.data|, b);
    }
  }

  /** An injective sequence into 0..n that misses b is shorter than n. */
  lemma {:induction false} Pigeonhole(s: seq<nat>, n: nat, b: nat)
    requires b < n
    requires forall i :: 0 <= i < |s| ==> s[i] < n && s[i] != b
    requires forall i, j :: 0 <= i < j < |s| ==> s[i] != s[j]
    ensures |s| < n
    decreases n
  {
    if s == [] {
    } else {
      // renumber: send the value n-1 to b, so that the rest maps into 0..n-1 and misses one
      var last := s[|s| - 1];
      if n == 1 {
        assert false;
      }
      var init := s[..|s| - 1];
      var t := seq(|init|, i requires 0 <= i < |init| => if init[i] == n - 1 then last else init[i]);
      if last == n - 1 {
        if b == n - 1 {
          assert false;
        }
        forall i | 0 <= i < |init| ensures init[i] != n - 1 {
        }
        Pigeonhole(init, n - 1, b);
      } else if b == n - 1 {
        Pigeonhole(init, n - 1, last);
      } else {
        Pigeonhole(t, n - 1, b);
      }
    }
  }

  // ----- Recovery -----

  /** The recovery step of one flog pair: complete the transaction, or do nothing. */
  function RecoverOne(m: Media, k: nat): (r: Media)
    requires Shape(m) && k < |m.flogs|
    ensures Shape(r) && r.flogs == m.flogs && r.data == m.data && |r.map_| == |m.map_|
  {
    var f := CurrentFlog(m.flogs[k]);
    if Pending(m, k) then m.(map_ := m.map_[f.lba := f.newMap]) else m
  }

  /** Recovery of all pairs from the k-th on. */
  function RecoverFrom(m: Media, k: nat): (r: Media)
    requires Shape(m) && k <= |m.flogs|
    ensures Shape(r) && r.flogs == m.flogs && r.data == m.data && |r.map_| == |m.map_|
    decreases |m.flogs| - k
  {
    if k == |m.flogs| then m else RecoverFrom(RecoverOne(m, k), k + 1)
  }

  function Recover(m: Media): (r: Media)
    requires Shape(m)
    ensures Shape(r) && r.flogs == m.flogs && r.data == m.data && |r.map_| == |m.map_|
  {
    RecoverFrom(m, 0)
  }

  /** Owners other than i and j keep their blocks, while i and j exchange theirs. */
  lemma PartitionSwap(m: Media, r: Media, i: nat, j: nat)
    requires Shape(m) && Shape(r) && Partition(m) && |r.data| == |m.data|
    requires i < |m.data| && j < |m.data|
    requires OwnedBlock(r, i) == OwnedBlock(m, j) && OwnedBlock(r, j) == OwnedBlock(m, i)
    requires forall k :: 0 <= k < |m.data| && k != i && k != j ==> OwnedBlock(r, k) == OwnedBlock(m, k)
    ensures Partition(r)
  {
    var n := |m.data|;
    forall a, b | 0 <= a < b < n ensures OwnedBlock(r, a) != OwnedBlock(r, b) {
      var a' := if a == i then j else if a == j then i else a;
      var b' := if b == i then j else if b == j then i else b;
      assert OwnedBlock(r, a) == OwnedBlock(m, a') && OwnedBlock(r, b) == OwnedBlock(m, b');
      if a' < b' { } else { assert b' < a'; }
    }
  }

  lemma PartitionSame(m: Media, r: Media)
    requires Shape(m) && Shape(r) && Partition(m) && |r.data| == |m.data|
    requires forall k :: 0 <= k < |m.data| ==> OwnedBlock(r, k) == OwnedBlock(m, k)
    ensures Partition(r)
  {
  }

  /** Two different owners never hold the same block. */
  lemma OwnersDiffer(m: Media, i: nat, j: nat)
    requires Shape(m) && Partition(m)
    requires i < |m.data| && j < |m.data| && i != j
    ensures OwnedBlock(m, i) != OwnedBlock(m, j)
  {
    if i < j { } else { }
  }

  /** A pair whose entry is not pending stays so when another LBA is mapped to a block it does not own. */
  lemma NotPendingStays(m: Media, r: Media, k: nat, lba: nat, e: MapEntry)
    requires Shape(m) && Partition(m) && k < |m.flogs| && lba < |m.map_|
    requires Shape(r) && r.flogs == m.flogs && r.map_ == m.map_[lba := e]
    requires !Pending(m, k) && !e.flags.Initial? && e.lba != FlogBlock(m, k)
    ensures !Pending(r, k) && FlogBlock(r, k) == FlogBlock(m, k)
  {
  }

  /** Rolling one entry forward leaves every other flog pair as it was. */
  lemma RecoverOneKeepsOthers(m: Media, lbasize: nat, k: nat, j: nat)
    requires Consistent(m, lbasize) && k < |m.flogs| && j < |m.flogs| && j != k
    ensures Pending(RecoverOne(m, k), j) == Pending(m, j)
    ensures FlogBlock(RecoverOne(m, k), j) == FlogBlock(m, j)
  {
    if Pending(m, k) {
      var n := |m.map_|;
      OwnersDiffer(m, n + j, n + k);
      if Pending(m, j) {
        assert CurrentFlog(m.flogs[j]).lba != CurrentFlog(m.flogs[k]).lba;
      } else {
        NotPendingStays(m, RecoverOne(m, k), j, CurrentFlog(m.flogs[k]).lba, CurrentFlog(m.flogs[k]).newMap);
      }
    }
  }

  /** Rolling a pending entry forward exchanges the blocks of its LBA and its flog pair. */
  lemma RecoverOneExchanges(m: Media, lbasize: nat, k: nat)
    requires Consistent(m, lbasize) && k < |m.flogs| && Pending(m, k)
    ensures !Pending(RecoverOne(m, k), k)
    ensures OwnedBlock(RecoverOne(m, k), CurrentFlog(m.flogs[k]).lba) == OwnedBlock(m, |m.map_| + k)
    ensures OwnedBlock(RecoverOne(m, k), |m.map_| + k) == OwnedBlock(m, CurrentFlog(m.flogs[k]).lba)
  {
  }

  /** Rolling one entry forward keeps the durable invariant and settles that entry only. */
  lemma RecoverOneConsistent(m: Media, lbasize: nat, k: nat)
    requires Consistent(m, lbasize) && k < |m.flogs|
    ensures Consistent(RecoverOne(m, k), lbasize)
    ensures !Pending(RecoverOne(m, k), k)
    ensures forall j :: 0 <= j < |m.flogs| && j != k ==> Pending(RecoverOne(m, k), j) == Pending(m, j)
  {
    hide Partition;
    var r := RecoverOne(m, k);
    forall j | 0 <= j < |m.flogs| && j != k
      ensures Pending(r, j) == Pending(m, j) && FlogBlock(r, j) == FlogBlock(m, j)
    {
      RecoverOneKeepsOthers(m, lbasize, k, j);
    }
    if Pending(m, k) {
      RecoverOneExchanges(m, lbasize, k);
      PartitionSwap(m, r, CurrentFlog(m.flogs[k]).lba, |m.map_| + k);
    }
  }

  /** Recovery from the k-th pair on keeps the invariant and leaves nothing pending there. */
  lemma {:induction false} RecoverFromConsistent(m: Media, lbasize: nat, k: nat)
    requires Consistent(m, lbasize) && k <= |m.flogs|
    ensures Consistent(RecoverFrom(m, k), lbasize)
    ensures forall j :: 0 <= j < |m.flogs| && (k <= j || !Pending(m, j)) ==> !Pending(RecoverFrom(m, k), j)
    decreases |m.flogs| - k
  {
    if k < |m.flogs| {
      RecoverOneConsistent(m, lbasize, k);
      RecoverFromConsistent(RecoverOne(m, k), lbasize, k + 1);
    }
  }

  /** After recovery the partition holds and every flog pair is settled. */
  lemma RecoverSettles(m: Media, lbasize: nat)
    requires Consistent(m, lbasize)
    ensures Consistent(Recover(m), lbasize)
    ensures forall j :: 0 <= j < |m.flogs| ==> !Pending(Recover(m), j)
  {
    RecoverFromConsistent(m, lbasize, 0);
  }

  /** Flog pair k holds a committed but unapplied update of this LBA. */
  predicate PendingFor(m: Media, k: nat, lba: nat)
    requires Shape(m) && k < |m.flogs|
  {
    Pending(m, k) && CurrentFlog(m.flogs[k]).lba == lba
  }

  /** Recovery writes exactly the committed entries: this is what it does to one map entry. */
  lemma {:induction false} RecoverFromEntry(m: Media, lbasize: nat, k: nat, lba: nat)
    requires Consistent(m, lbasize) && k <= |m.flogs| && lba < |m.map_|
    ensures forall j :: k <= j < |m.flogs| && PendingFor(m, j, lba) ==>
              RecoverFrom(m, k).map_[lba] == CurrentFlog(m.flogs[j]).newMap
    ensures (forall j :: k <= j < |m.flogs| ==> !PendingFor(m, j, lba)) ==>
              RecoverFrom(m, k).map_[lba] == m.map_[lba]
    decreases |m.flogs| - k
  {
    if k < |m.flogs| {
      var r := RecoverOne(m, k);
      RecoverOneConsistent(m, lbasize, k);
      RecoverFromEntry(r, lbasize, k + 1, lba);
      forall j | k < j < |m.flogs| ensures PendingFor(r, j, lba) == PendingFor(m, j, lba) {
      }
      if PendingFor(m, k, lba) {
        forall j | k < j < |m.flogs| ensures !PendingFor(m, j, lba) {
        }
      }
    }
  }

  /** A repaired pair may be repaired again, in any order, before recovery starts over. */
  lemma RecoverAbsorbsOne(m: Media, lbasize: nat, k: nat)
    requires Consistent(m, lbasize) && k < |m.flogs|
    ensures Recover(RecoverOne(m, k)) == Recover(m)
  {
    var r := RecoverOne(m, k);
    RecoverOneConsistent(m, lbasize, k);
    forall lba | 0 <= lba < |m.map_| ensures Recover(r).map_[lba] == Recover(m).map_[lba] {
      RecoverFromEntry(m, lbasize, 0, lba);
      RecoverFromEntry(r, lbasize, 0, lba);
      forall j | 0 <= j < |m.flogs| && j != k ensures PendingFor(r, j, lba) == PendingFor(m, j, lba) {
      }
      assert !PendingFor(r, k, lba);
      if PendingFor(m, k, lba) {
        forall j | 0 <= j < |m.flogs| ensures !PendingFor(r, j, lba) {
        }
      } else if j :| 0 <= j < |m.flogs| && PendingFor(m, j, lba) {
        assert PendingFor(r, j, lba);
      } else {
        forall j | 0 <= j < |m.flogs| ensures !PendingFor(r, j, lba) {
        }
      }
    }
  }

  /** Recovery cut short after any number of pairs and started over gives the same media. */
  lemma {:induction false} InterruptedRecovery(m: Media, lbasize: nat, done: seq<nat>)
    requires Consistent(m, lbasize)
    requires forall i :: 0 <= i < |done| ==> done[i] < |m.flogs|
    ensures Recover(RecoverThese(m, done)) == Recover(m)
    decreases |done|
  {
    if done != [] {
      RecoverOneConsistent(m, lbasize, done[0]);
      RecoverAbsorbsOne(m, lbasize, done[0]);
      InterruptedRecovery(RecoverOne(m, done[0]), lbasize, done[1..]);
    }
  }

  /** The repairs of these pairs, in this order. */
  function RecoverThese(m: Media, done: seq<nat>): (r: Media)
    requires Shape(m)
    requires forall i :: 0 <= i < |done| ==> done[i] < |m.flogs|
    ensures Shape(r) && r.flogs == m.flogs && r.data == m.data && |r.map_| == |m.map_|
    decreases |done|
  {
    if done == [] then m else RecoverThese(RecoverOne(m, done[0]), done[1..])
  }

  /** With nothing pending there is nothing to recover. */
  lemma {:induction false} RecoverNothing(m: Media, k: nat)
    requires Shape(m) && k <= |m.flogs|
    requires forall j :: k <= j < |m.flogs| ==> !Pending(m, j)
    ensures RecoverFrom(m, k) == m
    decreases |m.flogs| - k
  {
    if k < |m.flogs| {
      RecoverNothing(m, k + 1);
    }
  }

  /** Recovering twice equals recovering once. */
  lemma RecoverIdempotent(m: Media, lbasize: nat)
    requires Consistent(m, lbasize)
    ensures Recover(Recover(m)) == Recover(m)
  {
    RecoverSettles(m, lbasize);
    RecoverNothing(Recover(m), 0);
  }

  // ----- Contents -----

  /** What every LBA reads as, by the map alone. */
  ghost function Contents(m: Media, lbasize: nat): (c: seq<Content>)
    requires Consistent(m, lbasize)
    ensures |c| == |m.map_|
  {
    forall lba | 0 <= lba < |m.map_| ensures MapBlock(m, lba) < |m.data| {
      assert OwnedBlock(m, lba) < |m.data|;
    }
    seq(|m.map_|, lba requires 0 <= lba < |m.map_| => Visible(m, lbasize, lba))
  }

  /** What every LBA would read as if power failed now and the arena were reopened. */
  ghost function Durable(m: Media, lbasize: nat): (c: seq<Content>)
    requires Consistent(m, lbasize)
    ensures |c| == |m.map_|
  {
    RecoverSettles(m, lbasize);
    Contents(Recover(m), lbasize)
  }

  /** An LBA survives a crash with its pending new block, or else as it is visible now. */
  lemma DurableAt(m: Media, lbasize: nat, lba: nat)
    requires Consistent(m, lbasize) && lba < |m.map_|
    ensures MapBlock(m, lba) < |m.data|
    ensures forall k :: 0 <= k < |m.flogs| ==> FlogBlock(m, k) < |m.data|
    ensures forall k :: 0 <= k < |m.flogs| && PendingFor(m, k, lba) ==>
              Durable(m, lbasize)[lba] == Bytes(m.data[FlogBlock(m, k)])
    ensures (forall k :: 0 <= k < |m.flogs| ==> !PendingFor(m, k, lba)) ==>
              Durable(m, lbasize)[lba] == Visible(m, lbasize, lba)
  {
    RecoverFromEntry(m, lbasize, 0, lba);
    assert OwnedBlock(m, lba) < |m.data|;
    forall k | 0 <= k < |m.flogs| ensures FlogBlock(m, k) < |m.data| {
      assert OwnedBlock(m, |m.map_| + k) < |m.data|;
    }
  }
}
