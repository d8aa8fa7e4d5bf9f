/**
 Allocation and freeing in the persistent heap as a protocol of single persists, one arena to an info
 slot, with power failure between any two, and a reopening, recovery of the slots and then filling of the
 container, that may itself be cut short.
 */
module HeapRecovery {
  import opened Common

  import opened HeapZone

  /** An arena's info slot; a slot is written and cleared atomically. */
  datatype Slot = Free_ | AllocSlot(ptr: nat) | FreeSlot(ptr: nat)

  /** The durable state: chunk headers, the non-null pointers (to chunks), and the info slots. */
  datatype Media = Media(zone: Zone, ptrs: map<nat, nat>, slots: seq<Slot>)

  /** Where an arena is inside pmalloc or pfree. */
  datatype Pc =
    | Idle
    | Picking(ptr: nat, units: nat)
    | Got(ptr: nat, units: nat, chunk: nat)
    | Split1(ptr: nat, units: nat, chunk: nat)
    | Split2(ptr: nat, units: nat, chunk: nat)
    | Fitted(ptr: nat, chunk: nat)
    | Pointed(ptr: nat, chunk: nat)
    | Unmark(ptr: nat, chunk: nat)
    | Unmarked(ptr: nat, chunk: nat)
    | Finishing(ptr: nat)

  /** `bucket` is the volatile container of free chunks. */
  datatype State =
    | Running(media: Media, bucket: set<nat>, lanes: seq<Pc>)
    | Recovering(media: Media, at: nat)

  /** `added` says whether the container had the memory to take the chunk in. */
  datatype Action =
    | StartMalloc(ptr: nat, units: nat)
    | Pick(chunk: nat)
    | PickNothing
    | PutBack(added: bool)
    | FitExactly
    | WriteRest
    | WriteMagic
    | ShrinkChunk(added: bool)
    | SetPtr
    | MarkUsed
    | StartFree(ptr: nat)
    | RefuseFree
    | ClearUsed(added: bool)
    | NullPtr
    | ClearSlot

  /** `found` are the free chunks the container takes in when the heap is opened. */
  datatype Label = At(arena: nat, act: Action) | Crash | Recover | Stamp | Opened(found: set<nat>)

  function PtrOf(s: Slot): set<nat> {
    match s
    case Free_ => {}
    case AllocSlot(p) => {p}
    case FreeSlot(p) => {p}
  }

  // ----- Recovery -----

  /** The next persist recovery makes for slot i; the slot itself is cleared last. */
  function RecoverStep(m: Media, i: nat): (r: Media)
    requires i < |m.slots|
    requires PtrsInside(m)
  {
    match m.slots[i]
    case Free_ => m
    case AllocSlot(p) =>
      if p in m.ptrs && m.zone[m.ptrs[p]].used
      then m.(zone := m.zone[m.ptrs[p] := m.zone[m.ptrs[p]].(used := false)])
      else if p in m.ptrs then m.(ptrs := m.ptrs - {p})
      else m.(slots := m.slots[i := Free_])
    case FreeSlot(p) =>
      if p in m.ptrs && !m.zone[m.ptrs[p]].used
      then m.(zone := m.zone[m.ptrs[p] := m.zone[m.ptrs[p]].(used := true)])
      else m.(slots := m.slots[i := Free_])
  }

  // ----- Steps -----

  /** Indexes are in range; the headers may hold anything. */
  predicate Sized(s: State) {
    && PtrsInside(s.media)
    && (s.Running? ==> |s.lanes| == |s.media.slots|)
    && (s.Recovering? ==> s.at <= |s.media.slots|)
    && (s.Running? ==> forall a :: 0 <= a < |s.lanes| ==> PcSized(s, a))
  }

  predicate PtrsInside(m: Media) {
    forall p :: p in m.ptrs ==> m.ptrs[p] < |m.zone|
  }

  predicate PcSized(s: State, a: nat)
    requires s.Running? && a < |s.lanes|
  {
    var pc := s.lanes[a];
    && (!pc.Idle? && !pc.Picking? && !pc.Finishing? ==> pc.chunk < |s.media.zone|)
    && ((pc.Split1? || pc.Split2?) ==> pc.chunk + pc.units < |s.media.zone|)
  }

  predicate Enabled(s: State, l: Label)
    requires Sized(s)
  {
    match l
    case Crash => true
    case Recover => s.Recovering? && s.at < |s.media.slots|
    case Stamp => s.Recovering? && s.at == |s.media.slots| && WalkFrom(s.media.zone, 0).Missing?
    case Opened(found) =>
      && s.Recovering? && s.at == |s.media.slots| && WalkFrom(s.media.zone, 0).Done?
      && forall c :: c in found ==> c in Landings(s.media.zone, 0) && !s.media.zone[c].used
    case At(a, act) => s.Running? && a < |s.lanes| && PcSized(s, a) && ArenaEnabled(s, a, act)
  }

  /** Callers use a pointer in one operation at a time. */
  predicate NotBusy(s: State, ptr: nat)
    requires s.Running?
  {
    forall a :: 0 <= a < |s.lanes| ==> s.lanes[a].Idle? || s.lanes[a].ptr != ptr
  }

  predicate ArenaEnabled(s: State, a: nat, act: Action)
    requires Sized(s) && s.Running? && a < |s.lanes| && PcSized(s, a)
  {
    var pc, z := s.lanes[a], s.media.zone;
    match act
    case StartMalloc(p, _) => pc.Idle? && p !in s.media.ptrs && NotBusy(s, p)
    case Pick(c) => pc.Picking? && c in s.bucket && c < |z|
    case PickNothing => pc.Picking?
    case PutBack(_) => pc.Got? && z[pc.chunk].size < pc.units
    case FitExactly => pc.Got? && z[pc.chunk].size == pc.units
    case WriteRest => pc.Got? && z[pc.chunk].size > pc.units && pc.chunk + pc.units < |z|
    case WriteMagic => pc.Split1?
    case ShrinkChunk(_) => pc.Split2?
    case SetPtr => pc.Fitted?
    case MarkUsed => pc.Pointed?
    case StartFree(p) => pc.Idle? && p in s.media.ptrs && NotBusy(s, p) && z[s.media.ptrs[p]].used
    case RefuseFree => pc.Unmark?
    case ClearUsed(_) => pc.Unmark?
    case NullPtr => pc.Unmarked?
    case ClearSlot => pc.Finishing?
  }

  /** The arena moves on, with this durable state and this bucket. */
  function Goto(s: State, a: nat, pc: Pc, m: Media, bucket: set<nat>): State
    requires s.Running? && a < |s.lanes|
  {
    Running(m, bucket, s.lanes[a := pc])
  }

  function SetUsed(m: Media, c: nat, used: bool): Media
    requires c < |m.zone|
  {
    m.(zone := m.zone[c := m.zone[c].(used := used)])
  }

  function Apply(s: State, l: Label): State
    requires Sized(s) && Enabled(s, l)
  {
    match l
    case Crash => Recovering(s.media, 0)
    case Recover =>
      if s.media.slots[s.at].Free_? then Recovering(s.media, s.at + 1)
      else Recovering(RecoverStep(s.media, s.at), s.at)
    case Stamp => Recovering(s.media.(zone := Stamped(s.media.zone, WalkFrom(s.media.zone, 0).at)), s.at)
    case Opened(found) => Running(s.media, found, seq(|s.media.slots|, _ => Idle))
    case At(a, act) => ArenaApply(s, a, act)
  }

  function ArenaApply(s: State, a: nat, act: Action): State
    requires Sized(s) && s.Running? && a < |s.lanes| && PcSized(s, a) && ArenaEnabled(s, a, act)
  {
    var pc, m, b := s.lanes[a], s.media, s.bucket;
    match act
    case StartMalloc(p, units) => Goto(s, a, Picking(p, units), m.(slots := m.slots[a := AllocSlot(p)]), b)
    case Pick(c) => Goto(s, a, Got(pc.ptr, pc.units, c), m, b - {c})
    case PickNothing => Goto(s, a, Finishing(pc.ptr), m, b)
    case PutBack(added) => Goto(s, a, Finishing(pc.ptr), m, if added then b + {pc.chunk} else b)
    case FitExactly => Goto(s, a, Fitted(pc.ptr, pc.chunk), m, b)
    case WriteRest =>
      Goto(s, a, Split1(pc.ptr, pc.units, pc.chunk), m.(zone := SplitState(m.zone, pc.chunk, pc.units, 1)), b)
    case WriteMagic =>
      Goto(s, a, Split2(pc.ptr, pc.units, pc.chunk),
           m.(zone := m.zone[pc.chunk + pc.units := m.zone[pc.chunk + pc.units].(magic := true)]), b)
    case ShrinkChunk(added) =>
      Goto(s, a, Fitted(pc.ptr, pc.chunk), m.(zone := m.zone[pc.chunk := m.zone[pc.chunk].(size := pc.units)]),
           if added then b + {pc.chunk + pc.units} else b)
    case SetPtr => Goto(s, a, Pointed(pc.ptr, pc.chunk), m.(ptrs := m.ptrs[pc.ptr := pc.chunk]), b)
    case MarkUsed => Goto(s, a, Finishing(pc.ptr), SetUsed(m, pc.chunk, true), b)
    case StartFree(p) => Goto(s, a, Unmark(p, m.ptrs[p]), m.(slots := m.slots[a := FreeSlot(p)]), b)
    case RefuseFree => Goto(s, a, Finishing(pc.ptr), m, b)
    case ClearUsed(added) =>
      Goto(s, a, if added then Unmarked(pc.ptr, pc.chunk) else Finishing(pc.ptr),
           SetUsed(m, pc.chunk, false), if added then b + {pc.chunk} else b)
    case NullPtr => Goto(s, a, Finishing(pc.ptr), m.(ptrs := m.ptrs - {pc.ptr}), b)
    case ClearSlot => Goto(s, a, Idle, m.(slots := m.slots[a := Free_]), b)
  }

  ghost predicate Step(s: State, l: Label, t: State) {
    Sized(s) && Enabled(s, l) && t == Apply(s, l)
  }

  /** No step leaves the range, whatever the headers hold. */
  lemma StepKeepsSized(s: State, l: Label, t: State)
    requires Step(s, l, t)
    ensures Sized(t) && |t.media.zone| == |s.media.zone| && |t.media.slots| == |s.media.slots|
  {
    hide WalkFrom, Landings;
    if t.Running? && s.Running? {
      forall a | 0 <= a < |t.lanes| ensures PcSized(t, a) {
        assert PcSized(s, a);
      }
    }
  }

  // ----- Reopening as a whole -----

  /** Persists recovery still has to make for slot i. */
  function Work(m: Media, i: nat): (w: nat)
    requires i < |m.slots| && PtrsInside(m)
    ensures w == 0 <==> m.slots[i].Free_?
  {
    match m.slots[i]
    case Free_ => 0
    case AllocSlot(p) => if p in m.ptrs then (if m.zone[m.ptrs[p]].used then 3 else 2) else 1
    case FreeSlot(p) => if p in m.ptrs && !m.zone[m.ptrs[p]].used then 2 else 1
  }

  /** Recovery from slot i on, run to its end. */
  function Recovered(m: Media, i: nat): (r: Media)
    requires PtrsInside(m) && i <= |m.slots|
    ensures PtrsInside(r) && |r.slots| == |m.slots| && |r.zone| == |m.zone|
    decreases |m.slots| - i, if i < |m.slots| then Work(m, i) else 0
  {
    if i == |m.slots| then m
    else if m.slots[i].Free_? then Recovered(m, i + 1)
    else Recovered(RecoverStep(m, i), i)
  }

  /** Recovery and then filling, run to their ends; filling may have none. */
  function Reopened(m: Media): (r: Option<Media>)
    requires PtrsInside(m)
    ensures r.Some? ==> PtrsInside(r.value)
  {
    var k := Recovered(m, 0);
    match Filled(k.zone)
    case None => None
    case Some(z) => Some(k.(zone := z))
  }
}
