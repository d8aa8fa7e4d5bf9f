/**
 The info block of an arena as the 1024 words on media: what is written with its checksum, what the reader
 makes of words it finds, and that damage to any one word makes the block absent to it.
 */
module BttInfo {
  import opened Common
  import opened Fletcher

  import opened BttLayout

  const WORDS: nat := 1024
  const FLAGS_AT: nat := 8
  const UNUSED_FROM: nat := 26
  const CHECKSUM_AT: nat := 1022

  /** The signature BTT_ARENA_INFO and two zero bytes, and the version 1.1 with the major number in the low half. */
  const SIGNATURE: seq<word> := [0x5F54_5442, 0x4E45_5241, 0x4E49_5F41, 0x0000_4F46]
  const VERSION: word := 0x0001_0001

  function Lower(x: nat): word {
    (x % WORD) as word
  }

  function Upper(x: nat): word {
    (x / WORD % WORD) as word
  }

  function Joined(lo: word, hi: word): nat {
    lo as int + hi as int * WORD
  }

  /** Word i of the block, but for the checksum; the fields of 64 bits have their low word first. */
  function WordAt(uuid: seq<word>, f: Info, i: nat): word
    requires |uuid| == 4
  {
    if i < 4 then SIGNATURE[i]
    else if i < 8 then uuid[i - 4]
    else match i
      case 9 => VERSION
      case 10 => Lower(f.externalLbasize)
      case 11 => Lower(f.externalNlba)
      case 12 => Lower(f.internalLbasize)
      case 13 => Lower(f.internalNlba)
      case 14 => Lower(f.nfree)
      case 15 => INFO_SIZE as word
      case 16 => Lower(f.nextoff)
      case 17 => Upper(f.nextoff)
      case 18 => Lower(f.dataoff)
      case 19 => Upper(f.dataoff)
      case 20 => Lower(f.mapoff)
      case 21 => Upper(f.mapoff)
      case 22 => Lower(f.flogoff)
      case 23 => Upper(f.flogoff)
      case 24 => Lower(f.infooff)
      case 25 => Upper(f.infooff)
      case _ => 0
  }

  function Unsummed(uuid: seq<word>, f: Info): (ws: seq<word>)
    requires |uuid| == 4
    ensures |ws| == WORDS
  {
    seq(WORDS, i requires 0 <= i => WordAt(uuid, f, i))
  }

  /** The block that is written. */
  function Block(uuid: seq<word>, f: Info): (ws: seq<word>)
    requires |uuid| == 4
    ensures |ws| == WORDS
  {
    Inserted(Unsummed(uuid, f), CHECKSUM_AT)
  }

  function Decoded(ws: seq<word>): Info
    requires |ws| == WORDS
  {
    Info(ws[10] as int, ws[11] as int, ws[12] as int, ws[13] as int, ws[14] as int,
         Joined(ws[16], ws[17]), Joined(ws[18], ws[19]), Joined(ws[20], ws[21]), Joined(ws[22], ws[23]), Joined(ws[24], ws[25]))
  }

  /** What the reader makes of a block: signature, container, checksum and major version must be right. */
  function ReadInfo(ws: seq<word>, uuid: seq<word>): (r: Option<Info>)
    requires |ws| == WORDS
  {
    if ws[..4] != SIGNATURE then None
    else if ws[4..8] != uuid then None
    else if !Verifies(ws, CHECKSUM_AT) then None
    else if ws[9] as int % 0x1_0000 == 0 then None
    else Some(Decoded(ws))
  }

  /** The fields fit their widths. */
  predicate FitsWords(f: Info) {
    && f.externalLbasize < WORD && f.externalNlba < WORD && f.internalLbasize < WORD && f.internalNlba < WORD && f.nfree < WORD
    && f.nextoff < WORD * WORD && f.dataoff < WORD * WORD && f.mapoff < WORD * WORD
    && f.flogoff < WORD * WORD && f.infooff < WORD * WORD
  }

  /** What is laid out fits. */
  lemma LaidOutFitsWords(g: Geometry, k: nat)
    requires Sane(g) && Fits(g, k)
    ensures FitsWords(InfoOf(g, k))
  {
    RegionsInOrder(g, k);
    NoWrap(g.lbasize);
    hide InternalNlba, FlogArea, MapArea, InternalLbasize;
    assert g.nfree <= g.nfree * FLOG_PAIR_ALIGN <= FlogArea(g);
  }

  lemma Halves(x: nat)
    ensures x < WORD * WORD ==> Joined(Lower(x), Upper(x)) == x
    ensures x < WORD ==> Lower(x) as int == x
  {
  }

  lemma BlockWords(uuid: seq<word>, f: Info)
    requires |uuid| == 4
    ensures var ws := Block(uuid, f);
            Verifies(ws, CHECKSUM_AT) && forall i :: 0 <= i < CHECKSUM_AT ==> ws[i] == WordAt(uuid, f, i)
  {
    InsertThenVerify(Unsummed(uuid, f), CHECKSUM_AT);
    hide Verifies, WordAt;
  }

  lemma DecodedBack(ws: seq<word>, uuid: seq<word>, f: Info)
    requires |ws| == WORDS && |uuid| == 4 && FitsWords(f)
    requires forall i :: 0 <= i < CHECKSUM_AT ==> ws[i] == WordAt(uuid, f, i)
    ensures Decoded(ws) == f
  {
    hide Joined, Lower, Upper;
    Halves(f.externalLbasize);
    Halves(f.externalNlba);
    Halves(f.internalLbasize);
    Halves(f.internalNlba);
    Halves(f.nfree);
    Halves(f.nextoff);
    Halves(f.dataoff);
    Halves(f.mapoff);
    Halves(f.flogoff);
    Halves(f.infooff);
  }

  /** A written block reads back as what was written; to a container with another UUID it is no block. */
  lemma WrittenReadsBack(uuid: seq<word>, f: Info, other: seq<word>)
    requires |uuid| == 4 && FitsWords(f)
    ensures ReadInfo(Block(uuid, f), other) == if other == uuid then Some(f) else None
    ensures forall i :: i == FLAGS_AT || UNUSED_FROM <= i < CHECKSUM_AT ==> Block(uuid, f)[i] == 0
  {
    hide Block, Verifies, Decoded, FitsWords, Lower, Upper;
    var ws := Block(uuid, f);
    BlockWords(uuid, f);
    DecodedBack(ws, uuid, f);
    assert ws[..4] == SIGNATURE;
    assert ws[4..8] == uuid;
    assert ws[9] == VERSION;
  }

  /** Whatever block was readable, damage to any one of its words, checksum included, makes it unreadable. */
  lemma DamagedIsAbsent(ws: seq<word>, uuid: seq<word>, i: nat, w: word)
    requires |ws| == WORDS && ReadInfo(ws, uuid).Some? && i < WORDS && w != ws[i]
    ensures ReadInfo(ws[i := w], uuid).None?
  {
    if i < CHECKSUM_AT {
      OneBadWordIsNoticed(ws, CHECKSUM_AT, i, w);
    } else {
      assert Masked(ws[i := w], CHECKSUM_AT) == Masked(ws, CHECKSUM_AT);
    }
  }

  // ----- What the reader of a namespace sees -----

  predicate Blocks(blocks: map<nat, seq<word>>) {
    forall off :: off in blocks ==> |blocks[off]| == WORDS
  }

  /** The readable info blocks among those written, by offset. */
  function Seen(blocks: map<nat, seq<word>>, uuid: seq<word>): (infos: map<nat, Info>)
    requires Blocks(blocks)
  {
    map off | off in blocks && ReadInfo(blocks[off], uuid).Some? :: ReadInfo(blocks[off], uuid).value
  }

  function OnMedia(infos: map<nat, Info>, uuid: seq<word>): (blocks: map<nat, seq<word>>)
    requires |uuid| == 4
    ensures Blocks(blocks)
  {
    map off | off in infos :: Block(uuid, infos[off])
  }

  lemma WrittenIsSeen(infos: map<nat, Info>, uuid: seq<word>)
    requires |uuid| == 4 && forall off :: off in infos ==> FitsWords(infos[off])
    ensures Seen(OnMedia(infos, uuid), uuid) == infos
  {
    hide ReadInfo, Block, FitsWords;
    forall off | off in infos ensures ReadInfo(Block(uuid, infos[off]), uuid) == Some(infos[off]) {
      WrittenReadsBack(uuid, infos[off], uuid);
    }
  }

  /** All that a layout writes is seen, as written. */
  lemma LayoutIsSeen(g: Geometry, n: nat, uuid: seq<word>)
    requires FitsUpTo(g, n) && |uuid| == 4
    ensures Seen(OnMedia(InfosWritten(g, n), uuid), uuid) == InfosWritten(g, n)
  {
    hide *;
    forall off | off in InfosWritten(g, n) ensures FitsWords(InfosWritten(g, n)[off]) {
      WrittenFits(g, n, off);
    }
    WrittenIsSeen(InfosWritten(g, n), uuid);
  }

  lemma {:induction false} WrittenFits(g: Geometry, n: nat, off: nat)
    requires FitsUpTo(g, n) && off in InfosWritten(g, n)
    ensures FitsWords(InfosWritten(g, n)[off])
    decreases n
  {
    assert Fits(g, n - 1);
    LaidOutFitsWords(g, n - 1);
    hide FitsWords, Fits, InfoOf;
    if off in InfosWritten(g, n - 1) {
      WrittenFits(g, n - 1, off);
    }
  }

  /** A damaged word takes exactly its block out of what is seen: the reader finds no layout there. */
  lemma DamageHidesBlock(blocks: map<nat, seq<word>>, uuid: seq<word>, off: nat, i: nat, w: word)
    requires Blocks(blocks) && off in Seen(blocks, uuid) && i < WORDS && w != blocks[off][i]
    ensures Seen(blocks[off := blocks[off][i := w]], uuid) == Seen(blocks, uuid) - {off}
  {
    DamagedIsAbsent(blocks[off], uuid, i, w);
    hide ReadInfo;
  }
}
