/**
 * The base relocation directory: a run of blocks, each an 8-byte header
 * (the page RVA and the block's size in bytes) followed by 16-bit entries
 * whose top 4 bits are the relocation type and whose low 12 bits are the
 * offset inside the page. The run ends where the directory's RVA range ends.
 */
module Relocs {
  import opened Bytes
  import opened Image
  import opened View

  /** The view and the base relocation data directory entry. */
  datatype RelocsDirectory = RelocsDirectory(view: PeView, datadir: DataDir)

  /** One block: its header fields and its entries (`TypeAndOffset` values). */
  datatype BaseRelocations = BaseRelocations(VirtualAddress: u32, SizeOfBlock: u32, blocks: seq<u16>)

  /**
   * relocs(): `None` without a base relocation data directory entry or when
   * its RVA is BADRVA; nothing is read until the blocks are iterated.
   */
  function Relocs(v: PeView): (r: Option<RelocsDirectory>)
    requires ValidView(v)
    ensures r.None? <==>
              NumberOfRvaAndSizes(v) <= DIRECTORY_ENTRY_BASERELOC
              || DataDirectory(v)[DIRECTORY_ENTRY_BASERELOC].VirtualAddress == BADRVA
    ensures r.Some? ==> r.value.view == v && r.value.datadir == DataDirectory(v)[DIRECTORY_ENTRY_BASERELOC]
  {
    match DirectoryEntry(v, DIRECTORY_ENTRY_BASERELOC)
    case None => None
    case Some(dd) => if dd.VirtualAddress == BADRVA then None else Some(RelocsDirectory(v, dd))
  }

  /** The end of the directory's RVA range, a wrapping u32 sum. */
  function RelocsEnd(dd: DataDir): u32
  {
    Wrap32(dd.VirtualAddress + dd.Size)
  }

  /** The number of entries a block of `size` bytes holds after its header. */
  function EntryCount(size: u32): nat
    requires size > BASE_RELOCATION_SIZE
  {
    (size - BASE_RELOCATION_SIZE) / BASE_RELOC_BLOCK_SIZE
  }

  /** The header and the entries cover all of a block's bytes but at most one. */
  lemma EntryCountCovers(size: u32)
    requires size > BASE_RELOCATION_SIZE
    ensures size - 1 <= BASE_RELOCATION_SIZE + BASE_RELOC_BLOCK_SIZE * EntryCount(size) <= size
  {
  }

  /** A whole block lies at `pos`: a header whose size exceeds its own, then its entries. */
  predicate BlockFits(image: seq<u8>, pos: int)
  {
    && 0 < pos && pos + BASE_RELOCATION_SIZE <= |image|
    && U32At(image, pos + 4) > BASE_RELOCATION_SIZE
    && pos + BASE_RELOCATION_SIZE + BASE_RELOC_BLOCK_SIZE * EntryCount(U32At(image, pos + 4)) <= |image|
  }

  /** The block at `pos`: the header's page RVA and size and the u16 entries after it. */
  function BlockAt(image: seq<u8>, pos: int): (b: BaseRelocations)
    requires BlockFits(image, pos)
    ensures b.SizeOfBlock > BASE_RELOCATION_SIZE && |b.blocks| == EntryCount(b.SizeOfBlock)
  {
    var size := U32At(image, pos + 4);
    var n := EntryCount(size);
    BaseRelocations(U32At(image, pos), size,
      seq(n, i requires 0 <= i < n => U16At(image, pos + BASE_RELOCATION_SIZE + BASE_RELOC_BLOCK_SIZE * i)))
  }

  /**
   * One step of RelocsIterator at cursor `it`: at or past the end nothing;
   * otherwise the block at the cursor must fit (a panic otherwise, also for
   * BADRVA), and the cursor advances by the block's size, wrapping.
   */
  function RelocStep(v: PeView, dd: DataDir, it: u32): (r: Outcome<Option<(BaseRelocations, u32)>>)
    requires |v.image| <= 0xFFFF_FFFF
    ensures r == Done(None) <==> it >= RelocsEnd(dd)
    ensures r.Panic? <==> it < RelocsEnd(dd) && !BlockFits(v.image, it)
    ensures r.Done? && r.value.Some? ==>
              && it < RelocsEnd(dd) && BlockFits(v.image, it)
              && r.value.value.0 == BlockAt(v.image, it)
              && r.value.value.1 == Wrap32(it + r.value.value.0.SizeOfBlock)
  {
    if it >= RelocsEnd(dd) then Done(None)
    else
      var rec :- ReadStruct(v, it, BASE_RELOCATION_SIZE, 1);
      match rec
      case None => Panic
      case Some(_) =>
        var size := U32At(v.image, it + 4);
        if size <= BASE_RELOCATION_SIZE then Panic
        else
          Wrap32InRange(it + BASE_RELOCATION_SIZE);
          var entries :- ReadU16s(v, Wrap32(it + BASE_RELOCATION_SIZE), EntryCount(size), 1);
          match entries
          case None => Panic
          case Some(blocks) =>
            assert blocks == BlockAt(v.image, it).blocks;
            Done(Some((BaseRelocations(U32At(v.image, it), size, blocks), Wrap32(it + size))))
  }

  /** The bytes the blocks `rs` span: the sum of their sizes. */
  function TotalSize(rs: seq<BaseRelocations>): nat
  {
    if |rs| == 0 then 0 else rs[0].SizeOfBlock + TotalSize(rs[1..])
  }

  /** A cursor measure that every successful step decreases. */
  function CursorMeasure(v: PeView, it: u32): nat
  {
    if 0 < it <= |v.image| then |v.image| + 1 - it else 0
  }

  /** The run `rs` lies at `start`: each block starts before `end`, where the one before it ends. */
  predicate LaidOut(image: seq<u8>, start: int, end: int, rs: seq<BaseRelocations>)
    decreases |rs|
  {
    |rs| == 0
    || (&& start < end && BlockFits(image, start) && rs[0] == BlockAt(image, start)
        && LaidOut(image, start + rs[0].SizeOfBlock, end, rs[1..]))
  }

  /** In a run laid out at `start`, block `k` is the block at `start` plus the sizes of the blocks before it. */
  lemma {:induction false} LaidOutIndexed(image: seq<u8>, start: int, end: int, rs: seq<BaseRelocations>, k: nat)
    requires LaidOut(image, start, end, rs) && k < |rs|
    ensures var pos := start + TotalSize(rs[..k]);
            pos < end && BlockFits(image, pos) && rs[k] == BlockAt(image, pos)
    decreases k
  {
    if k == 0 {
      assert rs[..0] == [];
    } else {
      LaidOutIndexed(image, start + rs[0].SizeOfBlock, end, rs[1..], k - 1);
      assert rs[..k][1..] == rs[1..][..k - 1];
    }
  }

  /**
   * Everything the iterator yields from cursor `it`: the blocks laid out one
   * after another from `it`, each starting before the end, together
   * reaching the end.
   */
  function RelocBlocks(v: PeView, dd: DataDir, it: u32): (r: Outcome<seq<BaseRelocations>>)
    requires |v.image| <= 0xFFFF_FFFF
    decreases CursorMeasure(v, it)
    ensures r.Done? ==>
              && it + TotalSize(r.value) >= RelocsEnd(dd)
              && LaidOut(v.image, it, RelocsEnd(dd), r.value)
  {
    match RelocStep(v, dd, it)
    case Panic => Panic
    case Done(None) => Done([])
    case Done(Some(p)) =>
      if p.1 == 0 then
        // the block ends at exactly 2^32 and the next header read hits BADRVA
        assert RelocStep(v, dd, 0).Panic?;
        Panic
      else
        StepAdvances(v, dd, it);
        var rest := RelocBlocks(v, dd, p.1);
        match rest
        case Panic => Panic
        case Done(tail) =>
          assert ([p.0] + tail)[1..] == tail;
          Done([p.0] + tail)
  }

  /**
   * Conversely, blocks laid out one after another from a non-zero cursor
   * whose sizes add up exactly to the end are exactly what the iterator
   * yields from that cursor, in order and with nothing after them.
   */
  lemma {:induction false} RelocBlocksExact(v: PeView, dd: DataDir, it: u32, rs: seq<BaseRelocations>)
    requires |v.image| <= 0xFFFF_FFFF
    requires 0 < it && LaidOut(v.image, it, RelocsEnd(dd), rs) && it + TotalSize(rs) == RelocsEnd(dd)
    ensures RelocBlocks(v, dd, it) == Done(rs)
    decreases |rs|
  {
    if rs == [] {
      assert RelocStep(v, dd, it) == Done(None);
    } else {
      var next := it + rs[0].SizeOfBlock;
      Wrap32InRange(next);
      assert RelocStep(v, dd, it) == Done(Some((rs[0], next)));
      RelocBlocksExact(v, dd, next, rs[1..]);
      assert [rs[0]] + rs[1..] == rs;
    }
  }

  /** Two 8-byte headers at RVA 8 and 22: sizes 14 and 18, three and five entries. */
  function TwoBlocks(): PeView
  {
    PeView([0, 0, 0, 0, 0, 0, 0, 0]
           + [0, 0x10, 0, 0, 14, 0, 0, 0] + [1, 0x30, 2, 0x30, 3, 0x30]
           + [0, 0x20, 0, 0, 18, 0, 0, 0] + [4, 0xA0, 5, 0xA0, 6, 0xA0, 7, 0xA0, 8, 0xA0],
           0, PE32)
  }

  /** A directory of 32 bytes holding blocks of 14 and 18 bytes yields those two blocks and no third. */
  lemma TwoBlocksExact()
    ensures var r := RelocBlocks(TwoBlocks(), DataDir(8, 32), 8);
            && r.Done? && |r.value| == 2
            && r.value[0].VirtualAddress == 0x1000 && r.value[0].SizeOfBlock == 14 && |r.value[0].blocks| == 3
            && r.value[1].VirtualAddress == 0x2000 && r.value[1].SizeOfBlock == 18 && |r.value[1].blocks| == 5
  {
    var img := TwoBlocks().image;
    var dd := DataDir(8, 32);
    assert |img| == 40;
    assert U32At(img, 12) == 14 && U32At(img, 26) == 18;
    assert U32At(img, 8) == 0x1000 && U32At(img, 22) == 0x2000;
    var rs := [BlockAt(img, 8), BlockAt(img, 22)];
    assert RelocsEnd(dd) == 40;
    assert rs[1..] == [BlockAt(img, 22)] && rs[1..][1..] == [];
    assert LaidOut(img, 22, 40, rs[1..]);
    assert LaidOut(img, 8, 40, rs);
    assert TotalSize(rs[1..][1..]) == 0;
    assert TotalSize(rs) == 32;
    RelocBlocksExact(TwoBlocks(), dd, 8, rs);
  }

  /** A step that yields a block and does not wrap to 0 moves the cursor forward by the block's size. */
  lemma StepAdvances(v: PeView, dd: DataDir, it: u32)
    requires |v.image| <= 0xFFFF_FFFF
    requires RelocStep(v, dd, it).Done? && RelocStep(v, dd, it).value.Some?
    requires RelocStep(v, dd, it).value.value.1 != 0
    ensures var p := RelocStep(v, dd, it).value.value;
            && p.1 == it + p.0.SizeOfBlock
            && CursorMeasure(v, p.1) < CursorMeasure(v, it)
  {
    var p := RelocStep(v, dd, it).value.value;
    EntryCountCovers(p.0.SizeOfBlock);
    Wrap32InRange(it + p.0.SizeOfBlock);
  }

  /**
   * rva_of(): the entry's low 12 bits added to the page RVA (wrapping);
   * inside the block's 4 KiB page when that page does not wrap.
   */
  function RvaOf(b: BaseRelocations, entry: u16): (r: u32)
    ensures b.VirtualAddress + 0x1000 <= 0x1_0000_0000 ==> b.VirtualAddress <= r < b.VirtualAddress + 0x1000
    ensures (r - b.VirtualAddress) % 0x1000 == entry % 0x1000
  {
    Wrap32(b.VirtualAddress + entry % 0x1000)
  }

  /** type_of(): the entry's top 4 bits; with the offset they make up the entry. */
  function TypeOf(entry: u16): (r: u8)
    ensures r < 16
    ensures entry == r * 0x1000 + entry % 0x1000
  {
    entry / 0x1000
  }

  class RelocsIterator {
    const view: PeView
    const datadir: DataDir
    var it: u32

    /** iter(): the cursor starts at the directory's RVA. */
    constructor (dir: RelocsDirectory)
      ensures view == dir.view && datadir == dir.datadir && it == dir.datadir.VirtualAddress
    {
      view := dir.view;
      datadir := dir.datadir;
      it := dir.datadir.VirtualAddress;
    }

    method Next() returns (r: Outcome<Option<BaseRelocations>>)
      requires |view.image| <= 0xFFFF_FFFF
      modifies this
      ensures match RelocStep(view, datadir, old(it))
              case Panic => r.Panic?
              case Done(None) => r == Done(None) && it == old(it)
              case Done(Some(p)) => r == Done(Some(p.0)) && it == p.1
    {
      var end := Wrap32(datadir.VirtualAddress + datadir.Size);
      if it >= end {
        return Done(None);
      }
      var rec := ReadStruct(view, it, BASE_RELOCATION_SIZE, 1);
      if rec.Panic? || rec.value.None? {
        return Panic;
      }
      var size := U32At(view.image, it + 4);
      if size <= BASE_RELOCATION_SIZE {
        return Panic;
      }
      var blockLen := (size - BASE_RELOCATION_SIZE) / BASE_RELOC_BLOCK_SIZE;
      var blocks := ReadU16s(view, Wrap32(it + BASE_RELOCATION_SIZE), blockLen, 1);
      if blocks.Panic? || blocks.value.None? {
        return Panic;
      }
      var rel := BaseRelocations(U32At(view.image, it), size, blocks.value.value);
      it := Wrap32(it + size);
      return Done(Some(rel));
    }

    /** A `for` loop over the iterator: every block of the directory. */
    method Collect() returns (r: Outcome<seq<BaseRelocations>>)
      requires |view.image| <= 0xFFFF_FFFF
      modifies this
      ensures r == RelocBlocks(view, datadir, old(it))
    {
      ghost var start := it;
      var acc: seq<BaseRelocations> := [];
      PrependNothing(RelocBlocks(view, datadir, it));
      while true
        invariant RelocBlocks(view, datadir, start) == Prepend(acc, RelocBlocks(view, datadir, it))
        decreases CursorMeasure(view, it)
      {
        ghost var before := it;
        var step := Next();
        match step
        case Panic =>
          assert RelocBlocks(view, datadir, before).Panic?;
          return Panic;
        case Done(None) =>
          assert RelocBlocks(view, datadir, before) == Done([]);
          assert acc + [] == acc;
          return Done(acc);
        case Done(Some(b)) =>
          if it == 0 {
            assert RelocBlocks(view, datadir, before).Panic?;
            return Panic;
          }
          StepAdvances(view, datadir, before);
          PrependStep(acc, b, RelocBlocks(view, datadir, it));
          acc := acc + [b];
      }
    }
  }
}
