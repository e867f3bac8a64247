/**
 * A view of a PE image that is already laid out as it is in memory: RVAs
 * are offsets into `image`. Header location, bounds- and alignment-checked
 * reads, C strings, and translation between RVAs, file offsets and VAs.
 */
module View {
  import opened Bytes
  import opened Image

  /** `image` is the mapped image, `vbase` its preferred base address. */
  datatype PeView = PeView(image: seq<u8>, vbase: nat, width: Width)

  datatype SectionHeader = SectionHeader(
    VirtualSize: u32, VirtualAddress: u32, SizeOfRawData: u32, PointerToRawData: u32)

  datatype DataDir = DataDir(VirtualAddress: u32, Size: u32)

  function ParseSection(s: seq<u8>, off: nat): SectionHeader
    requires off + SECTION_HEADER_SIZE <= |s|
  {
    SectionHeader(U32At(s, off + SEC_VIRTUAL_SIZE), U32At(s, off + SEC_VIRTUAL_ADDRESS),
                  U32At(s, off + SEC_SIZE_OF_RAW_DATA), U32At(s, off + SEC_POINTER_TO_RAW_DATA))
  }

  function ParseDataDir(s: seq<u8>, off: nat): DataDir
    requires off + DATA_DIRECTORY_SIZE <= |s|
  {
    DataDir(U32At(s, off), U32At(s, off + 4))
  }

  //---------------- Header location

  /** The offset of the NT headers, `e_lfanew` of the DOS header at offset 0. */
  function ELfanew(image: seq<u8>): nat
    requires DOS_HEADER_SIZE <= |image|
  {
    U32At(image, DOS_E_LFANEW)
  }

  /**
   * What the header accessors take for granted about the bytes (they read
   * through raw pointers): the DOS header, the NT headers, the section table
   * and the data directory all lie inside the image. The image of a module
   * is `SizeOfImage` bytes long, so its length fits a u32, and the base
   * address fits a Va.
   */
  predicate ValidView(v: PeView)
  {
    && |v.image| <= 0xFFFF_FFFF
    && v.vbase < VaModulus(v.width)
    && DOS_HEADER_SIZE <= |v.image|
    && var nt := ELfanew(v.image);
    && nt + NtHeadersSize(v.width) <= |v.image|
    && nt + NT_OPTIONAL_HEADER
         + U16At(v.image, nt + NT_FILE_HEADER + FILE_SIZE_OF_OPTIONAL_HEADER)
         + SECTION_HEADER_SIZE * U16At(v.image, nt + NT_FILE_HEADER + FILE_NUMBER_OF_SECTIONS)
       <= |v.image|
    && nt + NT_OPTIONAL_HEADER + OptDataDirectory(v.width)
         + DATA_DIRECTORY_SIZE * U32At(v.image, nt + NT_OPTIONAL_HEADER + OptNumberOfRvaAndSizes(v.width))
       <= |v.image|
  }

  /** The headers PeView::module reads through its raw pointer lie inside `mem`. */
  predicate ModuleHeadersIn(mem: seq<u8>, w: Width)
  {
    DOS_HEADER_SIZE <= |mem| && ELfanew(mem) + NtHeadersSize(w) <= |mem|
  }

  function SizeOfImage(mem: seq<u8>, w: Width): u32
    requires ModuleHeadersIn(mem, w)
  {
    U32At(mem, ELfanew(mem) + NT_OPTIONAL_HEADER + OPT_SIZE_OF_IMAGE)
  }

  /** ImageBase is a u32 in PE32 optional headers and a u64 in PE64 ones. */
  function ImageBase(mem: seq<u8>, w: Width): (base: nat)
    requires ModuleHeadersIn(mem, w)
    ensures base < VaModulus(w)
  {
    var off := ELfanew(mem) + NT_OPTIONAL_HEADER + OptImageBase(w);
    match w
    case PE32 => U32At(mem, off)
    case PE64 => U64At(mem, off)
  }

  /**
   * PeView::module: the view covers `SizeOfImage` bytes from the module base
   * and is based at `ImageBase`. Nothing is checked; the caller vouches that
   * the memory is at least that long.
   */
  function Module(mem: seq<u8>, w: Width): (v: PeView)
    requires ModuleHeadersIn(mem, w) && SizeOfImage(mem, w) <= |mem|
    ensures v.width == w && v.vbase < VaModulus(w)
    ensures |v.image| == SizeOfImage(mem, w) && v.image == mem[..|v.image|]
  {
    PeView(mem[..SizeOfImage(mem, w)], ImageBase(mem, w), w)
  }

  /** nt_headers(): the NT headers sit at `e_lfanew`. */
  function NtHeaders(v: PeView): (off: nat)
    requires ValidView(v)
    ensures off + NtHeadersSize(v.width) <= |v.image|
  {
    ELfanew(v.image)
  }

  function FileHeader(v: PeView): (off: nat)
    requires ValidView(v)
  {
    NtHeaders(v) + NT_FILE_HEADER
  }

  function OptionalHeader(v: PeView): (off: nat)
    requires ValidView(v)
    ensures off + OptionalHeaderSize(v.width) <= |v.image|
  {
    NtHeaders(v) + NT_OPTIONAL_HEADER
  }

  function NumberOfSections(v: PeView): u16
    requires ValidView(v)
  {
    U16At(v.image, FileHeader(v) + FILE_NUMBER_OF_SECTIONS)
  }

  function SizeOfOptionalHeader(v: PeView): u16
    requires ValidView(v)
  {
    U16At(v.image, FileHeader(v) + FILE_SIZE_OF_OPTIONAL_HEADER)
  }

  function NumberOfRvaAndSizes(v: PeView): u32
    requires ValidView(v)
  {
    U32At(v.image, OptionalHeader(v) + OptNumberOfRvaAndSizes(v.width))
  }

  /**
   * section_headers(): the table follows the optional header, which is
   * `SizeOfOptionalHeader` bytes long, and holds `NumberOfSections` entries,
   * all inside the image.
   */
  function SectionHeaders(v: PeView): (r: seq<SectionHeader>)
    requires ValidView(v)
    ensures |r| == NumberOfSections(v)
    ensures var table := ELfanew(v.image) + 24 + SizeOfOptionalHeader(v);
            && table + 40 * |r| <= |v.image|
            && forall i :: 0 <= i < |r| ==> r[i] == ParseSection(v.image, table + 40 * i)
  {
    var table := OptionalHeader(v) + SizeOfOptionalHeader(v);
    seq(NumberOfSections(v), i requires 0 <= i < NumberOfSections(v) =>
      ParseSection(v.image, table + SECTION_HEADER_SIZE * i))
  }

  /**
   * data_directory(): `NumberOfRvaAndSizes` entries starting at the
   * DataDirectory field of the optional header, all inside the image.
   */
  function DataDirectory(v: PeView): (r: seq<DataDir>)
    requires ValidView(v)
    ensures |r| == NumberOfRvaAndSizes(v)
    ensures var dir := ELfanew(v.image) + 24 + OptDataDirectory(v.width);
            && dir + 8 * |r| <= |v.image|
            && forall i :: 0 <= i < |r| ==> r[i] == ParseDataDir(v.image, dir + 8 * i)
  {
    var dir := OptionalHeader(v) + OptDataDirectory(v.width);
    seq(NumberOfRvaAndSizes(v), i requires 0 <= i < NumberOfRvaAndSizes(v) =>
      ParseDataDir(v.image, dir + DATA_DIRECTORY_SIZE * i))
  }

  /** `data_directory().get(index)`. */
  function DirectoryEntry(v: PeView, index: nat): (r: Option<DataDir>)
    requires ValidView(v)
    ensures r.None? <==> NumberOfRvaAndSizes(v) <= index
  {
    var dd := DataDirectory(v);
    if index < |dd| then Some(dd[index]) else None
  }

  //---------------- Checked reads

  /**
   * read_struct::<T>(rva) for a record of `size` bytes and alignment `align`:
   * `None` for BADRVA, a panic when the record is out of range or misaligned,
   * otherwise the record's bytes. The source's check `rva <= len - size`
   * would wrap when the image is shorter than the record; that case panics.
   */
  function ReadStruct(v: PeView, rva: u32, size: nat, align: nat): (r: Outcome<Option<seq<u8>>>)
    requires align > 0
    ensures r == Done(None) <==> rva == BADRVA
    ensures r.Panic? <==> rva != BADRVA && (rva + size > |v.image| || rva % align != 0)
    ensures r.Done? && r.value.Some? ==>
              && rva + size <= |v.image|
              && |r.value.value| == size
              && forall k :: 0 <= k < size ==> r.value.value[k] == v.image[rva + k]
  {
    if rva == BADRVA then Done(None)
    else if |v.image| < size || rva > |v.image| - size then Panic
    else if rva % align != 0 then Panic
    else Done(Some(v.image[rva..rva + size]))
  }

  /**
   * read_slice::<T>(rva, len) for elements of `size` bytes: the same rules as
   * ReadStruct for the `size * len` bytes of the array; the result holds
   * exactly `len` elements.
   */
  function ReadSlice(v: PeView, rva: u32, size: nat, len: nat, align: nat): (r: Outcome<Option<seq<u8>>>)
    requires align > 0
    ensures r == Done(None) <==> rva == BADRVA
    ensures r.Panic? <==> rva != BADRVA && (rva + size * len > |v.image| || rva % align != 0)
    ensures r.Done? && r.value.Some? ==>
              && rva + size * len <= |v.image|
              && r.value.value == v.image[rva..rva + size * len]
  {
    var bytes := size * len;
    if rva == BADRVA then Done(None)
    else if |v.image| < bytes || rva > |v.image| - bytes then Panic
    else if rva % align != 0 then Panic
    else Done(Some(v.image[rva..rva + bytes]))
  }

  /** An array of little-endian u32 values. */
  function AsU32s(b: seq<u8>): (r: seq<u32>)
    requires |b| % 4 == 0
    ensures |r| == |b| / 4
    ensures forall i :: 0 <= i < |r| ==> 4 * i + 4 <= |b| && r[i] == U32At(b, 4 * i)
  {
    seq(|b| / 4, i requires 0 <= i < |b| / 4 => U32At(b, 4 * i))
  }

  /** An array of little-endian u16 values. */
  function AsU16s(b: seq<u8>): (r: seq<u16>)
    requires |b| % 2 == 0
    ensures |r| == |b| / 2
    ensures forall i :: 0 <= i < |r| ==> 2 * i + 2 <= |b| && r[i] == U16At(b, 2 * i)
  {
    seq(|b| / 2, i requires 0 <= i < |b| / 2 => U16At(b, 2 * i))
  }

  /** read_slice::<Rva>(rva, len): `len` u32 values, 4-byte aligned. */
  function ReadRvas(v: PeView, rva: u32, len: nat): (r: Outcome<Option<seq<u32>>>)
    ensures r == Done(None) <==> rva == BADRVA
    ensures r.Panic? <==> rva != BADRVA && (rva + 4 * len > |v.image| || rva % 4 != 0)
    ensures r.Done? && r.value.Some? ==>
              && |r.value.value| == len
              && forall i :: 0 <= i < len ==> rva + 4 * i + 4 <= |v.image| && r.value.value[i] == U32At(v.image, rva + 4 * i)
  {
    var b :- ReadSlice(v, rva, 4, len, 4);
    if b.None? then Done(None)
    else
      var r := AsU32s(b.value);
      assert forall i :: 0 <= i < len ==> r[i] == U32At(v.image, rva + 4 * i) by {
        forall i | 0 <= i < len ensures r[i] == U32At(v.image, rva + 4 * i) {
          U32AtShift(v.image[..rva + 4 * len], rva, rva + 4 * i);
          assert v.image[..rva + 4 * len][rva..] == b.value;
          U32AtFrame(v.image[..rva + 4 * len], v.image, rva + 4 * i);
        }
      }
      Done(Some(r))
  }

  /** read_slice::<T>(rva, len) for a 2-byte T: `len` u16 values; `align` is 2 for u16 and 1 for packed records. */
  function ReadU16s(v: PeView, rva: u32, len: nat, align: nat): (r: Outcome<Option<seq<u16>>>)
    requires align > 0
    ensures r == Done(None) <==> rva == BADRVA
    ensures r.Panic? <==> rva != BADRVA && (rva + 2 * len > |v.image| || rva % align != 0)
    ensures r.Done? && r.value.Some? ==>
              && |r.value.value| == len
              && forall i :: 0 <= i < len ==> rva + 2 * i + 2 <= |v.image| && r.value.value[i] == U16At(v.image, rva + 2 * i)
  {
    var b :- ReadSlice(v, rva, 2, len, align);
    if b.None? then Done(None)
    else
      var r := AsU16s(b.value);
      assert forall i :: 0 <= i < len ==> r[i] == U16At(v.image, rva + 2 * i) by {
        forall i | 0 <= i < len ensures r[i] == U16At(v.image, rva + 2 * i) {
          U16AtShift(v.image[..rva + 2 * len], rva, rva + 2 * i);
          assert v.image[..rva + 2 * len][rva..] == b.value;
          U16AtFrame(v.image[..rva + 2 * len], v.image, rva + 2 * i);
        }
      }
      Done(Some(r))
  }

  //---------------- C strings

  /** The index of the first zero byte at or after `i`, if there is one. */
  function NulFrom(s: seq<u8>, i: nat): (r: Option<nat>)
    decreases |s| - i
    ensures r.Some? ==> i <= r.value < |s| && s[r.value] == 0
                        && forall j :: i <= j < r.value ==> s[j] != 0
    ensures r.None? ==> forall j :: i <= j < |s| ==> s[j] != 0
  {
    if i >= |s| then None
    else if s[i] == 0 then Some(i)
    else NulFrom(s, i + 1)
  }

  /**
   * read_str(rva): `None` for BADRVA; otherwise the bytes from `rva` up to
   * and excluding the first zero byte, or a panic when the image ends first.
   */
  function CStrAt(image: seq<u8>, rva: u32): (r: Outcome<Option<seq<u8>>>)
    ensures r == Done(None) <==> rva == BADRVA
    ensures r.Panic? <==> rva != BADRVA && forall j :: rva <= j < |image| ==> image[j] != 0
    ensures r.Done? && r.value.Some? ==>
              var str := r.value.value;
              && rva + |str| < |image|
              && image[rva + |str|] == 0
              && str == image[rva..rva + |str|]
              && forall k :: 0 <= k < |str| ==> str[k] != 0
  {
    if rva == BADRVA then Done(None)
    else match NulFrom(image, rva)
      case None => Panic
      case Some(end) => Done(Some(image[rva..end]))
  }

  /** The scan of read_str: look for the terminating zero byte, index by index. */
  method ReadStr(v: PeView, rva: u32) returns (r: Outcome<Option<seq<u8>>>)
    ensures r == CStrAt(v.image, rva)
  {
    if rva == BADRVA {
      return Done(None);
    }
    var i := 0;
    while rva + i < |v.image| && v.image[rva + i] != 0
      invariant i <= |v.image|
      invariant i == 0 || rva + i <= |v.image|
      invariant forall j :: rva <= j < rva + i ==> v.image[j] != 0
      decreases |v.image| - i
    {
      i := i + 1;
    }
    if rva + i >= |v.image| {
      return Panic;
    }
    r := Done(Some(v.image[rva..rva + i]));
  }

  //---------------- Address translation

  /**
   * The section's raw data, placed at its virtual address, covers `rva`.
   * The end `VirtualAddress + SizeOfRawData` is a wrapping u32 sum; a section
   * whose end wraps covers nothing (see CoversRvaWrapping), so the test is
   * stated here on unbounded integers.
   */
  predicate CoversRva(s: SectionHeader, rva: int)
  {
    s.VirtualAddress <= rva < s.VirtualAddress + s.SizeOfRawData < 0x1_0000_0000
  }

  /** CoversRva is exactly the source's test `VirtualAddress <= rva < end` with a wrapping `end`. */
  lemma CoversRvaWrapping(s: SectionHeader, rva: u32)
    ensures CoversRva(s, rva) <==> s.VirtualAddress <= rva < Wrap32(s.VirtualAddress + s.SizeOfRawData)
  {
    var sum := s.VirtualAddress + s.SizeOfRawData;
    if sum >= 0x1_0000_0000 {
      assert Wrap32(sum) == sum - 0x1_0000_0000;
    }
  }

  /** The section's raw data in the file covers `off` (usize end, no wrap). */
  predicate CoversOffset(s: SectionHeader, off: int)
  {
    s.PointerToRawData <= off < s.PointerToRawData + s.SizeOfRawData
  }

  /** The file offset of `rva` within section `s`: `rva - VirtualAddress + PointerToRawData`, u32 wrapping. */
  function OffsetInSection(s: SectionHeader, rva: u32): u32
  {
    Wrap32(rva - s.VirtualAddress + s.PointerToRawData)
  }

  /** The RVA of file offset `off` within section `s`: `off - PointerToRawData + VirtualAddress`, u32 wrapping. */
  function RvaInSection(s: SectionHeader, off: nat): u32
  {
    Wrap32(off - s.PointerToRawData + s.VirtualAddress)
  }

  /** The first section at or after index `i` that covers `rva`. */
  function FirstCoveringRva(secs: seq<SectionHeader>, rva: u32, i: nat): (r: Option<nat>)
    decreases |secs| - i
    ensures r.Some? ==> i <= r.value < |secs| && CoversRva(secs[r.value], rva)
                        && forall j :: i <= j < r.value ==> !CoversRva(secs[j], rva)
    ensures r.None? ==> forall j :: i <= j < |secs| ==> !CoversRva(secs[j], rva)
  {
    if i >= |secs| then None
    else if CoversRva(secs[i], rva) then Some(i)
    else FirstCoveringRva(secs, rva, i + 1)
  }

  /** The first section at or after index `i` that covers file offset `off`. */
  function FirstCoveringOffset(secs: seq<SectionHeader>, off: nat, i: nat): (r: Option<nat>)
    decreases |secs| - i
    ensures r.Some? ==> i <= r.value < |secs| && CoversOffset(secs[r.value], off)
                        && forall j :: i <= j < r.value ==> !CoversOffset(secs[j], off)
    ensures r.None? ==> forall j :: i <= j < |secs| ==> !CoversOffset(secs[j], off)
  {
    if i >= |secs| then None
    else if CoversOffset(secs[i], off) then Some(i)
    else FirstCoveringOffset(secs, off, i + 1)
  }

  /**
   * rva_to_file_offset over a section table: the first section in table
   * order whose raw data covers `rva` translates it; `None` when none does.
   */
  function RvaToFileOffsetIn(secs: seq<SectionHeader>, rva: u32): (r: Option<nat>)
    ensures r.None? <==> forall j :: 0 <= j < |secs| ==> !CoversRva(secs[j], rva)
    ensures forall k :: 0 <= k < |secs| && CoversRva(secs[k], rva)
                        && (forall j :: 0 <= j < k ==> !CoversRva(secs[j], rva))
                        ==> r == Some(OffsetInSection(secs[k], rva))
  {
    match FirstCoveringRva(secs, rva, 0)
    case None => None
    case Some(k) => Some(OffsetInSection(secs[k], rva))
  }

  /**
   * file_offset_to_rva over a section table: the first section whose raw data
   * covers `off` translates it; BADRVA when none does.
   */
  function FileOffsetToRvaIn(secs: seq<SectionHeader>, off: nat): (r: u32)
    ensures (forall j :: 0 <= j < |secs| ==> !CoversOffset(secs[j], off)) ==> r == BADRVA
    ensures forall k :: 0 <= k < |secs| && CoversOffset(secs[k], off)
                        && (forall j :: 0 <= j < k ==> !CoversOffset(secs[j], off))
                        ==> r == RvaInSection(secs[k], off)
  {
    match FirstCoveringOffset(secs, off, 0)
    case None => BADRVA
    case Some(k) => RvaInSection(secs[k], off)
  }

  method RvaToFileOffset(v: PeView, rva: u32) returns (r: Option<nat>)
    requires ValidView(v)
    ensures r == RvaToFileOffsetIn(SectionHeaders(v), rva)
  {
    var secs := SectionHeaders(v);
    var i := 0;
    while i < |secs|
      invariant i <= |secs|
      invariant FirstCoveringRva(secs, rva, i) == FirstCoveringRva(secs, rva, 0)
    {
      var it := secs[i];
      if CoversRva(it, rva) {
        assert FirstCoveringRva(secs, rva, i) == Some(i);
        return Some(OffsetInSection(it, rva));
      }
      assert FirstCoveringRva(secs, rva, i) == FirstCoveringRva(secs, rva, i + 1);
      i := i + 1;
    }
    return None;
  }

  method FileOffsetToRva(v: PeView, off: nat) returns (r: u32)
    requires ValidView(v)
    ensures r == FileOffsetToRvaIn(SectionHeaders(v), off)
  {
    var secs := SectionHeaders(v);
    var i := 0;
    while i < |secs|
      invariant i <= |secs|
      invariant FirstCoveringOffset(secs, off, i) == FirstCoveringOffset(secs, off, 0)
    {
      var it := secs[i];
      if CoversOffset(it, off) {
        return RvaInSection(it, off);
      }
      i := i + 1;
    }
    return BADRVA;
  }

  /** No section's end wraps around 2^32, neither in memory nor in the file. */
  predicate NoWrap(secs: seq<SectionHeader>)
  {
    forall i :: 0 <= i < |secs| ==>
      secs[i].VirtualAddress + secs[i].SizeOfRawData < 0x1_0000_0000
      && secs[i].PointerToRawData + secs[i].SizeOfRawData < 0x1_0000_0000
  }

  /** No file offset is covered by the raw data of two different sections. */
  predicate RawDisjoint(secs: seq<SectionHeader>)
  {
    forall i, j :: 0 <= i < j < |secs| ==>
      secs[i].PointerToRawData + secs[i].SizeOfRawData <= secs[j].PointerToRawData
      || secs[j].PointerToRawData + secs[j].SizeOfRawData <= secs[i].PointerToRawData
  }

  /** No RVA is covered by two different sections. */
  predicate VirtualDisjoint(secs: seq<SectionHeader>)
  {
    forall i, j :: 0 <= i < j < |secs| ==>
      secs[i].VirtualAddress + secs[i].SizeOfRawData <= secs[j].VirtualAddress
      || secs[j].VirtualAddress + secs[j].SizeOfRawData <= secs[i].VirtualAddress
  }

  /** Within one section whose ends do not wrap, the two translations are inverse. */
  lemma SectionOffsetRoundTrip(s: SectionHeader, off: nat)
    requires CoversOffset(s, off)
    requires s.VirtualAddress + s.SizeOfRawData < 0x1_0000_0000
    requires s.PointerToRawData + s.SizeOfRawData < 0x1_0000_0000
    ensures CoversRva(s, RvaInSection(s, off)) && OffsetInSection(s, RvaInSection(s, off)) == off
  {
    Wrap32InRange(off - s.PointerToRawData + s.VirtualAddress);
    Wrap32InRange(off);
  }

  lemma SectionRvaRoundTrip(s: SectionHeader, rva: u32)
    requires CoversRva(s, rva)
    requires s.PointerToRawData + s.SizeOfRawData < 0x1_0000_0000
    ensures CoversOffset(s, OffsetInSection(s, rva)) && RvaInSection(s, OffsetInSection(s, rva)) == rva
  {
    Wrap32InRange(rva - s.VirtualAddress + s.PointerToRawData);
  }

  /** file_offset_to_rva undoes rva_to_file_offset when raw ranges do not overlap. */
  lemma FileOffsetToRvaInverts(secs: seq<SectionHeader>, rva: u32)
    requires NoWrap(secs) && RawDisjoint(secs)
    requires RvaToFileOffsetIn(secs, rva).Some?
    ensures FileOffsetToRvaIn(secs, RvaToFileOffsetIn(secs, rva).value) == rva
  {
    var k := FirstCoveringRva(secs, rva, 0).value;
    var off := OffsetInSection(secs[k], rva);
    assert RvaToFileOffsetIn(secs, rva) == Some(off);
    SectionRvaRoundTrip(secs[k], rva);
    forall j | 0 <= j < k ensures !CoversOffset(secs[j], off) {
      DisjointRaw(secs, j, k);
    }
    assert FirstCoveringOffset(secs, off, 0) == Some(k);
  }

  /** Two different sections of a RawDisjoint table never cover the same offset. */
  lemma DisjointRaw(secs: seq<SectionHeader>, j: nat, k: nat)
    requires RawDisjoint(secs) && j < k < |secs|
    ensures forall off :: !(CoversOffset(secs[j], off) && CoversOffset(secs[k], off))
  {
  }

  /** Two different sections of a VirtualDisjoint table never cover the same RVA. */
  lemma DisjointVirtual(secs: seq<SectionHeader>, j: nat, k: nat)
    requires VirtualDisjoint(secs) && j < k < |secs|
    ensures forall rva :: !(CoversRva(secs[j], rva) && CoversRva(secs[k], rva))
  {
  }

  /** rva_to_file_offset undoes file_offset_to_rva when section ranges do not overlap. */
  lemma RvaToFileOffsetInverts(secs: seq<SectionHeader>, off: nat, i: nat)
    requires NoWrap(secs) && VirtualDisjoint(secs)
    requires i < |secs| && CoversOffset(secs[i], off)
    ensures RvaToFileOffsetIn(secs, FileOffsetToRvaIn(secs, off)) == Some(off)
  {
    var k := FirstCoveringOffset(secs, off, 0).value;
    var rva := RvaInSection(secs[k], off);
    assert FileOffsetToRvaIn(secs, off) == rva;
    SectionOffsetRoundTrip(secs[k], off);
    forall j | 0 <= j < k ensures !CoversRva(secs[j], rva) {
      DisjointVirtual(secs, j, k);
    }
    assert FirstCoveringRva(secs, rva, 0) == Some(k);
  }

  /** rva_to_va: BADRVA stays BADVA; otherwise the base plus the RVA, wrapping at the Va width. */
  function RvaToVa(v: PeView, rva: u32): (va: nat)
    ensures va < VaModulus(v.width)
    ensures rva == BADRVA ==> va == 0
  {
    if rva != BADRVA then (v.vbase + rva) % VaModulus(v.width) else 0
  }

  /** va_to_rva: BADVA stays BADRVA; otherwise the VA minus the base, wrapping, truncated to u32. */
  function VaToRva(v: PeView, va: nat): (rva: u32)
    requires va < VaModulus(v.width)
    ensures va == 0 ==> rva == BADRVA
  {
    if va != 0 then Wrap32((va - v.vbase) % VaModulus(v.width)) else BADRVA
  }

  /**
   * va_to_rva inverts rva_to_va except where the VA wraps to exactly BADVA;
   * in particular whenever `vbase + rva` does not overflow.
   */
  lemma VaRoundTrip(v: PeView, rva: u32)
    requires v.vbase < VaModulus(v.width)
    requires rva == BADRVA || RvaToVa(v, rva) != 0
    ensures VaToRva(v, RvaToVa(v, rva)) == rva
  {
    if rva != BADRVA {
      var m := VaModulus(v.width);
      var va := RvaToVa(v, rva);
      if v.vbase + rva < m {
        assert va == v.vbase + rva;
        assert (va - v.vbase) % m == rva;
      } else {
        assert va == v.vbase + rva - m;
        assert (va - v.vbase) % m == rva;
      }
    }
  }

  /** Without overflow of `vbase + rva`, the round trip through a VA always returns the RVA. */
  lemma VaRoundTripNoOverflow(v: PeView, rva: u32)
    requires v.vbase + rva < VaModulus(v.width)
    ensures VaToRva(v, RvaToVa(v, rva)) == rva
  {
    if rva != BADRVA {
      assert RvaToVa(v, rva) == v.vbase + rva;
      VaRoundTrip(v, rva);
    }
  }
}
