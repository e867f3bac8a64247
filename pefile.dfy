/**
 * PeFile::open for PE32 files: read and check the headers, allocate the
 * whole image, copy the headers to its start and every section's raw data
 * to the section's virtual address. The file is given as its bytes; a read
 * past its end is an I/O error.
 */
module PeFile32 {
  import opened Bytes
  import opened Image
  import opened View

  datatype PeError = Io | BadMagic | Insanity

  datatype Result<T> = Ok(value: T) | Err(error: PeError)

  /** The owned, mapped image. */
  datatype PeFile = PeFile(buf: seq<u8>)

  // Sanity limits of open()
  const E_LFANEW_MAX: nat := 0x200
  const SIZE_OF_HEADERS_MAX: nat := 0x1000
  const SECTIONS_MAX: nat := 100

  /** What the header checks hand on: header bytes, image bytes, where the section table starts and its length. */
  datatype Layout = Layout(hdrBytes: nat, imgBytes: nat, secBegin: nat, secNum: nat)

  /** The number of bytes open() reads before looking at the NT headers. */
  function NtBytes(file: seq<u8>): nat
    requires DOS_HEADER_SIZE <= |file|
  {
    ELfanew(file) + NtHeadersSize(PE32)
  }

  /**
   * What a layout that passed the header checks says about the file: the
   * section table lies between the NT headers and `SizeOfHeaders`, which the
   * file holds at least up to the NT headers, and the fields are the file's.
   */
  predicate HeadersChecked(file: seq<u8>, l: Layout)
  {
    && DOS_HEADER_SIZE <= |file| && NtBytes(file) <= |file|
    && NtBytes(file) <= l.secBegin
    && l.secBegin + SECTION_HEADER_SIZE * l.secNum <= l.hdrBytes <= SIZE_OF_HEADERS_MAX
    && l.secNum <= SECTIONS_MAX && l.imgBytes < 0x1_0000_0000
    && l.hdrBytes == U32At(file, ELfanew(file) + NT_OPTIONAL_HEADER + OPT_SIZE_OF_HEADERS)
    && l.imgBytes == U32At(file, ELfanew(file) + NT_OPTIONAL_HEADER + OPT_SIZE_OF_IMAGE)
    && U32At(file, ELfanew(file) + NT_OPTIONAL_HEADER + OptNumberOfRvaAndSizes(PE32)) <= NUMBEROF_DIRECTORY_ENTRIES
    && l.secNum == U16At(file, ELfanew(file) + NT_FILE_HEADER + FILE_NUMBER_OF_SECTIONS)
    && l.secBegin == ELfanew(file) + NT_OPTIONAL_HEADER
                     + U16At(file, ELfanew(file) + NT_FILE_HEADER + FILE_SIZE_OF_OPTIONAL_HEADER)
  }

  /** The header checks of open(), in the order the source makes them. */
  function CheckHeaders(file: seq<u8>): (r: Outcome<Result<Layout>>)
    ensures r.Done?
    ensures r.value.Ok? ==> HeadersChecked(file, r.value.value)
  {
    if |file| < DOS_HEADER_SIZE then Done(Err(Io))
    else if U16At(file, DOS_E_MAGIC) != DOS_HEADER_MAGIC then Done(Err(BadMagic))
    else
      var e := ELfanew(file);
      if e == 0 || e > E_LFANEW_MAX then Done(Err(Insanity))
      else if |file| < e + NtHeadersSize(PE32) then Done(Err(Io))
      else if U32At(file, e + NT_SIGNATURE) != NT_HEADERS_SIGNATURE
              || U16At(file, e + NT_OPTIONAL_HEADER + OPT_MAGIC) != OPTIONAL_HDR32_MAGIC then Done(Err(BadMagic))
      else
        var opt := e + NT_OPTIONAL_HEADER;
        var hdr := U32At(file, opt + OPT_SIZE_OF_HEADERS);
        var soh := U16At(file, e + NT_FILE_HEADER + FILE_SIZE_OF_OPTIONAL_HEADER);
        var num := U16At(file, e + NT_FILE_HEADER + FILE_NUMBER_OF_SECTIONS);
        if hdr > SIZE_OF_HEADERS_MAX
           || U32At(file, opt + OptNumberOfRvaAndSizes(PE32)) > NUMBEROF_DIRECTORY_ENTRIES
           || soh < OptionalHeaderSize(PE32)
           || num > SECTIONS_MAX then Done(Err(Insanity))
        else if opt + soh + SECTION_HEADER_SIZE * num > hdr then Done(Err(Insanity))
        else Done(Ok(Layout(hdr, U32At(file, opt + OPT_SIZE_OF_IMAGE), opt + soh, num)))
  }

  // The verdicts of open()'s header checks, one stage at a time.

  /** The DOS header carries the `MZ` magic. */
  predicate DosMagicOk(file: seq<u8>)
    requires DOS_HEADER_SIZE <= |file|
  {
    U16At(file, DOS_E_MAGIC) == DOS_HEADER_MAGIC
  }

  /** `e_lfanew` is neither zero nor past the arbitrary 0x200 limit. */
  predicate LfanewSane(file: seq<u8>)
    requires DOS_HEADER_SIZE <= |file|
  {
    0 < ELfanew(file) <= E_LFANEW_MAX
  }

  /** The NT headers carry the `PE\0\0` signature and the PE32 optional header magic. */
  predicate NtMagicOk(file: seq<u8>)
    requires DOS_HEADER_SIZE <= |file| && NtBytes(file) <= |file|
  {
    && U32At(file, ELfanew(file) + NT_SIGNATURE) == NT_HEADERS_SIGNATURE
    && U16At(file, ELfanew(file) + NT_OPTIONAL_HEADER + OPT_MAGIC) == OPTIONAL_HDR32_MAGIC
  }

  /**
   * The sanity limits on the NT headers: `SizeOfHeaders`, the number of data
   * directories, the optional header size, the number of sections, and the
   * section table ending within `SizeOfHeaders`.
   */
  predicate LimitsSane(file: seq<u8>)
    requires DOS_HEADER_SIZE <= |file| && NtBytes(file) <= |file|
  {
    var e := ELfanew(file);
    var hdr := U32At(file, e + NT_OPTIONAL_HEADER + OPT_SIZE_OF_HEADERS);
    var soh := U16At(file, e + NT_FILE_HEADER + FILE_SIZE_OF_OPTIONAL_HEADER);
    var num := U16At(file, e + NT_FILE_HEADER + FILE_NUMBER_OF_SECTIONS);
    && hdr <= SIZE_OF_HEADERS_MAX
    && U32At(file, e + NT_OPTIONAL_HEADER + OptNumberOfRvaAndSizes(PE32)) <= NUMBEROF_DIRECTORY_ENTRIES
    && OptionalHeaderSize(PE32) <= soh
    && num <= SECTIONS_MAX
    && e + NT_OPTIONAL_HEADER + soh + SECTION_HEADER_SIZE * num <= hdr
  }

  /**
   * Which error open() reports for a file's headers: Io for a file too short
   * for the header it reads next, BadMagic for a wrong magic number, Insanity
   * for a failed sanity check, each only when the checks before it passed;
   * and the headers are accepted exactly when every check passes.
   */
  lemma CheckHeadersVerdicts(file: seq<u8>)
    ensures CheckHeaders(file) == Done(Err(Io)) <==>
              || |file| < DOS_HEADER_SIZE
              || (DosMagicOk(file) && LfanewSane(file) && |file| < NtBytes(file))
    ensures CheckHeaders(file) == Done(Err(BadMagic)) <==>
              && DOS_HEADER_SIZE <= |file|
              && (|| !DosMagicOk(file)
                  || (LfanewSane(file) && NtBytes(file) <= |file| && !NtMagicOk(file)))
    ensures CheckHeaders(file) == Done(Err(Insanity)) <==>
              && DOS_HEADER_SIZE <= |file| && DosMagicOk(file)
              && (|| !LfanewSane(file)
                  || (NtBytes(file) <= |file| && NtMagicOk(file) && !LimitsSane(file)))
    ensures CheckHeaders(file).value.Ok? <==>
              && DOS_HEADER_SIZE <= |file| && DosMagicOk(file) && LfanewSane(file)
              && NtBytes(file) <= |file| && NtMagicOk(file) && LimitsSane(file)
  {
  }

  /** `num` section headers read from `b` at `begin`. */
  function SectionTable(b: seq<u8>, begin: nat, num: nat): (r: seq<SectionHeader>)
    requires begin + SECTION_HEADER_SIZE * num <= |b|
    ensures |r| == num
    ensures forall i :: 0 <= i < num ==> r[i] == ParseSection(b, begin + SECTION_HEADER_SIZE * i)
  {
    seq(num, i requires 0 <= i < num => ParseSection(b, begin + SECTION_HEADER_SIZE * i))
  }

  function Zeros(n: nat): (r: seq<u8>)
    ensures |r| == n && forall i :: 0 <= i < n ==> r[i] == 0
  {
    seq(n, _ => 0)
  }

  /** Section `s` writes its raw data over byte `p` of the image. */
  predicate Writes(s: SectionHeader, p: int)
  {
    s.PointerToRawData != 0 && s.VirtualAddress <= p < s.VirtualAddress + s.SizeOfRawData
  }

  /** The read of one section's raw data into the image at its virtual address. */
  function MapSection(buf: seq<u8>, s: SectionHeader, file: seq<u8>): (r: seq<u8>)
    requires s.VirtualAddress + s.SizeOfRawData <= |buf|
    requires s.PointerToRawData + s.SizeOfRawData <= |file|
    ensures |r| == |buf|
    ensures forall p :: 0 <= p < |buf| ==>
              r[p] == if s.VirtualAddress <= p < s.VirtualAddress + s.SizeOfRawData
                      then file[s.PointerToRawData + p - s.VirtualAddress] else buf[p]
  {
    var va, len := s.VirtualAddress, s.SizeOfRawData;
    buf[..va] + file[s.PointerToRawData..s.PointerToRawData + len] + buf[va + len..]
  }

  /**
   * map_sections over the section table `secs`: a section below `minRva` or
   * with no virtual size is insane; one with raw data must fit the image
   * (else the slice index panics) and the file (else the read fails).
   */
  function MapAll(buf: seq<u8>, secs: seq<SectionHeader>, minRva: nat, file: seq<u8>): (r: Outcome<Result<seq<u8>>>)
    decreases |secs|
    ensures r.Done? && r.value.Ok? ==> |r.value.value| == |buf|
  {
    if secs == [] then Done(Ok(buf))
    else
      var s := secs[0];
      if s.VirtualAddress < minRva || s.VirtualSize == 0 then Done(Err(Insanity))
      else if s.PointerToRawData == 0 then MapAll(buf, secs[1..], minRva, file)
      else if s.VirtualAddress + s.SizeOfRawData > |buf| then Panic
      else if s.SizeOfRawData == 0 then MapAll(buf, secs[1..], minRva, file)
      else if s.PointerToRawData + s.SizeOfRawData > |file| then Done(Err(Io))
      else MapAll(MapSection(buf, s, file), secs[1..], minRva, file)
  }

  /**
   * Section `s` passes map_sections on an image of `size` bytes: it is sane
   * (at or above `minRva`, non-zero virtual size), and raw data it has fits
   * both the image and the file.
   */
  predicate SectionMaps(s: SectionHeader, size: nat, minRva: nat, file: seq<u8>)
  {
    && minRva <= s.VirtualAddress && s.VirtualSize != 0
    && (s.PointerToRawData == 0 || s.VirtualAddress + s.SizeOfRawData <= size)
    && (s.PointerToRawData == 0 || s.SizeOfRawData == 0 || s.PointerToRawData + s.SizeOfRawData <= |file|)
  }

  /** The index of the first section of `secs` that does not pass, or `|secs|` when all do. */
  function FirstFailing(secs: seq<SectionHeader>, size: nat, minRva: nat, file: seq<u8>): (k: nat)
    ensures k <= |secs|
    ensures forall j :: 0 <= j < k ==> SectionMaps(secs[j], size, minRva, file)
    ensures k < |secs| ==> !SectionMaps(secs[k], size, minRva, file)
  {
    if secs == [] then 0
    else if !SectionMaps(secs[0], size, minRva, file) then 0
    else 1 + FirstFailing(secs[1..], size, minRva, file)
  }

  /**
   * map_sections succeeds exactly when every section passes; otherwise the
   * first section that does not decides the failure: Insanity when it is
   * below `minRva` or has no virtual size, a panic when its raw data runs
   * past the image, and Io when it runs past the file.
   */
  lemma {:induction false} MapAllVerdict(buf: seq<u8>, secs: seq<SectionHeader>, minRva: nat, file: seq<u8>)
    ensures var k := FirstFailing(secs, |buf|, minRva, file);
            && (MapAll(buf, secs, minRva, file).Done? && MapAll(buf, secs, minRva, file).value.Ok? <==> k == |secs|)
            && (MapAll(buf, secs, minRva, file) == Done(Err(Insanity)) <==>
                  k < |secs| && (secs[k].VirtualAddress < minRva || secs[k].VirtualSize == 0))
            && (MapAll(buf, secs, minRva, file).Panic? <==>
                  && k < |secs| && minRva <= secs[k].VirtualAddress && secs[k].VirtualSize != 0
                  && secs[k].PointerToRawData != 0 && secs[k].VirtualAddress + secs[k].SizeOfRawData > |buf|)
            && (MapAll(buf, secs, minRva, file) == Done(Err(Io)) <==>
                  && k < |secs| && minRva <= secs[k].VirtualAddress && secs[k].VirtualSize != 0
                  && secs[k].PointerToRawData != 0 && secs[k].VirtualAddress + secs[k].SizeOfRawData <= |buf|
                  && secs[k].SizeOfRawData != 0 && secs[k].PointerToRawData + secs[k].SizeOfRawData > |file|)
    decreases |secs|
  {
    if secs != [] {
      var s := secs[0];
      if SectionMaps(s, |buf|, minRva, file) {
        var next := if s.PointerToRawData == 0 || s.SizeOfRawData == 0 then buf else MapSection(buf, s, file);
        assert MapAll(buf, secs, minRva, file) == MapAll(next, secs[1..], minRva, file);
        MapAllVerdict(next, secs[1..], minRva, file);
        assert FirstFailing(secs, |buf|, minRva, file) == 1 + FirstFailing(secs[1..], |next|, minRva, file);
      }
    }
  }

  /**
   * PeFile::open: check the headers, allocate `SizeOfImage` zero bytes,
   * copy the first `SizeOfHeaders` bytes of the file and map the sections.
   */
  function Load(file: seq<u8>): (r: Outcome<Result<PeFile>>)
  {
    match CheckHeaders(file)
    case Done(Err(e)) => Done(Err(e))
    case Done(Ok(l)) => LoadLayout(file, l)
  }

  /** The part of open() after the header checks, for the layout `l` they produced. */
  function LoadLayout(file: seq<u8>, l: Layout): Outcome<Result<PeFile>>
    requires CheckHeaders(file) == Done(Ok(l))
  {
    if l.hdrBytes > l.imgBytes then Panic
    else if |file| < l.hdrBytes then Done(Err(Io))
    else
      var secs := SectionTable(file[..l.hdrBytes], l.secBegin, l.secNum);
      Owned(MapAll(file[..l.hdrBytes] + Zeros(l.imgBytes - l.hdrBytes), secs, l.hdrBytes, file))
  }

  /** The mapped bytes become the owned buffer of the PeFile; errors and panics pass through. */
  function Owned(o: Outcome<Result<seq<u8>>>): Outcome<Result<PeFile>>
  {
    match o
    case Panic => Panic
    case Done(Err(e)) => Done(Err(e))
    case Done(Ok(buf)) => Done(Ok(PeFile(buf)))
  }

  /**
   * open() reports BadMagic exactly when the header checks do (mapping the
   * sections never does), and a file it loads has the DOS and NT magic
   * numbers and a sane `e_lfanew`.
   */
  lemma LoadMagic(file: seq<u8>)
    ensures Load(file) == Done(Err(BadMagic)) <==>
              && DOS_HEADER_SIZE <= |file|
              && (|| !DosMagicOk(file)
                  || (LfanewSane(file) && NtBytes(file) <= |file| && !NtMagicOk(file)))
    ensures Load(file).Done? && Load(file).value.Ok? ==>
              && DOS_HEADER_SIZE <= |file| && DosMagicOk(file) && LfanewSane(file)
              && NtBytes(file) <= |file| && NtMagicOk(file)
  {
    CheckHeadersVerdicts(file);
    match CheckHeaders(file)
    case Done(Err(e)) =>
    case Done(Ok(l)) =>
      if l.hdrBytes <= l.imgBytes && l.hdrBytes <= |file| {
        var buf := file[..l.hdrBytes] + Zeros(l.imgBytes - l.hdrBytes);
        var secs := SectionTable(file[..l.hdrBytes], l.secBegin, l.secNum);
        MapAllVerdict(buf, secs, l.hdrBytes, file);
        assert MapAll(buf, secs, l.hdrBytes, file) != Done(Err(BadMagic));
      }
  }

  //---------------- The loader

  method MapSections(file: seq<u8>, buf: array<u8>, minRva: nat, secBegin: nat, secNum: nat)
      returns (r: Outcome<Result<()>>)
    requires secBegin + SECTION_HEADER_SIZE * secNum <= minRva <= buf.Length
    modifies buf
    ensures buf[..minRva] == old(buf[..minRva])
    ensures match MapAll(old(buf[..]), SectionTable(old(buf[..minRva]), secBegin, secNum), minRva, file)
            case Panic => r.Panic?
            case Done(Err(e)) => r == Done(Err(e))
            case Done(Ok(out)) => r == Done(Ok(())) && buf[..] == out
  {
    ghost var secs := SectionTable(buf[..minRva], secBegin, secNum);
    ghost var target := MapAll(buf[..], secs, minRva, file);
    var i := 0;
    while i < secNum
      invariant i <= secNum
      invariant buf[..minRva] == old(buf[..minRva])
      invariant MapAll(buf[..], secs[i..], minRva, file) == target
    {
      // The header is read from the image being written; the writes all lie above `minRva`.
      var it := ParseSection(buf[..minRva], secBegin + SECTION_HEADER_SIZE * i);
      assert secs[i..][0] == it && secs[i..][1..] == secs[i + 1..];
      if it.VirtualAddress < minRva || it.VirtualSize == 0 {
        return Done(Err(Insanity));
      }
      if it.PointerToRawData != 0 {
        if it.VirtualAddress + it.SizeOfRawData > buf.Length {
          return Panic;
        }
        if it.SizeOfRawData > 0 && it.PointerToRawData + it.SizeOfRawData > |file| {
          return Done(Err(Io));
        }
        ghost var before := buf[..];
        forall j | 0 <= j < it.SizeOfRawData {
          buf[it.VirtualAddress + j] := file[it.PointerToRawData + j];
        }
        CopiedSection(before, buf[..], it, file, minRva);
      }
      i := i + 1;
    }
    assert secs[i..] == [];
    return Done(Ok(()));
  }

  /** The bytes a read of section `s` leaves behind are MapSection's, and the headers are untouched. */
  lemma CopiedSection(before: seq<u8>, after: seq<u8>, s: SectionHeader, file: seq<u8>, minRva: nat)
    requires |after| == |before| && minRva <= s.VirtualAddress
    requires s.VirtualAddress + s.SizeOfRawData <= |before| && minRva <= |before|
    requires s.SizeOfRawData > 0 ==> s.PointerToRawData + s.SizeOfRawData <= |file|
    requires forall p :: 0 <= p < |after| ==>
               after[p] == if s.VirtualAddress <= p < s.VirtualAddress + s.SizeOfRawData
                           then file[s.PointerToRawData + p - s.VirtualAddress] else before[p]
    ensures after[..minRva] == before[..minRva]
    ensures s.SizeOfRawData > 0 ==> after == MapSection(before, s, file)
    ensures s.SizeOfRawData == 0 ==> after == before
  {
    assert forall p :: 0 <= p < minRva ==> after[p] == before[p];
    assert after[..minRva] == before[..minRva];
  }

  /**
   * The header part of open(): read the DOS header, then everything up to
   * and including the NT headers, and check them.
   */
  method ReadHeaders(file: seq<u8>) returns (r: Outcome<Result<Layout>>)
    ensures r == CheckHeaders(file)
  {
    if |file| < DOS_HEADER_SIZE {
      return Done(Err(Io));
    }
    if U16At(file, DOS_E_MAGIC) != DOS_HEADER_MAGIC {
      return Done(Err(BadMagic));
    }
    var e := ELfanew(file);
    if e == 0 || e > E_LFANEW_MAX {
      return Done(Err(Insanity));
    }
    var ntBytes := e + NtHeadersSize(PE32);
    if |file| < ntBytes {
      return Done(Err(Io));
    }
    // The buffer read so far: the file up to the end of the NT headers
    var head := file[..ntBytes];
    var opt := e + NT_OPTIONAL_HEADER;
    U32AtPrefix(head, file, ntBytes, e + NT_SIGNATURE);
    U16AtPrefix(head, file, ntBytes, opt + OPT_MAGIC);
    if U32At(head, e + NT_SIGNATURE) != NT_HEADERS_SIGNATURE
       || U16At(head, opt + OPT_MAGIC) != OPTIONAL_HDR32_MAGIC {
      return Done(Err(BadMagic));
    }
    U32AtPrefix(head, file, ntBytes, opt + OPT_SIZE_OF_HEADERS);
    U32AtPrefix(head, file, ntBytes, opt + OPT_SIZE_OF_IMAGE);
    U32AtPrefix(head, file, ntBytes, opt + OptNumberOfRvaAndSizes(PE32));
    U16AtPrefix(head, file, ntBytes, e + NT_FILE_HEADER + FILE_SIZE_OF_OPTIONAL_HEADER);
    U16AtPrefix(head, file, ntBytes, e + NT_FILE_HEADER + FILE_NUMBER_OF_SECTIONS);
    var hdr := U32At(head, opt + OPT_SIZE_OF_HEADERS);
    var soh := U16At(head, e + NT_FILE_HEADER + FILE_SIZE_OF_OPTIONAL_HEADER);
    var num := U16At(head, e + NT_FILE_HEADER + FILE_NUMBER_OF_SECTIONS);
    if hdr > SIZE_OF_HEADERS_MAX
       || U32At(head, opt + OptNumberOfRvaAndSizes(PE32)) > NUMBEROF_DIRECTORY_ENTRIES
       || soh < OptionalHeaderSize(PE32)
       || num > SECTIONS_MAX {
      return Done(Err(Insanity));
    }
    var secBegin := opt + soh;
    if secBegin + num * SECTION_HEADER_SIZE > hdr {
      return Done(Err(Insanity));
    }
    return Done(Ok(Layout(hdr, U32At(head, opt + OPT_SIZE_OF_IMAGE), secBegin, num)));
  }

  method Open(file: seq<u8>) returns (r: Outcome<Result<PeFile>>)
    ensures r == Load(file)
  {
    var checked := ReadHeaders(file);
    if checked.value.Err? {
      return Done(Err(checked.value.error));
    }
    var l := checked.value.value;
    assert Load(file) == LoadLayout(file, l);
    var hdr, img := l.hdrBytes, l.imgBytes;
    // The slice of the image up to SizeOfHeaders panics when the image is shorter
    if hdr > img {
      return Panic;
    }
    if |file| < hdr {
      return Done(Err(Io));
    }
    ghost var start := file[..hdr] + Zeros(img - hdr);
    ghost var spec := MapAll(start, SectionTable(file[..hdr], l.secBegin, l.secNum), hdr, file);
    assert Load(file) == Owned(spec);
    var buf := new u8[img](_ => 0);
    // The headers read so far and the rest up to SizeOfHeaders
    forall j | 0 <= j < hdr {
      buf[j] := file[j];
    }
    assert buf[..] == start;
    assert buf[..hdr] == file[..hdr];
    var mapped := MapSections(file, buf, hdr, l.secBegin, l.secNum);
    match mapped
    case Panic =>
      return Panic;
    case Done(Err(err)) =>
      return Done(Err(err));
    case Done(Ok(_)) =>
      return Done(Ok(PeFile(buf[..])));
  }

  //---------------- What a loaded image looks like

  /** Every section that writes byte `p` has its raw data inside the file. */
  predicate SourcesFit(secs: seq<SectionHeader>, file: seq<u8>, p: int)
  {
    forall j :: 0 <= j < |secs| && Writes(secs[j], p) ==>
      secs[j].PointerToRawData + secs[j].SizeOfRawData <= |file|
  }

  /**
   * The byte at `p` after the sections `secs` were mapped over `buf` in
   * order: the last section that writes `p` decides it; without one it is
   * the byte of `buf`.
   */
  function MappedByte(buf: seq<u8>, secs: seq<SectionHeader>, file: seq<u8>, p: nat): u8
    requires p < |buf|
    requires SourcesFit(secs, file, p)
    decreases |secs|
  {
    if secs == [] then buf[p]
    else
      var s := secs[|secs| - 1];
      if Writes(s, p) then file[s.PointerToRawData + p - s.VirtualAddress]
      else MappedByte(buf, secs[..|secs| - 1], file, p)
  }

  /** Mapping `s` first and then `rest` is mapping `rest` over the image with `s` applied. */
  lemma {:induction false} MappedByteFront(buf: seq<u8>, next: seq<u8>, s: SectionHeader,
                                           rest: seq<SectionHeader>, file: seq<u8>, p: nat)
    requires p < |buf| && p < |next|
    requires SourcesFit([s] + rest, file, p)
    requires next[p] == if Writes(s, p) && s.PointerToRawData + s.SizeOfRawData <= |file|
                        then file[s.PointerToRawData + p - s.VirtualAddress] else buf[p]
    ensures SourcesFit(rest, file, p)
    ensures MappedByte(buf, [s] + rest, file, p) == MappedByte(next, rest, file, p)
    decreases |rest|
  {
    assert forall j :: 0 <= j < |rest| ==> rest[j] == ([s] + rest)[j + 1];
    if rest == [] {
      assert ([s] + rest)[..0] == [];
    } else {
      var all := [s] + rest;
      var init := rest[..|rest| - 1];
      assert all[..|all| - 1] == [s] + init;
      assert all[|all| - 1] == rest[|rest| - 1];
      if !Writes(rest[|rest| - 1], p) {
        assert forall j :: 0 <= j < |[s] + init| ==> ([s] + init)[j] == all[j];
        MappedByteFront(buf, next, s, init, file, p);
      }
    }
  }

  /**
   * A successful map_sections leaves every section above `minRva` with a
   * virtual size, fitting the image and the file, and every byte the one
   * the last section writing it put there.
   */
  lemma {:induction false} MapAllBytes(buf: seq<u8>, secs: seq<SectionHeader>, minRva: nat, file: seq<u8>)
    requires MapAll(buf, secs, minRva, file).Done? && MapAll(buf, secs, minRva, file).value.Ok?
    ensures forall j :: 0 <= j < |secs| ==>
              && minRva <= secs[j].VirtualAddress && secs[j].VirtualSize != 0
              && (secs[j].PointerToRawData != 0 ==> secs[j].VirtualAddress + secs[j].SizeOfRawData <= |buf|)
    ensures forall p :: SourcesFit(secs, file, p)
    ensures forall p :: 0 <= p < |buf| ==>
              MapAll(buf, secs, minRva, file).value.value[p] == MappedByte(buf, secs, file, p)
    decreases |secs|
  {
    if secs != [] {
      var s := secs[0];
      var rest := secs[1..];
      var next := if Writes(s, s.VirtualAddress) then MapSection(buf, s, file) else buf;
      assert MapAll(buf, secs, minRva, file) == MapAll(next, rest, minRva, file);
      MapAllBytes(next, rest, minRva, file);
      assert Writes(s, s.VirtualAddress) ==> s.PointerToRawData + s.SizeOfRawData <= |file|;
      forall j | 0 < j < |secs| ensures secs[j] == rest[j - 1] {
      }
      forall p ensures SourcesFit(secs, file, p) {
        assert SourcesFit(rest, file, p);
      }
      forall p | 0 <= p < |buf|
        ensures MapAll(buf, secs, minRva, file).value.value[p] == MappedByte(buf, secs, file, p)
      {
        assert secs == [s] + rest;
        MappedByteFront(buf, next, s, rest, file, p);
      }
    }
  }

  /**
   * A loaded image is `SizeOfImage` bytes long, starts with the file's first
   * `SizeOfHeaders` bytes, holds at every other byte the raw data of the last
   * section that covers it, and is zero where no section does.
   */
  lemma LoadedImage(file: seq<u8>)
    requires Load(file).Done? && Load(file).value.Ok?
    ensures CheckHeaders(file).value.Ok?
    ensures var l := CheckHeaders(file).value.value;
            var buf := Load(file).value.value.buf;
            var secs := SectionTable(file[..l.hdrBytes], l.secBegin, l.secNum);
            && |buf| == l.imgBytes
            && l.hdrBytes <= |file| && buf[..l.hdrBytes] == file[..l.hdrBytes]
            && (forall j :: 0 <= j < |secs| ==> l.hdrBytes <= secs[j].VirtualAddress && secs[j].VirtualSize != 0)
            && (forall p :: SourcesFit(secs, file, p))
            && (forall p :: l.hdrBytes <= p < |buf| ==>
                  buf[p] == MappedByte(Zeros(|buf|), secs, file, p))
  {
    var l := CheckHeaders(file).value.value;
    var secs := SectionTable(file[..l.hdrBytes], l.secBegin, l.secNum);
    var start := file[..l.hdrBytes] + Zeros(l.imgBytes - l.hdrBytes);
    var buf := Load(file).value.value.buf;
    assert buf == MapAll(start, secs, l.hdrBytes, file).value.value;
    MapAllBytes(start, secs, l.hdrBytes, file);
    forall p | 0 <= p < l.hdrBytes ensures buf[p] == file[p] {
      MappedByteBelow(start, secs, file, p);
    }
    assert buf[..l.hdrBytes] == file[..l.hdrBytes];
    forall p | l.hdrBytes <= p < |buf| ensures buf[p] == MappedByte(Zeros(|buf|), secs, file, p) {
      assert buf[p] == MappedByte(start, secs, file, p);
      assert start[p] == 0;
      MappedByteBase(start, Zeros(|buf|), secs, file, p);
    }
  }

  /** A byte no section writes keeps its value. */
  lemma {:induction false} MappedByteBelow(buf: seq<u8>, secs: seq<SectionHeader>, file: seq<u8>, p: nat)
    requires p < |buf|
    requires forall j :: 0 <= j < |secs| ==> !Writes(secs[j], p)
    ensures MappedByte(buf, secs, file, p) == buf[p]
    decreases |secs|
  {
    if secs != [] {
      MappedByteBelow(buf, secs[..|secs| - 1], file, p);
    }
  }

  /** Only the byte of the base image at `p` matters to MappedByte at `p`. */
  lemma {:induction false} MappedByteBase(a: seq<u8>, b: seq<u8>, secs: seq<SectionHeader>, file: seq<u8>, p: nat)
    requires p < |a| && p < |b| && a[p] == b[p]
    requires SourcesFit(secs, file, p)
    ensures MappedByte(a, secs, file, p) == MappedByte(b, secs, file, p)
    decreases |secs|
  {
    if secs != [] && !Writes(secs[|secs| - 1], p) {
      MappedByteBase(a, b, secs[..|secs| - 1], file, p);
    }
  }

  /** PeFile::view: PeView::module over the owned buffer. */
  function ViewOf(pf: PeFile): (v: PeView)
    requires ModuleHeadersIn(pf.buf, PE32) && SizeOfImage(pf.buf, PE32) <= |pf.buf|
    ensures v.image == pf.buf[..SizeOfImage(pf.buf, PE32)]
  {
    Module(pf.buf, PE32)
  }

  /**
   * The view of a loaded file covers the whole buffer, meets everything the
   * header accessors take for granted, and its section table is the one the
   * loader mapped.
   */
  lemma LoadedView(file: seq<u8>)
    requires Load(file).Done? && Load(file).value.Ok?
    ensures var pf := Load(file).value.value;
            && ModuleHeadersIn(pf.buf, PE32) && SizeOfImage(pf.buf, PE32) == |pf.buf|
            && ValidView(ViewOf(pf))
            && ViewOf(pf).image == pf.buf
            && ViewOf(pf).vbase == U32At(file, ELfanew(file) + NT_OPTIONAL_HEADER + OptImageBase(PE32))
            && var l := CheckHeaders(file).value.value;
               SectionHeaders(ViewOf(pf)) == SectionTable(file[..l.hdrBytes], l.secBegin, l.secNum)
  {
    LoadedImage(file);
    var buf := Load(file).value.value.buf;
    var l := CheckHeaders(file).value.value;
    HeadersCarry(file, l, buf);
    SectionsCarry(file, l, ViewOf(Load(file).value.value));
  }

  /** An image that starts with the checked headers of `file` is `SizeOfImage` long and makes a valid view. */
  lemma HeadersCarry(file: seq<u8>, l: Layout, buf: seq<u8>)
    requires HeadersChecked(file, l)
    requires |buf| == l.imgBytes && l.hdrBytes <= |file| && l.hdrBytes <= |buf| && buf[..l.hdrBytes] == file[..l.hdrBytes]
    ensures && ModuleHeadersIn(buf, PE32) && SizeOfImage(buf, PE32) == |buf|
            && ValidView(Module(buf, PE32)) && Module(buf, PE32).image == buf
            && Module(buf, PE32).vbase == U32At(file, ELfanew(file) + NT_OPTIONAL_HEADER + OptImageBase(PE32))
  {
    var hdr := l.hdrBytes;
    var e := ELfanew(file);
    var opt := e + NT_OPTIONAL_HEADER;
    U32AtPrefix(buf, file, hdr, DOS_E_LFANEW);
    assert ELfanew(buf) == e;
    assert ModuleHeadersIn(buf, PE32) && SizeOfImage(buf, PE32) == |buf| by {
      U32AtPrefix(buf, file, hdr, opt + OPT_SIZE_OF_IMAGE);
    }
    var v := Module(buf, PE32);
    assert v.image == buf;
    assert v.vbase == U32At(file, opt + OptImageBase(PE32)) by {
      U32AtPrefix(buf, file, hdr, opt + OptImageBase(PE32));
    }
    U32AtPrefix(buf, file, hdr, opt + OptNumberOfRvaAndSizes(PE32));
    U16AtPrefix(buf, file, hdr, e + NT_FILE_HEADER + FILE_SIZE_OF_OPTIONAL_HEADER);
    U16AtPrefix(buf, file, hdr, e + NT_FILE_HEADER + FILE_NUMBER_OF_SECTIONS);
    assert opt + U16At(buf, e + NT_FILE_HEADER + FILE_SIZE_OF_OPTIONAL_HEADER) == l.secBegin;
    assert U16At(buf, e + NT_FILE_HEADER + FILE_NUMBER_OF_SECTIONS) == l.secNum;
    assert l.secBegin + SECTION_HEADER_SIZE * l.secNum <= |buf|;
    ValidPe32Headers(buf, v.vbase);
  }

  /** Headers that pass open()'s checks lie inside the image, the data directory within the optional header. */
  lemma ValidPe32Headers(image: seq<u8>, vbase: nat)
    requires |image| <= 0xFFFF_FFFF && vbase < 0x1_0000_0000 && DOS_HEADER_SIZE <= |image|
    requires var e := ELfanew(image);
             && e + NtHeadersSize(PE32) <= |image|
             && e + NT_OPTIONAL_HEADER + U16At(image, e + NT_FILE_HEADER + FILE_SIZE_OF_OPTIONAL_HEADER)
                + SECTION_HEADER_SIZE * U16At(image, e + NT_FILE_HEADER + FILE_NUMBER_OF_SECTIONS) <= |image|
             && U32At(image, e + NT_OPTIONAL_HEADER + OptNumberOfRvaAndSizes(PE32)) <= NUMBEROF_DIRECTORY_ENTRIES
    ensures ValidView(PeView(image, vbase, PE32))
  {
  }

  /** The section table of a view over such an image is the one read from the file's headers. */
  lemma SectionsCarry(file: seq<u8>, l: Layout, v: PeView)
    requires HeadersChecked(file, l) && ValidView(v)
    requires l.hdrBytes <= |file| && l.hdrBytes <= |v.image| && v.image[..l.hdrBytes] == file[..l.hdrBytes]
    ensures SectionHeaders(v) == SectionTable(file[..l.hdrBytes], l.secBegin, l.secNum)
  {
    var hdr := l.hdrBytes;
    var e := ELfanew(file);
    U32AtPrefix(v.image, file, hdr, DOS_E_LFANEW);
    U16AtPrefix(v.image, file, hdr, e + NT_FILE_HEADER + FILE_SIZE_OF_OPTIONAL_HEADER);
    U16AtPrefix(v.image, file, hdr, e + NT_FILE_HEADER + FILE_NUMBER_OF_SECTIONS);
    assert ELfanew(v.image) + NT_OPTIONAL_HEADER + SizeOfOptionalHeader(v) == l.secBegin;
    assert NumberOfSections(v) == l.secNum;
    ViewSectionTable(v);
    assert file[..hdr][..hdr] == v.image[..hdr];
    SectionTablePrefix(v.image, file[..hdr], hdr, l.secBegin, l.secNum);
  }

  /** section_headers() of a view reads the table SectionTable reads. */
  lemma ViewSectionTable(v: PeView)
    requires ValidView(v)
    ensures var begin := ELfanew(v.image) + NT_OPTIONAL_HEADER + SizeOfOptionalHeader(v);
            && begin + SECTION_HEADER_SIZE * NumberOfSections(v) <= |v.image|
            && SectionHeaders(v) == SectionTable(v.image, begin, NumberOfSections(v))
  {
  }

  /** A section table inside a common prefix reads the same. */
  lemma SectionTablePrefix(s: seq<u8>, t: seq<u8>, n: nat, begin: nat, num: nat)
    requires n <= |s| && n <= |t| && s[..n] == t[..n] && begin + SECTION_HEADER_SIZE * num <= n
    ensures SectionTable(s, begin, num) == SectionTable(t, begin, num)
  {
    forall i | 0 <= i < num
      ensures SectionTable(s, begin, num)[i] == SectionTable(t, begin, num)[i]
    {
      ParseSectionPrefix(s, t, n, begin + SECTION_HEADER_SIZE * i);
    }
  }

  /** A section header inside a common prefix parses the same. */
  lemma ParseSectionPrefix(s: seq<u8>, t: seq<u8>, n: nat, off: nat)
    requires n <= |s| && n <= |t| && s[..n] == t[..n] && off + SECTION_HEADER_SIZE <= n
    ensures ParseSection(s, off) == ParseSection(t, off)
  {
    U32AtPrefix(s, t, n, off + SEC_VIRTUAL_SIZE);
    U32AtPrefix(s, t, n, off + SEC_VIRTUAL_ADDRESS);
    U32AtPrefix(s, t, n, off + SEC_SIZE_OF_RAW_DATA);
    U32AtPrefix(s, t, n, off + SEC_POINTER_TO_RAW_DATA);
  }
}
