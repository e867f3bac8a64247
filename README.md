# pelite: a verified model of PE image parsing

This project models the core of pelite, a library that reads Portable
Executable (PE) images. The model covers these parts:

- The view of a mapped image (`PeView`). It decodes the DOS and NT headers,
  the section table and the data directory. It offers checked reads of
  records, arrays and C strings by RVA. It translates between RVAs, file
  offsets and virtual addresses.
- The loader of PE32 files (`PeFile::open`). It checks the headers,
  allocates the image and maps every section's raw data to its virtual
  address.
- The export directory. This covers lookup by ordinal and by name, the name
  of an ordinal, forwarders, and the ordinal iterator.
- The PE32 import directory. This covers the descriptor iterator, the DLL
  name, and the import name table and import address table iterators.
- The base relocation directory. This covers the block iterator and the
  decoding of an entry's type and RVA.
- The resource tree. This covers entries, names, subdirectories, data
  entries, the directory iterator, lookup by displayed name, and a data
  entry's bytes. It also covers how the tree is found from the resource
  data directory entry.

The model follows these conventions:

- Bytes are `seq<u8>`, and fixed-width integers are subset types of `int`.
- Rust's release-build wrapping arithmetic is written out as `Wrap16`,
  `Wrap32` and `Wrap64`.
- A Rust panic (a failed assertion, an `unwrap()` of `None`, a slice index
  out of range) is the `Panic` case of `Outcome`. An absent value (an RVA of
  0) is `None`.
- Each iterator is a class with a mutable cursor and a `Next` method. That
  method is proved against a one-step function. Where the source loops over
  an iterator, a `Collect` or `Find` method is proved equal to a recursive
  function of the start cursor, and the lemmas are about that function.
- Modules are `Bytes` (words, decoding, failure shapes), `Image` (record
  layouts), `View`, `PeFile32`, `Exports`, `Imports`, `Relocs`,
  `ResourceFs` (the resource tree) and `PeResources` (the resources of a
  view).

## Model

| member | source | states |
|---|---|---|
| View.ImageBase | src/pe64/peview.rs:42-49 | the base address read from the optional header fits the Va width (u32 for PE32, u64 for PE64) |
| View.Module | src/pe64/peview.rs:42-49 | the view covers exactly the first `SizeOfImage` bytes of the module's memory, with that width, and its base fits a Va |
| View.NtHeaders | src/pe64/peview.rs:66-71 | the NT headers at `e_lfanew` lie inside the image |
| View.OptionalHeader | src/pe64/peview.rs:76-78 | the optional header lies inside the image |
| View.SectionHeaders | src/pe64/peview.rs:80-87 | `NumberOfSections` headers, the i-th parsed 40·i bytes after the end of the optional header (`SizeOfOptionalHeader`) |
| View.DataDirectory | src/pe64/peview.rs:89-93 | `NumberOfRvaAndSizes` entries, parsed 8 bytes apart from the data directory's offset for the view's width |
| View.DirectoryEntry | src/pe64/peview.rs:89-93 | `get(index)` on the data directory is `None` exactly when `index` is at least `NumberOfRvaAndSizes` |
| View.ReadStruct | src/pe64/peview.rs:119-131 | `None` iff the RVA is BADRVA; a panic iff the record leaves the image or is misaligned; otherwise exactly the record's bytes |
| View.ReadSlice | src/pe64/peview.rs:161-173 | the same three cases for an array of `len` elements; the result is the array's `size·len` bytes |
| View.ReadRvas | src/pe64/peview.rs:161-173 | `read_slice::<Rva>`: the same cases with 4-byte alignment; element i is the u32 at `rva + 4i` |
| View.ReadU16s | src/pe64/peview.rs:161-173 | `read_slice` of 2-byte elements: the same cases; element i is the u16 at `rva + 2i` |
| View.NulFrom | src/pe64/peview.rs:194-211 | the first zero byte at or after `i`, or `None` exactly when no byte from `i` on is zero |
| View.CStrAt | src/pe64/peview.rs:194-211 | `None` iff BADRVA; a panic iff no zero byte follows the RVA inside the image; otherwise the bytes up to the first zero |
| View.ReadStr | src/pe64/peview.rs:194-211 | the byte-by-byte scan for the terminating zero gives exactly `CStrAt` |
| View.CoversRvaWrapping | src/pe64/peview.rs:223-230 | the section test with its wrapping u32 end is the unbounded test `VirtualAddress <= rva < VirtualAddress + SizeOfRawData` |
| View.FirstCoveringRva | src/pe64/peview.rs:223-230 | the first section at or after `i` whose range covers the RVA; `None` iff none does |
| View.FirstCoveringOffset | src/pe64/peview.rs:242-249 | the first section at or after `i` whose raw data covers the file offset; `None` iff none does |
| View.RvaToFileOffsetIn | src/pe64/peview.rs:223-230 | `None` iff no section covers the RVA; otherwise the first covering section translates it |
| View.FileOffsetToRvaIn | src/pe64/peview.rs:242-249 | BADRVA when no section covers the offset; otherwise the first covering section translates it |
| View.RvaToFileOffset | src/pe64/peview.rs:223-230 | the loop over the section table computes `RvaToFileOffsetIn` |
| View.FileOffsetToRva | src/pe64/peview.rs:242-249 | the loop over the section table computes `FileOffsetToRvaIn` |
| View.SectionOffsetRoundTrip | src/pe64/peview.rs:223-249 | within one section whose ends do not wrap, offset → RVA → offset is the identity |
| View.SectionRvaRoundTrip | src/pe64/peview.rs:223-249 | within one section, RVA → offset → RVA is the identity |
| View.FileOffsetToRvaInverts | src/pe64/peview.rs:223-249 | when raw ranges do not overlap, `file_offset_to_rva` undoes `rva_to_file_offset` |
| View.RvaToFileOffsetInverts | src/pe64/peview.rs:223-249 | when virtual ranges do not overlap, `rva_to_file_offset` undoes `file_offset_to_rva` for every covered offset |
| View.RvaToVa | src/pe64/peview.rs:265-268 | the VA fits the Va width, and BADRVA maps to BADVA |
| View.VaToRva | src/pe64/peview.rs:286-294 | defined on the values a Va of the view's width can hold; BADVA maps to BADRVA |
| View.VaRoundTrip | src/pe64/peview.rs:265-294 | `va_to_rva(rva_to_va(rva)) == rva` unless the VA wraps to exactly BADVA |
| View.VaRoundTripNoOverflow | src/pe64/peview.rs:265-294 | the round trip always holds when `vbase + rva` does not overflow |
| PeFile32.CheckHeaders | src/pe32/pefile.rs:58-108 | the checks never panic; on success the DOS and NT headers are in the file, the section table lies between the NT headers and `SizeOfHeaders` (at most 0x1000), there are at most 100 sections and at most 16 data directories, and the layout carries the header fields |
| PeFile32.CheckHeadersVerdicts | src/pe32/pefile.rs:58-108 | the checks report Io exactly for a file shorter than the DOS header, or than the NT headers once the `MZ` magic and `e_lfanew` pass; BadMagic exactly for a wrong `MZ` magic, or a wrong `PE\0\0` signature or PE32 optional magic once `e_lfanew` is sane and the NT headers are in the file; Insanity exactly for an `e_lfanew` of 0 or above 0x200 after a good `MZ`, or a failed limit or a section table past `SizeOfHeaders` after good NT magics; and they accept exactly when every check passes |
| PeFile32.ReadHeaders | src/pe32/pefile.rs:58-108 | reading the DOS header and then the NT headers gives exactly `CheckHeaders` |
| PeFile32.MapAll | src/pe32/pefile.rs:127-146 | a successful mapping keeps the image's length |
| PeFile32.MapAllVerdict | src/pe32/pefile.rs:127-146 | the mapping succeeds exactly when every section passes; otherwise `FirstFailing`, the first section that does not, decides it: Insanity when it lies below `minRva` or has no virtual size, a panic when its raw data runs past the image, Io when it runs past the file |
| PeFile32.FirstFailing | src/pe32/pefile.rs:127-146 | the index it returns is at most the number of sections, every section before it passes the mapping checks, and the one at it (if any) does not |
| PeFile32.MapSections | src/pe32/pefile.rs:127-146 | the in-place loop leaves the headers below `minRva` untouched and gives `MapAll`'s outcome and bytes |
| PeFile32.CopiedSection | src/pe32/pefile.rs:134-141 | one section's read writes `MapSection`'s bytes and keeps the headers; a section without raw data changes nothing |
| PeFile32.Open | src/pe32/pefile.rs:54-126 | open() gives exactly `Load`: check the headers, allocate `SizeOfImage` zeros, copy `SizeOfHeaders` bytes of the file, map the sections |
| PeFile32.MapAllBytes | src/pe32/pefile.rs:127-146 | after a successful mapping every section is at or above `minRva`, has a virtual size and its raw data fits the file, and every byte is the one the last section writing it put there |
| PeFile32.LoadedImage | src/pe32/pefile.rs:110-126 | a loaded image is `SizeOfImage` bytes, starts with the file's headers, and holds the mapped section bytes elsewhere (zero where no section writes) |
| PeFile32.ViewOf | src/pe32/pefile.rs:148-151 | view() is the module view of the owned buffer |
| PeFile32.LoadedView | src/pe32/pefile.rs:148-151 | the view of a loaded file covers the whole buffer, meets every assumption of the header accessors, is based at `ImageBase`, and its section table is the one the loader mapped |
| PeFile32.LoadMagic | src/pe32/pefile.rs:54-108 | open() reports BadMagic exactly when the header checks do, since mapping the sections never does; a loaded file has the `MZ` magic, an `e_lfanew` in 1..0x200, the `PE\0\0` signature and the PE32 optional magic |
| PeFile32.HeadersCarry | src/pe32/pefile.rs:147-151 | any `SizeOfImage`-long buffer that starts with the checked headers makes a valid module view over all of it, based at the file's `ImageBase` |
| PeFile32.SectionsCarry | src/pe32/pefile.rs:113-116 | the section table of a view over such a buffer is the one open() read from the file's headers |
| Exports.Exports | src/pe64/exports.rs:281-298 | `None` iff there is no export directory entry or its RVA is BADRVA; a panic iff the directory record leaves the image; otherwise the parsed record |
| Exports.LibraryName | src/pe64/exports.rs:104-106 | the library name is the C string at `Name`; a panic when it is absent or unterminated |
| Exports.Functions | src/pe64/exports.rs:109-111 | the export address table has `NumberOfFunctions` entries |
| Exports.Names | src/pe64/exports.rs:114-116 | the name table has `NumberOfNames` entries |
| Exports.NameIndices | src/pe64/exports.rs:121-123 | the name index table has `NumberOfNames` entries |
| Exports.SymbolFromRva | src/pe64/exports.rs:233-240 | an RVA inside the export directory's range is a forwarder (the C string there); any other RVA is the symbol itself; a panic iff a forwarder string cannot be read |
| Exports.OrdinalIndexInverts | src/pe64/exports.rs:150-160 | the index of ordinal `Base + i` (16-bit wrapping) is `i` for every u16 index |
| Exports.OrdinalOfInverts | src/pe64/exports.rs:152 | conversely, every ordinal is `Base + i` for its index `i` |
| Exports.SymbolByOrdinal | src/pe64/exports.rs:150-160 | a panic iff the table read or the forwarder read panics; a present export is `SymbolFromRva` of the ordinal's non-zero table entry |
| Exports.NameScanFound | src/pe64/exports.rs:172-190 | a present result of the name scan comes from a pair at or after the cursor whose name reads as the query and whose index selects a function that is not BADRVA, and is that function's symbol |
| Exports.ScanNames | src/pe64/exports.rs:176-188 | the loop over the zipped tables computes `NameScan` |
| Exports.SymbolByNameAsWritten | src/pe64/exports.rs:172-190 | symbol_by_name as written: without the export address table, or with it but without the name table, the result is `Absent` (the later tables are not read); a found export needs both tables |
| Exports.SymbolByName | src/pe64/exports.rs:172-190 | corrected symbol_by_name, reading the tables in the same nested order: `Absent` as soon as one of the export address, name and name index tables is missing (the later ones are not read); a found export needs all three |
| Exports.NameScanSkips | src/pe64/exports.rs:176-188 | names that read and differ from the query are passed over |
| Exports.SymbolByNameIsByOrdinal | src/pe64/exports.rs:150-190 | looking up the first name equal to the query is looking up the ordinal `Base + index` its index table entry gives |
| Exports.SymbolByNameAsWrittenMisses | src/pe64/exports.rs:175 | in `MissedExport` the written lookup of "A" finds nothing while the corrected lookup and the lookup by ordinal find the symbol at 0x10 |
| Exports.OrdinalScan | src/pe64/exports.rs:202-232 | the result carries the ordinal and its resolved symbol |
| Exports.OrdinalScanNamed | src/pe64/exports.rs:209-218 | a reported name is the C string of the first pair from the cursor on whose index is the ordinal's index |
| Exports.OrdinalScanUnnamed | src/pe64/exports.rs:209-224 | no name is reported only when no pair from the cursor on has the ordinal's index |
| Exports.ScanOrdinals | src/pe64/exports.rs:209-226 | the loop over the zipped tables computes `OrdinalScan` |
| Exports.NameFromOrdinal | src/pe64/exports.rs:202-232 | the result carries the queried ordinal |
| Exports.NameFromOrdinalAgrees | src/pe64/exports.rs:150-232 | name_from_ordinal resolves the same symbol as symbol_by_ordinal |
| Exports.NameFromOrdinalNamed | src/pe64/exports.rs:202-232 | a reported name is the name of the first pair whose index entry is the ordinal's index |
| Exports.NameFromOrdinalUnnamed | src/pe64/exports.rs:202-232 | when the ordinal has a symbol and both name tables are present, no name is reported only when no index entry is the ordinal's index |
| Exports.ExportIterator.constructor | src/pe64/exports.rs:243-248 | the cursor starts at 0 |
| Exports.ExportStepOrdinal | src/pe64/exports.rs:311-320 | below `NumberOfFunctions` a step yields the ordinal `Base + it`, which maps back to entry `it` |
| Exports.ExportIterator.Next | src/pe64/exports.rs:311-320 | below `NumberOfFunctions` yields `it + Base` and advances, both wrapping at 16 bits; otherwise yields nothing and keeps the cursor |
| Exports.OrdinalsFromAll | src/pe64/exports.rs:311-320 | with fewer than 0x10000 functions the iterator yields one ordinal per table entry, `Base + i` for entry i, each mapping back to entry i |
| Exports.WrapBase | src/pe64/exports.rs:316 | truncating `Base` to 16 bits before the wrapping add gives the same ordinal |
| Imports.Imports | src/pe32/imports.rs:74-89 | `None` iff there is no import directory entry or its RVA is BADRVA |
| Imports.DescriptorStep | src/pe32/imports.rs:102-123 | a panic iff the record is at BADRVA or leaves the image; the sentinel (all fields zero) ends the run; otherwise the record is yielded and the cursor moves 20 bytes |
| Imports.Descriptors | src/pe32/imports.rs:102-123 | every yielded record is a non-sentinel at `it + 20k`, followed by a sentinel; a panic only at BADRVA or when no sentinel lies before the image's end |
| Imports.RunExtends | src/pe32/imports.rs:102-123 | a non-sentinel record followed by a run is the longer run |
| Imports.NoSentinelBefore | src/pe32/imports.rs:102-123 | a non-sentinel record followed by a run without a sentinel starts a run without one |
| Imports.ImportDescriptorIterator.constructor | src/pe32/imports.rs:50-55 | the cursor starts at the directory's RVA |
| Imports.ImportDescriptorIterator.Next | src/pe32/imports.rs:102-123 | the step is `DescriptorStep` at the cursor |
| Imports.ImportDescriptorIterator.Collect | src/pe32/imports.rs:60-62 | a `for` loop over the iterator yields exactly `Descriptors` of the start cursor |
| Imports.DllName | src/pe32/imports.rs:146-148 | the DLL name is the C string at `Name`; a panic when absent or unterminated |
| Imports.ThunkSymbol | src/pe32/imports.rs:190-206 | bit 31 set means by ordinal, with the ordinal the low 16 bits; otherwise a 2-byte aligned hint and then the name string at `va + 2`; a panic iff one of those reads fails |
| Imports.OrdinalThunkRoundTrip | src/pe32/imports.rs:194-203 | the flag plus an ordinal decodes back to that ordinal |
| Imports.TableStep | src/pe32/imports.rs:217-226 | a panic iff the thunk is at BADRVA, misaligned or outside the image; zero ends the table; otherwise the thunk is yielded and the cursor moves 4 bytes |
| Imports.NameStep | src/pe32/imports.rs:190-206 | the same read as `TableStep`, then the entry decoded by `ThunkSymbol` |
| Imports.TableThunks | src/pe32/imports.rs:217-226 | the yielded thunks are the non-zero entries before the first zero, in order |
| Imports.TableThunksCount | src/pe32/imports.rs:217-226 | n non-zero aligned thunks followed by a zero one yield exactly n entries |
| Imports.NameThunksDecodeTable | src/pe32/imports.rs:190-226 | when the name table iterator finishes from a cursor, the address table iterator finishes from it too and the name iterator's symbols are exactly its entries decoded, one symbol each, in order |
| Imports.NameThunksTotal | src/pe32/imports.rs:190-226 | conversely, when the address table iterator finishes from a cursor and each of its entries decodes without a panic, the name table iterator finishes from that cursor |
| Imports.ImportNameIterator.constructor | src/pe32/imports.rs:151-156 | the cursor starts at `OriginalFirstThunk` |
| Imports.ImportNameIterator.Next | src/pe32/imports.rs:190-206 | the step is `NameStep` at the cursor |
| Imports.ImportNameIterator.Collect | src/pe32/imports.rs:173-175 | a `for` loop over the iterator yields exactly `NameThunks` of the start cursor |
| Imports.ImportTableIterator.constructor | src/pe32/imports.rs:159-164 | the cursor starts at `FirstThunk` |
| Imports.ImportTableIterator.Next | src/pe32/imports.rs:217-226 | the step is `TableStep` at the cursor |
| Relocs.Relocs | src/pe64/relocs.rs:50-65 | `None` iff there is no base relocation entry or its RVA is BADRVA |
| Relocs.EntryCountCovers | src/pe64/relocs.rs:86-89 | the header and the entries cover all of a block's bytes but at most one |
| Relocs.BlockAt | src/pe64/relocs.rs:78-100 | a parsed block's size exceeds its header and it has `(SizeOfBlock - 8) / 2` entries |
| Relocs.RelocStep | src/pe64/relocs.rs:78-100 | nothing at or past the wrapping end; a panic iff a block at the cursor does not fit; otherwise the block there, and the cursor advances by its size, wrapping |
| Relocs.LaidOutIndexed | src/pe64/relocs.rs:78-100 | block k of a run lies at the start plus the sizes of the blocks before it |
| Relocs.RelocBlocks | src/pe64/relocs.rs:78-100 | the yielded blocks are laid out one after another from the cursor, each before the end, together reaching the end |
| Relocs.RelocBlocksExact | src/pe64/relocs.rs:78-100 | conversely, blocks laid out from a non-zero cursor whose sizes add up exactly to the end are yielded exactly, in order, with nothing after them |
| Relocs.TwoBlocksExact | src/pe64/relocs.rs:78-100 | a 32-byte directory holding blocks of 14 and 18 bytes yields those two blocks (3 and 5 entries) and no third |
| Relocs.StepAdvances | src/pe64/relocs.rs:78-100 | a step that does not wrap to 0 moves the cursor forward by the block's size |
| Relocs.RvaOf | src/pe64/relocs.rs:129-132 | the RVA lies in the block's 4 KiB page (when the page does not wrap) at the entry's low 12 bits |
| Relocs.TypeOf | src/pe64/relocs.rs:135-137 | the type is below 16, and type and offset make up the entry |
| Relocs.RelocsIterator.constructor | src/pe64/relocs.rs:26-31 | the cursor starts at the directory's RVA |
| Relocs.RelocsIterator.Next | src/pe64/relocs.rs:78-100 | the step is `RelocStep` at the cursor |
| Relocs.RelocsIterator.Collect | src/pe64/relocs.rs:36-38 | a `for` loop over the iterator yields exactly `RelocBlocks` of the start cursor |
| ResourceFs.ReadSlice | src/resources.rs:51-54 | the bytes at `off` when they lie inside the section; a panic otherwise |
| ResourceFs.ReadStr | src/resources.rs:55-60 | a u16 count, then that many UTF-16 units after it; a panic iff either leaves the section |
| ResourceFs.EntryName | src/resources.rs:119-128 | high bit set means the string at the low 31 bits (a panic iff it cannot be read); otherwise the low 16 bits as an id |
| ResourceFs.AsDir | src/resources.rs:134-151 | `None` iff the entry is not a directory; a panic iff the directory record or its entries leave the section; otherwise the directory at the low 31 bits of `Offset`, which fits with all its entries |
| ResourceFs.AsData | src/resources.rs:153-165 | `None` iff the entry is a directory; a panic iff the data entry record leaves the section; otherwise the record at `Offset` |
| ResourceFs.EntryIsExactlyOne | src/resources.rs:130-175 | every entry is exactly one of a subdirectory and a data entry; entry() gives what the matching accessor gives, and the other gives `None` |
| ResourceFs.RootIsDirectory | src/resources.rs:44-50 | the root entry is a directory read at offset 0 |
| ResourceFs.Entries | src/resources.rs:246-252 | `NumberOfNamedEntries + NumberOfIdEntries` entries, parsed 8 bytes apart after the 16-byte directory record |
| ResourceFs.ResourceDirectoryIterator.constructor | src/resources.rs:240-245 | the cursor starts at 0 |
| ResourceFs.ResourceDirectoryIterator.Next | src/resources.rs:275-285 | below the entry count yields the entry at the cursor and advances by one; otherwise yields nothing and keeps the cursor |
| ResourceFs.Decimal | src/resources.rs:86-88 | at least one digit, all of them decimal |
| ResourceFs.DecimalRoundTrip | src/resources.rs:86-88 | the digits of a number denote that number |
| ResourceFs.Utf16Lossy | src/resources.rs:89-92 | the decoded string is never longer than its UTF-16 units |
| ResourceFs.Utf16LossyPlain | src/resources.rs:89-92 | units outside the surrogate range decode one to one |
| ResourceFs.Display | src/resources.rs:83-95 | an id displays as `#` followed by decimal digits that denote it |
| ResourceFs.DisplayIdInjective | src/resources.rs:83-95 | distinct ids display differently |
| ResourceFs.NoMatchExtends | src/resources.rs:233-238 | a non-matching entry extends a run of non-matching entries |
| ResourceFs.FindFrom | src/resources.rs:233-238 | a found entry is the first whose displayed name equals the query; `None` means every name reads and differs; a panic comes from the first unreadable name before any match |
| ResourceFs.Find | src/resources.rs:233-238 | iterating and comparing displayed names gives exactly `FindFrom` over the directory's entries |
| ResourceFs.Data | src/resources.rs:309-312 | the bytes at `OffsetToData - vbase` exactly when that does not underflow and the bytes lie in the section; a panic otherwise |
| PeResources.ResourcesOf | src/pe64/resources.rs:14-22 | `None` iff there is no resource entry or its RVA is BADRVA; a panic iff the range leaves the image; otherwise the range's bytes based at its RVA |
| PeResources.DataIsImageBytes | src/resources.rs:309-312 | a data entry's bytes are the image's bytes at the RVA `OffsetToData`, and they are there exactly when that range lies inside the resource section |

Definitions without a contract of their own, and the members whose contracts state their properties:

- `View.CoversRva` (src/pe64/peview.rs:223-249): `View.CoversRvaWrapping`, `View.FirstCoveringRva`.
- `View.OffsetInSection`, `View.RvaInSection` (src/pe64/peview.rs:223-249): `View.SectionOffsetRoundTrip`, `View.SectionRvaRoundTrip`, `View.RvaToFileOffsetIn`, `View.FileOffsetToRvaIn`.
- `PeFile32.DosMagicOk`, `PeFile32.LfanewSane`, `PeFile32.NtMagicOk`, `PeFile32.LimitsSane` (src/pe32/pefile.rs:66-103): `PeFile32.CheckHeadersVerdicts`, `PeFile32.LoadMagic`.
- `PeFile32.SectionMaps` (src/pe32/pefile.rs:127-143): `PeFile32.FirstFailing`, `PeFile32.MapAllVerdict`.
- `PeFile32.Load` (src/pe32/pefile.rs:54-126): `PeFile32.Open`, `PeFile32.LoadedImage`, `PeFile32.LoadedView`, `PeFile32.LoadMagic`.
- `Exports.IsForwarded` (src/pe64/exports.rs:136-138): `Exports.SymbolFromRva`.
- `Exports.OrdinalIndex` (src/pe64/exports.rs:152): `Exports.OrdinalIndexInverts`, `Exports.OrdinalOfInverts`.
- `Exports.NameScan` (src/pe64/exports.rs:176-188): `Exports.NameScanFound`, `Exports.NameScanSkips`, `Exports.ScanNames`, `Exports.SymbolByNameIsByOrdinal`.
- `Exports.ExportStep` (src/pe64/exports.rs:311-320): `Exports.ExportStepOrdinal`, `Exports.ExportIterator.Next`, `Exports.OrdinalsFromAll`.
- `Imports.IsSentinel` (src/pe32/imports.rs:104-112): `Imports.DescriptorStep`, `Imports.Descriptors`.
- `Imports.NameThunks` (src/pe32/imports.rs:190-226): `Imports.NameThunksDecodeTable`, `Imports.NameThunksTotal`, `Imports.ImportNameIterator.Collect`.
- `ResourceFs.Root` (src/resources.rs:44-50): `ResourceFs.RootIsDirectory`.
- `ResourceFs.IsDir` (src/resources.rs:130-132) and `ResourceFs.Entry` (src/resources.rs:167-175): `ResourceFs.AsDir`, `ResourceFs.AsData`, `ResourceFs.EntryIsExactlyOne`.

## Left out

- Display implementations, the text they print and the `Display` recursion over the resource tree are not modelled; the displayed form of a resource name is modelled because `find` compares it.
- File I/O is not modelled: the file is its bytes, and a read past its end is an I/O error. Seeks, partial reads and OS errors are left out.
- UTF-8 validation of C strings is left out: strings are their bytes.
- Raw-pointer unsafety and alignment are modelled only through the checks the source makes; the unchecked header accessors take `ValidView` as a precondition, which holds for every view `PeFile32.LoadedView` produces.
- Debug-build overflow panics are left out: arithmetic wraps as in a release build. The exceptions are the length underflow in `read_struct`/`read_slice`, modelled as a panic because its documentation promises no out-of-bounds read, and `data()` in the resource tree, which panics in either build.
- Imports are modelled for PE32 only (the imports file models PE32 images); PE64 imports are not part of this model.
- `Exports.OrdinalsFromAll`: requires `NumberOfFunctions <= 0xFFFF`, because with more functions the u16 cursor wraps and the iteration never ends.
- `Imports.Descriptors`, `Imports.TableThunks`, `Imports.NameThunks`, `Relocs.RelocStep` and `Relocs.RelocBlocks`: require the image length to fit a u32; every view's length is `SizeOfImage`, a u32.
- The `unwrap()` calls in `entry()` cannot fail for a well-formed reader; the model keeps them as panics that `ResourceFs.EntryIsExactlyOne` shows only come from the accessor's own panic.
- `ResourceFs.Utf16Lossy` models `String::from_utf16_lossy` from its documented rules (pairs decode to one character, lone surrogates to U+FFFD); the standard library's code is not part of this model.
- `ResourceFs.ReadStr`: the unaligned u16 read through a raw pointer is modelled as a plain little-endian read.
- Accessors that only return a field or a reference (`image()`, `view()`, `resources()`, `entry()` of a directory, `blocks()`) are not separate members; the model's datatypes expose those fields.

## Findings

| source | as written | input that shows it | evidently intended | confidence | as-written member | corrected member |
|---|---|---|---|---|---|---|
| src/pe64/exports.rs:175 | symbol_by_name zips the name table with the name table again, so each name's RVA is used as an index into the export address table | `MissedExport`: one function at RVA 0x10, one name "A" at RVA 16 with index 0; the lookup of "A" uses 16 as the index and finds nothing | zip the names with `name_indices()`, so "A" resolves to the symbol at 0x10, the same as the lookup of its ordinal | high (not executed) | Exports.SymbolByNameAsWritten, Exports.SymbolByNameAsWrittenMisses | Exports.SymbolByName, Exports.SymbolByNameIsByOrdinal |
