/**
 * The export directory of a PE image: the export address table (one RVA per
 * ordinal, counted from `Base`), the name table and the parallel table of
 * indices into the export address table. Exports whose RVA lies inside the
 * export directory itself are forwarders: the RVA points at a
 * `DllName.ExportName` string.
 */
module Exports {
  import opened Bytes
  import opened Image
  import opened View

  /** A resolved export: no symbol, a symbol's RVA, or the forwarder string. */
  datatype Export = Absent | Symbol(rva: u32) | Forward(name: seq<u8>)

  datatype NamedExport = NamedExport(ord: u16, symbol: Export, name: Option<seq<u8>>)

  /** The fields of ImageExportDirectory the library reads. */
  datatype ImageExportDirectory = ImageExportDirectory(
    Name: u32, Base: u32, NumberOfFunctions: u32, NumberOfNames: u32,
    AddressOfFunctions: u32, AddressOfNames: u32, AddressOfNameOrdinals: u32)

  function ParseExportDirectory(b: seq<u8>, off: nat): ImageExportDirectory
    requires off + EXPORT_DIRECTORY_SIZE <= |b|
  {
    ImageExportDirectory(
      U32At(b, off + EXP_NAME), U32At(b, off + EXP_BASE),
      U32At(b, off + EXP_NUMBER_OF_FUNCTIONS), U32At(b, off + EXP_NUMBER_OF_NAMES),
      U32At(b, off + EXP_ADDRESS_OF_FUNCTIONS), U32At(b, off + EXP_ADDRESS_OF_NAMES),
      U32At(b, off + EXP_ADDRESS_OF_NAME_ORDINALS))
  }

  /** The view, the export data directory entry and the export directory record. */
  datatype ExportDirectory = ExportDirectory(view: PeView, datadir: DataDir, image: ImageExportDirectory)

  /**
   * exports(): `None` without an export data directory entry or when its RVA
   * is BADRVA; a panic when the record does not fit the image; otherwise the
   * record at the entry's RVA.
   */
  function Exports(v: PeView): (r: Outcome<Option<ExportDirectory>>)
    requires ValidView(v)
    ensures r == Done(None) <==>
              NumberOfRvaAndSizes(v) <= DIRECTORY_ENTRY_EXPORT
              || DataDirectory(v)[DIRECTORY_ENTRY_EXPORT].VirtualAddress == BADRVA
    ensures r.Panic? <==>
              && NumberOfRvaAndSizes(v) > DIRECTORY_ENTRY_EXPORT
              && DataDirectory(v)[DIRECTORY_ENTRY_EXPORT].VirtualAddress != BADRVA
              && DataDirectory(v)[DIRECTORY_ENTRY_EXPORT].VirtualAddress + EXPORT_DIRECTORY_SIZE > |v.image|
    ensures r.Done? && r.value.Some? ==>
              var dd := DataDirectory(v)[DIRECTORY_ENTRY_EXPORT];
              && r.value.value.view == v && r.value.value.datadir == dd
              && dd.VirtualAddress + EXPORT_DIRECTORY_SIZE <= |v.image|
              && r.value.value.image == ParseExportDirectory(v.image, dd.VirtualAddress)
  {
    match DirectoryEntry(v, DIRECTORY_ENTRY_EXPORT)
    case None => Done(None)
    case Some(dd) =>
      if dd.VirtualAddress == BADRVA then Done(None)
      else
        var rec :- ReadStruct(v, dd.VirtualAddress, EXPORT_DIRECTORY_SIZE, 1);
        match rec
        case None => Panic
        case Some(b) => Done(Some(ExportDirectory(v, dd, ParseExportDirectory(b, 0))))
  }

  /** name(): the library name; a panic when it is missing or unterminated. */
  function LibraryName(d: ExportDirectory): (r: Outcome<seq<u8>>)
    ensures r.Done? <==> CStrAt(d.view.image, d.image.Name).Done? && CStrAt(d.view.image, d.image.Name).value.Some?
    ensures r.Done? ==> CStrAt(d.view.image, d.image.Name) == Done(Some(r.value))
  {
    var s :- CStrAt(d.view.image, d.image.Name);
    if s.None? then Panic else Done(s.value)
  }

  /** functions(): the export address table, `NumberOfFunctions` RVAs. */
  function Functions(d: ExportDirectory): (r: Outcome<Option<seq<u32>>>)
    ensures r.Done? && r.value.Some? ==> |r.value.value| == d.image.NumberOfFunctions
  {
    ReadRvas(d.view, d.image.AddressOfFunctions, d.image.NumberOfFunctions)
  }

  /** names(): the name table, `NumberOfNames` RVAs of C strings. */
  function Names(d: ExportDirectory): (r: Outcome<Option<seq<u32>>>)
    ensures r.Done? && r.value.Some? ==> |r.value.value| == d.image.NumberOfNames
  {
    ReadRvas(d.view, d.image.AddressOfNames, d.image.NumberOfNames)
  }

  /** name_indices(): `NumberOfNames` u16 indices into the export address table. */
  function NameIndices(d: ExportDirectory): (r: Outcome<Option<seq<u16>>>)
    ensures r.Done? && r.value.Some? ==> |r.value.value| == d.image.NumberOfNames
  {
    ReadU16s(d.view, d.image.AddressOfNameOrdinals, d.image.NumberOfNames, 2)
  }

  /** is_forwarded(): the RVA lies in the export directory's range (u32 end, wrapping). */
  predicate IsForwarded(d: ExportDirectory, rva: u32)
  {
    d.datadir.VirtualAddress <= rva < Wrap32(d.datadir.VirtualAddress + d.datadir.Size)
  }

  /** A forwarder is read as a string at its RVA; anything else is the symbol's RVA. */
  function SymbolFromRva(d: ExportDirectory, rva: u32): (r: Outcome<Export>)
    ensures r.Done? ==> r.value != Absent
    ensures r.Done? ==> (r.value.Forward? <==> IsForwarded(d, rva))
    ensures r.Done? && r.value.Symbol? ==> r.value.rva == rva
    ensures r.Done? && r.value.Forward? ==> CStrAt(d.view.image, rva) == Done(Some(r.value.name))
    ensures r.Panic? <==> IsForwarded(d, rva) && !(CStrAt(d.view.image, rva).Done? && CStrAt(d.view.image, rva).value.Some?)
  {
    if IsForwarded(d, rva) then
      var s :- CStrAt(d.view.image, rva);
      if s.None? then Panic else Done(Forward(s.value))
    else Done(Symbol(rva))
  }

  /** The index of ordinal `ord` in the export address table: `ord - Base as u16`, wrapping. */
  function OrdinalIndex(d: ExportDirectory, ord: u16): u16
  {
    Wrap16(ord - d.image.Base % 0x1_0000)
  }

  /** The ordinal of export address table index `i`: `Base + i`, as a u16. */
  function OrdinalOf(d: ExportDirectory, i: u16): u16
  {
    Wrap16(d.image.Base + i)
  }

  /** The index of ordinal `Base + i` is `i`, for every u16 index. */
  lemma OrdinalIndexInverts(d: ExportDirectory, i: u16)
    ensures OrdinalIndex(d, OrdinalOf(d, i)) == i
  {
    var b := d.image.Base % 0x1_0000;
    assert d.image.Base == d.image.Base / 0x1_0000 * 0x1_0000 + b;
    var o := Wrap16(d.image.Base + i);
    if b + i < 0x1_0000 {
      assert o == b + i;
    } else {
      assert o == b + i - 0x1_0000;
    }
  }

  /** Every ordinal is `Base + i` for its index `i`: the index maps back to the ordinal. */
  lemma OrdinalOfInverts(d: ExportDirectory, ord: u16)
    ensures OrdinalOf(d, OrdinalIndex(d, ord)) == ord
  {
    var b := d.image.Base % 0x1_0000;
    assert d.image.Base == d.image.Base / 0x1_0000 * 0x1_0000 + b;
    var k := OrdinalIndex(d, ord);
    if b <= ord {
      assert k == ord - b;
    } else {
      assert k == ord - b + 0x1_0000;
    }
  }

  /**
   * symbol_by_ordinal(): the export address table entry of the ordinal's
   * index, resolved; `Absent` without a table, past its end or for BADRVA.
   */
  function SymbolByOrdinal(d: ExportDirectory, ord: u16): (r: Outcome<Export>)
    ensures r.Panic? <==>
              Functions(d).Panic?
              || (&& Functions(d).value.Some?
                  && var f := Functions(d).value.value;
                     && OrdinalIndex(d, ord) < |f| && f[OrdinalIndex(d, ord)] != BADRVA
                     && SymbolFromRva(d, f[OrdinalIndex(d, ord)]).Panic?)
    ensures r.Done? && r.value != Absent ==>
              && Functions(d).Done? && Functions(d).value.Some?
              && var f := Functions(d).value.value;
                 && OrdinalIndex(d, ord) < |f|
                 && f[OrdinalIndex(d, ord)] != BADRVA
                 && SymbolFromRva(d, f[OrdinalIndex(d, ord)]) == r
  {
    var f :- Functions(d);
    if f.None? then Done(Absent)
    else
      var idx := OrdinalIndex(d, ord);
      if idx < |f.value| && f.value[idx] != BADRVA then SymbolFromRva(d, f.value[idx])
      else Done(Absent)
  }

  //---------------- Lookup by name

  /**
   * The scan of symbol_by_name from pair `i` on: read each name (a missing or
   * unterminated one panics); at the first name equal to `query` the paired
   * index selects the export address table entry, and a bad index or a
   * BADRVA entry gives `Absent` without looking further.
   */
  function NameScan(d: ExportDirectory, functions: seq<u32>, names: seq<u32>, indices: seq<int>,
                    query: seq<u8>, i: nat): Outcome<Export>
    decreases |names| - i
  {
    if i >= |names| || i >= |indices| then Done(Absent)
    else
      var s :- CStrAt(d.view.image, names[i]);
      if s.None? then Panic
      else if s.value == query then
        if 0 <= indices[i] < |functions| && functions[indices[i]] != BADRVA
        then SymbolFromRva(d, functions[indices[i]])
        else Done(Absent)
      else NameScan(d, functions, names, indices, query, i + 1)
  }

  /**
   * A present result of the scan is the symbol of a pair at or after `i`
   * whose name equals the query and whose index selects a non-zero entry.
   */
  lemma {:induction false} NameScanFound(d: ExportDirectory, functions: seq<u32>, names: seq<u32>, indices: seq<int>,
                                         query: seq<u8>, i: nat)
    requires NameScan(d, functions, names, indices, query, i).Done?
    requires NameScan(d, functions, names, indices, query, i).value != Absent
    ensures exists k :: i <= k < |names| && k < |indices| && 0 <= indices[k] < |functions|
                        && functions[indices[k]] != BADRVA
                        && CStrAt(d.view.image, names[k]) == Done(Some(query))
                        && SymbolFromRva(d, functions[indices[k]]) == NameScan(d, functions, names, indices, query, i)
    decreases |names| - i
  {
    var s := CStrAt(d.view.image, names[i]);
    if s.value.value != query {
      NameScanFound(d, functions, names, indices, query, i + 1);
    }
  }

  /** The loop of symbol_by_name over the zipped name and index tables. */
  method ScanNames(d: ExportDirectory, functions: seq<u32>, names: seq<u32>, indices: seq<int>, query: seq<u8>)
      returns (r: Outcome<Export>)
    ensures r == NameScan(d, functions, names, indices, query, 0)
  {
    var i := 0;
    while i < |names| && i < |indices|
      invariant i <= |names|
      invariant NameScan(d, functions, names, indices, query, i) == NameScan(d, functions, names, indices, query, 0)
    {
      var s := ReadStr(d.view, names[i]);
      if s.Panic? || s.value.None? {
        return Panic;
      }
      if s.value.value == query {
        var idx := indices[i];
        if 0 <= idx < |functions| && functions[idx] != BADRVA {
          return SymbolFromRva(d, functions[idx]);
        }
        return Done(Absent);
      }
      i := i + 1;
    }
    return Done(Absent);
  }

  /**
   * symbol_by_name() as written: the tables it zips are names() and names()
   * again, so each name's own RVA is taken as its export address table index.
   * Each table is read only when the one before it is present.
   */
  function SymbolByNameAsWritten(d: ExportDirectory, query: seq<u8>): (r: Outcome<Export>)
    ensures Functions(d) == Done(None) ==> r == Done(Absent)
    ensures Functions(d).Done? && Functions(d).value.Some? && Names(d) == Done(None) ==> r == Done(Absent)
    ensures r.Done? && r.value != Absent ==>
              && Functions(d).Done? && Functions(d).value.Some? && Names(d).Done? && Names(d).value.Some?
  {
    var f :- Functions(d);
    if f.None? then Done(Absent)
    else
      var n :- Names(d);
      if n.None? then Done(Absent)
      else
        // names() a second time where name_indices() was meant
        match Names(d)
        case Panic => Panic
        case Done(n2) =>
          if n2.None? then Done(Absent)
          else NameScan(d, f.value, n.value, n2.value, query, 0)
  }

  /**
   * symbol_by_name() with the name index table zipped to the names, as its
   * documentation intends; the tables are read in the same nested order.
   */
  function SymbolByName(d: ExportDirectory, query: seq<u8>): (r: Outcome<Export>)
    ensures Functions(d) == Done(None) ==> r == Done(Absent)
    ensures Functions(d).Done? && Functions(d).value.Some? && Names(d) == Done(None) ==> r == Done(Absent)
    ensures (&& Functions(d).Done? && Functions(d).value.Some? && Names(d).Done? && Names(d).value.Some?
             && NameIndices(d) == Done(None)) ==> r == Done(Absent)
    ensures r.Done? && r.value != Absent ==>
              && Functions(d).Done? && Functions(d).value.Some?
              && Names(d).Done? && Names(d).value.Some?
              && NameIndices(d).Done? && NameIndices(d).value.Some?
  {
    var f :- Functions(d);
    if f.None? then Done(Absent)
    else
      var n :- Names(d);
      if n.None? then Done(Absent)
      else
        var idx :- NameIndices(d);
        if idx.None? then Done(Absent)
        else NameScan(d, f.value, n.value, idx.value, query, 0)
  }

  /** Every name of pairs `j` up to `i` reads as a C string different from `query`. */
  predicate NamesDiffer(d: ExportDirectory, names: seq<u32>, query: seq<u8>, j: nat, i: nat)
    requires j <= i <= |names|
    decreases i - j
  {
    j == i || (NameDiffers(d, names[j], query) && NamesDiffer(d, names, query, j + 1, i))
  }

  /** The C string at `rva` reads and differs from `query`. */
  predicate NameDiffers(d: ExportDirectory, rva: u32, query: seq<u8>)
  {
    var s := CStrAt(d.view.image, rva);
    s.Done? && s.value.Some? && s.value.value != query
  }

  /** The scan reaches pair `i` when every earlier name reads and differs from the query. */
  lemma {:induction false} NameScanSkips(d: ExportDirectory, functions: seq<u32>, names: seq<u32>, indices: seq<int>,
                                         query: seq<u8>, j: nat, i: nat)
    requires j <= i <= |names| && i <= |indices|
    requires NamesDiffer(d, names, query, j, i)
    ensures NameScan(d, functions, names, indices, query, j) == NameScan(d, functions, names, indices, query, i)
    decreases i - j
  {
    if j < i {
      NameScanPasses(d, functions, names, indices, query, j);
      NameScanSkips(d, functions, names, indices, query, j + 1, i);
    }
  }

  /** A name that reads and differs from the query passes the scan on to the next pair. */
  lemma NameScanPasses(d: ExportDirectory, functions: seq<u32>, names: seq<u32>, indices: seq<int>,
                       query: seq<u8>, j: nat)
    requires j < |names| && j < |indices|
    requires NameDiffers(d, names[j], query)
    ensures NameScan(d, functions, names, indices, query, j) == NameScan(d, functions, names, indices, query, j + 1)
  {
  }

  /**
   * Looking a symbol up by name is looking up the ordinal `Base + index`,
   * where `index` is the name index paired with the first name equal to the
   * query.
   */
  lemma SymbolByNameIsByOrdinal(d: ExportDirectory, query: seq<u8>, i: nat)
    requires Functions(d).Done? && Functions(d).value.Some?
    requires Names(d).Done? && Names(d).value.Some?
    requires NameIndices(d).Done? && NameIndices(d).value.Some?
    requires i < d.image.NumberOfNames
    requires CStrAt(d.view.image, Names(d).value.value[i]) == Done(Some(query))
    requires NamesDiffer(d, Names(d).value.value, query, 0, i)
    ensures SymbolByName(d, query) == SymbolByOrdinal(d, OrdinalOf(d, NameIndices(d).value.value[i]))
  {
    var f, idx := Functions(d).value.value, NameIndices(d).value.value;
    var ord := OrdinalOf(d, idx[i]);
    var k := idx[i];
    var hit := if k < |f| && f[k] != BADRVA then SymbolFromRva(d, f[k]) else Done(Absent);
    OrdinalIndexInverts(d, k);
    assert OrdinalIndex(d, ord) == k;
    SymbolByOrdinalUnfolds(d, ord);
    assert SymbolByOrdinal(d, ord) == hit;
    SymbolByNameHits(d, query, i);
    assert SymbolByName(d, query) == hit;
  }

  /** The first name equal to the query selects its paired entry of the export address table. */
  lemma SymbolByNameHits(d: ExportDirectory, query: seq<u8>, i: nat)
    requires Functions(d).Done? && Functions(d).value.Some?
    requires Names(d).Done? && Names(d).value.Some?
    requires NameIndices(d).Done? && NameIndices(d).value.Some?
    requires i < d.image.NumberOfNames
    requires CStrAt(d.view.image, Names(d).value.value[i]) == Done(Some(query))
    requires NamesDiffer(d, Names(d).value.value, query, 0, i)
    ensures var f, k := Functions(d).value.value, NameIndices(d).value.value[i];
            SymbolByName(d, query) == if k < |f| && f[k] != BADRVA then SymbolFromRva(d, f[k]) else Done(Absent)
  {
    var f, n, idx := Functions(d).value.value, Names(d).value.value, NameIndices(d).value.value;
    NameScanSkips(d, f, n, idx, query, 0, i);
    SymbolByNameUnfolds(d, query);
  }

  /** With all three tables present, symbol_by_name is the scan from the first pair. */
  lemma SymbolByNameUnfolds(d: ExportDirectory, query: seq<u8>)
    requires Functions(d).Done? && Functions(d).value.Some?
    requires Names(d).Done? && Names(d).value.Some?
    requires NameIndices(d).Done? && NameIndices(d).value.Some?
    ensures SymbolByName(d, query)
            == NameScan(d, Functions(d).value.value, Names(d).value.value, NameIndices(d).value.value, query, 0)
  {
  }

  /** With the export address table present, symbol_by_ordinal resolves the ordinal's entry. */
  lemma SymbolByOrdinalUnfolds(d: ExportDirectory, ord: u16)
    requires Functions(d).Done? && Functions(d).value.Some?
    ensures var f := Functions(d).value.value;
            var k := OrdinalIndex(d, ord);
            SymbolByOrdinal(d, ord) == if k < |f| && f[k] != BADRVA then SymbolFromRva(d, f[k]) else Done(Absent)
  {
  }

  /** An image where symbol_by_name as written misses an export that the index table names. */
  function MissedExport(): ExportDirectory
  {
    ExportDirectory(
      PeView([0, 0, 0, 0,  0x10, 0, 0, 0,  16, 0, 0, 0,  0, 0, 0, 0,  0x41, 0], 0, PE64),
      DataDir(0x100, 0),
      ImageExportDirectory(0, 1, 1, 1, 4, 8, 12))
  }

  /**
   * In MissedExport the one name "A" has index 0, whose entry is the symbol
   * at RVA 0x10; the written lookup treats the name's RVA 16 as the index
   * and finds nothing.
   */
  lemma SymbolByNameAsWrittenMisses()
    ensures SymbolByNameAsWritten(MissedExport(), [0x41]) == Done(Absent)
    ensures SymbolByName(MissedExport(), [0x41]) == Done(Symbol(0x10))
    ensures SymbolByOrdinal(MissedExport(), 1) == Done(Symbol(0x10))
  {
    MissedAsWritten();
    MissedCorrected();
    MissedByOrdinal();
  }

  lemma MissedAsWritten()
    ensures SymbolByNameAsWritten(MissedExport(), [0x41]) == Done(Absent)
  {
    MissedTables();
    MissedByWrittenScan();
  }

  lemma MissedCorrected()
    ensures SymbolByName(MissedExport(), [0x41]) == Done(Symbol(0x10))
  {
    MissedTables();
    MissedByIndexScan();
  }

  lemma MissedByOrdinal()
    ensures SymbolByOrdinal(MissedExport(), 1) == Done(Symbol(0x10))
  {
    MissedTables();
    assert OrdinalIndex(MissedExport(), 1) == 0;
    assert !IsForwarded(MissedExport(), 0x10);
  }

  /** Zipping the names with themselves, the name "A" selects index 16, past the one entry. */
  lemma MissedByWrittenScan()
    ensures NameScan(MissedExport(), [0x10], [16], [16], [0x41], 0) == Done(Absent)
  {
    MissedName();
  }

  /** Zipping the names with the index table, the name "A" selects entry 0, the symbol at 0x10. */
  lemma MissedByIndexScan()
    ensures NameScan(MissedExport(), [0x10], [16], [0], [0x41], 0) == Done(Symbol(0x10))
  {
    MissedName();
    assert !IsForwarded(MissedExport(), 0x10);
  }

  /** The three tables of MissedExport: one function at 0x10, one name at 16, index 0. */
  lemma MissedTables()
    ensures Functions(MissedExport()) == Done(Some([0x10]))
    ensures Names(MissedExport()) == Done(Some([16]))
    ensures NameIndices(MissedExport()) == Done(Some([0]))
  {
    var img := MissedExport().view.image;
    assert U32At(img, 4) == 0x10 && U32At(img, 8) == 16 && U16At(img, 12) == 0;
    var f := Functions(MissedExport()).value.value;
    assert f == [0x10] by { assert |f| == 1 && f[0] == 0x10; }
    var n := Names(MissedExport()).value.value;
    assert n == [16] by { assert |n| == 1 && n[0] == 16; }
    var ni := NameIndices(MissedExport()).value.value;
    assert ni == [0] by { assert |ni| == 1 && ni[0] == 0; }
  }

  /** The name at RVA 16 of MissedExport is "A". */
  lemma MissedName()
    ensures CStrAt(MissedExport().view.image, 16) == Done(Some([0x41]))
  {
    var img := MissedExport().view.image;
    assert NulFrom(img, 16) == Some(17);
    assert img[16..17] == [0x41];
  }

  //---------------- Name of an ordinal

  /**
   * The scan of name_from_ordinal from pair `i` on: the first name whose
   * index is the ordinal's index names it; without one the export has no
   * name. The symbol is resolved in either case.
   */
  function OrdinalScan(d: ExportDirectory, ord: u16, idx: u16, rva: u32, names: seq<u32>, indices: seq<u16>, i: nat)
      : (r: Outcome<NamedExport>)
    decreases |names| - i
    ensures r.Done? ==> r.value.ord == ord && SymbolFromRva(d, rva) == Done(r.value.symbol)
  {
    if i >= |names| || i >= |indices| then
      var sym :- SymbolFromRva(d, rva);
      Done(NamedExport(ord, sym, None))
    else if idx == indices[i] then
      var sym :- SymbolFromRva(d, rva);
      var s :- CStrAt(d.view.image, names[i]);
      if s.None? then Panic else Done(NamedExport(ord, sym, Some(s.value)))
    else OrdinalScan(d, ord, idx, rva, names, indices, i + 1)
  }

  /** A name the scan reports belongs to the first pair from `i` on whose index is `idx`. */
  lemma {:induction false} OrdinalScanNamed(d: ExportDirectory, ord: u16, idx: u16, rva: u32,
                                            names: seq<u32>, indices: seq<u16>, i: nat)
    requires OrdinalScan(d, ord, idx, rva, names, indices, i).Done?
    requires OrdinalScan(d, ord, idx, rva, names, indices, i).value.name.Some?
    ensures exists k :: && i <= k < |names| && k < |indices| && indices[k] == idx
                        && CStrAt(d.view.image, names[k]) == Done(OrdinalScan(d, ord, idx, rva, names, indices, i).value.name)
                        && forall j :: i <= j < k ==> indices[j] != idx
    decreases |names| - i
  {
    if idx != indices[i] {
      OrdinalScanNamed(d, ord, idx, rva, names, indices, i + 1);
    }
  }

  /** The scan reports no name only when no pair from `i` on has index `idx`. */
  lemma {:induction false} OrdinalScanUnnamed(d: ExportDirectory, ord: u16, idx: u16, rva: u32,
                                              names: seq<u32>, indices: seq<u16>, i: nat)
    requires OrdinalScan(d, ord, idx, rva, names, indices, i).Done?
    requires OrdinalScan(d, ord, idx, rva, names, indices, i).value.name.None?
    ensures forall j :: i <= j < |names| && j < |indices| ==> indices[j] != idx
    decreases |names| - i
  {
    if i < |names| && i < |indices| {
      OrdinalScanUnnamed(d, ord, idx, rva, names, indices, i + 1);
    }
  }

  /** The loop of name_from_ordinal over the zipped name and index tables. */
  method ScanOrdinals(d: ExportDirectory, ord: u16, idx: u16, rva: u32, names: seq<u32>, indices: seq<u16>)
      returns (r: Outcome<NamedExport>)
    ensures r == OrdinalScan(d, ord, idx, rva, names, indices, 0)
  {
    var i := 0;
    while i < |names| && i < |indices|
      invariant i <= |names|
      invariant OrdinalScan(d, ord, idx, rva, names, indices, i) == OrdinalScan(d, ord, idx, rva, names, indices, 0)
    {
      if idx == indices[i] {
        var sym := SymbolFromRva(d, rva);
        if sym.Panic? {
          return Panic;
        }
        var s := ReadStr(d.view, names[i]);
        if s.Panic? || s.value.None? {
          return Panic;
        }
        return Done(NamedExport(ord, sym.value, Some(s.value.value)));
      }
      i := i + 1;
    }
    var sym := SymbolFromRva(d, rva);
    if sym.Panic? {
      return Panic;
    }
    return Done(NamedExport(ord, sym.value, None));
  }

  /**
   * name_from_ordinal(): the ordinal, its resolved symbol and the name that
   * the index table gives it; `Absent` and no name when the ordinal has no
   * symbol.
   */
  function NameFromOrdinal(d: ExportDirectory, ord: u16): (r: Outcome<NamedExport>)
    ensures r.Done? ==> r.value.ord == ord
  {
    var f :- Functions(d);
    if f.None? then Done(NamedExport(ord, Absent, None))
    else
      var idx := OrdinalIndex(d, ord);
      if !(idx < |f.value| && f.value[idx] != BADRVA) then Done(NamedExport(ord, Absent, None))
      else
        var ni :- NameIndices(d);
        var n :- if ni.Some? then Names(d) else Done(None);
        if ni.None? || n.None? then
          var sym :- SymbolFromRva(d, f.value[idx]);
          Done(NamedExport(ord, sym, None))
        else OrdinalScan(d, ord, idx, f.value[idx], n.value, ni.value, 0)
  }

  /** name_from_ordinal() resolves the same symbol as symbol_by_ordinal(). */
  lemma NameFromOrdinalAgrees(d: ExportDirectory, ord: u16)
    requires NameFromOrdinal(d, ord).Done?
    ensures SymbolByOrdinal(d, ord) == Done(NameFromOrdinal(d, ord).value.symbol)
  {
  }

  /**
   * A name that name_from_ordinal() reports belongs to the first pair whose
   * index entry is the ordinal's index.
   */
  lemma NameFromOrdinalNamed(d: ExportDirectory, ord: u16)
    requires NameFromOrdinal(d, ord).Done? && NameFromOrdinal(d, ord).value.name.Some?
    ensures Names(d).Done? && Names(d).value.Some? && NameIndices(d).Done? && NameIndices(d).value.Some?
    ensures exists k :: && 0 <= k < d.image.NumberOfNames
                        && NameIndices(d).value.value[k] == OrdinalIndex(d, ord)
                        && CStrAt(d.view.image, Names(d).value.value[k]) == Done(NameFromOrdinal(d, ord).value.name)
                        && forall j :: 0 <= j < k ==> NameIndices(d).value.value[j] != OrdinalIndex(d, ord)
  {
    var f := Functions(d).value.value;
    var idx := OrdinalIndex(d, ord);
    OrdinalScanNamed(d, ord, idx, f[idx], Names(d).value.value, NameIndices(d).value.value, 0);
  }

  /**
   * When the ordinal has a symbol and both name tables are present,
   * name_from_ordinal() reports no name only if no index entry is the
   * ordinal's index.
   */
  lemma NameFromOrdinalUnnamed(d: ExportDirectory, ord: u16)
    requires NameFromOrdinal(d, ord).Done? && NameFromOrdinal(d, ord).value.name.None?
    requires Functions(d).Done? && Functions(d).value.Some?
    requires OrdinalIndex(d, ord) < |Functions(d).value.value|
    requires Functions(d).value.value[OrdinalIndex(d, ord)] != BADRVA
    requires Names(d).Done? && Names(d).value.Some? && NameIndices(d).Done? && NameIndices(d).value.Some?
    ensures forall j :: 0 <= j < d.image.NumberOfNames ==> NameIndices(d).value.value[j] != OrdinalIndex(d, ord)
  {
    var f := Functions(d).value.value;
    var idx := OrdinalIndex(d, ord);
    OrdinalScanUnnamed(d, ord, idx, f[idx], Names(d).value.value, NameIndices(d).value.value, 0);
  }

  //---------------- Iteration over the ordinals

  /**
   * One step of ExportIterator: below `NumberOfFunctions` the cursor yields
   * the ordinal `it + (Base & 0xFFFF)` and advances, both wrapping at 16 bits.
   */
  function ExportStep(d: ExportDirectory, it: u16): Option<(u16, u16)>
  {
    if it >= d.image.NumberOfFunctions then None
    else Some((Wrap16(it + d.image.Base % 0x1_0000), Wrap16(it + 1)))
  }

  /** The ordinal a step yields is `Base + it`, and it maps back to the cursor's entry. */
  lemma ExportStepOrdinal(d: ExportDirectory, it: u16)
    requires it < d.image.NumberOfFunctions
    ensures ExportStep(d, it).Some?
    ensures ExportStep(d, it).value.0 == OrdinalOf(d, it)
    ensures OrdinalIndex(d, ExportStep(d, it).value.0) == it
  {
    WrapBase(d.image.Base, it);
    OrdinalIndexInverts(d, it);
  }

  class ExportIterator {
    const dir: ExportDirectory
    var it: u16

    /** iter(): the cursor starts at the first entry. */
    constructor (d: ExportDirectory)
      ensures dir == d && it == 0
    {
      dir := d;
      it := 0;
    }

    method Next() returns (r: Option<u16>)
      modifies this
      ensures match ExportStep(dir, old(it))
              case None => r == None && it == old(it)
              case Some(p) => r == Some(p.0) && it == p.1
    {
      if it >= dir.image.NumberOfFunctions {
        return None;
      }
      var ord := Wrap16(it + dir.image.Base % 0x1_0000);
      it := Wrap16(it + 1);
      return Some(ord);
    }
  }

  /** The ordinals the iterator yields from cursor `it` on, while the cursor does not wrap. */
  function OrdinalsFrom(d: ExportDirectory, it: u16): (r: seq<u16>)
    requires d.image.NumberOfFunctions <= 0xFFFF
    decreases d.image.NumberOfFunctions - it
  {
    match ExportStep(d, it)
    case None => []
    case Some(p) => [p.0] + OrdinalsFrom(d, p.1)
  }

  /**
   * With fewer than 0x10000 functions a fresh iterator yields exactly one
   * ordinal per export address table entry: `Base + i` for entry `i`, and
   * each maps back to its entry.
   */
  lemma {:induction false} OrdinalsFromAll(d: ExportDirectory, it: u16)
    requires d.image.NumberOfFunctions <= 0xFFFF
    ensures it <= d.image.NumberOfFunctions ==> |OrdinalsFrom(d, it)| == d.image.NumberOfFunctions - it
    ensures forall i :: 0 <= i < |OrdinalsFrom(d, it)| ==>
              OrdinalsFrom(d, it)[i] == Wrap16(d.image.Base + it + i)
              && OrdinalIndex(d, OrdinalsFrom(d, it)[i]) == it + i
    decreases d.image.NumberOfFunctions - it
  {
    if it < d.image.NumberOfFunctions {
      var s, rest := OrdinalsFrom(d, it), OrdinalsFrom(d, it + 1);
      OrdinalsFromAll(d, it + 1);
      OrdinalsFromCons(d, it);
      forall i | 0 <= i < |s|
        ensures s[i] == Wrap16(d.image.Base + it + i) && OrdinalIndex(d, s[i]) == it + i
      {
        if i > 0 {
          assert s[i] == rest[i - 1];
        }
      }
    }
  }

  /** A fresh step yields `Base + it`, which maps back to `it`, and the rest follows from `it + 1`. */
  lemma OrdinalsFromCons(d: ExportDirectory, it: u16)
    requires d.image.NumberOfFunctions <= 0xFFFF && it < d.image.NumberOfFunctions
    ensures OrdinalsFrom(d, it) == [OrdinalOf(d, it)] + OrdinalsFrom(d, it + 1)
    ensures OrdinalIndex(d, OrdinalOf(d, it)) == it
  {
    ExportStepOrdinal(d, it);
    assert ExportStep(d, it).value.1 == it + 1;
  }

  /** Truncating Base before the wrapping add gives the same u16. */
  lemma WrapBase(base: u32, k: nat)
    ensures Wrap16(k + base % 0x1_0000) == Wrap16(base + k)
  {
    assert base == base / 0x1_0000 * 0x1_0000 + base % 0x1_0000;
  }
}
