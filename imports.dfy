/**
 * The import directory of a PE32 image: a run of 20-byte import descriptors
 * ended by an all-zero one; each descriptor names a DLL and points at two
 * parallel zero-terminated arrays of 32-bit thunks, the import name table
 * (how each symbol is imported: by ordinal when bit 31 is set, otherwise
 * through a hint/name record) and the import address table.
 */
module Imports {
  import opened Bytes
  import opened Image
  import opened View

  /** How a symbol is imported: by hint and name, or by ordinal. */
  datatype ImportedSymbol = ByName(hint: u16, name: seq<u8>) | ByOrdinal(ord: u16)

  /** The view and the import data directory entry. */
  datatype ImportDirectory = ImportDirectory(view: PeView, datadir: DataDir)

  datatype ImageImportDescriptor = ImageImportDescriptor(
    OriginalFirstThunk: u32, TimeDateStamp: u32, ForwarderChain: u32, Name: u32, FirstThunk: u32)

  function ParseImportDescriptor(b: seq<u8>, off: nat): ImageImportDescriptor
    requires off + IMPORT_DESCRIPTOR_SIZE <= |b|
  {
    ImageImportDescriptor(
      U32At(b, off + IMP_ORIGINAL_FIRST_THUNK), U32At(b, off + IMP_TIME_DATE_STAMP),
      U32At(b, off + IMP_FORWARDER_CHAIN), U32At(b, off + IMP_NAME), U32At(b, off + IMP_FIRST_THUNK))
  }

  /** A descriptor together with the view it was read from. */
  datatype ImportDescriptor = ImportDescriptor(view: PeView, image: ImageImportDescriptor)

  /** Width of a PE32 Va, the element of both thunk arrays. */
  const THUNK_SIZE: nat := 4
  const BADVA: u32 := 0

  /**
   * imports(): `None` without an import data directory entry or when its
   * RVA is BADRVA; nothing is read until the descriptors are iterated.
   */
  function Imports(v: PeView): (r: Option<ImportDirectory>)
    requires ValidView(v) && v.width == PE32
    ensures r.None? <==>
              NumberOfRvaAndSizes(v) <= DIRECTORY_ENTRY_IMPORT
              || DataDirectory(v)[DIRECTORY_ENTRY_IMPORT].VirtualAddress == BADRVA
    ensures r.Some? ==> r.value.view == v && r.value.datadir == DataDirectory(v)[DIRECTORY_ENTRY_IMPORT]
  {
    match DirectoryEntry(v, DIRECTORY_ENTRY_IMPORT)
    case None => None
    case Some(dd) => if dd.VirtualAddress == BADRVA then None else Some(ImportDirectory(v, dd))
  }

  //---------------- Import descriptors

  /** The terminating descriptor: all five fields zero. */
  predicate IsSentinel(d: ImageImportDescriptor)
  {
    && d.OriginalFirstThunk == BADRVA && d.TimeDateStamp == BADRVA && d.ForwarderChain == BADRVA
    && d.Name == BADRVA && d.FirstThunk == BADRVA
  }

  /** The `k`-th descriptor record of the run that starts at `start`. */
  function DescriptorAt(image: seq<u8>, start: nat, k: nat): ImageImportDescriptor
    requires start + IMPORT_DESCRIPTOR_SIZE * (k + 1) <= |image|
  {
    ParseImportDescriptor(image, start + IMPORT_DESCRIPTOR_SIZE * k)
  }

  /**
   * One step of ImportDescriptorIterator at cursor `it`: the record must
   * fit the image (a panic otherwise, also for BADRVA); the sentinel ends
   * the run; any other record is yielded and the cursor moves past it.
   */
  function DescriptorStep(v: PeView, it: u32): (r: Outcome<Option<(ImageImportDescriptor, u32)>>)
    ensures r.Panic? <==> it == BADRVA || it + IMPORT_DESCRIPTOR_SIZE > |v.image|
    ensures r.Done? ==>
              && it + IMPORT_DESCRIPTOR_SIZE <= |v.image|
              && (r.value.None? <==> IsSentinel(ParseImportDescriptor(v.image, it)))
    ensures r.Done? && r.value.Some? ==>
              && r.value.value.0 == ParseImportDescriptor(v.image, it)
              && r.value.value.1 == Wrap32(it + IMPORT_DESCRIPTOR_SIZE)
  {
    var rec :- ReadStruct(v, it, IMPORT_DESCRIPTOR_SIZE, 1);
    match rec
    case None => Panic
    case Some(_) =>
      var desc := ParseImportDescriptor(v.image, it);
      if IsSentinel(desc) then Done(None)
      else Done(Some((desc, Wrap32(it + IMPORT_DESCRIPTOR_SIZE))))
  }

  /**
   * Everything the descriptor iterator yields from cursor `it`: the records
   * before the first sentinel, or a panic when the image ends first.
   */
  function Descriptors(v: PeView, it: u32): (r: Outcome<seq<ImportDescriptor>>)
    requires |v.image| <= 0xFFFF_FFFF
    decreases |v.image| - it
    ensures r.Done? ==>
              && it != BADRVA
              && it + IMPORT_DESCRIPTOR_SIZE * (|r.value| + 1) <= |v.image|
              && (forall k :: 0 <= k < |r.value| ==>
                    r.value[k] == ImportDescriptor(v, DescriptorAt(v.image, it, k)) && !IsSentinel(r.value[k].image))
              && IsSentinel(DescriptorAt(v.image, it, |r.value|))
    ensures r.Panic? ==> it == BADRVA || NoSentinelFrom(v.image, it)
  {
    match DescriptorStep(v, it)
    case Panic => Panic
    case Done(None) => Done([])
    case Done(Some(p)) =>
      Wrap32InRange(it + IMPORT_DESCRIPTOR_SIZE);
      var rest := Descriptors(v, p.1);
      match rest
      case Panic =>
        NoSentinelBefore(v.image, it);
        Panic
      case Done(tail) =>
        RunExtends(v, it, tail);
        Done([ImportDescriptor(v, p.0)] + tail)
  }

  /** A run that is not a sentinel at `start`, followed by the run `tail`, is the longer run. */
  lemma RunExtends(v: PeView, start: nat, tail: seq<ImportDescriptor>)
    requires start + IMPORT_DESCRIPTOR_SIZE * (|tail| + 2) <= |v.image|
    requires !IsSentinel(ParseImportDescriptor(v.image, start))
    requires forall k :: 0 <= k < |tail| ==>
               tail[k] == ImportDescriptor(v, DescriptorAt(v.image, start + IMPORT_DESCRIPTOR_SIZE, k))
               && !IsSentinel(tail[k].image)
    requires IsSentinel(DescriptorAt(v.image, start + IMPORT_DESCRIPTOR_SIZE, |tail|))
    ensures var r := [ImportDescriptor(v, ParseImportDescriptor(v.image, start))] + tail;
            && (forall k :: 0 <= k < |r| ==>
                  r[k] == ImportDescriptor(v, DescriptorAt(v.image, start, k)) && !IsSentinel(r[k].image))
            && IsSentinel(DescriptorAt(v.image, start, |r|))
  {
    var r := [ImportDescriptor(v, ParseImportDescriptor(v.image, start))] + tail;
    forall k | 0 <= k < |r|
      ensures r[k] == ImportDescriptor(v, DescriptorAt(v.image, start, k)) && !IsSentinel(r[k].image)
    {
      if k > 0 {
        assert r[k] == tail[k - 1];
        assert DescriptorAt(v.image, start, k) == DescriptorAt(v.image, start + IMPORT_DESCRIPTOR_SIZE, k - 1);
      }
    }
    assert DescriptorAt(v.image, start, |r|) == DescriptorAt(v.image, start + IMPORT_DESCRIPTOR_SIZE, |tail|);
  }

  /** No full record of the run from `start` on is a sentinel. */
  ghost predicate NoSentinelFrom(image: seq<u8>, start: nat)
  {
    forall k: nat :: start + IMPORT_DESCRIPTOR_SIZE * (k + 1) <= |image| ==> !IsSentinel(DescriptorAt(image, start, k))
  }

  /** A record that is not a sentinel, followed by a run without one, starts a run without one. */
  lemma NoSentinelBefore(image: seq<u8>, start: nat)
    requires start + IMPORT_DESCRIPTOR_SIZE <= |image|
    requires !IsSentinel(ParseImportDescriptor(image, start))
    requires NoSentinelFrom(image, start + IMPORT_DESCRIPTOR_SIZE)
    ensures NoSentinelFrom(image, start)
  {
    forall k: nat | start + IMPORT_DESCRIPTOR_SIZE * (k + 1) <= |image|
      ensures !IsSentinel(DescriptorAt(image, start, k))
    {
      if k > 0 {
        assert DescriptorAt(image, start, k) == DescriptorAt(image, start + IMPORT_DESCRIPTOR_SIZE, k - 1);
      }
    }
  }

  class ImportDescriptorIterator {
    const view: PeView
    var it: u32

    /** iter(): the cursor starts at the import directory's RVA. */
    constructor (dir: ImportDirectory)
      ensures view == dir.view && it == dir.datadir.VirtualAddress
    {
      view := dir.view;
      it := dir.datadir.VirtualAddress;
    }

    method Next() returns (r: Outcome<Option<ImportDescriptor>>)
      modifies this
      ensures match DescriptorStep(view, old(it))
              case Panic => r.Panic?
              case Done(None) => r == Done(None) && it == old(it)
              case Done(Some(p)) => r == Done(Some(ImportDescriptor(view, p.0))) && it == p.1
    {
      var rec := ReadStruct(view, it, IMPORT_DESCRIPTOR_SIZE, 1);
      if rec.Panic? || rec.value.None? {
        return Panic;
      }
      var desc := ParseImportDescriptor(view.image, it);
      if IsSentinel(desc) {
        return Done(None);
      }
      it := Wrap32(it + IMPORT_DESCRIPTOR_SIZE);
      return Done(Some(ImportDescriptor(view, desc)));
    }

    /** A `for` loop over the iterator: every descriptor up to the sentinel. */
    method Collect() returns (r: Outcome<seq<ImportDescriptor>>)
      requires |view.image| <= 0xFFFF_FFFF
      modifies this
      ensures r == Descriptors(view, old(it))
    {
      ghost var start := it;
      var acc: seq<ImportDescriptor> := [];
      PrependNothing(Descriptors(view, it));
      while true
        invariant Descriptors(view, start) == Prepend(acc, Descriptors(view, it))
        decreases |view.image| - it
      {
        ghost var before := it;
        var step := Next();
        match step
        case Panic =>
          assert Descriptors(view, before).Panic?;
          return Panic;
        case Done(None) =>
          assert Descriptors(view, before) == Done([]);
          assert acc + [] == acc;
          return Done(acc);
        case Done(Some(d)) =>
          Wrap32InRange(before + IMPORT_DESCRIPTOR_SIZE);
          PrependStep(acc, d, Descriptors(view, it));
          acc := acc + [d];
      }
    }
  }

  /** dll_name(): the descriptor's DLL name; a panic when it is missing or unterminated. */
  function DllName(d: ImportDescriptor): (r: Outcome<seq<u8>>)
    ensures r.Done? <==> CStrAt(d.view.image, d.image.Name).Done? && CStrAt(d.view.image, d.image.Name).value.Some?
    ensures r.Done? ==> CStrAt(d.view.image, d.image.Name) == Done(Some(r.value))
  {
    var s :- CStrAt(d.view.image, d.image.Name);
    match s
    case None => Panic
    case Some(name) => Done(name)
  }

  //---------------- Thunks

  /** The `k`-th thunk of the array that starts at `start`. */
  function ThunkAt(image: seq<u8>, start: nat, k: nat): u32
    requires start + THUNK_SIZE * (k + 1) <= |image|
  {
    U32At(image, start + THUNK_SIZE * k)
  }

  /**
   * The symbol a non-zero import name table entry describes: with bit 31
   * set, the ordinal in its low 16 bits; otherwise the RVA of a u16 hint
   * (2-byte aligned) followed by the name, both read with a panic on failure.
   */
  function ThunkSymbol(v: PeView, va: u32): (r: Outcome<ImportedSymbol>)
    ensures r.Done? ==> (r.value.ByOrdinal? <==> va >= ORDINAL_FLAG32)
    ensures r.Done? && r.value.ByOrdinal? ==> va == va / 0x1_0000 * 0x1_0000 + r.value.ord
    ensures r.Done? && r.value.ByName? ==>
              && va + 2 <= |v.image| && va % 2 == 0
              && r.value.hint == U16At(v.image, va)
              && CStrAt(v.image, va + 2) == Done(Some(r.value.name))
    ensures r.Panic? <==>
              && va < ORDINAL_FLAG32
              && (va == BADRVA || va + 2 > |v.image| || va % 2 != 0 || CStrAt(v.image, va + 2).Panic?)
  {
    if va < ORDINAL_FLAG32 then
      var h :- ReadStruct(v, va, 2, 2);
      match h
      case None => Panic
      case Some(_) =>
        var name :- CStrAt(v.image, va + 2);
        match name
        case None => Panic
        case Some(s) => Done(ByName(U16At(v.image, va), s))
    else Done(ByOrdinal(va % 0x1_0000))
  }

  /** An import by ordinal is the flag bit plus the ordinal, and decodes back to it. */
  lemma OrdinalThunkRoundTrip(v: PeView, ord: u16)
    ensures ThunkSymbol(v, ORDINAL_FLAG32 + ord) == Done(ByOrdinal(ord))
  {
  }

  /**
   * One step of ImportTableIterator at cursor `it`: a 4-byte aligned u32
   * that must fit the image; zero ends the table, anything else is yielded.
   */
  function TableStep(v: PeView, it: u32): (r: Outcome<Option<(u32, u32)>>)
    ensures r.Panic? <==> it == BADRVA || it + THUNK_SIZE > |v.image| || it % THUNK_SIZE != 0
    ensures r.Done? ==> it + THUNK_SIZE <= |v.image| && (r.value.None? <==> U32At(v.image, it) == BADVA)
    ensures r.Done? && r.value.Some? ==>
              r.value.value.0 == U32At(v.image, it) && r.value.value.1 == Wrap32(it + THUNK_SIZE)
  {
    var rec :- ReadStruct(v, it, THUNK_SIZE, THUNK_SIZE);
    match rec
    case None => Panic
    case Some(_) =>
      var va := U32At(v.image, it);
      if va == BADVA then Done(None) else Done(Some((va, Wrap32(it + THUNK_SIZE))))
  }

  /**
   * One step of ImportNameIterator: the same read as the address table, and
   * the entry's symbol decoded; the cursor has moved before the decoding panics.
   */
  function NameStep(v: PeView, it: u32): (r: Outcome<Option<(ImportedSymbol, u32)>>)
    ensures r.Done? ==> TableStep(v, it).Done?
    ensures r.Done? && r.value.None? <==> TableStep(v, it) == Done(None)
    ensures r.Done? && r.value.Some? ==>
              && TableStep(v, it).value.Some?
              && ThunkSymbol(v, TableStep(v, it).value.value.0) == Done(r.value.value.0)
              && r.value.value.1 == TableStep(v, it).value.value.1
    ensures TableStep(v, it).Done? && TableStep(v, it).value.Some? ==>
              (r.Panic? <==> ThunkSymbol(v, TableStep(v, it).value.value.0).Panic?)
  {
    var t :- TableStep(v, it);
    match t
    case None => Done(None)
    case Some(p) =>
      var sym :- ThunkSymbol(v, p.0);
      Done(Some((sym, p.1)))
  }

  /**
   * Everything the import address table iterator yields from `it`: the
   * non-zero entries before the first zero, or a panic when the array
   * leaves the image or is misaligned.
   */
  function TableThunks(v: PeView, it: u32): (r: Outcome<seq<u32>>)
    requires |v.image| <= 0xFFFF_FFFF
    decreases |v.image| - it
    ensures r.Done? ==>
              && it != BADRVA && it % THUNK_SIZE == 0
              && it + THUNK_SIZE * (|r.value| + 1) <= |v.image|
              && (forall k :: 0 <= k < |r.value| ==> r.value[k] == ThunkAt(v.image, it, k) && r.value[k] != BADVA)
              && ThunkAt(v.image, it, |r.value|) == BADVA
  {
    match TableStep(v, it)
    case Panic => Panic
    case Done(None) => Done([])
    case Done(Some(p)) =>
      Wrap32InRange(it + THUNK_SIZE);
      var rest := TableThunks(v, p.1);
      assert forall k: nat :: it + THUNK_SIZE * (k + 2) <= |v.image| ==>
               ThunkAt(v.image, p.1, k) == ThunkAt(v.image, it, k + 1);
      Prepend([p.0], rest)
  }

  /** Everything the import name table iterator yields from `it`. */
  function NameThunks(v: PeView, it: u32): (r: Outcome<seq<ImportedSymbol>>)
    requires |v.image| <= 0xFFFF_FFFF
    decreases |v.image| - it
  {
    match NameStep(v, it)
    case Panic => Panic
    case Done(None) => Done([])
    case Done(Some(p)) =>
      Wrap32InRange(it + THUNK_SIZE);
      Prepend([p.0], NameThunks(v, p.1))
  }

  /**
   * An array of `n` non-zero thunks followed by a zero one, aligned and
   * inside the image, yields exactly those `n` entries.
   */
  lemma {:induction false} TableThunksCount(v: PeView, it: u32, n: nat)
    requires |v.image| <= 0xFFFF_FFFF
    requires it != BADRVA && it % THUNK_SIZE == 0 && it + THUNK_SIZE * (n + 1) <= |v.image|
    requires forall k :: 0 <= k < n ==> ThunkAt(v.image, it, k) != BADVA
    requires ThunkAt(v.image, it, n) == BADVA
    ensures TableThunks(v, it).Done? && |TableThunks(v, it).value| == n
    decreases n
  {
    if n > 0 {
      Wrap32InRange(it + THUNK_SIZE);
      var next := it + THUNK_SIZE;
      forall k | 0 <= k < n - 1
        ensures ThunkAt(v.image, next, k) != BADVA
      {
        assert ThunkAt(v.image, next, k) == ThunkAt(v.image, it, k + 1);
      }
      assert ThunkAt(v.image, next, n - 1) == ThunkAt(v.image, it, n);
      TableThunksCount(v, next, n - 1);
    } else {
      assert ThunkAt(v.image, it, 0) == U32At(v.image, it);
    }
  }

  /**
   * The import name table iterator decodes exactly the entries the address
   * table iterator would yield from the same cursor: one symbol per entry,
   * in order.
   */
  lemma {:induction false} NameThunksDecodeTable(v: PeView, it: u32)
    requires |v.image| <= 0xFFFF_FFFF
    requires NameThunks(v, it).Done?
    ensures TableThunks(v, it).Done?
    ensures |TableThunks(v, it).value| == |NameThunks(v, it).value|
    ensures forall k :: 0 <= k < |NameThunks(v, it).value| ==>
              ThunkSymbol(v, TableThunks(v, it).value[k]) == Done(NameThunks(v, it).value[k])
    decreases |v.image| - it
  {
    match NameStep(v, it)
    case Panic =>
    case Done(None) =>
    case Done(Some(p)) =>
      Wrap32InRange(it + THUNK_SIZE);
      NameThunksDecodeTable(v, p.1);
  }

  /**
   * Conversely, when the address table iterator finishes from `it` and every
   * entry it yields decodes without a panic, the name table iterator
   * finishes from the same cursor too.
   */
  lemma {:induction false} NameThunksTotal(v: PeView, it: u32)
    requires |v.image| <= 0xFFFF_FFFF
    requires TableThunks(v, it).Done?
    requires forall k :: 0 <= k < |TableThunks(v, it).value| ==> ThunkSymbol(v, TableThunks(v, it).value[k]).Done?
    ensures NameThunks(v, it).Done?
    decreases |v.image| - it
  {
    match TableStep(v, it)
    case Panic =>
    case Done(None) =>
    case Done(Some(p)) =>
      Wrap32InRange(it + THUNK_SIZE);
      var rest := TableThunks(v, p.1);
      assert TableThunks(v, it).value == [p.0] + rest.value;
      assert ThunkSymbol(v, TableThunks(v, it).value[0]).Done?;
      forall k | 0 <= k < |rest.value|
        ensures ThunkSymbol(v, rest.value[k]).Done?
      {
        assert rest.value[k] == TableThunks(v, it).value[k + 1];
      }
      NameThunksTotal(v, p.1);
  }

  class ImportNameIterator {
    const view: PeView
    var it: u32

    /** int_iter(): the cursor starts at the descriptor's import name table. */
    constructor (desc: ImportDescriptor)
      ensures view == desc.view && it == desc.image.OriginalFirstThunk
    {
      view := desc.view;
      it := desc.image.OriginalFirstThunk;
    }

    method Next() returns (r: Outcome<Option<ImportedSymbol>>)
      modifies this
      ensures match NameStep(view, old(it))
              case Panic => r.Panic?
              case Done(None) => r == Done(None) && it == old(it)
              case Done(Some(p)) => r == Done(Some(p.0)) && it == p.1
    {
      var rec := ReadStruct(view, it, THUNK_SIZE, THUNK_SIZE);
      if rec.Panic? || rec.value.None? {
        return Panic;
      }
      var va := U32At(view.image, it);
      if va == BADVA {
        return Done(None);
      }
      it := Wrap32(it + THUNK_SIZE);
      if va < ORDINAL_FLAG32 {
        var hint := ReadStruct(view, va, 2, 2);
        if hint.Panic? || hint.value.None? {
          return Panic;
        }
        var name := ReadStr(view, va + 2);
        if name.Panic? || name.value.None? {
          return Panic;
        }
        return Done(Some(ByName(U16At(view.image, va), name.value.value)));
      }
      return Done(Some(ByOrdinal(va % 0x1_0000)));
    }

    /** A `for` loop over the iterator: every symbol up to the zero entry. */
    method Collect() returns (r: Outcome<seq<ImportedSymbol>>)
      requires |view.image| <= 0xFFFF_FFFF
      modifies this
      ensures r == NameThunks(view, old(it))
    {
      ghost var start := it;
      var acc: seq<ImportedSymbol> := [];
      PrependNothing(NameThunks(view, it));
      while true
        invariant NameThunks(view, start) == Prepend(acc, NameThunks(view, it))
        decreases |view.image| - it
      {
        ghost var before := it;
        var step := Next();
        match step
        case Panic =>
          assert NameThunks(view, before).Panic?;
          return Panic;
        case Done(None) =>
          assert NameThunks(view, before) == Done([]);
          assert acc + [] == acc;
          return Done(acc);
        case Done(Some(s)) =>
          Wrap32InRange(before + THUNK_SIZE);
          PrependStep(acc, s, NameThunks(view, it));
          acc := acc + [s];
      }
    }
  }

  class ImportTableIterator {
    const view: PeView
    var it: u32

    /** iat_iter(): the cursor starts at the descriptor's import address table. */
    constructor (desc: ImportDescriptor)
      ensures view == desc.view && it == desc.image.FirstThunk
    {
      view := desc.view;
      it := desc.image.FirstThunk;
    }

    method Next() returns (r: Outcome<Option<u32>>)
      modifies this
      ensures match TableStep(view, old(it))
              case Panic => r.Panic?
              case Done(None) => r == Done(None) && it == old(it)
              case Done(Some(p)) => r == Done(Some(p.0)) && it == p.1
    {
      var rec := ReadStruct(view, it, THUNK_SIZE, THUNK_SIZE);
      if rec.Panic? || rec.value.None? {
        return Panic;
      }
      var va := U32At(view.image, it);
      if va == BADVA {
        return Done(None);
      }
      it := Wrap32(it + THUNK_SIZE);
      return Done(Some(va));
    }
  }
}
