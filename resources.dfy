/**
 * The resource tree: a directory of entries, each either a subdirectory or a
 * data entry, named by a 16-bit id or a length-prefixed UTF-16 string. All
 * offsets are relative to the start of the resource section except a data
 * entry's `OffsetToData`, which is an RVA: the section's own RVA (`vbase`)
 * is subtracted from it before it is used.
 */
module ResourceFs {
  import opened Bytes
  import opened Image

  /** The resource section's bytes and its RVA. */
  datatype Resources = Resources(data: seq<u8>, vbase: u32)

  datatype ImageResourceDirectoryEntry = ImageResourceDirectoryEntry(Name: u32, Offset: u32)

  datatype ImageResourceDirectory = ImageResourceDirectory(
    Characteristics: u32, TimeDateStamp: u32, MajorVersion: u16, MinorVersion: u16,
    NumberOfNamedEntries: u16, NumberOfIdEntries: u16)

  datatype ImageResourceDataEntry = ImageResourceDataEntry(OffsetToData: u32, Size: u32, CodePage: u32, Reserved: u32)

  /** A subdirectory: where its record starts and the record itself. */
  datatype ResourceDirectory = ResourceDirectory(offset: nat, image: ImageResourceDirectory)

  datatype ResourceName = Id(id: u16) | Name(units: seq<u16>)

  datatype ResourceEntry = Directory(dir: ResourceDirectory) | DataEntry(data: ImageResourceDataEntry)

  /** The high bit of `Name` (a string name) and of `Offset` (a subdirectory). */
  const HIGH_BIT: nat := 0x8000_0000

  function ParseDirectory(b: seq<u8>, off: nat): ImageResourceDirectory
    requires off + RESOURCE_DIRECTORY_SIZE <= |b|
  {
    ImageResourceDirectory(U32At(b, off), U32At(b, off + 4), U16At(b, off + 8), U16At(b, off + 10),
                           U16At(b, off + RSRC_NUMBER_OF_NAMED_ENTRIES), U16At(b, off + RSRC_NUMBER_OF_ID_ENTRIES))
  }

  function ParseEntry(b: seq<u8>, off: nat): ImageResourceDirectoryEntry
    requires off + RESOURCE_DIRECTORY_ENTRY_SIZE <= |b|
  {
    ImageResourceDirectoryEntry(U32At(b, off), U32At(b, off + 4))
  }

  function ParseDataEntry(b: seq<u8>, off: nat): ImageResourceDataEntry
    requires off + RESOURCE_DATA_ENTRY_SIZE <= |b|
  {
    ImageResourceDataEntry(U32At(b, off), U32At(b, off + 4), U32At(b, off + 8), U32At(b, off + 12))
  }

  //---------------- Reads inside the section

  /** read_slice(): `len` bytes at `off`; a panic when they leave the section. */
  function ReadSlice(res: Resources, off: nat, len: nat): (r: Outcome<seq<u8>>)
    ensures r.Done? <==> off + len <= |res.data|
    ensures r.Done? ==> |r.value| == len && forall i :: 0 <= i < len ==> r.value[i] == res.data[off + i]
  {
    if off + len > |res.data| then Panic else Done(res.data[off..off + len])
  }

  /**
   * read_str(): a u16 count at `off` followed by that many UTF-16 code
   * units; a panic when either leaves the section.
   */
  function ReadStr(res: Resources, off: nat): (r: Outcome<seq<u16>>)
    ensures r.Done? <==> off + 2 <= |res.data| && off + 2 + 2 * U16At(res.data, off) <= |res.data|
    ensures r.Done? ==>
              && |r.value| == U16At(res.data, off)
              && forall i :: 0 <= i < |r.value| ==> r.value[i] == U16At(res.data, off + 2 + 2 * i)
  {
    if off + 2 > |res.data| then Panic
    else
      var words := U16At(res.data, off);
      if off + 2 + 2 * words > |res.data| then Panic
      else Done(seq(words, i requires 0 <= i < words => U16At(res.data, off + 2 + 2 * i)))
  }

  //---------------- Directory entries

  /** root(): the entry that points at the directory at offset 0. */
  function Root(): ImageResourceDirectoryEntry
  {
    ImageResourceDirectoryEntry(0, HIGH_BIT)
  }

  /** is_dir(): the entry's `Offset` has its high bit set. */
  predicate IsDir(e: ImageResourceDirectoryEntry)
  {
    e.Offset >= HIGH_BIT
  }

  /**
   * name(): with the high bit of `Name` set, the string at the low 31 bits
   * (a panic when it leaves the section); otherwise the low 16 bits as an id.
   */
  function EntryName(res: Resources, e: ImageResourceDirectoryEntry): (r: Outcome<ResourceName>)
    ensures r.Done? ==> (r.value.Id? <==> e.Name < HIGH_BIT)
    ensures r.Done? && r.value.Id? ==> e.Name == e.Name / 0x1_0000 * 0x1_0000 + r.value.id
    ensures r.Done? && r.value.Name? ==> ReadStr(res, e.Name - HIGH_BIT) == Done(r.value.units)
    ensures r.Panic? <==> e.Name >= HIGH_BIT && ReadStr(res, e.Name - HIGH_BIT).Panic?
  {
    if e.Name >= HIGH_BIT then
      var units :- ReadStr(res, e.Name - HIGH_BIT);
      Done(Name(units))
    else Done(Id(e.Name % 0x1_0000))
  }

  /** The directory record and its entries lie inside the section. */
  predicate DirFits(res: Resources, dir: ResourceDirectory)
  {
    && dir.offset + RESOURCE_DIRECTORY_SIZE <= |res.data|
    && dir.image == ParseDirectory(res.data, dir.offset)
    && dir.offset + RESOURCE_DIRECTORY_SIZE + RESOURCE_DIRECTORY_ENTRY_SIZE * EntryCount(dir) <= |res.data|
  }

  function EntryCount(dir: ResourceDirectory): nat
  {
    dir.image.NumberOfNamedEntries + dir.image.NumberOfIdEntries
  }

  /**
   * as_dir(): `None` for a data entry; otherwise the directory at the low 31
   * bits of `Offset`, which must fit with all its entries (a panic otherwise).
   */
  function AsDir(res: Resources, e: ImageResourceDirectoryEntry): (r: Outcome<Option<ResourceDirectory>>)
    ensures r == Done(None) <==> !IsDir(e)
    ensures r.Panic? <==>
              && IsDir(e)
              && var off := e.Offset - HIGH_BIT;
                 || off + RESOURCE_DIRECTORY_SIZE > |res.data|
                 || off + RESOURCE_DIRECTORY_SIZE
                      + RESOURCE_DIRECTORY_ENTRY_SIZE
                        * (U16At(res.data, off + RSRC_NUMBER_OF_NAMED_ENTRIES) + U16At(res.data, off + RSRC_NUMBER_OF_ID_ENTRIES))
                    > |res.data|
    ensures r.Done? && r.value.Some? ==>
              IsDir(e) && r.value.value.offset == e.Offset - HIGH_BIT && DirFits(res, r.value.value)
  {
    if !IsDir(e) then Done(None)
    else
      var off := e.Offset - HIGH_BIT;
      var head :- ReadSlice(res, off, RESOURCE_DIRECTORY_SIZE);
      var image := ParseDirectory(res.data, off);
      var bytes := RESOURCE_DIRECTORY_SIZE
                   + (image.NumberOfNamedEntries + image.NumberOfIdEntries) * RESOURCE_DIRECTORY_ENTRY_SIZE;
      var all :- ReadSlice(res, off, bytes);
      Done(Some(ResourceDirectory(off, image)))
  }

  /** as_data(): `None` for a subdirectory; otherwise the data entry record at `Offset`. */
  function AsData(res: Resources, e: ImageResourceDirectoryEntry): (r: Outcome<Option<ImageResourceDataEntry>>)
    ensures r == Done(None) <==> IsDir(e)
    ensures r.Panic? <==> !IsDir(e) && e.Offset + RESOURCE_DATA_ENTRY_SIZE > |res.data|
    ensures r.Done? && r.value.Some? ==>
              && e.Offset + RESOURCE_DATA_ENTRY_SIZE <= |res.data|
              && r.value.value == ParseDataEntry(res.data, e.Offset)
  {
    if IsDir(e) then Done(None)
    else
      var rec :- ReadSlice(res, e.Offset, RESOURCE_DATA_ENTRY_SIZE);
      Done(Some(ParseDataEntry(res.data, e.Offset)))
  }

  /** entry(): the subdirectory or the data entry, whichever the entry is. */
  function Entry(res: Resources, e: ImageResourceDirectoryEntry): (r: Outcome<ResourceEntry>)
  {
    if IsDir(e) then
      var d :- AsDir(res, e);
      match d
      case None => Panic
      case Some(dir) => Done(Directory(dir))
    else
      var d :- AsData(res, e);
      match d
      case None => Panic
      case Some(data) => Done(DataEntry(data))
  }

  /**
   * Every entry is exactly one of a subdirectory and a data entry: entry()
   * gives what the matching as_dir()/as_data() gives, and the other one
   * gives `None`.
   */
  lemma EntryIsExactlyOne(res: Resources, e: ImageResourceDirectoryEntry)
    ensures IsDir(e) ==> AsData(res, e) == Done(None)
    ensures !IsDir(e) ==> AsDir(res, e) == Done(None)
    ensures Entry(res, e).Done? ==> (Entry(res, e).value.Directory? <==> IsDir(e))
    ensures Entry(res, e).Done? && IsDir(e) ==> AsDir(res, e) == Done(Some(Entry(res, e).value.dir))
    ensures Entry(res, e).Done? && !IsDir(e) ==> AsData(res, e) == Done(Some(Entry(res, e).value.data))
    ensures Entry(res, e).Panic? <==> (if IsDir(e) then AsDir(res, e).Panic? else AsData(res, e).Panic?)
  {
  }

  /** The root entry is a directory, read at offset 0. */
  lemma RootIsDirectory(res: Resources)
    ensures IsDir(Root())
    ensures AsDir(res, Root()).Done? && AsDir(res, Root()).value.Some? ==> AsDir(res, Root()).value.value.offset == 0
  {
  }

  //---------------- Iteration over a directory

  /** entries(): the entry records that follow the directory record. */
  function Entries(res: Resources, dir: ResourceDirectory): (r: seq<ImageResourceDirectoryEntry>)
    requires DirFits(res, dir)
    ensures |r| == EntryCount(dir)
    ensures forall i :: 0 <= i < |r| ==>
              r[i] == ParseEntry(res.data, dir.offset + RESOURCE_DIRECTORY_SIZE + RESOURCE_DIRECTORY_ENTRY_SIZE * i)
  {
    seq(EntryCount(dir), i requires 0 <= i < EntryCount(dir) =>
      ParseEntry(res.data, dir.offset + RESOURCE_DIRECTORY_SIZE + RESOURCE_DIRECTORY_ENTRY_SIZE * i))
  }

  class ResourceDirectoryIterator {
    const res: Resources
    const dir: ResourceDirectory
    var it: nat

    /** iter(): the cursor starts at the first entry. */
    constructor (r: Resources, d: ResourceDirectory)
      ensures res == r && dir == d && it == 0
    {
      res := r;
      dir := d;
      it := 0;
    }

    /** next(): the entry at the cursor, if any, and the cursor moves past it. */
    method Next() returns (r: Option<ImageResourceDirectoryEntry>)
      requires DirFits(res, dir)
      modifies this
      ensures old(it) < EntryCount(dir) ==> r == Some(Entries(res, dir)[old(it)]) && it == old(it) + 1
      ensures old(it) >= EntryCount(dir) ==> r == None && it == old(it)
    {
      var entries := Entries(res, dir);
      if it < |entries| {
        r := Some(entries[it]);
        it := it + 1;
      } else {
        r := None;
      }
    }
  }

  //---------------- Lookup by displayed name

  /** The decimal digits of `n`, most significant first. */
  function Decimal(n: nat): (r: seq<char>)
    ensures |r| >= 1 && forall i :: 0 <= i < |r| ==> '0' <= r[i] <= '9'
    decreases n
  {
    if n < 10 then [(48 + n) as char] else Decimal(n / 10) + [(48 + n % 10) as char]
  }

  /** The number a string of decimal digits denotes. */
  function DecimalValue(s: seq<char>): nat
    requires forall i :: 0 <= i < |s| ==> '0' <= s[i] <= '9'
    decreases |s|
  {
    if |s| == 0 then 0 else 10 * DecimalValue(s[..|s| - 1]) + (s[|s| - 1] as int - 48)
  }

  /** The digits of `n` denote `n`. */
  lemma {:induction false} DecimalRoundTrip(n: nat)
    ensures DecimalValue(Decimal(n)) == n
    decreases n
  {
    if n >= 10 {
      DecimalRoundTrip(n / 10);
      var s := Decimal(n);
      assert s[..|s| - 1] == Decimal(n / 10);
    }
  }

  /**
   * String::from_utf16_lossy: a high surrogate followed by a low one is one
   * supplementary character; any other surrogate becomes U+FFFD.
   */
  function Utf16Lossy(units: seq<u16>): (r: seq<char>)
    ensures |r| <= |units|
    decreases |units|
  {
    if |units| == 0 then []
    else
      var u: int := units[0];
      if 0xD800 <= u < 0xDC00 && |units| > 1 && 0xDC00 <= units[1] < 0xE000 then
        var lo: int := units[1];
        [(0x1_0000 + (u - 0xD800) * 0x400 + (lo - 0xDC00)) as char] + Utf16Lossy(units[2..])
      else if 0xD800 <= u < 0xE000 then ['�'] + Utf16Lossy(units[1..])
      else [u as char] + Utf16Lossy(units[1..])
  }

  /** Code units outside the surrogate range decode one to one. */
  lemma {:induction false} Utf16LossyPlain(units: seq<u16>)
    requires forall i :: 0 <= i < |units| ==> !(0xD800 <= units[i] < 0xE000)
    ensures |Utf16Lossy(units)| == |units|
    ensures forall i :: 0 <= i < |units| ==> Utf16Lossy(units)[i] as int == units[i]
    decreases |units|
  {
    if |units| > 0 {
      Utf16LossyPlain(units[1..]);
    }
  }

  /** The Display form of a name: `#` and the decimal id, or the decoded string. */
  function Display(n: ResourceName): (r: seq<char>)
    ensures n.Id? ==> |r| >= 2 && r[0] == '#' && (forall i :: 1 <= i < |r| ==> '0' <= r[i] <= '9')
    ensures n.Id? ==> DecimalValue(r[1..]) == n.id
  {
    match n
    case Id(id) =>
      DecimalRoundTrip(id);
      assert (['#'] + Decimal(id))[1..] == Decimal(id);
      ['#'] + Decimal(id)
    case Name(units) => Utf16Lossy(units)
  }

  /** find()'s predicate: the entry's name, displayed, equals `query` (a panic when the name cannot be read). */
  function Matches(res: Resources, e: ImageResourceDirectoryEntry, query: seq<char>): Outcome<bool>
  {
    var name :- EntryName(res, e);
    Done(Display(name) == query)
  }

  /** The entries `es[i..k]` all have readable names that do not display as `query`. */
  predicate NoMatchBetween(res: Resources, es: seq<ImageResourceDirectoryEntry>, query: seq<char>, i: nat, k: nat)
    requires k <= |es|
  {
    forall j :: i <= j < k ==> Matches(res, es[j], query) == Done(false)
  }

  /** A non-matching entry at `i` extends a run of non-matching entries from `i + 1` down to `i`. */
  lemma NoMatchExtends(res: Resources, es: seq<ImageResourceDirectoryEntry>, query: seq<char>, i: nat)
    requires i < |es| && Matches(res, es[i], query) == Done(false)
    ensures forall k :: i < k <= |es| && NoMatchBetween(res, es, query, i + 1, k) ==> NoMatchBetween(res, es, query, i, k)
  {
  }

  /** Distinct ids display differently. */
  lemma DisplayIdInjective(a: u16, b: u16)
    ensures Display(Id(a)) == Display(Id(b)) ==> a == b
  {
  }

  /**
   * The search of find() over the entries `es` from `i` on: each entry's
   * name is read (a panic when it leaves the section) and displayed; the
   * first whose display equals `query` is the result.
   */
  function FindFrom(res: Resources, es: seq<ImageResourceDirectoryEntry>, query: seq<char>, i: nat): (r: Outcome<Option<ImageResourceDirectoryEntry>>)
    decreases |es| - i
    ensures r.Done? && r.value.Some? ==>
              exists k :: i <= k < |es| && es[k] == r.value.value
                          && Matches(res, es[k], query) == Done(true)
                          && NoMatchBetween(res, es, query, i, k)
    ensures r == Done(None) ==> i >= |es| || NoMatchBetween(res, es, query, i, |es|)
    ensures r.Panic? ==>
              exists k :: i <= k < |es| && Matches(res, es[k], query).Panic?
                          && NoMatchBetween(res, es, query, i, k)
  {
    if i >= |es| then Done(None)
    else
      match Matches(res, es[i], query)
      case Panic => Panic
      case Done(hit) =>
        if hit then Done(Some(es[i]))
        else
          var rest := FindFrom(res, es, query, i + 1);
          NoMatchExtends(res, es, query, i);
          rest
  }

  /** find(): the iterator's `find` with the displayed-name comparison. */
  method Find(res: Resources, dir: ResourceDirectory, query: seq<char>) returns (r: Outcome<Option<ImageResourceDirectoryEntry>>)
    requires DirFits(res, dir)
    ensures r == FindFrom(res, Entries(res, dir), query, 0)
  {
    var iter := new ResourceDirectoryIterator(res, dir);
    ghost var es := Entries(res, dir);
    while true
      invariant iter.res == res && iter.dir == dir && iter.it <= |es|
      invariant FindFrom(res, es, query, iter.it) == FindFrom(res, es, query, 0)
      decreases |es| - iter.it
    {
      var e := iter.Next();
      match e
      case None =>
        return Done(None);
      case Some(entry) =>
        var hit := Matches(res, entry, query);
        if hit.Panic? {
          return Panic;
        }
        if hit.value {
          return Done(Some(entry));
        }
    }
  }

  //---------------- Data

  /**
   * data(): the entry's bytes, at `OffsetToData` less the section's RVA; a
   * panic when that subtraction underflows or the bytes leave the section.
   */
  function Data(res: Resources, de: ImageResourceDataEntry): (r: Outcome<seq<u8>>)
    ensures r.Done? <==> res.vbase <= de.OffsetToData && de.OffsetToData - res.vbase + de.Size <= |res.data|
    ensures r.Done? ==> r.value == res.data[de.OffsetToData - res.vbase..de.OffsetToData - res.vbase + de.Size]
  {
    if de.OffsetToData < res.vbase then Panic
    else ReadSlice(res, de.OffsetToData - res.vbase, de.Size)
  }
}
