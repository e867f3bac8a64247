/**
 * The resources of a mapped image: the resource data directory entry names
 * the section's RVA range, whose bytes become the resource tree with that
 * RVA as its base.
 */
module PeResources {
  import opened Bytes
  import opened Image
  import opened View
  import opened ResourceFs

  /**
   * resources(): `None` without a resource data directory entry or when its
   * RVA is BADRVA; a panic (the `unwrap()`) when the range leaves the image;
   * otherwise the range's bytes based at its RVA.
   */
  function ResourcesOf(v: PeView): (r: Outcome<Option<Resources>>)
    requires ValidView(v)
    ensures r == Done(None) <==>
              NumberOfRvaAndSizes(v) <= DIRECTORY_ENTRY_RESOURCE
              || DataDirectory(v)[DIRECTORY_ENTRY_RESOURCE].VirtualAddress == BADRVA
    ensures r.Panic? <==>
              && NumberOfRvaAndSizes(v) > DIRECTORY_ENTRY_RESOURCE
              && var dd := DataDirectory(v)[DIRECTORY_ENTRY_RESOURCE];
                 dd.VirtualAddress != BADRVA && dd.VirtualAddress + dd.Size > |v.image|
    ensures r.Done? && r.value.Some? ==>
              && var dd := DataDirectory(v)[DIRECTORY_ENTRY_RESOURCE];
                 && r.value.value.vbase == dd.VirtualAddress
                 && dd.VirtualAddress + dd.Size <= |v.image|
                 && r.value.value.data == v.image[dd.VirtualAddress..dd.VirtualAddress + dd.Size]
  {
    match DirectoryEntry(v, DIRECTORY_ENTRY_RESOURCE)
    case None => Done(None)
    case Some(dd) =>
      if dd.VirtualAddress == BADRVA then Done(None)
      else
        var slice :- View.ReadSlice(v, dd.VirtualAddress, 1, dd.Size, 1);
        match slice
        case None => Panic
        case Some(bytes) => Done(Some(Resources(bytes, dd.VirtualAddress)))
  }

  /**
   * Subtracting the section's RVA makes `OffsetToData` an RVA of the image:
   * a data entry's bytes are the image's bytes at that RVA, and they are
   * there exactly when that RVA range lies inside the resource section.
   */
  lemma DataIsImageBytes(v: PeView, res: Resources, de: ImageResourceDataEntry)
    requires ValidView(v) && ResourcesOf(v) == Done(Some(res))
    ensures Data(res, de).Done? <==>
              res.vbase <= de.OffsetToData && de.OffsetToData + de.Size <= res.vbase + |res.data|
    ensures Data(res, de).Done? ==>
              de.OffsetToData + de.Size <= |v.image|
              && Data(res, de).value == v.image[de.OffsetToData..de.OffsetToData + de.Size]
  {
    var dd := DataDirectory(v)[DIRECTORY_ENTRY_RESOURCE];
    assert res.vbase == dd.VirtualAddress && res.data == v.image[dd.VirtualAddress..dd.VirtualAddress + dd.Size];
    if Data(res, de).Done? {
      var off := de.OffsetToData - res.vbase;
      SliceOfSlice(v.image, dd.VirtualAddress, dd.VirtualAddress + dd.Size, off, off + de.Size);
    }
  }

  /** A slice of a slice is a slice of the whole. */
  lemma SliceOfSlice<T>(s: seq<T>, lo: nat, hi: nat, a: nat, b: nat)
    requires lo <= hi <= |s| && a <= b <= hi - lo
    ensures s[lo..hi][a..b] == s[lo + a..lo + b]
  {
    forall i | 0 <= i < b - a
      ensures s[lo..hi][a..b][i] == s[lo + a..lo + b][i]
    {
      assert s[lo..hi][a..b][i] == s[lo..hi][a + i] == s[lo + a + i];
    }
  }
}
