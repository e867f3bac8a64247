/**
 * Record sizes, field offsets and magic numbers of the packed PE records.
 * Every offset is the running sum of the sizes of the fields before it.
 */
module Image {

  /** PE32 images have 32-bit virtual addresses, PE32+ (PE64) images 64-bit ones. */
  datatype Width = PE32 | PE64

  const DOS_HEADER_MAGIC: int := 0x5A4D
  const NT_HEADERS_SIGNATURE: int := 0x0000_4550
  const OPTIONAL_HDR32_MAGIC: int := 0x10b
  const OPTIONAL_HDR64_MAGIC: int := 0x20b

  // ImageDosHeader: 30 u16 words, then e_lfanew
  const DOS_HEADER_SIZE: nat := 64
  const DOS_E_MAGIC: nat := 0
  const DOS_E_LFANEW: nat := 60

  // ImageNtHeaders: Signature (4), ImageFileHeader (20), optional header
  const NT_SIGNATURE: nat := 0
  const NT_FILE_HEADER: nat := 4
  const FILE_NUMBER_OF_SECTIONS: nat := 2
  const FILE_SIZE_OF_OPTIONAL_HEADER: nat := 16
  const NT_OPTIONAL_HEADER: nat := 24

  // Optional header fields whose offset is the same in both widths
  const OPT_MAGIC: nat := 0
  const OPT_SIZE_OF_IMAGE: nat := 56
  const OPT_SIZE_OF_HEADERS: nat := 60

  const NUMBEROF_DIRECTORY_ENTRIES: nat := 16
  const DATA_DIRECTORY_SIZE: nat := 8
  const DIRECTORY_ENTRY_EXPORT: nat := 0
  const DIRECTORY_ENTRY_IMPORT: nat := 1
  const DIRECTORY_ENTRY_RESOURCE: nat := 2
  const DIRECTORY_ENTRY_BASERELOC: nat := 5

  /** Size of the optional header record: 224 bytes for PE32, 240 for PE64. */
  function OptionalHeaderSize(w: Width): nat
  {
    match w
    case PE32 => 224
    case PE64 => 240
  }

  /** Size of ImageNtHeaders32 (248) or ImageNtHeaders64 (264). */
  function NtHeadersSize(w: Width): nat
  {
    NT_OPTIONAL_HEADER + OptionalHeaderSize(w)
  }

  function OptImageBase(w: Width): nat
  {
    match w
    case PE32 => 28
    case PE64 => 24
  }

  function OptNumberOfRvaAndSizes(w: Width): nat
  {
    match w
    case PE32 => 92
    case PE64 => 108
  }

  function OptDataDirectory(w: Width): nat
  {
    match w
    case PE32 => 96
    case PE64 => 112
  }

  /** Width in bytes of a virtual address (`Va`). */
  function VaSize(w: Width): nat
  {
    match w
    case PE32 => 4
    case PE64 => 8
  }

  function VaModulus(w: Width): nat
  {
    match w
    case PE32 => 0x1_0000_0000
    case PE64 => 0x1_0000_0000_0000_0000
  }

  // ImageSectionHeader (40 bytes)
  const SECTION_HEADER_SIZE: nat := 40
  const SEC_VIRTUAL_SIZE: nat := 8
  const SEC_VIRTUAL_ADDRESS: nat := 12
  const SEC_SIZE_OF_RAW_DATA: nat := 16
  const SEC_POINTER_TO_RAW_DATA: nat := 20

  // ImageExportDirectory (40 bytes)
  const EXPORT_DIRECTORY_SIZE: nat := 40
  const EXP_NAME: nat := 12
  const EXP_BASE: nat := 16
  const EXP_NUMBER_OF_FUNCTIONS: nat := 20
  const EXP_NUMBER_OF_NAMES: nat := 24
  const EXP_ADDRESS_OF_FUNCTIONS: nat := 28
  const EXP_ADDRESS_OF_NAMES: nat := 32
  const EXP_ADDRESS_OF_NAME_ORDINALS: nat := 36

  // ImageImportDescriptor (20 bytes)
  const IMPORT_DESCRIPTOR_SIZE: nat := 20
  const IMP_ORIGINAL_FIRST_THUNK: nat := 0
  const IMP_TIME_DATE_STAMP: nat := 4
  const IMP_FORWARDER_CHAIN: nat := 8
  const IMP_NAME: nat := 12
  const IMP_FIRST_THUNK: nat := 16
  const ORDINAL_FLAG32: nat := 0x8000_0000

  // ImageBaseRelocation (8 bytes) and ImageBaseRelocBlock (2 bytes)
  const BASE_RELOCATION_SIZE: nat := 8
  const BASE_RELOC_BLOCK_SIZE: nat := 2

  // Resource records
  const RESOURCE_DIRECTORY_SIZE: nat := 16
  const RSRC_NUMBER_OF_NAMED_ENTRIES: nat := 12
  const RSRC_NUMBER_OF_ID_ENTRIES: nat := 14
  const RESOURCE_DIRECTORY_ENTRY_SIZE: nat := 8
  const RESOURCE_DATA_ENTRY_SIZE: nat := 16
}
