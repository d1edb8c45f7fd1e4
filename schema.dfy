/**
 * The fixed output schema: the two enumerations with their DER tag values,
 * the header record, the item that is DER-encoded, and errors.
 */
module Schema {
  import opened Wrappers

  const MinInt64: int := -0x8000_0000_0000_0000
  const MaxInt64: int := 0x7fff_ffff_ffff_ffff

  /**
   * Go's int64. Go's int (Uid, Gid) is taken to be 64 bits wide as well; on
   * 32-bit platforms it is narrower, which this model assumes away.
   */
  type Int64 = x: int | MinInt64 <= x <= MaxInt64

  type Byte = b: int | 0 <= b < 0x100

  /**
   * Go's time.Time. The pipeline copies it from the archive header into the
   * record and never looks inside it, so a Time is only a value to be
   * compared: its two fields distinguish instants and carry no calendar or
   * epoch.
   */
  datatype Time = Instant(seconds: int, nanos: int)

  /**
   * The zero time.Time, which Go's zero-valued header carries: a
   * distinguished value, not a claim about which instant Go's zero time is.
   */
  const ZeroTime: Time := Instant(0, 0)

  /** The entry kind, encoded as an ASN.1 ENUMERATED with these tags. */
  datatype FileType = FileTypeUnspecified | FileTypeRegular | FileTypeSymlink | FileTypeDir
  {
    function Tag(): int
    {
      match this
      case FileTypeUnspecified => 0x00
      case FileTypeRegular => 0x10
      case FileTypeSymlink => 0x12
      case FileTypeDir => 0x15
    }
  }

  /** The archive sub-format, encoded as an ASN.1 ENUMERATED with these tags. */
  datatype Format = FormatUnspecified | FormatUSTAR | FormatPAX | FormatGNU
  {
    function Tag(): int
    {
      match this
      case FormatUnspecified => 0x00
      case FormatUSTAR => 0x10
      case FormatPAX => 0x20
      case FormatGNU => 0x30
    }
  }

  /** No two file types share a tag, and no two formats do. */
  lemma TagsDistinct()
    ensures forall a: FileType, b: FileType :: a.Tag() == b.Tag() ==> a == b
    ensures forall a: Format, b: Format :: a.Tag() == b.Tag() ==> a == b
  {
  }

  /** The header record, in the field order of its DER SEQUENCE. */
  datatype FileHeader = FileHeader(
    fileType: FileType,
    name: string,
    linkname: string,
    size: Int64,
    mode: Int64,
    uid: Int64,
    gid: Int64,
    uname: string,
    gname: string,
    modified: Time,
    format: Format)

  /** One archive entry as it is DER-encoded: its header and its captured content. */
  datatype TarItemAsn1 = TarItemAsn1(header: FileHeader, content: seq<Byte>)

  /** Go's zero-valued TarItemAsn1, which accompanies every error. */
  const EmptyItem: TarItemAsn1 :=
    TarItemAsn1(
      FileHeader(FileTypeUnspecified, "", "", 0, 0, 0, 0, "", "", ZeroTime, FormatUnspecified),
      [])

  /**
   * Go's error values. `Cause` is any single error coming from a collaborator
   * (the archive, the output stream, the encoder, the context); `Joined` is
   * what errors.Join builds from several.
   */
  datatype Error = Cause(message: string) | Joined(errs: seq<Error>)

  /**
   * TarItemAsn1.ToDerBytes, that is asn1.Marshal: the encoding rules belong
   * to the library, so every operation takes the encoder as a parameter.
   */
  type Encoder = TarItemAsn1 -> Result<seq<Byte>, Error>
}
