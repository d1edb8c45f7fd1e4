/** The header mapper: archive/tar header fields onto the fixed FileHeader. */
module Headers {
  import opened Schema

  /** archive/tar's Typeflag values for the three kinds that have a FileType of their own. */
  const TypeReg: Byte := 0x30      // '0'
  const TypeSymlink: Byte := 0x32  // '2'
  const TypeDir: Byte := 0x35      // '5'

  /** archive/tar's Format values (a bit set; Next reports one of them or a combination). */
  const TarFormatUSTAR: int := 2
  const TarFormatPAX: int := 4
  const TarFormatGNU: int := 8

  /** The fields of a tar.Header that the mapper reads. */
  datatype TarHeader = TarHeader(
    typeflag: Byte,
    name: string,
    linkname: string,
    size: Int64,
    mode: Int64,
    uid: Int64,
    gid: Int64,
    uname: string,
    gname: string,
    modTime: Time,
    format: int)
  {
    /** The entry kind: total, and every typeflag but the three known ones is Unspecified. */
    function ToFileType(): (t: FileType)
      ensures t == FileTypeRegular <==> typeflag == TypeReg
      ensures t == FileTypeSymlink <==> typeflag == TypeSymlink
      ensures t == FileTypeDir <==> typeflag == TypeDir
      ensures t == FileTypeUnspecified <==> typeflag !in {TypeReg, TypeSymlink, TypeDir}
    {
      if typeflag == TypeReg then FileTypeRegular
      else if typeflag == TypeSymlink then FileTypeSymlink
      else if typeflag == TypeDir then FileTypeDir
      else FileTypeUnspecified
    }

    function FileName(): string { name }
    function LinkName(): string { linkname }
    function FileSize(): Int64 { size }
    function FileMode(): Int64 { mode }
    function UserID(): Int64 { uid }
    function GroupID(): Int64 { gid }
    function UserName(): string { uname }
    function GroupName(): string { gname }
    function Modified(): Time { modTime }

    /** The sub-format: total, and every value but the three known ones is Unspecified. */
    function TarFormat(): (f: Format)
      ensures f == FormatUSTAR <==> format == TarFormatUSTAR
      ensures f == FormatPAX <==> format == TarFormatPAX
      ensures f == FormatGNU <==> format == TarFormatGNU
      ensures f == FormatUnspecified <==> format !in {TarFormatUSTAR, TarFormatPAX, TarFormatGNU}
    {
      if format == TarFormatUSTAR then FormatUSTAR
      else if format == TarFormatPAX then FormatPAX
      else if format == TarFormatGNU then FormatGNU
      else FormatUnspecified
    }

    /**
     * The mapped header: the two enumerations are mapped, every other field
     * is copied unchanged, whatever its value.
     */
    function ToHeader(): (h: FileHeader)
      ensures h.fileType == ToFileType() && h.format == TarFormat()
      ensures h.name == name && h.linkname == linkname
      ensures h.size == size && h.mode == mode
      ensures h.uid == uid && h.gid == gid
      ensures h.uname == uname && h.gname == gname
      ensures h.modified == modTime
    {
      FileHeader(
        ToFileType(),
        FileName(),
        LinkName(),
        FileSize(),
        FileMode(),
        UserID(),
        GroupID(),
        UserName(),
        GroupName(),
        Modified(),
        TarFormat())
    }
  }

  /**
   * The tags the mapped header carries: always one of the defined values,
   * 0x00 for every unknown typeflag and every unknown format.
   */
  lemma HeaderTags(t: TarHeader)
    ensures t.ToHeader().fileType.Tag() in {0x00, 0x10, 0x12, 0x15}
    ensures t.ToHeader().format.Tag() in {0x00, 0x10, 0x20, 0x30}
    ensures t.ToHeader().fileType.Tag() == 0x00 <==> t.typeflag !in {TypeReg, TypeSymlink, TypeDir}
    ensures t.ToHeader().format.Tag() == 0x00 <==> t.format !in {TarFormatUSTAR, TarFormatPAX, TarFormatGNU}
  {
  }
}
