/**
 * The library revision of the image: after the footer and the dynamic
 * header it also sizes the block allocation table, and it can tell a
 * dynamic image (one whose header decoded) from a fixed one.
 */
module LibVhd {
  import opened Util
  import opened Wrappers
  import opened VhdFormat

  /** `VirtualHardDiskImage(handle)`: hdf, ddh and bat, each stage only after the previous one. */
  datatype Image = Image(hdf: Option<HardDiskFooter>, ddh: Option<DynamicDiskHeader>, bat: Option<Bat>)

  function OpenImage(file: seq<byte>): (img: Image)
    ensures img.hdf.Some? <==> VerifyFooterCookie(file)
    ensures img.ddh.Some? <==> VerifyFooterCookie(file) && VerifyHeaderCookie(file)
    ensures img.bat.Some? <==> img.ddh.Some?
    ensures img.hdf.Some? ==> img.hdf == DecodeFooter(file)
    ensures img.ddh.Some? ==> img.ddh == DecodeHeader(file)
    ensures img.bat.Some? ==> img.bat.value.nEntries == MaxTableEntries(img.ddh.value)
                              && img.bat.value.mySize == BatEntrySize * img.bat.value.nEntries
  {
    match DecodeFooter(file)
    case None => Image(None, None, None)
    case Some(hdf) =>
      match DecodeHeader(file)
      case None => Image(Some(hdf), None, None)
      case Some(ddh) => Image(Some(hdf), Some(ddh), Some(NewBat(MaxTableEntries(ddh))))
  }

  /**
   * `VirtualHardDiskImage.is_fixed_vhd`: a footer is present and its
   * DataOffset starts FF FF FF FF and its DiskType bytes are 00 00 00 02.
   */
  predicate IsFixedVhd(img: Image)
    ensures !img.hdf.Some? ==> !IsFixedVhd(img)
    ensures img.hdf.Some? ==> (IsFixedVhd(img) <==> img.hdf.value.raw[16..20] == FixedDiskTag
                                                    && img.hdf.value.raw[60..64] == [0, 0, 0, 2])
  {
    img.hdf.Some? && IsFixedFooter(img.hdf.value)
  }

  /** `VirtualHardDiskImage.is_dynamic_vhd`: the header decoded; DiskType is not consulted. */
  predicate IsDynamicVhd(img: Image)
    ensures IsDynamicVhd(img) <==> img.ddh.Some?
  {
    img.ddh.Some?
  }

  /** Without a valid footer an image is neither fixed nor dynamic and has no BAT. */
  lemma UnrecognizedImage(file: seq<byte>)
    requires !VerifyFooterCookie(file)
    ensures OpenImage(file) == Image(None, None, None)
    ensures !IsFixedVhd(OpenImage(file)) && !IsDynamicVhd(OpenImage(file))
  {
  }

  /** An image is fixed exactly when the last 512 bytes of the file carry the three markers. */
  lemma FixedVhdBytes(file: seq<byte>)
    ensures IsFixedVhd(OpenImage(file))
        <==> (|file| >= FooterSize
              && file[|file| - 512..|file| - 504] == FooterCookie
              && file[|file| - 496..|file| - 492] == FixedDiskTag
              && file[|file| - 452..|file| - 448] == [0, 0, 0, 2])
  {
    FixedFooterInFile(file);
  }

  /**
   * An image is dynamic exactly when the file has "conectix" in its last 512
   * bytes and at offset 0, and "cxsparse" at offset 512.
   */
  lemma DynamicVhdBytes(file: seq<byte>)
    ensures IsDynamicVhd(OpenImage(file))
        <==> (|file| >= FooterSize + CookieSize
              && file[|file| - 512..|file| - 504] == FooterCookie
              && file[..8] == FooterCookie
              && file[512..520] == HeaderCookie)
  {
  }

  /**
   * The BAT of a dynamic image whose file reaches past MaxTableEntries has
   * 4 bytes per entry, the entry count being file bytes 540..544 read big-endian.
   */
  lemma BatSizeFromFile(file: seq<byte>)
    requires IsDynamicVhd(OpenImage(file)) && |file| >= HeaderOffset + 32
    ensures OpenImage(file).bat.Some?
    ensures OpenImage(file).bat.value.nEntries == FromBytesBE(file[540..544])
    ensures OpenImage(file).bat.value.mySize == 4 * FromBytesBE(file[540..544])
    ensures OpenImage(file).bat.value.mySize < 4 * Pow256(4)
  {
    var raw := OpenImage(file).ddh.value.raw;
    var hi := Min(HeaderOffset + HeaderSize, |file|);
    assert raw == file[HeaderOffset..hi] && hi >= 544;
    assert raw[28..32] == file[540..544] by {
      forall k | 28 <= k < 32 ensures raw[k] == file[HeaderOffset + k] {}
    }
  }

  /**
   * A file cut off before the end of MaxTableEntries still decodes as
   * dynamic: the short read leaves fewer bytes to parse, and a header that
   * ends at or before byte 28 gives a BAT of no entries.
   */
  lemma TruncatedHeaderHasEmptyBat(file: seq<byte>)
    requires IsDynamicVhd(OpenImage(file)) && |file| <= HeaderOffset + 28
    ensures OpenImage(file).bat == Some(Bat(0, 0))
  {
  }

  /**
   * Fixed and dynamic are not exclusive: a fixed image whose first data
   * sectors happen to start with "conectix" and "cxsparse" is both.
   */
  lemma FixedAndDynamicOverlap()
    ensures exists file: seq<byte> :: IsFixedVhd(OpenImage(file)) && IsDynamicVhd(OpenImage(file))
  {
    var zeros: seq<byte> := seq(504, _ => 0);
    var footer: seq<byte> := FooterCookie + seq(8, _ => 0) + FixedDiskTag + seq(40, _ => 0) + [0, 0, 0, 2] + seq(448, _ => 0);
    var file := FooterCookie + zeros + HeaderCookie + zeros + footer;
    assert |footer| == 512 && |file| == 1536;
    assert file[1024..] == footer;
    assert footer[..8] == FooterCookie;
    assert footer[16..20] == FixedDiskTag;
    assert footer[60..64] == [0, 0, 0, 2];
    assert file[..8] == FooterCookie;
    assert file[512..520] == HeaderCookie;
    FixedVhdBytes(file);
    DynamicVhdBytes(file);
  }
}
