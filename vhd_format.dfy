/**
 * The fixed on-disk structures of a legacy VHD image, as both revisions of the
 * tool decode them: the 512-byte hard disk footer at the end of the file, the
 * 1024-byte dynamic disk header at offset 512, the block allocation table's
 * size, and the fixed-disk test on a footer.
 *
 * A file is the sequence of its bytes. `seek(p)` followed by `read(n)` yields
 * the bytes that are there, fewer than n near the end of the file.
 */
module VhdFormat {
  import opened Util
  import opened Wrappers

  /** ASCII "conectix", the footer cookie (also checked at file offset 0). */
  const FooterCookie: seq<byte> := [0x63, 0x6f, 0x6e, 0x65, 0x63, 0x74, 0x69, 0x78]
  /** ASCII "cxsparse", the dynamic header cookie. */
  const HeaderCookie: seq<byte> := [0x63, 0x78, 0x73, 0x70, 0x61, 0x72, 0x73, 0x65]
  /** The first four bytes of DataOffset on a fixed disk. */
  const FixedDiskTag: seq<byte> := [0xff, 0xff, 0xff, 0xff]

  const CookieSize := 8
  const FooterSize := 512
  const HeaderOffset := 512
  const HeaderSize := 1024
  const BatEntrySize := 4
  /** DiskTypeEnum.FixedHardDisk */
  const FixedHardDisk := 2

  /** `seek(pos)` then `read(n)` on a file; seeking past the end is allowed. */
  function ReadAt(file: seq<byte>, pos: nat, n: nat): (r: seq<byte>)
    ensures |r| <= n
    ensures pos + n <= |file| ==> r == file[pos..pos + n]
    ensures pos <= |file| <= pos + n ==> r == file[pos..]
    ensures |file| <= pos ==> r == []
  {
    file[Min(pos, |file|)..Min(pos + n, |file|)]
  }

  /** What `read()` returns after seeking to 512 bytes before the end. */
  type FooterBytes = s: seq<byte> | |s| == FooterSize witness seq(FooterSize, _ => 0)

  datatype HardDiskFooter = HardDiskFooter(raw: FooterBytes)

  datatype DynamicDiskHeader = DynamicDiskHeader(raw: seq<byte>)

  /** Only the entry count and byte size are kept; the entries are never read. */
  datatype Bat = Bat(nEntries: nat, mySize: nat)

  /**
   * `HardiskFooter.verify_cookie`: seeking to 512 bytes before the end fails
   * on a shorter file; otherwise the 8 bytes there must be "conectix".
   */
  function VerifyFooterCookie(file: seq<byte>): (ok: bool)
    ensures ok <==> |file| >= FooterSize && file[|file| - FooterSize..|file| - FooterSize + CookieSize] == FooterCookie
  {
    if |file| < FooterSize then false
    else ReadAt(file, |file| - FooterSize, CookieSize) == FooterCookie
  }

  /** `HardiskFooter(handle)`: the cookie is checked, then the last 512 bytes are kept. */
  function DecodeFooter(file: seq<byte>): (r: Option<HardDiskFooter>)
    ensures r.Some? <==> VerifyFooterCookie(file)
    ensures r.Some? ==> r.value.raw == file[|file| - FooterSize..]
    ensures r.Some? ==> r.value.raw[..CookieSize] == FooterCookie
  {
    if !VerifyFooterCookie(file) then None
    else
      var raw := file[|file| - FooterSize..];
      assert raw[..CookieSize] == file[|file| - FooterSize..|file| - FooterSize + CookieSize];
      Some(HardDiskFooter(raw))
  }

  /**
   * `DynamicDiskHeader.verify_cookie`: "conectix" at offset 0 (the footer
   * copy), then "cxsparse" at offset 512.
   */
  function VerifyHeaderCookie(file: seq<byte>): (ok: bool)
    ensures ok <==> |file| >= HeaderOffset + CookieSize
                    && file[..CookieSize] == FooterCookie
                    && file[HeaderOffset..HeaderOffset + CookieSize] == HeaderCookie
  {
    if ReadAt(file, 0, CookieSize) != FooterCookie then false
    else ReadAt(file, HeaderOffset, CookieSize) == HeaderCookie
  }

  /**
   * `DynamicDiskHeader(handle)`: the cookies are checked, then up to 1024
   * bytes from offset 512 are kept; a file shorter than 1536 bytes gives a
   * shorter buffer.
   */
  function DecodeHeader(file: seq<byte>): (r: Option<DynamicDiskHeader>)
    ensures r.Some? <==> VerifyHeaderCookie(file)
    ensures r.Some? ==> r.value.raw == file[HeaderOffset..Min(HeaderOffset + HeaderSize, |file|)]
    ensures r.Some? ==> CookieSize <= |r.value.raw| <= HeaderSize && r.value.raw[..CookieSize] == HeaderCookie
  {
    if !VerifyHeaderCookie(file) then None
    else
      var raw := ReadAt(file, HeaderOffset, HeaderSize);
      assert raw == file[HeaderOffset..Min(HeaderOffset + HeaderSize, |file|)];
      assert raw[..CookieSize] == file[HeaderOffset..HeaderOffset + CookieSize];
      Some(DynamicDiskHeader(raw))
  }

  /** `HardiskFooter.data_offset`: the DataOffset field, bytes 16..24, undecoded. */
  function DataOffset(f: HardDiskFooter): (r: seq<byte>)
    ensures |r| == 8 && r == f.raw[16..24]
  {
    PySlice(f.raw, 16, 24)
  }

  /** `HardiskFooter.disk_type`: the DiskType field, bytes 60..64, big-endian. */
  function DiskType(f: HardDiskFooter): (r: nat)
    ensures r < Pow256(4) && r == FromBytesBE(f.raw[60..64])
  {
    ParseInt(f.raw, 60, 64)
  }

  /** `DynamicDiskHeader.table_offset`: the TableOffset field, bytes 16..24, big-endian. */
  function TableOffset(h: DynamicDiskHeader): (r: nat)
    ensures r < Pow256(8)
    ensures |h.raw| >= 24 ==> r == FromBytesBE(h.raw[16..24])
    ensures 16 <= |h.raw| ==> r == FromBytesBE(h.raw[16..Min(24, |h.raw|)])
    ensures |h.raw| <= 16 ==> r == 0
  {
    ParseInt(h.raw, 16, 24)
  }

  /** `DynamicDiskHeader.max_table_entries`: the MaxTableEntries field, bytes 28..32, big-endian. */
  function MaxTableEntries(h: DynamicDiskHeader): (r: nat)
    ensures r < Pow256(4)
    ensures |h.raw| >= 32 ==> r == FromBytesBE(h.raw[28..32])
    ensures 28 <= |h.raw| ==> r == FromBytesBE(h.raw[28..Min(32, |h.raw|)])
    ensures |h.raw| <= 28 ==> r == 0
  {
    ParseInt(h.raw, 28, 32)
  }

  /** `BAT(handle, n_entries)` in its I/O-free revision. */
  function NewBat(nEntries: nat): (r: Bat)
    ensures r.nEntries == nEntries && r.mySize == 4 * nEntries
  {
    Bat(nEntries, BatEntrySize * nEntries)
  }

  /**
   * `HardiskFooterHelper.is_fixed_vhd`: the first four bytes of DataOffset
   * are FF FF FF FF and DiskType is 2, which on a whole footer is the same as
   * bytes 16..20 being FF FF FF FF and bytes 60..64 being 00 00 00 02.
   */
  function IsFixedFooter(f: HardDiskFooter): (r: bool)
    ensures r ==> DataOffset(f)[..4] == FixedDiskTag && DiskType(f) == FixedHardDisk
    ensures r <==> f.raw[16..20] == FixedDiskTag && f.raw[60..64] == [0, 0, 0, 2]
  {
    var tag := DataOffset(f);
    assert PySlice(tag, 0, 4) == f.raw[16..20];
    FourBytesAreTwo(f.raw[60..64]);
    PySlice(tag, 0, 4) == FixedDiskTag && DiskType(f) == FixedHardDisk
  }

  /** A footer is fixed exactly when the file's last 512 bytes carry the three markers. */
  lemma FixedFooterInFile(file: seq<byte>)
    ensures (DecodeFooter(file).Some? && IsFixedFooter(DecodeFooter(file).value))
        <==> (|file| >= FooterSize
              && file[|file| - 512..|file| - 504] == FooterCookie
              && file[|file| - 496..|file| - 492] == FixedDiskTag
              && file[|file| - 452..|file| - 448] == [0, 0, 0, 2])
  {
    if |file| >= FooterSize {
      var raw := file[|file| - FooterSize..];
      assert raw[16..20] == file[|file| - 496..|file| - 492];
      assert raw[60..64] == file[|file| - 452..|file| - 448];
    }
  }

  /**
   * Neither marker alone makes a footer fixed: the all-ones DataOffset prefix
   * with DiskType 3 (dynamic) is not fixed, and DiskType 2 with a zero
   * DataOffset is not fixed either.
   */
  lemma BothMarkersNeeded()
    ensures exists f: HardDiskFooter :: f.raw[16..20] == FixedDiskTag && DiskType(f) == 3 && !IsFixedFooter(f)
    ensures exists f: HardDiskFooter :: DiskType(f) == FixedHardDisk && f.raw[16..20] != FixedDiskTag && !IsFixedFooter(f)
  {
    var ones := HardDiskFooter(seq(512, i => if 16 <= i < 20 then 0xff else if i == 63 then 3 else 0));
    assert ones.raw[16..20] == FixedDiskTag;
    assert ones.raw[60..64] == ToBytesBE(3, 4);
    DecodeEncode(3, 4);
    assert DiskType(ones) == 3;
    var two := HardDiskFooter(seq(512, i => if i == 63 then 2 else 0));
    assert two.raw[60..64] == [0, 0, 0, 2];
    FourBytesAreTwo(two.raw[60..64]);
    assert two.raw[16] == 0;
  }
}
