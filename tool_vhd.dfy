/**
 * The boot-sector burner revision of the tool: an image holds a footer and a
 * dynamic header (its BAT construction is switched off), an image is fixed
 * when its footer says so, and the payload is burned into sector 0 of a
 * fixed image only.
 */
module ToolVhd {
  import opened Util
  import opened Wrappers
  import opened VhdFormat

  /** Longest payload accepted; the last two bytes of the sector hold the signature. */
  const MaxPayload := 510
  const SectorSize := 512
  /** The legacy BIOS boot signature, bytes 510 and 511 of the sector. */
  const SignatureLow: byte := 0x55
  const SignatureHigh: byte := 0xaa

  /**
   * `VirtualHardDiskImage(handle)`: the footer, then the header, each failure
   * ending construction silently with the fields assigned so far.
   */
  datatype Image = Image(hdf: Option<HardDiskFooter>, ddh: Option<DynamicDiskHeader>)

  function OpenImage(file: seq<byte>): (img: Image)
    ensures img.hdf.Some? <==> VerifyFooterCookie(file)
    ensures img.ddh.Some? <==> VerifyFooterCookie(file) && VerifyHeaderCookie(file)
    ensures img.hdf.Some? ==> img.hdf == DecodeFooter(file)
    ensures img.ddh.Some? ==> img.ddh == DecodeHeader(file)
  {
    match DecodeFooter(file)
    case None => Image(None, None)
    case Some(hdf) => Image(Some(hdf), DecodeHeader(file))
  }

  /**
   * `VirtualHardDiskImage.is_fixed_vhd`: a footer is present and its
   * DataOffset starts FF FF FF FF and its DiskType bytes are 00 00 00 02.
   */
  predicate IsFixedVhd(img: Image)
    ensures !img.hdf.Some? ==> !IsFixedVhd(img)
    ensures img.hdf.Some? ==> (IsFixedVhd(img) <==> img.hdf.value.raw[16..20] == FixedDiskTag
                                                    && img.hdf.value.raw[60..64] == [0, 0, 0, 2])
  {
    img.hdf.Some? && IsFixedFooter(img.hdf.value)
  }

  /**
   * An image is fixed exactly when the file is at least 512 bytes long and its
   * last 512 bytes start with "conectix", have FF FF FF FF at 16..20 and
   * 00 00 00 02 at 60..64.
   */
  lemma FixedVhdBytes(file: seq<byte>)
    ensures IsFixedVhd(OpenImage(file))
        <==> (|file| >= FooterSize
              && file[|file| - 512..|file| - 504] == FooterCookie
              && file[|file| - 496..|file| - 492] == FixedDiskTag
              && file[|file| - 452..|file| - 448] == [0, 0, 0, 2])
  {
    FixedFooterInFile(file);
  }

  /**
   * The sector `BootSector.burn` builds: the payload, zeros up to byte 510,
   * then 0x55 0xAA.
   */
  function BootSector(payload: seq<byte>): (sector: seq<byte>)
    requires |payload| <= MaxPayload
    ensures |sector| == SectorSize
    ensures sector[..|payload|] == payload
    ensures forall i :: |payload| <= i < MaxPayload ==> sector[i] == 0
    ensures sector[510] == SignatureLow && sector[511] == SignatureHigh
  {
    payload + seq(MaxPayload - |payload|, _ => 0) + [SignatureLow, SignatureHigh]
  }

  /** The file after the sector is written at offset 0: only bytes 0..512 change. */
  function BurnedImage(file: seq<byte>, payload: seq<byte>): (r: seq<byte>)
    requires |file| >= SectorSize && |payload| <= MaxPayload
    ensures |r| == |file|
    ensures r[..SectorSize] == BootSector(payload)
    ensures forall i :: SectorSize <= i < |file| ==> r[i] == file[i]
  {
    BootSector(payload) + file[SectorSize..]
  }

  /**
   * `BootSector.burn(binfile, vhd)` with the payload already read: a payload
   * over 510 bytes is refused before anything is written; otherwise sector 0
   * is replaced and the rest of the file is untouched.
   */
  method Burn(payload: seq<byte>, disk: array<byte>) returns (ok: bool)
    requires disk.Length >= SectorSize
    modifies disk
    ensures ok <==> |payload| <= MaxPayload
    ensures !ok ==> disk[..] == old(disk[..])
    ensures ok ==> disk[..] == BurnedImage(old(disk[..]), payload)
  {
    if |payload| > MaxPayload {
      return false;
    }
    var sector := new byte[SectorSize](_ => 0);
    forall i | 0 <= i < |payload| {
      sector[i] := payload[i];
    }
    sector[510] := SignatureLow;
    sector[511] := SignatureHigh;
    assert sector[..] == BootSector(payload);
    forall i | 0 <= i < SectorSize {
      disk[i] := sector[i];
    }
    assert disk[..] == BurnedImage(old(disk[..]), payload);
    ok := true;
  }

  datatype BurnOutcome = Burned | NotFixed | PayloadTooLarge | NoDataSector

  /**
   * The main entry's gate: the image is inspected and the payload burned
   * only when the image is fixed. A too-large payload ends the run with an
   * error and no write.
   */
  method BurnIfFixed(payload: seq<byte>, disk: array<byte>) returns (outcome: BurnOutcome)
    modifies disk
    ensures !IsFixedVhd(OpenImage(old(disk[..]))) ==> outcome == NotFixed && disk[..] == old(disk[..])
    ensures (IsFixedVhd(OpenImage(old(disk[..]))) && |payload| > MaxPayload)
              ==> outcome == PayloadTooLarge && disk[..] == old(disk[..])
    ensures (IsFixedVhd(OpenImage(old(disk[..]))) && |payload| <= MaxPayload)
              ==> outcome == Burned && |old(disk[..])| >= SectorSize
                  && disk[..] == BurnedImage(old(disk[..]), payload)
  {
    var img := OpenImage(disk[..]);
    if !IsFixedVhd(img) {
      return NotFixed;
    }
    FixedVhdBytes(disk[..]);
    var ok := Burn(payload, disk);
    outcome := if ok then Burned else PayloadTooLarge;
  }

  /** On a file of at least two sectors the burn leaves the footer, and so the classification, as it was. */
  lemma BurnKeepsFooter(file: seq<byte>, payload: seq<byte>)
    requires |file| >= 2 * SectorSize && |payload| <= MaxPayload
    ensures DecodeFooter(BurnedImage(file, payload)) == DecodeFooter(file)
    ensures OpenImage(BurnedImage(file, payload)).hdf == OpenImage(file).hdf
    ensures IsFixedVhd(OpenImage(BurnedImage(file, payload))) == IsFixedVhd(OpenImage(file))
  {
    var b := BurnedImage(file, payload);
    var n := |file|;
    assert b[n - FooterSize..] == file[n - FooterSize..];
    assert b[n - 512..n - 504] == file[n - 512..n - 504];
  }

  /**
   * As written, a fixed image with no whole data sector in front of its
   * footer (a file shorter than 1024 bytes) loses its footer to the burn:
   * afterwards it is no VHD image at all.
   */
  lemma BurnErasesFooterOfEmptyDisk(file: seq<byte>)
    requires IsFixedVhd(OpenImage(file)) && |file| < 2 * SectorSize
    ensures |file| >= SectorSize
    ensures OpenImage(BurnedImage(file, [])).hdf.None?
    ensures !IsFixedVhd(OpenImage(BurnedImage(file, [])))
  {
    FixedVhdBytes(file);
    var b := BurnedImage(file, []);
    var n := |file|;
    assert b[..SectorSize] == BootSector([]);
    assert b[n - 512] != FooterCookie[0];
    assert b[n - 512..n - 504][0] == b[n - 512];
  }

  /**
   * The burn gate with the missing check: an image whose file holds no data
   * sector in front of the footer is refused, so a burned image is still a
   * fixed image afterwards.
   */
  method BurnIfFixedGuarded(payload: seq<byte>, disk: array<byte>) returns (outcome: BurnOutcome)
    modifies disk
    ensures outcome != Burned ==> disk[..] == old(disk[..])
    ensures outcome == Burned <==>
              IsFixedVhd(OpenImage(old(disk[..]))) && disk.Length >= 2 * SectorSize && |payload| <= MaxPayload
    ensures outcome == Burned ==> disk[..] == BurnedImage(old(disk[..]), payload)
    ensures outcome == Burned ==> IsFixedVhd(OpenImage(disk[..]))
    ensures !IsFixedVhd(OpenImage(old(disk[..]))) ==> outcome == NotFixed
    ensures (IsFixedVhd(OpenImage(old(disk[..]))) && disk.Length < 2 * SectorSize) ==> outcome == NoDataSector
    ensures (IsFixedVhd(OpenImage(old(disk[..]))) && disk.Length >= 2 * SectorSize && |payload| > MaxPayload)
              ==> outcome == PayloadTooLarge
  {
    var img := OpenImage(disk[..]);
    if !IsFixedVhd(img) {
      return NotFixed;
    }
    if disk.Length < 2 * SectorSize {
      return NoDataSector;
    }
    var ok := Burn(payload, disk);
    if ok {
      BurnKeepsFooter(old(disk[..]), payload);
      outcome := Burned;
    } else {
      outcome := PayloadTooLarge;
    }
  }
}
