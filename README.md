# VHD inspector and boot-sector burner, modelled in Dafny

This project models the binary-format core of a small tool for legacy
Microsoft VHD images. The layouts follow the Microsoft Virtual Hard Disk
Image Format Specification, in its sections "Hard Disk Footer Format" and
"Dynamic Disk Header Format". An image file is a sequence of bytes. The tool:

- decodes the 512-byte hard disk footer at the end of the file. The cookie
  must be "conectix". DataOffset is bytes 16..24 and DiskType is bytes
  60..64, read big-endian.
- decodes the dynamic disk header. It needs "conectix" at file offset 0 and
  "cxsparse" at offset 512. It keeps up to 1024 bytes from offset 512.
  TableOffset is bytes 16..24 and MaxTableEntries is bytes 28..32.
- sizes the block allocation table (BAT) at 4 bytes per entry.
- classifies the image. It is fixed when DataOffset starts with FF FF FF FF
  and DiskType is 2. It is dynamic when the header decoded.
- burns a boot sector into offset 0 of a fixed image. The sector is the
  payload (at most 510 bytes), then zeros, then 0x55 0xAA.

Modules:

- `Util` (`util.dfy`) covers `tool/libvhd/util.py`. It holds Python's
  clamping slice and `parse_int`. The latter is specified by a reference
  big-endian decoder, `FromBytesBE`, and its inverse `ToBytesBE`.
  `tool/vhd.py:240-242` is the same function.
- `VhdFormat` (`vhd_format.dfy`) holds the footer, the header and the
  fixed-footer test. These are identical in `tool/vhd.py` and
  `tool/libvhd/vhd.py`. It also holds the BAT size calculation, which only
  `tool/libvhd/vhd.py:186-192` has; the BAT class of `tool/vhd.py`
  (lines 201-204) reads the table from the file instead and is never called.
- `ToolVhd` (`tool_vhd.dfy`) covers `tool/vhd.py`. Its image has a footer
  and a header only, since its BAT line is commented out. It also holds the
  boot-sector burn over a byte `array` and the "burn only if fixed" gate of
  the main entry.
- `LibVhd` (`libvhd.dfy`) covers `tool/libvhd/vhd.py`. Its image also sizes
  the BAT, and it adds `is_dynamic_vhd`.
- `Wrappers` (`wrappers.dfy`) holds `Option`, which stands for a field the
  source leaves `None`.

Image construction swallows every exception. It is therefore a total
function returning the stages that succeeded. A failed `seek` before the
start of a file shorter than 512 bytes is an OS error. A wrong cookie is a
plain `Exception`. Both are the same `None` here.

Behaviour of the code worth knowing:

- The payload limit is 510 bytes (tool/vhd.py:226), so a 511- or 512-byte
  payload is refused and nothing is written.
- The header check reads "conectix" at offset 0 (tool/vhd.py:171-173)
  before it looks for "cxsparse" at offset 512.
- A header read from a file shorter than 1536 bytes is short, and the field
  decoders then read whatever bytes are present (Python slices clamp).
- "Fixed" and "dynamic" are not exclusive, because `is_dynamic_vhd` does not
  look at DiskType. A fixed image whose data starts with the two cookies is
  both (`LibVhd.FixedAndDynamicOverlap`).

## Model

| member | source | states |
|---|---|---|
| `Util.PySlice` | tool/libvhd/util.py:18 | a slice never fails: in-range bounds give exactly `s[b..e]`, a bound past the end is clamped, an empty or reversed range gives `[]` |
| `Util.FromBytesBE` | tool/libvhd/util.py:19 | the big-endian value of k bytes is below 256^k |
| `Util.ParseInt` | tool/libvhd/util.py:17-19 | `parse_int(raw, b, e)` is the big-endian value of `raw[b:e]`, below 256^(e-b); with `e` past the end it is the value of `raw[b:]`; an empty slice or a start at or past the end gives 0 |
| `Util.DecodeEncode` | tool/libvhd/util.py:17-19 | round trip: n < 256^k encoded in k big-endian bytes decodes back to n |
| `Util.EncodeDecode` | tool/libvhd/util.py:17-19 | round trip: re-encoding the decoded value of k bytes in k bytes gives the same bytes |
| `Util.DecodeInjective` | tool/libvhd/util.py:17-19 | equal-length byte strings with equal values are equal |
| `Util.LeadingZero` | tool/libvhd/util.py:17-19 | a leading zero byte never changes the value |
| `Util.FourBytesAreTwo` | tool/libvhd/util.py:17-19 | four bytes decode to 2 exactly when they are 00 00 00 02 |
| `VhdFormat.ReadAt` | tool/vhd.py:171-177 | `seek(pos)` then `read(n)` yields `file[pos..pos+n]` when it fits, `file[pos..]` when the file ends first, nothing past the end |
| `VhdFormat.VerifyFooterCookie` | tool/vhd.py:100-104 | succeeds exactly when the file has at least 512 bytes and the 8 bytes at end-512 are "conectix" |
| `VhdFormat.DecodeFooter` | tool/vhd.py:86-89 | a footer exists exactly when the cookie check passes; its raw buffer is the last 512 bytes of the file and starts with "conectix" |
| `VhdFormat.VerifyHeaderCookie` | tool/vhd.py:170-179 | succeeds exactly when the file has "conectix" at offset 0 and "cxsparse" at offset 512 |
| `VhdFormat.DecodeHeader` | tool/vhd.py:165-168 | a header exists exactly when both cookies check, and its raw buffer is file bytes 512..min(1536, length), 8 to 1024 bytes starting with "cxsparse" |
| `VhdFormat.DataOffset` | tool/vhd.py:106-110 | footer bytes 16..24, 8 bytes, undecoded |
| `VhdFormat.DiskType` | tool/vhd.py:112-116 | the big-endian value of footer bytes 60..64, below 2^32 |
| `VhdFormat.TableOffset` | tool/libvhd/vhd.py:168-172 | the big-endian value of header bytes 16..24, below 2^64; on a short header, the value of the bytes from 16 that are present, 0 if none |
| `VhdFormat.MaxTableEntries` | tool/libvhd/vhd.py:177-181 | the big-endian value of header bytes 28..32, below 2^32; on a short header, the value of the bytes from 28 that are present, 0 if none |
| `VhdFormat.NewBat` | tool/libvhd/vhd.py:186-192 | a BAT keeps its entry count and is 4 bytes per entry in size; it reads nothing |
| `VhdFormat.IsFixedFooter` | tool/vhd.py:212-217 | fixed iff footer bytes 16..20 are FF FF FF FF and bytes 60..64 are 00 00 00 02, that is, DataOffset starts with the tag and DiskType is 2 |
| `VhdFormat.FixedFooterInFile` | tool/vhd.py:86-116 | a file has a fixed footer iff it is at least 512 bytes long and its last 512 bytes start with "conectix", with FF FF FF FF at 16..20 and 00 00 00 02 at 60..64 |
| `VhdFormat.BothMarkersNeeded` | tool/vhd.py:217 | neither marker alone suffices: some footers with the FF FF FF FF prefix and DiskType 3 are not fixed, and some with DiskType 2 and a zero DataOffset are not fixed |
| `ToolVhd.OpenImage` | tool/vhd.py:28-39 | construction never fails: a footer failure leaves both fields absent, a header failure leaves only the footer, and each present field is the decoded structure |
| `ToolVhd.IsFixedVhd` | tool/vhd.py:41-44 | false without a footer; with one, true iff its bytes 16..20 are FF FF FF FF and bytes 60..64 are 00 00 00 02 |
| `ToolVhd.FixedVhdBytes` | tool/vhd.py:41-44 | `is_fixed_vhd` holds iff the file's last 512 bytes carry the cookie, the FF FF FF FF DataOffset prefix and DiskType 00 00 00 02 |
| `ToolVhd.BootSector` | tool/vhd.py:229-233 | the sector is 512 bytes: the payload, zeros up to byte 510, then 0x55 0xAA |
| `ToolVhd.BurnedImage` | tool/vhd.py:235-236 | writing the sector at offset 0 keeps the file length; bytes 0..512 become the sector and every later byte is unchanged |
| `ToolVhd.Burn` | tool/vhd.py:221-237 | a payload over 510 bytes is refused and nothing is written; otherwise the file becomes the burned image |
| `ToolVhd.BurnIfFixed` | tool/vhd.py:248-251 | the file is burned only when the image is fixed; otherwise it is unchanged |
| `ToolVhd.BurnKeepsFooter` | tool/vhd.py:235-236 | on a file of at least 1024 bytes the burn leaves the footer and the fixed classification unchanged |
| `ToolVhd.BurnErasesFooterOfEmptyDisk` | tool/vhd.py:248-251 | a fixed image shorter than 1024 bytes, burned with an empty payload, no longer has a footer |
| `ToolVhd.BurnIfFixedGuarded` | tool/vhd.py:248-251 | corrected gate: it burns iff the image is fixed, the file is at least 1024 bytes and the payload fits, so a burned image is still fixed; otherwise it reports NotFixed, NoDataSector or PayloadTooLarge in that order and writes nothing |
| `LibVhd.OpenImage` | tool/libvhd/vhd.py:10-21 | construction never fails: footer, header and BAT are built in order; a footer failure leaves all three absent, a header failure leaves only the footer; the BAT exists iff the header does, has MaxTableEntries entries and 4 bytes each |
| `LibVhd.IsFixedVhd` | tool/libvhd/vhd.py:23-26 | false without a footer; with one, true iff its bytes 16..20 are FF FF FF FF and bytes 60..64 are 00 00 00 02 |
| `LibVhd.IsDynamicVhd` | tool/libvhd/vhd.py:28-29 | true exactly when a header is present; DiskType is not consulted |
| `LibVhd.UnrecognizedImage` | tool/libvhd/vhd.py:15-29 | without a valid footer cookie, nothing is set and the image is neither fixed nor dynamic |
| `LibVhd.FixedVhdBytes` | tool/libvhd/vhd.py:23-26 | `is_fixed_vhd` holds iff the file's last 512 bytes carry the cookie, the FF FF FF FF DataOffset prefix and DiskType 00 00 00 02 |
| `LibVhd.DynamicVhdBytes` | tool/libvhd/vhd.py:28-29 | `is_dynamic_vhd` holds iff the footer cookie is valid, "conectix" is at offset 0 and "cxsparse" at offset 512; DiskType plays no part |
| `LibVhd.BatSizeFromFile` | tool/libvhd/vhd.py:183-192 | on a dynamic image the BAT has big-endian file bytes 540..544 entries and is 4 times that many bytes, below 2^34 |
| `LibVhd.TruncatedHeaderHasEmptyBat` | tool/libvhd/vhd.py:150-153 | a dynamic image cut off by byte 540 reads a short header and gets a BAT of 0 entries and 0 bytes |
| `LibVhd.FixedAndDynamicOverlap` | tool/libvhd/vhd.py:28-29 | some file is both fixed and dynamic, because `is_dynamic_vhd` does not look at DiskType |

## Findings

| source | as written | input that shows it | evidently intended | confidence | as-written member | corrected member |
|---|---|---|---|---|---|---|
| tool/vhd.py:248-251 | any fixed image is burned at offset 0, whatever the file's length | a 512-byte file that is only a fixed-disk footer (a disk of size 0), burned with an empty payload: bytes 0..512 become zeros and 0x55 0xAA, so the footer cookie is gone and the file is no longer a VHD image | refuse an image with no data sector in front of its footer (file under 1024 bytes), so that the burn never touches the footer | medium, not executed | `ToolVhd.BurnErasesFooterOfEmptyDisk` (about `ToolVhd.BurnIfFixed`) | `ToolVhd.BurnIfFixedGuarded` |

## Left out

- `yes_or_no` (tool/libvhd/util.py:4-15) is left out. It is an interactive prompt loop with no format logic.
- The main entry's argument handling and `open` (tool/vhd.py:244-248) are left out. Only the "burn only if fixed" gate is modelled.
- Reading the payload file inside `burn` (tool/vhd.py:222-224) is left out. The payload is a byte-sequence parameter.
- The `flush` after the write is left out, because the model has no buffering.
- `BAT.__init__` of tool/vhd.py (lines 201-204) reads the table from the file. Nothing calls it, so it is not modelled. The libvhd BAT is modelled; it only computes a size.
- Checksum fields are never read by the code, and are not modelled.
- The field-size and offset class constants are not modelled. The model uses the literal offsets that the accessors read.
- Exception kinds are not distinguished: every failure is one `None`.
- `DiskTypeEnum` is reduced to its one used value, FixedHardDisk = 2.
- ToolVhd.Burn: requires a disk of at least 512 bytes. A Python `write` at offset 0 would extend a shorter file, and an array cannot grow. Its only caller burns fixed images, which are at least 512 bytes (`ToolVhd.FixedVhdBytes`).
- ToolVhd.BurnIfFixed: a too-large payload raises an uncaught exception that ends the program. Here it is the outcome `PayloadTooLarge`, with the file unchanged in both cases.
- Between classification and burn, nothing else changes the file. The model has no concurrent writers.
