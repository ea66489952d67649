/**
 * Byte-level helpers of the VHD tool: Python's clamping slice over a byte
 * string and `parse_int`, the big-endian unsigned decode used for every
 * integer field of the footer and the dynamic header.
 */
module Util {

  /** One element of a Python `bytes` object. */
  type byte = x: int | 0 <= x < 256

  function Min(a: int, b: int): int
  {
    if a <= b then a else b
  }

  /** 256 raised to the k-th power: one more than the largest value of k bytes. */
  function Pow256(k: nat): (r: nat)
    ensures r >= 1
  {
    if k == 0 then 1 else 256 * Pow256(k - 1)
  }

  /**
   * How Python normalises one slice bound against a sequence of length n:
   * a negative bound counts from the end, and whatever is still out of range
   * is clamped to 0 or n.
   */
  function Clamp(i: int, n: nat): (r: nat)
    ensures r <= n
    ensures 0 <= i <= n ==> r == i
    ensures i > n ==> r == n
    ensures i < 0 <= i + n ==> r == i + n
    ensures i + n < 0 ==> r == 0
  {
    if i < 0 then (if i + n < 0 then 0 else i + n)
    else if i > n then n
    else i
  }

  /** Python's `s[b:e]`: never fails, an out-of-range bound yields a shorter slice. */
  function PySlice<T>(s: seq<T>, b: int, e: int): (r: seq<T>)
    ensures |r| <= |s|
    ensures 0 <= b <= e <= |s| ==> r == s[b..e]
    ensures 0 <= b <= |s| <= e ==> r == s[b..]
    ensures 0 <= e <= b ==> r == []
    ensures |s| <= b ==> r == []
  {
    var lo := Clamp(b, |s|);
    var hi := Clamp(e, |s|);
    if lo < hi then s[lo..hi] else []
  }

  /**
   * `int.from_bytes(s, byteorder='big')`: the unsigned value of s, most
   * significant byte first. The bound needs the recursive call's bound.
   */
  function FromBytesBE(s: seq<byte>): (r: nat)
    ensures r < Pow256(|s|)
  {
    if |s| == 0 then 0
    else FromBytesBE(s[..|s| - 1]) * 256 + s[|s| - 1]
  }

  /** The k-byte big-endian encoding of n (n taken modulo 256^k). */
  function ToBytesBE(n: nat, k: nat): (r: seq<byte>)
    ensures |r| == k
  {
    if k == 0 then [] else ToBytesBE(n / 256, k - 1) + [n % 256]
  }

  /** `parse_int(raw, p_begin, p_end)`: the big-endian value of `raw[p_begin:p_end]`. */
  function ParseInt(raw: seq<byte>, b: int, e: int): (r: nat)
    ensures r < Pow256(|PySlice(raw, b, e)|)
    ensures 0 <= b <= e <= |raw| ==> r == FromBytesBE(raw[b..e]) && r < Pow256(e - b)
    ensures 0 <= b <= |raw| <= e ==> r == FromBytesBE(raw[b..])
    ensures 0 <= e <= b ==> r == 0
    ensures |raw| <= b ==> r == 0
  {
    FromBytesBE(PySlice(raw, b, e))
  }

  /** Encoding a value that fits in k bytes and decoding it gives the value back. */
  lemma {:induction false} DecodeEncode(n: nat, k: nat)
    requires n < Pow256(k)
    ensures FromBytesBE(ToBytesBE(n, k)) == n
  {
    if k > 0 {
      var t := ToBytesBE(n / 256, k - 1);
      var s := ToBytesBE(n, k);
      assert s == t + [n % 256];
      assert s[..|s| - 1] == t;
      DecodeEncode(n / 256, k - 1);
    }
  }

  /** Decoding k bytes and re-encoding the value in k bytes gives the bytes back. */
  lemma {:induction false} EncodeDecode(s: seq<byte>)
    ensures ToBytesBE(FromBytesBE(s), |s|) == s
  {
    if |s| > 0 {
      var p := s[..|s| - 1];
      var v := FromBytesBE(s);
      assert v / 256 == FromBytesBE(p) && v % 256 == s[|s| - 1];
      EncodeDecode(p);
      assert s == p + [s[|s| - 1]];
    }
  }

  /** Two byte strings of the same length with the same value are equal. */
  lemma DecodeInjective(s: seq<byte>, t: seq<byte>)
    requires |s| == |t| && FromBytesBE(s) == FromBytesBE(t)
    ensures s == t
  {
    EncodeDecode(s);
    EncodeDecode(t);
  }

  /** A leading zero byte never changes the decoded value. */
  lemma {:induction false} LeadingZero(s: seq<byte>)
    ensures FromBytesBE([0] + s) == FromBytesBE(s)
  {
    if |s| > 0 {
      var z := [0] + s;
      assert z[..|z| - 1] == [0] + s[..|s| - 1];
      LeadingZero(s[..|s| - 1]);
    }
  }

  /** Four bytes decode to 2 exactly when they are 00 00 00 02. */
  lemma FourBytesAreTwo(s: seq<byte>)
    requires |s| == 4
    ensures FromBytesBE(s) == 2 <==> s == [0, 0, 0, 2]
  {
    var two: seq<byte> := [0, 0, 0, 2];
    assert ToBytesBE(2, 4) == two;
    DecodeEncode(2, 4);
    if FromBytesBE(s) == 2 {
      DecodeInjective(s, two);
    }
  }
}
