/** Types shared by the whole model: optional values, results and bytes. */
module Basics {
  const U32_MAX: nat := 0xFFFF_FFFF
  const U64_MAX: nat := 0xFFFF_FFFF_FFFF_FFFF

  datatype Option<+T> = None | Some(value: T)

  datatype Result<+T, +E> = Ok(value: T) | Err(error: E)

  /** One byte of a file, a datagram or a UTF-8 string. */
  type Byte = x: int | 0 <= x < 256

  type Bytes = seq<Byte>

  /** The bytes of an ASCII literal (anything above one byte becomes `?`). */
  function Ascii(s: string): (b: Bytes)
    ensures |b| == |s|
    ensures forall i :: 0 <= i < |s| && s[i] as int < 256 ==> b[i] == s[i] as int
  {
    seq(|s|, i requires 0 <= i < |s| => if s[i] as int < 256 then s[i] as int else 63)
  }

  predicate IsDigit(c: Byte) {
    48 <= c <= 57
  }

  predicate IsAlpha(c: Byte) {
    65 <= c <= 90 || 97 <= c <= 122
  }

  /** Where `c` first occurs in `s`, or `|s|`. */
  function IndexOf(s: Bytes, c: Byte): (i: nat)
    ensures i <= |s| && c !in s[..i] && (i < |s| ==> s[i] == c)
  {
    if s == [] || s[0] == c then 0
    else
      var i := IndexOf(s[1..], c) + 1;
      assert s[..i] == [s[0]] + s[1..][..i - 1];
      i
  }

  /** Where `c` last occurs in `s`, or `|s|`. */
  function LastIndexOf(s: Bytes, c: Byte): (i: nat)
    ensures i <= |s|
    ensures i < |s| ==> s[i] == c && c !in s[i + 1..]
    ensures i == |s| ==> c !in s
  {
    if s == [] then 0
    else
      var last := |s| - 1;
      if s[last] == c then last
      else
        var i := LastIndexOf(s[..last], c);
        if i == last then
          assert s == s[..last] + [s[last]];
          |s|
        else
          assert s[i + 1..] == s[..last][i + 1..] + [s[last]];
          i
  }
}
