/**
 The tar headers of a feed bundle (the ustar interchange format of the pax utility in
 IEEE Std 1003.1): written by `header` of `openvibes-feed/src/pack.rs`, read by `octal`
 and `unpack_tar` of `openvibes-vulns/src/bundle.rs`. Every field written reads back.
 */
module TarFormat {
  import opened Basics

  const BLOCK: nat := 512

  function Zeros(n: nat): (z: Bytes)
    ensures |z| == n && forall i :: 0 <= i < n ==> z[i] == 0
  {
    seq(n, _ => 0)
  }

  function Spaces(n: nat): (z: Bytes)
    ensures |z| == n && forall i :: 0 <= i < n ==> z[i] == 32
  {
    seq(n, _ => 32)
  }

  /** `bytes` copied into `block` from index `at`. */
  function Overlay(block: Bytes, at: nat, bytes: Bytes): (r: Bytes)
    requires at + |bytes| <= |block|
    ensures |r| == |block|
    ensures forall i :: 0 <= i < |block| ==> r[i] == if at <= i < at + |bytes| then bytes[i - at] else block[i]
  {
    block[..at] + bytes + block[at + |bytes|..]
  }

  // ---- octal fields -------------------------------------------------------------------

  function Pow8(n: nat): nat {
    if n == 0 then 1 else 8 * Pow8(n - 1)
  }

  lemma PowersOf8()
    ensures Pow8(6) == 262144 && Pow8(11) == 8_589_934_592
  {
    assert Pow8(3) == 512;
    assert Pow8(6) == 262144;
    assert Pow8(9) == 134_217_728;
  }

  predicate IsOctal(c: Byte) {
    48 <= c <= 55
  }

  predicate AllOctal(t: Bytes) {
    forall i :: 0 <= i < |t| ==> IsOctal(t[i])
  }

  /** `n` in octal, at least `width` digits. */
  function OctalText(n: nat, width: nat): (t: Bytes)
    ensures |t| >= width
    ensures forall i :: 0 <= i < |t| ==> IsOctal(t[i])
  {
    if n == 0 && width == 0 then []
    else OctalText(n / 8, if width == 0 then 0 else width - 1) + [48 + n % 8]
  }

  function OctalValue(t: Bytes): int {
    if t == [] then 0 else 8 * OctalValue(t[..|t| - 1]) + (t[|t| - 1] as int - 48)
  }

  lemma {:induction false} OctalReadsBack(n: nat, width: nat)
    ensures OctalValue(OctalText(n, width)) == n
  {
    if n > 0 || width > 0 {
      var w := if width == 0 then 0 else width - 1;
      OctalReadsBack(n / 8, w);
      var t, d: Byte := OctalText(n / 8, w), 48 + n % 8;
      assert OctalText(n, width) == t + [d];
      assert (t + [d])[..|t|] == t;
    }
  }

  lemma {:induction false} OctalFits(n: nat, width: nat)
    ensures n < Pow8(width) ==> |OctalText(n, width)| == width
    ensures n >= Pow8(width) ==> |OctalText(n, width)| > width
  {
    if n > 0 || width > 0 {
      OctalFits(n / 8, if width == 0 then 0 else width - 1);
    }
  }

  /** The number at the start of a field: up to a NUL or a space, none at all is 0. */
  function Octal(field: Bytes): Option<nat> {
    if field != [] && field[0] >= 128 then None
    else
      var text := field[..TextEnd(field)];
      if text == [] then Some(0)
      else
        // As Rust's `from_str_radix`: a leading plus is allowed before digits.
        var digits := if text[0] == 43 && |text| > 1 then text[1..] else text;
        if AllOctal(digits) && 0 <= OctalValue(digits) <= U64_MAX
        then Some(OctalValue(digits))
        else None
  }

  function TextEnd(field: Bytes): (n: nat)
    ensures n <= |field|
    ensures forall i :: 0 <= i < n ==> field[i] != 0 && field[i] != 32
    ensures n < |field| ==> field[n] == 0 || field[n] == 32
  {
    if field == [] || field[0] == 0 || field[0] == 32 then 0 else 1 + TextEnd(field[1..])
  }

  /** A number written with digits and ended by a NUL or a space reads back. */
  lemma FieldReadsBack(n: nat, width: nat, rest: Bytes)
    requires 0 < width && n < Pow8(width) && n <= U64_MAX
    requires rest != [] && (rest[0] == 0 || rest[0] == 32)
    ensures Octal(OctalText(n, width) + rest) == Some(n)
  {
    hide OctalValue, OctalText;
    OctalFits(n, width);
    OctalReadsBack(n, width);
    var t := OctalText(n, width);
    var field := t + rest;
    var end := TextEnd(field);
    assert forall i :: 0 <= i < |t| ==> field[i] == t[i];
    assert field[|t|] == rest[0];
    assert end == |t|;
    assert field[..end] == t;
  }

  // ---- headers ----------------------------------------------------------------------------

  function Sum(block: Bytes): nat {
    if block == [] then 0 else Sum(block[..|block| - 1]) + block[|block| - 1]
  }

  lemma {:induction false} SumBound(block: Bytes)
    ensures Sum(block) <= 255 * |block|
  {
    if block != [] { SumBound(block[..|block| - 1]); }
  }

  /** The header checksum: its own field counts as spaces. */
  function Checksum(block: Bytes): nat
    requires |block| == BLOCK
  {
    Sum(Overlay(block, 148, Spaces(8)))
  }

  /** Everything but the checksum field, which holds spaces. */
  function Unsummed(name: Bytes, size: nat): (b: Bytes)
    requires |name| <= BLOCK && size < Pow8(11)
    ensures |b| == BLOCK
  {
    OctalFits(size, 11);
    var b0 := Overlay(Zeros(BLOCK), 0, name);
    var b1 := Overlay(b0, 100, Ascii("0000644"));
    var b2 := Overlay(b1, 108, Ascii("0000000"));
    var b3 := Overlay(b2, 116, Ascii("0000000"));
    var b4 := Overlay(b3, 124, OctalText(size, 11));
    var b5 := Overlay(b4, 136, Ascii("00000000000"));
    var b6 := Overlay(b5, 156, Ascii("0"));
    var b7 := Overlay(b6, 257, Ascii("ustar") + [0]);
    var b8 := Overlay(b7, 263, Ascii("00"));
    Overlay(b8, 148, Spaces(8))
  }

  function ChecksumText(sum: nat): Bytes {
    OctalText(sum, 6) + [0, 32]
  }

  /** The header block of one file. */
  function Header(name: Bytes, size: nat): (b: Bytes)
    requires |name| <= BLOCK && size < Pow8(11)
    ensures |b| == BLOCK
  {
    var b := Unsummed(name, size);
    ChecksumFits(b);
    Overlay(b, 148, ChecksumText(Sum(b)))
  }

  lemma ChecksumFits(b: Bytes)
    requires |b| == BLOCK
    ensures Sum(b) < Pow8(6) && |ChecksumText(Sum(b))| == 8
  {
    hide Sum, OctalText;
    SumBound(b);
    PowersOf8();
    OctalFits(Sum(b), 6);
  }

  /** Where a name field ends. */
  function NameEnd(block: Bytes): (n: nat)
    requires |block| >= 100
    ensures n <= 100
  {
    var i := IndexOf(block[..100], 0);
    i
  }

  /** What a reader takes from a header reads back what the writer put in. */
  lemma HeaderReadsBack(name: Bytes, size: nat)
    requires 0 < |name| <= 100 && 0 !in name && size < Pow8(11)
    ensures var h := Header(name, size);
            && h[0] != 0
            && Octal(h[148..156]) == Some(Checksum(h))
            && h[156] == 48
            && (forall i :: 345 <= i < 500 ==> h[i] == 0)
            && h[..NameEnd(h)] == name
            && Octal(h[124..136]) == Some(size)
  {
    hide Sum, OctalText, Octal, Pow8, Unsummed;
    var b, h := Unsummed(name, size), Header(name, size);
    ChecksumFits(b);
    PowersOf8();
    var text := ChecksumText(Sum(b));
    HeaderFields(name, size);
    assert h[148..156] == text;
    assert text == OctalText(Sum(b), 6) + [0, 32];
    FieldReadsBack(Sum(b), 6, [0, 32]);
    assert Overlay(h, 148, Spaces(8)) == b;
    assert h[124..136] == b[124..136];
    FieldReadsBack(size, 11, [0]);
    assert h[..NameEnd(h)] == name by {
      var field := h[..100];
      assert field[..|name|] == name;
      assert |name| < 100 ==> field[|name|] == 0;
      NameEnds(field, name);
    }
  }

  lemma NameEnds(field: Bytes, name: Bytes)
    requires |name| <= |field| && field[..|name|] == name && 0 !in name && (|name| < |field| ==> field[|name|] == 0)
    ensures IndexOf(field, 0) == |name|
  {
    var n := IndexOf(field, 0);
    assert forall i :: 0 <= i < |name| ==> field[i] == name[i] && name[i] in name;
    assert forall i :: 0 <= i < n ==> field[i] == field[..n][i];
  }

  lemma HeaderFields(name: Bytes, size: nat)
    requires 0 < |name| <= 100 && 0 !in name && size < Pow8(11)
    ensures var b := Unsummed(name, size);
            && b[148..156] == Spaces(8)
            && b[124..136] == OctalText(size, 11) + [0]
            && b[..|name|] == name && b[0] != 0
            && (forall i :: |name| <= i < 100 ==> b[i] == 0)
            && b[156] == 48
            && (forall i :: 345 <= i < 500 ==> b[i] == 0)
  {
    hide OctalText, Pow8;
    OctalFits(size, 11);
    assert name[0] in name;
  }
}
