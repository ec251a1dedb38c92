/** Bytes, big-endian numbers and the text made of them. */
module Bytes {
  type byte = x: int | 0 <= x < 256
  type u16 = x: int | 0 <= x < 0x1_0000
  type u32 = x: int | 0 <= x < 0x1_0000_0000

  datatype ProtoError = Truncated | InvalidName | BadMessage

  datatype Result<T> = Ok(value: T) | Err(error: ProtoError)

  function Be16(n: u16): (b: seq<byte>)
    ensures |b| == 2
  {
    [n / 256, n % 256]
  }

  function Be32(n: u32): (b: seq<byte>)
    ensures |b| == 4
  {
    [n / 0x100_0000, n / 0x1_0000 % 256, n / 256 % 256, n % 256]
  }

  function Num16(hi: byte, lo: byte): u16 {
    hi * 256 + lo
  }

  function Num32(a: byte, b: byte, c: byte, d: byte): u32 {
    a * 0x100_0000 + b * 0x1_0000 + c * 256 + d
  }

  lemma Be16RoundTrip(n: u16, hi: byte, lo: byte)
    ensures Num16(Be16(n)[0], Be16(n)[1]) == n
    ensures Be16(Num16(hi, lo)) == [hi, lo]
  {
  }

  lemma Be32RoundTrip(n: u32)
    ensures var b := Be32(n); Num32(b[0], b[1], b[2], b[3]) == n
  {
    Shifted(n);
    var x := n / 256;
    var y := x / 256;
    assert Be32(n) == [y / 256, y % 256, x % 256, n % 256];
  }

  lemma Shifted(n: u32)
    ensures n / 0x1_0000 == n / 256 / 256
    ensures n / 0x100_0000 == n / 256 / 256 / 256
  {
    var x := n / 256;
    var y := x / 256;
    var z := y / 256;
    assert n == 0x1_0000 * y + (256 * (x % 256) + n % 256);
    assert n == 0x100_0000 * z + (0x1_0000 * (y % 256) + 256 * (x % 256) + n % 256);
  }

  // ---- text ----

  predicate Ascii(s: string) {
    forall i :: 0 <= i < |s| ==> s[i] as int < 128
  }

  predicate AsciiBytes(b: seq<byte>) {
    forall i :: 0 <= i < |b| ==> b[i] < 128
  }

  /** Bytes read as characters, one for one (exact for ASCII). */
  function Text(b: seq<byte>): (s: string)
    ensures |s| == |b| && forall i :: 0 <= i < |b| ==> s[i] == b[i] as char
  {
    seq(|b|, i requires 0 <= i < |b| => b[i] as char)
  }

  function Raw(s: string): (b: seq<byte>)
    requires Ascii(s)
    ensures |b| == |s| && forall i :: 0 <= i < |s| ==> b[i] == s[i] as int
  {
    seq(|s|, i requires 0 <= i < |s| => s[i] as int)
  }

  lemma TextRaw(s: string, b: seq<byte>)
    ensures Ascii(s) ==> Text(Raw(s)) == s
    ensures AsciiBytes(b) ==> Ascii(Text(b)) && Raw(Text(b)) == b
  {
  }
}
