/** Characters as UTF-8 bytes, and bytes read as characters the way a lossy decoder does:
    each ill-formed run becomes one replacement character. */
module Unicode {
  import opened Bytes

  const REPLACEMENT: char := '\U{FFFD}'

  /** The UTF-8 bytes of a character. */
  function Utf8(c: char): seq<byte> {
    var n := c as int;
    if n < 0x80 then [n]
    else if n < 0x800 then [192 + n / 64, 128 + n % 64]
    else if n < 0x1_0000 then [224 + n / 4096, 128 + n / 64 % 64, 128 + n % 64]
    else [240 + n / 0x4_0000, 128 + n / 4096 % 64, 128 + n / 64 % 64, 128 + n % 64]
  }

  function Utf8All(s: string): seq<byte> {
    if s == "" then [] else Utf8(s[0]) + Utf8All(s[1..])
  }

  // ---- reading ----

  /** A character and the number of bytes it is read from. */
  datatype Glyph = Glyph(c: char, size: nat)

  function ByteAt(b: seq<byte>, i: nat): byte {
    if i < |b| then b[i] else 0
  }

  predicate Continues(b: seq<byte>, i: nat) {
    128 <= ByteAt(b, i) < 192
  }

  /** The second bytes that may follow a given first one: no overlong forms, no
      surrogates, nothing beyond the last code point. */
  predicate Follows(first: byte, second: byte) {
    && (if first == 0xE0 then 0xA0 else if first == 0xF0 then 0x90 else 0x80) <= second
    && second <= (if first == 0xED then 0x9F else if first == 0xF4 then 0x8F else 0xBF)
  }

  function Bad(size: nat): Glyph {
    Glyph(REPLACEMENT, size)
  }

  function Two(x: byte, y: byte): nat {
    x as int % 32 * 64 + y as int % 64
  }

  function Three(x: byte, y: byte, z: byte): nat {
    x as int % 16 * 4096 + y as int % 64 * 64 + z as int % 64
  }

  function Four(x: byte, y: byte, z: byte, w: byte): nat {
    x as int % 8 * 0x4_0000 + y as int % 64 * 4096 + z as int % 64 * 64 + w as int % 64
  }

  /** The first character: an ill-formed start takes as many bytes as could still have
      begun a character. */
  function First(b: seq<byte>): (g: Glyph)
    requires b != []
    ensures 1 <= g.size <= |b|
  {
    var x, y := b[0], ByteAt(b, 1);
    if x < 0x80 then Glyph(x as char, 1)
    else if 0xC2 <= x <= 0xDF then
      if Continues(b, 1) then Glyph(Two(x, y) as char, 2) else Bad(1)
    else if 0xE0 <= x <= 0xEF then
      if !Follows(x, y) then Bad(1)
      else if !Continues(b, 2) then Bad(2)
      else Glyph(Three(x, y, b[2]) as char, 3)
    else if 0xF0 <= x <= 0xF4 then
      if !Follows(x, y) then Bad(1)
      else if !Continues(b, 2) then Bad(2)
      else if !Continues(b, 3) then Bad(3)
      else Glyph(Four(x, y, b[2], b[3]) as char, 4)
    else Bad(1)
  }

  function Lossy(b: seq<byte>): string {
    if b == [] then "" else [First(b).c] + Lossy(b[First(b).size..])
  }

  // ---- what is written is read ----

  lemma FirstOfUtf8(c: char, rest: seq<byte>)
    ensures First(Utf8(c) + rest) == Glyph(c, |Utf8(c)|)
  {
    hide First;
    var n, b := c as int, Utf8(c) + rest;
    if n < 0x80 {
      Read1(b);
    } else if n < 0x800 {
      Read2(n / 64, n % 64, b);
    } else if n < 0x1_0000 {
      Parts3(n);
      Read3(n / 4096, n / 64 % 64, n % 64, b);
    } else {
      Parts4(n);
      Read4(n / 0x4_0000, n / 4096 % 64, n / 64 % 64, n % 64, b);
    }
  }

  lemma Read1(b: seq<byte>)
    requires b != [] && b[0] < 128
    ensures First(b) == Glyph(b[0] as char, 1)
  {
  }

  lemma Read2(x: nat, y: nat, b: seq<byte>)
    requires 2 <= x < 32 && y < 64 && |b| >= 2 && b[0] == 192 + x && b[1] == 128 + y
    ensures First(b) == Glyph((x * 64 + y) as char, 2)
  {
    assert Two(b[0], b[1]) == x * 64 + y;
  }

  lemma Read3(x: nat, y: nat, z: nat, b: seq<byte>)
    requires x < 16 && y < 64 && z < 64 && |b| >= 3
    requires b[0] == 224 + x && b[1] == 128 + y && b[2] == 128 + z
    requires x * 64 + y >= 32 && !(x == 13 && y >= 32)
    ensures First(b) == Glyph((x * 4096 + y * 64 + z) as char, 3)
  {
    assert Three(b[0], b[1], b[2]) == x * 4096 + y * 64 + z;
    assert Follows(b[0], b[1]) && Continues(b, 2);
  }

  lemma Read4(x: nat, y: nat, z: nat, w: nat, b: seq<byte>)
    requires x < 5 && y < 64 && z < 64 && w < 64 && |b| >= 4
    requires b[0] == 240 + x && b[1] == 128 + y && b[2] == 128 + z && b[3] == 128 + w
    requires x * 64 + y >= 16 && !(x == 4 && y >= 16)
    ensures First(b) == Glyph((x * 0x4_0000 + y * 4096 + z * 64 + w) as char, 4)
  {
    assert Four(b[0], b[1], b[2], b[3]) == x * 0x4_0000 + y * 4096 + z * 64 + w;
    assert Follows(b[0], b[1]) && Continues(b, 2) && Continues(b, 3);
  }

  lemma Parts3(n: nat)
    requires 0x800 <= n < 0x1_0000
    ensures n == n / 4096 * 4096 + n / 64 % 64 * 64 + n % 64 && n / 4096 * 64 + n / 64 % 64 == n / 64
  {
  }

  lemma Parts4(n: nat)
    requires 0x1_0000 <= n < 0x11_0000
    ensures n == n / 0x4_0000 * 0x4_0000 + n / 4096 % 64 * 4096 + n / 64 % 64 * 64 + n % 64
    ensures n / 0x4_0000 * 64 + n / 4096 % 64 == n / 4096
  {
  }

  lemma LossyNext(c: char, rest: seq<byte>)
    ensures Lossy(Utf8(c) + rest) == [c] + Lossy(rest)
  {
    hide Utf8, First;
    FirstOfUtf8(c, rest);
    Utf8Size(c);
    assert (Utf8(c) + rest)[|Utf8(c)|..] == rest;
  }

  /** Text written as UTF-8 is read back, whatever follows it. */
  lemma {:induction false} LossyBack(s: string, rest: seq<byte>)
    ensures Lossy(Utf8All(s) + rest) == s + Lossy(rest)
  {
    hide Utf8, Lossy;
    if s == "" {
      assert Utf8All(s) + rest == rest && s + Lossy(rest) == Lossy(rest);
    } else {
      var more := Utf8All(s[1..]) + rest;
      assert Utf8All(s) + rest == Utf8(s[0]) + more;
      LossyNext(s[0], more);
      LossyBack(s[1..], rest);
      assert s == [s[0]] + s[1..];
    }
  }

  lemma Utf8Size(c: char)
    ensures 1 <= |Utf8(c)| <= 4
  {
  }

  lemma {:induction false} Utf8Concat(s: string, t: string)
    ensures Utf8All(s + t) == Utf8All(s) + Utf8All(t)
  {
    hide Utf8, Utf8All;
    Utf8Unfold(s);
    if s == "" {
      assert s + t == t;
    } else {
      Utf8Concat(s[1..], t);
      assert (s + t)[1..] == s[1..] + t;
      Utf8Unfold(s + t);
      assert Utf8(s[0]) + (Utf8All(s[1..]) + Utf8All(t)) == Utf8(s[0]) + Utf8All(s[1..]) + Utf8All(t);
    }
  }

  predicate Lossless(b: seq<byte>) {
    Utf8All(Lossy(b)) == b
  }

  /** Only well-formed UTF-8 is read without loss, and all of it is. */
  lemma LosslessIff(b: seq<byte>)
    ensures Lossless(b) <==> exists s :: Utf8All(s) == b
  {
    if s :| Utf8All(s) == b {
      LossyBack(s, []);
      assert b + [] == b && s + Lossy([]) == s;
    }
  }

  // ---- ASCII ----

  /** ASCII bytes are their own characters, and no others are read as ASCII. */
  lemma {:induction false} LossyAscii(b: seq<byte>)
    ensures |Lossy(b)| <= |b|
    ensures Ascii(Lossy(b)) <==> AsciiBytes(b)
    ensures AsciiBytes(b) ==> Lossy(b) == Text(b)
  {
    if b != [] {
      var g := First(b);
      FirstAscii(b);
      LossyAscii(b[g.size..]);
      assert Lossy(b)[0] == g.c && Lossy(b)[1..] == Lossy(b[g.size..]);
      if b[0] < 128 {
        assert b == [b[0]] + b[1..];
      }
    }
  }

  lemma FirstAscii(b: seq<byte>)
    requires b != []
    ensures if b[0] < 128 then First(b) == Glyph(b[0] as char, 1) else First(b).c as int >= 128
  {
  }

  lemma LossyRaw(s: string)
    requires Ascii(s)
    ensures Lossy(Raw(s)) == s
  {
    TextRaw(s, []);
    LossyAscii(Raw(s));
  }

  lemma {:induction false} AsciiIsUtf8(s: string)
    requires Ascii(s)
    ensures Utf8All(s) == Raw(s)
  {
    if s != "" {
      AsciiIsUtf8(s[1..]);
      assert Raw(s) == [s[0] as int] + Raw(s[1..]);
    }
  }

  /** An ASCII byte at the end is the last character. */
  lemma {:induction false} LossyLast(b: seq<byte>)
    requires b != []
    ensures Lossy(b) != ""
    ensures b[|b| - 1] < 128 ==> Lossy(b)[|Lossy(b)| - 1] == b[|b| - 1] as char
  {
    var n := First(b).size;
    if n < |b| {
      LossyLast(b[n..]);
    } else if b[n - 1] < 128 {
      FirstWhole(b);
    }
  }

  lemma FirstWhole(b: seq<byte>)
    requires b != [] && First(b).size == |b| && b[|b| - 1] < 128
    ensures |b| == 1 && Lossy(b) == [b[0] as char]
  {
    hide Lossy;
    assert b[1..] == [];
    LossyUnfold(b);
    LossyUnfold([]);
  }

  lemma LossyUnfold(b: seq<byte>)
    ensures Lossy(b) == if b == [] then "" else [First(b).c] + Lossy(b[First(b).size..])
  {
  }


  /** An ASCII byte never stands inside another character. */
  lemma AsciiSplits(s: string, i: nat) returns (k: nat)
    requires i < |Utf8All(s)| && Utf8All(s)[i] < 128
    ensures k < |s| && s[k] as int == Utf8All(s)[i]
    ensures Utf8All(s[..k]) == Utf8All(s)[..i] && Utf8All(s[k..]) == Utf8All(s)[i..]
    ensures Utf8All(s[k + 1..]) == Utf8All(s)[i + 1..]
  {
    hide Utf8All, Utf8;
    k := CharacterAt(s, i);
    CharacterIs(s, i, k);
    assert s[..k] + s[k..] == s && s[k..][1..] == s[k + 1..];
    Utf8Concat(s[..k], s[k..]);
  }

  lemma CharacterIs(s: string, i: nat, k: nat)
    requires i < |Utf8All(s)| && Utf8All(s)[i] < 128 && k < |s| && |Utf8All(s[..k])| == i
    ensures s[k] as int == Utf8All(s)[i] && Utf8All(s[k + 1..]) == Utf8All(s)[i + 1..]
  {
    hide Utf8All, Utf8;
    assert s[..k] + s[k..] == s && s[k..][0] == s[k] && s[k..][1..] == s[k + 1..];
    Utf8Concat(s[..k], s[k..]);
    Utf8Unfold(s[k..]);
    HighBytes(s[k]);
    var b := Utf8All(s[k..]);
    assert b[0] == Utf8All(s)[i] && b[0] == Utf8(s[k])[0];
    assert b[1..] == Utf8All(s[k + 1..]);
  }

  lemma {:induction false} CharacterAt(s: string, i: nat) returns (k: nat)
    requires i < |Utf8All(s)| && Utf8All(s)[i] < 128
    ensures k < |s| && |Utf8All(s[..k])| == i
  {
    hide Utf8All, Utf8;
    Utf8Unfold(s);
    var c, rest := Utf8(s[0]), Utf8All(s[1..]);
    HighBytes(s[0]);
    if i == 0 {
      k := 0;
      Utf8Unfold("");
    } else {
      assert i >= |c| && Utf8All(s)[i] == rest[i - |c|];
      var j := CharacterAt(s[1..], i - |c|);
      k := j + 1;
      assert s[..k][0] == s[0] && s[..k][1..] == s[1..][..j];
      Utf8Unfold(s[..k]);
    }
  }

  lemma Utf8Unfold(s: string)
    ensures Utf8All(s) == if s == "" then [] else Utf8(s[0]) + Utf8All(s[1..])
  {
  }

  lemma HighBytes(c: char)
    ensures Utf8(c) != [] && (Utf8(c)[0] < 128 ==> Utf8(c) == [c as int])
    ensures forall i :: 1 <= i < |Utf8(c)| ==> Utf8(c)[i] >= 128
  {
  }

  // ---- bytes that are no characters ----

  /** These bytes begin the form of some character, without completing it. */
  ghost predicate Begins(p: seq<byte>) {
    exists c: char :: |p| < |Utf8(c)| && Utf8(c)[..|p|] == p
  }

  ghost predicate StartsWith(b: seq<byte>, c: char) {
    |Utf8(c)| <= |b| && b[..|Utf8(c)|] == Utf8(c)
  }

  /** The bytes of every character. */
  lemma Utf8Shape(c: char)
    ensures var u := Utf8(c);
            && (|u| == 1 ==> u[0] < 0x80)
            && (|u| == 2 ==> 0xC2 <= u[0] <= 0xDF && 0x80 <= u[1] < 0xC0)
            && (|u| == 3 ==> 0xE0 <= u[0] <= 0xEF && Follows(u[0], u[1]) && 0x80 <= u[2] < 0xC0)
            && (|u| == 4 ==> 0xF0 <= u[0] <= 0xF4 && Follows(u[0], u[1]) && 0x80 <= u[2] < 0xC0 && 0x80 <= u[3] < 0xC0)
            && 1 <= |u| <= 4
  {
  }

  /** The other way round: bytes of that shape are those of a character. */
  lemma TwoBytes(x: byte, y: byte)
    requires 0xC2 <= x <= 0xDF && 0x80 <= y < 0xC0
    ensures Utf8(Two(x, y) as char) == [x, y]
  {
  }

  lemma ThreeBytes(x: byte, y: byte, z: byte)
    requires 0xE0 <= x <= 0xEF && Follows(x, y) && 0x80 <= z < 0xC0
    ensures var n := Three(x, y, z); 0x800 <= n < 0x1_0000 && !(0xD800 <= n < 0xE000)
    ensures Utf8(Three(x, y, z) as char) == [x, y, z]
  {
    var a, b, d := x as int - 224, y as int - 128, z as int - 128;
    ThreeParts(a, b, d);
    assert x as int % 16 == a && y as int % 64 == b && z as int % 64 == d;
  }

  lemma ThreeParts(a: nat, b: nat, d: nat)
    requires a < 16 && b < 64 && d < 64 && a * 64 + b >= 32 && !(a == 13 && b >= 32)
    ensures var n := a * 4096 + b * 64 + d;
            && 0x800 <= n < 0x1_0000 && !(0xD800 <= n < 0xE000)
            && n / 4096 == a && n / 64 % 64 == b && n % 64 == d
  {
    assert (a * 4096 + b * 64 + d) / 64 == a * 64 + b;
  }

  lemma FourBytes(x: byte, y: byte, z: byte, w: byte)
    requires 0xF0 <= x <= 0xF4 && Follows(x, y) && 0x80 <= z < 0xC0 && 0x80 <= w < 0xC0
    ensures 0x1_0000 <= Four(x, y, z, w) < 0x11_0000
    ensures Utf8(Four(x, y, z, w) as char) == [x, y, z, w]
  {
    var a, b, d, e := x as int - 240, y as int - 128, z as int - 128, w as int - 128;
    FourParts(a, b, d, e);
    assert x as int % 8 == a && y as int % 64 == b && z as int % 64 == d && w as int % 64 == e;
  }

  lemma FourParts(a: nat, b: nat, d: nat, e: nat)
    requires a < 5 && b < 64 && d < 64 && e < 64 && a * 64 + b >= 16 && !(a == 4 && b >= 16)
    ensures var n := a * 0x4_0000 + b * 4096 + d * 64 + e;
            && 0x1_0000 <= n < 0x11_0000
            && n / 0x4_0000 == a && n / 4096 % 64 == b && n / 64 % 64 == d && n % 64 == e
  {
    var n := a * 0x4_0000 + b * 4096 + d * 64 + e;
    assert n / 64 == a * 4096 + b * 64 + d;
    assert n / 4096 == a * 64 + b;
  }

  /** Reading takes the character that the bytes start with; if there is none it gives one
      replacement for the longest run that begins a character, or for one byte. */
  lemma FirstExact(b: seq<byte>)
    requires b != []
    ensures var g := First(b);
            || (StartsWith(b, g.c) && g.size == |Utf8(g.c)|)
            || (g.c == REPLACEMENT && (g.size == 1 || Begins(b[..g.size]))
                && (forall c :: !StartsWith(b, c))
                && forall m :: g.size < m <= |b| ==> !Begins(b[..m]))
    ensures forall c :: StartsWith(b, c) ==> First(b) == Glyph(c, |Utf8(c)|)
  {
    forall c | StartsWith(b, c)
      ensures First(b) == Glyph(c, |Utf8(c)|)
    {
      assert b == Utf8(c) + b[|Utf8(c)|..];
      FirstOfUtf8(c, b[|Utf8(c)|..]);
    }
    if !Wellformed(b) {
      IllFormed(b);
    } else {
      WellFormed(b);
    }
  }

  /** The start of `b` has the shape of a character. */
  predicate Wellformed(b: seq<byte>)
    requires b != []
  {
    var x := b[0];
    || x < 0x80
    || (0xC2 <= x <= 0xDF && Continues(b, 1))
    || (0xE0 <= x <= 0xEF && Follows(x, ByteAt(b, 1)) && Continues(b, 2))
    || (0xF0 <= x <= 0xF4 && Follows(x, ByteAt(b, 1)) && Continues(b, 2) && Continues(b, 3))
  }

  lemma WellFormed(b: seq<byte>)
    requires b != [] && Wellformed(b)
    ensures var g := First(b); StartsWith(b, g.c) && g.size == |Utf8(g.c)|
  {
    var x := b[0];
    if x < 0x80 {
      assert b[..1] == [x];
    } else if x <= 0xDF {
      TwoBytes(x, b[1]);
      assert b[..2] == [x, b[1]];
    } else if x <= 0xEF {
      ThreeBytes(x, b[1], b[2]);
      assert b[..3] == [x, b[1], b[2]];
    } else {
      FourBytes(x, b[1], b[2], b[3]);
      assert b[..4] == [x, b[1], b[2], b[3]];
    }
  }

  lemma IllFormed(b: seq<byte>)
    requires b != [] && !Wellformed(b)
    ensures var g := First(b);
            && g.c == REPLACEMENT && (g.size == 1 || Begins(b[..g.size]))
            && (forall c :: !StartsWith(b, c))
            && forall m :: g.size < m <= |b| ==> !Begins(b[..m])
  {
    hide Utf8;
    var g, x := First(b), b[0];
    forall c
      ensures !StartsWith(b, c)
    {
      Utf8Shape(c);
    }
    forall m | g.size < m <= |b|
      ensures !Begins(b[..m])
    {
      NotBegun(b, m);
    }
    if g.size > 1 {
      Begun(b, g.size);
    }
  }

  lemma NotBegun(b: seq<byte>, m: nat)
    requires b != [] && !Wellformed(b) && First(b).size < m <= |b|
    ensures !Begins(b[..m])
  {
    hide Utf8;
    forall c | m < |Utf8(c)|
      ensures Utf8(c)[..m] != b[..m]
    {
      Utf8Shape(c);
      if Utf8(c)[..m] == b[..m] {
        assert forall i :: 0 <= i < m ==> b[i] == b[..m][i] == Utf8(c)[..m][i] == Utf8(c)[i];
      }
    }
  }

  lemma Begun(b: seq<byte>, n: nat)
    requires b != [] && !Wellformed(b) && n == First(b).size && n > 1
    ensures Begins(b[..n])
  {
    var x := b[0];
    if x <= 0xEF {
      ThreeBytes(x, b[1], 0x80);
      assert b[..2] == Utf8(Three(x, b[1], 0x80) as char)[..2];
    } else if n == 2 {
      FourBytes(x, b[1], 0x80, 0x80);
      assert b[..2] == Utf8(Four(x, b[1], 0x80, 0x80) as char)[..2];
    } else {
      FourBytes(x, b[1], b[2], 0x80);
      assert b[..3] == Utf8(Four(x, b[1], b[2], 0x80) as char)[..3];
    }
  }
}
