/** The text forms, spelled out: what digits, encodings and records look like for every input,
    and which texts are read although they are not what is printed. */
module TextForms {
  import opened Wrappers
  import opened Bytes
  import opened Unicode
  import opened Lexing
  import opened Names
  import opened SvcParams
  import opened RecordData
  import NamedRecords
  import FieldRecords

  // ---- numbers ----

  function DigitOf(d: nat): char
    requires d < 10
  {
    ('0' as int + d) as char
  }

  /** Numbers are decimal. */
  lemma TenTimes(s: string, d: nat)
    requires (forall i :: 0 <= i < |s| ==> Digit(s[i])) && d < 10
    ensures forall i :: 0 <= i < |s| + 1 ==> Digit((s + [DigitOf(d)])[i])
    ensures NumberOf(s + [DigitOf(d)]) == 10 * NumberOf(s) + d
  {
    assert (s + [DigitOf(d)])[..|s|] == s;
  }

  // ---- hexadecimal ----

  /** Two lower-case digits for every byte. */
  lemma {:induction false} HexForm(b: seq<byte>, i: nat)
    requires i < |b|
    ensures |Hex(b)| == 2 * |b|
    ensures Hex(b)[2 * i] == "0123456789abcdef"[b[i] / 16] && Hex(b)[2 * i + 1] == "0123456789abcdef"[b[i] % 16]
  {
    if i > 0 {
      HexForm(b[1..], i - 1);
    } else {
      HexSize(b);
    }
  }

  lemma {:induction false} HexSize(b: seq<byte>)
    ensures |Hex(b)| == 2 * |b|
  {
    if b != [] {
      HexSize(b[1..]);
    }
  }

  predicate IsHex(c: char) {
    '0' <= c <= '9' || 'a' <= c <= 'f' || 'A' <= c <= 'F'
  }

  function HexValue(c: char): (v: byte)
    requires IsHex(c)
    ensures v < 16
  {
    if c <= '9' then c as int - '0' as int
    else if c <= 'F' then c as int - 'A' as int + 10
    else c as int - 'a' as int + 10
  }

  predicate AllHex(s: string) {
    forall i :: 0 <= i < |s| ==> IsHex(s[i])
  }

  /** The bytes that the digits make two by two. */
  ghost predicate Pairs(s: string, v: seq<byte>) {
    && |s| == 2 * |v| && AllHex(s)
    && forall i :: 0 <= i < |v| ==> v[i] == HexValue(s[2 * i]) * 16 + HexValue(s[2 * i + 1])
  }

  /** Exactly the texts of an even number of digits, of either case, are read; two digits make a
      byte. */
  lemma {:induction false} UnhexIff(s: string)
    ensures Unhex(s).Some? <==> |s| % 2 == 0 && AllHex(s)
    ensures Unhex(s).Some? ==> Pairs(s, Unhex(s).value)
  {
    if |s| >= 2 {
      hide Nibble, HexValue, IsHex, AllHex, Pairs, Unhex;
      UnhexIff(s[2..]);
      UnhexStep(s);
      TwoMore(s);
      if Unhex(s).Some? {
        var v := Unhex(s).value;
        assert v[1..] == Unhex(s[2..]).value;
        PairsMore(s, v);
      }
    } else {
      hide Nibble, HexValue;
    }
  }

  lemma UnhexStep(s: string)
    requires |s| >= 2
    ensures Unhex(s) == if IsHex(s[0]) && IsHex(s[1]) && Unhex(s[2..]).Some?
                        then Some([HexValue(s[0]) * 16 + HexValue(s[1])] + Unhex(s[2..]).value) else None
  {
    Nibbles(s[0]);
    Nibbles(s[1]);
    hide Nibble, HexValue, IsHex;
  }

  lemma TwoMore(s: string)
    requires |s| >= 2
    ensures AllHex(s) <==> IsHex(s[0]) && IsHex(s[1]) && AllHex(s[2..])
  {
    hide IsHex;
    if IsHex(s[0]) && IsHex(s[1]) && AllHex(s[2..]) {
      forall i | 0 <= i < |s|
        ensures IsHex(s[i])
      {
        assert i >= 2 ==> s[2..][i - 2] == s[i];
      }
    }
  }

  lemma PairsMore(s: string, v: seq<byte>)
    requires |s| >= 2 && v != [] && Pairs(s[2..], v[1..])
    requires IsHex(s[0]) && IsHex(s[1]) && v[0] == HexValue(s[0]) * 16 + HexValue(s[1])
    ensures Pairs(s, v)
  {
    TwoMore(s);
    hide HexValue, IsHex;
    forall i | 0 <= i < |v|
      ensures v[i] == HexValue(s[2 * i]) * 16 + HexValue(s[2 * i + 1])
    {
      if i > 0 {
        assert s[2..][2 * (i - 1)] == s[2 * i] && s[2..][2 * (i - 1) + 1] == s[2 * i + 1];
        assert v[1..][i - 1] == v[i];
      }
    }
  }

  lemma Nibbles(c: char)
    ensures Nibble(c) == if IsHex(c) then Some(HexValue(c)) else None
  {
  }

  // ---- base64 ----

  /** The character for six bits: A to Z, a to z, 0 to 9, plus and slash. */
  function Letter(v: nat): char
    requires v < 64
  {
    if v < 26 then ('A' as int + v) as char
    else if v < 52 then ('a' as int + (v - 26)) as char
    else if v < 62 then ('0' as int + (v - 52)) as char
    else if v == 62 then '+' else '/'
  }

  predicate IsLetter(c: char) {
    'A' <= c <= 'Z' || 'a' <= c <= 'z' || '0' <= c <= '9' || c == '+' || c == '/'
  }

  function ByteOr0(b: seq<byte>, i: nat): nat {
    if i < |b| then b[i] else 0
  }

  /** The 24 bits of the three bytes from `i` on. */
  function Bits24(b: seq<byte>, i: nat): (n: nat) {
    ByteOr0(b, i) * 0x1_0000 + ByteOr0(b, i + 1) * 0x100 + ByteOr0(b, i + 2)
  }

  /** The four characters for them, those that hold no bits being equals signs. */
  function Four(b: seq<byte>, i: nat): (s: string)
    requires i < |b|
    ensures |s| == 4
  {
    var n := Bits24(b, i);
    Bound(b, i);
    [Letter(n / 0x4_0000), Letter(n / 0x1000 % 64), if i + 1 < |b| then Letter(n / 64 % 64) else '=',
     if i + 2 < |b| then Letter(n % 64) else '=']
  }

  lemma Bound(b: seq<byte>, i: nat)
    ensures Bits24(b, i) / 0x4_0000 < 64
  {
  }

  /** Four characters for every three bytes, and for what is left of them at the end. */
  lemma {:induction false} Base64Form(b: seq<byte>, g: nat)
    requires 3 * g < |b|
    ensures |Base64(b)| == (|b| + 2) / 3 * 4 && 4 * g + 4 <= |Base64(b)|
    ensures Base64(b)[4 * g..4 * g + 4] == Four(b, 3 * g)
  {
    hide B64Group, Four;
    GroupSize(b);
    if g > 0 {
      Base64Form(b[3..], g - 1);
      FourLater(b, 3 * g);
      assert Base64(b)[4 * g..4 * g + 4] == Base64(b[3..])[4 * (g - 1)..4 * (g - 1) + 4];
    } else {
      GroupForm(b);
      FirstGroup(b);
    }
  }

  lemma FirstGroup(b: seq<byte>)
    requires b != []
    ensures |Base64(b)| >= 4 && Base64(b)[..4] == B64Group(b[..if |b| < 3 then |b| else 3])
  {
    hide B64Group;
    assert b[..|b|] == b;
  }

  lemma FourLater(b: seq<byte>, i: nat)
    requires 3 <= i < |b|
    ensures Four(b, i) == Four(b[3..], i - 3)
  {
    assert forall j :: i <= j < |b| ==> b[3..][j - 3] == b[j];
    assert Bits24(b, i) == Bits24(b[3..], i - 3);
  }

  lemma {:induction false} GroupSize(b: seq<byte>)
    ensures |Base64(b)| == (|b| + 2) / 3 * 4
  {
    hide B64Group;
    if |b| > 3 {
      GroupSize(b[3..]);
    }
  }

  lemma GroupForm(b: seq<byte>)
    requires b != []
    ensures B64Group(b[..if |b| < 3 then |b| else 3]) == Four(b, 0)
  {
    hide B64Char, Letter;
    var x, y, z := ByteOr0(b, 0), ByteOr0(b, 1), ByteOr0(b, 2);
    FourGroups(x, y, z);
    Letters(x / 4);
    Letters(x % 4 * 16 + y / 16);
    Letters(y % 16 * 4 + z / 64);
    Letters(z % 64);
    assert Bits24(b, 0) == x * 0x1_0000 + y * 0x100 + z;
  }

  lemma FourGroups(x: nat, y: nat, z: nat)
    requires x < 256 && y < 256 && z < 256
    ensures var n := x * 0x1_0000 + y * 0x100 + z;
            && n / 0x4_0000 == x / 4 < 64 && n / 0x1000 % 64 == x % 4 * 16 + y / 16 < 64
            && n / 64 % 64 == y % 16 * 4 + z / 64 < 64 && n % 64 == z % 64
  {
    SixBits(x / 4, x % 4, y / 16, y % 16, z / 64, z % 64);
  }

  lemma SixBits(a: nat, b: nat, c: nat, d: nat, e: nat, f: nat)
    requires a < 64 && b < 4 && c < 16 && d < 16 && e < 4 && f < 64
    ensures var n := (4 * a + b) * 0x1_0000 + (16 * c + d) * 0x100 + (64 * e + f);
            n / 0x4_0000 == a && n / 0x1000 % 64 == b * 16 + c && n / 64 % 64 == d * 4 + e && n % 64 == f
  {
    var n := (4 * a + b) * 0x1_0000 + (16 * c + d) * 0x100 + (64 * e + f);
    assert n == 0x4_0000 * a + (b * 0x1_0000 + c * 0x1000 + d * 0x100 + e * 64 + f);
    assert n / 0x1000 == 64 * a + (b * 16 + c);
    assert n / 64 == 64 * (64 * a + b * 16 + c) + (d * 4 + e);
  }

  lemma Letters(v: nat)
    requires v < 64
    ensures B64Char(v) == Letter(v)
  {
  }

  /** The text up to its first equals sign, without blanks. */
  function Packed(s: string): string {
    if s == "" || s[0] == '=' then "" else (if Blank(s[0]) then "" else [s[0]]) + Packed(s[1..])
  }

  /** Blanks, and all from the first equals sign on, do not matter; what is left is read if and
      only if it is in the alphabet. */
  lemma {:induction false} UnbaseIff(s: string, acc: nat, bits: nat)
    requires bits < 8
    ensures Unbase64From(s, acc, bits) == Unbase64From(Packed(s), acc, bits)
    ensures Unbase64From(s, acc, bits).Some? <==> forall i :: 0 <= i < |Packed(s)| ==> IsLetter(Packed(s)[i])
  {
    hide Blank, B64Value, TopByte, IsLetter, Unbase64From, Packed;
    UnbaseStep(s, acc, bits);
    PackedStep(s);
    if s == "" || s[0] == '=' {
      UnbaseStep("", acc, bits);
    } else if Blank(s[0]) {
      UnbaseIff(s[1..], acc, bits);
    } else {
      LetterIff(s[0]);
      var p := Packed(s);
      UnbaseStep(p, acc, bits);
      assert p[1..] == Packed(s[1..]);
      if IsLetter(s[0]) {
        UnbaseIff(s[1..], (acc * 64 + B64Value(s[0]).value) % WIDE, if bits + 6 >= 8 then bits - 2 else bits + 6);
        assert forall i :: 0 < i < |p| ==> p[i] == p[1..][i - 1];
        assert forall i :: 0 <= i < |p[1..]| ==> p[1..][i] == p[i + 1];
      }
    }
  }

  lemma PackedStep(s: string)
    ensures Packed(s) == if s == "" || s[0] == '=' then "" else if Blank(s[0]) then Packed(s[1..])
                         else [s[0]] + Packed(s[1..])
  {
  }

  lemma UnbaseStep(s: string, acc: nat, bits: nat)
    requires bits < 8
    ensures Unbase64From(s, acc, bits) ==
            if s == "" || s[0] == '=' then Some([])
            else if Blank(s[0]) then Unbase64From(s[1..], acc, bits)
            else if B64Value(s[0]) == None then None
            else
              var acc' := (acc * 64 + B64Value(s[0]).value) % WIDE;
              if bits + 6 >= 8 then Appended([TopByte(acc', bits - 2)], Unbase64From(s[1..], acc', bits - 2))
              else Unbase64From(s[1..], acc', bits + 6)
  {
    hide Blank, B64Value, TopByte, Appended;
  }

  lemma LetterIff(c: char)
    ensures B64Value(c).Some? <==> IsLetter(c)
    ensures IsLetter(c) ==> !Blank(c) && c != '='
  {
  }

  // ---- escapes ----

  /** A backslash and three digits are the byte of that decimal number, if there is one; before
      any other character it stands for that character. */
  lemma UnescapeForms(c: char, x: nat, y: nat, z: nat, rest: string)
    requires x < 10 && y < 10 && z < 10
    ensures var v := 100 * x + 10 * y + z;
            Unescape([SLASH, DigitOf(x), DigitOf(y), DigitOf(z)] + rest) ==
            if v > 255 || Unescape(rest) == None then None else Some([v] + Unescape(rest).value)
    ensures !Digit(c) ==>
              Unescape([SLASH, c] + rest) == if Unescape(rest) == None then None
                                             else Some(Utf8(c) + Unescape(rest).value)
    ensures c != SLASH ==>
              Unescape([c] + rest) == if Unescape(rest) == None then None
                                      else Some(Utf8(c) + Unescape(rest).value)
  {
    hide Utf8, Unescape;
    ThreeDigitForm(x, y, z, rest);
    UnescapeStep2([SLASH, c] + rest);
    UnescapeStep2([c] + rest);
    assert ([SLASH, c] + rest)[2..] == rest && ([c] + rest)[1..] == rest;
  }

  lemma UnescapeStep2(s: string)
    requires s != ""
    ensures s[0] != SLASH ==> Unescape(s) == Appended(Utf8(s[0]), Unescape(s[1..]))
    ensures s[0] == SLASH && |s| >= 2 && !Digit(s[1]) ==> Unescape(s) == Appended(Utf8(s[1]), Unescape(s[2..]))
  {
    hide Utf8, Appended;
  }

  lemma ThreeDigitForm(x: nat, y: nat, z: nat, rest: string)
    requires x < 10 && y < 10 && z < 10
    ensures var v := 100 * x + 10 * y + z;
            Unescape([SLASH, DigitOf(x), DigitOf(y), DigitOf(z)] + rest) ==
            if v > 255 || Unescape(rest) == None then None else Some([v] + Unescape(rest).value)
  {
    hide Utf8;
    var s := [SLASH, DigitOf(x), DigitOf(y), DigitOf(z)] + rest;
    assert s[4..] == rest && ThreeDigits(s[1..]);
  }

  /** Visible ASCII stands for itself, but for quotes, backslashes and, in lists, commas; so does a
      blank outside lists; every other byte is written as a backslash and three digits. */
  lemma EscapedForm(x: byte, rest: seq<byte>, inList: bool)
    ensures var plain := || (33 <= x <= 126 && x != 34 && x != 92 && !(inList && x == 44))
                         || (x == 32 && !inList);
            Escaped([x] + rest, inList)
            == (if plain then [x as char] else [SLASH, DigitOf(x / 100), DigitOf(x / 10 % 10), DigitOf(x % 10)])
               + Escaped(rest, inList)
    ensures Quoted(rest) == "\"" + Escaped(rest, false) + "\""
  {
    assert ([x] + rest)[1..] == rest;
  }

  // ---- text segments ----

  function SegmentBytes(pieces: seq<string>): seq<byte>
    requires forall i :: 0 <= i < |pieces| ==> |Utf8All(pieces[i])| <= 255
  {
    if pieces == [] then []
    else [|Utf8All(pieces[0])|] + Utf8All(pieces[0]) + SegmentBytes(pieces[1..])
  }

  function Whole(pieces: seq<string>): string {
    if pieces == [] then "" else pieces[0] + Whole(pieces[1..])
  }

  /** Each piece holds as many characters as fit 255 bytes. */
  ghost predicate Greedy(pieces: seq<string>) {
    && (forall i :: 0 <= i < |pieces| ==> pieces[i] != "" && |Utf8All(pieces[i])| <= 255)
    && forall i :: 0 <= i < |pieces| - 1 ==> |Utf8All(pieces[i])| + |Utf8(pieces[i + 1][0])| > 255
  }

  /** Text is cut into length-prefixed pieces of whole characters, each as long as 255 bytes
      allow. */
  lemma {:induction false} SegmentsCut(s: string, done: string) returns (pieces: seq<string>)
    requires |Utf8All(done)| <= 255
    ensures Greedy(pieces) && Whole(pieces) == done + s && SegmentBytes(pieces) == Segments(s, Utf8All(done))
    ensures done != "" ==> pieces != [] && pieces[0] != "" && pieces[0][0] == done[0]
  {
    hide Utf8, Utf8All, Segments, Greedy, Whole, SegmentBytes;
    EmptyText();
    if s == "" {
      LastSegment(done);
      pieces := if done == "" then [] else [done];
      OnePiece(done);
      assert done + "" == done;
    } else {
      var cur, c := Utf8All(done), Utf8(s[0]);
      Utf8Size(s[0]);
      NamedRecords.OneCharacter(s[0]);
      SegmentsUnfold(s, cur);
      assert s == [s[0]] + s[1..];
      if |cur| + |c| > 255 {
        var more := SegmentsCut(s[1..], [s[0]]);
        pieces := [done] + more;
        MorePieces(done, more);
        assert [s[0]] + s[1..] == s;
      } else {
        Utf8Concat(done, [s[0]]);
        pieces := SegmentsCut(s[1..], done + [s[0]]);
        assert done + [s[0]] + s[1..] == done + s;
      }
    }
  }

  lemma OnePiece(done: string)
    requires |Utf8All(done)| <= 255
    ensures Greedy([]) && Whole([]) == "" && SegmentBytes([]) == []
    ensures done != "" ==> Greedy([done]) && Whole([done]) == done
                           && SegmentBytes([done]) == [|Utf8All(done)|] + Utf8All(done)
  {
    hide Utf8, Utf8All;
    assert [done][1..] == [] && done + "" == done;
  }

  lemma MorePieces(done: string, more: seq<string>)
    requires |Utf8All(done)| <= 255 && done != "" && Greedy(more) && more != []
    requires more[0] != "" && |Utf8All(done)| + |Utf8(more[0][0])| > 255
    ensures Greedy([done] + more) && Whole([done] + more) == done + Whole(more)
    ensures SegmentBytes([done] + more) == [|Utf8All(done)|] + Utf8All(done) + SegmentBytes(more)
  {
    hide Utf8, Utf8All;
    var all := [done] + more;
    assert all[1..] == more;
    assert forall i :: 0 < i < |all| ==> all[i] == more[i - 1];
  }

  lemma EmptyText()
    ensures Utf8All("") == []
  {
  }

  lemma LastSegment(done: string)
    requires |Utf8All(done)| <= 255
    ensures Segments("", Utf8All(done)) == if done == "" then [] else [|Utf8All(done)|] + Utf8All(done)
    ensures done != "" ==> [|Utf8All(done)|] + Utf8All(done) + [] == Segments("", Utf8All(done))
  {
    if done != "" {
      Utf8Size(done[0]);
    }
  }

  // ---- service parameters ----

  /** The registered names, by number; they are read in any case. */
  lemma KeyNames(key: u16, name: string)
    ensures KeyText(key) ==
            if key < 9 then ["mandatory", "alpn", "no-default-alpn", "port", "ipv4hint", "ech", "ipv6hint", "dohpath",
                             "ohttp"][key]
            else "key" + Decimal(key)
    ensures KeyCode(name) == KeyCode(Lower(name))
  {
    hide Decimal;
    assert KEY == "key";
    assert Lower(Lower(name)) == Lower(name);
  }

  /** A port, a key configuration, a path, and the two parameters without a value. */
  lemma SimpleForms(ip: IpText, x: byte, y: byte, value: seq<byte>)
    ensures Display(ip, 3, [x, y]) == "port=" + Decimal(256 * x + y)
    ensures Display(ip, 5, value) == "ech=" + Base64(value)
    ensures Display(ip, 7, value) == "dohpath=" + Quoted(value)
    ensures Display(ip, 2, []) == "no-default-alpn" && Display(ip, 8, []) == "ohttp"
    ensures value != [] ==>
              Display(ip, 2, value) == "key2=" + Quoted(value) && Display(ip, 8, value) == "key8=" + Quoted(value)
    ensures |value| != 2 ==> Display(ip, 3, value) == "key3=" + Quoted(value)
  {
    hide Quoted, Base64;
    assert "port" + [EQUALS] == "port=" && "ech" + [EQUALS] == "ech=" && "dohpath" + [EQUALS] == "dohpath=";
    SmallKeys();
  }

  lemma SmallKeys()
    ensures KEY + Decimal(2) + [EQUALS] == "key2=" && KEY + Decimal(3) + [EQUALS] == "key3="
    ensures KEY + Decimal(8) + [EQUALS] == "key8="
  {
  }

  /** Keys without a form of their own are shown by number. */
  lemma NumberForm(ip: IpText, key: u16, value: seq<byte>)
    requires key > 8
    ensures Display(ip, key, value) == "key" + Decimal(key) + "=" + Quoted(value)
  {
  }

  /** Lists of keys and of protocols. */
  lemma ListForms(ip: IpText, keys: seq<u16>, items: seq<seq<byte>>)
    requires keys != [] && items != [] && forall i :: 0 <= i < |items| ==> 1 <= |items[i]| <= 255
    ensures Display(ip, 0, KeyBytes(keys)) == "mandatory=" + Join(KeyTexts(keys), ',')
    ensures Display(ip, 1, ItemBytes(items)) == "alpn=" + Join(ItemTexts(items), ',')
  {
    hide Join, KeyTexts, ItemTexts, MandatoryTexts, HintTexts, Items, KeyBytes, ItemBytes;
    MandatoryForm(keys);
    ItemForm(items);
    assert MandatoryText(KeyBytes(keys)) == Some(Join(KeyTexts(keys), ','));
    assert "mandatory" + [EQUALS] == "mandatory=" && "alpn" + [EQUALS] == "alpn=";
  }

  /** Lists of addresses. */
  lemma HintForms(ip: IpText, addresses: seq<seq<byte>>)
    requires addresses != []
    ensures (forall i :: 0 <= i < |addresses| ==> |addresses[i]| == 4) ==>
              Display(ip, 4, Joint(addresses)) == "ipv4hint=" + Join(Shown4(ip, addresses), ',')
    ensures (forall i :: 0 <= i < |addresses| ==> |addresses[i]| == 16) ==>
              Display(ip, 6, Joint(addresses)) == "ipv6hint=" + Join(Shown6(ip, addresses), ',')
  {
    hide Join, Shown4, Shown6, HintTexts, Joint;
    assert "ipv4hint" + [EQUALS] == "ipv4hint=" && "ipv6hint" + [EQUALS] == "ipv6hint=";
    if forall i :: 0 <= i < |addresses| ==> |addresses[i]| == 4 {
      HintForm(ip, addresses, 4);
    }
    if forall i :: 0 <= i < |addresses| ==> |addresses[i]| == 16 {
      HintForm(ip, addresses, 16);
    }
  }

  function KeyBytes(keys: seq<u16>): seq<byte> {
    if keys == [] then [] else Be16(keys[0]) + KeyBytes(keys[1..])
  }

  function KeyTexts(keys: seq<u16>): (r: seq<string>)
    ensures |r| == |keys| && forall i :: 0 <= i < |r| ==> r[i] == KeyText(keys[i])
  {
    seq(|keys|, i requires 0 <= i < |keys| => KeyText(keys[i]))
  }

  function ItemBytes(items: seq<seq<byte>>): seq<byte>
    requires forall i :: 0 <= i < |items| ==> |items[i]| <= 255
  {
    if items == [] then [] else [|items[0]|] + items[0] + ItemBytes(items[1..])
  }

  function Joint(parts: seq<seq<byte>>): seq<byte> {
    if parts == [] then [] else parts[0] + Joint(parts[1..])
  }

  function Shown4(ip: IpText, addresses: seq<seq<byte>>): (r: seq<string>)
    ensures |r| == |addresses| && forall i :: 0 <= i < |r| ==> r[i] == ip.show4(addresses[i])
  {
    seq(|addresses|, i requires 0 <= i < |addresses| => ip.show4(addresses[i]))
  }

  function Shown6(ip: IpText, addresses: seq<seq<byte>>): (r: seq<string>)
    ensures |r| == |addresses| && forall i :: 0 <= i < |r| ==> r[i] == ip.show6(addresses[i])
  {
    seq(|addresses|, i requires 0 <= i < |addresses| => ip.show6(addresses[i]))
  }

  lemma {:induction false} MandatoryForm(keys: seq<u16>)
    ensures |KeyBytes(keys)| == 2 * |keys| && MandatoryTexts(KeyBytes(keys)) == KeyTexts(keys)
  {
    hide KeyText, Num16, Be16;
    if keys != [] {
      MandatoryForm(keys[1..]);
      Be16RoundTrip(keys[0], 0, 0);
      var b := KeyBytes(keys);
      assert b[0] == Be16(keys[0])[0] && b[1] == Be16(keys[0])[1] && b[2..] == KeyBytes(keys[1..]);
      assert KeyTexts(keys) == [KeyText(keys[0])] + KeyTexts(keys[1..]);
    }
  }

  lemma {:induction false} ItemForm(items: seq<seq<byte>>)
    requires forall i :: 0 <= i < |items| ==> 1 <= |items[i]| <= 255
    ensures Items(ItemBytes(items)) == Some(items) && (items != [] ==> ItemBytes(items) != [])
  {
    if items != [] {
      hide Items;
      ItemForm(items[1..]);
      ItemsCons(items[0], ItemBytes(items[1..]));
      assert items == [items[0]] + items[1..];
    }
  }

  lemma ItemsCons(item: seq<byte>, more: seq<byte>)
    requires 1 <= |item| <= 255
    ensures Items([|item|] + item + more) == match Items(more) case None => None case Some(r) => Some([item] + r)
  {
    var b, n := [|item|] + item + more, |item|;
    assert b[0] == n && b[1..1 + n] == item && b[1 + n..] == more;
  }

  lemma {:induction false} HintForm(ip: IpText, addresses: seq<seq<byte>>, width: nat)
    requires (width == 4 || width == 16) && forall i :: 0 <= i < |addresses| ==> |addresses[i]| == width
    ensures |Joint(addresses)| == width * |addresses| && |Joint(addresses)| % width == 0
    ensures HintTexts(ip, Joint(addresses), width)
         == if width == 4 then Shown4(ip, addresses) else Shown6(ip, addresses)
  {
    JointSize(addresses, width);
    if addresses != [] {
      hide HintTexts, Joint, Shown4, Shown6;
      HintForm(ip, addresses[1..], width);
      HintFormCons(ip, addresses[0], Joint(addresses[1..]), width);
      JointStep(addresses);
      ShownStep(ip, addresses);
    }
  }

  lemma ShownStep(ip: IpText, addresses: seq<seq<byte>>)
    requires addresses != []
    ensures Shown4(ip, addresses) == [ip.show4(addresses[0])] + Shown4(ip, addresses[1..])
    ensures Shown6(ip, addresses) == [ip.show6(addresses[0])] + Shown6(ip, addresses[1..])
  {
  }

  lemma {:induction false} JointStep(parts: seq<seq<byte>>)
    requires parts != []
    ensures Joint(parts) == parts[0] + Joint(parts[1..])
  {
  }

  lemma {:induction false} JointSize(addresses: seq<seq<byte>>, width: nat)
    requires (width == 4 || width == 16) && forall i :: 0 <= i < |addresses| ==> |addresses[i]| == width
    ensures |Joint(addresses)| == width * |addresses| && |Joint(addresses)| % width == 0
  {
    if addresses != [] {
      JointSize(addresses[1..], width);
    }
  }

  lemma {:induction false} HintFormCons(ip: IpText, address: seq<byte>, more: seq<byte>, width: nat)
    requires (width == 4 || width == 16) && |address| == width && |more| % width == 0
    ensures |address + more| % width == 0
    ensures HintTexts(ip, address + more, width)
         == [if width == 4 then ip.show4(address) else ip.show6(address)] + HintTexts(ip, more, width)
  {
    var b := address + more;
    assert b[..width] == address && b[width..] == more;
  }

  // ---- from wire to text ----

  /** The data at `pos` is valid for its type and shown like this. */
  ghost predicate ShownAs(ip: IpText, data: seq<byte>, pos: nat, rtype: u16, rdlen: nat, text: string) {
    var r := ParseRData(data, pos, rtype, rdlen);
    r.Some? && AsDisplay(ip, r.value) == text
  }

  function Wide(hi: nat, lo: nat): nat {
    256 * hi + lo
  }

  /** Records without names: what every one of their bytes is shown as. */
  lemma DigestsShown(ip: IpText, data: seq<byte>, pos: nat, rdlen: nat)
    requires 4 <= rdlen && pos + rdlen <= |data|
    ensures var d := data[pos..pos + rdlen];
            var fields := Decimal(Wide(d[0], d[1])) + " " + Decimal(d[2]) + " " + Decimal(d[3]) + " ";
            && ShownAs(ip, data, pos, 43, rdlen, fields + Hex(d[4..]))
            && ShownAs(ip, data, pos, 59, rdlen, fields + Hex(d[4..]))
            && ShownAs(ip, data, pos, 48, rdlen, fields + Base64(d[4..]))
            && ShownAs(ip, data, pos, 60, rdlen, fields + Base64(d[4..]))
  {
    hide Decimal, Hex, Base64, Quoted, Line;
    var d := data[pos..pos + rdlen];
    assert Num16(d[0], d[1]) == Wide(d[0], d[1]);
    FourWords(Decimal(Wide(d[0], d[1])), Decimal(d[2]), Decimal(d[3]), Hex(d[4..]));
    FourWords(Decimal(Wide(d[0], d[1])), Decimal(d[2]), Decimal(d[3]), Base64(d[4..]));
  }

  lemma CertificatesShown(ip: IpText, data: seq<byte>, pos: nat, rdlen: nat)
    requires 3 <= rdlen && pos + rdlen <= |data|
    ensures var d := data[pos..pos + rdlen];
            && ShownAs(ip, data, pos, 44, rdlen, Decimal(d[0]) + " " + Decimal(d[1]) + " " + Hex(d[2..]))
            && ShownAs(ip, data, pos, 52, rdlen,
                       Decimal(d[0]) + " " + Decimal(d[1]) + " " + Decimal(d[2]) + " " + Hex(d[3..]))
  {
    hide Decimal, Hex, Base64, Quoted, Line;
    var d := data[pos..pos + rdlen];
    ThreeWords(Decimal(d[0]), Decimal(d[1]), Hex(d[2..]));
    FourWords(Decimal(d[0]), Decimal(d[1]), Decimal(d[2]), Hex(d[3..]));
  }

  lemma UriShown(ip: IpText, data: seq<byte>, pos: nat, rdlen: nat)
    requires 4 <= rdlen && pos + rdlen <= |data|
    ensures var d := data[pos..pos + rdlen];
            ShownAs(ip, data, pos, 256, rdlen,
                    Decimal(Wide(d[0], d[1])) + " " + Decimal(Wide(d[2], d[3])) + " " + Quoted(d[4..]))
  {
    hide Decimal, Hex, Base64, Quoted, Line;
    var d := data[pos..pos + rdlen];
    assert Num16(d[0], d[1]) == Wide(d[0], d[1]) && Num16(d[2], d[3]) == Wide(d[2], d[3]);
    ThreeWords(Decimal(Wide(d[0], d[1])), Decimal(Wide(d[2], d[3])), Quoted(d[4..]));
  }

  lemma TwoWords(a: string, b: string)
    ensures Line([a, b]) == a + " " + b
  {
    assert [a, b][1..] == [b];
  }

  lemma ThreeWords(a: string, b: string, c: string)
    ensures Line([a, b, c]) == a + " " + b + " " + c
  {
    assert [a, b, c][1..] == [b, c];
    TwoWords(b, c);
    assert a + [SPACE] + (b + " " + c) == a + " " + b + " " + c;
  }

  lemma FourWords(a: string, b: string, c: string, d: string)
    ensures Line([a, b, c, d]) == a + " " + b + " " + c + " " + d
  {
    assert [a, b, c, d][1..] == [b, c, d];
    ThreeWords(b, c, d);
    assert a + [SPACE] + (b + " " + c + " " + d) == a + " " + b + " " + c + " " + d;
  }

  /** A certification authority: flags, the length and the text of its tag, and its value. */
  lemma CaaShown(ip: IpText, data: seq<byte>, pos: nat, rdlen: nat)
    requires 2 <= rdlen && pos + rdlen <= |data|
    ensures var d := data[pos..pos + rdlen];
            if 0 < d[1] && 2 + d[1] <= rdlen then
              var tag := d[2..2 + d[1]];
              var bare := forall i :: 0 <= i < |tag| ==> 33 <= tag[i] <= 126 && tag[i] != 34 && tag[i] != 92;
              ShownAs(ip, data, pos, 257, rdlen,
                      Decimal(d[0]) + " " + (if bare then Text(tag) else Quoted(tag)) + " " + Quoted(d[2 + d[1]..]))
            else ParseRData(data, pos, 257, rdlen) == None
  {
    hide Decimal, Quoted;
    var d := data[pos..pos + rdlen];
    if 0 < d[1] && 2 + d[1] <= rdlen {
      ThreeWords(Decimal(d[0]), TokenText(d[2..2 + d[1]]), Quoted(d[2 + d[1]..]));
    }
    hide Line;
  }

  /** Addresses, and data of types that are not known. */
  lemma PlainShown(ip: IpText, data: seq<byte>, pos: nat, rtype: u16, rdlen: nat)
    requires pos + rdlen <= |data|
    ensures var d := data[pos..pos + rdlen];
            && (if rdlen == 4 then ShownAs(ip, data, pos, 1, rdlen, ip.show4(d))
                else ParseRData(data, pos, 1, rdlen) == None)
            && (if rdlen == 16 then ShownAs(ip, data, pos, 28, rdlen, ip.show6(d))
                else ParseRData(data, pos, 28, rdlen) == None)
            && (rtype !in {1, 2, 5, 6, 12, 15, 16, 28, 33, 35, 43, 44, 48, 52, 59, 60, 64, 65, 256, 257} ==>
                  ShownAs(ip, data, pos, rtype, rdlen, Hex(d)))
  {
    hide Hex;
  }

  /** Data that ends before its fixed fields do is dropped. */
  lemma TooShort(data: seq<byte>, pos: nat, rdlen: nat)
    ensures pos + rdlen > |data| ==> forall t: u16 :: ParseRData(data, pos, t, rdlen) == None
    ensures rdlen < 2 ==> ParseRData(data, pos, 44, rdlen) == None && ParseRData(data, pos, 257, rdlen) == None
    ensures rdlen < 3 ==> ParseRData(data, pos, 52, rdlen) == None && ParseRData(data, pos, 15, rdlen) == None
                          && ParseRData(data, pos, 64, rdlen) == None && ParseRData(data, pos, 65, rdlen) == None
    ensures rdlen < 4 ==> ParseRData(data, pos, 43, rdlen) == None && ParseRData(data, pos, 59, rdlen) == None
                          && ParseRData(data, pos, 48, rdlen) == None && ParseRData(data, pos, 60, rdlen) == None
                          && ParseRData(data, pos, 256, rdlen) == None
    ensures rdlen < 7 ==> ParseRData(data, pos, 33, rdlen) == None
    ensures rdlen < 8 ==> ParseRData(data, pos, 35, rdlen) == None
  {
  }

  /** Records with names: the fields in their order, a blank between them. */
  lemma NamesShown(ip: IpText, n: string, m: string, p: u16, w: u16, o: u16, nums: seq<u32>)
    requires |nums| == 5
    ensures AsDisplay(ip, CNAME(n)) == n && AsDisplay(ip, NS(n)) == n && AsDisplay(ip, PTR(n)) == n
    ensures AsDisplay(ip, MX(p, n)) == Decimal(p) + " " + n
    ensures AsDisplay(ip, SRV(p, w, o, n)) == Decimal(p) + " " + Decimal(w) + " " + Decimal(o) + " " + n
    ensures AsDisplay(ip, SOA(m, n, nums[0], nums[1], nums[2], nums[3], nums[4]))
         == m + " " + n + " " + Decimal(nums[0]) + " " + Decimal(nums[1]) + " " + Decimal(nums[2]) + " "
            + Decimal(nums[3]) + " " + Decimal(nums[4])
  {
    hide Decimal, Quoted, Line, ParamTexts;
    TwoWords(Decimal(p), n);
    FourWords(Decimal(p), Decimal(w), Decimal(o), n);
    SevenWords(m, n, Decimal(nums[0]), Decimal(nums[1]), Decimal(nums[2]), Decimal(nums[3]), Decimal(nums[4]));
  }

  /** The root of a service or an address pointer is a dot; parameters follow in their order. */
  lemma TargetsShown(ip: IpText, n: string, p: u16, w: u16, params: seq<Param>, f: seq<byte>, s: seq<byte>,
                     x: seq<byte>)
    ensures AsDisplay(ip, SVCB(p, n, params))
         == Decimal(p) + " " + (if n == "" then "." else n) + ParamTail(ip, params)
    ensures AsDisplay(ip, NAPTR(p, w, f, s, x, n))
         == Decimal(p) + " " + Decimal(w) + " " + Quoted(f) + " " + Quoted(s) + " " + Quoted(x) + " "
            + if n == "" then "." else n
  {
    hide Decimal, Quoted, Line, ParamTexts, ParamTail;
    SixWords(Decimal(p), Decimal(w), Quoted(f), Quoted(s), Quoted(x), NameDisplay(n));
    ParamsTail(ip, Decimal(p), NameDisplay(n), params);
  }

  lemma SixWords(a: string, b: string, c: string, d: string, e: string, f: string)
    ensures Line([a, b, c, d, e, f]) == a + " " + b + " " + c + " " + d + " " + e + " " + f
  {
    assert [a, b, c, d, e, f][1..] == [b, c, d, e, f] && [b, c, d, e, f][1..] == [c, d, e, f];
    FourWords(c, d, e, f);
    assert a + [SPACE] + (b + [SPACE] + (c + " " + d + " " + e + " " + f))
        == a + " " + b + " " + c + " " + d + " " + e + " " + f;
  }

  lemma SevenWords(a: string, b: string, c: string, d: string, e: string, f: string, g: string)
    ensures Line([a, b, c, d, e, f, g]) == a + " " + b + " " + c + " " + d + " " + e + " " + f + " " + g
  {
    assert [a, b, c, d, e, f, g][1..] == [b, c, d, e, f, g];
    SixWords(b, c, d, e, f, g);
    assert a + [SPACE] + (b + " " + c + " " + d + " " + e + " " + f + " " + g)
        == a + " " + b + " " + c + " " + d + " " + e + " " + f + " " + g;
  }

  /** The parameters, each behind a blank. */
  function ParamTail(ip: IpText, params: seq<Param>): string {
    if params == [] then "" else " " + Display(ip, params[0].key, params[0].value) + ParamTail(ip, params[1..])
  }

  lemma ParamsTail(ip: IpText, a: string, b: string, params: seq<Param>)
    ensures Line([a, b] + ParamTexts(ip, params)) == a + " " + b + ParamTail(ip, params)
  {
    hide Display, ParamTail, Line;
    var texts := ParamTexts(ip, params);
    if params == [] {
      assert [a, b] + texts == [a, b] && a + " " + b + "" == a + " " + b;
      TwoWords(a, b);
      NoTail(ip);
    } else {
      TailOf(ip, params);
      LineBehind(a, b, texts);
      assert a + " " + b + (" " + Line(texts)) == a + " " + b + ParamTail(ip, params);
    }
  }

  lemma NoTail(ip: IpText)
    ensures ParamTail(ip, []) == ""
  {
  }

  lemma LineBehind(a: string, b: string, texts: seq<string>)
    requires texts != []
    ensures Line([a, b] + texts) == a + " " + b + (" " + Line(texts))
  {
    assert ([a, b] + texts)[1..] == [b] + texts && ([b] + texts)[1..] == texts;
    assert Line([b] + texts) == b + [SPACE] + Line(texts);
    assert a + [SPACE] + (b + [SPACE] + Line(texts)) == a + " " + b + (" " + Line(texts));
  }

  lemma {:induction false} TailOf(ip: IpText, params: seq<Param>)
    requires params != []
    ensures " " + Line(ParamTexts(ip, params)) == ParamTail(ip, params)
  {
    hide Display;
    var texts := ParamTexts(ip, params);
    assert texts[1..] == ParamTexts(ip, params[1..]);
    if |params| > 1 {
      TailOf(ip, params[1..]);
      assert " " + (texts[0] + [SPACE] + Line(texts[1..])) == " " + texts[0] + (" " + Line(texts[1..]));
    } else {
      assert " " + texts[0] + "" == " " + texts[0];
    }
  }

  // ---- texts that are read though they are not printed ----

  /** A lone name in place of `preference name` is read with the preference 10, and a lone number
      as both. */
  lemma MxAlone(ip: IpText, text: string)
    requires Trim(text) == text && Names.Without(text, ' ')
    ensures EncodeRData(ip, 15, text) ==
            match Encode(text)
            case Err(_) => None
            case Ok(name) =>
              Some(Be16(if !Digits(text) then 10
                        else if NumberOf(text) >= 0x1_0000_0000 then 0
                        else if NumberOf(text) > 65535 then 65535 else NumberOf(text)) + name)
  {
    hide Trim, Encode;
    NeverSplit(text, SPACE);
  }

  /** With too few fields the text itself, or the bytes it gives in hexadecimal, is the data. */
  lemma FewFields(ip: IpText, rtype: u16, text: string)
    requires Trim(text) == text
    requires (rtype == 33 && |Fields(text)| < 4) || (rtype == 6 && |Fields(text)| < 7)
    ensures EncodeRData(ip, rtype, text) == Some(if Unhex(text).Some? then Unhex(text).value else Utf8All(text))
  {
    hide Trim, Fields, Unhex, Utf8All;
  }

  // ---- blanks ----

  /** What separates tokens, and what is trimmed and separates fields. */
  lemma WhiteSpace(c: char)
    ensures Blank(c) <==> c as int in {9, 10, 12, 13, 32}
    ensures Space(c) <==>
              c as int in {9, 10, 11, 12, 13, 32, 0x85, 0xA0, 0x1680, 0x2000, 0x2001, 0x2002, 0x2003, 0x2004, 0x2005,
                           0x2006, 0x2007, 0x2008, 0x2009, 0x200A, 0x2028, 0x2029, 0x202F, 0x205F, 0x3000}
  {
  }

  /** Trimming takes white space from both ends, all of it and nothing else. */
  lemma TrimExact(s: string) returns (a: nat, b: nat)
    ensures a <= b <= |s| && Trim(s) == s[a..b]
    ensures (forall i :: 0 <= i < a ==> Space(s[i])) && forall i :: b <= i < |s| ==> Space(s[i])
    ensures a < b ==> !Space(s[a]) && !Space(s[b - 1])
  {
    hide Space;
    a := FieldRecords.TrimStartDrops(s);
    var t := s[a..];
    var n := TrimEndDrops(t);
    b := a + n;
    assert s[a..][..n] == s[a..b];
    forall i | b <= i < |s|
      ensures Space(s[i])
    {
      assert t[i - a] == s[i];
    }
    if a < b {
      assert t[0] == s[a] && t[n - 1] == s[b - 1];
    }
  }

  lemma {:induction false} TrimEndDrops(s: string) returns (n: nat)
    ensures n <= |s| && TrimEnd(s) == s[..n] && (forall i :: n <= i < |s| ==> Space(s[i]))
    ensures n > 0 ==> !Space(s[n - 1])
  {
    hide Space;
    n := |s|;
    if s != "" && Space(s[|s| - 1]) {
      n := TrimEndDrops(s[..|s| - 1]);
    }
  }

  /** Blanks in front of a text, and behind its last token, do not matter. */
  lemma BlanksAround(c: char, s: string)
    requires c as int in {9, 10, 12, 13, 32}
    ensures Tokens([c] + s) == Tokens(s) && Tokens([c]) == Some([])
  {
    assert ([c] + s)[1..] == s && [c][1..] == "";
  }

  /** Digests, keys and certificates may be given in several pieces. */
  lemma PiecesJoined(toks: seq<string>, a: string, b: string)
    ensures |toks| == 3 ==> EncodeDs(toks + [a, b]) == EncodeDs(toks + [a + b])
    ensures |toks| == 2 ==> EncodeSshfp(toks + [a, b]) == EncodeSshfp(toks + [a + b])
    ensures |toks| == 3 ==> EncodeTlsa(toks + [a, b]) == EncodeTlsa(toks + [a + b])
    ensures |toks| == 3 ==> EncodeDnskey(toks + [a, b]) == EncodeDnskey(toks + [a + b])
  {
    hide Unhex, Unbase64, TokenU8, TokenU16;
    var two, one := toks + [a, b], toks + [a + b];
    assert two[|toks|..] == [a, b] && one[|toks|..] == [a + b];
    assert [a, b][1..] == [b] && [b][1..] == [] && [a + b][1..] == [];
    assert a + (b + "") == a + b + "";
    GluedTwo(a, b);
  }

  lemma GluedTwo(a: string, b: string)
    ensures Glued([a, b]) == Glued([a + b]) == a + b
  {
    assert [a, b][1..] == [b] && [b][1..] == [] && [a + b][1..] == [];
    assert a + (b + "") == a + b;
  }

  /** Of a service address the numbers are cut to 65535. */
  lemma {:induction false} NumbersCut(nums: seq<u32>)
    ensures Numbers16(FieldRecords.Decimals(nums)) == Some(CutBytes(nums))
  {
    hide Decimal, ParseU32, Be16;
    if nums != [] {
      FieldRecords.NumberBack(nums[0]);
      NumbersCut(nums[1..]);
      assert FieldRecords.Decimals(nums)[1..] == FieldRecords.Decimals(nums[1..]);
    }
  }

  function CutBytes(nums: seq<u32>): seq<byte> {
    if nums == [] then [] else Be16(if nums[0] > 65535 then 65535 else nums[0]) + CutBytes(nums[1..])
  }

  // ---- what is refused ----

  /** The names of a record have to be spelled out, over pointers or not, before its data ends;
      those of an authority record are followed by its five numbers and nothing else. */
  lemma NamesFit(data: seq<byte>, pos: nat, rdlen: nat)
    requires pos + rdlen <= |data|
    ensures var name := Walk(data, pos, 0, 0);
            && (ParseRData(data, pos, 5, rdlen).Some? <==> name.Ok? && name.value.end <= pos + rdlen)
            && (ParseRData(data, pos, 2, rdlen).Some? <==> name.Ok? && name.value.end <= pos + rdlen)
            && (ParseRData(data, pos, 12, rdlen).Some? <==> name.Ok? && name.value.end <= pos + rdlen)
            && (ParseRData(data, pos, 6, rdlen).Some? <==>
                  && name.Ok? && name.value.end <= pos + rdlen
                  && Walk(data, name.value.end, 0, 0).Ok?
                  && Walk(data, name.value.end, 0, 0).value.end + 20 == pos + rdlen)
    ensures ParseRData(data, pos, 15, rdlen).Some? <==>
              rdlen >= 3 && Walk(data, pos + 2, 0, 0).Ok? && Walk(data, pos + 2, 0, 0).value.end <= pos + rdlen
    ensures ParseRData(data, pos, 33, rdlen).Some? <==>
              rdlen >= 7 && Walk(data, pos + 6, 0, 0).Ok? && Walk(data, pos + 6, 0, 0).value.end <= pos + rdlen
  {
    hide Walk, NameText, Num16, Word32;
  }

  /** Parameters with a value where there must be none, without one where there must be one, and
      ports that are no 16-bit number. */
  lemma ParamsRefused(ip: IpText, key: u16, text: string)
    requires key < 9
    ensures (key == 2 || key == 8) && text != "" ==> Parse(ip, KeyText(key) + "=" + text) == None
    ensures (key == 0 || key == 1 || key == 4 || key == 6) && text == "" ==>
              Parse(ip, KeyText(key) + "=" + text) == None
    ensures key == 3 && TokenU16(text) == None ==> Parse(ip, KeyText(key) + "=" + text) == None
  {
    hide Parse, ParseNamed, KeyText, TokenU16;
    NamedParam(ip, key, text);
    NamedValues(ip, text);
    NamedValues(ip, "");
  }

  /** Parameters of unknown names. */
  lemma UnknownRefused(ip: IpText, name: string, text: string)
    requires KeyCode(name) == None && Names.Without(name, '=')
    ensures Parse(ip, name) == None && Parse(ip, name + "=" + text) == None
  {
    hide KeyCode, Numbered, ParseNamed;
    NeverSplit(name, EQUALS);
    OnceSplit(name, EQUALS, text);
    assert name + [EQUALS] + text == name + "=" + text;
  }

  lemma NamedValues(ip: IpText, text: string)
    ensures text != "" ==> ParseNamed(ip, 2, text) == None && ParseNamed(ip, 8, text) == None
    ensures ParseNamed(ip, 0, "") == None && ParseNamed(ip, 1, "") == None && ParseNamed(ip, 4, "") == None
            && ParseNamed(ip, 6, "") == None
    ensures TokenU16(text) == None ==> ParseNamed(ip, 3, text) == None
  {
  }

  /** A registered name and a value are read by the rules of that name. */
  lemma NamedParam(ip: IpText, key: u16, text: string)
    requires key < 9
    ensures var name := KeyText(key);
            Parse(ip, name + "=" + text) == match ParseNamed(ip, key, text) case None => None
                                                                        case Some(v) => Some(Param(key, v))
  {
    hide ParseNamed, KeyCode, Numbered;
    var name := KeyText(key);
    KeyCodeText(key);
    NamedNotNumbered(key);
    OnceSplit(name, EQUALS, text);
    assert name + [EQUALS] + text == name + "=" + text;
  }

  lemma NamedNotNumbered(key: u16)
    requires key < 9
    ensures !Numbered(Lower(KeyText(key)))
  {
    NameShape(key);
    var n := KeyText(key);
    assert Lower(n)[0] == LowerChar(n[0]);
  }

  /** Texts with too few tokens, or with tokens beyond the fixed ones where there can be none. */
  lemma TokensRefused(ip: IpText, toks: seq<string>)
    ensures |toks| < 2 ==> EncodeSvcb(ip, toks) == None
    ensures |toks| != 6 ==> EncodeNaptr(toks) == None
    ensures |toks| < 3 ==> EncodeCaa(toks) == None && EncodeSshfp(toks) == None && EncodeUri(toks) == None
    ensures |toks| < 4 ==> EncodeDs(toks) == None && EncodeTlsa(toks) == None && EncodeDnskey(toks) == None
    ensures |toks| >= 3 && Unescape(toks[1]) == Some([]) ==> EncodeCaa(toks) == None
  {
  }
}
