/** Records shown as fields between white space, and records of unknown type: exactly when
    their text form encodes to the data it was parsed from. */
module FieldRecords {
  import opened Wrappers
  import opened Bytes
  import opened Unicode
  import opened Lexing
  import opened Names
  import opened RecordData
  import opened RecordRoundTrip
  import opened SvcParams
  import opened UncleanNames
  import opened NamedRecords

  /** No white space anywhere. */
  predicate Solid(s: string) {
    forall i :: 0 <= i < |s| ==> !Space(s[i])
  }

  // ---- splitting at white space ----

  lemma {:induction false} FieldsConcat(a: string, c: char, b: string)
    requires Space(c)
    ensures Fields(a + [c] + b) == Fields(a) + Fields(b)
    decreases |a|
  {
    hide Space;
    var s := a + [c] + b;
    if a == "" {
      assert s[1..] == b;
    } else if Space(a[0]) {
      FieldsConcat(a[1..], c, b);
      assert s[1..] == a[1..] + [c] + b;
    } else {
      var n := Run(a);
      RunSame(a, c, b);
      FieldsConcat(a[n..], c, b);
      assert s[n..] == a[n..] + [c] + b && s[..n] == a[..n];
    }
  }

  lemma RunSame(a: string, c: char, b: string)
    requires a != "" && !Space(a[0]) && Space(c)
    ensures Run(a + [c] + b) == Run(a)
  {
    hide Space;
    var s := a + [c] + b;
    assert s[|a|] == c && forall i :: 0 <= i < |a| ==> s[i] == a[i];
  }

  lemma {:induction false} FieldsTrim(s: string)
    ensures Fields(Trim(s)) == Fields(s)
  {
    FieldsTrimEnd(TrimStart(s));
    FieldsTrimStart(s);
  }

  lemma {:induction false} FieldsTrimStart(s: string)
    ensures Fields(TrimStart(s)) == Fields(s)
  {
    hide Space;
    if s != "" && Space(s[0]) {
      FieldsTrimStart(s[1..]);
    }
  }

  lemma {:induction false} FieldsTrimEnd(s: string)
    ensures Fields(TrimEnd(s)) == Fields(s)
  {
    hide Space;
    if s != "" && Space(s[|s| - 1]) {
      var most := s[..|s| - 1];
      FieldsTrimEnd(most);
      FieldsConcat(most, s[|s| - 1], "");
      assert most + [s[|s| - 1]] + "" == s;
    }
  }

  /** A field as long as the text is the whole text; and only solid text is one field. */
  lemma {:induction false} FieldsSizes(s: string)
    ensures forall i :: 0 <= i < |Fields(s)| ==> |Fields(s)[i]| <= |s|
    ensures forall i :: 0 <= i < |Fields(s)| && |Fields(s)[i]| == |s| ==> Fields(s) == [s] && s != "" && Solid(s)
    ensures s != "" && Solid(s) ==> Fields(s) == [s]
    decreases |s|
  {
    hide Space;
    if s != "" {
      if Space(s[0]) {
        FieldsSizes(s[1..]);
      } else {
        var n := Run(s);
        FieldsSizes(s[n..]);
        assert Fields(s) == [s[..n]] + Fields(s[n..]);
        if n == |s| {
          assert s[..n] == s;
        }
      }
    }
  }

  predicate SolidWords(words: seq<string>) {
    forall i :: 0 <= i < |words| ==> words[i] != "" && Solid(words[i])
  }

  /** A line of solid words, then more text. */
  lemma {:induction false} FieldsLine(words: seq<string>, tail: string)
    requires words != [] && SolidWords(words)
    ensures Fields(Line(words) + [SPACE] + tail) == words + Fields(tail)
    ensures Fields(Line(words)) == words
  {
    hide Space, Line, Solid;
    var first, rest := words[0], words[1..];
    FieldsSizes(first);
    BlankIsSpace();
    LineUnfold(words);
    FieldsConcat(Line(words), SPACE, tail);
    if rest != [] {
      FieldsLine(rest, tail);
      FieldsConcat(first, SPACE, Line(rest));
      assert [first] + rest == words;
    }
  }

  lemma BlankIsSpace()
    ensures Space(SPACE)
  {
  }

  // ---- numbers ----

  lemma DecimalSolid(n: nat)
    ensures Decimal(n) != "" && Solid(Decimal(n)) && Ascii(Decimal(n))
  {
  }

  lemma NumberBack(n: u32)
    ensures ParseU32(Decimal(n)) == Some(n)
  {
    NumberOfDecimal(n);
  }

  function Decimals(nums: seq<u32>): (r: seq<string>)
    ensures |r| == |nums| && forall i :: 0 <= i < |r| ==> r[i] == Decimal(nums[i])
  {
    seq(|nums|, i requires 0 <= i < |nums| => Decimal(nums[i]))
  }

  lemma DecimalsSolid(nums: seq<u32>)
    ensures SolidWords(Decimals(nums))
  {
    hide Decimal, Solid;
    forall i | 0 <= i < |nums|
      ensures Decimals(nums)[i] != "" && Solid(Decimals(nums)[i])
    {
      DecimalSolid(nums[i]);
    }
  }

  /** Printed numbers with blanks between: digits and blanks, digits at both ends. */
  lemma {:induction false} DecimalsShape(nums: seq<u32>)
    requires nums != []
    ensures var s := Line(Decimals(nums));
            && Tight(s) && (|nums| > 1 ==> SPACE in s)
            && forall i :: 0 <= i < |s| ==> Digit(s[i]) || s[i] == SPACE
  {
    hide Decimal, Line, Space;
    var words := Decimals(nums);
    LineUnfold(words);
    DigitSolid();
    if |nums| > 1 {
      DecimalsShape(nums[1..]);
      assert Decimals(nums[1..]) == words[1..];
      var s, rest := Line(words), Line(words[1..]);
      assert s[|words[0]|] == SPACE && s[|s| - 1] == rest[|rest| - 1] && s[0] == words[0][0];
    }
  }

  lemma DigitSolid()
    ensures forall c :: Digit(c) ==> !Space(c)
  {
  }

  // ---- text that is not hexadecimal ----

  lemma {:induction false} NotHex(s: string, i: nat)
    requires i < |s| && s[i] == SPACE
    ensures Unhex(s) == None
  {
    if i >= 2 {
      NotHex(s[2..], i - 2);
    }
  }

  // ---- SRV ----

  function SrvWire(p: u16, w: u16, o: u16, labels: WireLabels): seq<byte>
    requires Short(labels)
  {
    Be16(p) + Be16(w) + Be16(o) + Wire(labels)
  }

  lemma SrvParsed(pre: seq<byte>, p: u16, w: u16, o: u16, labels: WireLabels, post: seq<byte>)
    requires Short(labels) && Size(labels) < MAX_NAME
    ensures var b := SrvWire(p, w, o, labels);
            ParseRData(pre + b + post, |pre|, TYPE_SRV, |b|) == Some(SRV(p, w, o, NameText(labels)))
  {
    hide NameText, Walk, Wire, Size, Num16, Be16;
    var head := pre + Be16(p) + Be16(w) + Be16(o);
    var b := SrvWire(p, w, o, labels);
    var data, k := pre + b + post, |pre|;
    assert data == head + Wire(labels) + post;
    WalkWire(head, labels, post, 0, 0);
    Be16RoundTrip(p, 0, 0);
    Be16RoundTrip(w, 0, 0);
    Be16RoundTrip(o, 0, 0);
    assert b[0] == Be16(p)[0] && b[1] == Be16(p)[1] && b[2] == Be16(w)[0] && b[3] == Be16(w)[1] && b[4] == Be16(o)[0]
           && b[5] == Be16(o)[1];
    assert forall i :: 0 <= i < 6 ==> data[k + i] == b[i];
  }

  lemma SrvNumbers(p: u16, w: u16, o: u16)
    ensures Numbers16([Decimal(p), Decimal(w), Decimal(o)]) == Some(Be16(p) + Be16(w) + Be16(o))
  {
    hide Decimal, ParseU32, Be16;
    NumberBack(p);
    NumberBack(w);
    NumberBack(o);
    var d := [Decimal(p), Decimal(w), Decimal(o)];
    assert d[1..] == [Decimal(w), Decimal(o)] && d[1..][1..] == [Decimal(o)] && d[1..][1..][1..] == [];
    assert Be16(o) + [] == Be16(o);
    assert Numbers16([Decimal(o)]) == Some(Be16(o));
    assert Numbers16(d[1..]) == Some(Be16(w) + Be16(o));
    assert Be16(p) + (Be16(w) + Be16(o)) == Be16(p) + Be16(w) + Be16(o);
  }

  lemma SrvFields(ip: IpText, p: u16, w: u16, o: u16, n: string)
    ensures Fields(Trim(AsDisplay(ip, SRV(p, w, o, n)))) == [Decimal(p), Decimal(w), Decimal(o)] + Fields(n)
  {
    hide Decimal, Line, Trim, Fields, Solid;
    var d := [Decimal(p), Decimal(w), Decimal(o)];
    DecimalSolid(p);
    DecimalSolid(w);
    DecimalSolid(o);
    FieldsLine(d, n);
    LineJoin(d, [n]);
    OneWord(n);
    assert d + [n] == [Decimal(p), Decimal(w), Decimal(o), n];
    FieldsTrim(Line(d + [n]));
  }

  /** With no field for the target, the text itself becomes the data, and that ends in a
      digit where the wire form ends in the root byte. */
  lemma SrvTextDiffers(ip: IpText, p: u16, w: u16, o: u16, labels: WireLabels)
    requires Short(labels) && Fields(NameText(labels)) == []
    ensures HexOrText(Trim(AsDisplay(ip, SRV(p, w, o, NameText(labels))))) != SrvWire(p, w, o, labels)
  {
    hide Decimal, Line, Trim, Space, NameText, Wire, Unhex, Utf8All, Tight, Fields;
    var n, nums := NameText(labels), [p, w, o];
    var d := Line(Decimals(nums));
    DecimalsShape(nums);
    assert Decimals(nums) == [Decimal(p), Decimal(w), Decimal(o)];
    LineJoin(Decimals(nums), [n]);
    OneWord(n);
    assert Decimals(nums) + [n] == [Decimal(p), Decimal(w), Decimal(o), n];
    TrimLine(d, n);
    NothingFields(n);
    var i :| 0 <= i < |d| && d[i] == SPACE;
    NotHex(d, i);
    AsciiIsUtf8(d);
    TightEnds(d);
    WireLast(labels);
    var b := SrvWire(p, w, o, labels);
    assert b[|b| - 1] == 0;
    assert Raw(d)[|d| - 1] != 0;
  }

  lemma TightEnds(s: string)
    requires Tight(s)
    ensures s != "" && !Space(s[0]) && !Space(s[|s| - 1])
  {
  }

  lemma {:induction false} NothingFields(n: string)
    requires Fields(n) == []
    ensures TrimEnd(n) == ""
  {
    if n != "" {
      if Space(n[|n| - 1]) {
        FieldsConcat(n[..|n| - 1], n[|n| - 1], "");
        assert n[..|n| - 1] + [n[|n| - 1]] + "" == n;
        NothingFields(n[..|n| - 1]);
      } else {
        FieldsTrimEnd(n);
        SolidEnd(n);
      }
    }
  }

  lemma {:induction false} SolidEnd(n: string)
    requires n != "" && !Space(n[|n| - 1])
    ensures Fields(n) != []
  {
    if Space(n[0]) {
      SolidEnd(n[1..]);
    }
  }

  lemma {:induction false} WireLast(labels: WireLabels)
    requires Short(labels)
    ensures Wire(labels)[|Wire(labels)| - 1] == 0
  {
    if labels != [] {
      WireLast(labels[1..]);
    }
  }

  /** SRV data comes back exactly when the target is not the root, its labels are ASCII
      without dots, and there is no white space in it. */
  lemma SrvRoundTripIff(ip: IpText, pre: seq<byte>, p: u16, w: u16, o: u16, labels: WireLabels, post: seq<byte>)
    requires Short(labels) && Size(labels) < MAX_NAME
    ensures var b := SrvWire(p, w, o, labels);
            var r := ParseRData(pre + b + post, |pre|, TYPE_SRV, |b|);
            && r == Some(SRV(p, w, o, NameText(labels)))
            && (EncodeRData(ip, TYPE_SRV, AsDisplay(ip, r.value)) == Some(b)
                <==> labels != [] && Names.Plain(labels) && Solid(NameText(labels)))
  {
    hide NameText, Encode, Trim, Wire, Names.Plain, Short, Size, Decimal, Be16, AsDisplay, ParseRData, Fields,
         HexOrText, Solid, Numbers16;
    SrvParsed(pre, p, w, o, labels, post);
    var n := NameText(labels);
    SrvFields(ip, p, w, o, n);
    var parts := Fields(Trim(AsDisplay(ip, SRV(p, w, o, n))));
    FieldsSizes(n);
    EmptyName(labels);
    if Fields(n) == [] {
      SrvTextDiffers(ip, p, w, o, labels);
    } else {
      SrvNumbers(p, w, o);
      assert parts[..3] == [Decimal(p), Decimal(w), Decimal(o)] && parts[3] == Fields(n)[0];
      CutName(labels, parts[3]);
      Cancel(Be16(p) + Be16(w) + Be16(o), Wire(labels));
    }
  }

  // ---- SOA ----

  function SoaWire(m: WireLabels, n: WireLabels, nums: seq<u32>): seq<byte>
    requires Short(m) && Short(n)
  {
    Wire(m) + Wire(n) + Words(nums)
  }

  function Words(nums: seq<u32>): (b: seq<byte>)
    ensures |b| == 4 * |nums|
  {
    if nums == [] then [] else Be32(nums[0]) + Words(nums[1..])
  }

  /** The five numbers as they are read back. */
  lemma {:induction false} WordAt(pre: seq<byte>, nums: seq<u32>, post: seq<byte>, i: nat)
    requires i < |nums|
    ensures Word32(pre + Words(nums) + post, |pre| + 4 * i) == nums[i]
    decreases |nums|
  {
    hide Num32, Be32;
    var data := pre + Words(nums) + post;
    Be32RoundTrip(nums[0]);
    if i == 0 {
      var b := Be32(nums[0]);
      assert forall k :: 0 <= k < 4 ==> data[|pre| + k] == b[k];
    } else {
      var more := pre + Be32(nums[0]);
      WordAt(more, nums[1..], post, i - 1);
      assert data == more + Words(nums[1..]) + post;
    }
  }

  function Soa(m: string, n: string, nums: seq<u32>): RData
    requires |nums| == 5
  {
    SOA(m, n, nums[0], nums[1], nums[2], nums[3], nums[4])
  }

  lemma SoaParsed(pre: seq<byte>, m: WireLabels, n: WireLabels, nums: seq<u32>, post: seq<byte>)
    requires |nums| == 5 && Short(m) && Short(n) && Size(m) < MAX_NAME && Size(n) < MAX_NAME
    ensures var b := SoaWire(m, n, nums);
            ParseRData(pre + b + post, |pre|, TYPE_SOA, |b|) == Some(Soa(NameText(m), NameText(n), nums))
  {
    hide NameText, Walk, Wire, Size, Words, Word32;
    var b := SoaWire(m, n, nums);
    var data, head := pre + b + post, pre + Wire(m);
    var front := head + Wire(n);
    assert data == pre + Wire(m) + (Wire(n) + Words(nums) + post);
    assert data == head + Wire(n) + (Words(nums) + post);
    assert data == front + Words(nums) + post;
    WalkWire(pre, m, Wire(n) + Words(nums) + post, 0, 0);
    WalkWire(head, n, Words(nums) + post, 0, 0);
    WordAt(front, nums, post, 0);
    WordAt(front, nums, post, 1);
    WordAt(front, nums, post, 2);
    WordAt(front, nums, post, 3);
    WordAt(front, nums, post, 4);
  }

  lemma {:induction false} SoaNumbers(nums: seq<u32>)
    ensures Numbers32(Decimals(nums)) == Some(Words(nums))
  {
    hide Decimal, ParseU32, Be32;
    if nums != [] {
      NumberBack(nums[0]);
      SoaNumbers(nums[1..]);
      assert Decimals(nums)[1..] == Decimals(nums[1..]);
    }
  }

  lemma SoaLine(ip: IpText, m: string, n: string, nums: seq<u32>)
    requires |nums| == 5
    ensures AsDisplay(ip, Soa(m, n, nums)) == m + [SPACE] + (n + [SPACE] + Line(Decimals(nums)))
  {
    hide Decimal, Line;
    var d := Decimals(nums);
    assert [m, n] + d == [m, n, Decimal(nums[0]), Decimal(nums[1]), Decimal(nums[2]), Decimal(nums[3]),
           Decimal(nums[4])];
    LineOfTwo(m, n, d);
    assert n + [SPACE] + Line(d) == n + ([SPACE] + Line(d));
  }

  lemma SoaFields(ip: IpText, m: string, n: string, nums: seq<u32>)
    requires |nums| == 5
    ensures Fields(Trim(AsDisplay(ip, Soa(m, n, nums)))) == Fields(m) + Fields(n) + Decimals(nums)
  {
    hide Decimal, Line, Fields, Trim, AsDisplay, Solid;
    SoaLine(ip, m, n, nums);
    var d := Decimals(nums);
    DecimalsSolid(nums);
    FieldsLine(d, "");
    BlankIsSpace();
    FieldsConcat(n, SPACE, Line(d));
    FieldsConcat(m, SPACE, n + [SPACE] + Line(d));
    FieldsTrim(m + [SPACE] + (n + [SPACE] + Line(d)));
    assert Fields(m) + (Fields(n) + d) == Fields(m) + Fields(n) + d;
  }

  predicate LosslessLabels(labels: WireLabels) {
    forall i :: 0 <= i < |labels| ==> Lossless(labels[i])
  }

  /** A printed name of well-formed labels has as many bytes as they have on the wire. */
  lemma {:induction false} NameBytes(labels: WireLabels)
    requires Short(labels) && LosslessLabels(labels)
    ensures |Utf8All(NameText(labels))| == if labels == [] then 0 else Size(labels) - 1
  {
    hide Lossy, Lossless, Utf8All;
    if labels == [] {
      assert Utf8All("") == [] by { AsciiIsUtf8(""); }
    } else {
      var l, rest := labels[0], labels[1..];
      NameBytes(rest);
      assert TextLabels(labels)[1..] == TextLabels(rest);
      assert Utf8All(Lossy(l)) == l by { LosslessText(l); }
      if rest != [] {
        AsciiIsUtf8([DOT]);
        Utf8Concat(Lossy(l), [DOT]);
        Utf8Concat(Lossy(l) + [DOT], NameText(rest));
      }
    }
  }

  lemma LosslessText(b: seq<byte>)
    requires Lossless(b)
    ensures Utf8All(Lossy(b)) == b
  {
  }

  /** Where a name on the wire is part of well-formed UTF-8, so are its labels: the bytes
      between them are ASCII. */
  lemma {:induction false} WireLossless(t: string, labels: WireLabels, x: seq<byte>) returns (u: string)
    requires Short(labels) && Utf8All(t) == Wire(labels) + x
    ensures LosslessLabels(labels) && Utf8All(u) == x
  {
    hide Utf8All, Lossless, Wire;
    WireUnfold(labels);
    var k := AsciiSplits(t, 0);
    u := t[k + 1..];
    if labels != [] {
      var l, rest := labels[0], labels[1..];
      WireUnfold(rest);
      assert Utf8All(u) == l + Wire(rest) + x;
      assert Utf8All(u)[|l|] == Wire(rest)[0];
      var j := AsciiSplits(u, |l|);
      LosslessIff(l);
      assert Utf8All(u[..j]) == l;
      u := WireLossless(u[j..], rest, x);
      assert labels == [l] + rest;
    }
  }

  lemma {:induction false} TrimStartDrops(s: string) returns (k: nat)
    ensures k <= |s| && TrimStart(s) == s[k..]
    ensures forall i :: 0 <= i < k ==> Space(s[i])
    ensures k < |s| ==> !Space(s[k])
  {
    k := 0;
    if s != "" && Space(s[0]) {
      var j := TrimStartDrops(s[1..]);
      k := j + 1;
      assert s[1..][j..] == s[k..];
      assert forall i :: 1 <= i < k ==> s[i] == s[1..][i - 1];
    }
  }

  /** If a name gives no field, the text itself becomes the data. The byte that ends the
      second name on the wire then meets a digit or a blank of the numbers. */
  lemma SoaTextDiffers(ip: IpText, m: WireLabels, n: WireLabels, nums: seq<u32>)
    requires |nums| == 5 && Short(m) && Short(n)
    ensures HexOrText(Trim(AsDisplay(ip, Soa(NameText(m), NameText(n), nums)))) != SoaWire(m, n, nums)
  {
    hide Decimal, Line, AsDisplay, NameText, Wire, Unhex, Utf8All, Tight, Trim, Space, Words, Short, LosslessLabels,
         Lossless;
    var a, b, d := NameText(m), NameText(n), Line(Decimals(nums));
    SoaLine(ip, a, b, nums);
    DecimalsShape(nums);
    var k := TrimmedFront(a, b, d);
    var front := a + [SPACE] + b + [SPACE];
    FrontThen(a, b, d, k);
    SpaceInside(front[k..], d);
    SoaBytesDiffer(m, n, nums, k);
  }

  lemma FrontThen(a: string, b: string, d: string, k: nat)
    requires k <= |a| + |b| + 2
    ensures (a + [SPACE] + (b + [SPACE] + d))[k..] == (a + [SPACE] + b + [SPACE])[k..] + d
  {
    var front := a + [SPACE] + b + [SPACE];
    assert a + [SPACE] + (b + [SPACE] + d) == front + d;
    assert (front + d)[k..] == front[k..] + d;
  }

  lemma SpaceInside(a: string, d: string)
    requires SPACE in d
    ensures Unhex(a + d) == None
  {
    hide Unhex;
    var i :| 0 <= i < |d| && d[i] == SPACE;
    NotHex(a + d, |a| + i);
  }

  lemma SoaBytesDiffer(m: WireLabels, n: WireLabels, nums: seq<u32>, k: nat)
    requires Short(m) && Short(n) && k <= |NameText(m)| + |NameText(n)| + 2 && (NameText(m) == "" ==> k >= 1)
    requires nums != []
    ensures var front := NameText(m) + [SPACE] + NameText(n) + [SPACE];
            Utf8All(front[k..] + Line(Decimals(nums))) != SoaWire(m, n, nums)
  {
    hide Decimal, Line, NameText, Wire, Utf8All, Tight, Space, Words, Short, LosslessLabels, Lossless;
    var a, b, d := NameText(m), NameText(n), Line(Decimals(nums));
    var front := a + [SPACE] + b + [SPACE];
    var t := front[k..] + d;
    if Utf8All(t) == SoaWire(m, n, nums) {
      assert SoaWire(m, n, nums) == Wire(m) + (Wire(n) + Words(nums));
      var u := WireLossless(t, m, Wire(n) + Words(nums));
      var v := WireLossless(u, n, Words(nums));
      NameBytes(m);
      NameBytes(n);
      FrontBytes(a, b, k);
      EmptyName(m);
      EmptyName(n);
      DecimalsShape(nums);
      Utf8Concat(front[k..], d);
      AsciiIsUtf8(d);
      SoaClash(m, n, nums, Utf8All(front[k..]), Raw(d));
    }
  }

  lemma SoaClash(m: WireLabels, n: WireLabels, nums: seq<u32>, front: seq<byte>, d: seq<byte>)
    requires Short(m) && Short(n) && forall i :: 0 <= i < |d| ==> d[i] != 0
    requires |front| <= |Wire(m)| + |Wire(n)| - 1
    ensures front + d != SoaWire(m, n, nums)
  {
    hide Wire, Short, Words;
    var z, t := |Wire(m)| + |Wire(n)| - 1, front + d;
    WireLast(n);
    assert SoaWire(m, n, nums)[z] == 0;
    assert z < |t| ==> t[z] == d[z - |front|];
  }

  lemma FrontBytes(a: string, b: string, k: nat)
    requires k <= |a| + |b| + 2 && (a == "" ==> k >= 1)
    ensures var front := a + [SPACE] + b + [SPACE];
            |Utf8All(front[k..])| <= |Utf8All(a)| + |Utf8All(b)| + if a == "" then 1 else 2
  {
    hide Utf8All;
    var front := a + [SPACE] + b + [SPACE];
    AsciiIsUtf8([SPACE]);
    Utf8Concat(a, [SPACE]);
    Utf8Concat(a + [SPACE], b);
    Utf8Concat(a + [SPACE] + b, [SPACE]);
    assert front[..k] + front[k..] == front;
    Utf8Concat(front[..k], front[k..]);
    if k >= 1 {
      SomeBytes(front[..k]);
    }
  }

  lemma SomeBytes(s: string)
    requires s != ""
    ensures Utf8All(s) != []
  {
    Utf8Size(s[0]);
  }

  lemma TrimmedFront(a: string, b: string, d: string) returns (k: nat)
    requires Tight(d)
    ensures var s := a + [SPACE] + (b + [SPACE] + d);
            && k <= |a| + |b| + 2 <= |s| && Trim(s) == s[k..]
            && (a == "" ==> k >= 1)
  {
    hide Space;
    BlankIsSpace();
    var s := a + [SPACE] + (b + [SPACE] + d);
    k := TrimStartDrops(s);
    assert s[|a| + |b| + 2] == d[0] && s[|s| - 1] == d[|d| - 1];
    assert !Space(s[|a| + |b| + 2]);
    var t := s[k..];
    assert t[|t| - 1] == d[|d| - 1];
  }

  /** SOA data comes back exactly when neither name is the root, all labels are ASCII without
      dots, and there is no white space in either. */
  lemma SoaRoundTripIff(ip: IpText, pre: seq<byte>, m: WireLabels, n: WireLabels, nums: seq<u32>, post: seq<byte>)
    requires |nums| == 5 && Short(m) && Short(n) && Size(m) < MAX_NAME && Size(n) < MAX_NAME
    ensures var b := SoaWire(m, n, nums);
            var r := ParseRData(pre + b + post, |pre|, TYPE_SOA, |b|);
            && r == Some(Soa(NameText(m), NameText(n), nums))
            && (EncodeRData(ip, TYPE_SOA, AsDisplay(ip, r.value)) == Some(b)
                <==> && m != [] && Names.Plain(m) && Solid(NameText(m))
                     && n != [] && Names.Plain(n) && Solid(NameText(n)))
  {
    hide NameText, Encode, Trim, Wire, Names.Plain, Short, Size, Decimal, AsDisplay, ParseRData, Fields, HexOrText,
         Solid, Numbers32, Words, Soa, Space;
    SoaParsed(pre, m, n, nums, post);
    var a, b := NameText(m), NameText(n);
    SoaFields(ip, a, b, nums);
    FieldsSizes(a);
    FieldsSizes(b);
    EmptyName(m);
    EmptyName(n);
    if |Fields(a)| + |Fields(b)| < 2 {
      SoaTextDiffers(ip, m, n, nums);
    } else {
      SoaEncodes(m, n, nums, Fields(a) + Fields(b));
    }
  }

  /** With two fields at hand for the names, they encode to the data only if they are
      the printed names. */
  lemma SoaEncodes(m: WireLabels, n: WireLabels, nums: seq<u32>, names: seq<string>)
    requires |nums| == 5 && Short(m) && Short(n) && Size(m) < MAX_NAME && Size(n) < MAX_NAME
    requires |names| >= 2 && names == Fields(NameText(m)) + Fields(NameText(n))
    ensures SoaOf(names + Decimals(nums)) == Some(SoaWire(m, n, nums))
            <==> && m != [] && Names.Plain(m) && Solid(NameText(m))
                 && n != [] && Names.Plain(n) && Solid(NameText(n))
  {
    hide NameText, Encode, Wire, Names.Plain, Short, Size, Decimal, Fields, Solid, Numbers32, Words, Space;
    var a, b, parts := NameText(m), NameText(n), names + Decimals(nums);
    FieldsSizes(a);
    FieldsSizes(b);
    EmptyName(m);
    EmptyName(n);
    assert parts[0] == names[0] && parts[1] == names[1];
    if m != [] && Names.Plain(m) && Solid(a) && n != [] && Names.Plain(n) && Solid(b) {
      EncodeLabels(m);
      EncodeLabels(n);
      SoaNumbers(nums);
      assert parts[0] == a && parts[1] == b && parts[2..7] == Decimals(nums);
    } else if SoaOf(parts) == Some(SoaWire(m, n, nums)) {
      SoaNames(parts, m, n, nums);
    }
  }

  function SoaOf(parts: seq<string>): Option<seq<byte>>
    requires |parts| >= 7
  {
    match (Encode(parts[0]), Encode(parts[1]))
    case (Ok(m), Ok(n)) => Appended(m + n, Numbers32(parts[2..7]))
    case _ => None
  }

  lemma SoaNames(parts: seq<string>, m: WireLabels, n: WireLabels, nums: seq<u32>)
    requires |parts| >= 7 && Short(m) && Short(n) && SoaOf(parts) == Some(SoaWire(m, n, nums))
    ensures Names.Plain(m) && |NameText(m)| <= |parts[0]|
    ensures Names.Plain(n) && |NameText(n)| <= |parts[1]|
  {
    hide NameText, Wire, Names.Plain, Short, Size, Numbers32, Words;
    var x, y, tail := Encode(parts[0]).value, Encode(parts[1]).value, Numbers32(parts[2..7]).value;
    LabelsAscii(parts[0]);
    LabelsAscii(parts[1]);
    var p, q := RawLabels(Labels(parts[0])), RawLabels(Labels(parts[1]));
    assert x + y + tail == Wire(m) + Wire(n) + Words(nums);
    assert x + (y + tail) == x + y + tail && Wire(m) + (Wire(n) + Words(nums)) == Wire(m) + Wire(n) + Words(nums);
    PrefixFree(p, m, y + tail, Wire(n) + Words(nums));
    Cancel(x, y + tail);
    PrefixFree(q, n, tail, Words(nums));
    EncodesTo(parts[0], m);
    EncodesTo(parts[1], n);
  }

  // ---- unknown types ----

  predicate Known(rtype: u16) {
    || rtype == TYPE_A || rtype == TYPE_AAAA || rtype == TYPE_CNAME || rtype == TYPE_NS || rtype == TYPE_PTR
    || rtype == TYPE_MX || rtype == TYPE_TXT || rtype == TYPE_SOA || rtype == TYPE_SRV || Tokenised(rtype)
  }

  /** Data of an unknown type, empty data included, comes back byte for byte. */
  lemma OtherRoundTrip(ip: IpText, data: seq<byte>, pos: nat, rtype: u16, rdlen: nat)
    requires pos + rdlen <= |data| && !Known(rtype)
    ensures var r := ParseRData(data, pos, rtype, rdlen);
            && r == Some(Other(data[pos..pos + rdlen]))
            && EncodeRData(ip, rtype, AsDisplay(ip, r.value)) == Some(data[pos..pos + rdlen])
  {
    hide Trim, Hex, Unhex, Space, Word;
    var raw := data[pos..pos + rdlen];
    HexRoundTrip(raw);
    HexEnds(raw);
    HexTight(raw);
  }

  lemma {:induction false} HexTight(b: seq<byte>)
    ensures Trim(Hex(b)) == Hex(b)
  {
    if b != [] {
      HexLast(b);
      assert !Space(HexChar(b[0] / 16));
      TrimTight(Hex(b));
    }
  }
}
