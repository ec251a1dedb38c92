/** Records that are a name, numbers and a name, or plain text: exactly when their text
    form encodes to the data it was parsed from. */
module NamedRecords {
  import opened Wrappers
  import opened Bytes
  import opened Unicode
  import opened Lexing
  import opened Names
  import opened SvcParams
  import opened RecordData
  import opened RecordRoundTrip
  import opened UncleanNames

  lemma {:induction false} TrimStartShrinks(s: string)
    ensures |TrimStart(s)| <= |s| && (|TrimStart(s)| == |s| ==> TrimStart(s) == s)
  {
    if s != "" && Space(s[0]) {
      TrimStartShrinks(s[1..]);
    }
  }

  lemma {:induction false} TrimEndShrinks(s: string)
    ensures |TrimEnd(s)| <= |s| && (|TrimEnd(s)| == |s| ==> TrimEnd(s) == s)
  {
    if s != "" && Space(s[|s| - 1]) {
      TrimEndShrinks(s[..|s| - 1]);
    }
  }

  /** A text that encodes to the labels of a name is no shorter than the name. */
  lemma EncodesTo(text: string, labels: WireLabels)
    requires Short(labels) && Encode(text) == Ok(Wire(labels))
    ensures Names.Plain(labels) && |NameText(labels)| <= |text|
  {
    hide NameText;
    LabelsAscii(text);
    var back := RawLabels(Labels(text));
    PrefixFree(back, labels, [], []);
    ThinJoin(text);
    BackText(text, labels);
    ThinLength(text, NameText(labels));
  }

  lemma BackText(text: string, labels: WireLabels)
    requires Ascii(text) && forall i :: 0 <= i < |Labels(text)| ==>
             Ascii(Labels(text)[i]) && Names.Without(Labels(text)[i], DOT)
    requires labels == RawLabels(Labels(text))
    ensures NameText(labels) == Join(Labels(text), DOT) && Names.Plain(labels)
  {
    forall i | 0 <= i < |labels|
      ensures TextLabels(labels)[i] == Labels(text)[i] && AsciiBytes(labels[i]) && Names.Without(Text(labels[i]), DOT)
    {
      LossyRaw(Labels(text)[i]);
      TextRaw(Labels(text)[i], []);
    }
    assert TextLabels(labels) == Labels(text);
  }

  /** A shortened printed name encodes to the labels only if nothing was cut off. */
  lemma CutName(labels: WireLabels, cut: string)
    requires Short(labels) && Size(labels) < MAX_NAME && |cut| <= |NameText(labels)|
    requires |cut| == |NameText(labels)| ==> cut == NameText(labels)
    ensures Encode(cut) == Ok(Wire(labels)) <==> Names.Plain(labels) && cut == NameText(labels)
  {
    hide NameText, Encode, Names.Plain;
    if Encode(cut) == Ok(Wire(labels)) {
      EncodesTo(cut, labels);
    }
    if Names.Plain(labels) {
      EncodeLabels(labels);
    }
  }

  /** CNAME, NS and PTR data, uncompressed, anywhere in a message, comes back exactly when
      the labels are ASCII without dots and the printed name is not trimmed. */
  lemma NameRoundTripIff(ip: IpText, pre: seq<byte>, labels: WireLabels, rtype: u16, post: seq<byte>)
    requires rtype == TYPE_CNAME || rtype == TYPE_NS || rtype == TYPE_PTR
    requires Short(labels) && Size(labels) < MAX_NAME
    ensures var w := Wire(labels);
            var r := ParseRData(pre + w + post, |pre|, rtype, |w|);
            && r.Some? && AsDisplay(ip, r.value) == NameText(labels)
            && (EncodeRData(ip, rtype, AsDisplay(ip, r.value)) == Some(w)
                <==> Names.Plain(labels) && Trim(NameText(labels)) == NameText(labels))
  {
    hide NameText, Encode, Walk, Trim, Wire, Names.Plain, Short;
    WalkWire(pre, labels, post, 0, 0);
    TrimShrinks(NameText(labels));
    CutName(labels, Trim(NameText(labels)));
  }

  // ---- addresses ----

  /** A and AAAA data of the right length comes back byte for byte. */
  lemma AddressRoundTrip(ip: IpText, data: seq<byte>, pos: nat, rtype: u16, rdlen: nat)
    requires Faithful(ip) && pos + rdlen <= |data|
    requires (rtype == TYPE_A && rdlen == 4) || (rtype == TYPE_AAAA && rdlen == 16)
    ensures var r := ParseRData(data, pos, rtype, rdlen);
            r.Some? && EncodeRData(ip, rtype, AsDisplay(ip, r.value)) == Some(data[pos..pos + rdlen])
  {
    hide Trim;
    var raw := data[pos..pos + rdlen];
    TrimTight(if rtype == TYPE_A then ip.show4(raw) else ip.show6(raw));
  }

  lemma TrimShrinks(s: string)
    ensures |Trim(s)| <= |s| && (|Trim(s)| == |s| ==> Trim(s) == s)
  {
    TrimStartShrinks(s);
    TrimEndShrinks(TrimStart(s));
  }

  // ---- MX ----

  lemma {:induction false} SplitAtSpace(a: string, b: string)
    requires Names.Without(a, SPACE)
    ensures SplitOnce(a + [SPACE] + b, SPACE) == Some((a, b))
    ensures SplitOnce(a, SPACE) == None
  {
    var s := a + [SPACE] + b;
    if a == "" {
      assert s[1..] == b;
    } else {
      SplitAtSpace(a[1..], b);
      assert s[1..] == a[1..] + [SPACE] + b;
      assert [a[0]] + a[1..] == a;
    }
  }

  lemma MxEncodes(p: u16, m: string)
    ensures EncodeMx(Decimal(p) + [SPACE] + m) == match Encode(m) case Err(_) => None case Ok(w) => Some(Be16(p) + w)
    ensures EncodeMx(Decimal(p)) == match Encode(Decimal(p)) case Err(_) => None case Ok(w) => Some(Be16(p) + w)
  {
    hide Encode;
    NumberOfDecimal(p);
    DecimalRoundTrip(p);
    SplitAtSpace(Decimal(p), m);
  }

  lemma DigitsAreNoRoot(d: string)
    requires Digits(d)
    ensures Encode(d) != Ok([0])
  {
    SplitWhole(d, DOT);
    NonEmptyAll([d]);
    assert Labels(d) == [d];
    if Ascii(d) {
      LabelsAscii(d);
      var labels := RawLabels(Labels(d));
      assert labels[0] == Raw(d) && |labels| == 1;
    }
  }

  lemma MxParsed(pre: seq<byte>, p: u16, labels: WireLabels, post: seq<byte>)
    requires Short(labels) && Size(labels) < MAX_NAME
    ensures var w := Be16(p) + Wire(labels);
            ParseRData(pre + w + post, |pre|, TYPE_MX, |w|) == Some(MX(p, NameText(labels)))
  {
    hide NameText, Walk, Wire, Size, Num16, Be16;
    var head, w := pre + Be16(p), Be16(p) + Wire(labels);
    var data := pre + w + post;
    assert data == head + Wire(labels) + post;
    WalkWire(head, labels, post, 0, 0);
    Be16RoundTrip(p, 0, 0);
    assert data[|pre|] == Be16(p)[0] && data[|pre| + 1] == Be16(p)[1];
  }

  /** MX data comes back exactly when the exchange is not the root, its labels are ASCII
      without dots, and it does not end in white space. */
  lemma MxRoundTripIff(ip: IpText, pre: seq<byte>, p: u16, labels: WireLabels, post: seq<byte>)
    requires Short(labels) && Size(labels) < MAX_NAME
    ensures var w := Be16(p) + Wire(labels);
            var r := ParseRData(pre + w + post, |pre|, TYPE_MX, |w|);
            && r == Some(MX(p, NameText(labels)))
            && (EncodeRData(ip, TYPE_MX, AsDisplay(ip, r.value)) == Some(w)
                <==> labels != [] && Names.Plain(labels) && TrimEnd(NameText(labels)) == NameText(labels))
  {
    hide ParseRData, EncodeRData, AsDisplay, Names.Plain, Wire, NameText, TrimEnd, Short, Be16;
    MxParsed(pre, p, labels, post);
    MxShownIff(ip, p, labels);
  }

  lemma MxShownIff(ip: IpText, p: u16, labels: WireLabels)
    requires Short(labels) && Size(labels) < MAX_NAME
    ensures EncodeRData(ip, TYPE_MX, AsDisplay(ip, MX(p, NameText(labels)))) == Some(Be16(p) + Wire(labels))
            <==> labels != [] && Names.Plain(labels) && TrimEnd(NameText(labels)) == NameText(labels)
  {
    hide NameText, Encode, Trim, TrimEnd, EncodeMx, Wire, Names.Plain, Tight, Decimal, Be16, Short;
    var n := NameText(labels);
    var m := TrimEnd(n);
    OneNumber(p);
    OneWord(Decimal(p));
    LineJoin([Decimal(p)], [n]);
    OneWord(n);
    assert [Decimal(p)] + [n] == [Decimal(p), n];
    TrimLine(Decimal(p), n);
    MxEncodes(p, m);
    TrimEndShrinks(n);
    CutName(labels, m);
    EmptyName(labels);
    DigitsAreNoRoot(Decimal(p));
    RootWire();
    TrimmedAway(labels, p);
    assert forall w: seq<byte> :: Be16(p) + w == Be16(p) + Wire(labels) ==> w == Wire(labels) by {
      Cancel(Be16(p), Wire(labels));
    }
  }

  lemma Cancel(a: seq<byte>, b: seq<byte>)
    ensures forall w: seq<byte> :: a + w == a + b ==> w == b
  {
    forall w: seq<byte> | a + w == a + b
      ensures w == b
    {
      assert (a + w)[|a|..] == w && (a + b)[|a|..] == b;
    }
  }

  lemma EmptyName(labels: WireLabels)
    requires Short(labels)
    ensures NameText(labels) == "" <==> labels == []
  {
    LastByte(labels);
  }

  /** A name that is all white space is not what the preference encodes to. */
  lemma TrimmedAway(labels: WireLabels, p: u16)
    requires Short(labels)
    ensures TrimEnd(NameText(labels)) == "" && labels != [] ==> Encode(Decimal(p)) != Ok(Wire(labels))
  {
    if Encode(Decimal(p)) == Ok(Wire(labels)) {
      hide Encode, NameText;
      DecimalLabels(p, labels);
    }
  }

  lemma DecimalLabels(p: u16, labels: WireLabels)
    requires Short(labels) && Encode(Decimal(p)) == Ok(Wire(labels))
    ensures TrimEnd(NameText(labels)) != ""
  {
    var d := Decimal(p);
    SplitWhole(d, DOT);
    NonEmptyAll([d]);
    assert Labels(d) == [d];
    LabelsAscii(d);
    PrefixFree(RawLabels(Labels(d)), labels, [], []);
    BackText(d, labels);
    DecimalWord(p);
    assert Join([d], DOT) == d;
  }

  // ---- TXT ----

  /** Segments read back as the characters gathered so far and those still to come. */
  lemma {:induction false} SegmentsBack(s: string, done: string)
    requires |Utf8All(done)| <= 255
    ensures SegmentText(Segments(s, Utf8All(done))) == done + s
  {
    hide SegmentText, Utf8, Utf8All, Segments;
    var cur := Utf8All(done);
    if s == "" {
      SegmentsEnd(done);
      assert done + "" == done;
    } else {
      var c := Utf8(s[0]);
      assert s == [s[0]] + s[1..];
      Utf8Size(s[0]);
      OneCharacter(s[0]);
      SegmentsUnfold(s, cur);
      if |cur| + |c| > 255 {
        SegmentsBack(s[1..], [s[0]]);
        SegmentOne(done, Segments(s[1..], c));
        assert [s[0]] + s[1..] == s;
      } else {
        Utf8Concat(done, [s[0]]);
        SegmentsBack(s[1..], done + [s[0]]);
        assert done + [s[0]] + s[1..] == done + s;
      }
    }
  }

  lemma OneCharacter(c: char)
    ensures Utf8All([c]) == Utf8(c)
  {
    assert [c][1..] == "";
  }

  lemma SegmentsEnd(done: string)
    requires |Utf8All(done)| <= 255
    ensures SegmentText(Segments("", Utf8All(done))) == done
  {
    var cur := Utf8All(done);
    if cur != [] {
      SegmentOne(done, []);
      assert [|cur|] + cur + [] == [|cur|] + cur;
      assert done + "" == done;
    } else {
      LossyBack(done, []);
      assert cur + [] == cur && done + Lossy([]) == done;
    }
  }

  lemma SegmentOne(done: string, more: seq<byte>)
    requires |Utf8All(done)| <= 255
    ensures var cur := Utf8All(done); SegmentText([|cur|] + cur + more) == done + SegmentText(more)
  {
    hide Lossy, Utf8All;
    var cur := Utf8All(done);
    LossyBack(done, []);
    assert cur + [] == cur && Lossy([]) == "" && done + "" == done by { LossyUnfold([]); }
    var raw := [|cur|] + cur + more;
    assert raw[0] == |cur| && raw[1..1 + |cur|] == cur && raw[1 + |cur|..] == more;
  }

  /** Text data, whatever its bytes and its length, comes back as the same record, though
      the segments may be cut differently and ill-formed bytes have been replaced. */
  lemma TxtRoundTrip(ip: IpText, data: seq<byte>, pos: nat, rdlen: nat)
    requires pos + rdlen <= |data|
    ensures var r := ParseRData(data, pos, TYPE_TXT, rdlen);
            && r.Some?
            && var w := EncodeRData(ip, TYPE_TXT, AsDisplay(ip, r.value));
               w.Some? && ParseRData(w.value, 0, TYPE_TXT, |w.value|) == r
  {
    hide SegmentText, Segments, Trim, StripQuotes, EncodeTxt;
    var t := SegmentText(data[pos..pos + rdlen]);
    QuotedText(t);
    TxtBack(t);
    var w := EncodeTxt(QUOTES + t + QUOTES);
    assert w[0..|w|] == w;
  }

  lemma QuotedText(t: string)
    ensures Trim(QUOTES + t + QUOTES) == QUOTES + t + QUOTES && StripQuotes(QUOTES + t + QUOTES) == t
  {
    var value := QUOTES + t + QUOTES;
    assert value[0] == QUOTE && value[|value| - 1] == QUOTE;
    TrimTight(value);
    assert value[1..] == t + QUOTES && (t + QUOTES)[..|t|] == t && (t + QUOTES)[|t|] == QUOTE;
  }

  lemma TxtBack(t: string)
    ensures SegmentText(EncodeTxt(QUOTES + t + QUOTES)) == t
  {
    hide SegmentText, Segments, StripQuotes;
    QuotedText(t);
    SegmentsBack(t, "");
    assert "" + t == t;
    EmptySegment();
  }

  lemma EmptySegment()
    ensures SegmentText([0]) == ""
  {
    SegmentOne("", []);
    assert [0] + [] + [] == [0];
    assert SegmentText([]) == "";
  }

}
