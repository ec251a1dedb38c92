/** Parsing, displaying and encoding record data undo each other. */
module RecordRoundTrip {
  import opened Wrappers
  import opened Bytes
  import opened Unicode
  import opened Lexing
  import opened Names
  import opened SvcParams
  import opened RecordData

  // ---- trimming ----

  predicate Visible(c: char) {
    33 <= c as int <= 126
  }

  /** Neither end is white space. */
  predicate Tight(s: string) {
    s != "" && !Space(s[0]) && !Space(s[|s| - 1])
  }

  lemma TrimTight(s: string)
    requires Tight(s)
    ensures Trim(s) == s
  {
  }

  lemma {:induction false} LineTight(words: seq<string>)
    requires words != [] && words[0] != "" && !Space(words[0][0])
    requires var w := words[|words| - 1]; w != "" && !Space(w[|w| - 1])
    ensures Tight(Line(words)) && Line(words)[0] == words[0][0]
    decreases |words|
  {
    if |words| > 1 {
      LastOfLine(words[1..]);
    }
  }

  lemma {:induction false} LastOfLine(words: seq<string>)
    requires words != []
    requires var w := words[|words| - 1]; w != "" && !Space(w[|w| - 1])
    ensures Line(words) != "" && !Space(Line(words)[|Line(words)| - 1])
  {
    if |words| > 1 {
      LastOfLine(words[1..]);
    }
  }

  /** A line whose words are read as tokens is read as those tokens, trimmed or not. */
  lemma LineRead(words: seq<string>, toks: seq<string>)
    requires words != [] && |words| == |toks| && forall i :: 0 <= i < |words| ==> Word(words[i], toks[i])
    requires words[0] != "" && Visible(words[0][0])
    requires var w := words[|words| - 1]; w != "" && !Space(w[|w| - 1])
    ensures Tokens(Trim(Line(words))) == Some(toks)
  {
    hide Word, Tokens, Trim;
    LineTight(words);
    TrimTight(Line(words));
    LineTokens(words, toks);
  }

  lemma DecimalWord(n: nat)
    ensures Word(Decimal(n), Decimal(n)) && Visible(Decimal(n)[0]) && !Space(Decimal(n)[0])
    ensures !Space(Decimal(n)[|Decimal(n)| - 1])
  {
    DecimalRoundTrip(n);
  }

  lemma QuotedWord(b: seq<byte>)
    ensures Word(Quoted(b), Escaped(b, false)) && Quoted(b) != "" && !Space(Quoted(b)[|Quoted(b)| - 1])
  {
    hide Piece, Escaped;
    QuotedPiece(b);
  }

  // ---- names in record data ----

  /** A byte that survives being printed inside a name, unescaped. */
  predicate CleanByte(b: byte) {
    b < 128 && !Blank(b as char) && b != 34 && b != 46 && b != 92
  }

  predicate Clean(labels: WireLabels) {
    forall i :: 0 <= i < |labels| ==> forall j :: 0 <= j < |labels[i]| ==> CleanByte(labels[i][j])
  }

  /** The name does not end in the one character that is trimmed but is no blank. */
  predicate EndsWell(labels: WireLabels) {
    labels != [] && labels[|labels| - 1] != [] ==>
      var l := labels[|labels| - 1]; l[|l| - 1] != 11
  }

  predicate CleanText(s: string) {
    forall i :: 0 <= i < |s| ==> s[i] as int < 128 && !Blank(s[i]) && s[i] != QUOTE && s[i] != SLASH
  }

  lemma {:induction false} CleanName(labels: WireLabels)
    requires Clean(labels) && Short(labels)
    ensures CleanText(NameText(labels)) && (NameText(labels) == "" <==> labels == [])
  {
    var texts := TextLabels(labels);
    if labels != [] {
      CleanName(labels[1..]);
      assert TextLabels(labels[1..]) == texts[1..];
      forall j | 0 <= j < |labels[0]|
        ensures CleanByte(labels[0][j])
      {
      }
      LossyAscii(labels[0]);
    }
  }

  lemma {:induction false} LastByte(labels: WireLabels)
    requires Short(labels)
    ensures var n := NameText(labels);
            && (n == "" <==> labels == [])
            && (labels != [] ==> var l := labels[|labels| - 1];
                                 l[|l| - 1] < 128 ==> n[|n| - 1] == l[|l| - 1] as char)
  {
    hide Lossy;
    var texts := TextLabels(labels);
    if |labels| > 1 {
      LastByte(labels[1..]);
      assert TextLabels(labels[1..]) == texts[1..];
    } else if labels != [] {
      LossyLast(labels[0]);
    }
  }

  lemma CleanPlain(labels: WireLabels)
    requires Clean(labels)
    ensures Names.Plain(labels)
  {
    forall i | 0 <= i < |labels|
      ensures AsciiBytes(labels[i]) && Names.Without(Text(labels[i]), DOT)
    {
      forall j | 0 <= j < |labels[i]|
        ensures CleanByte(labels[i][j])
      {
      }
    }
  }

  lemma RootName()
    ensures Encode(".") == Ok([0])
  {
    SplitTrailing("");
    assert "" + [DOT] == ".";
    NonEmptyAppend([""]);
    NoLabels();
    assert Labels(".") == [];
  }

  lemma ShownEnds(labels: WireLabels)
    requires Clean(labels) && Short(labels) && EndsWell(labels)
    ensures var t := NameDisplay(NameText(labels)); t != "" && !Space(t[|t| - 1])
  {
    LastByte(labels);
    if labels != [] {
      var l := labels[|labels| - 1];
      assert CleanByte(l[|l| - 1]);
    }
  }

  /** A clean name is one token, which encodes to its labels. */
  lemma NameToken(labels: WireLabels)
    requires Clean(labels) && Short(labels) && Size(labels) < MAX_NAME
    ensures var t := NameDisplay(NameText(labels));
            t != "" && Word(t, t) && TokenName(t) == Some(Wire(labels))
  {
    hide Encode, NameText, Clean, Short, Wire, Unescape;
    var n := NameText(labels);
    var t := NameDisplay(n);
    CleanName(labels);
    CleanPlain(labels);
    EncodeLabels(labels);
    RootName();
    assert CleanText(t);
    UnescapePlain(t);
    LossyRaw(t);
    AsciiIsUtf8(t);
    WordPiece(t);
    RootWire();
  }

  lemma RootWire()
    ensures Wire([]) == [0]
  {
  }

  // ---- SVCB and HTTPS ----

  predicate ShortParams(params: seq<Param>) {
    forall i :: 0 <= i < |params| ==> |params[i].value| < 0x1_0000
  }

  function ParamsWire(params: seq<Param>): seq<byte>
    requires ShortParams(params)
  {
    if params == [] then []
    else Be16(params[0].key) + Be16(|params[0].value|) + params[0].value + ParamsWire(params[1..])
  }

  function SvcbWire(priority: u16, labels: WireLabels, params: seq<Param>): seq<byte>
    requires Short(labels) && ShortParams(params)
  {
    Be16(priority) + Wire(labels) + ParamsWire(params)
  }

  function ParamTokens(ip: IpText, params: seq<Param>): (r: seq<string>)
    ensures |r| == |params| && forall i :: 0 <= i < |r| ==> r[i] == TokenOf(Show(ip, params[i].key, params[i].value))
  {
    seq(|params|, i requires 0 <= i < |params| => TokenOf(Show(ip, params[i].key, params[i].value)))
  }

  lemma {:induction false} ParamsEncode(ip: IpText, params: seq<Param>)
    requires Faithful(ip) && ShortParams(params)
    ensures EncodeParams(ip, ParamTokens(ip, params)) == Some(ParamsWire(params))
  {
    if params != [] {
      hide Faithful, Show, TokenOf, Parse, Word;
      var p := params[0];
      ParamRoundTrip(ip, p.key, p.value);
      ParamsEncode(ip, params[1..]);
      assert ParamTokens(ip, params)[1..] == ParamTokens(ip, params[1..]);
      assert Param(p.key, p.value) == p;
    }
  }

  /** A printed parameter ends in a visible character. */
  lemma ParamEnds(ip: IpText, key: u16, value: seq<byte>)
    requires Faithful(ip)
    ensures var t := Display(ip, key, value); t != "" && !Space(t[|t| - 1])
  {
    hide Faithful, MandatoryText, AlpnText, HintText, Quoted, Escaped;
    if Show(ip, key, value).InQuotes? {
      QuotedWord(value);
    } else if Show(ip, key, value).Plain? {
      PlainEnds(ip, key, value);
    }
  }

  lemma PlainEnds(ip: IpText, key: u16, value: seq<byte>)
    requires Faithful(ip) && Show(ip, key, value).Plain?
    ensures var t := Show(ip, key, value).text; t != "" ==> !Space(t[|t| - 1])
  {
    hide Faithful, Base64, Decimal, Join, KeyText, Escaped;
    if key == 0 {
      MandatoryBack(value);
      var texts := MandatoryTexts(value);
      forall i | 0 <= i < |texts|
        ensures Ends(texts[i])
      {
        MandatoryTextEnds(value, i);
      }
      JoinEnds(texts);
    } else if key == 1 {
      var items := Items(value).value;
      ItemsBack(value);
      forall i | 0 <= i < |ItemTexts(items)|
        ensures Ends(ItemTexts(items)[i])
      {
        EscapedEnds(items[i]);
      }
      JoinEnds(ItemTexts(items));
    } else if key == 3 {
      DecimalWord(Num16(value[0], value[1]));
    } else if key == 5 {
      Base64Ends(value);
    } else {
      HintsEnd(ip, value, if key == 4 then 4 else 16);
    }
  }

  predicate Ends(s: string) {
    s != "" && !Space(s[|s| - 1])
  }

  lemma {:induction false} JoinEnds(parts: seq<string>)
    requires parts != [] && forall i :: 0 <= i < |parts| ==> Ends(parts[i])
    ensures Ends(Join(parts, COMMA))
  {
    if |parts| > 1 {
      JoinEnds(parts[1..]);
    }
  }

  lemma {:induction false} MandatoryTextEnds(value: seq<byte>, i: nat)
    requires |value| % 2 == 0 && i < |MandatoryTexts(value)|
    ensures Ends(MandatoryTexts(value)[i])
  {
    if i > 0 {
      MandatoryTextEnds(value[2..], i - 1);
    } else {
      KeyTextEnds(Num16(value[0], value[1]));
    }
  }

  lemma KeyTextEnds(key: u16)
    ensures Ends(KeyText(key))
  {
    if key <= 8 {
      NameShape(key);
    } else {
      DecimalWord(key);
    }
  }

  lemma {:induction false} EscapedEnds(b: seq<byte>)
    requires b != []
    ensures Ends(Escaped(b, true))
  {
    if |b| > 1 {
      EscapedEnds(b[1..]);
    } else {
      assert Escaped(b[1..], true) == "";
    }
  }

  lemma {:induction false} Base64Ends(b: seq<byte>)
    ensures b != [] ==> Ends(Base64(b))
    ensures b == [] ==> Base64(b) == ""
  {
    if |b| > 3 {
      Base64Ends(b[3..]);
    } else if b != [] {
      GroupEnds(b);
    }
  }

  lemma GroupEnds(chunk: seq<byte>)
    requires 1 <= |chunk| <= 3
    ensures Ends(B64Group(chunk))
  {
  }

  lemma {:induction false} HintsEnd(ip: IpText, value: seq<byte>, width: nat)
    requires Faithful(ip) && (width == 4 || width == 16) && HintText(ip, value, width).Some?
    ensures Ends(HintText(ip, value, width).value)
  {
    HintsBack(ip, value, width);
    var texts := HintTexts(ip, value, width);
    forall i | 0 <= i < |texts|
      ensures Ends(texts[i])
    {
      assert AddressText(texts[i]);
    }
    JoinEnds(texts);
  }

  /** What is shown of a service record encodes to its wire form. */
  lemma SvcbShown(ip: IpText, priority: u16, labels: WireLabels, params: seq<Param>)
    requires Faithful(ip) && Clean(labels) && Short(labels) && Size(labels) < MAX_NAME && ShortParams(params)
    requires params == [] ==> EndsWell(labels)
    ensures var value := Trim(AsDisplay(ip, SVCB(priority, NameText(labels), params)));
            && Tokens(value).Some?
            && EncodeSvcb(ip, Tokens(value).value) == Some(SvcbWire(priority, labels, params))
  {
    hide Faithful, Word, Tokens, Trim, Line, Decimal, NameDisplay, NameText, Show, TokenOf, Display, Space, Visible,
         EncodeSvcb, SvcbWire, Clean, EndsWell, Short, Size, Encode, Wire, Utf8All, Lossy, TokenName, Tight;
    var n := NameDisplay(NameText(labels));
    var words, toks := [Decimal(priority), n] + ParamTexts(ip, params),
        [Decimal(priority), n] + ParamTokens(ip, params);
    DecimalWord(priority);
    NameToken(labels);
    if params == [] {
      ShownEnds(labels);
    }
    ParamWords(ip, params);
    LineRead(words, toks);
    SvcbTokens(ip, priority, labels, params);
  }

  lemma ParamWords(ip: IpText, params: seq<Param>)
    requires Faithful(ip)
    ensures forall i :: 0 <= i < |params| ==> Word(ParamTexts(ip, params)[i], ParamTokens(ip, params)[i])
    ensures forall i :: 0 <= i < |params| ==> var t := ParamTexts(ip, params)[i]; t != "" && !Space(t[|t| - 1])
  {
    hide Faithful, Word, Show, TokenOf, Display, Space;
    forall i | 0 <= i < |params|
      ensures Word(ParamTexts(ip, params)[i], ParamTokens(ip, params)[i])
      ensures var t := ParamTexts(ip, params)[i]; t != "" && !Space(t[|t| - 1])
    {
      ParamRoundTrip(ip, params[i].key, params[i].value);
      ParamEnds(ip, params[i].key, params[i].value);
    }
  }

  lemma SvcbTokens(ip: IpText, priority: u16, labels: WireLabels, params: seq<Param>)
    requires Faithful(ip) && Clean(labels) && Short(labels) && Size(labels) < MAX_NAME && ShortParams(params)
    ensures EncodeSvcb(ip, [Decimal(priority), NameDisplay(NameText(labels))] + ParamTokens(ip, params))
         == Some(SvcbWire(priority, labels, params))
  {
    hide Faithful, Word, Decimal, TokenU16, TokenName, NameDisplay, NameText, Show, TokenOf, Clean, Wire, Be16,
         ParamsWire, EncodeParams;
    var toks := [Decimal(priority), NameDisplay(NameText(labels))] + ParamTokens(ip, params);
    DecimalRoundTrip(priority);
    NameToken(labels);
    ParamsEncode(ip, params);
    assert toks[2..] == ParamTokens(ip, params);
  }

  lemma {:induction false} ParamsParsed(pre: seq<byte>, params: seq<Param>, post: seq<byte>)
    requires ShortParams(params)
    ensures ParseParams(pre + ParamsWire(params) + post, |pre|, |pre| + |ParamsWire(params)|) == Some(params)
    decreases |params|
  {
    hide Be16, Num16, ParamsWire, ParseParams;
    var data := pre + ParamsWire(params) + post;
    if params == [] {
      NoParams(data, |pre|);
    } else {
      var p, more := params[0], params[1..];
      var head, tail := ParamBytes(p), ParamsWire(more);
      ParamsParsed(pre + head, more, post);
      ParamHead(pre, p, tail + post);
      ParamsWireCons(params);
      assert data == (pre + head) + tail + post;
      assert data == pre + head + (tail + post);
      ParseStep(data, |pre|, |pre| + |ParamsWire(params)|, p);
      assert |pre + head| == |pre| + 4 + |p.value|;
      assert [p] + more == params;
    }
  }

  function ParamBytes(p: Param): (b: seq<byte>)
    requires |p.value| < 0x1_0000
    ensures |b| == 4 + |p.value|
  {
    Be16(p.key) + Be16(|p.value|) + p.value
  }

  lemma ParamsWireCons(params: seq<Param>)
    requires ShortParams(params) && params != []
    ensures ParamsWire(params) == ParamBytes(params[0]) + ParamsWire(params[1..])
  {
  }

  lemma NoParams(data: seq<byte>, p: nat)
    requires p <= |data|
    ensures ParamsWire([]) == [] && ParseParams(data, p, p) == Some([])
  {
  }

  /** The four bytes in front of a value give its key and its length. */
  lemma ParamHead(pre: seq<byte>, p: Param, post: seq<byte>)
    requires |p.value| < 0x1_0000
    ensures var data := pre + ParamBytes(p) + post;
            var i := |pre|;
            && Num16(data[i], data[i + 1]) == p.key && Num16(data[i + 2], data[i + 3]) == |p.value|
            && data[i + 4..i + 4 + |p.value|] == p.value
  {
    Be16RoundTrip(p.key, 0, 0);
    Be16RoundTrip(|p.value|, 0, 0);
  }

  lemma ParseStep(data: seq<byte>, i: nat, end: nat, p: Param)
    requires i + 4 + |p.value| <= end <= |data|
    requires Num16(data[i], data[i + 1]) == p.key && Num16(data[i + 2], data[i + 3]) == |p.value|
    requires data[i + 4..i + 4 + |p.value|] == p.value
    ensures ParseParams(data, i, end) == match ParseParams(data, i + 4 + |p.value|, end)
                                         case None => None
                                         case Some(more) => Some([p] + more)
  {
  }

  lemma {:induction false} ParamsBack(data: seq<byte>, p: nat, end: nat)
    requires p <= end <= |data| && ParseParams(data, p, end).Some?
    ensures var params := ParseParams(data, p, end).value;
            ShortParams(params) && data[p..end] == ParamsWire(params)
    decreases end - p
  {
    hide ParseParams, ParamsWire, Num16, Be16;
    if p < end {
      ParamsHead(data, p, end);
      var key, len := Num16(data[p], data[p + 1]), Num16(data[p + 2], data[p + 3]);
      ParamsBack(data, p + 4 + len, end);
      var params := ParseParams(data, p, end).value;
      ParamsWireCons(params);
      HeadBytes(data, p, end);
    } else {
      NoParams(data, p);
    }
  }

  lemma ParamsHead(data: seq<byte>, p: nat, end: nat)
    requires p < end <= |data| && ParseParams(data, p, end).Some?
    ensures p + 4 <= end
    ensures var key, len := Num16(data[p], data[p + 1]), Num16(data[p + 2], data[p + 3]);
            && p + 4 + len <= end && ParseParams(data, p + 4 + len, end).Some?
            && var params := ParseParams(data, p, end).value;
               params != [] && params[0] == Param(key, data[p + 4..p + 4 + len])
                   && params[1..] == ParseParams(data, p + 4 + len, end).value
  {
  }

  lemma HeadBytes(data: seq<byte>, p: nat, end: nat)
    requires p + 4 <= end <= |data|
    ensures var key, len := Num16(data[p], data[p + 1]), Num16(data[p + 2], data[p + 3]);
            p + 4 + len <= end ==>
                  data[p..end] == ParamBytes(Param(key, data[p + 4..p + 4 + len])) + data[p + 4 + len..end]
  {
    Be16RoundTrip(0, data[p], data[p + 1]);
    Be16RoundTrip(0, data[p + 2], data[p + 3]);
    hide Num16, Be16;
    var len := Num16(data[p + 2], data[p + 3]);
    if p + 4 + len <= end {
      assert data[p..end] == [data[p], data[p + 1]] + [data[p + 2], data[p + 3]] + data[p + 4..p + 4 + len]
             + data[p + 4 + len..end];
    }
  }

  lemma SvcbWireParsed(pre: seq<byte>, priority: u16, labels: WireLabels, params: seq<Param>, post: seq<byte>)
    requires Short(labels) && Size(labels) < MAX_NAME && ShortParams(params)
    ensures var w := SvcbWire(priority, labels, params);
            ParseSvcb(pre + w + post, |pre|, |w|) == Some(SVCB(priority, NameText(labels), params))
  {
    hide NameText, Walk, ParseParams, Wire, ParamsWire, Size, Num16, Be16, ParseSvcb;
    var head, tail := pre + Be16(priority), ParamsWire(params);
    var data := pre + SvcbWire(priority, labels, params) + post;
    assert data == head + Wire(labels) + (tail + post);
    assert data == (head + Wire(labels)) + tail + post;
    WalkWire(head, labels, tail + post, 0, 0);
    ParamsParsed(head + Wire(labels), params, post);
    Be16RoundTrip(priority, 0, 0);
    assert data[|pre|] == Be16(priority)[0] && data[|pre| + 1] == Be16(priority)[1];
    SvcbFound(data, |pre|, |SvcbWire(priority, labels, params)|, labels, params);
  }

  lemma SvcbFound(data: seq<byte>, pos: nat, rdlen: nat, labels: WireLabels, params: seq<Param>)
    requires 3 <= rdlen && pos + rdlen <= |data|
    requires var r := Walk(data, pos + 2, 0, 0);
             r.Ok? && r.value.labels == labels && r.value.end <= pos + rdlen
                 && ParseParams(data, r.value.end, pos + rdlen) == Some(params)
    ensures ParseSvcb(data, pos, rdlen) == Some(SVCB(Num16(data[pos], data[pos + 1]), NameText(labels), params))
  {
    hide Walk, ParseParams, NameText, Num16;
  }

  /** The bytes between two positions are an uncompressed name. */
  ghost predicate Uncompressed(data: seq<byte>, pos: nat, w: Walked)
    requires Short(w.labels)
  {
    pos <= w.end <= |data| && data[pos..w.end] == Wire(w.labels)
  }

  lemma SvcbBack(data: seq<byte>, pos: nat, rdlen: nat)
    requires pos + rdlen <= |data| && ParseSvcb(data, pos, rdlen).Some?
    ensures var r, name := ParseSvcb(data, pos, rdlen).value, Walk(data, pos + 2, 0, 0);
            && name.Ok? && Short(name.value.labels) && Size(name.value.labels) < MAX_NAME
            && r.SVCB? && r.target == NameText(name.value.labels) && ShortParams(r.params)
            && (Uncompressed(data, pos + 2, name.value) ==>
                 data[pos..pos + rdlen] == SvcbWire(r.priority, name.value.labels, r.params))
  {
    hide Walk, ParamsWire, Wire, NameText, ParseParams, Num16, Be16, ParseSvcb, Size;
    SvcbUnfold(data, pos, rdlen);
    WalkBounds(data, pos + 2, 0, 0);
    var w := Walk(data, pos + 2, 0, 0).value;
    ParamsBack(data, w.end, pos + rdlen);
    Be16RoundTrip(0, data[pos], data[pos + 1]);
    Slices(data, pos, pos + 2, w.end, pos + rdlen);
    assert data[pos..pos + 2] == [data[pos], data[pos + 1]];
  }

  lemma SvcbUnfold(data: seq<byte>, pos: nat, rdlen: nat)
    requires pos + rdlen <= |data| && ParseSvcb(data, pos, rdlen).Some?
    ensures rdlen >= 3 && Walk(data, pos + 2, 0, 0).Ok?
    ensures var w := Walk(data, pos + 2, 0, 0).value;
            && pos + 2 < w.end <= pos + rdlen && ParseParams(data, w.end, pos + rdlen).Some?
            && ParseSvcb(data, pos, rdlen).value
            == SVCB(Num16(data[pos], data[pos + 1]), NameText(w.labels), ParseParams(data, w.end, pos + rdlen).value)
  {
    WalkBounds(data, pos + 2, 0, 0);
  }

  lemma Slices(data: seq<byte>, a: nat, b: nat, c: nat, d: nat)
    requires a <= b <= c <= d <= |data|
    ensures data[a..d] == data[a..b] + data[b..c] + data[c..d]
  {
  }

  /** What a parsed service record shows encodes to the same record, and to the same
      bytes when the target was not compressed. */
  lemma SvcbReturns(ip: IpText, data: seq<byte>, pos: nat, rdlen: nat)
    requires Faithful(ip) && pos + rdlen <= |data| && ParseSvcb(data, pos, rdlen).Some?
    requires var labels := Target(data, pos);
             Clean(labels) && (Params(data, pos, rdlen) == [] ==> EndsWell(labels))
    ensures var r, name := ParseSvcb(data, pos, rdlen).value, Walk(data, pos + 2, 0, 0);
            var value := Trim(AsDisplay(ip, r));
            && Tokens(value).Some? && name.Ok? && Short(name.value.labels)
            && var w := EncodeSvcb(ip, Tokens(value).value);
               && w.Some? && ParseSvcb(w.value, 0, |w.value|) == Some(r)
               && (Uncompressed(data, pos + 2, name.value) ==> w.value == data[pos..pos + rdlen])
  {
    hide Faithful, Walk, ParseSvcb, NameText, Trim, Tokens, AsDisplay, EncodeSvcb, SvcbWire, Clean, Wire, EndsWell;
    SvcbBack(data, pos, rdlen);
    var r, labels := ParseSvcb(data, pos, rdlen).value, Walk(data, pos + 2, 0, 0).value.labels;
    SvcbShown(ip, r.priority, labels, r.params);
    SvcbWireParsed([], r.priority, labels, r.params, []);
    var w := SvcbWire(r.priority, labels, r.params);
    assert [] + w + [] == w;
  }

  /** The labels of the target name, and the parameters, of service record data. */
  function Target(data: seq<byte>, pos: nat): WireLabels {
    match Walk(data, pos + 2, 0, 0)
    case Ok(w) => w.labels
    case Err(_) => []
  }

  function Params(data: seq<byte>, pos: nat, rdlen: nat): seq<Param>
    requires pos + rdlen <= |data|
  {
    match ParseSvcb(data, pos, rdlen)
    case Some(SVCB(_, _, ps)) => ps
    case _ => []
  }

  /** Service records: parsed, shown and encoded again they are the same record, and
      the same bytes when the target was not compressed. */
  lemma SvcbRoundTrip(ip: IpText, data: seq<byte>, pos: nat, rtype: u16, rdlen: nat)
    requires Faithful(ip) && (rtype == TYPE_SVCB || rtype == TYPE_HTTPS)
    requires ParseRData(data, pos, rtype, rdlen).Some?
    requires Clean(Target(data, pos)) && (Params(data, pos, rdlen) == [] ==> EndsWell(Target(data, pos)))
    ensures var r, name := ParseRData(data, pos, rtype, rdlen).value, Walk(data, pos + 2, 0, 0);
            var w := EncodeRData(ip, rtype, AsDisplay(ip, r));
            && w.Some? && ParseRData(w.value, 0, rtype, |w.value|) == Some(r)
            && name.Ok? && Short(name.value.labels)
            && (Uncompressed(data, pos + 2, name.value) ==> w.value == data[pos..pos + rdlen])
  {
    hide Faithful, Walk, ParseSvcb, Trim, Tokens, AsDisplay, EncodeSvcb, Clean, EndsWell, Uncompressed, Target, Params;
    SvcbReturns(ip, data, pos, rdlen);
  }

  // ---- NAPTR ----

  function CharBytes(b: seq<byte>): seq<byte>
    requires |b| < 256
  {
    [|b|] + b
  }

  function NaptrWire(order: u16, preference: u16, f: seq<byte>, s: seq<byte>, x: seq<byte>,
                     labels: WireLabels): seq<byte>
    requires |f| < 256 && |s| < 256 && |x| < 256 && Short(labels)
  {
    Be16(order) + Be16(preference) + CharBytes(f) + CharBytes(s) + CharBytes(x) + Wire(labels)
  }

  lemma CharStringEncodes(b: seq<byte>, more: seq<string>)
    requires |b| < 256
    ensures EncodeCharStrings([Escaped(b, false)] + more) == Appended(CharBytes(b), EncodeCharStrings(more))
  {
    UnescapeEscaped(b, false);
    assert ([Escaped(b, false)] + more)[1..] == more;
  }

  lemma CharStringsEncode(f: seq<byte>, s: seq<byte>, x: seq<byte>)
    requires |f| < 256 && |s| < 256 && |x| < 256
    ensures EncodeCharStrings([Escaped(f, false), Escaped(s, false), Escaped(x, false)])
         == Some(CharBytes(f) + CharBytes(s) + CharBytes(x))
  {
    hide Escaped, EncodeCharStrings, CharBytes;
    var a, b, c := Escaped(f, false), Escaped(s, false), Escaped(x, false);
    CharStringEncodes(f, [b, c]);
    CharStringEncodes(s, [c]);
    CharStringEncodes(x, []);
    NoCharStrings();
    assert [a] + [b, c] == [a, b, c] && [b] + [c] == [b, c] && [c] + [] == [c];
    AppendedEnds(CharBytes(x), None);
    AppendedTwice(CharBytes(f), CharBytes(s), Some(CharBytes(x)));
  }

  lemma NoCharStrings()
    ensures EncodeCharStrings([]) == Some([])
  {
  }

  lemma NaptrShown(ip: IpText, order: u16, preference: u16, f: seq<byte>, s: seq<byte>, x: seq<byte>,
                   labels: WireLabels)
    requires |f| < 256 && |s| < 256 && |x| < 256
    requires Clean(labels) && Short(labels) && Size(labels) < MAX_NAME && EndsWell(labels)
    ensures var value := Trim(AsDisplay(ip, NAPTR(order, preference, f, s, x, NameText(labels))));
            && Tokens(value).Some?
            && EncodeNaptr(Tokens(value).value) == Some(NaptrWire(order, preference, f, s, x, labels))
  {
    hide Word, Tokens, Trim, Line, Decimal, TokenU16, TokenName, NameDisplay, NameText, Space, Visible, Escaped, Quoted,
         EncodeNaptr, NaptrWire, Clean, Ends, EndsWell;
    var n := NameDisplay(NameText(labels));
    var words := [Decimal(order), Decimal(preference), Quoted(f), Quoted(s), Quoted(x), n];
    var toks := [Decimal(order), Decimal(preference), Escaped(f, false), Escaped(s, false), Escaped(x, false), n];
    DecimalWord(order);
    DecimalWord(preference);
    NameToken(labels);
    ShownEnds(labels);
    QuotedWord(f);
    QuotedWord(s);
    QuotedWord(x);
    LineRead(words, toks);
    NaptrTokens(order, preference, f, s, x, labels);
  }

  lemma NaptrTokens(order: u16, preference: u16, f: seq<byte>, s: seq<byte>, x: seq<byte>, labels: WireLabels)
    requires |f| < 256 && |s| < 256 && |x| < 256
    requires Clean(labels) && Short(labels) && Size(labels) < MAX_NAME
    ensures EncodeNaptr([Decimal(order), Decimal(preference), Escaped(f, false), Escaped(s, false), Escaped(x, false),
                         NameDisplay(NameText(labels))]) == Some(NaptrWire(order, preference, f, s, x, labels))
  {
    hide Word, Decimal, TokenU16, TokenName, NameDisplay, NameText, Space, Escaped, EncodeCharStrings, CharBytes,
         Clean, Wire, Be16;
    var n := NameDisplay(NameText(labels));
    var toks := [Decimal(order), Decimal(preference), Escaped(f, false), Escaped(s, false), Escaped(x, false), n];
    DecimalRoundTrip(order);
    DecimalRoundTrip(preference);
    NameToken(labels);
    CharStringsEncode(f, s, x);
    assert toks[2..5] == [Escaped(f, false), Escaped(s, false), Escaped(x, false)];
    assert Be16(order) + Be16(preference) + (CharBytes(f) + CharBytes(s) + CharBytes(x)) + Wire(labels)
        == NaptrWire(order, preference, f, s, x, labels);
  }

  lemma CharStringAt(pre: seq<byte>, b: seq<byte>, post: seq<byte>, end: nat)
    requires |b| < 256 && |pre| + |CharBytes(b)| <= end <= |pre + CharBytes(b) + post|
    ensures CharString(pre + CharBytes(b) + post, |pre|, end) == Some((b, |pre| + |CharBytes(b)|))
  {
    var data := pre + CharBytes(b) + post;
    assert data[|pre|] == |b| && data[|pre| + 1..|pre| + 1 + |b|] == b;
  }

  lemma NaptrWireParsed(pre: seq<byte>, order: u16, preference: u16, f: seq<byte>, s: seq<byte>, x: seq<byte>,
                        labels: WireLabels, post: seq<byte>)
    requires |f| < 256 && |s| < 256 && |x| < 256 && Short(labels) && Size(labels) < MAX_NAME
    ensures var w := NaptrWire(order, preference, f, s, x, labels);
            ParseNaptr(pre + w + post, |pre|, |w|) == Some(NAPTR(order, preference, f, s, x, NameText(labels)))
  {
    hide NameText, Walk, CharString, CharBytes, Wire, Be16, Num16, Size, ParseNaptr, NaptrWire;
    var w, name := NaptrWire(order, preference, f, s, x, labels), Wire(labels);
    var head, a, b, c := pre + Be16(order) + Be16(preference), CharBytes(f), CharBytes(s), CharBytes(x);
    var data, end := pre + w + post, |pre| + |w|;
    NaptrParts(pre, order, preference, f, s, x, labels, post);
    CharStringAt(head, f, b + c + name + post, end);
    CharStringAt(head + a, s, c + name + post, end);
    CharStringAt(head + a + b, x, name + post, end);
    WalkWire(head + a + b + c, labels, post, 0, 0);
    NaptrFound(data, |pre|, end, order, preference, f, s, x, labels, |head| + |a|, |head| + |a| + |b|,
        |head| + |a| + |b| + |c|);
  }

  lemma NaptrParts(pre: seq<byte>, order: u16, preference: u16, f: seq<byte>, s: seq<byte>, x: seq<byte>,
                   labels: WireLabels, post: seq<byte>)
    requires |f| < 256 && |s| < 256 && |x| < 256 && Short(labels)
    ensures var w, name := NaptrWire(order, preference, f, s, x, labels), Wire(labels);
            var head, a, b, c := pre + Be16(order) + Be16(preference), CharBytes(f), CharBytes(s), CharBytes(x);
            var data, k := pre + w + post, |pre|;
            && data == head + a + (b + c + name + post) == (head + a) + b + (c + name + post)
            && data == (head + a + b) + c + (name + post) == (head + a + b + c) + name + post
            && |w| >= 8 && |head| == k + 4 && |w| == 4 + |a| + |b| + |c| + |name|
            && Num16(data[k], data[k + 1]) == order && Num16(data[k + 2], data[k + 3]) == preference
  {
    hide Wire;
    Be16RoundTrip(order, 0, 0);
    Be16RoundTrip(preference, 0, 0);
    hide Be16, Num16;
    var data, k := pre + NaptrWire(order, preference, f, s, x, labels) + post, |pre|;
    assert data[k] == Be16(order)[0] && data[k + 1] == Be16(order)[1];
    assert data[k + 2] == Be16(preference)[0] && data[k + 3] == Be16(preference)[1];
  }

  lemma NaptrFound(data: seq<byte>, pos: nat, end: nat, order: u16, preference: u16, f: seq<byte>, s: seq<byte>,
                   x: seq<byte>,
                   labels: WireLabels, p1: nat, p2: nat, p3: nat)
    requires pos + 8 <= end <= |data|
    requires Num16(data[pos], data[pos + 1]) == order && Num16(data[pos + 2], data[pos + 3]) == preference
    requires CharString(data, pos + 4, end) == Some((f, p1)) && CharString(data, p1, end) == Some((s, p2))
    requires CharString(data, p2, end) == Some((x, p3)) && Walk(data, p3, 0, 0) == Ok(Walked(labels, end))
    ensures ParseNaptr(data, pos, end - pos) == Some(NAPTR(order, preference, f, s, x, NameText(labels)))
  {
    hide CharString, Walk, Num16, NameText;
  }

  /** Where the replacement of a parsed record starts. */
  function ReplacementAt(data: seq<byte>, pos: nat): nat
    requires pos + 4 <= |data|
  {
    var a := if pos + 4 < |data| then pos + 5 + data[pos + 4] else 0;
    var b := if a < |data| then a + 1 + data[a] else 0;
    if b < |data| then b + 1 + data[b] else 0
  }

  lemma CharStringBack(data: seq<byte>, p: nat, end: nat)
    requires end <= |data| && CharString(data, p, end).Some?
    ensures p < |data|
    ensures var (b, next) := CharString(data, p, end).value;
            |b| < 256 && next == p + 1 + data[p] <= end && data[p..next] == CharBytes(b)
  {
  }

  lemma NaptrUnfold(data: seq<byte>, pos: nat, rdlen: nat)
    requires pos + rdlen <= |data| && ParseNaptr(data, pos, rdlen).Some?
    ensures var p := ReplacementAt(data, pos);
            var name, r := Walk(data, p, 0, 0), ParseNaptr(data, pos, rdlen).value;
            && rdlen >= 8 && pos + 4 <= p <= pos + rdlen
            && name.Ok? && name.value.end == pos + rdlen && r.NAPTR?
            && r.order == Num16(data[pos], data[pos + 1]) && r.preference == Num16(data[pos + 2], data[pos + 3])
            && |r.flags| < 256 && |r.services| < 256 && |r.regexp| < 256 && r.replacement == NameText(name.value.labels)
            && data[pos + 4..p] == CharBytes(r.flags) + CharBytes(r.services) + CharBytes(r.regexp)
  {
    hide CharString, CharBytes, NameText, Walk;
    var end := pos + rdlen;
    CharStringBack(data, pos + 4, end);
    var p1 := CharString(data, pos + 4, end).value.1;
    CharStringBack(data, p1, end);
    var p2 := CharString(data, p1, end).value.1;
    CharStringBack(data, p2, end);
    var p3 := CharString(data, p2, end).value.1;
    Slices(data, pos + 4, p1, p2, p3);
  }

  /** NAPTR records round trip like service records. */
  lemma NaptrRoundTrip(ip: IpText, data: seq<byte>, pos: nat, rdlen: nat)
    requires ParseRData(data, pos, TYPE_NAPTR, rdlen).Some?
    requires var name := Walk(data, ReplacementAt(data, pos), 0, 0); name.Ok? ==>
             Clean(name.value.labels) && EndsWell(name.value.labels)
    ensures var r, p := ParseRData(data, pos, TYPE_NAPTR, rdlen).value, ReplacementAt(data, pos);
            var w, name := EncodeRData(ip, TYPE_NAPTR, AsDisplay(ip, r)), Walk(data, p, 0, 0);
            && w.Some? && ParseRData(w.value, 0, TYPE_NAPTR, |w.value|) == Some(r)
            && name.Ok? && Short(name.value.labels)
            && (Uncompressed(data, p, name.value) ==> w.value == data[pos..pos + rdlen])
  {
    hide Walk, ParseNaptr, NameText, Trim, Tokens, AsDisplay, EncodeNaptr, Clean, EndsWell, Wire, ReplacementAt,
         CharBytes, Num16;
    NaptrUnfold(data, pos, rdlen);
    var r, p := ParseNaptr(data, pos, rdlen).value, ReplacementAt(data, pos);
    WalkBounds(data, p, 0, 0);
    var labels := Walk(data, p, 0, 0).value.labels;
    NaptrShown(ip, r.order, r.preference, r.flags, r.services, r.regexp, labels);
    NaptrWireParsed([], r.order, r.preference, r.flags, r.services, r.regexp, labels, []);
    var w := NaptrWire(r.order, r.preference, r.flags, r.services, r.regexp, labels);
    assert [] + w + [] == w;
    if Uncompressed(data, p, Walk(data, p, 0, 0).value) {
      NaptrBytes(data, pos, p, pos + rdlen, r.order, r.preference, r.flags, r.services, r.regexp, labels);
    }
  }

  lemma NaptrBytes(data: seq<byte>, pos: nat, p: nat, end: nat, order: u16, preference: u16,
                   f: seq<byte>, s: seq<byte>, x: seq<byte>, labels: WireLabels)
    requires pos + 4 <= p <= end <= |data| && |f| < 256 && |s| < 256 && |x| < 256 && Short(labels)
    requires order == Num16(data[pos], data[pos + 1]) && preference == Num16(data[pos + 2], data[pos + 3])
    requires data[pos + 4..p] == CharBytes(f) + CharBytes(s) + CharBytes(x) && data[p..end] == Wire(labels)
    ensures data[pos..end] == NaptrWire(order, preference, f, s, x, labels)
  {
    hide CharBytes, Wire;
    Be16RoundTrip(0, data[pos], data[pos + 1]);
    Be16RoundTrip(0, data[pos + 2], data[pos + 3]);
    Slices(data, pos, pos + 4, p, end);
    assert data[pos..pos + 4] == [data[pos], data[pos + 1]] + [data[pos + 2], data[pos + 3]];
    assert Be16(order) + Be16(preference) + (CharBytes(f) + CharBytes(s) + CharBytes(x)) + Wire(labels)
        == NaptrWire(order, preference, f, s, x, labels);
  }

  // ---- records without names ----

  lemma TokenWord(b: seq<byte>) returns (tok: string)
    ensures Word(TokenText(b), tok) && Unescape(tok) == Some(b)
  {
    if Bare(b) {
      tok := Text(b);
      TextRaw(tok, b);
      WordPiece(tok);
      UnescapePlain(tok);
    } else {
      tok := Escaped(b, false);
      QuotedWord(b);
      UnescapeEscaped(b, false);
    }
  }

  /** CAA records come back byte for byte. */
  lemma CaaRoundTrip(ip: IpText, raw: seq<byte>)
    requires ParseCaa(raw).Some?
    ensures EncodeRData(ip, TYPE_CAA, AsDisplay(ip, ParseCaa(raw).value)) == Some(raw)
  {
    hide Word, Tokens, Trim, Line, Decimal, TokenU8, Space, Visible, Escaped, Quoted, Unescape, TokenText;
    var n := raw[1];
    var tag, value := raw[2..2 + n], raw[2 + n..];
    DecimalRoundTrip(raw[0]);
    DecimalWord(raw[0]);
    var tok := TokenWord(tag);
    QuotedWord(value);
    UnescapeEscaped(value, false);
    LineRead([Decimal(raw[0]), TokenText(tag), Quoted(value)], [Decimal(raw[0]), tok, Escaped(value, false)]);
    assert [raw[0], n] + tag + value == raw;
  }

  /** URI records come back byte for byte. */
  lemma UriRoundTrip(ip: IpText, raw: seq<byte>)
    requires ParseUri(raw).Some?
    ensures EncodeRData(ip, TYPE_URI, AsDisplay(ip, ParseUri(raw).value)) == Some(raw)
  {
    hide Word, Tokens, Trim, Line, Decimal, TokenU16, Space, Visible, Escaped, Quoted, Unescape, Num16, Be16;
    var p, w, t := Num16(raw[0], raw[1]), Num16(raw[2], raw[3]), raw[4..];
    DecimalRoundTrip(p);
    DecimalRoundTrip(w);
    DecimalWord(p);
    QuotedWord(t);
    UnescapeEscaped(t, false);
    var toks := [Decimal(p), Decimal(w), Escaped(t, false)];
    LineRead([Decimal(p), Decimal(w), Quoted(t)], toks);
    assert toks[2..] == [Escaped(t, false)];
    OneWord(Escaped(t, false));
    Be16RoundTrip(0, raw[0], raw[1]);
    Be16RoundTrip(0, raw[2], raw[3]);
    assert [raw[0], raw[1]] + [raw[2], raw[3]] + t == raw;
  }

  lemma OneWord(w: string)
    ensures Line([w]) == w && Glued([w]) == w
  {
    assert [w][1..] == [];
    assert w + "" == w;
  }

  // ---- fixed fields and one tail ----

  /** Numbers, then a tail: the tokens are the numbers and the tail, or the numbers
      alone when the tail is empty and the line ends in a blank. */
  lemma NumbersAndTail(nums: seq<string>, tail: string)
    requires nums != [] && forall i :: 0 <= i < |nums| ==> Number(nums[i])
    requires tail == "" || (Word(tail, tail) && Ends(tail))
    ensures Tokens(Trim(Line(nums + [tail]))) == Some(if tail == "" then nums else nums + [tail])
  {
    hide Word, Tokens, Trim, Line, Space, Visible;
    assert Number(nums[0]) && Number(nums[|nums| - 1]);
    if tail == "" {
      LineRead(nums, nums);
      LineTight(nums);
      TrimTail(nums);
    } else {
      LineRead(nums + [tail], nums + [tail]);
    }
  }

  ghost predicate Number(s: string) {
    s != "" && Word(s, s) && Visible(s[0]) && !Space(s[0]) && !Space(s[|s| - 1])
  }

  lemma NumberWord(n: nat)
    ensures Number(Decimal(n))
  {
    DecimalWord(n);
  }

  lemma {:induction false} LineBlank(words: seq<string>)
    requires words != []
    ensures Line(words + [""]) == Line(words) + [SPACE]
  {
    if |words| > 1 {
      LineBlank(words[1..]);
      assert (words + [""])[1..] == words[1..] + [""];
    } else {
      assert (words + [""])[1..] == [""];
      assert words[0] + [SPACE] + "" == words[0] + [SPACE];
    }
  }

  lemma TrimTail(words: seq<string>)
    requires words != [] && Tight(Line(words))
    ensures Trim(Line(words + [""])) == Trim(Line(words)) == Line(words)
  {
    LineBlank(words);
    var s := Line(words);
    var t := s + [SPACE];
    assert t[..|t| - 1] == s;
    TrimTight(s);
  }

  lemma {:induction false} HexEnds(b: seq<byte>)
    ensures b != [] ==> Ends(Hex(b)) && Word(Hex(b), Hex(b))
    ensures b == [] ==> Hex(b) == ""
  {
    if b != [] {
      HexRoundTrip(b);
      WordPiece(Hex(b));
      HexLast(b);
    }
  }

  lemma {:induction false} HexLast(b: seq<byte>)
    requires b != []
    ensures Hex(b) != "" && !Space(Hex(b)[|Hex(b)| - 1])
  {
    if |b| > 1 {
      HexLast(b[1..]);
    } else {
      assert Hex(b[1..]) == "";
    }
  }

  lemma Base64Tail(b: seq<byte>)
    ensures b != [] ==> Ends(Base64(b)) && Word(Base64(b), Base64(b))
    ensures b == [] ==> Base64(b) == ""
  {
    Base64Ends(b);
    Base64Wordy(b);
    WordPiece(Base64(b));
  }

  lemma DsTokens(raw: seq<byte>)
    requires |raw| >= 4
    ensures var nums := [Decimal(Num16(raw[0], raw[1])), Decimal(raw[2]), Decimal(raw[3])];
            && EncodeDs(nums) == None
            && EncodeDs(nums + [Hex(raw[4..])]) == Some(raw)
  {
    hide Decimal, TokenU16, TokenU8, Hex, Unhex, Num16, Be16, Word, Wordy;
    var k, d := Num16(raw[0], raw[1]), raw[4..];
    HexRoundTrip(d);
    DecimalRoundTrip(k);
    DecimalRoundTrip(raw[2]);
    DecimalRoundTrip(raw[3]);
    OneWord(Hex(d));
    Be16RoundTrip(0, raw[0], raw[1]);
    assert [Decimal(k), Decimal(raw[2]), Decimal(raw[3]), Hex(d)][3..] == [Hex(d)];
    assert [raw[0], raw[1]] + [raw[2], raw[3]] + d == raw;
  }

  /** DS and CDS records come back byte for byte exactly when the digest is not empty;
      otherwise their text is refused. */
  lemma DsRoundTripIff(ip: IpText, rtype: u16, raw: seq<byte>)
    requires (rtype == TYPE_DS || rtype == TYPE_CDS) && ParseDs(raw).Some?
    ensures EncodeRData(ip, rtype, AsDisplay(ip, ParseDs(raw).value)) == if |raw| > 4 then Some(raw) else None
  {
    hide Number, Word, Tokens, Trim, Line, Decimal, Space, Hex, Num16, EncodeDs, Ends;
    var nums := [Decimal(Num16(raw[0], raw[1])), Decimal(raw[2]), Decimal(raw[3])];
    HexEnds(raw[4..]);
    NumberWord(Num16(raw[0], raw[1]));
    NumberWord(raw[2]);
    NumberWord(raw[3]);
    NumbersAndTail(nums, Hex(raw[4..]));
    DsTokens(raw);
    assert nums + [Hex(raw[4..])] == [nums[0], nums[1], nums[2], Hex(raw[4..])];
  }

  lemma SshfpTokens(raw: seq<byte>)
    requires |raw| >= 2
    ensures var nums := [Decimal(raw[0]), Decimal(raw[1])];
            && EncodeSshfp(nums) == None
            && EncodeSshfp(nums + [Hex(raw[2..])]) == Some(raw)
  {
    hide Decimal, TokenU8, Hex, Unhex, Word, Wordy;
    var d := raw[2..];
    HexRoundTrip(d);
    DecimalRoundTrip(raw[0]);
    DecimalRoundTrip(raw[1]);
    OneWord(Hex(d));
    assert [Decimal(raw[0]), Decimal(raw[1]), Hex(d)][2..] == [Hex(d)];
    assert [raw[0], raw[1]] + d == raw;
  }

  lemma SshfpRoundTripIff(ip: IpText, raw: seq<byte>)
    requires ParseSshfp(raw).Some?
    ensures EncodeRData(ip, TYPE_SSHFP, AsDisplay(ip, ParseSshfp(raw).value)) == if |raw| > 2 then Some(raw) else None
  {
    hide Number, Word, Tokens, Trim, Line, Decimal, Space, Hex, EncodeSshfp, Ends;
    var nums := [Decimal(raw[0]), Decimal(raw[1])];
    HexEnds(raw[2..]);
    NumberWord(raw[0]);
    NumberWord(raw[1]);
    NumbersAndTail(nums, Hex(raw[2..]));
    SshfpTokens(raw);
    assert nums + [Hex(raw[2..])] == [nums[0], nums[1], Hex(raw[2..])];
  }

  lemma DnskeyTokens(raw: seq<byte>)
    requires |raw| >= 4
    ensures var nums := [Decimal(Num16(raw[0], raw[1])), Decimal(raw[2]), Decimal(raw[3])];
            && EncodeDnskey(nums) == None
            && EncodeDnskey(nums + [Base64(raw[4..])]) == Some(raw)
  {
    hide Decimal, TokenU16, TokenU8, Base64, Unbase64, Num16, Be16, Word, Wordy;
    var k, d := Num16(raw[0], raw[1]), raw[4..];
    Base64RoundTrip(d);
    DecimalRoundTrip(k);
    DecimalRoundTrip(raw[2]);
    DecimalRoundTrip(raw[3]);
    OneWord(Base64(d));
    Be16RoundTrip(0, raw[0], raw[1]);
    assert [Decimal(k), Decimal(raw[2]), Decimal(raw[3]), Base64(d)][3..] == [Base64(d)];
    assert [raw[0], raw[1]] + [raw[2], raw[3]] + d == raw;
  }

  lemma DnskeyRoundTripIff(ip: IpText, rtype: u16, raw: seq<byte>)
    requires (rtype == TYPE_DNSKEY || rtype == TYPE_CDNSKEY) && ParseDnskey(raw).Some?
    ensures EncodeRData(ip, rtype, AsDisplay(ip, ParseDnskey(raw).value)) == if |raw| > 4 then Some(raw) else None
  {
    hide Number, Word, Tokens, Trim, Line, Decimal, Space, Base64, Num16, EncodeDnskey, Ends;
    var nums := [Decimal(Num16(raw[0], raw[1])), Decimal(raw[2]), Decimal(raw[3])];
    Base64Tail(raw[4..]);
    NumberWord(Num16(raw[0], raw[1]));
    NumberWord(raw[2]);
    NumberWord(raw[3]);
    NumbersAndTail(nums, Base64(raw[4..]));
    DnskeyTokens(raw);
    assert nums + [Base64(raw[4..])] == [nums[0], nums[1], nums[2], Base64(raw[4..])];
  }

  lemma TlsaTokens(raw: seq<byte>)
    requires |raw| >= 3
    ensures var nums := [Decimal(raw[0]), Decimal(raw[1]), Decimal(raw[2])];
            && EncodeTlsa(nums) == None
            && EncodeTlsa(nums + [Hex(raw[3..])]) == Some(raw)
  {
    hide Decimal, TokenU8, Hex, Unhex, Word, Wordy;
    var d := raw[3..];
    HexRoundTrip(d);
    DecimalRoundTrip(raw[0]);
    DecimalRoundTrip(raw[1]);
    DecimalRoundTrip(raw[2]);
    OneWord(Hex(d));
    assert [Decimal(raw[0]), Decimal(raw[1]), Decimal(raw[2]), Hex(d)][3..] == [Hex(d)];
    assert [raw[0], raw[1], raw[2]] + d == raw;
  }

  lemma TlsaRoundTripIff(ip: IpText, raw: seq<byte>)
    requires ParseTlsa(raw).Some?
    ensures EncodeRData(ip, TYPE_TLSA, AsDisplay(ip, ParseTlsa(raw).value)) == if |raw| > 3 then Some(raw) else None
  {
    hide Number, Word, Tokens, Trim, Line, Decimal, Space, Hex, EncodeTlsa, Ends;
    var nums := [Decimal(raw[0]), Decimal(raw[1]), Decimal(raw[2])];
    HexEnds(raw[3..]);
    NumberWord(raw[0]);
    NumberWord(raw[1]);
    NumberWord(raw[2]);
    NumbersAndTail(nums, Hex(raw[3..]));
    TlsaTokens(raw);
    assert nums + [Hex(raw[3..])] == [nums[0], nums[1], nums[2], Hex(raw[3..])];
  }
}
