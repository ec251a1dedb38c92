/** Service parameters (RFC 9460): how each is printed, and how it is read back. */
module SvcParams {
  import opened Wrappers
  import opened Bytes
  import opened Unicode
  import opened Lexing
  import opened Names

  const EQUALS: char := '='

  /** Printing and reading IP addresses, as the standard library does it. */
  datatype IpText = IpText(show4: seq<byte> -> string, parse4: string -> Option<seq<byte>>,
                           show6: seq<byte> -> string, parse6: string -> Option<seq<byte>>)

  predicate AddressText(s: string) {
    s != "" && Names.Without(s, COMMA) && forall i :: 0 <= i < |s| ==>
        33 <= s[i] as int <= 126 && s[i] != QUOTE && s[i] != SLASH
  }

  /** Addresses print as plain words that read back. */
  ghost predicate Faithful(ip: IpText) {
    && (forall b: seq<byte> :: |b| == 4 ==> ip.parse4(ip.show4(b)) == Some(b) && AddressText(ip.show4(b)))
    && (forall b: seq<byte> :: |b| == 16 ==> ip.parse6(ip.show6(b)) == Some(b) && AddressText(ip.show6(b)))
  }

  // ---- parameter keys ----

  function LowerChar(c: char): char {
    if 'A' <= c <= 'Z' then (c as int + 32) as char else c
  }

  function Lower(s: string): (r: string)
    ensures |r| == |s| && forall i :: 0 <= i < |s| ==> r[i] == LowerChar(s[i])
  {
    seq(|s|, i requires 0 <= i < |s| => LowerChar(s[i]))
  }

  function KeyName(key: u16): Option<string> {
    if key == 0 then Some("mandatory")
    else if key == 1 then Some("alpn")
    else if key == 2 then Some("no-default-alpn")
    else if key == 3 then Some("port")
    else if key == 4 then Some("ipv4hint")
    else if key == 5 then Some("ech")
    else if key == 6 then Some("ipv6hint")
    else if key == 7 then Some("dohpath")
    else if key == 8 then Some("ohttp")
    else None
  }

  const KEY := "key"

  predicate Numbered(lower: string) {
    |lower| > 3 && lower[..3] == KEY && Digits(lower[3..])
  }

  function NameKey(lower: string): Option<u16> {
    if lower == "mandatory" then Some(0)
    else if lower == "alpn" then Some(1)
    else if lower == "no-default-alpn" then Some(2)
    else if lower == "port" then Some(3)
    else if lower == "ipv4hint" then Some(4)
    else if lower == "ech" then Some(5)
    else if lower == "ipv6hint" then Some(6)
    else if lower == "dohpath" then Some(7)
    else if lower == "ohttp" then Some(8)
    else None
  }

  function KeyCode(name: string): Option<u16> {
    var lower := Lower(name);
    if NameKey(lower).Some? then NameKey(lower)
    else if Numbered(lower) then TokenU16(lower[3..])
    else None
  }

  function KeyText(key: u16): string {
    match KeyName(key)
    case Some(n) => n
    case None => KEY + Decimal(key)
  }

  lemma LowerSame(s: string)
    requires forall i :: 0 <= i < |s| ==> !('A' <= s[i] <= 'Z')
    ensures Lower(s) == s
  {
  }

  /** A name that can stand before an equals sign or between commas. */
  predicate NameLike(s: string) {
    s != "" && Wordy(s) && Ascii(s) && Names.Without(s, EQUALS) && Names.Without(s, COMMA)
  }

  lemma NameBack(key: u16)
    requires key <= 8
    ensures NameKey(KeyName(key).value) == Some(key)
  {
  }

  lemma NameShape(key: u16)
    requires key <= 8
    ensures KeyName(key).Some?
    ensures var n := KeyName(key).value;
            && n != "" && n[0] != 'k'
            && forall i :: 0 <= i < |n| ==> (n[i] == '-' || 'a' <= n[i] <= 'z' || n[i] == '4' || n[i] == '6')
  {
  }

  /** Registered names are read as their keys. */
  lemma NamedKey(key: u16)
    requires key <= 8
    ensures var n := KeyName(key).value;
            KeyCode(n) == Some(key) && !Numbered(Lower(n)) && NameLike(n)
  {
    hide KeyName, NameKey;
    NameShape(key);
    NameBack(key);
    LowerSame(KeyName(key).value);
    assert KEY[0] == 'k';
  }

  lemma NotNamed(s: string)
    requires s != "" && s[0] == 'k'
    ensures NameKey(s) == None
  {
  }

  /** `keyNNN` is read as its number. */
  lemma NumberedKey(key: u16)
    ensures var n := KEY + Decimal(key);
            KeyCode(n) == Some(key) && Numbered(Lower(n)) && NameLike(n)
  {
    hide NameKey, Decimal, TokenU16;
    var n := KEY + Decimal(key);
    assert n[0] == 'k' && n[1] == 'e' && n[2] == 'y';
    LowerSame(n);
    assert n[3..] == Decimal(key) && n[..3] == KEY;
    NotNamed(n);
    DecimalRoundTrip(key);
  }

  lemma KeyCodeText(key: u16)
    ensures KeyCode(KeyText(key)) == Some(key) && NameLike(KeyText(key))
  {
    hide KeyCode, NameLike, Numbered;
    if key <= 8 {
      NamedKey(key);
    } else {
      NumberedKey(key);
    }
  }

  // ---- the forms a value can take ----

  /** A bare name, a name with a plain text, or a name with quoted bytes. */
  datatype Shown = Flag(name: string) | Plain(name: string, text: string) | InQuotes(name: string, bytes: seq<byte>)

  function Written(s: Shown): string {
    match s
    case Flag(n) => n
    case Plain(n, t) => n + [EQUALS] + t
    case InQuotes(n, b) => n + [EQUALS] + Quoted(b)
  }

  /** The token that the tokeniser makes of it. */
  function TokenOf(s: Shown): string {
    match s
    case Flag(n) => n
    case Plain(n, t) => n + [EQUALS] + t
    case InQuotes(n, b) => n + [EQUALS] + Escaped(b, false)
  }

  function RawForm(key: u16, value: seq<byte>): Shown {
    InQuotes(KEY + Decimal(key), value)
  }

  function MandatoryTexts(value: seq<byte>): seq<string>
    requires |value| % 2 == 0
  {
    if value == [] then [] else [KeyText(Num16(value[0], value[1]))] + MandatoryTexts(value[2..])
  }

  function MandatoryText(value: seq<byte>): Option<string> {
    if value == [] || |value| % 2 == 1 then None else Some(Join(MandatoryTexts(value), COMMA))
  }

  /** Length-prefixed items, none of them empty. */
  function Items(value: seq<byte>): Option<seq<seq<byte>>> {
    if value == [] then Some([])
    else
      var n := value[0];
      if n == 0 || 1 + n > |value| then None
      else
        match Items(value[1 + n..])
        case None => None
        case Some(more) => Some([value[1..1 + n]] + more)
  }

  function ItemTexts(items: seq<seq<byte>>): (r: seq<string>)
    ensures |r| == |items| && forall i :: 0 <= i < |r| ==> r[i] == Escaped(items[i], true)
  {
    seq(|items|, i requires 0 <= i < |items| => Escaped(items[i], true))
  }

  function AlpnText(value: seq<byte>): Option<string> {
    if value == [] then None
    else
      match Items(value)
      case None => None
      case Some(items) => Some(Join(ItemTexts(items), COMMA))
  }

  function HintTexts(ip: IpText, value: seq<byte>, width: nat): seq<string>
    requires width == 4 || width == 16
    requires |value| % width == 0
  {
    if value == [] then []
    else [if width == 4 then ip.show4(value[..4]) else ip.show6(value[..16])] + HintTexts(ip, value[width..], width)
  }

  function HintText(ip: IpText, value: seq<byte>, width: nat): Option<string>
    requires width == 4 || width == 16
  {
    if value == [] || |value| % width != 0 then None else Some(Join(HintTexts(ip, value, width), COMMA))
  }

  /** How a parameter is printed: by name when the value has the form that the key
      calls for, else by number with the raw bytes. */
  function Show(ip: IpText, key: u16, value: seq<byte>): Shown {
    if key == 0 && MandatoryText(value).Some? then Plain("mandatory", MandatoryText(value).value)
    else if key == 1 && AlpnText(value).Some? then Plain("alpn", AlpnText(value).value)
    else if key == 2 && value == [] then Flag("no-default-alpn")
    else if key == 3 && |value| == 2 then Plain("port", Decimal(Num16(value[0], value[1])))
    else if key == 4 && HintText(ip, value, 4).Some? then Plain("ipv4hint", HintText(ip, value, 4).value)
    else if key == 5 then Plain("ech", Base64(value))
    else if key == 6 && HintText(ip, value, 16).Some? then Plain("ipv6hint", HintText(ip, value, 16).value)
    else if key == 7 then InQuotes("dohpath", value)
    else if key == 8 && value == [] then Flag("ohttp")
    else RawForm(key, value)
  }

  function Display(ip: IpText, key: u16, value: seq<byte>): string {
    Written(Show(ip, key, value))
  }

  // ---- reading ----

  /** The text before and after the first `c`, if there is one. */
  function SplitOnce(s: string, c: char): Option<(string, string)> {
    if s == "" then None
    else if s[0] == c then Some(("", s[1..]))
    else
      match SplitOnce(s[1..], c)
      case None => None
      case Some((a, b)) => Some(([s[0]] + a, b))
  }

  /** Bytes as text, when they are well-formed UTF-8. */
  function FromUtf8(b: seq<byte>): Option<string> {
    if Lossless(b) then Some(Lossy(b)) else None
  }

  function ParseMandatoryParts(parts: seq<string>): Option<seq<byte>> {
    if parts == [] then Some([])
    else
      match KeyCode(parts[0])
      case None => None
      case Some(k) => Appended(Be16(k), ParseMandatoryParts(parts[1..]))
  }

  function ParseMandatory(text: string): Option<seq<byte>> {
    if text == "" then None else ParseMandatoryParts(Split(text, COMMA))
  }

  function ParseItems(parts: seq<string>): Option<seq<byte>> {
    if parts == [] then Some([])
    else
      match Unescape(parts[0])
      case None => None
      case Some(b) => if b == [] || |b| > 255 then None else Appended([|b|] + b, ParseItems(parts[1..]))
  }

  function ParseAlpn(text: string): Option<seq<byte>> {
    if text == "" then None else ParseItems(Split(text, COMMA))
  }

  function ParseAddress(ip: IpText, text: string, width: nat): Option<seq<byte>> {
    if width == 4 then ip.parse4(text) else ip.parse6(text)
  }

  function ParseHintParts(ip: IpText, parts: seq<string>, width: nat): Option<seq<byte>> {
    if parts == [] then Some([])
    else
      match Unescape(parts[0])
      case None => None
      case Some(b) =>
        match FromUtf8(b)
        case None => None
        case Some(text) =>
          match ParseAddress(ip, text, width)
          case None => None
          case Some(a) => Appended(a, ParseHintParts(ip, parts[1..], width))
  }

  function ParseHints(ip: IpText, text: string, width: nat): Option<seq<byte>> {
    if text == "" then None else ParseHintParts(ip, Split(text, COMMA), width)
  }

  /** The value of a parameter given by name. */
  function ParseNamed(ip: IpText, key: u16, text: string): Option<seq<byte>> {
    if key == 0 then ParseMandatory(text)
    else if key == 1 then ParseAlpn(text)
    else if key == 2 || key == 8 then (if text == "" then Some([]) else None)
    else if key == 3 then
      match TokenU16(text)
      case None => None
      case Some(n) => Some(Be16(n))
    else if key == 4 then ParseHints(ip, text, 4)
    else if key == 5 then Unbase64(text)
    else if key == 6 then ParseHints(ip, text, 16)
    else Unescape(text)
  }

  datatype Param = Param(key: u16, value: seq<byte>)

  function Parse(ip: IpText, tok: string): Option<Param> {
    var (name, text) := match SplitOnce(tok, EQUALS) case Some(p) => p case None => (tok, "");
    match KeyCode(name)
    case None => None
    case Some(key) =>
      match if Numbered(Lower(name)) then Unescape(text) else ParseNamed(ip, key, text)
      case None => None
      case Some(v) => Some(Param(key, v))
  }

  // ---- the loops ----

  method MandatoryList(value: seq<byte>) returns (r: Option<string>)
    ensures r == MandatoryText(value)
  {
    hide KeyText, MandatoryText, MandatoryTexts, Join, Num16, KeyCode, NameLike;
    MandatoryIs(value);
    JoinNothing();
    if value == [] || |value| % 2 == 1 {
      return None;
    }
    var out, i := "", 0;
    ghost var done: seq<string> := [];
    assert value[0..] == value;
    while i < |value|
      invariant 0 <= i <= |value| && i % 2 == 0
      invariant MandatoryTexts(value) == done + MandatoryTexts(value[i..])
      invariant out == Join(done, COMMA) && (out == "" <==> done == []) && (i > 0 ==> done != [])
    {
      var key := Num16(value[i], value[i + 1]);
      MandatoryStep(value, i);
      KeyTextSome(key);
      JoinLast(done, KeyText(key));
      if out != "" {
        out := out + [COMMA];
      }
      out := out + KeyText(key);
      done := done + [KeyText(key)];
      i := i + 2;
    }
    assert value[i..] == [] && done + [] == done;
    r := Some(out);
  }

  lemma KeyTextSome(key: u16)
    ensures KeyText(key) != ""
  {
    KeyCodeText(key);
  }

  lemma MandatoryIs(value: seq<byte>)
    ensures MandatoryText(value) == if value == [] || |value| % 2 == 1 then None
            else Some(Join(MandatoryTexts(value), COMMA))
    ensures MandatoryTexts([]) == []
  {
  }

  lemma MandatoryStep(value: seq<byte>, i: nat)
    requires i + 2 <= |value| && |value| % 2 == 0 && i % 2 == 0
    ensures MandatoryTexts(value[i..]) == [KeyText(Num16(value[i], value[i + 1]))] + MandatoryTexts(value[i + 2..])
  {
    assert value[i..][2..] == value[i + 2..];
  }

  lemma {:induction false} JoinLast(parts: seq<string>, p: string)
    ensures Join(parts + [p], COMMA) == if parts == [] then p else Join(parts, COMMA) + [COMMA] + p
  {
    if |parts| > 1 {
      JoinLast(parts[1..], p);
      assert (parts + [p])[1..] == parts[1..] + [p];
    } else if |parts| == 1 {
      assert (parts + [p])[1..] == [p];
    }
  }

  /** The items found so far, and those still to come. */
  function Gained(done: seq<seq<byte>>, more: Option<seq<seq<byte>>>): Option<seq<seq<byte>>> {
    match more
    case None => None
    case Some(m) => Some(done + m)
  }

  method AlpnList(value: seq<byte>) returns (r: Option<string>)
    ensures r == AlpnText(value)
  {
    hide AlpnText, Join, Escaped, Items, Gained, ItemTexts;
    AlpnIs(value);
    if value == [] {
      return None;
    }
    var out, p, first := "", 0, true;
    ghost var done: seq<seq<byte>> := [];
    ItemsStart(value);
    while p < |value|
      invariant 0 <= p <= |value| && (first <==> done == [])
      invariant Items(value) == Gained(done, Items(value[p..]))
      invariant out == Join(ItemTexts(done), COMMA)
    {
      var n := value[p];
      ItemsStep(value, p, done);
      p := p + 1;
      if n == 0 || p + n > |value| {
        return None;
      }
      var item := value[p..p + n];
      JoinLast(ItemTexts(done), Escaped(item, true));
      ItemTextsLast(done, item);
      if !first {
        out := out + [COMMA];
      }
      first := false;
      out := PushEscaped(out, item, true);
      done := done + [item];
      p := p + n;
    }
    assert value[p..] == [];
    GainedAll(done);
    r := Some(out);
  }

  lemma GainedAll(done: seq<seq<byte>>)
    ensures Gained(done, Items([])) == Some(done)
  {
    assert done + [] == done;
  }

  lemma ItemTextsLast(done: seq<seq<byte>>, item: seq<byte>)
    ensures ItemTexts(done + [item]) == ItemTexts(done) + [Escaped(item, true)]
    ensures ItemTexts(done) == [] <==> done == []
  {
  }

  lemma AlpnIs(value: seq<byte>)
    ensures AlpnText(value) == if value == [] || Items(value).None? then None
            else Some(Join(ItemTexts(Items(value).value), COMMA))
  {
  }

  lemma ItemsStart(value: seq<byte>)
    ensures Items(value) == Gained([], Items(value[0..]))
    ensures Join(ItemTexts([]), COMMA) == ""
  {
    assert value[0..] == value;
    assert Items(value).Some? ==> [] + Items(value).value == Items(value).value;
  }

  lemma ItemsStep(value: seq<byte>, p: nat, done: seq<seq<byte>>)
    requires p < |value|
    ensures var n := value[p];
            Gained(done, Items(value[p..])) ==
            if n == 0 || p + 1 + n > |value| then None
            else Gained(done + [value[p + 1..p + 1 + n]], Items(value[p + 1 + n..]))
  {
    var n := value[p];
    if n != 0 && p + 1 + n <= |value| {
      assert value[p..][1 + n..] == value[p + 1 + n..] && value[p..][1..1 + n] == value[p + 1..p + 1 + n];
      var rest := Items(value[p + 1 + n..]);
      if rest.Some? {
        assert done + ([value[p + 1..p + 1 + n]] + rest.value) == done + [value[p + 1..p + 1 + n]] + rest.value;
      }
    }
  }

  method HintList(ip: IpText, value: seq<byte>, width: nat) returns (r: Option<string>)
    requires width == 4 || width == 16
    ensures r == HintText(ip, value, width)
  {
    hide HintText, Join, HintTexts;
    HintIs(ip, value, width);
    if value == [] || |value| % width != 0 {
      return None;
    }
    var out, i := "", 0;
    ghost var done: seq<string> := [];
    JoinNothing();
    assert value[0..] == value;
    while i < |value|
      invariant 0 <= i <= |value| && (|value| - i) % width == 0 && (i > 0 <==> done != [])
      invariant HintTexts(ip, value, width) == done + HintTexts(ip, value[i..], width)
      invariant out == Join(done, COMMA)
    {
      Multiples(|value| - i, width);
      HintStep(ip, value, i, width);
      if i > 0 {
        out := out + [COMMA];
      }
      var text := if width == 4 then ip.show4(value[i..i + 4]) else ip.show6(value[i..i + 16]);
      JoinLast(done, text);
      out := out + text;
      done := done + [text];
      i := i + width;
    }
    assert value[i..] == [] && done + [] == done;
    r := Some(out);
  }

  lemma JoinNothing()
    ensures Join([], COMMA) == ""
  {
  }

  lemma HintIs(ip: IpText, value: seq<byte>, width: nat)
    requires width == 4 || width == 16
    ensures HintText(ip, value, width) == if value == [] || |value| % width != 0 then None
            else Some(Join(HintTexts(ip, value, width), COMMA))
    ensures HintTexts(ip, [], width) == []
  {
  }

  lemma HintStep(ip: IpText, value: seq<byte>, i: nat, width: nat)
    requires (width == 4 || width == 16) && i < |value| && (|value| - i) % width == 0 && i + width <= |value|
    requires (|value| - i - width) % width == 0
    ensures HintTexts(ip, value[i..], width)
         == [if width == 4 then ip.show4(value[i..i + width]) else ip.show6(value[i..i + width])]
             + HintTexts(ip, value[i + width..], width)
  {
    assert value[i..][width..] == value[i + width..] && value[i..][..width] == value[i..i + width];
  }

  lemma Multiples(n: nat, width: nat)
    requires (width == 4 || width == 16) && n > 0 && n % width == 0
    ensures n >= width && (n - width) % width == 0
  {
  }

  method ParseMandatoryList(text: string) returns (r: Option<seq<byte>>)
    ensures r == ParseMandatory(text)
  {
    if text == "" {
      return None;
    }
    var parts := Split(text, COMMA);
    var out: seq<byte>, i := [], 0;
    assert parts[0..] == parts;
    AppendedEnds([], ParseMandatoryParts(parts));
    while i < |parts|
      invariant 0 <= i <= |parts|
      invariant ParseMandatoryParts(parts) == Appended(out, ParseMandatoryParts(parts[i..]))
    {
      hide KeyCode;
      assert parts[i..][1..] == parts[i + 1..];
      var key := KeyCode(parts[i]);
      if key.None? {
        return None;
      }
      AppendedTwice(out, Be16(key.value), ParseMandatoryParts(parts[i + 1..]));
      out := out + Be16(key.value);
      i := i + 1;
    }
    AppendedEnds(out, None);
    r := Some(out);
  }

  method ParseAlpnList(text: string) returns (r: Option<seq<byte>>)
    ensures r == ParseAlpn(text)
  {
    if text == "" {
      return None;
    }
    var parts := Split(text, COMMA);
    var out: seq<byte>, i := [], 0;
    assert parts[0..] == parts;
    AppendedEnds([], ParseItems(parts));
    while i < |parts|
      invariant 0 <= i <= |parts|
      invariant ParseItems(parts) == Appended(out, ParseItems(parts[i..]))
    {
      assert parts[i..][1..] == parts[i + 1..];
      var b := UnescapeText(parts[i]);
      if b.None? || b.value == [] || |b.value| > 255 {
        return None;
      }
      AppendedTwice(out, [|b.value|] + b.value, ParseItems(parts[i + 1..]));
      out := out + ([|b.value|] + b.value);
      i := i + 1;
    }
    AppendedEnds(out, None);
    r := Some(out);
  }

  method ParseHintList(ip: IpText, text: string, width: nat) returns (r: Option<seq<byte>>)
    ensures r == ParseHints(ip, text, width)
  {
    if text == "" {
      return None;
    }
    var parts := Split(text, COMMA);
    var out: seq<byte>, i := [], 0;
    assert parts[0..] == parts;
    AppendedEnds([], ParseHintParts(ip, parts, width));
    while i < |parts|
      invariant 0 <= i <= |parts|
      invariant ParseHintParts(ip, parts, width) == Appended(out, ParseHintParts(ip, parts[i..], width))
    {
      assert parts[i..][1..] == parts[i + 1..];
      var b := UnescapeText(parts[i]);
      if b.None? {
        return None;
      }
      var address := FromUtf8(b.value);
      if address.None? {
        return None;
      }
      var a := ParseAddress(ip, address.value, width);
      if a.None? {
        return None;
      }
      AppendedTwice(out, a.value, ParseHintParts(ip, parts[i + 1..], width));
      out := out + a.value;
      i := i + 1;
    }
    AppendedEnds(out, None);
    r := Some(out);
  }

  // ---- every parameter survives printing and reading ----

  lemma {:induction false} OnceSplit(a: string, c: char, b: string)
    requires Names.Without(a, c)
    ensures SplitOnce(a + [c] + b, c) == Some((a, b))
  {
    var s := a + [c] + b;
    if a == "" {
      assert s[1..] == b;
    } else {
      OnceSplit(a[1..], c, b);
      assert s[1..] == a[1..] + [c] + b;
      assert [a[0]] + a[1..] == a;
    }
  }

  lemma {:induction false} NeverSplit(a: string, c: char)
    requires Names.Without(a, c)
    ensures SplitOnce(a, c) == None
  {
    if a != "" {
      NeverSplit(a[1..], c);
    }
  }

  lemma {:induction false} MandatoryBack(value: seq<byte>)
    requires |value| % 2 == 0
    ensures ParseMandatoryParts(MandatoryTexts(value)) == Some(value)
    ensures forall i :: 0 <= i < |MandatoryTexts(value)| ==> NameLike(MandatoryTexts(value)[i])
    ensures value != [] ==> MandatoryTexts(value) != []
  {
    if value != [] {
      hide KeyCode, KeyText, NameLike;
      var key := Num16(value[0], value[1]);
      MandatoryBack(value[2..]);
      KeyCodeText(key);
      Be16RoundTrip(key, value[0], value[1]);
      assert [value[0], value[1]] + value[2..] == value;
    }
  }

  lemma MandatoryRoundTrip(value: seq<byte>)
    requires MandatoryText(value).Some?
    ensures var t := MandatoryText(value).value;
            ParseMandatory(t) == Some(value) && Wordy(t)
  {
    MandatoryBack(value);
    var texts := MandatoryTexts(value);
    SplitJoin(texts, COMMA);
    JoinWordy(texts);
  }

  lemma {:induction false} JoinWordy(parts: seq<string>)
    requires parts != [] && forall i :: 0 <= i < |parts| ==> parts[i] != "" && Wordy(parts[i])
    ensures Wordy(Join(parts, COMMA)) && Join(parts, COMMA) != ""
  {
    if |parts| > 1 {
      JoinWordy(parts[1..]);
    }
  }

  lemma {:induction false} EscapedShape(b: seq<byte>)
    ensures Names.Without(Escaped(b, true), COMMA) && (b != [] ==> Escaped(b, true) != "")
  {
    if b != [] {
      EscapedShape(b[1..]);
    }
  }

  lemma {:induction false} ItemsBack(value: seq<byte>)
    requires Items(value).Some?
    ensures ParseItems(ItemTexts(Items(value).value)) == Some(value)
    ensures forall i :: 0 <= i < |Items(value).value| ==> Items(value).value[i] != []
    ensures value != [] ==> Items(value).value != []
  {
    hide Unescape, Escaped, Items, ParseItems;
    ItemsUnfold(value);
    if value != [] {
      var n := value[0];
      var items, b, more := Items(value).value, value[1..1 + n], Items(value[1 + n..]).value;
      ItemsBack(value[1 + n..]);
      UnescapeEscaped(b, true);
      assert ItemTexts(items) == [Escaped(b, true)] + ItemTexts(more);
      ParseItemsCons(Escaped(b, true), ItemTexts(more));
      assert [n] + b + value[1 + n..] == value;
    }
  }

  lemma ItemsUnfold(value: seq<byte>)
    requires Items(value).Some?
    ensures value == [] ==> Items(value) == Some([]) && ParseItems([]) == Some([])
    ensures value != [] ==> 0 < value[0] < |value| && Items(value[1 + value[0]..]).Some?
    ensures value != [] ==> Items(value).value == [value[1..1 + value[0]]] + Items(value[1 + value[0]..]).value
  {
  }

  lemma ParseItemsCons(first: string, more: seq<string>)
    requires Unescape(first).Some? && 0 < |Unescape(first).value| <= 255
    ensures ParseItems([first] + more) == Appended([|Unescape(first).value|] + Unescape(first).value, ParseItems(more))
  {
    assert ([first] + more)[1..] == more;
  }

  lemma AlpnRoundTrip(value: seq<byte>)
    requires AlpnText(value).Some?
    ensures ParseAlpn(AlpnText(value).value) == Some(value)
    ensures Piece(AlpnText(value).value, AlpnText(value).value)
  {
    hide Escaped, Piece;
    ItemsBack(value);
    var items := Items(value).value;
    var texts := ItemTexts(items);
    forall i | 0 <= i < |texts|
      ensures Names.Without(texts[i], COMMA) && texts[i] != "" && Piece(texts[i], texts[i])
    {
      EscapedShape(items[i]);
      ListPiece(items[i]);
    }
    SplitJoin(texts, COMMA);
    JoinPieces(texts);
  }

  lemma {:induction false} JoinPieces(parts: seq<string>)
    requires parts != [] && forall i :: 0 <= i < |parts| ==> parts[i] != "" && Piece(parts[i], parts[i])
    ensures Piece(Join(parts, COMMA), Join(parts, COMMA)) && Join(parts, COMMA) != ""
  {
    hide Piece;
    if |parts| > 1 {
      JoinPieces(parts[1..]);
      WordPiece([COMMA]);
      PieceConcat(parts[0], parts[0], [COMMA], [COMMA]);
      PieceConcat(parts[0] + [COMMA], parts[0] + [COMMA], Join(parts[1..], COMMA), Join(parts[1..], COMMA));
    }
  }

  lemma {:induction false} HintsBack(ip: IpText, value: seq<byte>, width: nat)
    requires Faithful(ip) && (width == 4 || width == 16) && |value| % width == 0
    ensures ParseHintParts(ip, HintTexts(ip, value, width), width) == Some(value)
    ensures forall i :: 0 <= i < |HintTexts(ip, value, width)| ==> AddressText(HintTexts(ip, value, width)[i])
    ensures value != [] ==> HintTexts(ip, value, width) != []
  {
    if value != [] {
      Multiples(|value|, width);
      var a := value[..width];
      var text := if width == 4 then ip.show4(value[..4]) else ip.show6(value[..16]);
      HintsBack(ip, value[width..], width);
      assert AddressText(text) && ParseAddress(ip, text, width) == Some(a);
      UnescapePlain(text);
      LossyRaw(text);
      AsciiIsUtf8(text);
      assert a + value[width..] == value;
      hide AddressText, Unescape;
      assert HintTexts(ip, value, width) == [text] + HintTexts(ip, value[width..], width);
    }
  }

  lemma HintRoundTrip(ip: IpText, value: seq<byte>, width: nat)
    requires Faithful(ip) && (width == 4 || width == 16) && HintText(ip, value, width).Some?
    ensures var t := HintText(ip, value, width).value;
            ParseHints(ip, t, width) == Some(value) && Wordy(t)
  {
    hide Faithful;
    HintsBack(ip, value, width);
    var texts := HintTexts(ip, value, width);
    SplitJoin(texts, COMMA);
    JoinWordy(texts);
  }

  /** The text part of a plain form is read as it is written, and gives the value. */
  lemma PlainValue(ip: IpText, key: u16, value: seq<byte>)
    requires Faithful(ip) && Show(ip, key, value).Plain?
    ensures var s := Show(ip, key, value);
            && key <= 8 && s.name == KeyName(key).value
            && Piece(s.text, s.text) && ParseNamed(ip, key, s.text) == Some(value)
  {
    hide Piece, Faithful, MandatoryText, AlpnText, HintText, Base64, Unbase64, ParseMandatory, ParseAlpn, ParseHints,
         Wordy, TokenU16, Decimal, Num16, Be16;
    if key == 0 {
      MandatoryRoundTrip(value);
      WordPiece(MandatoryText(value).value);
    } else if key == 1 {
      AlpnRoundTrip(value);
    } else if key == 3 {
      DecimalRoundTrip(Num16(value[0], value[1]));
      Be16RoundTrip(0, value[0], value[1]);
      assert value == [value[0], value[1]];
      WordPiece(Decimal(Num16(value[0], value[1])));
    } else if key == 5 {
      Base64RoundTrip(value);
      Base64Wordy(value);
      WordPiece(Base64(value));
    } else if key == 4 {
      HintRoundTrip(ip, value, 4);
      WordPiece(HintText(ip, value, 4).value);
    } else {
      HintRoundTrip(ip, value, 16);
      WordPiece(HintText(ip, value, 16).value);
    }
  }

  /** The name part is read as the key, and says whether the value is raw. */
  lemma NamePart(ip: IpText, key: u16, value: seq<byte>)
    ensures var n := Show(ip, key, value).name;
            && KeyCode(n) == Some(key) && NameLike(n)
            && (Numbered(Lower(n)) ==> Show(ip, key, value) == RawForm(key, value))
            && (Show(ip, key, value).Flag? ==> !Numbered(Lower(n)) && (key == 2 || key == 8) && value == [])
            && (Show(ip, key, value).Plain? ==> !Numbered(Lower(n)))
            && (Show(ip, key, value).InQuotes? ==>
                  Show(ip, key, value).bytes == value && (Numbered(Lower(n)) || key == 7))
  {
    hide KeyCode, NameLike, Numbered, MandatoryText, AlpnText, HintText, Base64;
    if key <= 8 {
      NamedKey(key);
    }
    NumberedKey(key);
  }

  lemma NameFirst(name: string, a: string, t: string)
    requires NameLike(name) && Piece(a, t)
    ensures Word(name + [EQUALS] + a, name + [EQUALS] + t)
    ensures Word(name, name)
  {
    WordPiece(name);
    WordPiece(name + [EQUALS]);
    hide Piece;
    PieceConcat(name + [EQUALS], name + [EQUALS], a, t);
  }

  /** Every parameter, whatever its key and its bytes: its printed form is one token,
      and reading that token gives the key and the bytes back. */
  lemma ParamRoundTrip(ip: IpText, key: u16, value: seq<byte>)
    requires Faithful(ip)
    ensures Word(Display(ip, key, value), TokenOf(Show(ip, key, value)))
    ensures Parse(ip, TokenOf(Show(ip, key, value))) == Some(Param(key, value))
  {
    hide Faithful, Word, Piece, Show, KeyCode, Numbered, ParseNamed, Escaped, Quoted, Unescape;
    var s := Show(ip, key, value);
    NamePart(ip, key, value);
    match s {
      case Flag(n) =>
        NothingPiece();
        NameFirst(n, "", "");
        NeverSplit(n, EQUALS);
        FlagValue(ip, key);
      case Plain(n, t) =>
        PlainValue(ip, key, value);
        NameFirst(n, t, t);
        OnceSplit(n, EQUALS, t);
      case InQuotes(n, b) =>
        QuotedPiece(b);
        NameFirst(n, Quoted(b), Escaped(b, false));
        OnceSplit(n, EQUALS, Escaped(b, false));
        UnescapeEscaped(b, false);
        QuotedValue(ip, Escaped(b, false));
    }
  }

  lemma NothingPiece()
    ensures Piece("", "")
  {
    WordPiece("");
  }

  lemma FlagValue(ip: IpText, key: u16)
    requires key == 2 || key == 8
    ensures ParseNamed(ip, key, "") == Some([])
  {
  }

  lemma QuotedValue(ip: IpText, text: string)
    ensures ParseNamed(ip, 7, text) == Unescape(text)
  {
  }
}
