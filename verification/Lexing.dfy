/** The text form of record data: quoting, tokens, escapes, numbers, base64 and hex. */
module Lexing {
  import opened Wrappers
  import opened Bytes
  import opened Unicode

  const QUOTE: char := '"'
  const SLASH: char := '\\'
  const COMMA: char := ','
  const SPACE: char := ' '

  predicate Digit(c: char) {
    '0' <= c <= '9'
  }

  predicate Graphic(b: byte) {
    33 <= b <= 126
  }

  /** ASCII white space as the tokeniser sees it. */
  predicate Blank(c: char) {
    c == ' ' || c as int == 9 || c as int == 10 || c as int == 12 || c as int == 13
  }

  // ---- escaping ----

  function DigitChar(n: nat): char
    requires n < 10
  {
    (48 + n) as char
  }

  /** One byte: as itself when harmless, else as a backslash and three digits. */
  function EscapedByte(b: byte, inList: bool): string {
    if Graphic(b) && b != 34 && b != 92 && !(inList && b == 44) then [b as char]
    else if b == 32 && !inList then [SPACE]
    else [SLASH, DigitChar(b / 100), DigitChar(b / 10 % 10), DigitChar(b % 10)]
  }

  /** In a list, commas and blanks are escaped too. */
  function Escaped(bytes: seq<byte>, inList: bool): string {
    if bytes == [] then "" else EscapedByte(bytes[0], inList) + Escaped(bytes[1..], inList)
  }

  function Quoted(bytes: seq<byte>): string {
    [QUOTE] + Escaped(bytes, false) + [QUOTE]
  }

  predicate Bare(bytes: seq<byte>) {
    bytes != [] && forall i :: 0 <= i < |bytes| ==> Graphic(bytes[i]) && bytes[i] != 34 && bytes[i] != 92
  }

  /** A field that is usually a plain word: quoted only when it must be. */
  function TokenText(bytes: seq<byte>): string {
    if Bare(bytes) then Text(bytes) else Quoted(bytes)
  }

  method PushEscaped(out: string, bytes: seq<byte>, inList: bool) returns (r: string)
    ensures r == out + Escaped(bytes, inList)
  {
    r := out;
    var i := 0;
    while i < |bytes|
      invariant 0 <= i <= |bytes|
      invariant r + Escaped(bytes[i..], inList) == out + Escaped(bytes, inList)
    {
      assert bytes[i..][1..] == bytes[i + 1..];
      r := r + EscapedByte(bytes[i], inList);
      i := i + 1;
    }
  }

  // ---- tokens ----

  datatype Scanned = Scanned(token: string, rest: string)

  function Prefixed(p: string, s: Option<Scanned>): Option<Scanned> {
    match s
    case None => None
    case Some(v) => Some(Scanned(p + v.token, v.rest))
  }

  predicate ThreeDigits(s: string) {
    |s| >= 3 && Digit(s[0]) && Digit(s[1]) && Digit(s[2])
  }

  /** Reads one token: quotes are dropped, escapes are kept as they stand. */
  function Scan(s: string, inQuote: bool): (r: Option<Scanned>)
    ensures r.Some? ==> |r.value.rest| <= |s|
    ensures r.Some? && s != "" && !Blank(s[0]) ==> |r.value.rest| < |s|
  {
    if s == "" then if inQuote then None else Some(Scanned("", ""))
    else if s[0] == SLASH then
      if |s| == 1 then None
      else if Digit(s[1]) then
        if ThreeDigits(s[1..]) then Prefixed(s[..4], Scan(s[4..], inQuote)) else None
      else Prefixed(s[..2], Scan(s[2..], inQuote))
    else if s[0] == QUOTE then Scan(s[1..], !inQuote)
    else if !inQuote && Blank(s[0]) then Some(Scanned("", s))
    else Prefixed(s[..1], Scan(s[1..], inQuote))
  }

  function SkipBlanks(s: string): (r: string)
    ensures |r| <= |s| && (r != "" ==> !Blank(r[0]))
  {
    if s != "" && Blank(s[0]) then SkipBlanks(s[1..]) else s
  }

  /** All tokens of a text, or none when a quote or an escape is left open. */
  function Tokens(s: string): Option<seq<string>>
    decreases |s|
  {
    var t := SkipBlanks(s);
    if t == "" then Some([])
    else
      match Scan(t, false)
      case None => None
      case Some(v) =>
        match Tokens(v.rest)
        case None => None
        case Some(more) => Some([v.token] + more)
  }

  /** The tokens still to come, after those in `out`. */
  function After(out: seq<string>, more: Option<seq<string>>): Option<seq<string>> {
    match more
    case None => None
    case Some(m) => Some(out + m)
  }

  lemma AfterToken(out: seq<string>, s: string)
    requires s != "" && !Blank(s[0])
    ensures After(out, Tokens(s)) == match Scan(s, false)
                                     case None => None
                                     case Some(v) => After(out + [v.token], Tokens(v.rest))
  {
    match Scan(s, false) {
      case None =>
      case Some(v) =>
        if Tokens(v.rest).Some? {
          assert out + ([v.token] + Tokens(v.rest).value) == out + [v.token] + Tokens(v.rest).value;
        }
    }
  }

  lemma AfterBlank(out: seq<string>, s: string)
    ensures After([], Tokens(s)) == Tokens(s)
    ensures After(out, Tokens("")) == Some(out)
    ensures s != "" && Blank(s[0]) ==> Tokens(s[1..]) == Tokens(s)
  {
    if Tokens(s).Some? {
      assert [] + Tokens(s).value == Tokens(s).value;
    }
    assert out + [] == out;
  }

  method SplitTokens(s: string) returns (r: Option<seq<string>>)
    ensures r == Tokens(s)
  {
    hide Tokens, Scan, After;
    var out: seq<string> := [];
    var i := 0;
    AfterBlank([], s);
    assert s[0..] == s;
    while i < |s|
      invariant 0 <= i <= |s|
      invariant Tokens(s) == After(out, Tokens(s[i..]))
    {
      i := SkipFrom(s, i);
      if i >= |s| {
        break;
      }
      AfterToken(out, s[i..]);
      var tok, j := ScanToken(s, i);
      if tok.None? {
        return None;
      }
      out := out + [tok.value];
      i := j;
    }
    assert s[i..] == "";
    AfterBlank(out, "");
    r := Some(out);
  }

  method SkipFrom(s: string, start: nat) returns (i: nat)
    requires start <= |s|
    ensures start <= i <= |s| && Tokens(s[i..]) == Tokens(s[start..])
    ensures i < |s| ==> !Blank(s[i])
  {
    hide Tokens;
    i := start;
    while i < |s| && Blank(s[i])
      invariant start <= i <= |s| && Tokens(s[i..]) == Tokens(s[start..])
    {
      AfterBlank([], s[i..]);
      assert s[i..][1..] == s[i + 1..];
      i := i + 1;
    }
  }

  /** The inner loop: one token, starting at a character that is not blank. */
  method ScanToken(s: string, start: nat) returns (tok: Option<string>, i: nat)
    requires start < |s| && !Blank(s[start])
    ensures start <= i <= |s|
    ensures match Scan(s[start..], false)
            case None => tok == None
            case Some(v) => tok == Some(v.token) && v.rest == s[i..] && i > start
  {
    hide Scan, Prefixed;
    var out: string, inQuote := "", false;
    i := start;
    PrefixedNothing(Scan(s[i..], false));
    while i < |s|
      invariant start <= i <= |s|
      invariant Scan(s[start..], false) == Prefixed(out, Scan(s[i..], inQuote))
    {
      ScanStep(s, i, inQuote, out);
      if s[i] == SLASH {
        i := i + 1;
        if i >= |s| {
          return None, i;
        }
        if Digit(s[i]) {
          if i + 3 > |s| || !Digit(s[i + 1]) || !Digit(s[i + 2]) {
            return None, i;
          }
          out := out + s[i - 1..i + 3];
          i := i + 3;
        } else {
          out := out + s[i - 1..i + 1];
          i := i + 1;
        }
      } else if s[i] == QUOTE {
        inQuote := !inQuote;
        i := i + 1;
      } else if !inQuote && Blank(s[i]) {
        return Some(out), i;
      } else {
        out := out + s[i..i + 1];
        i := i + 1;
      }
    }
    ScanEnd(s, i, inQuote, out);
    if inQuote {
      return None, i;
    }
    tok := Some(out);
  }

  lemma ScanEnd(s: string, i: nat, inQuote: bool, out: string)
    requires i == |s|
    ensures Prefixed(out, Scan(s[i..], inQuote)) == if inQuote then None else Some(Scanned(out, s[i..]))
  {
    assert s[i..] == "" && out + "" == out;
  }

  lemma PrefixedTwice(a: string, b: string, s: Option<Scanned>)
    ensures Prefixed(a, Prefixed(b, s)) == Prefixed(a + b, s)
  {
    if s.Some? {
      assert a + (b + s.value.token) == a + b + s.value.token;
    }
  }

  lemma ScanStep(s: string, i: nat, inQuote: bool, out: string)
    requires i < |s|
    ensures var r := Prefixed(out, Scan(s[i..], inQuote));
            if s[i] == SLASH then
              if i + 1 >= |s| then r == None
              else if Digit(s[i + 1]) then
                if i + 4 > |s| || !Digit(s[i + 2]) || !Digit(s[i + 3]) then r == None
                else r == Prefixed(out + s[i..i + 4], Scan(s[i + 4..], inQuote))
              else r == Prefixed(out + s[i..i + 2], Scan(s[i + 2..], inQuote))
            else if s[i] == QUOTE then r == Prefixed(out, Scan(s[i + 1..], !inQuote))
            else if !inQuote && Blank(s[i]) then r == Some(Scanned(out, s[i..]))
            else r == Prefixed(out + s[i..i + 1], Scan(s[i + 1..], inQuote))
  {
    assert out + "" == out;
    var t := s[i..];
    assert t[1..] == s[i + 1..];
    if s[i] == SLASH && i + 1 < |s| {
      if Digit(s[i + 1]) {
        if i + 4 <= |s| {
          assert t[..4] == s[i..i + 4] && t[4..] == s[i + 4..];
          PrefixedTwice(out, s[i..i + 4], Scan(s[i + 4..], inQuote));
        }
      } else {
        assert t[..2] == s[i..i + 2] && t[2..] == s[i + 2..];
        PrefixedTwice(out, s[i..i + 2], Scan(s[i + 2..], inQuote));
      }
    } else if s[i] != QUOTE && s[i] != SLASH {
      assert t[..1] == s[i..i + 1];
      PrefixedTwice(out, s[i..i + 1], Scan(s[i + 1..], inQuote));
    }
  }

  // ---- unescaping ----

  function DigitValue(c: char): nat
    requires Digit(c)
  {
    c as int - 48
  }

  function Appended(b: seq<byte>, r: Option<seq<byte>>): Option<seq<byte>> {
    match r
    case None => None
    case Some(v) => Some(b + v)
  }

  function Unescape(s: string): Option<seq<byte>> {
    if s == "" then Some([])
    else if s[0] != SLASH then Appended(Utf8(s[0]), Unescape(s[1..]))
    else if |s| == 1 then None
    else if Digit(s[1]) then
      if !ThreeDigits(s[1..]) then None
      else
        var v := DigitValue(s[1]) * 100 + DigitValue(s[2]) * 10 + DigitValue(s[3]);
        if v > 255 then None else Appended([v], Unescape(s[4..]))
    else Appended(Utf8(s[1]), Unescape(s[2..]))
  }

  method UnescapeText(s: string) returns (r: Option<seq<byte>>)
    ensures r == Unescape(s)
  {
    var out: seq<byte> := [];
    var i := 0;
    assert s[0..] == s;
    AppendedEnds([], Unescape(s));
    while i < |s|
      invariant 0 <= i <= |s|
      invariant Unescape(s) == Appended(out, Unescape(s[i..]))
    {
      hide Utf8, Appended;
      UnescapeStep(s, i, out);
      if s[i] != SLASH {
        out := out + Utf8(s[i]);
        i := i + 1;
        continue;
      }
      i := i + 1;
      if i >= |s| {
        return None;
      }
      if Digit(s[i]) {
        if i + 3 > |s| || !Digit(s[i + 1]) || !Digit(s[i + 2]) {
          return None;
        }
        var v := DigitValue(s[i]) * 100 + DigitValue(s[i + 1]) * 10 + DigitValue(s[i + 2]);
        if v > 255 {
          return None;
        }
        out := out + [v];
        i := i + 3;
      } else {
        out := out + Utf8(s[i]);
        i := i + 1;
      }
    }
    assert s[i..] == "";
    AppendedEnds(out, None);
    r := Some(out);
  }

  lemma AppendedTwice(a: seq<byte>, b: seq<byte>, r: Option<seq<byte>>)
    ensures Appended(a, Appended(b, r)) == Appended(a + b, r)
  {
    if r.Some? {
      assert a + (b + r.value) == a + b + r.value;
    }
  }

  lemma AppendedEnds(out: seq<byte>, r: Option<seq<byte>>)
    ensures Appended([], r) == r
    ensures Appended(out, Some([])) == Some(out)
  {
    if r.Some? {
      assert [] + r.value == r.value;
    }
    assert out + [] == out;
  }

  lemma UnescapeStep(s: string, i: nat, out: seq<byte>)
    requires i < |s|
    ensures var r := Appended(out, Unescape(s[i..]));
            if s[i] != SLASH then r == Appended(out + Utf8(s[i]), Unescape(s[i + 1..]))
            else if i + 1 >= |s| then r == None
            else if Digit(s[i + 1]) then
              if i + 4 > |s| || !Digit(s[i + 2]) || !Digit(s[i + 3]) then r == None
              else
                var v := DigitValue(s[i + 1]) * 100 + DigitValue(s[i + 2]) * 10 + DigitValue(s[i + 3]);
                if v > 255 then r == None else r == Appended(out + [v], Unescape(s[i + 4..]))
            else r == Appended(out + Utf8(s[i + 1]), Unescape(s[i + 2..]))
  {
    hide Utf8;
    var t := s[i..];
    assert t[1..] == s[i + 1..];
    if s[i] != SLASH {
      AppendedTwice(out, Utf8(s[i]), Unescape(s[i + 1..]));
    } else if i + 1 < |s| {
      if Digit(s[i + 1]) {
        if i + 4 <= |s| && Digit(s[i + 2]) && Digit(s[i + 3]) {
          assert t[4..] == s[i + 4..];
          var v := DigitValue(s[i + 1]) * 100 + DigitValue(s[i + 2]) * 10 + DigitValue(s[i + 3]);
          if v <= 255 {
            AppendedTwice(out, [v], Unescape(s[i + 4..]));
          }
        }
      } else {
        assert t[2..] == s[i + 2..];
        AppendedTwice(out, Utf8(s[i + 1]), Unescape(s[i + 2..]));
      }
    }
  }

  // ---- escapes undone ----

  lemma UnescapeByte(b: byte, inList: bool, t: string)
    ensures Unescape(EscapedByte(b, inList) + t) == Appended([b], Unescape(t))
  {
    var e := EscapedByte(b, inList);
    var s := e + t;
    if |e| == 1 {
      assert s[1..] == t;
    } else {
      assert s[4..] == t && s[1] == DigitChar(b / 100) && s[2] == DigitChar(b / 10 % 10) && s[3] == DigitChar(b % 10);
    }
  }

  /** Unescaping what was escaped gives the bytes back, in a list or not. */
  lemma {:induction false} UnescapeEscaped(bytes: seq<byte>, inList: bool)
    ensures Unescape(Escaped(bytes, inList)) == Some(bytes)
  {
    if bytes != [] {
      UnescapeEscaped(bytes[1..], inList);
      UnescapeByte(bytes[0], inList, Escaped(bytes[1..], inList));
      assert bytes == [bytes[0]] + bytes[1..];
    }
  }

  /** Text without backslashes stands for itself. */
  lemma {:induction false} UnescapePlain(s: string)
    requires Ascii(s) && forall i :: 0 <= i < |s| ==> s[i] != SLASH
    ensures Unescape(s) == Some(Raw(s))
  {
    if s != "" {
      UnescapePlain(s[1..]);
      assert Raw(s) == [s[0] as int] + Raw(s[1..]);
    }
  }

  // ---- pieces of a token ----

  /** Reading on after `a` is reading `tok` and then the rest. */
  ghost predicate Piece(a: string, tok: string) {
    forall rest :: Scan(a + rest, false) == Prefixed(tok, Scan(rest, false))
  }

  lemma PieceAt(a: string, tok: string, rest: string)
    requires Piece(a, tok)
    ensures Scan(a + rest, false) == Prefixed(tok, Scan(rest, false))
  {
  }

  lemma PieceConcat(a: string, t: string, b: string, u: string)
    requires Piece(a, t) && Piece(b, u)
    ensures Piece(a + b, t + u)
  {
    forall rest
      ensures Scan(a + b + rest, false) == Prefixed(t + u, Scan(rest, false))
    {
      hide Scan, Prefixed, Piece;
      PieceConcatAt(a, t, b, u, rest);
    }
  }

  lemma PieceConcatAt(a: string, t: string, b: string, u: string, rest: string)
    requires Piece(a, t) && Piece(b, u)
    ensures Scan(a + b + rest, false) == Prefixed(t + u, Scan(rest, false))
  {
    hide Scan, Prefixed, Piece;
    assert a + b + rest == a + (b + rest);
    PieceAt(a, t, b + rest);
    PieceAt(b, u, rest);
    PrefixedTwice(t, u, Scan(rest, false));
  }

  /** Characters that the tokeniser takes as they are. */
  predicate Wordy(s: string) {
    forall i :: 0 <= i < |s| ==> !Blank(s[i]) && s[i] != QUOTE && s[i] != SLASH
  }

  lemma {:induction false} WordScan(a: string, rest: string)
    requires Wordy(a)
    ensures Scan(a + rest, false) == Prefixed(a, Scan(rest, false))
  {
    if a == "" {
      assert a + rest == rest;
      PrefixedNothing(Scan(rest, false));
    } else {
      var s := a + rest;
      assert s[1..] == a[1..] + rest && s[..1] == a[..1];
      WordScan(a[1..], rest);
      PrefixedTwice(a[..1], a[1..], Scan(rest, false));
      assert a[..1] + a[1..] == a;
    }
  }

  lemma PrefixedNothing(s: Option<Scanned>)
    ensures Prefixed("", s) == s
  {
    if s.Some? {
      assert "" + s.value.token == s.value.token;
    }
  }

  lemma WordPiece(a: string)
    requires Wordy(a)
    ensures Piece(a, a)
  {
    forall rest
      ensures Scan(a + rest, false) == Prefixed(a, Scan(rest, false))
    {
      WordScan(a, rest);
    }
  }

  lemma EscapedByteScan(b: byte, inList: bool, rest: string, inQuote: bool)
    requires inList || inQuote
    ensures Scan(EscapedByte(b, inList) + rest, inQuote) == Prefixed(EscapedByte(b, inList), Scan(rest, inQuote))
  {
    var e := EscapedByte(b, inList);
    var s := e + rest;
    if |e| == 1 {
      assert s[1..] == rest && s[..1] == e;
    } else {
      assert s[4..] == rest && s[..4] == e;
      assert ThreeDigits(s[1..]) && Digit(s[1]);
    }
  }

  /** Escaped bytes are read back as they were written: in quotes, or bare in a list. */
  lemma {:induction false} EscapedScan(bytes: seq<byte>, inList: bool, rest: string, inQuote: bool)
    requires inList || inQuote
    ensures Scan(Escaped(bytes, inList) + rest, inQuote) == Prefixed(Escaped(bytes, inList), Scan(rest, inQuote))
  {
    if bytes == [] {
      assert "" + rest == rest;
      PrefixedNothing(Scan(rest, inQuote));
    } else {
      hide Scan, EscapedByte, Prefixed;
      var e, more := EscapedByte(bytes[0], inList), Escaped(bytes[1..], inList);
      assert Escaped(bytes, inList) + rest == e + (more + rest);
      EscapedByteScan(bytes[0], inList, more + rest, inQuote);
      EscapedScan(bytes[1..], inList, rest, inQuote);
      PrefixedTwice(e, more, Scan(rest, inQuote));
    }
  }

  lemma ListPiece(bytes: seq<byte>)
    ensures Piece(Escaped(bytes, true), Escaped(bytes, true))
  {
    forall rest
      ensures Scan(Escaped(bytes, true) + rest, false) == Prefixed(Escaped(bytes, true), Scan(rest, false))
    {
      EscapedScan(bytes, true, rest, false);
    }
  }

  lemma QuotedPiece(bytes: seq<byte>)
    ensures Piece(Quoted(bytes), Escaped(bytes, false))
  {
    var e := Escaped(bytes, false);
    forall rest
      ensures Scan(Quoted(bytes) + rest, false) == Prefixed(e, Scan(rest, false))
    {
      var s := Quoted(bytes) + rest;
      assert s[1..] == e + ([QUOTE] + rest);
      assert ([QUOTE] + rest)[1..] == rest;
      EscapedScan(bytes, false, [QUOTE] + rest, true);
    }
  }

  // ---- lines of words ----

  /** `a` is written where a token starts, and is read as `tok`. */
  ghost predicate Word(a: string, tok: string) {
    a != "" && !Blank(a[0]) && Piece(a, tok)
  }

  function Line(words: seq<string>): string {
    if words == [] then ""
    else if |words| == 1 then words[0]
    else words[0] + [SPACE] + Line(words[1..])
  }

  lemma TokenFirst(a: string, tok: string, more: string)
    requires Word(a, tok) && (more == "" || more[0] == SPACE)
    ensures Tokens(a + more) == match Tokens(more) case None => None case Some(t) => Some([tok] + t)
  {
    PieceAt(a, tok, more);
    assert SkipBlanks(a + more) == a + more;
    assert tok + "" == tok;
  }

  lemma SpaceFirst(more: string)
    ensures Tokens([SPACE] + more) == Tokens(more)
  {
    assert ([SPACE] + more)[1..] == more;
  }

  /** A line of words is read as its tokens. */
  lemma {:induction false} LineTokens(words: seq<string>, toks: seq<string>)
    requires |words| == |toks| && forall i :: 0 <= i < |words| ==> Word(words[i], toks[i])
    ensures Tokens(Line(words)) == Some(toks)
  {
    hide Word;
    if |words| == 1 {
      NoTokens();
      TokenFirst(words[0], toks[0], "");
      assert words[0] + "" == words[0];
      assert [toks[0]] + [] == toks;
    } else if words != [] {
      var more := Line(words[1..]);
      LineTokens(words[1..], toks[1..]);
      TokenFirst(words[0], toks[0], [SPACE] + more);
      SpaceFirst(more);
      assert words[0] + [SPACE] + more == words[0] + ([SPACE] + more);
      assert [toks[0]] + toks[1..] == toks;
    } else {
      NoTokens();
    }
  }

  lemma NoTokens()
    ensures Tokens("") == Some([])
  {
  }

  // ---- decimal numbers ----

  function Decimal(n: nat): (s: string)
    ensures s != "" && forall i :: 0 <= i < |s| ==> Digit(s[i])
  {
    if n < 10 then [DigitChar(n)] else Decimal(n / 10) + [DigitChar(n % 10)]
  }

  predicate Digits(s: string) {
    s != "" && forall i :: 0 <= i < |s| ==> Digit(s[i])
  }

  function NumberOf(s: string): nat
    requires forall i :: 0 <= i < |s| ==> Digit(s[i])
  {
    if s == "" then 0 else NumberOf(s[..|s| - 1]) * 10 + DigitValue(s[|s| - 1])
  }

  lemma {:induction false} NumberOfDecimal(n: nat)
    ensures NumberOf(Decimal(n)) == n
  {
    if n >= 10 {
      NumberOfDecimal(n / 10);
      assert Decimal(n)[..|Decimal(n)| - 1] == Decimal(n / 10);
    }
  }

  function TokenNumber(tok: string, limit: nat): Option<nat> {
    if Digits(tok) && NumberOf(tok) < limit then Some(NumberOf(tok)) else None
  }

  function TokenU8(tok: string): Option<byte> {
    match TokenNumber(tok, 256)
    case None => None
    case Some(n) => Some(n)
  }

  function TokenU16(tok: string): Option<u16> {
    match TokenNumber(tok, 0x1_0000)
    case None => None
    case Some(n) => Some(n)
  }

  /** Printed numbers are words, and are read back. */
  lemma DecimalRoundTrip(n: nat)
    ensures n < 256 ==> TokenU8(Decimal(n)) == Some(n)
    ensures n < 0x1_0000 ==> TokenU16(Decimal(n)) == Some(n)
    ensures Wordy(Decimal(n)) && Word(Decimal(n), Decimal(n)) && Ascii(Decimal(n))
  {
    NumberOfDecimal(n);
    WordPiece(Decimal(n));
  }

  // ---- base64 ----

  function B64Char(v: nat): char
    requires v < 64
  {
    if v < 26 then (65 + v) as char
    else if v < 52 then (97 + v - 26) as char
    else if v < 62 then (48 + v - 52) as char
    else if v == 62 then '+'
    else '/'
  }

  function B64Value(c: char): Option<nat> {
    if 'A' <= c <= 'Z' then Some(c as int - 65)
    else if 'a' <= c <= 'z' then Some(c as int - 97 + 26)
    else if '0' <= c <= '9' then Some(c as int - 48 + 52)
    else if c == '+' then Some(62)
    else if c == '/' then Some(63)
    else None
  }

  const PAD: char := '='

  /** One group of up to three bytes. */
  function B64Group(chunk: seq<byte>): (s: string)
    requires 1 <= |chunk| <= 3
    ensures |s| == 4
  {
    var b0, b1, b2 := chunk[0], if |chunk| > 1 then chunk[1] else 0, if |chunk| > 2 then chunk[2] else 0;
    [B64Char(b0 / 4), B64Char(b0 % 4 * 16 + b1 / 16),
     if |chunk| > 1 then B64Char(b1 % 16 * 4 + b2 / 64) else PAD,
     if |chunk| > 2 then B64Char(b2 % 64) else PAD]
  }

  function Base64(b: seq<byte>): string {
    if b == [] then ""
    else if |b| <= 3 then B64Group(b)
    else B64Group(b[..3]) + Base64(b[3..])
  }

  method Base64Encode(b: seq<byte>) returns (s: string)
    ensures s == Base64(b)
  {
    hide B64Group, Base64;
    s := "";
    var i := 0;
    assert b[0..] == b;
    while i < |b|
      invariant 0 <= i <= |b|
      invariant s + Base64(b[i..]) == Base64(b)
    {
      var n := if |b| - i < 3 then |b| - i else 3;
      Base64Step(b, i, n);
      s := s + B64Group(b[i..i + n]);
      i := i + n;
    }
    assert b[i..] == [];
    Base64Nothing();
  }

  lemma Base64Nothing()
    ensures Base64([]) == ""
  {
  }

  lemma Base64Step(b: seq<byte>, i: nat, n: nat)
    requires i < |b| && n == if |b| - i < 3 then |b| - i else 3
    ensures Base64(b[i..]) == B64Group(b[i..i + n]) + Base64(b[i + n..])
  {
    hide B64Group;
    var rest := b[i..];
    if |rest| <= 3 {
      assert rest == b[i..i + n] && b[i + n..] == [];
      assert B64Group(rest) + "" == B64Group(rest);
    } else {
      assert rest[..3] == b[i..i + n] && rest[3..] == b[i + n..];
    }
  }

  const WIDE: nat := 0x1_0000_0000

  /** Reads six bits per character into a 32-bit accumulator, of which `bits` are still
      to be used; stops at a pad, skips blanks. */
  function Unbase64From(s: string, acc: nat, bits: nat): Option<seq<byte>>
    requires bits < 8
  {
    if s == "" || s[0] == PAD then Some([])
    else if Blank(s[0]) then Unbase64From(s[1..], acc, bits)
    else
      match B64Value(s[0])
      case None => None
      case Some(v) =>
        var acc' := (acc * 64 + v) % WIDE;
        if bits + 6 >= 8 then Appended([TopByte(acc', bits - 2)], Unbase64From(s[1..], acc', bits - 2))
        else Unbase64From(s[1..], acc', bits + 6)
  }

  /** The eight bits above the lowest `bits`. */
  function TopByte(acc: nat, bits: nat): byte {
    acc / Pow2(bits) % 256
  }

  function Pow2(n: nat): (p: nat)
    ensures p >= 1
  {
    if n == 0 then 1 else 2 * Pow2(n - 1)
  }

  function Unbase64(s: string): Option<seq<byte>> {
    Unbase64From(s, 0, 0)
  }

  method Base64Decode(s: string) returns (r: Option<seq<byte>>)
    ensures r == Unbase64(s)
  {
    var out: seq<byte> := [];
    var acc, bits, i := 0, 0, 0;
    assert s[0..] == s;
    AppendedEnds([], Unbase64(s));
    while i < |s|
      invariant 0 <= i <= |s| && 0 <= bits < 8 && acc >= 0
      invariant Unbase64(s) == Appended(out, Unbase64From(s[i..], acc, bits))
    {
      hide TopByte, B64Value;
      assert s[i..][1..] == s[i + 1..];
      AppendedEnds(out, None);
      var c := s[i];
      if c == PAD {
        return Some(out);
      }
      i := i + 1;
      if Blank(c) {
        continue;
      }
      var v := B64Value(c);
      if v.None? {
        return None;
      }
      acc := (acc * 64 + v.value) % WIDE;
      bits := bits + 6;
      if bits >= 8 {
        bits := bits - 8;
        AppendedTwice(out, [TopByte(acc, bits)], Unbase64From(s[i..], acc, bits));
        out := out + [TopByte(acc, bits)];
      }
    }
    assert s[i..] == "";
    AppendedEnds(out, None);
    r := Some(out);
  }

  lemma B64CharRoundTrip(v: nat)
    requires v < 64
    ensures B64Value(B64Char(v)) == Some(v)
    ensures var c := B64Char(v); !Blank(c) && c != QUOTE && c != SLASH && c != PAD && c as int < 128
  {
  }

  /** Whatever the accumulator held, two, three and four characters of a group give its
      first, second and third byte. */
  lemma GroupBits(acc: nat, b0: byte, b1: byte, b2: byte)
    ensures var a1 := (acc * 64 + b0 / 4) % WIDE;
            var a2 := (a1 * 64 + (b0 % 4 * 16 + b1 / 16)) % WIDE;
            var a3 := (a2 * 64 + (b1 % 16 * 4 + b2 / 64)) % WIDE;
            var a4 := (a3 * 64 + b2 % 64) % WIDE;
            TopByte(a2, 4) == b0 && TopByte(a3, 2) == b1 && TopByte(a4, 0) == b2
  {
    var v1, v2, v3, v4 := b0 / 4, b0 % 4 * 16 + b1 / 16, b1 % 16 * 4 + b2 / 64, b2 % 64;
    var a1 := (acc * 64 + v1) % WIDE;
    var a2 := (a1 * 64 + v2) % WIDE;
    var a3 := (a2 * 64 + v3) % WIDE;
    var a4 := (a3 * 64 + v4) % WIDE;
    hide TopByte;
    LowBits(acc, v1);
    LowBits(a1, v2);
    LowBits(a2, v3);
    LowBits(a3, v4);
    Top4(a2);
    Top2(a3);
    Top0(a4);
    FirstByte(b0, b1);
    SecondByte(b0, b1, b2);
    ThirdByte(b1, b2);
  }

  lemma FirstByte(b0: byte, b1: byte)
    ensures (b0 / 4 * 64 + (b0 % 4 * 16 + b1 / 16)) / 16 == b0
    ensures b0 / 4 < 64 && b0 % 4 * 16 + b1 / 16 < 64
  {
  }

  lemma SecondByte(b0: byte, b1: byte, b2: byte)
    ensures ((b0 % 4 * 16 + b1 / 16) * 64 + (b1 % 16 * 4 + b2 / 64)) / 4 % 256 == b1
    ensures b1 % 16 * 4 + b2 / 64 < 64
  {
    assert ((b0 % 4 * 16 + b1 / 16) * 64 + (b1 % 16 * 4 + b2 / 64)) / 4 == b0 % 4 * 256 + b1;
  }

  lemma ThirdByte(b1: byte, b2: byte)
    ensures ((b1 % 16 * 4 + b2 / 64) * 64 + b2 % 64) % 256 == b2
  {
    assert (b1 % 16 * 4 + b2 / 64) * 64 + b2 % 64 == b1 % 16 * 256 + b2;
  }

  /** A step keeps the last two sextets in the lowest twelve bits. */
  lemma LowBits(a: nat, v: nat)
    requires v < 64
    ensures var a' := (a * 64 + v) % WIDE;
            a' % 4096 == a % 64 * 64 + v && a' % 64 == v
  {
    var n := a * 64 + v;
    var q, h := n / WIDE, a / 64;
    assert n % WIDE == n - q * WIDE;
    assert n == 4096 * h + (a % 64 * 64 + v);
    assert n % WIDE == 4096 * (h - q * 0x10_0000) + (a % 64 * 64 + v);
  }

  lemma Top4(a: nat)
    ensures TopByte(a, 4) == a % 4096 / 16
  {
    assert Pow2(4) == 16;
    assert a / 16 == 256 * (a / 4096) + a % 4096 / 16;
  }

  lemma Top2(a: nat)
    ensures TopByte(a, 2) == a % 4096 / 4 % 256
  {
    assert Pow2(2) == 4;
    assert a / 4 == 256 * (4 * (a / 4096)) + a % 4096 / 4;
    Mod256(4 * (a / 4096), a % 4096 / 4);
  }

  lemma Mod256(q: nat, r: nat)
    ensures (256 * q + r) % 256 == r % 256
  {
  }

  lemma Top0(a: nat)
    ensures TopByte(a, 0) == a % 4096 % 256
  {
    assert Pow2(0) == 1;
    assert a == 4096 * (a / 4096) + a % 4096;
  }

  // ---- base64 and hex undone ----

  lemma GroupStep(s: string, acc: nat, bits: nat, v: nat)
    requires s != "" && v < 64 && s[0] == B64Char(v) && bits < 8
    ensures var acc' := (acc * 64 + v) % WIDE;
            Unbase64From(s, acc, bits) ==
            if bits >= 2 then Appended([TopByte(acc', bits - 2)], Unbase64From(s[1..], acc', bits - 2))
            else Unbase64From(s[1..], acc', bits + 6)
  {
    B64CharRoundTrip(v);
  }

  /** Decoding a full group gives its bytes, and goes on from a clean state. */
  lemma GroupDecodes(chunk: seq<byte>, more: string, acc: nat) returns (acc': nat)
    requires |chunk| == 3
    ensures Unbase64From(B64Group(chunk) + more, acc, 0) == Appended(chunk, Unbase64From(more, acc', 0))
  {
    hide TopByte, B64Char, Unbase64From;
    var b0, b1, b2 := chunk[0], chunk[1], chunk[2];
    var v1, v2, v3, v4 := b0 / 4, b0 % 4 * 16 + b1 / 16, b1 % 16 * 4 + b2 / 64, b2 % 64;
    var a1 := (acc * 64 + v1) % WIDE;
    var a2 := (a1 * 64 + v2) % WIDE;
    var a3 := (a2 * 64 + v3) % WIDE;
    acc' := (a3 * 64 + v4) % WIDE;
    var s := B64Group(chunk) + more;
    assert s == [B64Char(v1), B64Char(v2), B64Char(v3), B64Char(v4)] + more;
    GroupBits(acc, b0, b1, b2);
    GroupStep(s, acc, 0, v1);
    GroupStep(s[1..], a1, 6, v2);
    GroupStep(s[2..], a2, 4, v3);
    GroupStep(s[3..], a3, 2, v4);
    assert s[1..][1..] == s[2..] && s[2..][1..] == s[3..] && s[3..][1..] == more;
    AppendedTwice([b1], [b2], Unbase64From(more, acc', 0));
    assert [b1] + [b2] == [b1, b2];
    AppendedTwice([b0], [b1, b2], Unbase64From(more, acc', 0));
    assert [b0] + [b1, b2] == chunk;
  }

  /** A last group of one or two bytes ends at its padding. */
  lemma LastGroupDecodes(chunk: seq<byte>, acc: nat)
    requires 1 <= |chunk| <= 2
    ensures Unbase64From(B64Group(chunk), acc, 0) == Some(chunk)
  {
    hide TopByte, B64Char;
    var b0, b1 := chunk[0], if |chunk| > 1 then chunk[1] else 0;
    var v1, v2, v3 := b0 / 4, b0 % 4 * 16 + b1 / 16, b1 % 16 * 4;
    var a1 := (acc * 64 + v1) % WIDE;
    var a2 := (a1 * 64 + v2) % WIDE;
    var s := B64Group(chunk);
    GroupBits(acc, b0, b1, 0);
    hide Unbase64From;
    GroupStep(s, acc, 0, v1);
    GroupStep(s[1..], a1, 6, v2);
    assert s[1..][1..] == s[2..] && s[2..][1..] == s[3..];
    if |chunk| > 1 {
      GroupStep(s[2..], a2, 4, v3);
      PadEnds(s[3..], (a2 * 64 + v3) % WIDE, 2);
      AppendedEnds([b1], None);
      AppendedTwice([b0], [b1], Some([]));
      assert [b0] + [b1] == chunk;
    } else {
      PadEnds(s[2..], a2, 4);
      assert [b0] == chunk;
    }
    AppendedEnds(chunk, None);
  }

  lemma PadEnds(s: string, acc: nat, bits: nat)
    requires s != "" && s[0] == PAD && bits < 8
    ensures Unbase64From(s, acc, bits) == Some([])
  {
  }

  lemma {:induction false} Base64From(b: seq<byte>, acc: nat)
    ensures Unbase64From(Base64(b), acc, 0) == Some(b)
  {
    hide B64Group, Unbase64From;
    if |b| > 3 {
      var acc' := GroupDecodes(b[..3], Base64(b[3..]), acc);
      Base64From(b[3..], acc');
      assert b[..3] + b[3..] == b;
    } else if |b| == 3 {
      var acc' := GroupDecodes(b, "", acc);
      assert B64Group(b) + "" == B64Group(b);
      NothingDecodes(acc');
      AppendedEnds(b, None);
    } else if b != [] {
      LastGroupDecodes(b, acc);
    } else {
      NothingDecodes(acc);
    }
  }

  lemma NothingDecodes(acc: nat)
    ensures Unbase64From("", acc, 0) == Some([])
  {
  }

  /** Base64 text decodes to the bytes it was made from. */
  lemma Base64RoundTrip(b: seq<byte>)
    ensures Unbase64(Base64(b)) == Some(b)
  {
    Base64From(b, 0);
  }

  lemma GroupWordy(chunk: seq<byte>)
    requires 1 <= |chunk| <= 3
    ensures Wordy(B64Group(chunk)) && Ascii(B64Group(chunk))
  {
    hide B64Char;
    forall v | 0 <= v < 64
      ensures var c := B64Char(v); !Blank(c) && c != QUOTE && c != SLASH && c as int < 128
    {
      B64CharRoundTrip(v);
    }
  }

  lemma {:induction false} Base64Wordy(b: seq<byte>)
    ensures Wordy(Base64(b)) && Ascii(Base64(b))
    ensures b != [] ==> Base64(b) != ""
  {
    hide B64Group;
    if b != [] {
      GroupWordy(if |b| <= 3 then b else b[..3]);
      if |b| > 3 {
        Base64Wordy(b[3..]);
      }
    }
  }

  function HexChar(n: nat): char
    requires n < 16
  {
    if n < 10 then (48 + n) as char else (87 + n) as char
  }

  function Nibble(c: char): Option<nat> {
    if '0' <= c <= '9' then Some(c as int - 48)
    else if 'a' <= c <= 'f' then Some(c as int - 97 + 10)
    else if 'A' <= c <= 'F' then Some(c as int - 65 + 10)
    else None
  }

  function Hex(b: seq<byte>): string {
    if b == [] then "" else [HexChar(b[0] / 16), HexChar(b[0] % 16)] + Hex(b[1..])
  }

  function Unhex(s: string): Option<seq<byte>> {
    if s == "" then Some([])
    else if |s| == 1 then None
    else
      match (Nibble(s[0]), Nibble(s[1]))
      case (Some(hi), Some(lo)) => Appended([hi * 16 + lo], Unhex(s[2..]))
      case _ => None
  }

  method HexEncode(b: seq<byte>) returns (s: string)
    ensures s == Hex(b)
  {
    hide HexChar, Hex;
    HexUnfold([]);
    s := "";
    var i := 0;
    assert b[0..] == b;
    while i < |b|
      invariant 0 <= i <= |b|
      invariant s + Hex(b[i..]) == Hex(b)
    {
      ghost var before, two := s, [HexChar(b[i] / 16), HexChar(b[i] % 16)];
      HexUnfold(b[i..]);
      assert b[i..][1..] == b[i + 1..] && b[i..] != [];
      s := s + [HexChar(b[i] / 16)];
      s := s + [HexChar(b[i] % 16)];
      assert s + Hex(b[i + 1..]) == before + (two + Hex(b[i + 1..]));
      i := i + 1;
    }
    assert b[i..] == [] && s + "" == s;
  }

  lemma {:induction false} UnhexOdd(s: string)
    requires |s| % 2 == 1
    ensures Unhex(s) == None
  {
    if |s| > 1 {
      UnhexOdd(s[2..]);
    }
  }

  /** An odd length is refused before anything is read. */
  method HexDecode(s: string) returns (r: Option<seq<byte>>)
    ensures r == Unhex(s)
  {
    if |s| % 2 == 1 {
      UnhexOdd(s);
      return None;
    }
    var out: seq<byte> := [];
    var i := 0;
    assert s[0..] == s;
    AppendedEnds([], Unhex(s));
    while i < |s|
      invariant 0 <= i <= |s| && i % 2 == 0
      invariant Unhex(s) == Appended(out, Unhex(s[i..]))
    {
      hide Nibble;
      assert s[i..][2..] == s[i + 2..];
      var hi := Nibble(s[i]);
      if hi.None? {
        return None;
      }
      var lo := Nibble(s[i + 1]);
      if lo.None? {
        return None;
      }
      NibbleRange(s[i]);
      NibbleRange(s[i + 1]);
      AppendedTwice(out, [hi.value * 16 + lo.value], Unhex(s[i + 2..]));
      out := out + [hi.value * 16 + lo.value];
      i := i + 2;
    }
    assert s[i..] == "";
    AppendedEnds(out, None);
    r := Some(out);
  }

  lemma NibbleRange(c: char)
    ensures Nibble(c).Some? ==> Nibble(c).value < 16
  {
  }

  /** Hexadecimal text decodes to the bytes it was made from. */
  lemma {:induction false} HexRoundTrip(b: seq<byte>)
    ensures Unhex(Hex(b)) == Some(b)
    ensures Wordy(Hex(b)) && Ascii(Hex(b)) && |Hex(b)| == 2 * |b|
  {
    hide Hex, Unhex, HexChar, Nibble;
    HexUnfold(b);
    if b != [] {
      var hi, lo, rest := HexChar(b[0] / 16), HexChar(b[0] % 16), Hex(b[1..]);
      HexRoundTrip(b[1..]);
      HexCharRoundTrip(b[0] / 16);
      HexCharRoundTrip(b[0] % 16);
      UnhexPair(hi, lo, rest);
      assert b == [b[0]] + b[1..];
    }
  }

  lemma HexUnfold(b: seq<byte>)
    ensures b == [] ==> Hex(b) == "" && Unhex("") == Some([])
    ensures b != [] ==> Hex(b) == [HexChar(b[0] / 16), HexChar(b[0] % 16)] + Hex(b[1..])
  {
  }

  lemma HexCharRoundTrip(n: nat)
    requires n < 16
    ensures Nibble(HexChar(n)) == Some(n)
    ensures var c := HexChar(n); !Blank(c) && c != QUOTE && c != SLASH && c as int < 128
  {
  }

  lemma UnhexPair(hi: char, lo: char, rest: string)
    requires Nibble(hi).Some? && Nibble(lo).Some? && Nibble(hi).value < 16 && Nibble(lo).value < 16
    ensures Unhex([hi, lo] + rest) == Appended([Nibble(hi).value * 16 + Nibble(lo).value], Unhex(rest))
  {
    var s := [hi, lo] + rest;
    assert s[2..] == rest;
  }
}
