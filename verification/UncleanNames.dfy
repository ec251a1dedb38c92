/** Names that do not survive being printed unescaped: with the round trip of clean
    names, this gives the exact condition for record data to come back byte for byte. */
module UncleanNames {
  import opened Wrappers
  import opened Bytes
  import opened Unicode
  import opened Lexing
  import opened Names
  import opened SvcParams
  import opened RecordData
  import opened RecordRoundTrip

  predicate Special(c: char) {
    Blank(c) || c == QUOTE || c == SLASH
  }

  // ---- text and the labels read from it ----

  /** `n` is `t` with some dots left out. */
  ghost predicate DotThin(t: string, n: string) {
    if t == "" then n == ""
    else
      || (t[0] == DOT && DotThin(t[1..], n))
      || (n != "" && t[0] == n[0] && DotThin(t[1..], n[1..]))
  }

  lemma {:induction false} ThinLength(t: string, n: string)
    requires DotThin(t, n)
    ensures |n| <= |t|
  {
    if t != "" {
      if t[0] == DOT && DotThin(t[1..], n) {
        ThinLength(t[1..], n);
      } else {
        ThinLength(t[1..], n[1..]);
      }
    }
  }

  /** Joining the labels of a text only leaves out dots. */
  lemma {:induction false} ThinJoin(t: string)
    ensures DotThin(t, Join(Labels(t), DOT))
    decreases |t|
  {
    if t == "" {
      NoLabels();
    } else {
      var rest := Split(t[1..], DOT);
      ThinJoin(t[1..]);
      if t[0] == DOT {
        assert ([""] + rest)[1..] == rest;
      } else {
        var parts, m := [[t[0]] + rest[0]] + rest[1..], NonEmpty(rest[1..]);
        assert parts[1..] == rest[1..];
        assert Labels(t) == [[t[0]] + rest[0]] + m;
        ThinTail(t, rest, m);
      }
    }
  }

  lemma ThinTail(t: string, rest: seq<string>, m: seq<string>)
    requires t != "" && t[0] != DOT && rest == Split(t[1..], DOT) && m == NonEmpty(rest[1..])
    requires Labels(t) == [[t[0]] + rest[0]] + m
    requires DotThin(t[1..], Join(Labels(t[1..]), DOT))
    ensures DotThin(t, Join(Labels(t), DOT))
    decreases |t|, 0
  {
    var n, later := Join(Labels(t), DOT), Labels(t[1..]);
    assert Labels(t)[1..] == m;
    if rest[0] != "" {
      assert later == [rest[0]] + m && later[1..] == m;
      hide DotThin, Labels, Split, NonEmpty;
      JoinHead(t[0], rest[0], m);
      ThinCons(t, Join(later, DOT));
    } else if m == [] {
      assert later == m;
      hide DotThin, Labels, Split, NonEmpty;
      ThinCons(t, "");
    } else {
      var u := t[1..][1..];
      assert rest[1..] == Split(u, DOT) && t[1] == DOT;
      ThinJoin(u);
      hide DotThin, Labels, Split, NonEmpty;
      ThinCons(t[1..], Join(m, DOT));
      ThinCons(t, [DOT] + Join(m, DOT));
      assert n == [t[0]] + ([DOT] + Join(m, DOT));
    }
  }

  lemma JoinHead(c: char, first: string, m: seq<string>)
    ensures Join([[c] + first] + m, DOT) == [c] + Join([first] + m, DOT)
  {
    assert ([[c] + first] + m)[1..] == m && ([first] + m)[1..] == m;
  }

  lemma ThinCons(t: string, n: string)
    requires t != "" && DotThin(t[1..], n)
    ensures DotThin(t, [t[0]] + n)
  {
    assert ([t[0]] + n)[1..] == n;
  }

  lemma NothingLeft(n: string, j: nat)
    requires j < |n|
    ensures !DotThin(Text([]), n[j..])
  {
  }

  lemma ThinStep(c: byte, more: seq<byte>, n: string, j: nat)
    requires j <= |n| && DotThin(Text([c] + more), n[j..])
    ensures || (c as char == DOT && DotThin(Text(more), n[j..]))
            || (j < |n| && n[j] == c as char && DotThin(Text(more), n[j + 1..]))
  {
    var t := Text([c] + more);
    assert t[1..] == Text(more);
    if j < |n| {
      assert n[j..][1..] == n[j + 1..];
    }
  }

  // ---- what a token gives, character by character ----

  /** Reading a token from `s` and undoing its escapes gives the ASCII bytes `b`. */
  ghost predicate Emits(s: string, inQuote: bool, b: seq<byte>) {
    && Scan(s, inQuote).Some? && Unescape(Scan(s, inQuote).value.token) == Some(b) && AsciiBytes(b)
  }

  lemma Utf8Ascii(c: char, more: seq<byte>)
    requires AsciiBytes(Utf8(c) + more)
    ensures c as int < 128 && Utf8(c) == [c as int] && AsciiBytes(more)
  {
    var b := Utf8(c) + more;
    assert b[0] == Utf8(c)[0];
    forall i | 0 <= i < |more|
      ensures more[i] < 128
    {
      assert b[|Utf8(c)| + i] == more[i];
    }
  }

  lemma EmitEnd(s: string, inQuote: bool, b: seq<byte>)
    requires Emits(s, inQuote, b)
    ensures s == "" ==> b == []
    ensures s != "" && !inQuote && Blank(s[0]) ==> b == []
  {
  }

  lemma EmitQuote(s: string, inQuote: bool, b: seq<byte>)
    requires Emits(s, inQuote, b) && s != "" && s[0] == QUOTE
    ensures Emits(s[1..], !inQuote, b)
  {
  }

  lemma EmitPlain(s: string, inQuote: bool, b: seq<byte>) returns (more: seq<byte>)
    requires Emits(s, inQuote, b) && s != "" && s[0] != QUOTE && s[0] != SLASH && (inQuote || !Blank(s[0]))
    ensures s[0] as int < 128 && b == [s[0] as int] + more && Emits(s[1..], inQuote, more)
  {
    var v := Scan(s[1..], inQuote).value;
    var tok := s[..1] + v.token;
    assert tok[1..] == v.token && tok[0] == s[0];
    more := Unescape(v.token).value;
    Utf8Ascii(s[0], more);
  }

  lemma EmitEscape(s: string, inQuote: bool, b: seq<byte>) returns (c: byte, more: seq<byte>)
    requires Emits(s, inQuote, b) && s != "" && s[0] == SLASH
    ensures |s| >= 2 && b == [c] + more
    ensures if Digit(s[1]) then ThreeDigits(s[1..]) && Emits(s[4..], inQuote, more)
            else c == s[1] as int && Emits(s[2..], inQuote, more)
  {
    if Digit(s[1]) {
      var v := Scan(s[4..], inQuote).value;
      var tok := s[..4] + v.token;
      assert tok[4..] == v.token && tok[0] == s[0] && tok[1] == s[1] && tok[2] == s[2] && tok[3] == s[3];
      more := Unescape(v.token).value;
      c := DigitValue(s[1]) * 100 + DigitValue(s[2]) * 10 + DigitValue(s[3]);
      assert forall i :: 0 <= i < |more| ==> more[i] == b[i + 1];
    } else {
      var v := Scan(s[2..], inQuote).value;
      var tok := s[..2] + v.token;
      assert tok[2..] == v.token && tok[0] == s[0] && tok[1] == s[1];
      more := Unescape(v.token).value;
      Utf8Ascii(s[1], more);
      c := s[1] as int;
    }
  }

  // ---- the chase ----

  /** What follows the name: nothing, or a blank and, if need be, the marker. */
  predicate Fence(t: string, x: char) {
    && (x == SPACE || 'a' <= x <= 'z')
    && (t == "" || (t[0] == SPACE && (x == SPACE || (|t| >= 2 && t[1] == x))))
  }

  /** Once reading has left the name, its text cannot continue to agree with it. */
  lemma Beyond(n: string, x: char, j: nat, t: string, inQuote: bool, b: seq<byte>, more: seq<byte>)
    requires j < |n| && Fence(t, x) && t != "" && b == [32] + more && Emits(t[1..], inQuote, more)
    requires forall p :: 0 <= p < |n| ==> n[p] != x
    ensures !DotThin(Text(b), n[j..])
  {
    if DotThin(Text(b), n[j..]) {
      ThinStep(32, more, n, j);
      if x != SPACE {
        var last := EmitPlain(t[1..], inQuote, more);
        ThinStep(x as int, last, n, j + 1);
      }
    }
  }

  /** After a quote or an escape the text lags behind the name, and can never catch up:
      a marker that is not in the part already read would have to appear. */
  lemma {:induction false} Chase(n: string, x: char, j: nat, k: nat, t: string, inQuote: bool, b: seq<byte>)
    requires j < k <= |n| || (j == k < |n| && (n[k] == QUOTE || n[k] == SLASH))
    requires Fence(t, x) && Emits(n[k..] + t, inQuote, b)
    requires forall p :: 0 <= p < k ==> n[p] != x
    ensures !DotThin(Text(b), n[j..])
    decreases |n| - k
  {
    hide Emits, DotThin, Text;
    var s := n[k..] + t;
    if k == |n| {
      ChaseEnd(n, x, j, t, inQuote, b);
    } else if n[k] == SLASH {
      ChaseEscape(n, x, j, k, t, inQuote, b);
    } else if n[k] == QUOTE {
      assert s[1..] == n[k + 1..] + t;
      EmitQuote(s, inQuote, b);
      Chase(n, x, j, k + 1, t, !inQuote, b);
    } else if !inQuote && Blank(n[k]) {
      EmitEnd(s, inQuote, b);
      NothingLeft(n, j);
    } else {
      assert s[1..] == n[k + 1..] + t;
      var more := EmitPlain(s, inQuote, b);
      ChaseOn(n, x, j, k, k + 1, t, inQuote, b, n[k] as int, more);
    }
  }

  lemma ChaseEnd(n: string, x: char, j: nat, t: string, inQuote: bool, b: seq<byte>)
    requires j < |n| && Fence(t, x) && Emits(n[|n|..] + t, inQuote, b)
    requires forall p :: 0 <= p < |n| ==> n[p] != x
    ensures !DotThin(Text(b), n[j..])
  {
    hide Emits, DotThin;
    assert n[|n|..] + t == t;
    if t == "" || !inQuote {
      EmitEnd(t, inQuote, b);
      NothingLeft(n, j);
    } else {
      var more := EmitPlain(t, inQuote, b);
      Beyond(n, x, j, t, inQuote, b, more);
    }
  }

  /** One character has been given for `n[k..next]`; it is a dot too many, or agrees. */
  lemma {:induction false} ChaseOn(n: string, x: char, j: nat, k: nat, next: nat, t: string, inQuote: bool,
                                   b: seq<byte>, c: byte, more: seq<byte>)
    requires j <= k < next <= |n| && j + 1 < next + (if j == k then 0 else 1) && Fence(t, x)
    requires b == [c] + more && Emits(n[next..] + t, inQuote, more)
    requires forall p :: 0 <= p < k ==> n[p] != x
    requires j == k ==> n[k] != x
    requires forall p :: k <= p < next ==> n[p] != x || n[p] == c as char
    ensures !DotThin(Text(b), n[j..])
    decreases |n| - k, 0
  {
    if DotThin(Text(b), n[j..]) {
      ThinStep(c, more, n, j);
      if c as char == DOT && DotThin(Text(more), n[j..]) {
        Chase(n, x, j, next, t, inQuote, more);
      } else {
        Chase(n, x, j + 1, next, t, inQuote, more);
      }
    }
  }

  lemma {:induction false} ChaseEscape(n: string, x: char, j: nat, k: nat, t: string, inQuote: bool, b: seq<byte>)
    requires j <= k < |n| && n[k] == SLASH
    requires Fence(t, x) && Emits(n[k..] + t, inQuote, b)
    requires forall p :: 0 <= p < k ==> n[p] != x
    ensures !DotThin(Text(b), n[j..])
    decreases |n| - k, 1
  {
    hide Emits, DotThin, Text;
    var s := n[k..] + t;
    var c, more := EmitEscape(s, inQuote, b);
    if k + 1 == |n| {
      assert s[1] == t[0] && s[2..] == t[1..];
      Beyond(n, x, j, t, inQuote, b, more);
    } else if Digit(n[k + 1]) {
      EscapeInside(n, k, t, x);
      ChaseOn(n, x, j, k, k + 4, t, inQuote, b, c, more);
    } else {
      assert s[1] == n[k + 1] && s[2..] == n[k + 2..] + t;
      ChaseOn(n, x, j, k, k + 2, t, inQuote, b, c, more);
    }
  }

  /** The digits of an escape are all inside the name, since a fence begins with none. */
  lemma EscapeInside(n: string, k: nat, t: string, x: char)
    requires k + 1 < |n| && Fence(t, x) && ThreeDigits((n[k..] + t)[1..])
    ensures k + 4 <= |n| && (n[k..] + t)[4..] == n[k + 4..] + t && (n[k..] + t)[1] == n[k + 1]
    ensures Digit(n[k + 1]) && Digit(n[k + 2]) && Digit(n[k + 3]) && !Digit(x)
  {
    var s := n[k..] + t;
    assert Digit(s[1]) && Digit(s[2]) && Digit(s[3]);
    var second, third := s[2], s[3];
  }

  /** Up to the first special character the text may keep up with the name. */
  lemma {:induction false} KeepUp(n: string, j: nat, k: nat, first: nat, t: string, b: seq<byte>)
    requires j <= k <= first < |n| && Fence(t, SPACE) && Emits(n[k..] + t, false, b)
    requires Special(n[first]) && forall p :: 0 <= p < first ==> !Special(n[p])
    ensures !DotThin(Text(b), n[j..])
    decreases |n| - k
  {
    hide Emits, DotThin, Fence, Scan, Text;
    var s := n[k..] + t;
    if n[k] == SLASH || n[k] == QUOTE {
      Chase(n, SPACE, j, k, t, false, b);
    } else if Blank(n[k]) {
      EmitEnd(s, false, b);
      NothingLeft(n, j);
    } else {
      assert s[1..] == n[k + 1..] + t;
      var more := EmitPlain(s, false, b);
      if DotThin(Text(b), n[j..]) {
        ThinStep(n[k] as int, more, n, j);
        if n[k] == DOT && DotThin(Text(more), n[j..]) {
          KeepUp(n, j, k + 1, first, t, more);
        } else {
          KeepUp(n, j + 1, k + 1, first, t, more);
        }
      }
    }
  }

  lemma {:induction false} SkipLead(n: string, t: string) returns (k: nat)
    ensures k <= |n| && forall p :: 0 <= p < k ==> Blank(n[p])
    ensures k < |n| ==> !Blank(n[k]) && SkipBlanks(n + t) == n[k..] + t
    ensures k == |n| ==> SkipBlanks(n + t) == SkipBlanks(t)
  {
    if n == "" {
      k := 0;
      assert n + t == t;
    } else if Blank(n[0]) {
      var m := SkipLead(n[1..], t);
      k := m + 1;
      assert (n + t)[1..] == n[1..] + t;
      assert m < |n[1..]| ==> n[1..][m..] == n[m + 1..];
    } else {
      k := 0;
      assert n[0..] + t == n + t;
    }
  }

  function FirstSpecial(n: string): (i: nat)
    requires exists p :: 0 <= p < |n| && Special(n[p])
    ensures i < |n| && Special(n[i]) && forall p :: 0 <= p < i ==> !Special(n[p])
  {
    if Special(n[0]) then 0
    else
      assert exists p :: 0 <= p < |n[1..]| && Special(n[1..][p]) by {
        var p :| 0 <= p < |n| && Special(n[p]);
        assert n[1..][p - 1] == n[p];
      }
      1 + FirstSpecial(n[1..])
  }

  /** A name with a blank, a quote or a backslash in it is not read back, whatever is
      printed behind it. */
  lemma SpecialLost(n: string, t: string, b: seq<byte>)
    requires exists p :: 0 <= p < |n| && Special(n[p])
    requires t == "" || (|t| >= 2 && t[0] == SPACE && 'a' <= t[1] <= 'z')
    requires Emits(SkipBlanks(n + t), false, b)
    ensures !DotThin(Text(b), n)
  {
    var k := SkipLead(n, t);
    hide Emits;
    assert n[0..] == n;
    if k == 0 {
      KeepUp(n, 0, 0, FirstSpecial(n), t, b);
    } else if k < |n| {
      Chase(n, if t == "" then 'a' else t[1], 0, k, t, false, b);
    } else if t == "" {
      EmitEnd("", false, b);
    } else {
      assert SkipBlanks(t) == SkipBlanks(t[1..]) == t[1..];
      var more := EmitPlain(t[1..], false, b);
      if DotThin(Text(b), n) {
        ThinStep(t[1] as int, more, n, 0);
      }
    }
  }

  // ---- the exact condition ----

  /** Encoded names are told apart by their first bytes. */
  lemma {:induction false} PrefixFree(a: WireLabels, b: WireLabels, x: seq<byte>, y: seq<byte>)
    requires Short(a) && Short(b) && Wire(a) + x == Wire(b) + y
    ensures a == b
    decreases |a|
  {
    hide Wire, Size;
    WireUnfold(a);
    WireUnfold(b);
    var s := Wire(a) + x;
    assert s[0] == Wire(a)[0] && s[0] == Wire(b)[0];
    if a != [] && b != [] {
      var m := |a[0]|;
      assert |b[0]| == m;
      CutFirst(a[0], Wire(a[1..]), x, s);
      CutFirst(b[0], Wire(b[1..]), y, s);
      PrefixFree(a[1..], b[1..], x, y);
      assert a == [a[0]] + a[1..] && b == [b[0]] + b[1..];
    }
  }

  lemma CutFirst(l: seq<byte>, rest: seq<byte>, x: seq<byte>, s: seq<byte>)
    requires |l| < 256 && s == [|l|] + l + rest + x
    ensures s[1..1 + |l|] == l && s[1 + |l|..] == rest + x
  {
  }

  /** Every byte of an ASCII label shows in the printed name. */
  lemma {:induction false} BytesShown(labels: WireLabels, i: nat, j: nat)
    requires i < |labels| && j < |labels[i]| && AsciiBytes(labels[i])
    ensures labels[i][j] as char in NameText(labels)
  {
    var texts := TextLabels(labels);
    LossyAscii(labels[i]);
    assert texts[i][j] == labels[i][j] as char;
    if i > 0 {
      BytesShown(labels[1..], i - 1, j);
      assert TextLabels(labels[1..]) == texts[1..];
      assert Join(texts, DOT) == texts[0] + [DOT] + Join(texts[1..], DOT);
    } else if |labels| > 1 {
      assert Join(texts, DOT) == texts[0] + [DOT] + Join(texts[1..], DOT);
      assert Join(texts, DOT)[j] == texts[0][j];
    }
  }

  /** A name read back as its own labels from a token that follows `n`'s text. */
  ghost predicate ReadBack(labels: WireLabels, tok: string)
    requires Short(labels)
  {
    TokenName(tok) == Some(Wire(labels))
  }

  /** A token that encodes to the labels was read from their printed form, dots aside. */
  lemma ReadBackText(labels: WireLabels, tok: string) returns (b: seq<byte>)
    requires Short(labels) && ReadBack(labels, tok)
    ensures Unescape(tok) == Some(b) && AsciiBytes(b) && DotThin(Text(b), NameText(labels))
    ensures Names.Plain(labels)
  {
    b := Unescape(tok).value;
    var text := Lossy(b);
    assert Encode(text).Ok?;
    LossyAscii(b);
    LabelsAscii(text);
    var back := RawLabels(Labels(text));
    assert Wire(back) + [] == Wire(labels) + [];
    PrefixFree(back, labels, [], []);
    ThinJoin(text);
    forall i | 0 <= i < |labels|
      ensures TextLabels(labels)[i] == Labels(text)[i] && AsciiBytes(labels[i]) && Names.Without(Text(labels[i]), DOT)
    {
      LossyRaw(Labels(text)[i]);
      TextRaw(Labels(text)[i], []);
    }
    assert TextLabels(labels) == Labels(text);
  }

  /** If the printed name, followed by `t`, is read back as the labels, they are clean. */
  lemma ReadBackClean(labels: WireLabels, t: string, tok: string)
    requires Short(labels) && ReadBack(labels, tok)
    requires t == "" || (|t| >= 2 && t[0] == SPACE && 'a' <= t[1] <= 'z')
    requires var s := Scan(SkipBlanks(NameText(labels) + t), false); s.Some? && s.value.token == tok
    ensures Clean(labels)
  {
    hide Scan, Unescape, TokenName, NameText, SkipBlanks;
    var n := NameText(labels);
    var b := ReadBackText(labels, tok);
    if p :| 0 <= p < |n| && Special(n[p]) {
      SpecialLost(n, t, b);
    }
    forall i, j | 0 <= i < |labels| && 0 <= j < |labels[i]|
      ensures CleanByte(labels[i][j])
    {
      assert AsciiBytes(labels[i]);
      BytesShown(labels, i, j);
      assert Text(labels[i])[j] != DOT;
    }
  }

  lemma {:induction false} ScanShrinks(s: string, inQuote: bool)
    requires Scan(s, inQuote).Some?
    ensures |Scan(s, inQuote).value.token| <= |s|
    decreases |s|
  {
    if s != "" {
      if s[0] == SLASH {
        if Digit(s[1]) {
          ScanShrinks(s[4..], inQuote);
        } else {
          ScanShrinks(s[2..], inQuote);
        }
      } else if s[0] == QUOTE {
        ScanShrinks(s[1..], !inQuote);
      } else if inQuote || !Blank(s[0]) {
        ScanShrinks(s[1..], inQuote);
      }
    }
  }

  lemma {:induction false} UnescapeShrinks(s: string)
    requires Unescape(s).Some? && AsciiBytes(Unescape(s).value)
    ensures |Unescape(s).value| <= |s|
  {
    if s != "" {
      if s[0] != SLASH {
        Utf8Ascii(s[0], Unescape(s[1..]).value);
        UnescapeShrinks(s[1..]);
      } else if Digit(s[1]) {
        var b := Unescape(s).value;
        assert forall i :: 0 <= i < |Unescape(s[4..]).value| ==> Unescape(s[4..]).value[i] == b[i + 1];
        UnescapeShrinks(s[4..]);
      } else {
        Utf8Ascii(s[1], Unescape(s[2..]).value);
        UnescapeShrinks(s[2..]);
      }
    }
  }

  /** A name that lost characters to trimming is not read back. */
  lemma TrimmedLost(labels: WireLabels, s: string, tok: string)
    requires Short(labels) && |s| < |NameText(labels)|
    requires var r := Scan(SkipBlanks(s), false); r.Some? && r.value.token == tok
    ensures !ReadBack(labels, tok)
  {
    if ReadBack(labels, tok) {
      hide Scan, Unescape, TokenName, NameText, SkipBlanks;
      var b := ReadBackText(labels, tok);
      ScanShrinks(SkipBlanks(s), false);
      UnescapeShrinks(tok);
      ThinLength(Text(b), NameText(labels));
    }
  }

  // ---- lines that end in a name, or have one in the middle ----

  lemma LineUnfold(words: seq<string>)
    requires words != []
    ensures Line(words) == if |words| == 1 then words[0] else words[0] + [SPACE] + Line(words[1..])
  {
  }

  lemma {:induction false} LineThen(words: seq<string>, toks: seq<string>, body: string)
    requires words != [] && |words| == |toks| && forall i :: 0 <= i < |words| ==> Word(words[i], toks[i])
    ensures Tokens(Line(words) + [SPACE] + body) == match Tokens(body) case None => None case Some(m) => Some(toks + m)
  {
    hide Word, Tokens, Line;
    var more := [SPACE] + body;
    LineUnfold(words);
    SpaceFirst(body);
    if |words| == 1 {
      TokenFirst(words[0], toks[0], more);
      assert words[0] + [SPACE] + body == words[0] + more;
      assert [toks[0]] == toks;
    } else {
      var rest := Line(words[1..]);
      LineThen(words[1..], toks[1..], body);
      SpaceFirst(rest + [SPACE] + body);
      TokenFirst(words[0], toks[0], [SPACE] + (rest + [SPACE] + body));
      assert Line(words) + [SPACE] + body == words[0] + ([SPACE] + (rest + [SPACE] + body));
      if Tokens(body).Some? {
        assert [toks[0]] + (toks[1..] + Tokens(body).value) == toks + Tokens(body).value;
      }
    }
  }

  lemma {:induction false} TrimEndAppend(a: string, n: string)
    requires Tight(a)
    ensures TrimEnd(a + [SPACE] + n) == if TrimEnd(n) == "" then a else a + [SPACE] + TrimEnd(n)
    ensures |TrimEnd(n)| <= |n| && TrimEnd(n) == n[..|TrimEnd(n)|] && TrimEnd(a) == a
  {
    var s := a + [SPACE] + n;
    if n == "" {
      assert s[..|s| - 1] == a;
    } else {
      var m := n[..|n| - 1];
      TrimEndAppend(a, m);
      assert s[..|s| - 1] == a + [SPACE] + m;
    }
  }

  /** Trimming a line only takes characters from its last word, and the blank before it
      if nothing is left of that. */
  lemma TrimLine(a: string, n: string)
    requires Tight(a)
    ensures Trim(a + [SPACE] + n) == if TrimEnd(n) == "" then a else a + [SPACE] + TrimEnd(n)
    ensures |TrimEnd(n)| <= |n| && TrimEnd(n) == n[..|TrimEnd(n)|]
  {
    TrimEndAppend(a, n);
    assert (a + [SPACE] + n)[0] == a[0];
  }

  lemma FirstToken(body: string)
    requires Tokens(body).Some? && Tokens(body).value != []
    ensures var r := Scan(SkipBlanks(body), false); r.Some? && r.value.token == Tokens(body).value[0]
  {
  }

  lemma {:induction false} LineJoin(words: seq<string>, more: seq<string>)
    requires words != [] && more != []
    ensures Line(words + more) == Line(words) + [SPACE] + Line(more)
  {
    if |words| > 1 {
      LineJoin(words[1..], more);
      assert (words + more)[1..] == words[1..] + more;
    } else {
      assert (words + more)[1..] == more;
    }
  }

  lemma ParamFirst(ip: IpText, key: u16, value: seq<byte>)
    requires Faithful(ip)
    ensures var t := Display(ip, key, value); t != "" && 'a' <= t[0] <= 'z'
  {
    hide Faithful, MandatoryText, AlpnText, HintText, Quoted, Decimal, Base64;
    if key <= 8 {
      NameShape(key);
    }
  }

  lemma NameOf(tok: string, name: seq<byte>, labels: WireLabels, x: seq<byte>, y: seq<byte>)
    requires TokenName(tok) == Some(name) && Short(labels) && name + x == Wire(labels) + y
    ensures ReadBack(labels, tok)
  {
    var text := FromUtf8(Unescape(tok).value).value;
    LabelsAscii(text);
    PrefixFree(RawLabels(Labels(text)), labels, x, y);
  }

  /** The last word of a line is a name: what is read back shows it was clean. */
  lemma LastName(labels: WireLabels, five: seq<string>, toks: seq<string>, all: seq<string>)
    requires Short(labels) && labels != [] && five != [] && |five| == |toks| < |all| && Tight(Line(five))
    requires forall i :: 0 <= i < |five| ==> Word(five[i], toks[i])
    requires Tokens(Trim(Line(five + [NameText(labels)]))) == Some(all) && ReadBack(labels, all[|toks|])
    ensures Clean(labels) && EndsWell(labels)
  {
    hide Tokens, Scan, TokenName, Word, Trim, TrimEnd, Unescape, NameText, SkipBlanks, Clean;
    var n := NameText(labels);
    var m := TrimEnd(n);
    LineJoin(five, [n]);
    OneWord(n);
    TrimLine(Line(five), n);
    if m == "" {
      LineTokens(five, toks);
    } else {
      LineThen(five, toks, m);
      var got := Tokens(m).value;
      assert all[|toks|] == got[0];
      FirstToken(m);
      if m != n {
        TrimmedLost(labels, m, got[0]);
      } else {
        assert n + "" == n;
        ReadBackClean(labels, "", got[0]);
        NotTrimmed(labels);
      }
    }
  }

  lemma NotTrimmed(labels: WireLabels)
    requires Short(labels) && TrimEnd(NameText(labels)) == NameText(labels)
    ensures EndsWell(labels)
  {
    LastByte(labels);
    TrimmedShort(NameText(labels));
  }

  lemma {:induction false} TrimmedShort(n: string)
    ensures |TrimEnd(n)| <= |n| && (n != "" && Space(n[|n| - 1]) ==> |TrimEnd(n)| < |n|)
  {
    if n != "" && Space(n[|n| - 1]) {
      TrimmedShort(n[..|n| - 1]);
    }
  }

  /** A name in front of parameters: what is read back shows it was clean. */
  lemma InnerName(ip: IpText, labels: WireLabels, d: string, params: seq<Param>, all: seq<string>)
    requires Faithful(ip) && Short(labels) && labels != [] && params != [] && Number(d) && |all| >= 2
    requires Tokens(Trim(Line([d, NameText(labels)] + ParamTexts(ip, params)))) == Some(all) && ReadBack(labels, all[1])
    ensures Clean(labels)
  {
    hide Tokens, Scan, TokenName, Word, Trim, Unescape, NameText, SkipBlanks, Clean, Display, Faithful, Space, Tight;
    var n, ps := NameText(labels), ParamTexts(ip, params);
    var t := [SPACE] + Line(ps);
    ParamFirst(ip, params[0].key, params[0].value);
    InnerTokens(ip, n, d, params);
    FirstToken(n + t);
    LineFirst(ps);
    ReadBackClean(labels, t, all[1]);
  }

  lemma InnerTokens(ip: IpText, n: string, d: string, params: seq<Param>)
    requires Faithful(ip) && params != [] && Number(d)
    ensures Tokens(Trim(Line([d, n] + ParamTexts(ip, params))))
         == match Tokens(n + ([SPACE] + Line(ParamTexts(ip, params)))) case None => None case Some(m) => Some([d] + m)
  {
    hide Tokens, Scan, Word, Trim, Display, Faithful, Space, Tight, Line, Piece, Show, TokenOf;
    var ps := ParamTexts(ip, params);
    ParamWords(ip, params);
    LineTight([d, n] + ps);
    TrimTight(Line([d, n] + ps));
    LineOfTwo(d, n, ps);
    LineThen([d], [d], n + ([SPACE] + Line(ps)));
    OneWord(d);
  }

  lemma LineOfTwo(d: string, n: string, ps: seq<string>)
    requires ps != []
    ensures Line([d, n] + ps) == d + [SPACE] + (n + ([SPACE] + Line(ps)))
  {
    hide Line;
    LineJoin([d, n], ps);
    LineJoin([d], [n]);
    OneWord(d);
    OneWord(n);
    assert [d] + [n] == [d, n];
  }

  lemma LineFirst(words: seq<string>)
    requires words != [] && words[0] != ""
    ensures Line(words) != "" && Line(words)[0] == words[0][0]
  {
  }

  /** What service record data shows is encoded to its own wire form exactly when the
      target's labels are clean and do not end in a character that gets trimmed. */
  lemma SvcbShownIff(ip: IpText, priority: u16, labels: WireLabels, params: seq<Param>)
    requires Faithful(ip) && Short(labels) && Size(labels) < MAX_NAME && ShortParams(params)
    ensures var value := Trim(AsDisplay(ip, SVCB(priority, NameText(labels), params)));
            (Tokens(value).Some? && EncodeSvcb(ip, Tokens(value).value) == Some(SvcbWire(priority, labels, params)))
            <==> Clean(labels) && (params == [] ==> EndsWell(labels))
  {
    hide Faithful, Tokens, Trim, NameText, Line, EncodeSvcb, SvcbWire, Clean, EndsWell, Short, Size, Wire, ShortParams,
         Decimal, Number;
    var value := Trim(AsDisplay(ip, SVCB(priority, NameText(labels), params)));
    if Clean(labels) && (params == [] ==> EndsWell(labels)) {
      SvcbShown(ip, priority, labels, params);
    } else if Tokens(value).Some? && EncodeSvcb(ip, Tokens(value).value) == Some(SvcbWire(priority, labels, params)) {
      var all, n := Tokens(value).value, NameText(labels);
      RootClean();
      LastByte(labels);
      SvcbReadBack(ip, priority, labels, params, all);
      NumberWord(priority);
      if params == [] {
        assert [Decimal(priority), n] + ParamTexts(ip, params) == [Decimal(priority)] + [n];
        OneNumber(priority);
        LastName(labels, [Decimal(priority)], [Decimal(priority)], all);
      } else {
        InnerName(ip, labels, Decimal(priority), params, all);
      }
    }
  }

  lemma RootClean()
    ensures Clean([]) && EndsWell([])
  {
  }

  lemma OneNumber(n: nat)
    ensures Tight(Line([Decimal(n)])) && Word(Decimal(n), Decimal(n))
  {
    DecimalWord(n);
    OneWord(Decimal(n));
  }

  lemma SvcbReadBack(ip: IpText, priority: u16, labels: WireLabels, params: seq<Param>, all: seq<string>)
    requires Short(labels) && ShortParams(params) && EncodeSvcb(ip, all) == Some(SvcbWire(priority, labels, params))
    ensures |all| >= 2 && ReadBack(labels, all[1])
  {
    hide TokenName, TokenU16, EncodeParams, Wire, ParamsWire;
    var p, name, rest := TokenU16(all[0]).value, TokenName(all[1]).value, EncodeParams(ip, all[2..]).value;
    var w := SvcbWire(priority, labels, params);
    assert w == Be16(p) + name + rest;
    assert w[2..] == name + rest && w[2..] == Wire(labels) + ParamsWire(params);
    NameOf(all[1], name, labels, rest, ParamsWire(params));
  }

  /** Uncompressed service record data comes back byte for byte exactly when its target
      is clean. */
  lemma SvcbRoundTripIff(ip: IpText, data: seq<byte>, pos: nat, rtype: u16, rdlen: nat)
    requires Faithful(ip) && (rtype == TYPE_SVCB || rtype == TYPE_HTTPS)
    requires ParseRData(data, pos, rtype, rdlen).Some?
    requires Short(Target(data, pos)) && Walk(data, pos + 2, 0, 0).Ok? ==>
             Uncompressed(data, pos + 2, Walk(data, pos + 2, 0, 0).value)
    ensures EncodeRData(ip, rtype, AsDisplay(ip, ParseRData(data, pos, rtype, rdlen).value))
            == Some(data[pos..pos + rdlen])
            <==> Clean(Target(data, pos)) && (Params(data, pos, rdlen) == [] ==> EndsWell(Target(data, pos)))
  {
    hide Faithful, Walk, ParseSvcb, Trim, Tokens, AsDisplay, EncodeSvcb, Clean, EndsWell, Uncompressed, Short,
         NameText, SvcbWire;
    SvcbBack(data, pos, rdlen);
    var r := ParseSvcb(data, pos, rdlen).value;
    SvcbShownIff(ip, r.priority, Target(data, pos), r.params);
  }

  /** The same for NAPTR data, where the name always comes last. */
  lemma NaptrShownIff(ip: IpText, order: u16, preference: u16, f: seq<byte>, s: seq<byte>, x: seq<byte>,
                      labels: WireLabels)
    requires |f| < 256 && |s| < 256 && |x| < 256 && Short(labels) && Size(labels) < MAX_NAME
    ensures var value := Trim(AsDisplay(ip, NAPTR(order, preference, f, s, x, NameText(labels))));
            (Tokens(value).Some? && EncodeNaptr(Tokens(value).value)
                == Some(NaptrWire(order, preference, f, s, x, labels)))
            <==> Clean(labels) && EndsWell(labels)
  {
    hide Tokens, Trim, NameText, Line, EncodeNaptr, NaptrWire, Clean, EndsWell, Short, Size, Decimal, Quoted, Escaped,
         Word, Tight, Number;
    var value := Trim(AsDisplay(ip, NAPTR(order, preference, f, s, x, NameText(labels))));
    if Clean(labels) && EndsWell(labels) {
      NaptrShown(ip, order, preference, f, s, x, labels);
    } else if Tokens(value).Some? && EncodeNaptr(Tokens(value).value)
        == Some(NaptrWire(order, preference, f, s, x, labels)) {
      var all := Tokens(value).value;
      var five := [Decimal(order), Decimal(preference), Quoted(f), Quoted(s), Quoted(x)];
      var toks := [Decimal(order), Decimal(preference), Escaped(f, false), Escaped(s, false), Escaped(x, false)];
      RootClean();
      LastByte(labels);
      FiveWords(order, preference, f, s, x);
      assert five + [NameText(labels)] == [Decimal(order), Decimal(preference), Quoted(f), Quoted(s), Quoted(x),
             NameText(labels)];
      FirstTokens(five, toks, NameText(labels), all);
      NaptrReadBack(order, preference, f, s, x, labels, all);
      LastName(labels, five, toks, all);
    }
  }

  lemma FirstTokens(words: seq<string>, toks: seq<string>, last: string, all: seq<string>)
    requires words != [] && |words| == |toks| && Tight(Line(words)) && forall i :: 0 <= i < |words| ==>
             Word(words[i], toks[i])
    requires Tokens(Trim(Line(words + [last]))) == Some(all)
    ensures |all| >= |toks| && all[..|toks|] == toks
  {
    hide Tokens, Word, Trim, TrimEnd, Tight;
    LineJoin(words, [last]);
    OneWord(last);
    TrimLine(Line(words), last);
    LineTokens(words, toks);
    LineThen(words, toks, TrimEnd(last));
  }

  lemma FiveWords(order: u16, preference: u16, f: seq<byte>, s: seq<byte>, x: seq<byte>)
    ensures var five := [Decimal(order), Decimal(preference), Quoted(f), Quoted(s), Quoted(x)];
            var toks := [Decimal(order), Decimal(preference), Escaped(f, false), Escaped(s, false), Escaped(x, false)];
            Tight(Line(five)) && forall i :: 0 <= i < |five| ==> Word(five[i], toks[i])
  {
    hide Word, Escaped, Quoted, Decimal, Space, Tight, Line;
    DecimalWord(order);
    DecimalWord(preference);
    QuotedWord(f);
    QuotedWord(s);
    QuotedWord(x);
    LineTight([Decimal(order), Decimal(preference), Quoted(f), Quoted(s), Quoted(x)]);
  }

  lemma NaptrReadBack(order: u16, preference: u16, f: seq<byte>, s: seq<byte>, x: seq<byte>, labels: WireLabels,
                      all: seq<string>)
    requires |f| < 256 && |s| < 256 && |x| < 256 && Short(labels)
    requires EncodeNaptr(all) == Some(NaptrWire(order, preference, f, s, x, labels))
    requires |all| >= 5 && all[..5] == [Decimal(order), Decimal(preference), Escaped(f, false), Escaped(s, false),
             Escaped(x, false)]
    ensures |all| == 6 && ReadBack(labels, all[5])
  {
    hide TokenName, TokenU16, EncodeCharStrings, Wire, CharBytes, Escaped, Be16, Decimal;
    CharStringsEncode(f, s, x);
    assert all[2..5] == all[..5][2..5];
    var strings := CharBytes(f) + CharBytes(s) + CharBytes(x);
    var o, p, name := TokenU16(all[0]).value, TokenU16(all[1]).value, TokenName(all[5]).value;
    SameTail(Be16(o), Be16(p), Be16(order), Be16(preference), strings, name, CharBytes(f), CharBytes(s), CharBytes(x),
        Wire(labels));
    assert name + [] == Wire(labels) + [];
    NameOf(all[5], name, labels, [], []);
  }

  lemma SameTail(a: seq<byte>, b: seq<byte>, c: seq<byte>, d: seq<byte>, strings: seq<byte>, x: seq<byte>,
                 f: seq<byte>, s: seq<byte>, r: seq<byte>, y: seq<byte>)
    requires |a| == |b| == |c| == |d| == 2 && strings == f + s + r
    requires a + b + strings + x == c + d + f + s + r + y
    ensures x == y
  {
    var w, n := a + b + strings + x, 4 + |strings|;
    assert w[n..] == x && (c + d + f + s + r + y)[n..] == y;
  }

  /** The labels of the replacement in NAPTR data. */
  function Replacement(data: seq<byte>, pos: nat): WireLabels
    requires pos + 4 <= |data|
  {
    match Walk(data, ReplacementAt(data, pos), 0, 0)
    case Ok(w) => w.labels
    case Err(_) => []
  }

  lemma NaptrRoundTripIff(ip: IpText, data: seq<byte>, pos: nat, rdlen: nat)
    requires ParseRData(data, pos, TYPE_NAPTR, rdlen).Some?
    requires var name := Walk(data, ReplacementAt(data, pos), 0, 0);
             name.Ok? && Short(name.value.labels) && Uncompressed(data, ReplacementAt(data, pos), name.value)
    ensures EncodeRData(ip, TYPE_NAPTR, AsDisplay(ip, ParseRData(data, pos, TYPE_NAPTR, rdlen).value))
            == Some(data[pos..pos + rdlen])
            <==> Clean(Replacement(data, pos)) && EndsWell(Replacement(data, pos))
  {
    hide Walk, ParseNaptr, NameText, Trim, Tokens, AsDisplay, EncodeNaptr, Clean, EndsWell, Wire, ReplacementAt,
         CharBytes, Num16, NaptrWire, Short;
    NaptrUnfold(data, pos, rdlen);
    var r, p := ParseNaptr(data, pos, rdlen).value, ReplacementAt(data, pos);
    WalkBounds(data, p, 0, 0);
    var labels := Replacement(data, pos);
    NaptrBytes(data, pos, p, pos + rdlen, r.order, r.preference, r.flags, r.services, r.regexp, labels);
    NaptrShownIff(ip, r.order, r.preference, r.flags, r.services, r.regexp, labels);
  }

  /** A target whose one label is a single blank is lost. */
  lemma BlankTargetLost(ip: IpText)
    requires Faithful(ip)
    ensures var data := [0, 1, 1, 32, 0];
            var r := ParseRData(data, 0, TYPE_HTTPS, 5);
            && r == Some(SVCB(1, " ", []))
            && EncodeRData(ip, TYPE_HTTPS, AsDisplay(ip, r.value)) != Some(data)
  {
    hide Walk, ParseSvcb, Trim, Tokens, AsDisplay, EncodeSvcb, NameText, SvcbWire, Clean, EndsWell;
    var data := [0, 1, 1, 32, 0];
    BlankLabel();
    assert [] + data + [] == data && data[0..5] == data;
    SvcbWireParsed([], 1, [[32]], [], []);
    SvcbShownIff(ip, 1, [[32]], []);
  }

  lemma BlankLabel()
    ensures var labels: WireLabels := [[32]];
            && Short(labels) && Size(labels) < MAX_NAME && NameText(labels) == " " && !Clean(labels)
            && SvcbWire(1, labels, []) == [0, 1, 1, 32, 0]
  {
    var labels: WireLabels := [[32]];
    assert labels[1..] == [];
    assert Wire(labels) == [1, 32, 0];
    LossyAscii(labels[0]);
    assert Text(labels[0])[0] == ' ' && Text(labels[0]) == " ";
    assert TextLabels(labels) == [Text(labels[0])];
    assert !CleanByte(labels[0][0]);
  }
}
