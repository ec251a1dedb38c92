/** Domain names on the wire: labels with length prefixes, and compression pointers. */
module Names {
  import opened Bytes
  import opened Unicode

  const MAX_LABEL: nat := 63
  const MAX_NAME: nat := 255
  const MAX_JUMPS: nat := 32

  // ---- dotted text ----

  const DOT: char := '.'

  /** The pieces between occurrences of `c`, empty ones included. */
  function Split(s: string, c: char): (parts: seq<string>)
    ensures |parts| >= 1
  {
    if s == "" then [""]
    else
      var rest := Split(s[1..], c);
      if s[0] == c then [""] + rest else [[s[0]] + rest[0]] + rest[1..]
  }

  function Join(parts: seq<string>, c: char): string {
    if parts == [] then ""
    else if |parts| == 1 then parts[0]
    else parts[0] + [c] + Join(parts[1..], c)
  }

  function NonEmpty(parts: seq<string>): seq<string> {
    if parts == [] then []
    else if parts[0] == "" then NonEmpty(parts[1..])
    else [parts[0]] + NonEmpty(parts[1..])
  }

  /** The labels of a dotted name. */
  function Labels(name: string): seq<string> {
    NonEmpty(Split(name, DOT))
  }

  function TrimDots(s: string): (r: string)
    ensures r == "" || r[|r| - 1] != DOT
  {
    if s != "" && s[|s| - 1] == DOT then TrimDots(s[..|s| - 1]) else s
  }

  predicate Without(s: string, c: char) {
    forall i :: 0 <= i < |s| ==> s[i] != c
  }

  /** The pieces when one more character comes in front. */
  function Prefixed(x: char, c: char, parts: seq<string>): seq<string>
    requires parts != []
  {
    if x == c then [""] + parts else [[x] + parts[0]] + parts[1..]
  }

  lemma {:induction false} SplitStep(s: string, c: char)
    ensures Split(s, c) == if s == "" then [""] else Prefixed(s[0], c, Split(s[1..], c))
  {
  }

  lemma {:induction false} SplitConcat(a: string, c: char, b: string)
    ensures Split(a + [c] + b, c) == Split(a, c) + Split(b, c)
  {
    hide Split, Prefixed;
    var s := a + [c] + b;
    SplitStep(s, c);
    SplitStep(a, c);
    if a == "" {
      assert s[1..] == b;
      PrefixedDot(c, Split(b, c));
    } else {
      SplitConcat(a[1..], c, b);
      assert s[1..] == a[1..] + [c] + b;
      PrefixedConcat(a[0], c, Split(a[1..], c), Split(b, c));
    }
  }

  lemma PrefixedDot(c: char, parts: seq<string>)
    requires parts != []
    ensures Prefixed(c, c, parts) == [""] + parts
  {
  }

  lemma PrefixedConcat(x: char, c: char, p: seq<string>, q: seq<string>)
    requires p != []
    ensures Prefixed(x, c, p + q) == Prefixed(x, c, p) + q
  {
    assert (p + q)[1..] == p[1..] + q;
  }

  lemma {:induction false} SplitPrefix(a: string, c: char, b: string)
    requires Without(a, c)
    ensures Split(a + [c] + b, c) == [a] + Split(b, c)
  {
    SplitConcat(a, c, b);
    SplitWhole(a, c);
  }

  lemma {:induction false} NonEmptyConcat(a: seq<string>, b: seq<string>)
    ensures NonEmpty(a + b) == NonEmpty(a) + NonEmpty(b)
  {
    hide NonEmpty;
    NonEmptyStep(a);
    if a == [] {
      assert a + b == b;
    } else {
      NonEmptyConcat(a[1..], b);
      NonEmptyStep(a + b);
      assert (a + b)[1..] == a[1..] + b;
      assert [a[0]] + NonEmpty(a[1..]) + NonEmpty(b) == [a[0]] + (NonEmpty(a[1..]) + NonEmpty(b));
    }
  }

  lemma NonEmptyStep(parts: seq<string>)
    ensures NonEmpty(parts) == if parts == [] then [] else if parts[0] == "" then NonEmpty(parts[1..])
                               else [parts[0]] + NonEmpty(parts[1..])
  {
  }

  lemma {:induction false} SplitWhole(a: string, c: char)
    requires Without(a, c)
    ensures Split(a, c) == [a]
  {
    if a != "" {
      SplitWhole(a[1..], c);
      assert a == [a[0]] + a[1..];
    }
  }

  lemma {:induction false} SplitJoin(parts: seq<string>, c: char)
    requires parts != [] && forall i :: 0 <= i < |parts| ==> Without(parts[i], c)
    ensures Split(Join(parts, c), c) == parts
  {
    if |parts| == 1 {
      SplitWhole(parts[0], c);
    } else {
      SplitJoin(parts[1..], c);
      SplitPrefix(parts[0], c, Join(parts[1..], c));
    }
  }

  lemma {:induction false} JoinSplit(s: string, c: char)
    ensures Join(Split(s, c), c) == s
    ensures forall i :: 0 <= i < |Split(s, c)| ==> Without(Split(s, c)[i], c)
  {
    hide Split;
    SplitStep(s, c);
    if s != "" {
      var rest := Split(s[1..], c);
      JoinSplit(s[1..], c);
      if s[0] == c {
        assert ([""] + rest)[1..] == rest;
      } else {
        var parts := [[s[0]] + rest[0]] + rest[1..];
        assert parts[1..] == rest[1..];
        assert Without(rest[0], c);
      }
      assert s == [s[0]] + s[1..];
    }
  }

  lemma {:induction false} SplitTrailing(s: string)
    ensures Split(s + [DOT], DOT) == Split(s, DOT) + [""]
  {
    SplitConcat(s, DOT, "");
    assert s + [DOT] + "" == s + [DOT];
  }

  lemma {:induction false} NonEmptyAppend(parts: seq<string>)
    ensures NonEmpty(parts + [""]) == NonEmpty(parts)
  {
    NonEmptyConcat(parts, [""]);
    assert NonEmpty([""]) == [] && NonEmpty(parts) + [] == NonEmpty(parts);
  }

  /** Trailing dots make no label. */
  lemma {:induction false} LabelsTrim(s: string)
    ensures Labels(TrimDots(s)) == Labels(s)
  {
    if s != "" && s[|s| - 1] == DOT {
      var t := s[..|s| - 1];
      LabelsTrim(t);
      SplitTrailing(t);
      NonEmptyAppend(Split(t, DOT));
      assert s == t + [DOT];
    }
  }

  lemma {:induction false} NonEmptyAll(parts: seq<string>)
    requires forall i :: 0 <= i < |parts| ==> parts[i] != ""
    ensures NonEmpty(parts) == parts
  {
    if parts != [] {
      NonEmptyAll(parts[1..]);
    }
  }

  lemma {:induction false} NonEmptyParts(parts: seq<string>)
    ensures forall p :: p in NonEmpty(parts) <==> p in parts && p != ""
  {
    if parts != [] {
      NonEmptyParts(parts[1..]);
    }
  }

  /** A name with no empty label is the join of its labels. */
  lemma LabelsOfPlain(name: string)
    requires "" !in Split(name, DOT)
    ensures Join(Labels(name), DOT) == name
  {
    JoinSplit(name, DOT);
    NonEmptyAll(Split(name, DOT));
  }

  lemma NoLabels()
    ensures Labels("") == []
  {
    var parts := Split("", DOT);
    assert parts == [""] && parts[1..] == [];
    assert NonEmpty(parts) == NonEmpty([]);
  }

  /** Labels without dots survive being joined. */
  lemma LabelsOfJoin(parts: seq<string>)
    requires forall i :: 0 <= i < |parts| ==> parts[i] != "" && Without(parts[i], DOT)
    ensures Labels(Join(parts, DOT)) == parts
  {
    if parts != [] {
      SplitJoin(parts, DOT);
      NonEmptyAll(parts);
    } else {
      NoLabels();
    }
  }

  // ---- wire form ----

  type WireLabels = seq<seq<byte>>

  /** Label sizes with their length bytes. */
  function Size(labels: WireLabels): nat {
    if labels == [] then 0 else 1 + |labels[0]| + Size(labels[1..])
  }

  predicate Short(labels: WireLabels) {
    forall i :: 0 <= i < |labels| ==> 1 <= |labels[i]| <= MAX_LABEL
  }

  /** Length-prefixed labels and the root byte. */
  function Wire(labels: WireLabels): (w: seq<byte>)
    requires Short(labels)
    ensures |w| == Size(labels) + 1
  {
    if labels == [] then [0] else [|labels[0]|] + labels[0] + Wire(labels[1..])
  }

  function RawLabels(labels: seq<string>): (r: WireLabels)
    requires forall i :: 0 <= i < |labels| ==> Ascii(labels[i])
    ensures |r| == |labels| && forall i :: 0 <= i < |r| ==> r[i] == Raw(labels[i])
  {
    seq(|labels|, i requires 0 <= i < |labels| => Raw(labels[i]))
  }

  function TextLabels(labels: WireLabels): (r: seq<string>)
    ensures |r| == |labels| && forall i :: 0 <= i < |r| ==> r[i] == Lossy(labels[i])
  {
    seq(|labels|, i requires 0 <= i < |labels| => Lossy(labels[i]))
  }

  function NameText(labels: WireLabels): string {
    Join(TextLabels(labels), DOT)
  }

  lemma {:induction false} SplitAscii(s: string)
    requires Ascii(s)
    ensures forall i :: 0 <= i < |Split(s, DOT)| ==> Ascii(Split(s, DOT)[i])
  {
    if s != "" {
      SplitAscii(s[1..]);
    }
  }

  lemma LabelsAscii(name: string)
    requires Ascii(name)
    ensures forall i :: 0 <= i < |Labels(name)| ==>
              Ascii(Labels(name)[i]) && Labels(name)[i] != "" && Without(Labels(name)[i], DOT)
  {
    SplitAscii(name);
    JoinSplit(name, DOT);
    NonEmptyParts(Split(name, DOT));
    forall i | 0 <= i < |Labels(name)|
      ensures Ascii(Labels(name)[i]) && Labels(name)[i] != "" && Without(Labels(name)[i], DOT)
    {
      assert Labels(name)[i] in Split(name, DOT);
    }
  }

  /** The wire form of an ASCII name, if its labels and its whole fit the limits. */
  function Encode(name: string): Result<seq<byte>> {
    if !Ascii(name) then Err(InvalidName)
    else
      LabelsAscii(name);
      var labels := RawLabels(Labels(name));
      if Short(labels) && Size(labels) + 1 <= MAX_NAME then Ok(Wire(labels)) else Err(InvalidName)
  }

  lemma {:induction false} WireSnoc(labels: WireLabels, l: seq<byte>)
    requires Short(labels) && 1 <= |l| <= MAX_LABEL
    ensures Wire(labels + [l]) == Wire(labels)[..Size(labels)] + [|l|] + l + [0]
    ensures Size(labels + [l]) == Size(labels) + 1 + |l|
  {
    hide Wire, Size;
    var more := labels + [l];
    WireUnfold(labels);
    WireUnfold(more);
    if labels == [] {
      assert more[1..] == [];
      WireUnfold([]);
    } else {
      WireSnoc(labels[1..], l);
      assert more[1..] == labels[1..] + [l];
    }
  }

  method EncodeName(name: string) returns (r: Result<seq<byte>>)
    ensures r == Encode(name)
  {
    LabelsTrim(name);
    var trimmed := TrimDots(name);
    TrimAscii(name);
    if trimmed == "" {
      return Ok([0]);
    }
    if !Ascii(trimmed) {
      return Err(InvalidName);
    }
    var parts := Split(trimmed, DOT);
    SplitAscii(trimmed);
    LabelsAscii(name);
    PiecesAre(parts);
    r := EncodeParts(parts);
  }

  predicate AllAscii(parts: seq<string>) {
    forall i :: 0 <= i < |parts| ==> Ascii(parts[i])
  }

  /** The labels of pieces, as bytes. */
  function Pieces(parts: seq<string>): (r: WireLabels)
    requires AllAscii(parts)
  {
    if parts == [] then []
    else if parts[0] == "" then Pieces(parts[1..])
    else [Raw(parts[0])] + Pieces(parts[1..])
  }

  lemma {:induction false} PiecesAre(parts: seq<string>)
    requires AllAscii(parts)
    ensures AllAscii(NonEmpty(parts)) && Pieces(parts) == RawLabels(NonEmpty(parts))
  {
    if parts != [] {
      PiecesAre(parts[1..]);
    }
  }

  lemma {:induction false} PiecesStep(parts: seq<string>)
    requires AllAscii(parts)
    ensures Pieces(parts) == if parts == [] then []
                             else (if parts[0] == "" then [] else [Raw(parts[0])]) + Pieces(parts[1..])
  {
  }

  method EncodeParts(parts: seq<string>) returns (r: Result<seq<byte>>)
    requires AllAscii(parts)
    ensures var labels := Pieces(parts);
            r == if Short(labels) && Size(labels) + 1 <= MAX_NAME then Ok(Wire(labels)) else Err(InvalidName)
  {
    hide Pieces, Wire, Size, Raw;
    ghost var all := Pieces(parts);
    WireUnfold([]);
    var out: seq<byte> := [];
    ghost var done: WireLabels := [];
    var i := 0;
    while i < |parts|
      invariant 0 <= i <= |parts|
      invariant Short(done) && out + [0] == Wire(done)
      invariant all == done + Pieces(parts[i..])
    {
      PiecesStep(parts[i..]);
      assert parts[i..][1..] == parts[i + 1..];
      if parts[i] != "" {
        var l := Raw(parts[i]);
        assert all[|done|] == l;
        if |l| > MAX_LABEL {
          return Err(InvalidName);
        }
        WireSnoc(done, l);
        assert done + ([l] + Pieces(parts[i + 1..])) == done + [l] + Pieces(parts[i + 1..]);
        out := out + [|l|] + l;
        done := done + [l];
      }
      i := i + 1;
    }
    PiecesStep(parts[i..]);
    assert parts[i..] == [] && done + [] == done;
    out := out + [0];
    if |out| > MAX_NAME {
      return Err(InvalidName);
    }
    r := Ok(out);
  }

  lemma {:induction false} TrimAscii(s: string)
    ensures Ascii(TrimDots(s)) <==> Ascii(s)
    ensures TrimDots(s) == "" ==> Labels(s) == []
  {
    NoLabels();
    if s != "" && s[|s| - 1] == DOT {
      TrimAscii(s[..|s| - 1]);
      LabelsTrim(s);
    }
  }

  // ---- decoding ----

  datatype Walked = Walked(labels: WireLabels, end: nat)

  /** The labels found from `pos` on, after `jumps` jumps and `size` label bytes, and
      the position where the name ends in the message. */
  function Walk(data: seq<byte>, pos: nat, jumps: nat, size: nat): Result<Walked>
    requires jumps <= MAX_JUMPS
    decreases MAX_JUMPS - jumps, |data| - pos
  {
    if pos >= |data| then Err(Truncated)
    else
      var length: nat := data[pos];
      if length == 0 then Ok(Walked([], pos + 1))
      else if 64 <= length < 192 then Err(InvalidName)
      else if length >= 192 then
        if pos + 1 >= |data| then Err(Truncated)
        else if jumps + 1 > MAX_JUMPS then Err(InvalidName)
        else
          var ptr := (length - 192) * 256 + data[pos + 1];
          if ptr >= pos then Err(InvalidName)
          else
            match Walk(data, ptr, jumps + 1, size)
            case Err(e) => Err(e)
            case Ok(w) => Ok(Walked(w.labels, pos + 2))
      else if pos + 1 + length > |data| then Err(Truncated)
      else if size + 1 + length >= MAX_NAME then Err(InvalidName)
      else
        match Walk(data, pos + 1 + length, jumps, size + 1 + length)
        case Err(e) => Err(e)
        case Ok(w) => Ok(Walked([data[pos + 1..pos + 1 + length]] + w.labels, w.end))
  }

  datatype Decoded = Decoded(name: string, end: nat)

  function Decode(data: seq<byte>, offset: nat): Result<Decoded> {
    match Walk(data, offset, 0, 0)
    case Err(e) => Err(e)
    case Ok(w) => Ok(Decoded(NameText(w.labels), w.end))
  }

  /** What is decoded so far, and the walk still ahead. */
  ghost predicate OnTrack(data: seq<byte>, offset: nat, done: WireLabels, jumped: bool, end: nat, pos: nat, jumps: nat,
                          size: nat)
    requires jumps <= MAX_JUMPS
  {
    var whole, rest := Walk(data, offset, 0, 0), Walk(data, pos, jumps, size);
    if rest.Err? then whole == Err(rest.error)
    else whole == Ok(Walked(done + rest.value.labels, if jumped then end else rest.value.end))
  }

  lemma {:induction false} JoinSnoc(parts: seq<string>, p: string)
    ensures Join(parts + [p], DOT) == if parts == [] then p else Join(parts, DOT) + [DOT] + p
  {
    if |parts| > 1 {
      JoinSnoc(parts[1..], p);
      assert (parts + [p])[1..] == parts[1..] + [p];
    } else if |parts| == 1 {
      assert (parts + [p])[1..] == [p];
    }
  }

  /** The decoding loop: each round either jumps, of which there are at most 32, or
      moves on in the message. */
  method DecodeName(data: seq<byte>, offset: nat) returns (r: Result<Decoded>)
    ensures r == Decode(data, offset)
  {
    hide NameText, OnTrack, Walk, Lossy, Decode;
    var name: string := "";
    var first, jumped := true, false;
    var end: nat, pos: nat, jumps: nat, size: nat := offset, offset, 0, 0;
    ghost var done: WireLabels := [];
    StartOnTrack(data, offset);
    while true
      invariant jumps <= MAX_JUMPS
      invariant OnTrack(data, offset, done, jumped, end, pos, jumps, size)
      invariant name == NameText(done) && first == (done == [])
      decreases MAX_JUMPS - jumps, |data| - pos
    {
      TrackStop(data, offset, done, jumped, end, pos, jumps, size);
      if pos >= |data| {
        return Err(Truncated);
      }
      var length: nat := data[pos];
      if length == 0 {
        if !jumped {
          end := pos + 1;
        }
        return Ok(Decoded(name, end));
      }
      if 64 <= length < 192 {
        return Err(InvalidName);
      }
      if length >= 192 {
        if pos + 1 >= |data| {
          return Err(Truncated);
        }
        jumps := jumps + 1;
        if jumps > MAX_JUMPS {
          return Err(InvalidName);
        }
        var ptr := (length - 192) * 256 + data[pos + 1];
        if ptr >= pos {
          return Err(InvalidName);
        }
        TrackJump(data, offset, done, jumped, end, pos, jumps - 1, size, ptr);
        if !jumped {
          end := pos + 2;
          jumped := true;
        }
        pos := ptr;
        continue;
      }
      pos := pos + 1;
      if pos + length > |data| {
        return Err(Truncated);
      }
      var raw := data[pos..pos + length];
      NameSnoc(done, raw);
      TrackLabel(data, offset, done, jumped, end, pos - 1, jumps, size, raw);
      if !first {
        name := name + [DOT];
      }
      name := name + Lossy(raw);
      first := false;
      size := size + 1 + length;
      if size >= MAX_NAME {
        return Err(InvalidName);
      }
      done := done + [raw];
      pos := pos + length;
    }
  }

  lemma StartOnTrack(data: seq<byte>, offset: nat)
    ensures OnTrack(data, offset, [], false, offset, offset, 0, 0)
    ensures NameText([]) == ""
  {
    var whole := Walk(data, offset, 0, 0);
    assert whole.Ok? ==> [] + whole.value.labels == whole.value.labels;
  }

  lemma NameSnoc(done: WireLabels, raw: seq<byte>)
    ensures NameText(done + [raw]) == (if done == [] then Lossy(raw) else NameText(done) + [DOT] + Lossy(raw))
  {
    JoinSnoc(TextLabels(done), Lossy(raw));
    assert TextLabels(done + [raw]) == TextLabels(done) + [Lossy(raw)];
  }

  /** Where the walk ahead stops at once, it decides what is decoded. */
  lemma TrackStop(data: seq<byte>, offset: nat, done: WireLabels, jumped: bool, end: nat, pos: nat, jumps: nat,
                  size: nat)
    requires jumps <= MAX_JUMPS && OnTrack(data, offset, done, jumped, end, pos, jumps, size)
    ensures var whole := Decode(data, offset);
            if pos >= |data| then whole == Err(Truncated)
            else
              var n := data[pos];
              if n == 0 then whole == Ok(Decoded(NameText(done), if jumped then end else pos + 1))
              else if 64 <= n < 192 then whole == Err(InvalidName)
              else if n >= 192 then
                if pos + 1 >= |data| then whole == Err(Truncated)
                else jumps + 1 > MAX_JUMPS || (n - 192) * 256 + data[pos + 1] >= pos ==> whole == Err(InvalidName)
              else if pos + 1 + n > |data| then whole == Err(Truncated)
              else size + 1 + n >= MAX_NAME ==> whole == Err(InvalidName)
  {
    hide NameText;
    assert done + [] == done;
  }

  /** A pointer goes on at its target. */
  lemma TrackJump(data: seq<byte>, offset: nat, done: WireLabels, jumped: bool, end: nat, pos: nat, jumps: nat,
                  size: nat, ptr: nat)
    requires jumps < MAX_JUMPS && OnTrack(data, offset, done, jumped, end, pos, jumps, size)
    requires pos + 1 < |data| && data[pos] >= 192 && ptr == (data[pos] as int - 192) * 256 + data[pos + 1] && ptr < pos
    ensures OnTrack(data, offset, done, true, if jumped then end else pos + 2, ptr, jumps + 1, size)
  {
  }

  /** A label that fits goes on behind itself. */
  lemma TrackLabel(data: seq<byte>, offset: nat, done: WireLabels, jumped: bool, end: nat, pos: nat, jumps: nat,
                   size: nat, raw: seq<byte>)
    requires jumps <= MAX_JUMPS && OnTrack(data, offset, done, jumped, end, pos, jumps, size) && pos < |data|
    requires 1 <= data[pos] < 64 && pos + 1 + data[pos] <= |data| && raw == data[pos + 1..pos + 1 + data[pos]]
    ensures size + 1 + |raw| < MAX_NAME ==>
              OnTrack(data, offset, done + [raw], jumped, end, pos + 1 + |raw|, jumps, size + 1 + |raw|)
  {
    var n := data[pos];
    if size + 1 + n < MAX_NAME {
      var rest := Walk(data, pos + 1 + n, jumps, size + 1 + n);
      if rest.Ok? {
        assert done + ([raw] + rest.value.labels) == done + [raw] + rest.value.labels;
      }
    }
  }

  // ---- properties ----

  /** A decoded name ends inside the message, past where it starts; its labels respect
      the limits of the encoder. */
  lemma {:induction false} WalkBounds(data: seq<byte>, pos: nat, jumps: nat, size: nat)
    requires jumps <= MAX_JUMPS && size < MAX_NAME
    ensures var r := Walk(data, pos, jumps, size);
            r.Ok? ==>
              && pos < r.value.end <= |data| && Short(r.value.labels) && size + Size(r.value.labels) < 255
              && forall i :: 0 <= i < |r.value.labels| ==> 1 <= |r.value.labels[i]| <= 63
    decreases MAX_JUMPS - jumps, |data| - pos
  {
    hide Walk, Size;
    WalkEdges(data, pos, jumps, size);
    if pos < |data| {
      var n: nat := data[pos];
      if n >= 192 && pos + 1 < |data| && jumps < MAX_JUMPS && (n - 192) * 256 + data[pos + 1] < pos {
        WalkJump(data, pos, jumps, size);
        WalkBounds(data, (n - 192) * 256 + data[pos + 1], jumps + 1, size);
      } else if 1 <= n < 64 && pos + 1 + n <= |data| && size + 1 + n < MAX_NAME {
        WalkLabel(data, pos, jumps, size);
        WalkBounds(data, pos + 1 + n, jumps, size + 1 + n);
        var rest := Walk(data, pos + 1 + n, jumps, size + 1 + n);
        if rest.Ok? {
          SizeJoin(data[pos + 1..pos + 1 + n], rest.value.labels);
        }
      }
    }
  }

  lemma SizeJoin(first: seq<byte>, rest: WireLabels)
    ensures Size([first] + rest) == 1 + |first| + Size(rest)
    ensures Size([]) == 0
  {
    assert ([first] + rest)[1..] == rest;
  }

  /** Where the walk goes on at the target of a pointer. */
  lemma WalkJump(data: seq<byte>, pos: nat, jumps: nat, size: nat)
    requires pos + 1 < |data| && data[pos] >= 192 && jumps < MAX_JUMPS
    requires (data[pos] as int - 192) * 256 + data[pos + 1] < pos
    ensures Walk(data, pos, jumps, size) ==
            match Walk(data, (data[pos] as int - 192) * 256 + data[pos + 1], jumps + 1, size)
            case Err(e) => Err(e)
            case Ok(w) => Ok(Walked(w.labels, pos + 2))
  {
  }

  /** Where the walk ends at once: at the root byte, or refused. */
  lemma WalkEdges(data: seq<byte>, pos: nat, jumps: nat, size: nat)
    requires jumps <= MAX_JUMPS && size < MAX_NAME
    ensures var r := Walk(data, pos, jumps, size);
            if pos < |data| && data[pos] == 0 then r == Ok(Walked([], pos + 1)) && Size([]) == 0
            else if pos < |data| && data[pos] >= 192 then
              r.Ok? ==> pos + 1 < |data| && jumps < MAX_JUMPS && (data[pos] as int - 192) * 256 + data[pos + 1] < pos
            else
              r.Ok? ==>
                && pos < |data| && data[pos] < 64 && pos + 1 + data[pos] <= |data|
                && size + 1 + data[pos] < MAX_NAME
  {
  }

  /** Uncompressed labels in any message decode, exactly when they fit the limit. */
  lemma {:induction false} WalkWire(pre: seq<byte>, labels: WireLabels, post: seq<byte>, jumps: nat, size: nat)
    requires Short(labels) && jumps <= MAX_JUMPS && size < MAX_NAME
    ensures Walk(pre + Wire(labels) + post, |pre|, jumps, size)
         == if size + Size(labels) < MAX_NAME then Ok(Walked(labels, |pre| + |Wire(labels)|)) else Err(InvalidName)
    decreases |labels|
  {
    hide Walk, Wire, Size;
    WireUnfold(labels);
    var data := pre + Wire(labels) + post;
    if labels != [] {
      var l, rest := labels[0], labels[1..];
      var n := |l|;
      assert data == (pre + [n] + l) + Wire(rest) + post;
      assert data[|pre|] == n && data[|pre| + 1..|pre| + 1 + n] == l;
      WalkLabel(data, |pre|, jumps, size);
      if size + 1 + n < MAX_NAME {
        WalkWire(pre + [n] + l, rest, post, jumps, size + 1 + n);
        assert [l] + rest == labels;
      }
    } else {
      assert data[|pre|] == 0;
      WalkLabel(data, |pre|, jumps, size);
    }
  }

  lemma WireUnfold(labels: WireLabels)
    requires Short(labels)
    ensures labels == [] ==> Wire(labels) == [0] && Size(labels) == 0
    ensures labels != [] ==>
              && Wire(labels) == [|labels[0]|] + labels[0] + Wire(labels[1..])
              && Size(labels) == 1 + |labels[0]| + Size(labels[1..])
  {
  }

  lemma WalkLabel(data: seq<byte>, pos: nat, jumps: nat, size: nat)
    requires jumps <= MAX_JUMPS && pos < |data| && data[pos] < 64 && pos + 1 + data[pos] <= |data|
    ensures var n := data[pos];
            Walk(data, pos, jumps, size) ==
            if n == 0 then Ok(Walked([], pos + 1))
            else if size + 1 + n >= MAX_NAME then Err(InvalidName)
            else
              match Walk(data, pos + 1 + n, jumps, size + 1 + n)
              case Err(e) => Err(e)
              case Ok(w) => Ok(Walked([data[pos + 1..pos + 1 + n]] + w.labels, w.end))
  {
  }

  /** The labels spelled from `pos` on, over `jumps` pointers, each to a place before its own.
      There is no limit on either. */
  ghost predicate Spells(data: seq<byte>, pos: nat, labels: WireLabels, jumps: nat)
    decreases jumps, |labels|
  {
    && pos < |data|
    && var n: nat := data[pos];
       if n == 0 then labels == [] && jumps == 0
       else if n < 64 then
         && labels != [] && pos + 1 + n <= |data| && labels[0] == data[pos + 1..pos + 1 + n]
         && Spells(data, pos + 1 + n, labels[1..], jumps)
       else
         && n >= 192 && pos + 1 < |data| && jumps > 0
         && var target := (n - 192) * 256 + data[pos + 1]; target < pos && Spells(data, target, labels, jumps - 1)
  }

  /** The place behind a name: behind its root byte, or behind its first pointer. */
  function NameEnd(data: seq<byte>, pos: nat): nat
    decreases |data| - pos
  {
    if pos >= |data| then pos
    else if data[pos] == 0 then pos + 1
    else if data[pos] >= 192 then pos + 2
    else NameEnd(data, pos + 1 + data[pos])
  }

  lemma {:induction false} SpelledWalks(data: seq<byte>, pos: nat, labels: WireLabels, k: nat, jumps: nat, size: nat)
    requires Spells(data, pos, labels, k) && jumps + k <= 32 && size + Size(labels) < 255
    ensures Walk(data, pos, jumps, size) == Ok(Walked(labels, NameEnd(data, pos)))
    decreases k, |labels|
  {
    var n: nat := data[pos];
    if n != 0 {
      if n < 64 {
        assert labels == [labels[0]] + labels[1..];
        SpelledWalks(data, pos + 1 + n, labels[1..], k, jumps, size + 1 + n);
      } else {
        SpelledWalks(data, (n - 192) * 256 + data[pos + 1], labels, k - 1, jumps + 1, size);
      }
    }
  }

  lemma {:induction false} WalkSpells(data: seq<byte>, pos: nat, jumps: nat, size: nat) returns (k: nat)
    requires jumps <= MAX_JUMPS && size < 255 && Walk(data, pos, jumps, size).Ok?
    ensures var w := Walk(data, pos, jumps, size).value;
            && jumps + k <= 32 && Spells(data, pos, w.labels, k) && size + Size(w.labels) < 255
            && w.end == NameEnd(data, pos)
    decreases MAX_JUMPS - jumps, |data| - pos
  {
    hide Walk, Size;
    WalkEdges(data, pos, jumps, size);
    var n: nat := data[pos];
    if n == 0 {
      k := 0;
    } else if n < 64 {
      WalkLabel(data, pos, jumps, size);
      k := WalkSpells(data, pos + 1 + n, jumps, size + 1 + n);
      var l, rest := data[pos + 1..pos + 1 + n], Walk(data, pos + 1 + n, jumps, size + 1 + n).value.labels;
      SizeJoin(l, rest);
      assert ([l] + rest)[1..] == rest;
    } else {
      WalkJump(data, pos, jumps, size);
      var j := WalkSpells(data, (n - 192) * 256 + data[pos + 1], jumps + 1, size);
      k := j + 1;
    }
  }

  /** A name decodes exactly when it is spelled out over at most 32 pointers, in less than 255
      bytes of labels and their lengths. */
  lemma WalkIff(data: seq<byte>, pos: nat, labels: WireLabels, end: nat)
    ensures Walk(data, pos, 0, 0) == Ok(Walked(labels, end)) <==>
              && (exists k: nat :: k <= 32 && Spells(data, pos, labels, k)) && Size(labels) < 255
              && end == NameEnd(data, pos)
  {
    hide Walk, Spells, NameEnd, Size;
    if Walk(data, pos, 0, 0) == Ok(Walked(labels, end)) {
      var k := WalkSpells(data, pos, 0, 0);
      assert k <= 32 && Spells(data, pos, labels, k);
    }
    if (exists k: nat :: k <= 32 && Spells(data, pos, labels, k)) && Size(labels) < 255 {
      var k: nat :| k <= 32 && Spells(data, pos, labels, k);
      SpelledWalks(data, pos, labels, k, 0, 0);
      assert Walk(data, pos, 0, 0) == Ok(Walked(labels, end)) ==> end == NameEnd(data, pos);
      assert exists k: nat :: k <= 32 && Spells(data, pos, labels, k);
    }
  }

  /** A name encodes exactly when it is ASCII, its labels have at most 63 bytes each, and they
      make at most 255 bytes together with their lengths and the root. */
  lemma EncodeIff(name: string)
    ensures Encode(name).Ok? <==>
              && Ascii(name) && (forall l :: l in Labels(name) ==> |l| <= 63)
              && TextSize(Labels(name)) + 1 <= 255
    ensures !Encode(name).Ok? ==> Encode(name) == Err(InvalidName)
  {
    if Ascii(name) {
      LabelsAscii(name);
      var labels := RawLabels(Labels(name));
      RawSize(Labels(name));
      if Short(labels) {
        forall l | l in Labels(name)
          ensures |l| <= 63
        {
          var i :| 0 <= i < |Labels(name)| && Labels(name)[i] == l;
          assert |labels[i]| == |l|;
        }
      }
      if forall l :: l in Labels(name) ==> |l| <= 63 {
        forall i | 0 <= i < |labels|
          ensures 1 <= |labels[i]| <= 63
        {
          assert Labels(name)[i] in Labels(name);
        }
      }
    }
  }

  function TextSize(labels: seq<string>): nat {
    if labels == [] then 0 else 1 + |labels[0]| + TextSize(labels[1..])
  }

  lemma {:induction false} RawSize(labels: seq<string>)
    requires forall i :: 0 <= i < |labels| ==> Ascii(labels[i])
    ensures Size(RawLabels(labels)) == TextSize(labels)
  {
    if labels != [] {
      RawSize(labels[1..]);
      assert RawLabels(labels)[1..] == RawLabels(labels[1..]);
    }
  }

  /** The encoder's length limit is the decoder's. */
  lemma LimitsCoincide(pre: seq<byte>, labels: WireLabels, post: seq<byte>)
    requires Short(labels)
    ensures Decode(pre + Wire(labels) + post, |pre|).Ok? <==> |Wire(labels)| <= 255
  {
    WalkWire(pre, labels, post, 0, 0);
  }

  /** Decoding an encoded name, wherever it stands in a message, gives the name without
      its trailing dots and empty labels, and the position just behind it. */
  lemma DecodeEncoded(pre: seq<byte>, name: string, post: seq<byte>)
    requires Encode(name).Ok?
    ensures var w := Encode(name).value;
            Decode(pre + w + post, |pre|) == Ok(Decoded(Join(Labels(name), DOT), |pre| + |w|))
  {
    LabelsAscii(name);
    var labels := RawLabels(Labels(name));
    WalkWire(pre, labels, post, 0, 0);
    forall i | 0 <= i < |labels|
      ensures TextLabels(labels)[i] == Labels(name)[i]
    {
      LossyRaw(Labels(name)[i]);
    }
    assert TextLabels(labels) == Labels(name);
  }

  /** Labels that a dotted text can carry. */
  ghost predicate Plain(labels: WireLabels) {
    forall i :: 0 <= i < |labels| ==> AsciiBytes(labels[i]) && Without(Text(labels[i]), DOT)
  }

  /** Encoding a decoded name gives its labels back, uncompressed. */
  lemma EncodeLabels(labels: WireLabels)
    requires Short(labels) && Size(labels) < MAX_NAME && Plain(labels)
    ensures Encode(NameText(labels)) == Ok(Wire(labels))
  {
    var texts := TextLabels(labels);
    forall i | 0 <= i < |texts|
      ensures Ascii(texts[i]) && Raw(texts[i]) == labels[i] && texts[i] != "" && Without(texts[i], DOT)
    {
      LossyAscii(labels[i]);
      TextRaw("", labels[i]);
      assert |texts[i]| == |labels[i]|;
    }
    LabelsOfJoin(texts);
    JoinAscii(texts);
    assert RawLabels(texts) == labels;
  }

  lemma {:induction false} JoinAscii(parts: seq<string>)
    requires forall i :: 0 <= i < |parts| ==> Ascii(parts[i])
    ensures Ascii(Join(parts, DOT))
  {
    if |parts| > 1 {
      JoinAscii(parts[1..]);
    }
  }

  /** Decode, then encode: the same labels, and the same bytes if none were compressed. */
  lemma EncodeDecoded(data: seq<byte>, offset: nat)
    requires Walk(data, offset, 0, 0).Ok? && Plain(Walk(data, offset, 0, 0).value.labels)
    ensures var labels := Walk(data, offset, 0, 0).value.labels;
            && Short(labels) && Decode(data, offset).Ok?
            && Encode(Decode(data, offset).value.name) == Ok(Wire(labels))
  {
    WalkBounds(data, offset, 0, 0);
    EncodeLabels(Walk(data, offset, 0, 0).value.labels);
  }

  /** Anywhere in any message, a label in front of a pointer back to it goes round until
      the jumps, or the bytes of the name, run out. */
  lemma {:induction false} LoopEnds(data: seq<byte>, pos: nat, jumps: nat, size: nat)
    requires jumps <= MAX_JUMPS && pos < |data| && 1 <= data[pos] < 64
    requires var q := pos + 1 + data[pos];
             q + 1 < |data| && var high: nat := data[q]; high >= 192 && (high - 192) * 256 + data[q + 1] == pos
    ensures Walk(data, pos, jumps, size) == Err(InvalidName)
    decreases MAX_JUMPS - jumps
  {
    if jumps < MAX_JUMPS && size + 1 + data[pos] < MAX_NAME {
      LoopEnds(data, pos, jumps + 1, size + 1 + data[pos]);
    }
  }
}
