/** Assembling UDP responses within the size the client can take. */
module Responses {
  import opened Wrappers
  import opened Bytes
  import opened Names
  import opened SvcParams
  import opened RecordData
  import opened Messages
  import opened Edns

  const MAX_ANSWERS: nat := 8
  const TTL_DEFAULT: u32 := 300
  const TTL_MAX: u32 := 2147483647

  // ---- header flags ----

  /** Keeps the opcode, RD and CD bits; sets QR, RA and the response code; TC on demand. */
  function ResponseFlags(flags: u16, rcode: byte, truncated: bool): u16 {
    0x8080 + flags / 0x800 % 16 * 0x800 + flags / 0x100 % 2 * 0x100 + flags / 0x10 % 2 * 0x10
    + rcode % 16 + if truncated then 0x200 else 0
  }

  /** Each kept field is the query's; the others are as the response sets them. */
  lemma FlagFields(flags: u16, rcode: byte, truncated: bool)
    ensures var f := ResponseFlags(flags, rcode, truncated);
            && f / 0x8000 == 1 && f / 0x80 % 2 == 1
            && f / 0x800 % 16 == flags / 0x800 % 16 && f / 0x100 % 2 == flags / 0x100 % 2
               && f / 0x10 % 2 == flags / 0x10 % 2
            && f % 16 == rcode % 16 && (f / 0x200 % 2 == 1 <==> truncated) && f / 0x400 % 2 == 0 && f / 0x20 % 4 == 0
  {
    Packed(flags / 0x800 % 16, if truncated then 1 else 0, flags / 0x100 % 2, flags / 0x10 % 2, rcode % 16);
  }

  lemma Packed(o: nat, tc: nat, rd: nat, cd: nat, rc: nat)
    requires o < 16 && tc < 2 && rd < 2 && cd < 2 && rc < 16
    ensures var f := 0x8080 + o * 0x800 + rd * 0x100 + cd * 0x10 + rc + tc * 0x200;
            && f / 0x8000 == 1 && f / 0x80 % 2 == 1 && f / 0x800 % 16 == o && f / 0x100 % 2 == rd && f / 0x10 % 2 == cd
            && f % 16 == rc && f / 0x200 % 2 == tc && f / 0x400 % 2 == 0 && f / 0x20 % 4 == 0
  {
    var f := 0x8080 + o * 0x800 + rd * 0x100 + cd * 0x10 + rc + tc * 0x200;
    Field(f, 0x8000, 1, o * 0x800 + rd * 0x100 + cd * 0x10 + rc + tc * 0x200 + 0x80);
    Field(f, 0x800, 16 + o, rd * 0x100 + cd * 0x10 + rc + tc * 0x200 + 0x80);
    Field(f, 0x400, 2 * (16 + o), rd * 0x100 + cd * 0x10 + rc + tc * 0x200 + 0x80);
    Field(f, 0x200, 2 * (32 + 2 * o) + tc, rd * 0x100 + cd * 0x10 + rc + 0x80);
    Field(f, 0x100, 2 * (64 + 4 * o + tc) + rd, cd * 0x10 + rc + 0x80);
    Field(f, 0x80, 2 * (128 + 8 * o + 2 * tc + rd) + 1, cd * 0x10 + rc);
    Field(f, 0x20, 4 * (2 * (128 + 8 * o + 2 * tc + rd) + 1), cd * 0x10 + rc);
    Field(f, 0x10, 2 * (4 * (2 * (128 + 8 * o + 2 * tc + rd) + 1)) + cd, rc);
  }

  lemma Field(f: nat, d: nat, q: nat, r: nat)
    requires d > 0 && f == d * q + r && r < d
    ensures f / d == q && f % d == r
  {
    if f / d > q {
      MulLess(d, q + 1, f / d);
    } else if f / d < q {
      MulLess(d, f / d + 1, q);
    }
  }

  lemma MulLess(d: nat, a: nat, b: nat)
    requires a <= b
    ensures d * a <= d * b
  {
  }

  function Header(query: seq<byte>, rcode: byte, qd: u16, an: u16, truncated: bool, ar: u16): (h: seq<byte>)
    requires |query| >= 12
    ensures |h| == 12
  {
    [query[0], query[1]] + Be16(ResponseFlags(Num16(query[2], query[3]), rcode, truncated))
    + Be16(qd) + Be16(an) + Be16(0) + Be16(ar)
  }

  // ---- answers ----

  datatype Answer = Answer(rtype: u16, value: string, ttl: Option<u32>, name: Option<string>)

  datatype Terms = Terms(fallbackType: u16, ttlOverride: Option<u32>, owner: seq<byte>)

  function TypeOf(a: Answer, t: Terms): u16 {
    if a.rtype != 0 then a.rtype else t.fallbackType
  }

  function TtlOf(a: Answer, t: Terms): u32 {
    var raw := match t.ttlOverride
               case Some(n) => n
               case None => (match a.ttl case Some(n) => n case None => TTL_DEFAULT);
    if raw > TTL_MAX then TTL_MAX else raw
  }

  function OwnerOf(a: Answer, t: Terms): seq<byte> {
    match a.name
    case None => t.owner
    case Some(n) => match Encode(n) case Ok(w) => w case Err(_) => t.owner
  }

  /** The bytes of one answer, or nothing when its value does not encode. */
  function Chunk(ip: IpText, a: Answer, t: Terms): seq<byte> {
    match EncodeRData(ip, TypeOf(a, t), a.value)
    case None => []
    case Some(rdata) =>
      OwnerOf(a, t) + (Be16(TypeOf(a, t)) + Be16(CLASS_IN) + Be32(TtlOf(a, t)) + Be16(|rdata| % 0x1_0000)) + rdata
  }

  /** The chunks of the answers that encode. */
  function Chunks(ip: IpText, answers: seq<Answer>, t: Terms): seq<seq<byte>> {
    if answers == [] then []
    else
      var c := Chunk(ip, answers[0], t);
      (if c == [] then [] else [c]) + Chunks(ip, answers[1..], t)
  }

  lemma ChunkSize(ip: IpText, a: Answer, t: Terms)
    ensures Chunk(ip, a, t) == [] || |Chunk(ip, a, t)| >= 10
    ensures Chunk(ip, a, t) == [] <==> EncodeRData(ip, TypeOf(a, t), a.value) == None
  {
  }

  /** The whole answer section, and how many answers it holds. */
  method BuildBodyAnswers(ip: IpText, answers: seq<Answer>, t: Terms) returns (body: seq<byte>, count: nat)
    ensures body == Concat(Chunks(ip, answers, t)) && count == |Chunks(ip, answers, t)|
  {
    hide EncodeRData, OwnerOf, TypeOf, TtlOf, Chunks, Chunk, Concat, Be16, Be32;
    body, count := [], 0;
    var i := 0;
    assert answers[0..] == answers;
    assert [] + Concat(Chunks(ip, answers, t)) == Concat(Chunks(ip, answers, t));
    while i < |answers|
      invariant 0 <= i <= |answers|
      invariant body + Concat(Chunks(ip, answers[i..], t)) == Concat(Chunks(ip, answers, t))
      invariant count + |Chunks(ip, answers[i..], t)| == |Chunks(ip, answers, t)|
    {
      var a := answers[i];
      ChunksStep(ip, answers, i, t);
      i := i + 1;
      var rdata := EncodeRData(ip, TypeOf(a, t), a.value);
      if rdata.None? {
        continue;
      }
      ghost var before := body;
      body := body + OwnerOf(a, t);
      body := body + (Be16(TypeOf(a, t)) + Be16(CLASS_IN) + Be32(TtlOf(a, t)) + Be16(|rdata.value| % 0x1_0000));
      body := body + rdata.value;
      assert body == before + Chunk(ip, a, t);
      count := count + 1;
    }
    NoChunks(ip, t);
    ConcatNone(body);
    assert answers[i..] == [];
  }

  lemma ChunksStep(ip: IpText, answers: seq<Answer>, i: nat, t: Terms)
    requires i < |answers|
    ensures var a := answers[i];
            match EncodeRData(ip, TypeOf(a, t), a.value)
            case None => Chunks(ip, answers[i..], t) == Chunks(ip, answers[i + 1..], t)
            case Some(rdata) =>
              && Chunks(ip, answers[i..], t) == [Chunk(ip, a, t)] + Chunks(ip, answers[i + 1..], t)
              && Concat(Chunks(ip, answers[i..], t)) == Chunk(ip, a, t) + Concat(Chunks(ip, answers[i + 1..], t))
              && Chunk(ip, a, t) == OwnerOf(a, t) + (Be16(TypeOf(a, t)) + Be16(CLASS_IN) + Be32(TtlOf(a, t))
                 + Be16(|rdata| % 0x1_0000)) + rdata
  {
    hide EncodeRData, OwnerOf;
    assert answers[i..][1..] == answers[i + 1..];
    ChunkSize(ip, answers[i], t);
    var more := Chunks(ip, answers[i + 1..], t);
    assert ([Chunk(ip, answers[i], t)] + more)[1..] == more;
  }

  // ---- fitting ----

  /** How many leading chunks fit when `used` bytes are taken already. */
  function Fitting(chunks: seq<seq<byte>>, used: nat, limit: nat): (k: nat)
    ensures k <= |chunks|
  {
    if chunks == [] || used + |chunks[0]| > limit then 0
    else 1 + Fitting(chunks[1..], used + |chunks[0]|, limit)
  }

  /** `k` is the length of the longest prefix that fits. */
  ghost predicate LongestFit(chunks: seq<seq<byte>>, used: nat, limit: nat, k: nat) {
    && k <= |chunks|
    && (k > 0 ==> used + |Concat(chunks[..k])| <= limit)
    && (forall j :: k < j <= |chunks| ==> used + |Concat(chunks[..j])| > limit)
  }

  lemma {:induction false} ConcatPrefix(chunks: seq<seq<byte>>, i: nat, j: nat)
    requires i <= j <= |chunks|
    ensures |Concat(chunks[..i])| <= |Concat(chunks[..j])|
    decreases |chunks|
  {
    if i > 0 {
      ConcatPrefix(chunks[1..], i - 1, j - 1);
      assert chunks[..i][1..] == chunks[1..][..i - 1] && chunks[..j][1..] == chunks[1..][..j - 1];
    }
  }

  lemma {:induction false} FittingIsLongest(chunks: seq<seq<byte>>, used: nat, limit: nat)
    ensures LongestFit(chunks, used, limit, Fitting(chunks, used, limit))
    decreases |chunks|
  {
    var k := Fitting(chunks, used, limit);
    if chunks != [] {
      assert chunks[..1][1..] == [];
      if used + |chunks[0]| > limit {
        assert Concat(chunks[..1]) == chunks[0];
        forall j | 0 < j <= |chunks|
          ensures used + |Concat(chunks[..j])| > limit
        {
          ConcatPrefix(chunks, 1, j);
        }
      } else {
        var rest := chunks[1..];
        FittingIsLongest(rest, used + |chunks[0]|, limit);
        forall j | 1 <= j <= |chunks|
          ensures |Concat(chunks[..j])| == |chunks[0]| + |Concat(rest[..j - 1])|
        {
          assert chunks[..j][1..] == rest[..j - 1];
        }
        forall j | k < j <= |chunks|
          ensures used + |Concat(chunks[..j])| > limit
        {
          assert k - 1 < j - 1 <= |rest|;
        }
        assert rest[..0] == [];
      }
    }
  }

  /** There is only one longest prefix. */
  lemma LongestFitUnique(chunks: seq<seq<byte>>, used: nat, limit: nat, k: nat, k': nat)
    requires LongestFit(chunks, used, limit, k) && LongestFit(chunks, used, limit, k')
    ensures k == k'
  {
    var a, b := Concat(chunks[..k]), Concat(chunks[..k']);
  }

  // ---- the response ----

  datatype UdpResp = UdpResp(
    rawQuery: seq<byte>, qbytes: Option<seq<byte>>, answers: seq<Answer>, rcode: byte,
    abody: Option<seq<byte>>, abodyCount: Option<nat>, ownerName: Option<string>, fallbackType: u16,
    ttlOverride: Option<u32>, bufsizeCap: Option<u16>, forceTruncated: bool, encOwner: Option<seq<byte>>,
    ednsInfo: Option<EdnsInfo>)

  function OwnerBytes(c: UdpResp): seq<byte> {
    match c.encOwner
    case Some(b) => b
    case None =>
      match c.ownerName
      case Some(n) => (match Encode(n) case Ok(w) => w case Err(_) => [0])
      case None => [0]
  }

  function TermsOf(c: UdpResp): Terms {
    Terms(c.fallbackType, c.ttlOverride, OwnerBytes(c))
  }

  function InfoOf(c: UdpResp): EdnsInfo {
    match c.ednsInfo case Some(i) => i case None => QuestionEdnsInfo(c.rawQuery)
  }

  function Limit(c: UdpResp): nat {
    var size := InfoOf(c).bufsize;
    match c.bufsizeCap case Some(cap) => (if cap < size then cap else size) case None => size
  }

  function OrEmpty(b: Option<seq<byte>>): seq<byte> {
    match b case Some(v) => v case None => []
  }

  function FirstAnswers(c: UdpResp): seq<Answer> {
    if |c.answers| > MAX_ANSWERS then c.answers[..MAX_ANSWERS] else c.answers
  }

  function ForcedTc(c: UdpResp): bool {
    c.forceTruncated || |c.answers| > MAX_ANSWERS
  }

  /** A body that was encoded beforehand is used when nothing has to be left out. */
  predicate UsesBody(c: UdpResp) {
    && c.abody.Some? && |c.answers| <= MAX_ANSWERS
    && 12 + |OrEmpty(c.qbytes)| + |c.abody.value| + |OrEmpty(InfoOf(c).optBytes)| <= Limit(c)
  }

  function ArCount(c: UdpResp): u16 {
    if InfoOf(c).optBytes.Some? then 1 else 0
  }

  /** The chunks to choose from, and how many of them are kept. */
  function Candidates(ip: IpText, c: UdpResp): seq<seq<byte>> {
    Chunks(ip, FirstAnswers(c), TermsOf(c))
  }

  function Base(c: UdpResp): nat {
    12 + |OrEmpty(c.qbytes)| + |OrEmpty(InfoOf(c).optBytes)|
  }

  function Kept(ip: IpText, c: UdpResp): (k: nat)
    ensures k <= |Candidates(ip, c)|
  {
    Fitting(Candidates(ip, c), Base(c), Limit(c))
  }

  lemma {:induction false} FewChunks(ip: IpText, answers: seq<Answer>, t: Terms)
    ensures |Chunks(ip, answers, t)| <= |answers|
  {
    if answers != [] {
      FewChunks(ip, answers[1..], t);
    }
  }

  lemma FewKept(ip: IpText, c: UdpResp)
    ensures Kept(ip, c) <= MAX_ANSWERS
  {
    FewChunks(ip, FirstAnswers(c), TermsOf(c));
  }

  function UdpResponse(ip: IpText, c: UdpResp): Option<seq<byte>> {
    var q, opt := OrEmpty(c.qbytes), OrEmpty(InfoOf(c).optBytes);
    if |c.rawQuery| < 12 then None
    else if UsesBody(c) then
      var an := match c.abodyCount case Some(n) => n % 0x1_0000 case None => |c.answers|;
      Some(Header(c.rawQuery, c.rcode, 1, an, ForcedTc(c), ArCount(c)) + q + c.abody.value + opt)
    else
      FewKept(ip, c);
      var k := Kept(ip, c);
      Some(Header(c.rawQuery, c.rcode, 1, k, ForcedTc(c) || k < |Candidates(ip, c)|, ArCount(c))
           + q + Concat(Candidates(ip, c)[..k]) + opt)
  }

  method BuildUdpResponse(ip: IpText, c: UdpResp) returns (r: Option<seq<byte>>)
    ensures r == UdpResponse(ip, c)
  {
    hide Header, Chunk, Encode, QuestionEdnsInfo, Limit, InfoOf;
    if |c.rawQuery| < 12 {
      return None;
    }
    var q := OrEmpty(c.qbytes);
    var info := InfoOf(c);
    var limit, opt := Limit(c), OrEmpty(info.optBytes);
    var arCount: u16 := if info.optBytes.Some? then 1 else 0;
    var trimmed := FirstAnswers(c);
    if c.abody.Some? && |c.answers| <= MAX_ANSWERS && 12 + |q| + |c.abody.value| + |opt| <= limit {
      var an: u16 := match c.abodyCount case Some(n) => n % 0x1_0000 case None => |trimmed|;
      return Some(Header(c.rawQuery, c.rcode, 1, an, ForcedTc(c), arCount) + q + c.abody.value + opt);
    }
    FewKept(ip, c);
    var out, kept, truncated := Assemble(ip, trimmed, TermsOf(c), q, |opt|, limit, ForcedTc(c));
    ghost var head, body := Header(c.rawQuery, c.rcode, 1, kept, truncated, arCount), Concat(Candidates(ip, c)[..kept]);
    assert head + (q + body) + opt == head + q + body + opt;
    r := Some(Header(c.rawQuery, c.rcode, 1, kept, truncated, arCount) + out + opt);
  }

  /** Takes one answer after the other until the next does not fit. */
  method Assemble(ip: IpText, answers: seq<Answer>, t: Terms, q: seq<byte>, optLen: nat, limit: nat, forced: bool)
    returns (out: seq<byte>, kept: nat, truncated: bool)
    ensures var chunks := Chunks(ip, answers, t);
            && kept == Fitting(chunks, 12 + |q| + optLen, limit)
            && out == q + Concat(chunks[..kept])
            && truncated == (forced || kept < |chunks|)
  {
    hide Fitting, Chunks, Chunk, EncodeRData, Concat, TypeOf, OwnerOf;
    ghost var all := Chunks(ip, answers, t);
    out, kept, truncated := q, 0, forced;
    ghost var done: seq<seq<byte>> := [];
    ghost var rest := all;
    var i := 0;
    assert answers[0..] == answers;
    ConcatNone(q);
    while i < |answers|
      invariant 0 <= i <= |answers| && kept == |done| && truncated == forced
      invariant rest == Chunks(ip, answers[i..], t) && all == done + rest && out == q + Concat(done)
      invariant Fitting(all, 12 + |q| + optLen, limit) == kept + Fitting(rest, 12 + |out| + optLen, limit)
    {
      OneChunk(ip, answers, i, t);
      var chunk, _ := BuildBodyAnswers(ip, [answers[i]], t);
      i := i + 1;
      if chunk == [] {
        assert [] + Chunks(ip, answers[i..], t) == Chunks(ip, answers[i..], t);
        continue;
      }
      FittingStep(rest, 12 + |out| + optLen, limit);
      ConcatLast(done, chunk);
      assert rest[0] == chunk && rest[1..] == Chunks(ip, answers[i..], t);
      if 12 + |out| + |chunk| + optLen > limit {
        assert all[..kept] == done;
        return out, kept, true;
      }
      rest := rest[1..];
      done := done + [chunk];
      out := out + chunk;
      kept := kept + 1;
    }
    NoChunks(ip, t);
    assert answers[i..] == [] && all == done;
    FittingStep([], 12 + |out| + optLen, limit);
    assert all[..kept] == done;
  }

  lemma NoChunks(ip: IpText, t: Terms)
    ensures Chunks(ip, [], t) == []
  {
  }

  lemma ConcatNone(q: seq<byte>)
    ensures q + Concat([]) == q
  {
  }

  lemma OneChunk(ip: IpText, answers: seq<Answer>, i: nat, t: Terms)
    requires i < |answers|
    ensures var c := Concat(Chunks(ip, [answers[i]], t));
            && Chunks(ip, answers[i..], t) == (if c == [] then [] else [c]) + Chunks(ip, answers[i + 1..], t)
  {
    hide Chunk;
    assert answers[i..][1..] == answers[i + 1..];
    assert [answers[i]][1..] == answers[i..i];
    var c := Chunk(ip, answers[i], t);
    assert Chunks(ip, [answers[i]], t) == if c == [] then [] else [c];
    var one := [c];
    assert one[1..] == [] && c + [] == c;
  }

  lemma FittingStep(chunks: seq<seq<byte>>, used: nat, limit: nat)
    ensures Fitting(chunks, used, limit) ==
            if chunks == [] || used + |chunks[0]| > limit then 0
                else 1 + Fitting(chunks[1..], used + |chunks[0]|, limit)
  {
  }

  lemma {:induction false} ConcatLast(chunks: seq<seq<byte>>, c: seq<byte>)
    ensures Concat(chunks + [c]) == Concat(chunks) + c
  {
    if chunks == [] {
      assert (chunks + [c])[1..] == chunks && c + [] == c;
    } else {
      ConcatLast(chunks[1..], c);
      assert (chunks + [c])[1..] == chunks[1..] + [c];
    }
  }

  // ---- what a response is ----

  /** What the client, and the server's own limit if there is one, take. */
  function Takes(c: UdpResp): nat {
    var info := match c.ednsInfo case Some(i) => i case None => QuestionEdnsInfo(c.rawQuery);
    if c.bufsizeCap.Some? && c.bufsizeCap.value < info.bufsize then c.bufsizeCap.value else info.bufsize
  }

  /** Kept is the longest prefix of the encodable answers that fits. */
  lemma KeptIsLongest(ip: IpText, c: UdpResp)
    ensures LongestFit(Candidates(ip, c), 12 + |OrEmpty(c.qbytes)| + |OrEmpty(InfoOf(c).optBytes)|, Takes(c),
                       Kept(ip, c))
  {
    hide QuestionEdnsInfo;
    FittingIsLongest(Candidates(ip, c), Base(c), Limit(c));
  }

  /** Without a ready-made body: the header counts the answers kept; TC is set exactly
      when it was asked for, when there were more than eight answers, or when one that
      encodes was left out; and the size stays within the limit unless the question and
      the OPT record alone exceed it. */
  lemma ResponseShape(ip: IpText, c: UdpResp)
    requires |c.rawQuery| >= 12 && !UsesBody(c)
    ensures var r, k := UdpResponse(ip, c), Kept(ip, c);
            && r.Some? && |r.value| >= 12 && r.value[..2] == c.rawQuery[..2]
            && Num16(r.value[4], r.value[5]) == 1 && Num16(r.value[6], r.value[7]) == k
               && Num16(r.value[8], r.value[9]) == 0
            && Num16(r.value[10], r.value[11]) == (if InfoOf(c).optBytes.Some? then 1 else 0)
            && AnswerFlags(Num16(c.rawQuery[2], c.rawQuery[3]), c.rcode,
                           c.forceTruncated || |c.answers| > 8 || k < |Candidates(ip, c)|,
                           Num16(r.value[2], r.value[3]))
            && var base := 12 + |OrEmpty(c.qbytes)| + |OrEmpty(InfoOf(c).optBytes)|;
               && |r.value| <= (if Takes(c) < base then base else Takes(c))
               && (k > 0 ==> |r.value| <= Takes(c))
  {
    hide Candidates, Kept, Limit, InfoOf, Concat, ResponseFlags, UsesBody, Be16, Num16, AnswerFlags, Takes;
    KeptIsLongest(ip, c);
    FewKept(ip, c);
    var k := Kept(ip, c);
    var tc := ForcedTc(c) || k < |Candidates(ip, c)|;
    HeaderFields(c.rawQuery, c.rcode, 1, k, tc, ArCount(c));
    var h, body := Header(c.rawQuery, c.rcode, 1, k, tc, ArCount(c)), Concat(Candidates(ip, c)[..k]);
    var r := h + OrEmpty(c.qbytes) + body + OrEmpty(InfoOf(c).optBytes);
    hide Header;
    assert UdpResponse(ip, c) == Some(r);
    assert |r| == Base(c) + |body| && r[..12] == h;
    if k == 0 {
      assert Candidates(ip, c)[..0] == [];
      ConcatNone([]);
    }
    assert forall i :: 0 <= i < 12 ==> r[i] == h[i];
    assert r[..2] == h[..2];
  }

  /** The flags `f` of a response to a query with flags `q`: QR and RA are set; opcode, RD and
      CD are the query's; AA, AD and the reserved bit are clear; TC and the response code are
      as given. */
  predicate AnswerFlags(q: u16, rcode: byte, truncated: bool, f: u16) {
    && f / 0x8000 == 1 && f / 0x80 % 2 == 1
    && f / 0x800 % 16 == q / 0x800 % 16 && f / 0x100 % 2 == q / 0x100 % 2 && f / 0x10 % 2 == q / 0x10 % 2
    && f / 0x400 % 2 == 0 && f / 0x40 % 2 == 0 && f / 0x20 % 2 == 0
    && f % 16 == rcode % 16 && (f / 0x200 % 2 == 1 <==> truncated)
  }

  lemma HeaderFields(query: seq<byte>, rcode: byte, qd: u16, an: u16, truncated: bool, ar: u16)
    requires |query| >= 12
    ensures var h := Header(query, rcode, qd, an, truncated, ar);
            && h[..2] == query[..2]
            && Num16(h[4], h[5]) == qd && Num16(h[6], h[7]) == an && Num16(h[8], h[9]) == 0 && Num16(h[10], h[11]) == ar
            && AnswerFlags(Num16(query[2], query[3]), rcode, truncated, Num16(h[2], h[3]))
  {
    var flags := Num16(query[2], query[3]);
    FlagFields(flags, rcode, truncated);
    var f := ResponseFlags(flags, rcode, truncated);
    LowBits(f);
    hide ResponseFlags;
    Be16RoundTrip(f, 0, 0);
    Be16RoundTrip(qd, 0, 0);
    Be16RoundTrip(an, 0, 0);
    Be16RoundTrip(0, 0, 0);
    Be16RoundTrip(ar, 0, 0);
    hide Be16, Num16;
    var h := Header(query, rcode, qd, an, truncated, ar);
    assert h[2..4] == Be16(f) && h[4..6] == Be16(qd) && h[6..8] == Be16(an) && h[8..10] == Be16(0)
           && h[10..12] == Be16(ar);
    assert h[2] == h[2..4][0] && h[3] == h[2..4][1] && h[4] == h[4..6][0] && h[5] == h[4..6][1];
    assert h[6] == h[6..8][0] && h[7] == h[6..8][1] && h[8] == h[8..10][0] && h[9] == h[8..10][1];
    assert h[10] == h[10..12][0] && h[11] == h[10..12][1];
  }

  lemma LowBits(f: nat)
    requires f / 0x20 % 4 == 0
    ensures f / 0x40 % 2 == 0 && f / 0x20 % 2 == 0
  {
  }

  /** The first twelve bytes of every response, whichever way its answers come about: the
      query's identifier, the flags with the response code, and the counts. TC is set exactly
      when it was asked for, when there are more than eight answers, or when an answer that
      encodes was left out. */
  lemma ResponseHeader(ip: IpText, c: UdpResp)
    requires |c.rawQuery| >= 12
    ensures var r := UdpResponse(ip, c);
            && r.Some? && |r.value| >= 12 && r.value[..2] == c.rawQuery[..2]
            && AnswerFlags(Num16(c.rawQuery[2], c.rawQuery[3]), c.rcode,
                           c.forceTruncated || |c.answers| > 8 || (!UsesBody(c) && Kept(ip, c) < |Candidates(ip, c)|),
                           Num16(r.value[2], r.value[3]))
            && Num16(r.value[4], r.value[5]) == 1 && Num16(r.value[8], r.value[9]) == 0
            && Num16(r.value[10], r.value[11]) == (if InfoOf(c).optBytes.Some? then 1 else 0)
            && Num16(r.value[6], r.value[7]) ==
               if !UsesBody(c) then Kept(ip, c)
               else if c.abodyCount.Some? then c.abodyCount.value % 0x1_0000 else |c.answers|
  {
    hide Candidates, Kept, Limit, InfoOf, Concat, ResponseFlags, UsesBody, Be16, Num16, AnswerFlags;
    FewKept(ip, c);
    var tc := ForcedTc(c) || (!UsesBody(c) && Kept(ip, c) < |Candidates(ip, c)|);
    var an: u16 := if !UsesBody(c) then Kept(ip, c) else BodyCount(c);
    HeaderFields(c.rawQuery, c.rcode, 1, an, tc, ArCount(c));
    var h, r := Header(c.rawQuery, c.rcode, 1, an, tc, ArCount(c)), UdpResponse(ip, c).value;
    HeaderFirst(ip, c, h);
    assert forall i :: 0 <= i < 12 ==> r[i] == r[..12][i];
    assert r[..2] == r[..12][..2];
  }

  function BodyCount(c: UdpResp): u16 {
    match c.abodyCount
    case Some(n) => n % 0x1_0000
    case None => if |c.answers| > 8 then 8 else |c.answers|
  }

  lemma HeaderFirst(ip: IpText, c: UdpResp, h: seq<byte>)
    requires |c.rawQuery| >= 12 && Kept(ip, c) <= MAX_ANSWERS
    requires h == Header(c.rawQuery, c.rcode, 1, if !UsesBody(c) then Kept(ip, c) else BodyCount(c),
                         ForcedTc(c) || (!UsesBody(c) && Kept(ip, c) < |Candidates(ip, c)|), ArCount(c))
    ensures var r := UdpResponse(ip, c); r.Some? && |r.value| >= 12 && r.value[..12] == h
    ensures UsesBody(c) ==> |c.answers| <= 8
  {
    hide Candidates, Kept, Limit, InfoOf, Concat, Header;
    var r := UdpResponse(ip, c).value;
    assert r[..12] == h;
  }

  /** A ready-made body is used exactly when there are no more than eight answers and it fits,
      together with the question and the OPT record, what the client and the server take. */
  lemma ReadyMadeUsed(ip: IpText, c: UdpResp, body: seq<byte>)
    requires |c.rawQuery| >= 12 && c.abody == Some(body)
    ensures var info := match c.ednsInfo case Some(i) => i case None => QuestionEdnsInfo(c.rawQuery);
            var q, opt := OrEmpty(c.qbytes), OrEmpty(info.optBytes);
            var size := 12 + |q| + |body| + |opt|;
            if |c.answers| <= 8 && size <= info.bufsize && (c.bufsizeCap.Some? ==> size <= c.bufsizeCap.value)
            then UdpResponse(ip, c).Some? && |UdpResponse(ip, c).value| == size
                 && UdpResponse(ip, c).value[12..] == q + body + opt
            else UdpResponse(ip, c) == UdpResponse(ip, c.(abody := None))
  {
    hide Candidates, Kept, Header, QuestionEdnsInfo;
    SameChoice(ip, c);
    if UsesBody(c) {
      var r := UdpResponse(ip, c).value;
      assert r[12..] == OrEmpty(c.qbytes) + body + OrEmpty(InfoOf(c).optBytes);
    }
  }

  lemma SameChoice(ip: IpText, c: UdpResp)
    ensures var d := c.(abody := None); Candidates(ip, d) == Candidates(ip, c) && Kept(ip, d) == Kept(ip, c)
  {
    hide Chunks, Fitting;
  }

  // ---- a response parses ----

  ghost predicate WireName(b: seq<byte>) {
    exists labels: WireLabels :: Short(labels) && Size(labels) < MAX_NAME && b == Wire(labels)
  }

  lemma EncodedName(name: string)
    ensures Encode(name).Ok? ==> WireName(Encode(name).value)
  {
    if Encode(name).Ok? {
      var labels := EncodedLabels(name);
    }
  }

  lemma OwnerIsName(a: Answer, t: Terms) returns (labels: WireLabels)
    requires WireName(t.owner)
    ensures Short(labels) && Size(labels) < MAX_NAME && OwnerOf(a, t) == Wire(labels)
  {
    hide Encode, Wire, Short, Size;
    if a.name.Some? {
      EncodedName(a.name.value);
    }
    assert WireName(OwnerOf(a, t));
    labels :| Short(labels) && Size(labels) < MAX_NAME && OwnerOf(a, t) == Wire(labels);
  }

  /** The answers that encode. */
  function Encodable(ip: IpText, answers: seq<Answer>, t: Terms): seq<Answer> {
    if answers == [] then []
    else
      var rtype := if answers[0].rtype != 0 then answers[0].rtype else t.fallbackType;
      (if EncodeRData(ip, rtype, answers[0].value).None? then [] else [answers[0]])
      + Encodable(ip, answers[1..], t)
  }

  /** The record says what the answer says, in the class of the Internet: its owner, or else
      the common one; its type, or else the common one; the time to live forced on all, or its
      own, or 300 seconds, at most 2^31 - 1; and its value. */
  predicate Says(ip: IpText, w: Written, a: Answer, t: Terms)
    requires Good(w)
  {
    && Wire(w.owner) == (if a.name.Some? && Encode(a.name.value).Ok? then Encode(a.name.value).value else t.owner)
    && w.rtype == (if a.rtype != 0 then a.rtype else t.fallbackType) && w.rclass == 1
    && EncodeRData(ip, w.rtype, a.value) == Some(w.rdata)
    && var ttl := if t.ttlOverride.Some? then t.ttlOverride.value else if a.ttl.Some? then a.ttl.value else 300;
       w.ttl == if ttl > 0x7FFF_FFFF then 0x7FFF_FFFF else ttl
  }

  predicate AllSay(ip: IpText, ws: seq<Written>, answers: seq<Answer>, t: Terms)
    requires AllGood(ws)
  {
    |ws| == |answers| && forall i :: 0 <= i < |ws| ==> Says(ip, ws[i], answers[i], t)
  }

  lemma ChunkIsRecord(ip: IpText, a: Answer, t: Terms) returns (w: Written)
    requires WireName(t.owner) && 0 < |Chunk(ip, a, t)| < 0x1_0000
    ensures Good(w) && Says(ip, w, a, t) && RecordBytes(w) == Chunk(ip, a, t)
  {
    hide EncodeRData, Encode, Be16, Be32, Short, Size, Wire;
    var rdata := EncodeRData(ip, TypeOf(a, t), a.value).value;
    var labels := OwnerIsName(a, t);
    assert |rdata| % 0x1_0000 == |rdata|;
    w := Written(labels, TypeOf(a, t), CLASS_IN, TtlOf(a, t), rdata);
  }

  /** The first chunks are the records of the first answers that encode. */
  lemma {:induction false} ChunksAreRecords(ip: IpText, answers: seq<Answer>, t: Terms, k: nat)
    returns (ws: seq<Written>)
    requires WireName(t.owner) && k <= |Chunks(ip, answers, t)| && |Concat(Chunks(ip, answers, t)[..k])| < 0x1_0000
    ensures AllGood(ws) && |ws| == k <= |Encodable(ip, answers, t)|
    ensures AllSay(ip, ws, Encodable(ip, answers, t)[..k], t) && AllBytes(ws) == Concat(Chunks(ip, answers, t)[..k])
  {
    hide Chunk, WireName, Good, Says, EncodeRData, RecordBytes;
    if answers == [] {
      ws := [];
    } else {
      var c, more := Chunk(ip, answers[0], t), Chunks(ip, answers[1..], t);
      ChunkSize(ip, answers[0], t);
      if c == [] {
        assert [] + more == more;
        ws := ChunksAreRecords(ip, answers[1..], t, k);
        assert [] + Encodable(ip, answers[1..], t) == Encodable(ip, answers[1..], t);
      } else if k == 0 {
        ws := [];
      } else {
        TakeOne(c, more, k);
        var w := ChunkIsRecord(ip, answers[0], t);
        var rest := ChunksAreRecords(ip, answers[1..], t, k - 1);
        ws := [w] + rest;
        assert ws[1..] == rest;
        assert Encodable(ip, answers, t)[..k] == [answers[0]] + Encodable(ip, answers[1..], t)[..k - 1];
      }
    }
  }

  lemma TakeOne(c: seq<byte>, more: seq<seq<byte>>, k: nat)
    requires 0 < k <= 1 + |more|
    ensures ([c] + more)[..k] == [c] + more[..k - 1]
    ensures Concat(([c] + more)[..k]) == c + Concat(more[..k - 1])
  {
    assert ([c] + more)[..k] == [c] + more[..k - 1];
    assert ([c] + more[..k - 1])[1..] == more[..k - 1];
  }

  /** The question and the records that parsing is to find in a response. */
  ghost predicate Holds(m: Message, data: seq<byte>, labels: WireLabels, fixed: seq<byte>, ws: seq<Written>,
                        opt: Option<Written>)
    requires |fixed| == 4 && Short(labels) && AllGood(ws) && (opt.Some? ==> Good(opt.value))
  {
    var p := 12 + |Wire(labels)| + 4;
    && m.questions == [Question(NameText(labels), Num16(fixed[0], fixed[1]), Num16(fixed[2], fixed[3]))]
    && m.answers == AllReadAs(data, p, ws) && m.authority == []
    && m.additional == if opt.Some? then ReadAs(data, p + |AllBytes(ws)|, opt.value) else []
  }

  /** What holds for all answers of a response, and those of them that are looked at. */
  function Common(c: UdpResp): Terms {
    var owner := if c.encOwner.Some? then c.encOwner.value
                 else if c.ownerName.Some? && Encode(c.ownerName.value).Ok? then Encode(c.ownerName.value).value
                 else [0];
    Terms(c.fallbackType, c.ttlOverride, owner)
  }

  function FirstEight(c: UdpResp): seq<Answer> {
    if |c.answers| > 8 then c.answers[..8] else c.answers
  }

  /** For a well-formed question, owner and OPT record, the response can be parsed, parsing
      ends exactly at its last byte, and what it finds are the question and, for each answer
      kept, the record that says what that answer says. */
  lemma ResponseParses(ip: IpText, c: UdpResp, labels: WireLabels, fixed: seq<byte>, opt: Option<Written>)
    returns (ws: seq<Written>)
    requires |c.rawQuery| >= 12 && !UsesBody(c)
    requires Short(labels) && Size(labels) < MAX_NAME && |fixed| == 4 && c.qbytes == Some(Wire(labels) + fixed)
    requires WireName(Common(c).owner) && (opt.Some? ==> Good(opt.value))
    requires InfoOf(c).optBytes == if opt.Some? then Some(RecordBytes(opt.value)) else None
    ensures AllGood(ws) && Kept(ip, c) <= |Encodable(ip, FirstEight(c), Common(c))|
    ensures AllSay(ip, ws, Encodable(ip, FirstEight(c), Common(c))[..Kept(ip, c)], Common(c))
    ensures var r := UdpResponse(ip, c);
            && r.Some? && ParseMessage(r.value).Ok?
            && var p := ParseMessage(r.value).value;
               p.end == |r.value| && Holds(p.message, r.value, labels, fixed, ws, opt)
  {
    hide Candidates, Kept, Limit, InfoOf, Concat, Header, UsesBody, Wire, Good, RecordBytes, WireName, Num16, Size,
         Short, ParseMessage, Encodable, AllSay, Common, FirstEight, TermsOf, FirstAnswers, AllGood, AllBytes, Holds,
         ResponseFlags, Be16;
    ResponseShape(ip, c);
    FewKept(ip, c);
    var k := Kept(ip, c);
    var h := Header(c.rawQuery, c.rcode, 1, k, ForcedTc(c) || k < |Candidates(ip, c)|, ArCount(c));
    HeaderFields(c.rawQuery, c.rcode, 1, k, ForcedTc(c) || k < |Candidates(ip, c)|, ArCount(c));
    SameTermsAs(c);
    ws := KeptAreRecords(ip, c, k);
    assert OrEmpty(InfoOf(c).optBytes) == OptBytes(opt) && ArCount(c) == OptCount(opt);
    PartsParse(h, labels, fixed, ws, opt);
  }

  lemma SameTermsAs(c: UdpResp)
    ensures TermsOf(c) == Common(c) && FirstAnswers(c) == FirstEight(c) && OwnerBytes(c) == Common(c).owner
  {
  }

  /** Whatever way its answers came about, a response that parses is read as an answer to its
      query with the response code it was given. */
  lemma ResponseMessage(ip: IpText, c: UdpResp)
    requires |c.rawQuery| >= 12 && UdpResponse(ip, c).Some? && ParseMessage(UdpResponse(ip, c).value).Ok?
    ensures var m, f := ParseMessage(UdpResponse(ip, c).value).value.message, Num16(c.rawQuery[2], c.rawQuery[3]);
            && m.id == Num16(c.rawQuery[0], c.rawQuery[1]) && m.rcode == c.rcode % 16
            && m.opcode == f / 0x800 % 16 && m.rd == (f / 0x100 % 2 == 1) && m.ra
            && m.truncated == (c.forceTruncated || |c.answers| > 8
                               || (!UsesBody(c) && Kept(ip, c) < |Candidates(ip, c)|))
  {
    hide Candidates, Kept, InfoOf, UsesBody, Num16, ParseMessage, UdpResponse;
    ResponseHeader(ip, c);
    ParsedHeader(UdpResponse(ip, c).value);
    var r := UdpResponse(ip, c).value;
    assert r[0] == r[..2][0] && r[1] == r[..2][1];
  }

  function OptBytes(opt: Option<Written>): seq<byte>
    requires opt.Some? ==> Good(opt.value)
  {
    match opt case None => [] case Some(w) => RecordBytes(w)
  }

  function OptCount(opt: Option<Written>): u16 {
    if opt.Some? then 1 else 0
  }

  /** A header with the right counts, a question, answers and perhaps an OPT record. */
  lemma PartsParse(h: seq<byte>, labels: WireLabels, fixed: seq<byte>, ws: seq<Written>, opt: Option<Written>)
    requires |h| == 12 && Num16(h[4], h[5]) == 1 && Num16(h[6], h[7]) == |ws| && Num16(h[8], h[9]) == 0
             && Num16(h[10], h[11]) == OptCount(opt)
    requires Short(labels) && Size(labels) < MAX_NAME && |fixed| == 4 && AllGood(ws) && (opt.Some? ==> Good(opt.value))
    ensures var r := h + (Wire(labels) + fixed) + AllBytes(ws) + OptBytes(opt);
            && ParseMessage(r).Ok?
            && var p := ParseMessage(r).value;
               p.end == |r| && Holds(p.message, r, labels, fixed, ws, opt)
  {
    hide Wire, Good, RecordBytes, Num16, Section, Questions, Size, Short, NameText, AllReadAs, AllBytes, ParseMessage,
         AllGood, ReadAs;
    var q, body, tail := Wire(labels) + fixed, AllBytes(ws), OptBytes(opt);
    var r := h + q + body + tail;
    assert r == h + q + (body + tail);
    assert forall i :: 0 <= i < 12 ==> r[i] == h[i];
    QuestionWalked(h, labels, fixed, body + tail);
    SectionWalked(h + q, ws, tail);
    NoneLeft(r, |h + q + body|);
    OptWalked(h + q + body, opt);
    EndOfSections(r, |ws|, OptCount(opt));
  }

  /** Parsing goes through the sections one after the other. */
  lemma EndOfSections(r: seq<byte>, k: nat, ar: nat)
    requires |r| >= 12 && Num16(r[4], r[5]) == 1 && Num16(r[6], r[7]) == k && Num16(r[8], r[9]) == 0
             && Num16(r[10], r[11]) == ar
    requires Questions(r, 12, 1).Ok? && Section(r, Questions(r, 12, 1).value.end, k).Ok?
    requires var a := Section(r, Questions(r, 12, 1).value.end, k).value;
             Section(r, a.end, 0) == Ok(Part([], a.end)) && Section(r, a.end, ar).Ok?
    ensures var q := Questions(r, 12, 1).value;
            var a := Section(r, q.end, k).value;
            var s := Section(r, a.end, ar).value;
            && ParseMessage(r).Ok? && ParseMessage(r).value.end == s.end
            && var m := ParseMessage(r).value.message;
               m.questions == q.items && m.answers == a.items && m.authority == [] && m.additional == s.items
  {
    hide Section, Questions, Num16;
  }

  lemma NoneLeft(r: seq<byte>, p: nat)
    ensures Section(r, p, 0) == Ok(Part([], p))
  {
  }

  lemma OptWalked(pre: seq<byte>, opt: Option<Written>)
    requires opt.Some? ==> Good(opt.value)
    ensures var data := pre + OptBytes(opt);
            Section(data, |pre|, OptCount(opt))
            == Ok(Part(if opt.Some? then ReadAs(data, |pre|, opt.value) else [], |data|))
  {
    hide Good, Section, ReadAs, RecordBytes;
    var ws := if opt.Some? then [opt.value] else [];
    assert AllBytes(ws) == OptBytes(opt) by {
      if opt.Some? {
        assert ws[1..] == [] && RecordBytes(opt.value) + [] == RecordBytes(opt.value);
      }
    }
    var data := pre + AllBytes(ws);
    assert data + [] == data;
    SectionWalked(pre, ws, []);
    if opt.Some? {
      assert ws[1..] == [] && ReadAs(data, |pre|, opt.value) + [] == ReadAs(data, |pre|, opt.value);
    }
  }

  lemma KeptAreRecords(ip: IpText, c: UdpResp, k: nat) returns (ws: seq<Written>)
    requires k == Kept(ip, c) && WireName(OwnerBytes(c))
    ensures AllGood(ws) && |ws| == k <= |Encodable(ip, FirstAnswers(c), TermsOf(c))|
    ensures AllSay(ip, ws, Encodable(ip, FirstAnswers(c), TermsOf(c))[..k], TermsOf(c))
    ensures AllBytes(ws) == Concat(Candidates(ip, c)[..k])
  {
    hide Good, WireName, Concat, Limit, Chunks, AllSay, Encodable, AllBytes;
    KeptIsLongest(ip, c);
    LimitSmall(c);
    NothingTaken(Candidates(ip, c));
    ws := ChunksAreRecords(ip, FirstAnswers(c), TermsOf(c), k);
  }

  lemma NothingTaken(chunks: seq<seq<byte>>)
    ensures Concat(chunks[..0]) == []
  {
  }

  lemma LimitSmall(c: UdpResp)
    ensures Limit(c) < 0x1_0000
  {
  }

  // ---- ready-made bodies ----

  /** The body is the answers encoded beforehand, under the terms of this response. */
  predicate BodyCurrent(ip: IpText, c: UdpResp) {
    var chunks := Chunks(ip, c.answers, TermsOf(c));
    c.abody == Some(Concat(chunks)) && c.abodyCount == Some(|chunks|)
  }

  lemma {:induction false} AllFit(chunks: seq<seq<byte>>, used: nat, limit: nat)
    requires used + |Concat(chunks)| <= limit
    ensures Fitting(chunks, used, limit) == |chunks|
  {
    if chunks != [] {
      AllFit(chunks[1..], used + |chunks[0]|, limit);
    }
  }

  /** Using the ready-made body gives the very response that encoding the answers one by
      one would give. */
  lemma ReadyMadeSame(ip: IpText, c: UdpResp)
    requires UsesBody(c) && BodyCurrent(ip, c)
    ensures UdpResponse(ip, c) == UdpResponse(ip, c.(abody := None))
  {
    hide Chunks, InfoOf, Header, Limit;
    var d, chunks := c.(abody := None), Chunks(ip, c.answers, TermsOf(c));
    assert FirstAnswers(c) == c.answers && TermsOf(d) == TermsOf(c) && Candidates(ip, d) == chunks;
    SameTerms(c);
    FewChunks(ip, c.answers, TermsOf(c));
    AllFit(chunks, Base(d), Limit(d));
    assert chunks[..|chunks|] == chunks;
  }

  lemma SameTerms(c: UdpResp)
    ensures InfoOf(c.(abody := None)) == InfoOf(c) && Limit(c.(abody := None)) == Limit(c)
  {
  }

}
