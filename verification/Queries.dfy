/** What the queries that are built say: parsed as messages, and option by option. */
module Queries {
  import opened Wrappers
  import opened Bytes
  import opened Names
  import opened SvcParams
  import opened RecordData
  import opened Messages
  import opened Edns
  import opened Responses

  /** The OPT record of a query as a record: the root as its owner, the size as its class. */
  function OptAsRecord(size: u16, options: seq<byte>): Written {
    Written([], 41, size, 0, options)
  }

  lemma OptIsRecord(size: u16, options: seq<byte>)
    requires |options| < 0x1_0000
    ensures Good(OptAsRecord(size, options)) && RecordBytes(OptAsRecord(size, options)) == OptRecord(size, options)
  {
    assert Wire([]) == [0];
  }

  /** The size announced: 1232 unless asked for, and then between 512 and 9000. */
  function Announced(size: Option<u32>): u16 {
    if size == None || size == Some(0) then 1232
    else if size.value < 512 then 512 else if size.value > 9000 then 9000 else size.value
  }

  /** Every query that can be built parses to its last byte: the identifier it was given, RD as
      its only flag, and one question, for the domain's labels, of the type asked for and of the
      Internet class. It holds no records but, with EDNS, an OPT record of the size announced. */
  lemma QueryParses(ip: IpText, domain: string, qtype: u16, qid: u16, edns: bool, ecs: Option<string>,
                    udpSize: Option<u32>, padding: bool) returns (options: seq<byte>)
    requires Encode(domain).Ok?
    ensures |options| < 0x1_0000
    ensures var r := Query(ip, domain, qtype, qid, edns, ecs, udpSize, padding);
            && r.Ok? && ParseMessage(r.value).Ok? && ParseMessage(r.value).value.end == |r.value|
            && var m := ParseMessage(r.value).value.message;
               && m.id == qid && m.flags == 0x0100 && m.opcode == 0 && m.rcode == 0 && m.rd && !m.ra && !m.truncated
               && m.questions == [Question(Join(Labels(domain), DOT), qtype, 1)]
               && m.answers == [] && m.authority == [] && m.additional == [] && m.ar == (if edns then 1 else 0)
    ensures edns ==>
              var r := Query(ip, domain, qtype, qid, edns, ecs, udpSize, padding).value;
              var n := |Encode(domain).value|;
              && options == Options(ip, ecs, padding, n + 4) && |r| >= 16 + n
              && r[16 + n..] == RecordBytes(OptAsRecord(Announced(udpSize), options))
  {
    hide Encode, Wire, Num16, Options, QueryHead, OptRecord, ParseMessage, RecordBytes, Good, Labels, Query, Announced,
         ClampUdp, Join;
    var labels := EncodedLabels(domain);
    NameBack(domain, labels);
    options := QueryIs(ip, domain, labels, qtype, qid, edns, ecs, udpSize, padding);
    var h, fixed := QueryHead(qid, edns), Be16(qtype) + Be16(1);
    var opt := if edns then Some(OptAsRecord(Announced(udpSize), options)) else None;
    HeadFields(qid, edns);
    Pair(qtype);
    PartsParse(h, labels, fixed, [], opt);
    var r := Query(ip, domain, qtype, qid, edns, ecs, udpSize, padding).value;
    QueryBytes(h, Wire(labels), fixed, OptBytes(opt), r);
    ParsedHeader(r);
    assert r[..12] == h && forall i :: 0 <= i < 12 ==> r[i] == r[..12][i];
  }

  lemma QueryIs(ip: IpText, domain: string, labels: WireLabels, qtype: u16, qid: u16, edns: bool, ecs: Option<string>,
                udpSize: Option<u32>, padding: bool) returns (options: seq<byte>)
    requires Short(labels) && Encode(domain) == Ok(Wire(labels))
    ensures options == Options(ip, ecs, padding, |Wire(labels)| + 4) && |options| < 0x1_0000
    ensures edns ==> Good(OptAsRecord(Announced(udpSize), options))
    ensures Query(ip, domain, qtype, qid, edns, ecs, udpSize, padding)
         == Ok(QueryHead(qid, edns) + (Wire(labels) + (Be16(qtype) + Be16(1)))
               + if edns then RecordBytes(OptAsRecord(Announced(udpSize), options)) else [])
  {
    hide Encode, Wire, Options, QueryHead, OptRecord, RecordBytes;
    OptionsSmall(ip, ecs, padding, |Wire(labels)| + 4);
    options := Options(ip, ecs, padding, |Wire(labels)| + 4);
    OptIsRecord(Announced(udpSize), options);
    var h, q := QueryHead(qid, edns), QuestionBytes(Wire(labels), qtype);
    assert q == Wire(labels) + (Be16(qtype) + Be16(1)) && h + q + [] == h + q;
  }

  /** The pieces of a query, however they are grouped. */
  lemma QueryBytes(h: seq<byte>, name: seq<byte>, fixed: seq<byte>, opt: seq<byte>, r: seq<byte>)
    requires |h| == 12 && |fixed| == 4 && r == h + (name + fixed) + opt
    ensures h + (name + fixed) + AllBytes([]) + opt == r && r[16 + |name|..] == opt && r[..12] == h
  {
    assert h + (name + fixed) + [] == h + (name + fixed);
  }

  lemma NameBack(domain: string, labels: WireLabels)
    requires Short(labels) && Size(labels) < MAX_NAME && Encode(domain) == Ok(Wire(labels))
    ensures NameText(labels) == Join(Labels(domain), DOT)
  {
    hide Encode, Wire, NameText, Labels;
    DecodeEncoded([], domain, []);
    WalkWire([], labels, [], 0, 0);
    assert [] + Wire(labels) + [] == Wire(labels);
  }

  lemma HeadFields(qid: u16, edns: bool)
    ensures var h := QueryHead(qid, edns);
            && |h| == 12 && Num16(h[0], h[1]) == qid && Num16(h[2], h[3]) == 0x0100 && Num16(h[4], h[5]) == 1
            && Num16(h[6], h[7]) == 0 && Num16(h[8], h[9]) == 0 && Num16(h[10], h[11]) == if edns then 1 else 0
  {
    Be16RoundTrip(qid, 0, 0);
  }

  lemma Pair(qtype: u16)
    ensures var fixed := Be16(qtype) + Be16(1);
            |fixed| == 4 && Num16(fixed[0], fixed[1]) == qtype && Num16(fixed[2], fixed[3]) == 1
  {
    Be16RoundTrip(qtype, 0, 0);
  }

  // ---- the OPT record among others ----

  /** Written records in the additional section: the walk over it ends with the last OPT record,
      whole, and with its size, raised to 512; without one it finds nothing new. */
  lemma {:induction false} OptAmong(pre: seq<byte>, ws: seq<Written>, post: seq<byte>, opt: Opt) returns (last: int)
    requires AllGood(ws)
    ensures -1 <= last < |ws| && (forall i :: last < i < |ws| ==> ws[i].rtype != 41)
    ensures last >= 0 ==> ws[last].rtype == 41
    ensures ScanAdditional(pre + AllBytes(ws) + post, |pre|, |ws|, opt) ==
            if last < 0 then opt
            else Opt(if ws[last].rclass < 512 then 512 else ws[last].rclass, Some(RecordBytes(ws[last])))
    decreases |ws|
  {
    hide ScanAdditional, RecordBytes, Good;
    if ws == [] {
      last := -1;
      NoneToScan(pre + AllBytes(ws) + post, |pre|, opt);
    } else {
      var w, head, tail := ws[0], RecordBytes(ws[0]), AllBytes(ws[1..]);
      var data := pre + AllBytes(ws) + post;
      assert data == pre + head + (tail + post) && data == (pre + head) + tail + post;
      OneScanned(pre, w, tail + post, |ws|, opt);
      var next := if w.rtype == 41 then Opt(if w.rclass < 512 then 512 else w.rclass, Some(head)) else opt;
      var later := OptAmong(pre + head, ws[1..], post, next);
      last := if later >= 0 then later + 1 else if w.rtype == 41 then 0 else -1;
    }
  }

  lemma NoneToScan(data: seq<byte>, pos: nat, opt: Opt)
    ensures ScanAdditional(data, pos, 0, opt) == opt
  {
  }

  lemma OneScanned(pre: seq<byte>, w: Written, post: seq<byte>, count: nat, opt: Opt)
    requires Good(w) && count > 0
    ensures var b := RecordBytes(w);
            var next := if w.rtype == 41 then Opt(if w.rclass < 512 then 512 else w.rclass, Some(b)) else opt;
            ScanAdditional(pre + b + post, |pre|, count, opt)
            == ScanAdditional(pre + b + post, |pre| + |b|, count - 1, next)
  {
    hide Wire, NameScan, Num16, Be16, Be32, Num32, ScanAdditional, Word32;
    var data, fixed := pre + RecordBytes(w) + post,
        Be16(w.rtype) + Be16(w.rclass) + Be32(w.ttl) + Be16(|w.rdata|);
    FixedFields(pre, Wire(w.owner), w, post);
    NameScanWire(pre, w.owner, fixed + w.rdata + post);
    ScanStep(data, |pre|, count, opt);
    assert data[|pre|..|pre| + |RecordBytes(w)|] == RecordBytes(w);
  }

  // ---- the name of a question ----

  lemma {:induction false} ScanSpells(data: seq<byte>, pos: nat) returns (labels: WireLabels)
    requires pos < |data| && NameScan(data, pos).Root?
    ensures Spells(data, pos, labels, 0) && NameScan(data, pos) == Root(NameEnd(data, pos))
    decreases |data| - pos
  {
    labels := [];
    var n := data[pos];
    if n != 0 {
      var more := ScanSpells(data, pos + 1 + n);
      labels := [data[pos + 1..pos + 1 + n]] + more;
      assert labels[1..] == more;
    }
  }

  lemma {:induction false} SpelledScans(data: seq<byte>, pos: nat, labels: WireLabels)
    requires Spells(data, pos, labels, 0)
    ensures pos < |data| && NameScan(data, pos) == Root(NameEnd(data, pos))
    decreases |labels|
  {
    if data[pos] != 0 {
      SpelledScans(data, pos + 1 + data[pos], labels[1..]);
    }
  }

  /** The name is extracted exactly when the message has a question whose name is spelled out
      without a pointer; its bytes are those up to its end. */
  lemma QnameIff(data: seq<byte>)
    ensures QuestionName(data).Some? <==>
              && |data| >= 12 && Num16(data[4], data[5]) >= 1
              && exists labels: WireLabels :: Spells(data, 12, labels, 0)
    ensures QuestionName(data).Some? ==>
              12 <= NameEnd(data, 12) <= |data| && QuestionName(data).value == data[12..NameEnd(data, 12)]
  {
    hide Num16, NameEnd;
    if QuestionName(data).Some? {
      var labels := ScanSpells(data, 12);
      assert Spells(data, 12, labels, 0);
    }
    if |data| >= 12 && Num16(data[4], data[5]) >= 1 && exists labels: WireLabels :: Spells(data, 12, labels, 0) {
      var labels: WireLabels :| Spells(data, 12, labels, 0);
      SpelledScans(data, 12, labels);
    }
  }

  // ---- any message of uncompressed questions and records ----

  /** A question as it is written. */
  datatype Asked = Asked(labels: WireLabels, fixed: seq<byte>) {
    predicate Fits() {
      Short(labels) && |fixed| == 4
    }

    function Bytes(): seq<byte>
      requires Fits()
    {
      Wire(labels) + fixed
    }
  }

  function AllAsked(qs: seq<Asked>): seq<byte>
    requires forall i :: 0 <= i < |qs| ==> qs[i].Fits()
  {
    if qs == [] then [] else qs[0].Bytes() + AllAsked(qs[1..])
  }

  lemma {:induction false} QuestionsScanned(pre: seq<byte>, qs: seq<Asked>, post: seq<byte>, first: bool,
                                            qbytes: Option<seq<byte>>)
    requires forall i :: 0 <= i < |qs| ==> qs[i].Fits()
    ensures ScanQuestions(pre + AllAsked(qs) + post, |pre|, first, |qs|, qbytes)
         == Behind(|pre| + |AllAsked(qs)|, if first && qs != [] then Some(qs[0].Bytes()) else qbytes)
    decreases |qs|
  {
    hide OneQuestion, Asked.Bytes, Asked.Fits;
    if qs != [] {
      var b, tail := qs[0].Bytes(), AllAsked(qs[1..]);
      var data := pre + AllAsked(qs) + post;
      assert data == pre + b + (tail + post) && data == (pre + b) + tail + post;
      QuestionScanned(pre, qs[0], tail + post, first, qbytes);
      QuestionsScanned(pre + b, qs[1..], post, false, if first then Some(b) else qbytes);
    }
  }

  lemma QuestionScanned(pre: seq<byte>, q: Asked, post: seq<byte>, first: bool, qbytes: Option<seq<byte>>)
    requires q.Fits()
    ensures var b := q.Bytes();
            OneQuestion(pre + b + post, |pre|, first, qbytes)
            == Behind(|pre| + |b|, if first then Some(b) else qbytes)
  {
    hide NameScan, Wire;
    var b := q.Bytes();
    var data := pre + b + post;
    assert data == pre + Wire(q.labels) + (q.fixed + post);
    NameScanWire(pre, q.labels, q.fixed + post);
    assert data[|pre|..|pre| + |b|] == b;
  }

  /** Of any message that holds uncompressed questions and, right behind them, as many written
      records as its header announces additional ones, the first question is found whole, and
      the last OPT record among the records, with its size. */
  lemma InfoOfMessage(h: seq<byte>, qs: seq<Asked>, ws: seq<Written>, post: seq<byte>) returns (last: int)
    requires |h| == 12 && Num16(h[4], h[5]) == |qs| > 0 && Num16(h[10], h[11]) == |ws|
    requires (forall i :: 0 <= i < |qs| ==> qs[i].Fits()) && AllGood(ws)
    ensures -1 <= last < |ws| && (forall i :: last < i < |ws| ==> ws[i].rtype != 41)
    ensures last >= 0 ==> ws[last].rtype == 41
    ensures QuestionEdnsInfo(h + AllAsked(qs) + AllBytes(ws) + post) ==
            EdnsInfo(Some(qs[0].Bytes()),
                     if last < 0 || ws[last].rclass < 512 then 512 else ws[last].rclass,
                     if last < 0 then None else Some(RecordBytes(ws[last])))
  {
    hide ScanQuestions, ScanAdditional, Num16, AllAsked, AllBytes, RecordBytes, Good, Asked.Bytes, Asked.Fits;
    var data := h + AllAsked(qs) + AllBytes(ws) + post;
    assert data == h + AllAsked(qs) + (AllBytes(ws) + post);
    assert data[4] == h[4] && data[5] == h[5] && data[10] == h[10] && data[11] == h[11];
    QuestionsScanned(h, qs, AllBytes(ws) + post, true, None);
    last := OptAmong(h + AllAsked(qs), ws, post, Opt(DEFAULT_BUF, None));
  }

  // ---- the answer to a query ----

  /** Whether a response repeats the question of a query, letter case included. A query
      without a readable question is not compared with anything. */
  function Echoes(query: seq<byte>, response: seq<byte>): bool {
    match QuestionName(query)
    case None => true
    case Some(qn) =>
      match QuestionName(response)
      case None => false
      case Some(rn) =>
        var end := 12 + |qn|;
        && |response| >= 12 && Num16(response[4], response[5]) == 1 && qn == rn
        && !(|query| >= end + 4 && |response| >= end + 4 && query[end..end + 4] != response[end..end + 4])
  }

  /** For a query that was built, a response passes exactly when it has one question, whose name
      is byte for byte the one that was sent, and whose type and class, if it reaches that far,
      are the query's. */
  lemma EchoIff(ip: IpText, domain: string, qtype: u16, qid: u16, edns: bool, ecs: Option<string>,
                udpSize: Option<u32>, padding: bool, r: seq<byte>)
    requires Encode(domain).Ok?
    ensures var q := Query(ip, domain, qtype, qid, edns, ecs, udpSize, padding);
            var n := Encode(domain).value;
            && q.Ok?
            && (Echoes(q.value, r) <==>
                  && |r| >= 12 && Num16(r[4], r[5]) == 1 && QuestionName(r) == Some(n)
                  && (|r| >= 16 + |n| ==> r[12 + |n|..16 + |n|] == Be16(qtype) + [0, 1]))
  {
    hide Encode, Num16, QuestionName, QueryHead, OptRecord, Options, Be16;
    QnameOfQuery(ip, domain, qtype, qid, edns, ecs, udpSize, padding);
    var q, n := Query(ip, domain, qtype, qid, edns, ecs, udpSize, padding).value, Encode(domain).value;
    OptionsSmall(ip, ecs, padding, |n| + 4);
    ClassBytes();
    var tail := if edns then OptRecord(ClampUdp(udpSize), Options(ip, ecs, padding, |n| + 4)) else [];
    assert q == QueryHead(qid, edns) + (n + Be16(qtype) + Be16(CLASS_IN)) + tail;
    assert q[12 + |n|..16 + |n|] == Be16(qtype) + Be16(CLASS_IN);
    if QuestionName(r).Some? {
      NameBehindHeader(r);
    }
  }

  lemma ClassBytes()
    ensures Be16(CLASS_IN) == [0, 1]
  {
  }

  lemma NameBehindHeader(r: seq<byte>)
    requires QuestionName(r).Some?
    ensures |r| >= 12
  {
  }

  /** A response assembled for a query that was built, with its question, passes. */
  lemma ResponseEchoes(ip: IpText, domain: string, qtype: u16, qid: u16, edns: bool, ecs: Option<string>,
                       udpSize: Option<u32>, padding: bool, c: UdpResp)
    requires Encode(domain).Ok?
    requires Query(ip, domain, qtype, qid, edns, ecs, udpSize, padding) == Ok(c.rawQuery) && |c.rawQuery| >= 12
    requires c.qbytes == Some(Encode(domain).value + Be16(qtype) + [0, 1])
    ensures UdpResponse(ip, c).Some? && Echoes(c.rawQuery, UdpResponse(ip, c).value)
  {
    hide Encode, Num16, QuestionName, Query, Be16, UdpResponse, Candidates, Kept, UsesBody, InfoOf, AnswerFlags, Wire;
    ResponseHeader(ip, c);
    EchoIff(ip, domain, qtype, qid, edns, ecs, udpSize, padding, UdpResponse(ip, c).value);
    var labels := EncodedLabels(domain);
    var r, n := UdpResponse(ip, c).value, Wire(labels);
    assert n + Be16(qtype) + [0, 1] == n + (Be16(qtype) + [0, 1]);
    var post := ResponseBehind(ip, c, n, Be16(qtype) + [0, 1]);
    NameFound(r[..12], labels, Be16(qtype) + [0, 1] + post);
    assert r == r[..12] + n + (Be16(qtype) + [0, 1] + post);
    assert r[12 + |n|..16 + |n|] == Be16(qtype) + [0, 1];
  }

  lemma ResponseBehind(ip: IpText, c: UdpResp, n: seq<byte>, fixed: seq<byte>) returns (post: seq<byte>)
    requires |c.rawQuery| >= 12 && c.qbytes == Some(n + fixed)
    ensures UdpResponse(ip, c).Some? && |UdpResponse(ip, c).value| >= 12
    ensures UdpResponse(ip, c).value == UdpResponse(ip, c).value[..12] + n + fixed + post
  {
    hide Header, Candidates, Kept, UsesBody, InfoOf, Concat;
    FewKept(ip, c);
    var r := UdpResponse(ip, c).value;
    assert r[12..12 + |n + fixed|] == n + fixed;
    post := r[12 + |n + fixed|..];
    assert r == r[..12] + r[12..12 + |n + fixed|] + post;
    assert r[..12] + (n + fixed) + post == r[..12] + n + fixed + post;
  }

  lemma NameFound(h: seq<byte>, labels: WireLabels, post: seq<byte>)
    requires |h| == 12 && Short(labels) && Num16(h[4], h[5]) >= 1
    ensures QuestionName(h + Wire(labels) + post) == Some(Wire(labels))
  {
    hide NameScan, Wire, Num16;
    NameScanWire(h, labels, post);
    var data := h + Wire(labels) + post;
    assert data[12..12 + |Wire(labels)|] == Wire(labels) && data[4] == h[4] && data[5] == h[5];
  }
}
