/** Whole messages: header, question section and the three record sections. */
module Messages {
  import opened Wrappers
  import opened Bytes
  import opened Names
  import opened RecordData

  datatype Question = Question(name: string, qtype: u16, qclass: u16)

  datatype Record = Record(name: string, rtype: u16, rclass: u16, ttl: u32, rdata: RData)

  datatype Message = Message(id: u16, flags: u16, qd: u16, an: u16, ns: u16, ar: u16,
                             rcode: nat, opcode: nat, truncated: bool, ra: bool, rd: bool,
                             questions: seq<Question>, answers: seq<Record>, authority: seq<Record>,
                                 additional: seq<Record>)

  /** What a section holds, and the position behind it. */
  datatype Part<T> = Part(items: seq<T>, end: nat)

  function QuestionAt(data: seq<byte>, pos: nat): Result<Part<Question>> {
    match Walk(data, pos, 0, 0)
    case Err(e) => Err(e)
    case Ok(w) =>
      if w.end + 4 > |data| then Err(Truncated)
      else
        Ok(Part([Question(NameText(w.labels), Num16(data[w.end], data[w.end + 1]),
            Num16(data[w.end + 2], data[w.end + 3]))],
                w.end + 4))
  }

  /** One record; its data may be dropped, but its length always counts. */
  function RecordAt(data: seq<byte>, pos: nat): Result<Part<Record>> {
    match Walk(data, pos, 0, 0)
    case Err(e) => Err(e)
    case Ok(w) =>
      var p := w.end;
      if p + 10 > |data| then Err(Truncated)
      else
        var rtype, rdlen := Num16(data[p], data[p + 1]), Num16(data[p + 8], data[p + 9]);
        if p + 10 + rdlen > |data| then Err(Truncated)
        else if rtype == TYPE_OPT then Ok(Part([], p + 10 + rdlen))
        else
          match ParseRData(data, p + 10, rtype, rdlen)
          case None => Ok(Part([], p + 10 + rdlen))
          case Some(r) =>
            Ok(Part([Record(NameText(w.labels), rtype, Num16(data[p + 2], data[p + 3]), Word32(data, p + 4), r)],
                p + 10 + rdlen))
  }

  function Questions(data: seq<byte>, pos: nat, count: nat): Result<Part<Question>>
    decreases count
  {
    if count == 0 then Ok(Part([], pos))
    else
      match QuestionAt(data, pos)
      case Err(e) => Err(e)
      case Ok(q) =>
        match Questions(data, q.end, count - 1)
        case Err(e) => Err(e)
        case Ok(more) => Ok(Part(q.items + more.items, more.end))
  }

  function Section(data: seq<byte>, pos: nat, count: nat): Result<Part<Record>>
    decreases count
  {
    if count == 0 then Ok(Part([], pos))
    else
      match RecordAt(data, pos)
      case Err(e) => Err(e)
      case Ok(r) =>
        match Section(data, r.end, count - 1)
        case Err(e) => Err(e)
        case Ok(more) => Ok(Part(r.items + more.items, more.end))
  }

  /** The message, and the position behind its last record. */
  datatype Parsed = Parsed(message: Message, end: nat)

  function Sections(data: seq<byte>, questions: Part<Question>): Result<Parsed>
    requires |data| >= 12
  {
    var an, ns, ar := Num16(data[6], data[7]), Num16(data[8], data[9]), Num16(data[10], data[11]);
    match Section(data, questions.end, an)
    case Err(e) => Err(e)
    case Ok(a) =>
      match Section(data, a.end, ns)
      case Err(e) => Err(e)
      case Ok(b) =>
        match Section(data, b.end, ar)
        case Err(e) => Err(e)
        case Ok(c) =>
          var flags := Num16(data[2], data[3]);
          Ok(Parsed(Message(Num16(data[0], data[1]), flags, Num16(data[4], data[5]), an, ns, ar,
                            flags % 16, flags / 2048 % 16, flags / 512 % 2 == 1, flags / 128 % 2 == 1,
                                flags / 256 % 2 == 1,
                            questions.items, a.items, b.items, c.items), c.end))
  }

  function ParseMessage(data: seq<byte>): Result<Parsed> {
    if |data| < 12 then Err(Truncated)
    else
      match Questions(data, 12, Num16(data[4], data[5]))
      case Err(e) => Err(e)
      case Ok(q) => Sections(data, q)
  }

  lemma {:induction false} AsManyQuestions(data: seq<byte>, pos: nat, count: nat)
    ensures var r := Questions(data, pos, count); r.Ok? ==> |r.value.items| == count
    decreases count
  {
    hide QuestionAt;
    if count > 0 && QuestionAt(data, pos).Ok? {
      OneQuestionAt(data, pos);
      AsManyQuestions(data, QuestionAt(data, pos).value.end, count - 1);
    }
  }

  lemma OneQuestionAt(data: seq<byte>, pos: nat)
    ensures var r := QuestionAt(data, pos); r.Ok? ==> |r.value.items| == 1
  {
  }

  lemma {:induction false} NoMoreRecords(data: seq<byte>, pos: nat, count: nat)
    ensures var r := Section(data, pos, count); r.Ok? ==> |r.value.items| <= count
    decreases count
  {
    hide RecordAt;
    if count > 0 && RecordAt(data, pos).Ok? {
      OneRecordAt(data, pos);
      NoMoreRecords(data, RecordAt(data, pos).value.end, count - 1);
    }
  }

  lemma OneRecordAt(data: seq<byte>, pos: nat)
    ensures var r := RecordAt(data, pos); r.Ok? ==> |r.value.items| <= 1
  {
  }

  lemma {:induction false} QuestionsInside(data: seq<byte>, pos: nat, count: nat)
    requires pos <= |data|
    ensures var r := Questions(data, pos, count); r.Ok? ==> pos + 5 * count <= r.value.end <= |data|
    decreases count
  {
    if count > 0 {
      WalkBounds(data, pos, 0, 0);
      hide Walk, NameText;
      if QuestionAt(data, pos).Ok? {
        QuestionsInside(data, QuestionAt(data, pos).value.end, count - 1);
      }
    }
  }

  lemma {:induction false} SectionInside(data: seq<byte>, pos: nat, count: nat)
    requires pos <= |data|
    ensures var r := Section(data, pos, count); r.Ok? ==> pos + 11 * count <= r.value.end <= |data|
    decreases count
  {
    if count > 0 {
      RecordInside(data, pos);
      hide RecordAt;
      if RecordAt(data, pos).Ok? {
        SectionInside(data, RecordAt(data, pos).value.end, count - 1);
      }
    }
  }

  lemma RecordInside(data: seq<byte>, pos: nat)
    requires pos <= |data|
    ensures var r := RecordAt(data, pos); r.Ok? ==> pos + 11 <= r.value.end <= |data|
  {
    WalkBounds(data, pos, 0, 0);
    hide Walk, NameText, ParseRData, Num16, Word32;
  }

  /** A message that can be parsed holds all that its counts announce, at least five bytes for
      every question and eleven for every record, and nothing is read beyond its end. */
  lemma ParsedInside(data: seq<byte>)
    requires ParseMessage(data).Ok?
    ensures var p := ParseMessage(data).value;
            12 + 5 * p.message.qd + 11 * (p.message.an + p.message.ns + p.message.ar) <= p.end <= |data|
  {
    hide Questions, Section, Num16;
    QuestionsInside(data, 12, Num16(data[4], data[5]));
    var q := Questions(data, 12, Num16(data[4], data[5])).value;
    var an, ns, ar := Num16(data[6], data[7]), Num16(data[8], data[9]), Num16(data[10], data[11]);
    SectionInside(data, q.end, an);
    var a := Section(data, q.end, an).value;
    SectionInside(data, a.end, ns);
    var b := Section(data, a.end, ns).value;
    SectionInside(data, b.end, ar);
  }

  /** Of every message that can be parsed: the header fields are those of its first twelve
      bytes, there are as many questions as it announces, and no more records. */
  lemma ParsedHeader(data: seq<byte>)
    requires ParseMessage(data).Ok?
    ensures |data| >= 12
    ensures var m, f := ParseMessage(data).value.message, Num16(data[2], data[3]);
            && m.id == Num16(data[0], data[1]) && m.flags == f
            && m.opcode == f / 0x800 % 16 && m.rcode == f % 16 && m.truncated == (f / 0x200 % 2 == 1)
            && m.rd == (f / 0x100 % 2 == 1) && m.ra == (f / 0x80 % 2 == 1)
            && m.qd == Num16(data[4], data[5]) == |m.questions|
            && m.an == Num16(data[6], data[7]) >= |m.answers| && m.ns == Num16(data[8], data[9]) >= |m.authority|
            && m.ar == Num16(data[10], data[11]) >= |m.additional|
  {
    hide Questions, Section, Num16;
    AsManyQuestions(data, 12, Num16(data[4], data[5]));
    var q := Questions(data, 12, Num16(data[4], data[5])).value;
    var an, ns, ar := Num16(data[6], data[7]), Num16(data[8], data[9]), Num16(data[10], data[11]);
    NoMoreRecords(data, q.end, an);
    var a := Section(data, q.end, an).value;
    NoMoreRecords(data, a.end, ns);
    var b := Section(data, a.end, ns).value;
    NoMoreRecords(data, b.end, ar);
  }

  // ---- the loops ----

  /** Items so far, then those still ahead. */
  function Joined<T>(done: seq<T>, rest: Result<Part<T>>): Result<Part<T>> {
    match rest
    case Err(e) => Err(e)
    case Ok(r) => Ok(Part(done + r.items, r.end))
  }

  lemma SectionStep(data: seq<byte>, pos: nat, count: nat, done: seq<Record>)
    ensures Joined(done, Section(data, pos, count)) ==
            if count == 0 then Ok(Part(done, pos))
            else
              match RecordAt(data, pos)
              case Err(e) => Err(e)
              case Ok(r) => Joined(done + r.items, Section(data, r.end, count - 1))
    ensures done == [] ==> Joined(done, Section(data, pos, count)) == Section(data, pos, count)
  {
    assert done + [] == done;
    if count > 0 && RecordAt(data, pos).Ok? {
      var r := RecordAt(data, pos).value;
      var more := Section(data, r.end, count - 1);
      if more.Ok? {
        assert done + (r.items + more.value.items) == done + r.items + more.value.items;
      }
    }
    if Section(data, pos, count).Ok? {
      assert [] + Section(data, pos, count).value.items == Section(data, pos, count).value.items;
    }
  }

  method ParseSection(data: seq<byte>, start: nat, count: u16) returns (r: Result<Part<Record>>)
    ensures r == Section(data, start, count)
  {
    hide Section, Joined, ParseRData, Num16, NameText, Decode;
    var pos: nat, out: seq<Record>, i: nat := start, [], 0;
    SectionStep(data, pos, count, out);
    while i < count
      invariant i <= count
      invariant Section(data, start, count) == Joined(out, Section(data, pos, count - i))
    {
      SectionStep(data, pos, count - i, out);
      var name := DecodeName(data, pos);
      if name.Err? {
        DecodeWalk(data, pos);
        return Err(name.error);
      }
      DecodeWalk(data, pos);
      pos := name.value.end;
      if pos + 10 > |data| {
        return Err(Truncated);
      }
      var rtype, rdlen := Num16(data[pos], data[pos + 1]), Num16(data[pos + 8], data[pos + 9]);
      var rclass, ttl := Num16(data[pos + 2], data[pos + 3]), Word32(data, pos + 4);
      pos := pos + 10;
      if pos + rdlen > |data| {
        return Err(Truncated);
      }
      i := i + 1;
      if rtype == TYPE_OPT {
        assert out + [] == out;
        pos := pos + rdlen;
        continue;
      }
      var value := ParseRData(data, pos, rtype, rdlen);
      pos := pos + rdlen;
      if value.Some? {
        out := out + [Record(name.value.name, rtype, rclass, ttl, value.value)];
      } else {
        assert out + [] == out;
      }
    }
    SectionStep(data, pos, 0, out);
    r := Ok(Part(out, pos));
  }

  lemma DecodeWalk(data: seq<byte>, pos: nat)
    ensures Decode(data, pos) == match Walk(data, pos, 0, 0)
                                 case Err(e) => Err(e)
                                 case Ok(w) => Ok(Decoded(NameText(w.labels), w.end))
  {
  }

  lemma QuestionsStep(data: seq<byte>, pos: nat, count: nat, done: seq<Question>)
    ensures Joined(done, Questions(data, pos, count)) ==
            if count == 0 then Ok(Part(done, pos))
            else
              match QuestionAt(data, pos)
              case Err(e) => Err(e)
              case Ok(q) => Joined(done + q.items, Questions(data, q.end, count - 1))
    ensures done == [] ==> Joined(done, Questions(data, pos, count)) == Questions(data, pos, count)
  {
    assert done + [] == done;
    if count > 0 && QuestionAt(data, pos).Ok? {
      var q := QuestionAt(data, pos).value;
      var more := Questions(data, q.end, count - 1);
      if more.Ok? {
        assert done + (q.items + more.value.items) == done + q.items + more.value.items;
      }
    }
    if Questions(data, pos, count).Ok? {
      assert [] + Questions(data, pos, count).value.items == Questions(data, pos, count).value.items;
    }
  }

  method ParseQuestions(data: seq<byte>, start: nat, count: u16) returns (r: Result<Part<Question>>)
    ensures r == Questions(data, start, count)
  {
    hide Questions, Joined, Num16, NameText, Decode;
    var pos: nat, out: seq<Question>, i: nat := start, [], 0;
    QuestionsStep(data, pos, count, out);
    while i < count
      invariant i <= count
      invariant Questions(data, start, count) == Joined(out, Questions(data, pos, count - i))
    {
      QuestionsStep(data, pos, count - i, out);
      DecodeWalk(data, pos);
      var name := DecodeName(data, pos);
      if name.Err? {
        return Err(name.error);
      }
      pos := name.value.end;
      if pos + 4 > |data| {
        return Err(Truncated);
      }
      var qtype, qclass := Num16(data[pos], data[pos + 1]), Num16(data[pos + 2], data[pos + 3]);
      pos := pos + 4;
      out := out + [Question(name.value.name, qtype, qclass)];
      i := i + 1;
    }
    QuestionsStep(data, pos, 0, out);
    r := Ok(Part(out, pos));
  }

  method Parse(data: seq<byte>) returns (r: Result<Message>)
    ensures r == match ParseMessage(data) case Err(e) => Err(e) case Ok(p) => Ok(p.message)
  {
    hide Questions, Section;
    if |data| < 12 {
      return Err(Truncated);
    }
    var flags := Num16(data[2], data[3]);
    var qd, an, ns, ar := Num16(data[4], data[5]), Num16(data[6], data[7]), Num16(data[8], data[9]),
        Num16(data[10], data[11]);
    var questions := ParseQuestions(data, 12, qd);
    if questions.Err? {
      return Err(questions.error);
    }
    var answers := ParseSection(data, questions.value.end, an);
    if answers.Err? {
      return Err(answers.error);
    }
    var authority := ParseSection(data, answers.value.end, ns);
    if authority.Err? {
      return Err(authority.error);
    }
    var additional := ParseSection(data, authority.value.end, ar);
    if additional.Err? {
      return Err(additional.error);
    }
    r := Ok(Message(Num16(data[0], data[1]), flags, qd, an, ns, ar,
                    flags % 16, flags / 2048 % 16, flags / 512 % 2 == 1, flags / 128 % 2 == 1, flags / 256 % 2 == 1,
                    questions.value.items, answers.value.items, authority.value.items, additional.value.items));
  }

  // ---- walking what was assembled ----

  /** A record as it is written: an uncompressed owner, the fixed fields and the data. */
  datatype Written = Written(owner: WireLabels, rtype: u16, rclass: u16, ttl: u32, rdata: seq<byte>)

  predicate Good(w: Written) {
    Short(w.owner) && Size(w.owner) < MAX_NAME && |w.rdata| < 0x1_0000
  }

  predicate AllGood(ws: seq<Written>) {
    forall i :: 0 <= i < |ws| ==> Good(ws[i])
  }

  function RecordBytes(w: Written): seq<byte>
    requires Good(w)
  {
    Wire(w.owner) + (Be16(w.rtype) + Be16(w.rclass) + Be32(w.ttl) + Be16(|w.rdata|)) + w.rdata
  }

  /** What a record at `pos` is read as: its owner and fields, with the data parsed where
      it stands; nothing for an OPT record or data that does not parse. */
  function ReadAs(data: seq<byte>, pos: nat, w: Written): seq<Record>
    requires Good(w)
  {
    var parsed := ParseRData(data, pos + |Wire(w.owner)| + 10, w.rtype, |w.rdata|);
    if w.rtype == TYPE_OPT || parsed.None? then []
    else [Record(NameText(w.owner), w.rtype, w.rclass, w.ttl, parsed.value)]
  }

  function AllReadAs(data: seq<byte>, pos: nat, ws: seq<Written>): seq<Record>
    requires AllGood(ws)
    decreases |ws|
  {
    if ws == [] then []
    else ReadAs(data, pos, ws[0]) + AllReadAs(data, pos + |RecordBytes(ws[0])|, ws[1..])
  }

  function AllBytes(ws: seq<Written>): seq<byte>
    requires AllGood(ws)
  {
    if ws == [] then [] else RecordBytes(ws[0]) + AllBytes(ws[1..])
  }

  /** A well-formed record is read exactly, wherever it stands. */
  lemma RecordWalked(pre: seq<byte>, w: Written, post: seq<byte>)
    requires Good(w)
    ensures var b := RecordBytes(w);
            var data := pre + b + post;
            && RecordAt(data, |pre|) == Ok(Part(ReadAs(data, |pre|, w), |pre| + |b|))
            && var p := |pre| + |Wire(w.owner)| + 10; p + |w.rdata| <= |data| && data[p..p + |w.rdata|] == w.rdata
  {
    hide Wire, Walk, ParseRData, Be16, Be32, NameText, Num16, Word32;
    var fixed := Be16(w.rtype) + Be16(w.rclass) + Be32(w.ttl) + Be16(|w.rdata|);
    WalkWire(pre, w.owner, fixed + w.rdata + post, 0, 0);
    FixedFields(pre, Wire(w.owner), w, post);
  }

  lemma FixedFields(pre: seq<byte>, name: seq<byte>, w: Written, post: seq<byte>)
    requires |w.rdata| < 0x1_0000
    ensures var fixed := Be16(w.rtype) + Be16(w.rclass) + Be32(w.ttl) + Be16(|w.rdata|);
            var data, p := pre + (name + fixed + w.rdata) + post, |pre| + |name|;
            && |fixed| == 10 && data == pre + name + (fixed + w.rdata + post)
            && p + 10 + |w.rdata| <= |data| && data[p + 10..p + 10 + |w.rdata|] == w.rdata
            && Num16(data[p], data[p + 1]) == w.rtype && Num16(data[p + 2], data[p + 3]) == w.rclass
            && Word32(data, p + 4) == w.ttl && Num16(data[p + 8], data[p + 9]) == |w.rdata|
  {
    var fixed := Be16(w.rtype) + Be16(w.rclass) + Be32(w.ttl) + Be16(|w.rdata|);
    var data, p := pre + (name + fixed + w.rdata) + post, |pre| + |name|;
    assert forall i :: 0 <= i < 10 ==> data[p + i] == fixed[i];
    Be16RoundTrip(w.rtype, 0, 0);
    Be16RoundTrip(w.rclass, 0, 0);
    Be16RoundTrip(|w.rdata|, 0, 0);
    Be32RoundTrip(w.ttl);
    hide Be16, Be32, Num16, Num32;
    assert fixed[0] == Be16(w.rtype)[0] && fixed[1] == Be16(w.rtype)[1];
    assert fixed[2] == Be16(w.rclass)[0] && fixed[3] == Be16(w.rclass)[1];
    var t := Be32(w.ttl);
    assert fixed[4] == t[0] && fixed[5] == t[1] && fixed[6] == t[2] && fixed[7] == t[3];
    assert fixed[8] == Be16(|w.rdata|)[0] && fixed[9] == Be16(|w.rdata|)[1];
  }

  function Concat(chunks: seq<seq<byte>>): seq<byte> {
    if chunks == [] then [] else chunks[0] + Concat(chunks[1..])
  }

  /** A section of well-formed records is read exactly. */
  lemma {:induction false} SectionWalked(pre: seq<byte>, ws: seq<Written>, post: seq<byte>)
    requires AllGood(ws)
    ensures var data := pre + AllBytes(ws) + post;
            Section(data, |pre|, |ws|) == Ok(Part(AllReadAs(data, |pre|, ws), |pre| + |AllBytes(ws)|))
    decreases |ws|
  {
    hide RecordAt, Good, RecordBytes, ReadAs;
    var data := pre + AllBytes(ws) + post;
    if ws != [] {
      var head, tail := RecordBytes(ws[0]), AllBytes(ws[1..]);
      RecordWalked(pre, ws[0], tail + post);
      assert data == pre + head + (tail + post);
      SectionWalked(pre + head, ws[1..], post);
      assert data == (pre + head) + tail + post;
    }
  }

  /** A question as it is written is read exactly. */
  lemma QuestionWalked(pre: seq<byte>, labels: WireLabels, fixed: seq<byte>, post: seq<byte>)
    requires Short(labels) && Size(labels) < MAX_NAME && |fixed| == 4
    ensures var b := Wire(labels) + fixed;
            Questions(pre + b + post, |pre|, 1)
            == Ok(Part([Question(NameText(labels), Num16(fixed[0], fixed[1]), Num16(fixed[2], fixed[3]))],
                       |pre| + |b|))
  {
    hide Wire, Walk, NameText, Num16;
    var b := Wire(labels) + fixed;
    var data := pre + b + post;
    assert data == pre + Wire(labels) + (fixed + post);
    WalkWire(pre, labels, fixed + post, 0, 0);
    var p := |pre| + |Wire(labels)|;
    assert data[p] == fixed[0] && data[p + 1] == fixed[1] && data[p + 2] == fixed[2] && data[p + 3] == fixed[3];
    var q := [Question(NameText(labels), Num16(fixed[0], fixed[1]), Num16(fixed[2], fixed[3]))];
    assert QuestionAt(data, |pre|) == Ok(Part(q, |pre| + |b|));
    QuestionsStep(data, |pre|, 1, []);
    QuestionsStep(data, |pre| + |b|, 0, q);
    assert [] + q == q;
  }

}
