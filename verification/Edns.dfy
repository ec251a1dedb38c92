/** EDNS: finding the question and the OPT record of a query, padding, and queries. */
module Edns {
  import opened Wrappers
  import opened Bytes
  import opened Names
  import opened SvcParams
  import opened RecordData

  const DEFAULT_BUF: u16 := 512
  const DEFAULT_UDP: u16 := 1232
  const MAX_UDP: u16 := 9000
  const PADDING_BLOCK: nat := 128
  const PADDING_MAX: nat := 512
  const OPTION_ECS: u16 := 8
  const OPTION_PADDING: u16 := 12
  const CLASS_IN: u16 := 1
  const FLAG_RD: u16 := 0x0100

  datatype EdnsInfo = EdnsInfo(qbytes: Option<seq<byte>>, bufsize: u16, optBytes: Option<seq<byte>>)

  const NOTHING := EdnsInfo(None, DEFAULT_BUF, None)

  /** How walking over a name by its length bytes ends: behind the root byte, at a
      pointer, at an illegal length, or past the end of the message. */
  datatype NameStop = Root(pos: nat) | Jump(pos: nat) | Illegal(pos: nat) | Overrun(pos: nat)

  function NameScan(data: seq<byte>, pos: nat): (r: NameStop)
    requires pos < |data|
    ensures r.Overrun? <==> r.pos >= |data| && !r.Root?
    ensures r.Root? ==> pos < r.pos <= |data|
    ensures r.pos >= pos
    decreases |data| - pos
  {
    var n := data[pos];
    if n == 0 then Root(pos + 1)
    else if n >= 192 then Jump(pos)
    else if n >= 64 then Illegal(pos)
    else if pos + 1 + n >= |data| then Overrun(pos + 1 + n)
    else NameScan(data, pos + 1 + n)
  }

  method ScanName(data: seq<byte>, start: nat) returns (r: NameStop)
    requires start < |data|
    ensures r == NameScan(data, start)
  {
    var pos := start;
    while true
      invariant start <= pos < |data| && NameScan(data, start) == NameScan(data, pos)
      decreases |data| - pos
    {
      var n := data[pos];
      if n == 0 {
        return Root(pos + 1);
      }
      if n >= 192 {
        return Jump(pos);
      }
      if n >= 64 {
        return Illegal(pos);
      }
      pos := pos + 1 + n;
      if pos >= |data| {
        return Overrun(pos);
      }
    }
  }

  // ---- the question section ----

  /** Either the walk goes on behind the questions, or it ends with this result. */
  datatype Walkthrough = Behind(pos: nat, qbytes: Option<seq<byte>>) | Ends(info: EdnsInfo)

  function EndWith(first: bool, qbytes: Option<seq<byte>>): Walkthrough {
    Ends(EdnsInfo(if first then None else qbytes, DEFAULT_BUF, None))
  }

  /** One question; a pointer is tolerated only after the first one. */
  function OneQuestion(data: seq<byte>, pos: nat, first: bool, qbytes: Option<seq<byte>>): (r: Walkthrough)
    ensures r.Behind? ==> r.pos > pos
  {
    if pos >= |data| then EndWith(first, qbytes)
    else
      match NameScan(data, pos)
      case Illegal(_) => EndWith(first, qbytes)
      case Overrun(_) => EndWith(first, qbytes)
      case Jump(at) =>
        if first then Ends(NOTHING)
        else if at + 1 >= |data| then EndWith(first, qbytes)
        else NameDone(data, pos, at + 2, first, qbytes)
      case Root(next) => NameDone(data, pos, next, first, qbytes)
  }

  function NameDone(data: seq<byte>, start: nat, pos: nat, first: bool, qbytes: Option<seq<byte>>): Walkthrough
    requires start <= pos
  {
    if pos + 4 > |data| then EndWith(first, qbytes)
    else Behind(pos + 4, if first then Some(data[start..pos + 4]) else qbytes)
  }

  function ScanQuestions(data: seq<byte>, pos: nat, first: bool, count: nat, qbytes: Option<seq<byte>>): Walkthrough
    decreases count
  {
    if count == 0 then Behind(pos, qbytes)
    else
      match OneQuestion(data, pos, first, qbytes)
      case Ends(info) => Ends(info)
      case Behind(next, q) => ScanQuestions(data, next, false, count - 1, q)
  }

  // ---- the additional section ----

  datatype Opt = Opt(bufsize: u16, bytes: Option<seq<byte>>)

  function ClampReceived(raw: u16): u16 {
    if raw < DEFAULT_BUF then DEFAULT_BUF else raw
  }

  /** Behind the owner name of an additional record, and whether to skip the record;
      `None` when the message has ended. */
  function OwnerEnd(data: seq<byte>, pos: nat): (r: Option<(nat, bool)>)
    ensures r.Some? ==> r.value.0 >= pos
  {
    if pos >= |data| then None
    else
      match NameScan(data, pos)
      case Root(next) => Some((next, false))
      case Overrun(at) => Some((at, false))
      case Illegal(at) => Some((at, true))
      case Jump(at) =>
        if at + 1 >= |data| then Some((at + 2, true))
        else
          var ptr := (data[at] as int - 192) * 256 + data[at + 1] as int;
          Some((at + 2, !(ptr < at && ptr < |data|)))
  }

  function ScanAdditional(data: seq<byte>, pos: nat, count: nat, opt: Opt): Opt
    decreases count
  {
    if count == 0 then opt
    else
      match OwnerEnd(data, pos)
      case None => opt
      case Some((p, skip)) =>
        if p + 10 > |data| then opt
        else
          var end := p + 10 + Num16(data[p + 8], data[p + 9]);
          if end > |data| then opt
          else if !skip && Num16(data[p], data[p + 1]) == TYPE_OPT then
            ScanAdditional(data, end, count - 1, Opt(ClampReceived(Num16(data[p + 2], data[p + 3])),
                Some(data[pos..end])))
          else ScanAdditional(data, end, count - 1, opt)
  }

  function QuestionEdnsInfo(data: seq<byte>): EdnsInfo {
    if |data| < 12 then NOTHING
    else
      match ScanQuestions(data, 12, true, Num16(data[4], data[5]), None)
      case Ends(info) => info
      case Behind(pos, qbytes) =>
        var opt := ScanAdditional(data, pos, Num16(data[10], data[11]), Opt(DEFAULT_BUF, None));
        EdnsInfo(qbytes, opt.bufsize, opt.bytes)
  }

  method FindQuestionAndOpt(data: seq<byte>) returns (info: EdnsInfo)
    ensures info == QuestionEdnsInfo(data)
  {
    hide ScanAdditional, Num16;
    if |data| < 12 {
      return NOTHING;
    }
    var qd, ar := Num16(data[4], data[5]), Num16(data[10], data[11]);
    var pos: nat, qbytes: Option<seq<byte>>, i: nat := 12, None, 0;
    while i < qd
      invariant i <= qd
      invariant ScanQuestions(data, 12, true, qd, None) == ScanQuestions(data, pos, i == 0, qd - i, qbytes)
    {
      var start := pos;
      if pos >= |data| {
        return EdnsInfo(if i == 0 then None else qbytes, DEFAULT_BUF, None);
      }
      var stop := ScanName(data, pos);
      match stop {
        case Root(next) => pos := next;
        case Jump(at) =>
          if i == 0 {
            return NOTHING;
          }
          if at + 1 >= |data| {
            return EdnsInfo(if i == 0 then None else qbytes, DEFAULT_BUF, None);
          }
          pos := at + 2;
        case Illegal(_) => return EdnsInfo(if i == 0 then None else qbytes, DEFAULT_BUF, None);
        case Overrun(_) => return EdnsInfo(if i == 0 then None else qbytes, DEFAULT_BUF, None);
      }
      if pos + 4 > |data| {
        return EdnsInfo(if i == 0 then None else qbytes, DEFAULT_BUF, None);
      }
      if i == 0 {
        qbytes := Some(data[start..pos + 4]);
      }
      pos := pos + 4;
      i := i + 1;
    }
    var opt := FindOpt(data, pos, ar);
    info := EdnsInfo(qbytes, opt.bufsize, opt.bytes);
  }

  /** One round of the walk over the additional section. */
  lemma ScanStep(data: seq<byte>, pos: nat, count: nat, opt: Opt)
    ensures ScanAdditional(data, pos, count, opt) ==
            if count == 0 || pos >= |data| then opt
            else
              var stop := NameScan(data, pos);
              var cut := stop.Jump? && stop.pos + 1 >= |data|;
              var ptr := if stop.Jump? && !cut then (data[stop.pos] as int - 192) * 256 + data[stop.pos + 1] as int
                  else 0;
              var skip := stop.Illegal? || (stop.Jump? && (cut || !(ptr < stop.pos && ptr < |data|)));
              var p := if stop.Jump? then stop.pos + 2 else stop.pos;
              if p + 10 > |data| then opt
              else
                var end := p + 10 + Num16(data[p + 8], data[p + 9]);
                if end > |data| then opt
                else if !skip && Num16(data[p], data[p + 1]) == TYPE_OPT then
                  ScanAdditional(data, end, count - 1, Opt(ClampReceived(Num16(data[p + 2], data[p + 3])),
                      Some(data[pos..end])))
                else ScanAdditional(data, end, count - 1, opt)
  {
    hide NameScan, Num16;
  }

  method FindOpt(data: seq<byte>, start: nat, ar: u16) returns (opt: Opt)
    ensures opt == ScanAdditional(data, start, ar, Opt(DEFAULT_BUF, None))
  {
    hide NameScan, Num16, ScanAdditional, OwnerEnd;
    opt := Opt(DEFAULT_BUF, None);
    var pos: nat, i: nat := start, 0;
    while i < ar
      invariant i <= ar
      invariant ScanAdditional(data, start, ar, Opt(DEFAULT_BUF, None)) == ScanAdditional(data, pos, ar - i, opt)
    {
      ScanStep(data, pos, ar - i, opt);
      if pos >= |data| {
        return;
      }
      var rstart := pos;
      var skip := false;
      var stop := ScanName(data, pos);
      pos := stop.pos;
      if stop.Illegal? {
        skip := true;
      } else if stop.Jump? {
        if pos + 1 >= |data| {
          skip := true;
        } else {
          var ptr := (data[pos] as int - 192) * 256 + data[pos + 1] as int;
          if !(ptr < pos && ptr < |data|) {
            skip := true;
          }
        }
        pos := pos + 2;
      }
      if pos + 10 > |data| {
        return;
      }
      var end := pos + 10 + Num16(data[pos + 8], data[pos + 9]);
      if end > |data| {
        return;
      }
      if !skip && Num16(data[pos], data[pos + 1]) == TYPE_OPT {
        opt := Opt(ClampReceived(Num16(data[pos + 2], data[pos + 3])), Some(data[rstart..end]));
      }
      pos := end;
      i := i + 1;
    }
    ScanStep(data, pos, 0, opt);
  }

  // ---- building ----

  function MinNat(a: nat, b: nat): nat {
    if a < b then a else b
  }

  /** The client-subnet option; nothing when the address is malformed. */
  function EcsOption(ip: IpText, subnet: string): seq<byte> {
    var (addr, prefix) := match SplitOnce(subnet, '/')
                          case Some((a, p)) => (a, match ParseU32(p) case Some(n) => n as nat case None => 32)
                          case None => (subnet, 32);
    match ip.parse4(addr)
    case Some(v4) => EcsBytes(1, MinNat(prefix, 32), v4)
    case None =>
      match ip.parse6(addr)
      case Some(v6) => EcsBytes(2, MinNat(if SplitOnce(subnet, '/').None? then 128 else prefix, 128), v6)
      case None => []
  }

  function EcsBytes(family: u16, prefix: nat, address: seq<byte>): (b: seq<byte>)
    requires prefix <= 128
    ensures |b| <= 24
  {
    var part := address[..MinNat((prefix + 7) / 8, |address|)];
    Be16(OPTION_ECS) + Be16(4 + |part|) + Be16(family) + [prefix, 0] + part
  }

  lemma EcsSmall(ip: IpText, subnet: string)
    ensures |EcsOption(ip, subnet)| <= 24
  {
  }

  /** The option holds its code 8 and its length, family 1 or 2, the prefix length, 0, and as
      many bytes of the address as the prefix needs. */
  function SubnetOption(family: byte, prefix: byte, address: seq<byte>): seq<byte>
    requires (prefix as nat + 7) / 8 <= |address| <= 16
  {
    var n := (prefix as nat + 7) / 8;
    [0, 8, 0, 4 + n, 0, family, prefix, 0] + address[..n]
  }

  /** What a subnet `addr` or `addr/text` is written as: the prefix defaults to the whole
      address, to 32 for a text that is no number, and is cut to the length of the address. */
  lemma SubnetWritten(ip: IpText, addr: string, text: Option<string>)
    requires Names.Without(addr, '/')
    requires ip.parse4(addr).Some? ==> |ip.parse4(addr).value| == 4
    requires ip.parse6(addr).Some? ==> |ip.parse6(addr).value| == 16
    ensures var subnet := match text case Some(t) => addr + "/" + t case None => addr;
            var given := match text
                         case Some(t) => (match ParseU32(t) case Some(n) => n as nat case None => 32)
                         case None => 128;
            EcsOption(ip, subnet) ==
            if ip.parse4(addr).Some? then SubnetOption(1, if given < 32 then given else 32, ip.parse4(addr).value)
            else if ip.parse6(addr).Some? then
              SubnetOption(2, if given < 128 then given else 128, ip.parse6(addr).value)
            else []
  {
    hide ParseU32, Be16, SplitOnce;
    match text {
      case Some(t) =>
        OnceSplit(addr, '/', t);
        assert addr + ['/'] + t == addr + "/" + t;
      case None => NeverSplit(addr, '/');
    }
    var prefix := match text
                  case Some(t) => (match ParseU32(t) case Some(n) => n as nat case None => 32)
                  case None => 128;
    if ip.parse4(addr).Some? {
      EcsIs(1, if prefix < 32 then prefix else 32, ip.parse4(addr).value);
    } else if ip.parse6(addr).Some? {
      EcsIs(2, if prefix < 128 then prefix else 128, ip.parse6(addr).value);
    }
  }

  lemma EcsIs(family: byte, prefix: byte, address: seq<byte>)
    requires prefix <= 128 && (prefix as nat + 7) / 8 <= |address| <= 16
    ensures EcsBytes(family, prefix, address) == SubnetOption(family, prefix, address)
  {
    SmallBe16();
    hide Be16;
  }

  lemma SmallBe16()
    ensures forall n: byte :: Be16(n) == [0, n]
  {
  }

  /** How many bytes of padding option bring a message of `prefix` bytes to a block. */
  function PaddingNeed(prefix: nat): nat {
    var gap := (PADDING_BLOCK - prefix % PADDING_BLOCK) % PADDING_BLOCK;
    var need := if gap < 4 then gap + PADDING_BLOCK else gap;
    MinNat(need, PADDING_MAX)
  }

  function Zeros(n: nat): (z: seq<byte>)
    ensures |z| == n && forall i :: 0 <= i < n ==> z[i] == 0
  {
    seq(n, _ => 0)
  }

  function Padded(options: seq<byte>, questionLen: nat): seq<byte> {
    var need := PaddingNeed(12 + questionLen + 11 + |options|);
    options + Be16(OPTION_PADDING) + Be16(if need < 4 then 0 else need - 4) + Zeros(if need < 4 then 0 else need - 4)
  }

  /** Padding always reaches the next block with room for its own header, and the upper
      limit on it is never what decides. */
  lemma PaddingFillsBlock(options: seq<byte>, questionLen: nat)
    ensures var prefix := 12 + questionLen + 11 + |options|;
            var total := 12 + questionLen + 11 + |Padded(options, questionLen)|;
            && total % PADDING_BLOCK == 0
            && prefix + 4 <= total <= prefix + PADDING_BLOCK + 3
            && 4 <= PaddingNeed(prefix) < PADDING_MAX
  {
    var prefix := 12 + questionLen + 11 + |options|;
    BlockGap(prefix);
    var need := PaddingNeed(prefix);
    assert |Padded(options, questionLen)| == |options| + need;
  }

  /** The padding follows the other options, under its code 12 and its length, and is zero. */
  lemma PaddingContent(options: seq<byte>, questionLen: nat)
    ensures var p := Padded(options, questionLen);
            && |p| >= |options| + 4 && p[..|options|] == options
            && p[|options|..|options| + 4] == [0, 12] + Be16(|p| - |options| - 4)
            && forall i :: |options| + 4 <= i < |p| ==> p[i] == 0
  {
    var prefix := 12 + questionLen + 11 + |options|;
    BlockGap(prefix);
    var p, z := Padded(options, questionLen), PaddingNeed(prefix) - 4;
    assert p == options + Be16(12) + Be16(z) + Zeros(z);
    assert Zeros(z) == seq(z, _ => 0);
  }

  lemma BlockGap(prefix: nat)
    ensures 4 <= PaddingNeed(prefix) <= 131 && (prefix + PaddingNeed(prefix)) % 128 == 0
  {
    var q, r := prefix / 128, prefix % 128;
    var need := PaddingNeed(prefix);
    assert prefix == 128 * q + r;
    if r == 0 {
      assert prefix + need == 128 * (q + 1);
    } else if 128 - r < 4 {
      assert prefix + need == 128 * (q + 2);
    } else {
      assert prefix + need == 128 * (q + 1);
    }
  }

  function OptRecord(bufsize: u16, options: seq<byte>): (b: seq<byte>)
    requires |options| < 0x1_0000
    ensures |b| == 11 + |options|
  {
    [0] + Be16(TYPE_OPT) + Be16(bufsize) + Be32(0) + Be16(|options|) + options
  }

  function ClampUdp(size: Option<u32>): (r: u16)
    ensures DEFAULT_BUF <= r <= MAX_UDP
  {
    match size
    case None => DEFAULT_UDP
    case Some(n) => if n == 0 then DEFAULT_UDP else if n < DEFAULT_BUF then DEFAULT_BUF else if n > MAX_UDP
        then MAX_UDP else n
  }

  function Options(ip: IpText, ecs: Option<string>, padding: bool, questionLen: nat): (o: seq<byte>) {
    var first := match ecs case Some(subnet) => EcsOption(ip, subnet) case None => [];
    if padding then Padded(first, questionLen) else first
  }

  lemma OptionsSmall(ip: IpText, ecs: Option<string>, padding: bool, questionLen: nat)
    ensures |Options(ip, ecs, padding, questionLen)| <= 200
  {
    if ecs.Some? {
      EcsSmall(ip, ecs.value);
    }
    var first := match ecs case Some(subnet) => EcsOption(ip, subnet) case None => [];
    PaddingFillsBlock(first, questionLen);
  }

  function QueryHead(qid: u16, edns: bool): (h: seq<byte>)
    ensures |h| == 12
  {
    Be16(qid) + Be16(FLAG_RD) + Be16(1) + Be16(0) + Be16(0) + Be16(if edns then 1 else 0)
  }

  function QuestionBytes(name: seq<byte>, qtype: u16): seq<byte> {
    name + Be16(qtype) + Be16(CLASS_IN)
  }

  function Query(ip: IpText, domain: string, qtype: u16, qid: u16, edns: bool, ecs: Option<string>,
                 udpSize: Option<u32>, padding: bool): Result<seq<byte>>
  {
    match Encode(domain)
    case Err(e) => Err(e)
    case Ok(name) =>
      var plain := QueryHead(qid, edns) + QuestionBytes(name, qtype);
      if !edns then Ok(plain)
      else
        OptionsSmall(ip, ecs, padding, |name| + 4);
        Ok(plain + OptRecord(ClampUdp(udpSize), Options(ip, ecs, padding, |name| + 4)))
  }

  method BuildQuery(ip: IpText, domain: string, qtype: u16, qid: u16, edns: bool, ecs: Option<string>,
                    udpSize: Option<u32>, padding: bool) returns (r: Result<seq<byte>>)
    ensures r == Query(ip, domain, qtype, qid, edns, ecs, udpSize, padding)
  {
    hide Encode, OptRecord, QueryHead, ClampUdp;
    var name := EncodeName(domain);
    if name.Err? {
      return Err(name.error);
    }
    var out := QueryHead(qid, edns);
    out := out + QuestionBytes(name.value, qtype);
    if edns {
      OptionsSmall(ip, ecs, padding, |name.value| + 4);
      var options: seq<byte> := [];
      if ecs.Some? {
        options := options + EcsOption(ip, ecs.value);
      }
      if padding {
        options := Padded(options, |name.value| + 4);
      }
      assert options == Options(ip, ecs, padding, |name.value| + 4);
      out := out + OptRecord(ClampUdp(udpSize), options);
    }
    r := Ok(out);
  }

  // ---- what a query says about itself ----

  lemma {:induction false} NameScanWire(pre: seq<byte>, labels: WireLabels, post: seq<byte>)
    requires Short(labels)
    ensures NameScan(pre + Wire(labels) + post, |pre|) == Root(|pre| + |Wire(labels)|)
    decreases |labels|
  {
    var data := pre + Wire(labels) + post;
    if labels != [] {
      var l, rest := labels[0], labels[1..];
      var head := pre + [|l|] + l;
      assert data == head + Wire(rest) + post;
      assert data[|pre|] == |l|;
      NameScanWire(head, rest, post);
    } else {
      assert data[|pre|] == 0;
    }
  }

  lemma EncodedLabels(domain: string) returns (labels: WireLabels)
    requires Encode(domain).Ok?
    ensures Short(labels) && Size(labels) < MAX_NAME && Encode(domain).value == Wire(labels)
  {
    LabelsAscii(domain);
    labels := RawLabels(Labels(domain));
  }

  lemma HeadCounts(qid: u16, edns: bool, more: seq<byte>)
    ensures var data := QueryHead(qid, edns) + more;
            Num16(data[4], data[5]) == 1 && Num16(data[10], data[11]) == if edns then 1 else 0
  {
    var h := QueryHead(qid, edns);
    var data := h + more;
    assert data[4] == h[4] && data[5] == h[5] && data[10] == h[10] && data[11] == h[11];
  }

  /** The OPT record at the end of a query is found whole. */
  lemma OptFound(pre: seq<byte>, size: u16, options: seq<byte>)
    requires |options| < 0x1_0000 && size >= DEFAULT_BUF
    ensures var o := OptRecord(size, options);
            ScanAdditional(pre + o, |pre|, 1, Opt(DEFAULT_BUF, None)) == Opt(size, Some(o))
  {
    var o := OptRecord(size, options);
    var data, p := pre + o, |pre| + 1;
    hide OptRecord, NameScan, Num16, ScanAdditional;
    OptFields(size, options);
    TailBytes(pre, o);
    RootAt(data, |pre|);
    LastOpt(data, |pre|, p, o);
  }

  lemma TailBytes(pre: seq<byte>, o: seq<byte>)
    ensures var data := pre + o;
            data[|pre|..|data|] == o && forall i :: 0 <= i < |o| ==> data[|pre| + i] == o[i]
  {
  }

  lemma RootAt(data: seq<byte>, pos: nat)
    requires pos < |data| && data[pos] == 0
    ensures NameScan(data, pos) == Root(pos + 1)
  {
  }

  lemma LastOpt(data: seq<byte>, pos: nat, p: nat, o: seq<byte>)
    requires OwnerEnd(data, pos) == Some((p, false)) && p + 10 <= |data|
    requires p + 10 + Num16(data[p + 8], data[p + 9]) == |data| && Num16(data[p], data[p + 1]) == TYPE_OPT
             && data[pos..|data|] == o
    ensures ScanAdditional(data, pos, 1, Opt(DEFAULT_BUF, None))
            == Opt(ClampReceived(Num16(data[p + 2], data[p + 3])), Some(o))
  {
    assert ScanAdditional(data, |data|, 0, Opt(ClampReceived(Num16(data[p + 2], data[p + 3])), Some(o)))
        == Opt(ClampReceived(Num16(data[p + 2], data[p + 3])), Some(o));
  }

  lemma OptFields(size: u16, options: seq<byte>)
    requires |options| < 0x1_0000
    ensures var o := OptRecord(size, options);
            o[0] == 0 && Num16(o[1], o[2]) == TYPE_OPT && Num16(o[3], o[4]) == size && Num16(o[9], o[10]) == |options|
  {
    Be16RoundTrip(size, 0, 0);
    Be16RoundTrip(|options|, 0, 0);
    Be16RoundTrip(TYPE_OPT, 0, 0);
  }

  /** Of every query that can be built, the question, the OPT record and the size are
      recovered exactly as they were put in. */
  lemma InfoOfQuery(ip: IpText, domain: string, qtype: u16, qid: u16, ecs: Option<string>, udpSize: Option<u32>,
                    padding: bool)
    requires Encode(domain).Ok?
    ensures var q := QuestionBytes(Encode(domain).value, qtype);
            var plain, full := Query(ip, domain, qtype, qid, false, ecs, udpSize, padding),
                Query(ip, domain, qtype, qid, true, ecs, udpSize, padding);
            && plain.Ok? && full.Ok?
            && QuestionEdnsInfo(plain.value) == EdnsInfo(Some(q), DEFAULT_BUF, None)
            && var o := full.value[12 + |q|..];
               QuestionEdnsInfo(full.value) == EdnsInfo(Some(q), ClampUdp(udpSize), Some(o))
               && |Options(ip, ecs, padding, |q|)| < 0x1_0000
                  && o == OptRecord(ClampUdp(udpSize), Options(ip, ecs, padding, |q|))
  {
    hide Encode, OptRecord, QueryHead, Options, ScanAdditional, ClampUdp, Wire, Num16;
    var labels := EncodedLabels(domain);
    var q := QuestionBytes(Wire(labels), qtype);
    OptionsSmall(ip, ecs, padding, |q|);
    var o := OptRecord(ClampUdp(udpSize), Options(ip, ecs, padding, |q|));
    var plain, full := QueryHead(qid, false) + q, QueryHead(qid, true) + q + o;
    QuestionFound(QueryHead(qid, false), labels, qtype, []);
    QuestionFound(QueryHead(qid, true), labels, qtype, o);
    HeadCounts(qid, false, q);
    HeadCounts(qid, true, q + o);
    assert plain + [] == plain && QueryHead(qid, true) + (q + o) == full;
    OptFound(QueryHead(qid, true) + q, ClampUdp(udpSize), Options(ip, ecs, padding, |q|));
    NoAdditional(plain, |plain|);
    assert full[12 + |q|..] == o;
  }

  lemma NoAdditional(data: seq<byte>, pos: nat)
    ensures ScanAdditional(data, pos, 0, Opt(DEFAULT_BUF, None)) == Opt(DEFAULT_BUF, None)
  {
  }

  lemma QuestionFound(head: seq<byte>, labels: WireLabels, qtype: u16, post: seq<byte>)
    requires Short(labels)
    ensures var q := QuestionBytes(Wire(labels), qtype);
            ScanQuestions(head + q + post, |head|, true, 1, None) == Behind(|head| + |q|, Some(q))
  {
    hide NameScan, Wire;
    var q := QuestionBytes(Wire(labels), qtype);
    var data := head + q + post;
    NameScanWire(head, labels, Be16(qtype) + Be16(CLASS_IN) + post);
    assert data == head + Wire(labels) + (Be16(qtype) + Be16(CLASS_IN) + post);
    assert data[|head|..|head| + |q|] == q;
    assert ScanQuestions(data, |head| + |q|, false, 0, Some(q)) == Behind(|head| + |q|, Some(q));
  }

  /** A padded query is always a whole number of 128-byte blocks. */
  lemma PaddedQueryLength(ip: IpText, domain: string, qtype: u16, qid: u16, ecs: Option<string>, udpSize: Option<u32>)
    requires Encode(domain).Ok?
    ensures var r := Query(ip, domain, qtype, qid, true, ecs, udpSize, true);
            r.Ok? && |r.value| % PADDING_BLOCK == 0
  {
    hide Encode, ClampUdp, EcsOption, Padded, OptRecord, QueryHead;
    var name := Encode(domain).value;
    var first := match ecs case Some(subnet) => EcsOption(ip, subnet) case None => [];
    PaddingFillsBlock(first, |name| + 4);
    OptionsSmall(ip, ecs, true, |name| + 4);
    var r := Query(ip, domain, qtype, qid, true, ecs, udpSize, true);
    assert |r.value| == 12 + (|name| + 4) + (11 + |Padded(first, |name| + 4)|);
  }

  // ---- the question name alone ----

  /** The name of the first question, as raw bytes; pointers are refused. */
  function QuestionName(data: seq<byte>): Option<seq<byte>> {
    if |data| < 12 || Num16(data[4], data[5]) < 1 || |data| == 12 then None
    else
      match NameScan(data, 12)
      case Root(next) => Some(data[12..next])
      case _ => None
  }

  method ExtractQname(data: seq<byte>) returns (r: Option<seq<byte>>)
    ensures r == QuestionName(data)
  {
    if |data| < 12 || Num16(data[4], data[5]) < 1 || |data| == 12 {
      return None;
    }
    var pos := 12;
    while true
      invariant 12 <= pos < |data| && NameScan(data, 12) == NameScan(data, pos)
      decreases |data| - pos
    {
      var n := data[pos];
      if n == 0 {
        return Some(data[12..pos + 1]);
      }
      if n >= 64 {
        return None;
      }
      pos := pos + 1 + n;
      if pos >= |data| {
        return None;
      }
    }
  }

  /** What is extracted from a query is exactly the encoded name, letter case included. */
  lemma QnameOfQuery(ip: IpText, domain: string, qtype: u16, qid: u16, edns: bool, ecs: Option<string>,
                     udpSize: Option<u32>, padding: bool)
    requires Encode(domain).Ok?
    ensures var r := Query(ip, domain, qtype, qid, edns, ecs, udpSize, padding);
            r.Ok? && QuestionName(r.value) == Some(Encode(domain).value)
  {
    hide Encode, OptRecord, QueryHead, Options, ClampUdp, Wire, NameScan, Num16;
    var labels := EncodedLabels(domain);
    var name := Wire(labels);
    OptionsSmall(ip, ecs, padding, |name| + 4);
    var head := QueryHead(qid, edns);
    var post := Be16(qtype) + Be16(CLASS_IN) + if edns then OptRecord(ClampUdp(udpSize),
        Options(ip, ecs, padding, |name| + 4)) else [];
    var data := Query(ip, domain, qtype, qid, edns, ecs, udpSize, padding).value;
    assert data == head + name + post;
    NameScanWire(head, labels, post);
    HeadCounts(qid, edns, name + post);
    assert head + (name + post) == data;
    assert data[12..12 + |name|] == name;
  }
}
