/** Record data: parsed from a message, shown as text, and encoded from text. */
module RecordData {
  import opened Wrappers
  import opened Bytes
  import opened Unicode
  import opened Lexing
  import opened Names
  import opened SvcParams

  const TYPE_A: u16 := 1
  const TYPE_NS: u16 := 2
  const TYPE_CNAME: u16 := 5
  const TYPE_SOA: u16 := 6
  const TYPE_PTR: u16 := 12
  const TYPE_MX: u16 := 15
  const TYPE_TXT: u16 := 16
  const TYPE_AAAA: u16 := 28
  const TYPE_SRV: u16 := 33
  const TYPE_NAPTR: u16 := 35
  const TYPE_OPT: u16 := 41
  const TYPE_DS: u16 := 43
  const TYPE_SSHFP: u16 := 44
  const TYPE_DNSKEY: u16 := 48
  const TYPE_TLSA: u16 := 52
  const TYPE_CDS: u16 := 59
  const TYPE_CDNSKEY: u16 := 60
  const TYPE_SVCB: u16 := 64
  const TYPE_HTTPS: u16 := 65
  const TYPE_URI: u16 := 256
  const TYPE_CAA: u16 := 257

  datatype RData =
    | A(ip4: seq<byte>)
    | AAAA(ip6: seq<byte>)
    | CNAME(cname: string)
    | NS(ns: string)
    | PTR(ptr: string)
    | MX(mxPreference: u16, exchange: string)
    | TXT(text: string)
    | SOA(mname: string, rname: string, serial: u32, refresh: u32, retry: u32, expire: u32, minimum: u32)
    | SRV(srvPriority: u16, srvWeight: u16, port: u16, srvTarget: string)
    | SVCB(priority: u16, target: string, params: seq<Param>)
    | NAPTR(order: u16, preference: u16, flags: seq<byte>, services: seq<byte>, regexp: seq<byte>, replacement: string)
    | CAA(caaFlags: byte, tag: seq<byte>, value: seq<byte>)
    | DS(keyTag: u16, dsAlgorithm: byte, digestType: byte, digest: seq<byte>)
    | SSHFP(fpAlgorithm: byte, fpType: byte, fingerprint: seq<byte>)
    | DNSKEY(keyFlags: u16, protocol: byte, keyAlgorithm: byte, key: seq<byte>)
    | TLSA(usage: byte, selector: byte, matching: byte, cert: seq<byte>)
    | URI(uriPriority: u16, uriWeight: u16, uri: seq<byte>)
    | Other(raw: seq<byte>)

  // ---- display ----

  /** The root name, which has no labels, is shown as a dot. */
  function NameDisplay(name: string): string {
    if name == "" then "." else name
  }

  function ParamTexts(ip: IpText, params: seq<Param>): (r: seq<string>)
    ensures |r| == |params| && forall i :: 0 <= i < |r| ==> r[i] == Display(ip, params[i].key, params[i].value)
  {
    seq(|params|, i requires 0 <= i < |params| => Display(ip, params[i].key, params[i].value))
  }

  function AsDisplay(ip: IpText, r: RData): string {
    match r
    case A(a) => ip.show4(a)
    case AAAA(a) => ip.show6(a)
    case CNAME(n) => n
    case NS(n) => n
    case PTR(n) => n
    case MX(p, n) => Line([Decimal(p), n])
    case TXT(t) => t
    case SOA(m, n, a, b, c, d, e) => Line([m, n, Decimal(a), Decimal(b), Decimal(c), Decimal(d), Decimal(e)])
    case SRV(p, w, o, n) => Line([Decimal(p), Decimal(w), Decimal(o), n])
    case SVCB(p, n, ps) => Line([Decimal(p), NameDisplay(n)] + ParamTexts(ip, ps))
    case NAPTR(o, p, f, s, x, n) => Line([Decimal(o), Decimal(p), Quoted(f), Quoted(s), Quoted(x), NameDisplay(n)])
    case CAA(f, t, v) => Line([Decimal(f), TokenText(t), Quoted(v)])
    case DS(k, a, t, d) => Line([Decimal(k), Decimal(a), Decimal(t), Hex(d)])
    case SSHFP(a, t, f) => Line([Decimal(a), Decimal(t), Hex(f)])
    case DNSKEY(f, p, a, k) => Line([Decimal(f), Decimal(p), Decimal(a), Base64(k)])
    case TLSA(u, s, m, c) => Line([Decimal(u), Decimal(s), Decimal(m), Hex(c)])
    case URI(p, w, t) => Line([Decimal(p), Decimal(w), Quoted(t)])
    case Other(b) => Hex(b)
  }

  // ---- parsing ----

  function ParseParams(data: seq<byte>, p: nat, end: nat): Option<seq<Param>>
    requires p <= end <= |data|
    decreases end - p
  {
    if p == end then Some([])
    else if p + 4 > end then None
    else
      var key, len := Num16(data[p], data[p + 1]), Num16(data[p + 2], data[p + 3]);
      if p + 4 + len > end then None
      else
        match ParseParams(data, p + 4 + len, end)
        case None => None
        case Some(more) => Some([Param(key, data[p + 4..p + 4 + len])] + more)
  }

  function ParseSvcb(data: seq<byte>, pos: nat, rdlen: nat): Option<RData>
    requires pos + rdlen <= |data|
  {
    if rdlen < 3 then None
    else
      match Walk(data, pos + 2, 0, 0)
      case Err(_) => None
      case Ok(w) =>
        if w.end > pos + rdlen then None
        else
          match ParseParams(data, w.end, pos + rdlen)
          case None => None
          case Some(params) => Some(SVCB(Num16(data[pos], data[pos + 1]), NameText(w.labels), params))
  }

  /** A length byte and that many bytes, before `end`; and the position behind them. */
  function CharString(data: seq<byte>, p: nat, end: nat): Option<(seq<byte>, nat)>
    requires end <= |data|
  {
    if p >= end then None
    else
      var n := data[p];
      if p + 1 + n > end then None else Some((data[p + 1..p + 1 + n], p + 1 + n))
  }

  function ParseNaptr(data: seq<byte>, pos: nat, rdlen: nat): Option<RData>
    requires pos + rdlen <= |data|
  {
    var end := pos + rdlen;
    if rdlen < 8 then None
    else
      match CharString(data, pos + 4, end)
      case None => None
      case Some((flags, p1)) =>
        match CharString(data, p1, end)
        case None => None
        case Some((services, p2)) =>
          match CharString(data, p2, end)
          case None => None
          case Some((regexp, p3)) =>
            match Walk(data, p3, 0, 0)
            case Err(_) => None
            case Ok(w) =>
              if w.end != end then None
              else Some(NAPTR(Num16(data[pos], data[pos + 1]), Num16(data[pos + 2], data[pos + 3]),
                              flags, services, regexp, NameText(w.labels)))
  }

  function ParseCaa(raw: seq<byte>): Option<RData> {
    if |raw| < 2 || raw[1] == 0 || 2 + raw[1] > |raw| then None
    else Some(CAA(raw[0], raw[2..2 + raw[1]], raw[2 + raw[1]..]))
  }

  function ParseDs(raw: seq<byte>): Option<RData> {
    if |raw| < 4 then None else Some(DS(Num16(raw[0], raw[1]), raw[2], raw[3], raw[4..]))
  }

  function ParseSshfp(raw: seq<byte>): Option<RData> {
    if |raw| < 2 then None else Some(SSHFP(raw[0], raw[1], raw[2..]))
  }

  function ParseDnskey(raw: seq<byte>): Option<RData> {
    if |raw| < 4 then None else Some(DNSKEY(Num16(raw[0], raw[1]), raw[2], raw[3], raw[4..]))
  }

  function ParseTlsa(raw: seq<byte>): Option<RData> {
    if |raw| < 3 then None else Some(TLSA(raw[0], raw[1], raw[2], raw[3..]))
  }

  function ParseUri(raw: seq<byte>): Option<RData> {
    if |raw| < 4 then None else Some(URI(Num16(raw[0], raw[1]), Num16(raw[2], raw[3]), raw[4..]))
  }

  /** The text of length-prefixed segments; a segment that overruns ends it. */
  function SegmentText(raw: seq<byte>): string {
    if raw == [] then ""
    else if 1 + raw[0] > |raw| then ""
    else Lossy(raw[1..1 + raw[0]]) + SegmentText(raw[1 + raw[0]..])
  }

  const QUOTES := "\""

  function ParseName(data: seq<byte>, pos: nat, limit: nat): Option<Walked> {
    match Walk(data, pos, 0, 0)
    case Err(_) => None
    case Ok(w) => if w.end > limit then None else Some(w)
  }

  function ParseMx(data: seq<byte>, pos: nat, rdlen: nat): Option<RData>
    requires pos + rdlen <= |data|
  {
    if rdlen < 3 then None
    else
      match ParseName(data, pos + 2, pos + rdlen)
      case None => None
      case Some(w) => Some(MX(Num16(data[pos], data[pos + 1]), NameText(w.labels)))
  }

  function ParseSrv(data: seq<byte>, pos: nat, rdlen: nat): Option<RData>
    requires pos + rdlen <= |data|
  {
    if rdlen < 7 then None
    else
      match ParseName(data, pos + 6, pos + rdlen)
      case None => None
      case Some(w) => Some(SRV(Num16(data[pos], data[pos + 1]), Num16(data[pos + 2], data[pos + 3]),
                               Num16(data[pos + 4], data[pos + 5]), NameText(w.labels)))
  }

  function ParseSoa(data: seq<byte>, pos: nat, rdlen: nat): Option<RData>
    requires pos + rdlen <= |data|
  {
    match ParseName(data, pos, pos + rdlen)
    case None => None
    case Some(m) =>
      match ParseName(data, m.end, pos + rdlen)
      case None => None
      case Some(n) =>
        var p := n.end;
        if p + 20 != pos + rdlen then None
        else Some(SOA(NameText(m.labels), NameText(n.labels), Word32(data, p), Word32(data, p + 4),
                      Word32(data, p + 8), Word32(data, p + 12), Word32(data, p + 16)))
  }

  function Word32(data: seq<byte>, p: nat): u32
    requires p + 4 <= |data|
  {
    Num32(data[p], data[p + 1], data[p + 2], data[p + 3])
  }

  /** One record's data; `None` means the record is malformed and to be dropped. */
  function ParseRData(data: seq<byte>, pos: nat, rtype: u16, rdlen: nat): Option<RData> {
    if pos + rdlen > |data| then None
    else
      var raw := data[pos..pos + rdlen];
      if rtype == TYPE_A then (if rdlen == 4 then Some(A(raw)) else None)
      else if rtype == TYPE_AAAA then (if rdlen == 16 then Some(AAAA(raw)) else None)
      else if rtype == TYPE_CNAME || rtype == TYPE_NS || rtype == TYPE_PTR then
        match ParseName(data, pos, pos + rdlen)
        case None => None
        case Some(w) =>
          var n := NameText(w.labels);
          Some(if rtype == TYPE_CNAME then CNAME(n) else if rtype == TYPE_NS then NS(n) else PTR(n))
      else if rtype == TYPE_MX then ParseMx(data, pos, rdlen)
      else if rtype == TYPE_TXT then Some(TXT(QUOTES + SegmentText(raw) + QUOTES))
      else if rtype == TYPE_SOA then ParseSoa(data, pos, rdlen)
      else if rtype == TYPE_SRV then ParseSrv(data, pos, rdlen)
      else if rtype == TYPE_SVCB || rtype == TYPE_HTTPS then ParseSvcb(data, pos, rdlen)
      else if rtype == TYPE_NAPTR then ParseNaptr(data, pos, rdlen)
      else if rtype == TYPE_CAA then ParseCaa(raw)
      else if rtype == TYPE_DS || rtype == TYPE_CDS then ParseDs(raw)
      else if rtype == TYPE_SSHFP then ParseSshfp(raw)
      else if rtype == TYPE_DNSKEY || rtype == TYPE_CDNSKEY then ParseDnskey(raw)
      else if rtype == TYPE_TLSA then ParseTlsa(raw)
      else if rtype == TYPE_URI then ParseUri(raw)
      else Some(Other(raw))
  }

  // ---- encoding ----

  /** White space as `trim` and `split_whitespace` see it. */
  predicate Space(c: char) {
    var n := c as int;
    || 9 <= n <= 13 || n == 32 || n == 0x85 || n == 0xA0 || n == 0x1680 || 0x2000 <= n <= 0x200A
    || n == 0x2028 || n == 0x2029 || n == 0x202F || n == 0x205F || n == 0x3000
  }

  function TrimStart(s: string): string {
    if s != "" && Space(s[0]) then TrimStart(s[1..]) else s
  }

  function TrimEnd(s: string): string {
    if s != "" && Space(s[|s| - 1]) then TrimEnd(s[..|s| - 1]) else s
  }

  function Trim(s: string): string {
    TrimEnd(TrimStart(s))
  }

  /** The runs of characters between white space. */
  function Fields(s: string): seq<string>
    decreases |s|
  {
    if s == "" then []
    else if Space(s[0]) then Fields(s[1..])
    else
      var n := Run(s);
      [s[..n]] + Fields(s[n..])
  }

  function Run(s: string): (n: nat)
    ensures n <= |s| && (s != "" && !Space(s[0]) ==> n > 0)
    ensures forall i :: 0 <= i < n ==> !Space(s[i])
    ensures n < |s| ==> Space(s[n])
  {
    if s == "" || Space(s[0]) then 0 else 1 + Run(s[1..])
  }

  const U32_LIMIT: nat := 0x1_0000_0000

  /** Digits, with a plus sign allowed in front. */
  function ParseU32(s: string): Option<u32> {
    var t := if s != "" && s[0] == '+' then s[1..] else s;
    match TokenNumber(t, U32_LIMIT)
    case None => None
    case Some(n) => Some(n)
  }

  function Cap16(n: nat): u16 {
    if n > 65535 then 65535 else n
  }

  function HexOrText(value: string): seq<byte> {
    match Unhex(value)
    case Some(b) => b
    case None => Utf8All(value)
  }

  function OkValue<T>(r: Result<T>): Option<T> {
    match r
    case Ok(v) => Some(v)
    case Err(_) => None
  }

  /** A name given as a token: escapes undone, then encoded. */
  function TokenName(tok: string): Option<seq<byte>> {
    match Unescape(tok)
    case None => None
    case Some(b) =>
      match FromUtf8(b)
      case None => None
      case Some(name) => OkValue(Encode(name))
  }

  function EncodeParams(ip: IpText, toks: seq<string>): Option<seq<byte>> {
    if toks == [] then Some([])
    else
      match Parse(ip, toks[0])
      case None => None
      case Some(p) =>
        if |p.value| > 65535 then None
        else Appended(Be16(p.key) + Be16(|p.value|) + p.value, EncodeParams(ip, toks[1..]))
  }

  function EncodeSvcb(ip: IpText, toks: seq<string>): Option<seq<byte>> {
    if |toks| < 2 then None
    else
      match (TokenU16(toks[0]), TokenName(toks[1]))
      case (Some(p), Some(name)) => Appended(Be16(p) + name, EncodeParams(ip, toks[2..]))
      case _ => None
  }

  function EncodeCharStrings(toks: seq<string>): Option<seq<byte>> {
    if toks == [] then Some([])
    else
      match Unescape(toks[0])
      case None => None
      case Some(b) => if |b| > 255 then None else Appended([|b|] + b, EncodeCharStrings(toks[1..]))
  }

  function EncodeNaptr(toks: seq<string>): Option<seq<byte>> {
    if |toks| != 6 then None
    else
      match (TokenU16(toks[0]), TokenU16(toks[1]), EncodeCharStrings(toks[2..5]), TokenName(toks[5]))
      case (Some(o), Some(p), Some(strings), Some(name)) => Some(Be16(o) + Be16(p) + strings + name)
      case _ => None
  }

  function EncodeCaa(toks: seq<string>): Option<seq<byte>> {
    if |toks| < 3 then None
    else
      match (TokenU8(toks[0]), Unescape(toks[1]), Unescape(toks[2]))
      case (Some(f), Some(tag), Some(value)) =>
        if tag == [] || |tag| > 255 then None else Some([f, |tag|] + tag + value)
      case _ => None
  }

  function Glued(toks: seq<string>): string {
    if toks == [] then "" else toks[0] + Glued(toks[1..])
  }

  /** The remaining tokens together, as hexadecimal text. */
  function HexFields(toks: seq<string>, first: nat): Option<seq<byte>> {
    if |toks| <= first then None else Unhex(Glued(toks[first..]))
  }

  function EncodeDs(toks: seq<string>): Option<seq<byte>> {
    if |toks| < 4 then None
    else
      match (TokenU16(toks[0]), TokenU8(toks[1]), TokenU8(toks[2]), HexFields(toks, 3))
      case (Some(k), Some(a), Some(t), Some(d)) => Some(Be16(k) + [a, t] + d)
      case _ => None
  }

  function EncodeSshfp(toks: seq<string>): Option<seq<byte>> {
    if |toks| < 3 then None
    else
      match (TokenU8(toks[0]), TokenU8(toks[1]), HexFields(toks, 2))
      case (Some(a), Some(t), Some(f)) => Some([a, t] + f)
      case _ => None
  }

  function EncodeDnskey(toks: seq<string>): Option<seq<byte>> {
    if |toks| < 4 then None
    else
      match (TokenU16(toks[0]), TokenU8(toks[1]), TokenU8(toks[2]), Unbase64(Glued(toks[3..])))
      case (Some(f), Some(p), Some(a), Some(k)) => Some(Be16(f) + [p, a] + k)
      case _ => None
  }

  function EncodeTlsa(toks: seq<string>): Option<seq<byte>> {
    if |toks| < 4 then None
    else
      match (TokenU8(toks[0]), TokenU8(toks[1]), TokenU8(toks[2]), HexFields(toks, 3))
      case (Some(u), Some(s), Some(m), Some(c)) => Some([u, s, m] + c)
      case _ => None
  }

  function EncodeUri(toks: seq<string>): Option<seq<byte>> {
    if |toks| < 3 then None
    else
      match (TokenU16(toks[0]), TokenU16(toks[1]), Unescape(Line(toks[2..])))
      case (Some(p), Some(w), Some(t)) => Some(Be16(p) + Be16(w) + t)
      case _ => None
  }

  /** `preference name`, with the preference defaulting to 10; a lone field is both. */
  function EncodeMx(value: string): Option<seq<byte>> {
    var (first, rest) := match SplitOnce(value, SPACE) case Some(p) => p case None => (value, value);
    var pref := if !Digits(first) then 10 else if NumberOf(first) < U32_LIMIT then Cap16(NumberOf(first)) else 0;
    match Encode(rest)
    case Err(_) => None
    case Ok(name) => Some(Be16(pref) + name)
  }

  function EncodeSoa(value: string): Option<seq<byte>> {
    var parts := Fields(value);
    if |parts| < 7 then Some(HexOrText(value))
    else
      match (Encode(parts[0]), Encode(parts[1]))
      case (Ok(m), Ok(n)) => Appended(m + n, Numbers32(parts[2..7]))
      case _ => None
  }

  function Numbers32(parts: seq<string>): Option<seq<byte>> {
    if parts == [] then Some([])
    else
      match ParseU32(parts[0])
      case None => None
      case Some(n) => Appended(Be32(n), Numbers32(parts[1..]))
  }

  function EncodeSrv(value: string): Option<seq<byte>> {
    var parts := Fields(value);
    if |parts| < 4 then Some(HexOrText(value))
    else
      match (Numbers16(parts[..3]), Encode(parts[3]))
      case (Some(nums), Ok(name)) => Some(nums + name)
      case _ => None
  }

  function Numbers16(parts: seq<string>): Option<seq<byte>> {
    if parts == [] then Some([])
    else
      match ParseU32(parts[0])
      case None => None
      case Some(n) => Appended(Be16(Cap16(n)), Numbers16(parts[1..]))
  }

  function StripQuotes(s: string): string {
    var t := if s != "" && s[0] == QUOTE then s[1..] else s;
    if t != "" && t[|t| - 1] == QUOTE then t[..|t| - 1] else t
  }

  /** Characters gathered into segments of at most 255 bytes, none of them cut. */
  function Segments(s: string, cur: seq<byte>): seq<byte>
    requires |cur| <= 255
  {
    if s == "" then (if cur == [] then [] else [|cur|] + cur)
    else
      var c := Utf8(s[0]);
      if |cur| + |c| > 255 then [|cur|] + cur + Segments(s[1..], c)
      else Segments(s[1..], cur + c)
  }

  function EncodeTxt(value: string): seq<byte> {
    var s := StripQuotes(value);
    if s == "" then [0] else Segments(s, [])
  }

  function FromTokens(ip: IpText, rtype: u16, toks: seq<string>): Option<seq<byte>> {
    if rtype == TYPE_SVCB || rtype == TYPE_HTTPS then EncodeSvcb(ip, toks)
    else if rtype == TYPE_NAPTR then EncodeNaptr(toks)
    else if rtype == TYPE_CAA then EncodeCaa(toks)
    else if rtype == TYPE_DS || rtype == TYPE_CDS then EncodeDs(toks)
    else if rtype == TYPE_SSHFP then EncodeSshfp(toks)
    else if rtype == TYPE_DNSKEY || rtype == TYPE_CDNSKEY then EncodeDnskey(toks)
    else if rtype == TYPE_TLSA then EncodeTlsa(toks)
    else EncodeUri(toks)
  }

  predicate Tokenised(rtype: u16) {
    || rtype == TYPE_SVCB || rtype == TYPE_HTTPS || rtype == TYPE_NAPTR || rtype == TYPE_CAA
    || rtype == TYPE_DS || rtype == TYPE_CDS || rtype == TYPE_SSHFP || rtype == TYPE_DNSKEY
    || rtype == TYPE_CDNSKEY || rtype == TYPE_TLSA || rtype == TYPE_URI
  }

  function EncodeRData(ip: IpText, rtype: u16, text: string): Option<seq<byte>> {
    var value := Trim(text);
    if rtype == TYPE_A then ip.parse4(value)
    else if rtype == TYPE_AAAA then ip.parse6(value)
    else if rtype == TYPE_CNAME || rtype == TYPE_NS || rtype == TYPE_PTR then OkValue(Encode(value))
    else if rtype == TYPE_MX then EncodeMx(value)
    else if rtype == TYPE_TXT then Some(EncodeTxt(value))
    else if rtype == TYPE_SOA then EncodeSoa(value)
    else if rtype == TYPE_SRV then EncodeSrv(value)
    else if Tokenised(rtype) then
      match Tokens(value)
      case None => None
      case Some(toks) => FromTokens(ip, rtype, toks)
    else Some(HexOrText(value))
  }

  // ---- the loops ----

  /** Parameters found so far, and those still to come. */
  function More(done: seq<Param>, rest: Option<seq<Param>>): Option<seq<Param>> {
    match rest
    case None => None
    case Some(r) => Some(done + r)
  }

  lemma MoreParams(data: seq<byte>, p: nat, end: nat, done: seq<Param>)
    requires p <= end <= |data|
    ensures More(done, ParseParams(data, p, end)) ==
            if p == end then Some(done)
            else if p + 4 > end then None
            else
              var key, len := Num16(data[p], data[p + 1]), Num16(data[p + 2], data[p + 3]);
              if p + 4 + len > end then None
              else More(done + [Param(key, data[p + 4..p + 4 + len])], ParseParams(data, p + 4 + len, end))
    ensures done == [] ==> More(done, ParseParams(data, p, end)) == ParseParams(data, p, end)
  {
    assert done + [] == done;
    if p < end && p + 4 <= end {
      var key, len := Num16(data[p], data[p + 1]), Num16(data[p + 2], data[p + 3]);
      if p + 4 + len <= end && ParseParams(data, p + 4 + len, end).Some? {
        var more := ParseParams(data, p + 4 + len, end).value;
        assert done + ([Param(key, data[p + 4..p + 4 + len])] + more) == done + [Param(key, data[p + 4..p + 4 + len])]
               + more;
      }
    }
    if done == [] && ParseParams(data, p, end).Some? {
      assert [] + ParseParams(data, p, end).value == ParseParams(data, p, end).value;
    }
  }

  method ParseParamList(data: seq<byte>, start: nat, end: nat) returns (r: Option<seq<Param>>)
    requires start <= end <= |data|
    ensures r == ParseParams(data, start, end)
  {
    hide ParseParams, More, Num16;
    var out: seq<Param>, p := [], start;
    MoreParams(data, p, end, out);
    while p < end
      invariant start <= p <= end
      invariant ParseParams(data, start, end) == More(out, ParseParams(data, p, end))
    {
      MoreParams(data, p, end, out);
      if p + 4 > end {
        return None;
      }
      var key, len := Num16(data[p], data[p + 1]), Num16(data[p + 2], data[p + 3]);
      p := p + 4;
      if p + len > end {
        return None;
      }
      out := out + [Param(key, data[p..p + len])];
      p := p + len;
    }
    MoreParams(data, p, end, out);
    r := Some(out);
  }

  method EncodeParamList(ip: IpText, toks: seq<string>) returns (r: Option<seq<byte>>)
    ensures r == EncodeParams(ip, toks)
  {
    hide Parse, Be16;
    var out: seq<byte>, i := [], 0;
    assert toks[0..] == toks;
    AppendedEnds([], EncodeParams(ip, toks));
    while i < |toks|
      invariant 0 <= i <= |toks|
      invariant EncodeParams(ip, toks) == Appended(out, EncodeParams(ip, toks[i..]))
    {
      assert toks[i..][1..] == toks[i + 1..];
      var p := Parse(ip, toks[i]);
      if p.None? || |p.value.value| > 65535 {
        return None;
      }
      var bytes := Be16(p.value.key) + Be16(|p.value.value|) + p.value.value;
      AppendedTwice(out, bytes, EncodeParams(ip, toks[i + 1..]));
      out := out + bytes;
      i := i + 1;
    }
    AppendedEnds(out, None);
    r := Some(out);
  }

  /** The loop over the length-prefixed segments of a text record. */
  method ReadSegments(raw: seq<byte>) returns (s: string)
    ensures s == SegmentText(raw)
  {
    hide SegmentText;
    s := "";
    var p := 0;
    assert raw[0..] == raw;
    while p < |raw|
      invariant 0 <= p <= |raw|
      invariant s + SegmentText(raw[p..]) == SegmentText(raw)
    {
      SegmentStep(raw, p);
      var n := raw[p];
      p := p + 1;
      if p + n > |raw| {
        assert s + "" == s;
        return;
      }
      s := s + Lossy(raw[p..p + n]);
      p := p + n;
    }
    NoSegments();
    assert raw[p..] == [] && s + "" == s;
  }

  lemma NoSegments()
    ensures SegmentText([]) == ""
  {
  }

  lemma SegmentStep(raw: seq<byte>, p: nat)
    requires p < |raw|
    ensures var n := raw[p];
            SegmentText(raw[p..]) ==
            if p + 1 + n > |raw| then "" else Lossy(raw[p + 1..p + 1 + n]) + SegmentText(raw[p + 1 + n..])
  {
    var n, rest := raw[p], raw[p..];
    if p + 1 + n <= |raw| {
      assert rest[1..1 + n] == raw[p + 1..p + 1 + n] && rest[1 + n..] == raw[p + 1 + n..];
    }
  }

  /** The loop that cuts text into segments. */
  method WriteSegments(s: string) returns (out: seq<byte>)
    ensures out == Segments(s, [])
  {
    hide Utf8, Segments;
    out := [];
    var cur: seq<byte>, i := [], 0;
    assert s[0..] == s;
    while i < |s|
      invariant 0 <= i <= |s| && |cur| <= 255
      invariant out + Segments(s[i..], cur) == Segments(s, [])
    {
      Utf8Size(s[i]);
      SegmentsStep(s, i, cur, out);
      var c := Utf8(s[i]);
      if |cur| + |c| > 255 {
        out := out + ([|cur|] + cur);
        cur := [];
        assert [] + c == c;
      }
      cur := cur + c;
      i := i + 1;
    }
    assert s[i..] == "";
    SegmentsLast(cur);
    if cur != [] {
      out := out + ([|cur|] + cur);
    } else {
      assert out + [] == out;
    }
  }

  lemma SegmentsLast(cur: seq<byte>)
    requires |cur| <= 255
    ensures Segments("", cur) == if cur == [] then [] else [|cur|] + cur
  {
  }

  lemma SegmentsUnfold(s: string, cur: seq<byte>)
    requires s != "" && |cur| <= 255 && |Utf8(s[0])| <= 4
    ensures var c := Utf8(s[0]);
            Segments(s, cur) == if |cur| + |c| > 255 then [|cur|] + cur + Segments(s[1..], c)
                else Segments(s[1..], cur + c)
  {
    hide Utf8;
  }

  lemma SegmentsStep(s: string, i: nat, cur: seq<byte>, out: seq<byte>)
    requires i < |s| && |cur| <= 255 && |Utf8(s[i])| <= 4
    ensures var c := Utf8(s[i]);
            out + Segments(s[i..], cur) ==
            if |cur| + |c| > 255 then out + ([|cur|] + cur) + Segments(s[i + 1..], c)
                else out + Segments(s[i + 1..], cur + c)
  {
    hide Utf8, Segments;
    assert s[i..][1..] == s[i + 1..];
    SegmentsUnfold(s[i..], cur);
    var c := Utf8(s[i]);
    if |cur| + |c| > 255 {
      assert out + ([|cur|] + cur + Segments(s[i + 1..], c)) == out + ([|cur|] + cur) + Segments(s[i + 1..], c);
    }
  }

}
