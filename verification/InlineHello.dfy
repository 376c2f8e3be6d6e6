/** The benchmark's self-contained ClientHello parser, and how it relates to the production one. */
module InlineHello {
  import opened Prelude
  import opened RouteTable
  import opened HostText
  import opened ClientHello
  import opened HelloBuilder

  /** `Option<String>`, plus the out-of-bounds read that a body cut after one extension-length byte runs into. */
  datatype Answer = Found(host: Bytes) | NoName | Panic

  /** A name list either yields a host, ends the parse, or is exhausted. */
  datatype Scan = Host(host: Bytes) | Stop | Exhausted

  function InlineNames(list: Bytes): (r: Scan)
    decreases |list|
  {
    if |list| < 3 then Exhausted
    else
      match Vec16(list[1..])
      case None => Stop
      case Some((name, rest)) =>
        if list[0] == 0 && name != [] then
          if ValidUtf8(name) then Host(Lower(Strip(name))) else Stop
        else InlineNames(rest)
  }

  function InlineServerName(data: Bytes): (r: Scan) {
    match Vec16(data)
    case None => Stop
    case Some((list, _)) => InlineNames(list)
  }

  function InlineExtensions(exts: Bytes): (r: Answer)
    decreases |exts|
  {
    if |exts| < 4 then NoName
    else
      match Vec16(exts[2..])
      case None => NoName
      case Some((data, rest)) =>
        if U16(exts[0], exts[1]) != 0 then InlineExtensions(rest)
        else
          match InlineServerName(data)
          case Host(h) => Found(h)
          case Stop => NoName
          case Exhausted => InlineExtensions(rest)
  }

  function InlineBlock(block: Bytes): (r: Answer) {
    if block == [] then NoName
    else if |block| == 1 then Panic
    else
      match Vec16(block)
      case None => NoName
      case Some((exts, _)) => InlineExtensions(exts)
  }

  /** Unchecked skips: running past the end shows at the next read. */
  function InlineCompression(rest: Bytes): (r: Answer) {
    match Vec8(rest)
    case None => NoName
    case Some((_, block)) => InlineBlock(block)
  }

  function InlineCiphers(rest: Bytes): (r: Answer) {
    match Vec16(rest)
    case None => NoName
    case Some((_, afterCiphers)) => InlineCompression(afterCiphers)
  }

  function InlineBody(tail: Bytes): (r: Answer) {
    match Vec8(tail)
    case None => NoName
    case Some((_, afterSession)) => InlineCiphers(afterSession)
  }

  function InlineFragment(fragment: Bytes): (r: Answer) {
    if |fragment| < 4 || fragment[0] != 0x01 then NoName
    else
      var n := U24(fragment[1], fragment[2], fragment[3]);
      if n > |fragment| - 4 || n < 34 then NoName else InlineBody(fragment[4 + 34..4 + n])
  }

  function InlineMeaning(bytes: Bytes): (r: Answer) {
    if |bytes| < 5 || bytes[0] != 0x16 || bytes[1] != 0x03 then NoName
    else
      var len: nat := U16(bytes[3], bytes[4]);
      if |bytes| < 5 + len then NoName else InlineFragment(bytes[5..5 + len])
  }

  // ---------------------------------------------------------------- the parser, position by position

  function NamesAt(list: Bytes, lp: nat): (r: Scan)
    decreases |list| - lp
  {
    if lp + 3 > |list| then Exhausted
    else
      var n: nat := U16(list[lp + 1], list[lp + 2]);
      if lp + 3 + n > |list| then Stop
      else if list[lp] == 0 && n > 0 then
        var raw := list[lp + 3..lp + 3 + n];
        if ValidUtf8(raw) then Host(Lower(Strip(raw))) else Stop
      else NamesAt(list, lp + 3 + n)
  }

  function ServerNameAt(data: Bytes): (r: Scan) {
    if |data| < 2 then Stop
    else
      var n: nat := U16(data[0], data[1]);
      if 2 + n > |data| then Stop else NamesAt(data[2..2 + n], 0)
  }

  function ExtensionsAt(body: Bytes, pos: nat, end: nat): (r: Answer)
    requires end <= |body|
    decreases end - pos
  {
    if pos + 4 > end then NoName
    else
      var n: nat := U16(body[pos + 2], body[pos + 3]);
      if pos + 4 + n > end then NoName
      else if U16(body[pos], body[pos + 1]) != 0 then ExtensionsAt(body, pos + 4 + n, end)
      else
        match ServerNameAt(body[pos + 4..pos + 4 + n])
        case Host(h) => Found(h)
        case Stop => NoName
        case Exhausted => ExtensionsAt(body, pos + 4 + n, end)
  }

  function BlockAt(body: Bytes, pos: nat): (r: Answer) {
    if pos >= |body| then NoName
    else if pos + 1 >= |body| then Panic
    else
      var total: nat := U16(body[pos], body[pos + 1]);
      if pos + 2 + total > |body| then NoName else ExtensionsAt(body, pos + 2, pos + 2 + total)
  }

  function CompressionAt(body: Bytes, pos: nat): (r: Answer) {
    if pos >= |body| then NoName else BlockAt(body, pos + (1 + body[pos] as int))
  }

  function CiphersAt(body: Bytes, pos: nat): (r: Answer) {
    if pos + 1 >= |body| then NoName
    else CompressionAt(body, pos + (2 + U16(body[pos], body[pos + 1]) as int))
  }

  function BodyAt(body: Bytes): (r: Answer) {
    if |body| <= 34 then NoName else CiphersAt(body, 35 + body[34] as int)
  }

  method ParseNames(list: Bytes) returns (r: Scan)
    ensures r == NamesAt(list, 0)
  {
    var lp := 0;
    while lp + 3 <= |list|
      invariant lp <= |list|
      invariant NamesAt(list, lp) == NamesAt(list, 0)
    {
      var nameType := list[lp];
      var n: nat := U16(list[lp + 1], list[lp + 2]);
      lp := lp + 3;
      if lp + n > |list| {
        return Stop;
      }
      if nameType == 0 && n > 0 {
        var raw := list[lp..lp + n];
        if !ValidUtf8(raw) {
          return Stop;
        }
        return Host(Lower(Strip(raw)));
      }
      lp := lp + n;
    }
    return Exhausted;
  }

  method ParseExtensions(body: Bytes, start: nat, extEnd: nat) returns (r: Answer)
    requires start <= extEnd <= |body|
    ensures r == ExtensionsAt(body, start, extEnd)
  {
    var pos := start;
    while pos + 4 <= extEnd
      invariant start <= pos <= extEnd
      invariant ExtensionsAt(body, pos, extEnd) == ExtensionsAt(body, start, extEnd)
    {
      var extType := U16(body[pos], body[pos + 1]);
      var n: nat := U16(body[pos + 2], body[pos + 3]);
      pos := pos + 4;
      if pos + n > extEnd {
        return NoName;
      }
      var data := body[pos..pos + n];
      pos := pos + n;
      if extType != 0 {
        continue;
      }
      if |data| < 2 {
        return NoName;
      }
      var listLen: nat := U16(data[0], data[1]);
      if 2 + listLen > |data| {
        return NoName;
      }
      var found := ParseNames(data[2..2 + listLen]);
      match found {
        case Host(h) => return Found(h);
        case Stop => return NoName;
        case Exhausted =>
      }
    }
    return NoName;
  }

  method ParseBody(body: Bytes) returns (r: Answer)
    requires |body| >= 34
    ensures r == BodyAt(body)
  {
    var pos: nat := 34;
    if pos >= |body| {
      return NoName;
    }
    pos := pos + (1 + body[pos] as int);
    if pos + 1 >= |body| {
      return NoName;
    }
    pos := pos + (2 + U16(body[pos], body[pos + 1]) as int);
    if pos >= |body| {
      return NoName;
    }
    pos := pos + (1 + body[pos] as int);
    if pos >= |body| {
      return NoName;
    }
    if pos + 1 >= |body| {
      return Panic;
    }
    var total: nat := U16(body[pos], body[pos + 1]);
    pos := pos + 2;
    if pos + total > |body| {
      return NoName;
    }
    r := ParseExtensions(body, pos, pos + total);
  }

  /** `parse_sni_inline`. */
  method ParseSniInline(bytes: Bytes) returns (r: Answer)
    ensures r == InlineMeaning(bytes)
  {
    if |bytes| < 5 || bytes[0] != 0x16 || bytes[1] != 0x03 {
      return NoName;
    }
    var recordLen: nat := U16(bytes[3], bytes[4]);
    if |bytes| < 5 + recordLen {
      return NoName;
    }
    var fragment := bytes[5..5 + recordLen];
    if |fragment| < 4 || fragment[0] != 0x01 {
      return NoName;
    }
    var hsLen := U24(fragment[1], fragment[2], fragment[3]);
    if hsLen > |fragment| - 4 {
      return NoName;
    }
    var body := fragment[4..4 + hsLen];
    if |body| < 34 {
      return NoName;
    }
    r := ParseBody(body);
    assert body[34..] == fragment[4 + 34..4 + hsLen];
    BodyMeansTail(body, body[34..]);
  }

  // ---------------------------------------------------------------- positions and remainders tell the same story

  /** Reading a length-prefixed field at a position of a window. */
  lemma Vec16At(s: Bytes, pos: nat, end: nat)
    requires pos + 2 <= end <= |s|
    ensures var n: nat := U16(s[pos], s[pos + 1]);
            Vec16(s[pos..end])
            == if pos + 2 + n > end then None else Some((s[pos + 2..pos + 2 + n], s[pos + 2 + n..end]))
  {
    var n: nat := U16(s[pos], s[pos + 1]);
    var w := s[pos..end];
    assert w[0] == s[pos] && w[1] == s[pos + 1];
    if pos + 2 + n <= end {
      assert w[2..][..n] == s[pos + 2..pos + 2 + n];
      assert w[2..][n..] == s[pos + 2 + n..end];
    }
  }

  lemma Vec8At(s: Bytes, pos: nat)
    requires pos < |s|
    ensures var n: nat := s[pos];
            Vec8(s[pos..]) == if pos + 1 + n > |s| then None else Some((s[pos + 1..pos + 1 + n], s[pos + 1 + n..]))
  {
    var n: nat := s[pos];
    var w := s[pos..];
    if pos + 1 + n <= |s| {
      assert w[1..][..n] == s[pos + 1..pos + 1 + n];
      assert w[1..][n..] == s[pos + 1 + n..];
    }
  }

  /** The next entry of a list, read by position. */
  lemma NamesStep(list: Bytes, lp: nat, rest: Bytes)
    requires lp + 3 <= |list| && rest == list[lp..]
    ensures var n, field := U16(list[lp + 1], list[lp + 2]) as int, Vec16(rest[1..]);
            if lp + 3 + n > |list| then field.None?
            else field.Some? && field.value.0 == list[lp + 3..lp + 3 + n] && field.value.1 == list[lp + 3 + n..]
  {
    Vec16At(list, lp + 1, |list|);
    assert rest[1..] == list[lp + 1..|list|];
  }

  lemma {:induction false} NamesMeanRest(list: Bytes, lp: nat, rest: Bytes)
    requires lp <= |list| && rest == list[lp..]
    ensures NamesAt(list, lp) == InlineNames(rest)
    decreases |list| - lp
  {
    hide Vec16, ValidUtf8, Strip;
    if lp + 3 <= |list| {
      NamesStep(list, lp, rest);
      var field := Vec16(rest[1..]);
      if field.Some? {
        NamesMeanRest(list, lp + 3 + |field.value.0|, field.value.1);
      }
    }
  }

  lemma ServerNameMeansList(data: Bytes)
    ensures ServerNameAt(data) == InlineServerName(data)
  {
    hide ValidUtf8, Strip;
    if |data| >= 2 {
      Vec16At(data, 0, |data|);
      assert data[0..|data|] == data;
      var n: nat := U16(data[0], data[1]);
      if 2 + n <= |data| {
        NamesMeanRest(data[2..2 + n], 0, data[2..2 + n]);
      }
    }
  }

  /** The next extension, read by position. */
  lemma ExtensionStep(body: Bytes, pos: nat, end: nat, rest: Bytes)
    requires pos + 4 <= end <= |body| && rest == body[pos..end]
    ensures var n, field := U16(body[pos + 2], body[pos + 3]) as int, Vec16(rest[2..]);
            if pos + 4 + n > end then field.None?
            else field.Some? && field.value.0 == body[pos + 4..pos + 4 + n] && field.value.1 == body[pos + 4 + n..end]
  {
    Vec16At(body, pos + 2, end);
    assert rest[2..] == body[pos + 2..end];
  }

  lemma {:induction false} ExtensionsMeanRest(body: Bytes, pos: nat, end: nat, rest: Bytes)
    requires pos <= end <= |body| && rest == body[pos..end]
    ensures ExtensionsAt(body, pos, end) == InlineExtensions(rest)
    decreases end - pos
  {
    hide Vec16, ServerNameAt, InlineServerName;
    if pos + 4 <= end {
      ExtensionStep(body, pos, end, rest);
      var field := Vec16(rest[2..]);
      if field.Some? {
        ServerNameMeansList(field.value.0);
        ExtensionsMeanRest(body, pos + 4 + |field.value.0|, end, field.value.1);
      }
    }
  }

  lemma BlockMeansRest(body: Bytes, pos: nat, rest: Bytes)
    requires pos <= |body| && rest == body[pos..]
    ensures BlockAt(body, pos) == InlineBlock(rest)
  {
    hide ServerNameAt, InlineServerName;
    if pos + 1 < |body| {
      Vec16At(body, pos, |body|);
      assert rest == body[pos..|body|];
      var total: nat := U16(body[pos], body[pos + 1]);
      if pos + 2 + total <= |body| {
        ExtensionsMeanRest(body, pos + 2, pos + 2 + total, body[pos + 2..pos + 2 + total]);
      }
    }
  }

  lemma CompressionMeansRest(body: Bytes, pos: nat, rest: Bytes)
    requires pos <= |body| && rest == body[pos..]
    ensures CompressionAt(body, pos) == InlineCompression(rest)
  {
    hide ExtensionsAt, InlineExtensions;
    if pos < |body| {
      Vec8At(body, pos);
      var next: nat := pos + (1 + body[pos] as int);
      if next <= |body| { BlockMeansRest(body, next, body[next..]); }
    }
  }

  lemma CiphersMeansRest(body: Bytes, pos: nat, rest: Bytes)
    requires pos <= |body| && rest == body[pos..]
    ensures CiphersAt(body, pos) == InlineCiphers(rest)
  {
    hide BlockAt, InlineBlock;
    if pos + 1 < |body| {
      Vec16At(body, pos, |body|);
      assert rest == body[pos..|body|];
      var next: nat := pos + (2 + U16(body[pos], body[pos + 1]) as int);
      if next <= |body| { CompressionMeansRest(body, next, body[next..|body|]); }
    }
  }

  lemma BodyMeansTail(body: Bytes, tail: Bytes)
    requires |body| >= 34 && tail == body[34..]
    ensures BodyAt(body) == InlineBody(tail)
  {
    hide CompressionAt, InlineCompression;
    if |body| > 34 {
      Vec8At(body, 34);
      var next: nat := 35 + body[34] as int;
      if next <= |body| { CiphersMeansRest(body, next, body[next..]); }
    }
  }

  // ---------------------------------------------------------------- agreement with the production parser

  /** The first `host_name` entry that is not empty on the wire, or nothing. */
  function FirstHostName(list: Bytes): Bytes
    decreases |list|
  {
    if list == [] || Vec16(list[1..]).None? then []
    else
      var (name, rest) := Vec16(list[1..]).value;
      if list[0] == 0 && name != [] then name else FirstHostName(rest)
  }

  /** The name list of the first `server_name` extension, or nothing. */
  function NameListIn(exts: Bytes): Bytes
    decreases |exts|
  {
    if |exts| < 2 || Vec16(exts[2..]).None? then []
    else
      var (data, rest) := Vec16(exts[2..]).value;
      if U16(exts[0], exts[1]) != 0 then NameListIn(rest)
      else if Vec16(data).None? then [] else Vec16(data).value.0
  }

  /** The extension block behind session id, cipher suites and compression methods, or nothing. */
  function ExtensionsIn(tail: Bytes): Bytes {
    match Vec8(tail)
    case None => []
    case Some((_, afterSession)) =>
      match Vec16(afterSession)
      case None => []
      case Some((_, afterCiphers)) =>
        match Vec8(afterCiphers)
        case None => []
        case Some((_, block)) => if Vec16(block).None? then [] else Vec16(block).value.0
  }

  /** The host name as it stands on the wire. */
  function RawHost(bytes: Bytes): Bytes {
    if |bytes| < 9 then []
    else
      var n := 9 + U24(bytes[6], bytes[7], bytes[8]);
      if n > |bytes| || n < 9 + 34 then [] else FirstHostName(NameListIn(ExtensionsIn(bytes[9 + 34..n])))
  }

  /** The inline parser's answer, given the raw host and what production answers. */
  function Unblank(raw: Bytes, host: Bytes): Bytes { if Strip(raw) == [] then [] else host }

  /** Where production reads a host off a name list, the inline scan stops there or at an all-blank entry before. */
  lemma {:induction false} NamesAgree(list: Bytes)
    requires NamesMeaning(list).Ok? && NamesMeaning(list).value.Some?
    ensures NamesMeaning(list).value.value != []
    ensures InlineNames(list) == Host(Unblank(FirstHostName(list), NamesMeaning(list).value.value))
    decreases |list|
  {
    var (name, rest) := Vec16(list[1..]).value;
    if !(list[0] == 0 && name != [] && Strip(name) != []) {
      NamesAgree(rest);
    }
  }

  lemma {:induction false} ExtensionsAgree(exts: Bytes)
    requires ExtensionsMeaning(exts).Ok? && ExtensionsMeaning(exts).value.Some?
    ensures ExtensionsMeaning(exts).value.value != []
    ensures InlineExtensions(exts)
         == Found(Unblank(FirstHostName(NameListIn(exts)), ExtensionsMeaning(exts).value.value))
    decreases |exts|
  {
    var (data, rest) := Vec16(exts[2..]).value;
    if U16(exts[0], exts[1]) != 0 {
      ExtensionsAgree(rest);
    } else {
      NamesAgree(Vec16(data).value.0);
    }
  }

  /**
   * On every input for which production extracts a host, the inline parser extracts the same host,
   * except exactly when the first name on the wire is all blank, which it reports as the empty host.
   */
  lemma InlineMirrorsProduction(bytes: Bytes, host: Bytes)
    requires HelloMeaning(bytes) == Ok(Parsed(Some(host)))
    ensures InlineMeaning(bytes) == if Strip(RawHost(bytes)) == [] then Found([]) else Found(host)
    ensures InlineMeaning(bytes) == Found([]) <==> Strip(RawHost(bytes)) == []
  {
    hide BodyMeaning, InlineBody, ExtensionsIn, NameListIn, FirstHostName, Strip;
    var len: nat := U16(bytes[3], bytes[4]);
    var fragment := bytes[5..5 + len];
    var n := U24(fragment[1], fragment[2], fragment[3]);
    assert fragment[1] == bytes[6] && fragment[2] == bytes[7] && fragment[3] == bytes[8];
    SliceOfSlice(bytes, 5, 5 + len, 4 + 34, 4 + n);
    TailsAgree(fragment[4 + 34..4 + n], host);
  }

  lemma SliceOfSlice(s: Bytes, a: nat, b: nat, i: nat, j: nat)
    requires a <= b <= |s| && i <= j <= b - a
    ensures s[a..b][i..j] == s[a + i..a + j]
  {
    forall k | 0 <= k < j - i ensures s[a..b][i..j][k] == s[a + i..a + j][k] {
      assert s[a..b][i..j][k] == s[a..b][i + k];
    }
  }

  lemma TailsAgree(tail: Bytes, host: Bytes)
    requires BodyMeaning(tail) == Ok(Some(host))
    ensures host != []
    ensures InlineBody(tail) == Found(Unblank(FirstHostName(NameListIn(ExtensionsIn(tail))), host))
  {
    var block := Vec8(Vec16(Vec8(tail).value.1).value.1).value.1;
    ExtensionsAgree(Vec16(block).value.0);
  }

  // ---------------------------------------------------------------- the benchmark's own round trip

  lemma InlineNamesOfBuilt(host: Bytes)
    requires 0 < |host| < 0x1_0000 && ValidUtf8(host)
    ensures InlineNames(NameList(host)) == Host(Lower(Strip(host)))
  {
    Vec16OfBe16(host, []);
    assert NameList(host)[1..] == Be16(|host|) + host + [];
  }

  lemma InlineExtensionFrame(list: Bytes, host: Bytes)
    requires |list| + 2 < 0x1_0000 && InlineNames(list) == Host(host)
    ensures var data := Be16(|list|) + list;
            InlineExtensions([0x00, 0x00] + (Be16(|data|) + data)) == Found(host)
  {
    var data := Be16(|list|) + list;
    Vec16OfBe16(list, []);
    assert data + [] == data;
    var inner := Be16(|data|) + data;
    Vec16OfBe16(data, []);
    assert inner + [] == inner;
    var exts: Bytes := [0x00, 0x00] + inner;
    assert exts[2..] == inner;
  }

  lemma InlineBodyFrame(exts: Bytes)
    requires |exts| < 0x1_0000
    ensures InlineBody([0x00] + ([0x00, 0x02, 0x13, 0x01] + ([0x01, 0x00] + (Be16(|exts|) + exts))))
         == InlineExtensions(exts)
  {
    var d := Be16(|exts|) + exts;
    Vec16OfBe16(exts, []);
    assert d == Be16(|exts|) + exts + [];
    SkipCompression(d);
    SkipCiphers([0x01, 0x00] + d);
    SkipSession([0x00, 0x02, 0x13, 0x01] + ([0x01, 0x00] + d));
  }

  lemma InlineFragmentFrame(front: Bytes, tail: Bytes, len: nat)
    requires |front| == 34 && |tail| + 34 < 0x100_0000 && len <= |tail| + 38
    ensures InlineFragment(([0x01] + Be24(34 + |tail|) + (front + tail))[..len])
         == if len == |tail| + 38 then InlineBody(tail) else NoName
  {
    var n := 34 + |tail|;
    Be24RoundTrip(n);
    var hs := [0x01] + Be24(n) + (front + tail);
    if len >= 4 {
      assert hs[..len][1] == Be24(n)[0] && hs[..len][2] == Be24(n)[1] && hs[..len][3] == Be24(n)[2];
      if len == |tail| + 38 {
        assert hs[..len][4 + 34..4 + n] == tail;
      }
    }
  }

  lemma InlineRecordFrame(hs: Bytes)
    ensures InlineMeaning([0x16, 0x03, 0x01] + Be16(|hs|) + hs) == InlineFragment(hs[..|hs| % 0x1_0000])
  {
    Be16RoundTrip(|hs|);
    var len := |hs| % 0x1_0000;
    var record := [0x16, 0x03, 0x01] + Be16(|hs|) + hs;
    assert record[3] == Be16(|hs|)[0] && record[4] == Be16(|hs|)[1];
    assert record[5..5 + len] == hs[..len];
  }

  /** A whole record is read through; one whose length has wrapped around yields nothing. */
  lemma InlineHelloFrame(front: Bytes, tail: Bytes)
    requires |front| == 34 && |tail| + 34 < 0x100_0000
    ensures var hs := [0x01] + Be24(34 + |tail|) + (front + tail);
            InlineMeaning([0x16, 0x03, 0x01] + Be16(|hs|) + hs)
            == if |tail| + 38 < 0x1_0000 then InlineBody(tail) else NoName
  {
    var hs := [0x01] + Be24(34 + |tail|) + (front + tail);
    var n := |tail| + 38;
    assert |hs| == n && (n < 0x1_0000 <==> n % 0x1_0000 == n);
    InlineRecordFrame(hs);
    InlineFragmentFrame(front, tail, n % 0x1_0000);
  }

  lemma InlineTailOfBuilt(host: Bytes)
    requires 0 < |host| <= 65479 && ValidUtf8(host)
    ensures InlineBody(BodyTail(Some(host))) == Found(Lower(Strip(host)))
  {
    BuiltLengths(Some(host));
    InlineNamesOfBuilt(host);
    InlineExtensionFrame(NameList(host), Lower(Strip(host)));
    InlineBodyFrame(Extensions(Some(host)));
  }

  /** Parsing the built hello gives back the stripped, lowercased host, and does so exactly up to 65479 bytes. */
  lemma InlineRoundTrip(host: Bytes)
    requires 0 < |host| < 0x100_0000 - 52 && ValidUtf8(host)
    ensures InlineMeaning(Hello(Some(host))) == if |host| <= 65479 then Found(Lower(Strip(host))) else NoName
  {
    hide InlineMeaning, InlineBody, BodyTail;
    BuiltLengths(Some(host));
    InlineHelloFrame([0x03, 0x03] + RANDOM, BodyTail(Some(host)));
    if |host| <= 65479 { InlineTailOfBuilt(host); }
  }

  // ---------------------------------------------------------------- the benchmark's own table

  /** Wildcards are kept as the text after `*.`; the needle is put together on every comparison. */
  datatype BenchTable = BenchTable(
    exact: map<Bytes, RuleId>, wildcards: seq<(Bytes, RuleId)>, fallback: Option<RuleId>)

  function Needles(ws: seq<(Bytes, RuleId)>): seq<(Bytes, RuleId)> {
    seq(|ws|, i requires 0 <= i < |ws| => ([DOT] + ws[i].0, ws[i].1))
  }

  /** The production table with the needles put together beforehand. */
  function Production(b: BenchTable): Table { Table(b.exact, Needles(b.wildcards), b.fallback) }

  function HitId(m: SniMatch): Option<RuleId> { if m.Hit? then Some(m.id) else None }

  /** The benchmark's walk answers as the production walk over the same routes. */
  method BenchLookup(b: BenchTable, sni: Option<Bytes>) returns (r: Option<RuleId>)
    ensures r == HitId(LookupWalk(Production(b), sni))
  {
    if sni.Some? {
      var host := Lower(sni.value);
      if host in b.exact {
        return Some(b.exact[host]);
      }
      ghost var ws := Needles(b.wildcards);
      for i := 0 to |b.wildcards|
        invariant FirstWildcard(ws, host) == FirstWildcard(ws[i..], host)
      {
        if WildcardMatches(host, [DOT] + b.wildcards[i].0) {
          return Some(b.wildcards[i].1);
        }
        assert ws[i..][1..] == ws[i + 1..];
      }
    }
    return b.fallback;
  }

  /** The benchmark's dispatch: parse, then look up what was found. */
  method BenchDispatch(b: BenchTable, host: Bytes) returns (r: Option<RuleId>)
    requires 0 < |host| <= 65479 && Ascii(host) && Bare(host)
    ensures r == HitId(LookupWalk(Production(b), Some(host)))
  {
    hide InlineMeaning, Hello, LookupWalk;
    var answer := ParseSniInline(Hello(Some(host)));
    InlineDispatch(Production(b), host);
    r := BenchLookup(b, Some(answer.host));
  }

  /** So the benchmark's dispatch, parse then look up, is routing on the host itself. */
  lemma InlineDispatch(t: Table, host: Bytes)
    requires 0 < |host| <= 65479 && Ascii(host) && Bare(host)
    ensures InlineMeaning(Hello(Some(host))) == Found(Lower(host))
    ensures LookupWalk(t, Some(Lower(host))) == LookupWalk(t, Some(host))
  {
    hide InlineMeaning, Hello, LookupWalk;
    AsciiIsUtf8(host);
    InlineRoundTrip(host);
    BareIsStripped(host);
    SameLookup(t, host);
  }
}
