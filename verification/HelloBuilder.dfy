/** The ClientHello builders, and the round trip through the parser. */
module HelloBuilder {
  import opened Prelude
  import opened RouteTable
  import opened HostText
  import opened ClientHello

  /** `(n as u16).to_be_bytes()`: the cast keeps the low 16 bits. */
  function Be16(n: nat): (r: Bytes) { [n / 0x100 % 0x100, n % 0x100] }

  function Be24(n: nat): (r: Bytes) { [n / 0x1_0000 % 0x100, n / 0x100 % 0x100, n % 0x100] }

  function Repeat(b: u8, n: nat): (r: Bytes)
    ensures |r| == n && forall i :: 0 <= i < n ==> r[i] == b
  {
    if n == 0 then [] else [b] + Repeat(b, n - 1)
  }

  const RANDOM := Repeat(0xab, 32)

  function NameList(host: Bytes): Bytes { [0x00] + (Be16(|host|) + host) }

  function ServerNameData(host: Bytes): Bytes { Be16(|NameList(host)|) + NameList(host) }

  function Extensions(sni: Option<Bytes>): Bytes {
    match sni
    case None => []
    case Some(host) => [0x00, 0x00] + (Be16(|ServerNameData(host)|) + ServerNameData(host))
  }

  /** Everything after version and random. */
  function BodyTail(sni: Option<Bytes>): Bytes {
    [0x00] + ([0x00, 0x02, 0x13, 0x01] + ([0x01, 0x00] + (Be16(|Extensions(sni)|) + Extensions(sni))))
  }

  function Body(sni: Option<Bytes>): Bytes { [0x03, 0x03] + RANDOM + BodyTail(sni) }

  function Handshake(sni: Option<Bytes>): Bytes { [0x01] + Be24(|Body(sni)|) + Body(sni) }

  function Hello(sni: Option<Bytes>): Bytes { [0x16, 0x03, 0x01] + Be16(|Handshake(sni)|) + Handshake(sni) }

  method BuildExtensions(sni: Option<Bytes>) returns (exts: Bytes)
    ensures exts == Extensions(sni)
  {
    exts := [];
    if sni.Some? {
      var host := sni.value;
      var snList: Bytes := [0x00];
      snList := snList + Be16(|host|);
      snList := snList + host;
      assert snList == NameList(host);
      var snExtData := Be16(|snList|);
      snExtData := snExtData + snList;
      exts := exts + [0x00, 0x00];
      exts := exts + Be16(|snExtData|);
      exts := exts + snExtData;
    }
  }

  /** `build_client_hello`; its checked conversions panic beyond 65526 host bytes. */
  method BuildClientHello(sni: Option<Bytes>) returns (record: Bytes)
    requires sni.Some? ==> |sni.value| <= 65526
    ensures record == Hello(sni)
  {
    var body: Bytes := [0x03, 0x03];
    body := body + RANDOM;
    body := body + [0x00];
    body := body + [0x00, 0x02, 0x13, 0x01];
    body := body + [0x01, 0x00];
    ghost var fixed := body;
    var exts := BuildExtensions(sni);
    body := body + Be16(|exts|);
    body := body + exts;
    SplitBody(Be16(|exts|) + exts);
    assert body == fixed + (Be16(|exts|) + exts);
    var hs: Bytes := [0x01];
    hs := hs + Be24(|body|);
    hs := hs + body;
    record := [0x16];
    record := record + [0x03, 0x01];
    assert record == [0x16, 0x03, 0x01];
    record := record + Be16(|hs|);
    record := record + hs;
  }

  lemma SplitBody(block: Bytes)
    ensures [0x03, 0x03] + RANDOM + [0x00] + [0x00, 0x02, 0x13, 0x01] + [0x01, 0x00] + block
         == [0x03, 0x03] + RANDOM + ([0x00] + ([0x00, 0x02, 0x13, 0x01] + ([0x01, 0x00] + block)))
  {
  }

  // ---------------------------------------------------------------- the round trip

  /** What a host name is routed as: stripped and lowercased, or nothing if that leaves nothing. */
  function Routed(host: Bytes): (r: Option<Bytes>) {
    if Strip(host) == [] then None else Some(Lower(Strip(host)))
  }

  lemma Be16RoundTrip(n: nat)
    ensures U16(Be16(n)[0], Be16(n)[1]) == n % 0x1_0000
  {
  }

  lemma Vec16OfBe16(x: Bytes, rest: Bytes)
    requires |x| < 0x1_0000
    ensures Vec16(Be16(|x|) + x + rest) == Some((x, rest))
  {
    Be16RoundTrip(|x|);
    var s := Be16(|x|) + x + rest;
    assert s[2..] == x + rest;
  }

  lemma NamesOfBuilt(host: Bytes)
    requires |host| < 0x1_0000 && ValidUtf8(host)
    ensures NamesMeaning(NameList(host)) == Ok(Routed(host))
  {
    Vec16OfBe16(host, []);
    var list := NameList(host);
    assert list[1..] == Be16(|host|) + host + [];
    if host == [] {
      assert Strip(host) == [];
    }
  }

  // One framing layer at a time, for any content.

  lemma ServerNameFrame(list: Bytes)
    requires |list| < 0x1_0000
    ensures ServerNameMeaning(Be16(|list|) + list) == NamesMeaning(list)
  {
    Vec16OfBe16(list, []);
    assert Be16(|list|) + list + [] == Be16(|list|) + list;
  }

  lemma ExtensionFrame(data: Bytes)
    requires |data| < 0x1_0000
    ensures ExtensionsMeaning([0x00, 0x00] + (Be16(|data|) + data)) == ServerNameMeaning(data)
  {
    Vec16OfBe16(data, []);
    var inner := Be16(|data|) + data;
    assert inner + [] == inner;
    var exts: Bytes := [0x00, 0x00] + inner;
    assert exts[2..] == inner;
  }

  lemma BodyFrame(exts: Bytes)
    requires |exts| < 0x1_0000
    ensures BodyMeaning([0x00] + ([0x00, 0x02, 0x13, 0x01] + ([0x01, 0x00] + (Be16(|exts|) + exts))))
         == ExtensionsMeaning(exts)
  {
    var d := Be16(|exts|) + exts;
    Vec16OfBe16(exts, []);
    assert d == Be16(|exts|) + exts + [];
    SkipCompression(d);
    SkipCiphers([0x01, 0x00] + d);
    SkipSession([0x00, 0x02, 0x13, 0x01] + ([0x01, 0x00] + d));
  }

  lemma SkipSession(s: Bytes)
    ensures Vec8([0x00] + s) == Some(([], s))
  {
    assert ([0x00] + s)[1..][0..] == s;
  }

  lemma SkipCiphers(s: Bytes)
    ensures Vec16([0x00, 0x02, 0x13, 0x01] + s) == Some(([0x13, 0x01], s))
  {
    var b: Bytes := [0x00, 0x02, 0x13, 0x01] + s;
    assert b[2..][2..] == s && b[2..][..2] == [0x13, 0x01];
  }

  lemma SkipCompression(s: Bytes)
    ensures Vec8([0x01, 0x00] + s) == Some(([0x00], s))
  {
    var c: Bytes := [0x01, 0x00] + s;
    assert c[1..][1..] == s && c[1..][..1] == [0x00];
  }

  lemma Be24RoundTrip(n: nat)
    requires n < 0x100_0000
    ensures U24(Be24(n)[0], Be24(n)[1], Be24(n)[2]) == n
  {
  }

  lemma FragmentFrame(front: Bytes, tail: Bytes)
    requires |front| == 34 && |tail| + 34 < 0x100_0000
    ensures FragmentMeaning([0x01] + Be24(34 + |tail|) + (front + tail)) == BodyMeaning(tail)
  {
    var n := 34 + |tail|;
    Be24RoundTrip(n);
    var hs := [0x01] + Be24(n) + (front + tail);
    assert hs[1] == Be24(n)[0] && hs[2] == Be24(n)[1] && hs[3] == Be24(n)[2];
    assert hs[4 + 34..4 + n] == tail;
  }

  /** A handshake whose own length field claims more than the record carries. */
  lemma CutFragment(n: nat, rest: Bytes, len: nat)
    requires n < 0x100_0000 && len <= 4 + |rest| && len < n + 4
    ensures FragmentMeaning(([0x01] + Be24(n) + rest)[..len]) == Err(Malformed)
  {
    Be24RoundTrip(n);
    var hs := [0x01] + Be24(n) + rest;
    if len >= 4 {
      assert hs[..len][1] == Be24(n)[0] && hs[..len][2] == Be24(n)[1] && hs[..len][3] == Be24(n)[2];
    }
  }

  function Lift(r: Result<Option<Bytes>, ParseError>): Result<Outcome, ParseError> {
    match r case Ok(sni) => Ok(Parsed(sni)) case Err(e) => Err(e)
  }

  lemma RecordFrame(hs: Bytes)
    ensures var len := |hs| % 0x1_0000;
            HelloMeaning([0x16, 0x03, 0x01] + Be16(|hs|) + hs)
            == if len == 0 || len > MAX_HANDSHAKE_BODY then Err(Malformed) else Lift(FragmentMeaning(hs[..len]))
  {
    hide FragmentMeaning;
    var len := |hs| % 0x1_0000;
    var record := [0x16, 0x03, 0x01] + Be16(|hs|) + hs;
    Be16RoundTrip(|hs|);
    assert record[3] == Be16(|hs|)[0] && record[4] == Be16(|hs|)[1];
    hide Be16, U16;
    assert record[5..5 + len] == hs[..len];
  }

  lemma RecordPrefix(hs: Bytes, k: nat)
    requires 0 < |hs| <= MAX_HANDSHAKE_BODY && k < 5 + |hs|
    ensures HelloMeaning(([0x16, 0x03, 0x01] + Be16(|hs|) + hs)[..k]) == Ok(Truncated)
  {
    hide FragmentMeaning;
    var prefix := ([0x16, 0x03, 0x01] + Be16(|hs|) + hs)[..k];
    if k >= 5 {
      Be16RoundTrip(|hs|);
      assert prefix[3] == Be16(|hs|)[0] && prefix[4] == Be16(|hs|)[1];
      HeaderOnly(prefix, |hs|);
    }
  }

  lemma HeaderOnly(prefix: Bytes, n: nat)
    requires 5 <= |prefix| < 5 + n && n <= MAX_HANDSHAKE_BODY
    requires prefix[0] == 0x16 && prefix[1] == 0x03 && U16(prefix[3], prefix[4]) == n
    ensures HelloMeaning(prefix) == Ok(Truncated)
  {
  }

  lemma BuiltLengths(sni: Option<Bytes>)
    ensures |Extensions(sni)| == if sni.Some? then |sni.value| + 9 else 0
    ensures |BodyTail(sni)| == |Extensions(sni)| + 9 && |Body(sni)| == |Extensions(sni)| + 43
    ensures |Handshake(sni)| == |Extensions(sni)| + 47
  {
    if sni.Some? {
      assert |NameList(sni.value)| == |sni.value| + 3;
      assert |ServerNameData(sni.value)| == |sni.value| + 5;
    }
  }

  lemma HandshakeOfBuilt(sni: Option<Bytes>)
    requires |Extensions(sni)| < 0x1_0000
    ensures FragmentMeaning(Handshake(sni)) == ExtensionsMeaning(Extensions(sni))
  {
    BuiltLengths(sni);
    BodyFrame(Extensions(sni));
    FragmentFrame([0x03, 0x03] + RANDOM, BodyTail(sni));
  }

  lemma ExtensionsOfBuilt(host: Bytes)
    requires |host| <= 65526 && ValidUtf8(host)
    ensures ExtensionsMeaning(Extensions(Some(host))) == Ok(Routed(host))
  {
    NamesOfBuilt(host);
    BuiltLengths(Some(host));
    ServerNameFrame(NameList(host));
    ExtensionFrame(ServerNameData(host));
  }

  /**
   * Every host the builder takes: the parser answers the routed host when the record fits the TLS
   * fragment limit (hosts up to 16328 bytes), and Malformed beyond it, also where the record length
   * has wrapped around.
   */
  lemma ParseOfBuild(host: Bytes)
    requires |host| <= 65526 && ValidUtf8(host)
    ensures HelloMeaning(Hello(Some(host)))
         == if |host| <= 16328 then Ok(Parsed(Routed(host))) else Err(Malformed)
  {
    hide HelloMeaning, FragmentMeaning, Extensions;
    BuiltLengths(Some(host));
    if |host| <= 16328 {
      HandshakeOfBuilt(Some(host));
      ExtensionsOfBuilt(host);
      WholeRecord(Handshake(Some(host)), Ok(Routed(host)));
    } else {
      OversizedRecord(|Body(Some(host))|, Body(Some(host)));
    }
  }

  lemma WholeRecord(hs: Bytes, r: Result<Option<Bytes>, ParseError>)
    requires 0 < |hs| <= MAX_HANDSHAKE_BODY && FragmentMeaning(hs) == r
    ensures HelloMeaning([0x16, 0x03, 0x01] + Be16(|hs|) + hs) == Lift(r)
  {
    hide HelloMeaning, FragmentMeaning;
    var n := |hs|;
    assert n % 0x1_0000 == n;
    assert hs[..n] == hs;
    RecordFrame(hs);
  }

  lemma OversizedRecord(n: nat, body: Bytes)
    requires n == |body| && MAX_HANDSHAKE_BODY < n + 4 && n < 0x100_0000
    ensures var hs := [0x01] + Be24(n) + body;
            HelloMeaning([0x16, 0x03, 0x01] + Be16(|hs|) + hs) == Err(Malformed)
  {
    var hs := [0x01] + Be24(n) + body;
    var len := |hs| % 0x1_0000;
    RecordFrame(hs);
    if 0 < len <= MAX_HANDSHAKE_BODY {
      CutFragment(n, body, len);
    }
  }

  /** A ClientHello without the extension parses to "no name". */
  lemma ParseOfBuildWithoutName()
    ensures HelloMeaning(Hello(None)) == Ok(Parsed(None))
  {
    BuiltLengths(None);
    HandshakeOfBuilt(None);
    WholeRecord(Handshake(None), Ok(None));
  }

  /** Fed byte by byte, a built hello stays undecided until its last byte. */
  lemma BuiltPrefixesAreTruncated(host: Bytes, k: nat)
    requires |host| <= 16328 && k < |Hello(Some(host))|
    ensures HelloMeaning(Hello(Some(host))[..k]) == Ok(Truncated)
  {
    hide HelloMeaning, Extensions;
    BuiltLengths(Some(host));
    RecordPrefix(Handshake(Some(host)), k);
  }

  /** For a bare host, routing on the bytes of its ClientHello is routing on the host. */
  lemma RoutingOnTheWire(t: Table, host: Bytes)
    requires 0 < |host| <= 16328 && ValidUtf8(host) && Bare(host)
    ensures HelloMeaning(Hello(Some(host))) == Ok(Parsed(Some(Lower(host))))
    ensures LookupWalk(t, HelloMeaning(Hello(Some(host))).value.sni) == LookupWalk(t, Some(host))
  {
    hide HelloMeaning, Hello, LookupWalk;
    ParseOfBuild(host);
    BareIsStripped(host);
    LowerIdempotent(host);
    SameLookup(t, host);
  }

  lemma SameLookup(t: Table, host: Bytes)
    ensures LookupWalk(t, Some(Lower(host))) == LookupWalk(t, Some(host))
  {
    LowerIdempotent(host);
  }

  /** The bytes of a built hello, field by field. */
  lemma BuiltBytes(sni: Option<Bytes>)
    ensures Hello(sni) == [0x16, 3, 1] + Be16(|Extensions(sni)| + 47) + Handshake(sni)
    ensures Handshake(sni) == [1] + Be24(|Extensions(sni)| + 43) + Body(sni)
    ensures Body(sni)
         == [3, 3] + RANDOM + ([0, 0, 2, 0x13, 1, 1, 0] + (Be16(|Extensions(sni)|) + Extensions(sni)))
    ensures Extensions(sni)
         == match sni
            case None => []
            case Some(host) => [0, 0] + Be16(|host| + 5) + Be16(|host| + 3) + [0] + Be16(|host|) + host
    ensures |RANDOM| == 32 && forall i :: 0 <= i < 32 ==> RANDOM[i] == 0xAB
  {
    BuiltLengths(sni);
    if sni.Some? { ExtensionsLayout(sni.value); }
    hide Be16, Be24, Extensions, Repeat;
    var exts := Extensions(sni);
    BodyLayout(Be16(|exts|) + exts);
  }

  lemma ExtensionsLayout(host: Bytes)
    ensures Extensions(Some(host)) == [0, 0] + Be16(|host| + 5) + Be16(|host| + 3) + [0] + Be16(|host|) + host
  {
    assert |NameList(host)| == |host| + 3 && |ServerNameData(host)| == |host| + 5;
  }

  lemma BodyLayout(block: Bytes)
    ensures [0x00] + ([0x00, 0x02, 0x13, 0x01] + ([0x01, 0x00] + block)) == [0, 0, 2, 0x13, 1, 1, 0] + block
  {
  }
}
