/**
 * The wire format of a ClientHello as structured values, and the theorem that the parser accepts exactly
 * their encodings and answers the first usable host name in them.
 */
module HelloGrammar {
  import opened Prelude
  import opened RouteTable
  import opened HostText
  import opened ClientHello
  import opened HelloBuilder

  // ---------------------------------------------------------------- big-endian numbers

  /** The first byte weighs most and the last one counts single steps. */
  lemma BigEndian(a: u8, b: u8, c: u8, x: u8, y: u8, z: u8)
    ensures U16(0, b) == b && U24(0, b, c) == U16(b, c)
    ensures U16(a, b) < U16(x, y) <==> a < x || (a == x && b < y)
    ensures U24(a, b, c) < U24(x, y, z) <==> a < x || (a == x && U16(b, c) < U16(y, z))
    ensures U16(0xFF, 0xFF) == 0xFFFF && U24(0xFF, 0xFF, 0xFF) == 0xFF_FFFF
  {
  }

  // ---------------------------------------------------------------- server names

  datatype NameEntry = NameEntry(kind: u8, name: Bytes)

  /** Entries the parser passes over, then perhaps a usable host name and bytes it never looks at. */
  datatype NameList = NameList(skipped: seq<NameEntry>, found: Option<(Bytes, Bytes)>)

  predicate Short(s: Bytes) { |s| < 0x1_0000 }

  predicate Usable(host: Bytes) { Short(host) && ValidUtf8(host) && Strip(host) != [] }

  /** Of another type, empty, or nothing but white space and dots. */
  predicate Passed(e: NameEntry) {
    Short(e.name) && (e.kind != 0 || e.name == [] || (ValidUtf8(e.name) && Strip(e.name) == []))
  }

  function Field16(s: Bytes): Bytes { Be16(|s|) + s }

  function Field8(s: Bytes): Bytes
    requires |s| < 0x100
  {
    [|s|] + s
  }

  function NameBytes(e: NameEntry): Bytes { [e.kind] + Field16(e.name) }

  function PassedBytes(es: seq<NameEntry>): Bytes {
    if es == [] then [] else NameBytes(es[0]) + PassedBytes(es[1..])
  }

  function NameListBytes(l: NameList): Bytes {
    PassedBytes(l.skipped)
    + match l.found case None => [] case Some((host, unread)) => NameBytes(NameEntry(0, host)) + unread
  }

  predicate NameListOk(l: NameList) {
    && (forall i :: 0 <= i < |l.skipped| ==> Passed(l.skipped[i]))
    && (l.found.Some? ==> Usable(l.found.value.0))
  }

  function HostIn(l: NameList): Option<Bytes> {
    if l.found.Some? then Some(Lower(Strip(l.found.value.0))) else None
  }

  lemma Vec16Field(s: Bytes, rest: Bytes)
    requires Short(s)
    ensures Vec16(Field16(s) + rest) == Some((s, rest))
  {
    Vec16OfBe16(s, rest);
  }

  lemma Vec16Bytes(s: Bytes)
    requires Vec16(s).Some?
    ensures Short(Vec16(s).value.0) && s == Field16(Vec16(s).value.0) + Vec16(s).value.1
  {
  }

  lemma Vec8Field(s: Bytes, rest: Bytes)
    requires |s| < 0x100
    ensures Vec8(Field8(s) + rest) == Some((s, rest))
  {
    assert (Field8(s) + rest)[1..] == s + rest;
  }

  lemma Vec8Bytes(s: Bytes)
    requires Vec8(s).Some?
    ensures |Vec8(s).value.0| < 0x100 && s == Field8(Vec8(s).value.0) + Vec8(s).value.1
  {
  }

  lemma NamesStep(e: NameEntry, rest: Bytes)
    requires Short(e.name)
    ensures NamesMeaning(NameBytes(e) + rest)
         == if e.kind != 0 || e.name == [] then NamesMeaning(rest)
            else if !ValidUtf8(e.name) then Err(Malformed)
            else if Strip(e.name) == [] then NamesMeaning(rest)
            else Ok(Some(Lower(Strip(e.name))))
  {
    hide ValidUtf8, Strip, Lower;
    assert (NameBytes(e) + rest)[1..] == Field16(e.name) + rest;
    Vec16Field(e.name, rest);
  }

  lemma ListCons(e: NameEntry, l: NameList)
    ensures var l' := l.(skipped := [e] + l.skipped);
            NameListBytes(l') == NameBytes(e) + NameListBytes(l) && (NameListOk(l') <==> Passed(e) && NameListOk(l))
  {
    hide Passed, Usable, NameBytes;
    var l' := l.(skipped := [e] + l.skipped);
    assert l'.skipped[1..] == l.skipped;
    if NameListOk(l') {
      assert Passed(l'.skipped[0]);
      forall i | 0 <= i < |l.skipped| ensures Passed(l.skipped[i]) { assert l'.skipped[i + 1] == l.skipped[i]; }
    }
  }

  lemma {:induction false} NamesOfList(l: NameList)
    requires NameListOk(l)
    ensures NamesMeaning(NameListBytes(l)) == Ok(HostIn(l))
    decreases |l.skipped|
  {
    hide NamesMeaning, ValidUtf8, Strip, Lower, NameBytes;
    if l.skipped != [] {
      var e, rest := l.skipped[0], l.(skipped := l.skipped[1..]);
      assert l == rest.(skipped := [e] + rest.skipped);
      ListCons(e, rest);
      NamesOfList(rest);
      NamesStep(e, NameListBytes(rest));
    } else if l.found.Some? {
      var (host, unread) := l.found.value;
      assert NameListBytes(l) == NameBytes(NameEntry(0, host)) + unread;
      assert host == [] ==> Strip(host) == [] by { StripNothing(); }
      NamesStep(NameEntry(0, host), unread);
    } else {
      assert NameListBytes(l) == [] && NamesMeaning([]) == Ok(None) by { NoNames(); }
    }
  }

  lemma NoNames()
    ensures NamesMeaning([]) == Ok(None)
  {
  }

  lemma StripNothing()
    ensures Strip([]) == []
  {
  }

  lemma {:induction false} ListOfNames(list: Bytes) returns (l: NameList)
    requires NamesMeaning(list).Ok?
    ensures NameListOk(l) && list == NameListBytes(l)
    decreases |list|
  {
    hide ValidUtf8, Strip, Lower;
    if list == [] {
      l := NameList([], None);
    } else {
      Vec16Bytes(list[1..]);
      var (name, rest) := Vec16(list[1..]).value;
      var e := NameEntry(list[0], name);
      assert list == NameBytes(e) + rest;
      if list[0] == 0 && name != [] && Strip(name) != [] {
        l := NameList([], Some((name, rest)));
      } else {
        var tail := ListOfNames(rest);
        ListCons(e, tail);
        l := tail.(skipped := [e] + tail.skipped);
      }
    }
  }

  // ---------------------------------------------------------------- extensions

  datatype Extension = Extension(kind: u16, data: Bytes)

  /** The first `server_name` extension, what follows its list, and the extensions never looked at. */
  datatype ServerName = ServerName(list: NameList, slack: Bytes, unread: Bytes)

  datatype Block = Block(before: seq<Extension>, names: Option<ServerName>)

  function ExtensionBytes(x: Extension): Bytes { Be16(x.kind) + Field16(x.data) }

  function BeforeBytes(xs: seq<Extension>): Bytes {
    if xs == [] then [] else ExtensionBytes(xs[0]) + BeforeBytes(xs[1..])
  }

  function NameData(n: ServerName): Bytes { Field16(NameListBytes(n.list)) + n.slack }

  function BlockBytes(b: Block): Bytes {
    BeforeBytes(b.before)
    + match b.names case None => [] case Some(n) => ExtensionBytes(Extension(0, NameData(n))) + n.unread
  }

  predicate BlockOk(b: Block) {
    && (forall i :: 0 <= i < |b.before| ==> b.before[i].kind != 0 && Short(b.before[i].data))
    && (b.names.Some? ==>
          NameListOk(b.names.value.list) && Short(NameListBytes(b.names.value.list)) && Short(NameData(b.names.value)))
  }

  function HostOf(b: Block): Option<Bytes> { if b.names.Some? then HostIn(b.names.value.list) else None }

  lemma ExtensionHead(x: Extension, rest: Bytes)
    ensures var bytes := ExtensionBytes(x) + rest;
            |bytes| >= 4 && U16(bytes[0], bytes[1]) == x.kind && bytes[2..] == Field16(x.data) + rest
  {
    var bytes, front := ExtensionBytes(x) + rest, Be16(x.kind);
    Be16RoundTrip(x.kind);
    hide Be16, U16;
    assert bytes == front + (Field16(x.data) + rest);
    assert bytes[0] == front[0] && bytes[1] == front[1];
  }

  lemma ExtensionsUnfold(exts: Bytes, kind: u16, data: Bytes, rest: Bytes)
    requires |exts| >= 2 && U16(exts[0], exts[1]) == kind && Vec16(exts[2..]) == Some((data, rest))
    ensures ExtensionsMeaning(exts) == if kind != 0 then ExtensionsMeaning(rest) else ServerNameMeaning(data)
  {
    hide U16, Vec16, ServerNameMeaning;
  }

  lemma ExtensionsStep(x: Extension, rest: Bytes)
    requires Short(x.data)
    ensures ExtensionsMeaning(ExtensionBytes(x) + rest)
         == if x.kind != 0 then ExtensionsMeaning(rest) else ServerNameMeaning(x.data)
  {
    hide ExtensionsMeaning, ServerNameMeaning, ExtensionBytes, Field16, U16, Vec16;
    ExtensionHead(x, rest);
    Vec16Field(x.data, rest);
    ExtensionsUnfold(ExtensionBytes(x) + rest, x.kind, x.data, rest);
  }

  lemma ServerNameOf(list: Bytes, slack: Bytes)
    requires Short(list)
    ensures ServerNameMeaning(Field16(list) + slack) == NamesMeaning(list)
  {
    hide NamesMeaning, Field16, Vec16;
    Vec16Field(list, slack);
  }

  lemma NoBlock()
    ensures BlockOk(Block([], None)) && BlockBytes(Block([], None)) == [] && ExtensionsMeaning([]) == Ok(None)
  {
  }

  lemma BlockCons(x: Extension, b: Block)
    ensures var b' := b.(before := [x] + b.before);
            && BlockBytes(b') == ExtensionBytes(x) + BlockBytes(b)
            && (BlockOk(b') <==> x.kind != 0 && Short(x.data) && BlockOk(b))
  {
    hide NameListOk, NameListBytes, ExtensionBytes, NameData, Short;
    var b' := b.(before := [x] + b.before);
    assert b'.before[1..] == b.before && b'.before[0] == x;
    if BlockOk(b') {
      forall i | 0 <= i < |b.before| ensures b.before[i].kind != 0 && Short(b.before[i].data) {
        assert b'.before[i + 1] == b.before[i];
      }
    }
  }

  lemma LoneName(n: ServerName)
    ensures var b := Block([], Some(n));
            && BlockBytes(b) == ExtensionBytes(Extension(0, NameData(n))) + n.unread
            && (BlockOk(b) <==> NameListOk(n.list) && Short(NameListBytes(n.list)) && Short(NameData(n)))
  {
    hide NameListOk, NameListBytes, ExtensionBytes, NameData, Short;
  }

  lemma {:induction false} ExtensionsOfBlock(b: Block)
    requires BlockOk(b)
    ensures ExtensionsMeaning(BlockBytes(b)) == Ok(HostOf(b))
    decreases |b.before|
  {
    hide ExtensionsMeaning, ServerNameMeaning, NamesMeaning, NameListOk, NameListBytes;
    hide ExtensionBytes, BlockBytes, BlockOk;
    if b.before != [] {
      var x, rest := b.before[0], b.(before := b.before[1..]);
      assert b == rest.(before := [x] + rest.before);
      BlockCons(x, rest);
      ExtensionsOfBlock(rest);
      ExtensionsStep(x, BlockBytes(rest));
    } else if b.names.Some? {
      var n := b.names.value;
      assert b == Block([], Some(n));
      LoneName(n);
      ExtensionsStep(Extension(0, NameData(n)), n.unread);
      ServerNameOf(NameListBytes(n.list), n.slack);
      NamesOfList(n.list);
    } else {
      NoBlock();
      assert b == Block([], None);
    }
  }

  lemma ExtensionSplit(exts: Bytes)
    requires |exts| >= 2 && Vec16(exts[2..]).Some?
    ensures var x := Extension(U16(exts[0], exts[1]), Vec16(exts[2..]).value.0);
            Short(x.data) && exts == ExtensionBytes(x) + Vec16(exts[2..]).value.1
  {
    Vec16Bytes(exts[2..]);
    assert exts[..2] == Be16(U16(exts[0], exts[1]));
    assert exts == exts[..2] + exts[2..];
  }

  lemma {:induction false} BlockOfExtensions(exts: Bytes) returns (b: Block)
    requires ExtensionsMeaning(exts).Ok?
    ensures BlockOk(b) && exts == BlockBytes(b)
    decreases |exts|
  {
    hide NamesMeaning, NameListOk, NameListBytes, BlockBytes, BlockOk, ExtensionBytes;
    if exts == [] {
      NoBlock();
      b := Block([], None);
    } else {
      ExtensionSplit(exts);
      var (data, rest) := Vec16(exts[2..]).value;
      var x := Extension(U16(exts[0], exts[1]), data);
      if x.kind != 0 {
        var tail := BlockOfExtensions(rest);
        BlockCons(x, tail);
        b := tail.(before := [x] + tail.before);
      } else {
        Vec16Bytes(data);
        var (list, slack) := Vec16(data).value;
        var l := ListOfNames(list);
        var n := ServerName(l, slack, rest);
        LoneName(n);
        b := Block([], Some(n));
      }
    }
  }

  // ---------------------------------------------------------------- body and record

  /** `exts` is the extension block and what follows it in the body, if the body goes on that far. */
  datatype HelloBody = HelloBody(
    session: Bytes, ciphers: Bytes, compression: Bytes, exts: Option<(Block, Bytes)>)

  function TailBytes(b: HelloBody): Bytes
    requires |b.session| < 0x100 && |b.compression| < 0x100
  {
    Field8(b.session) + (Field16(b.ciphers) + (Field8(b.compression)
    + match b.exts case None => [] case Some((block, slack)) => Field16(BlockBytes(block)) + slack))
  }

  predicate BodyOk(b: HelloBody) {
    && |b.session| < 0x100 && Short(b.ciphers) && |b.compression| < 0x100
    && (b.exts.Some? ==> BlockOk(b.exts.value.0) && Short(BlockBytes(b.exts.value.0)))
  }

  function BodyHost(b: HelloBody): Option<Bytes> { if b.exts.Some? then HostOf(b.exts.value.0) else None }

  lemma BodyOfHello(b: HelloBody)
    requires BodyOk(b)
    ensures BodyMeaning(TailBytes(b)) == Ok(BodyHost(b))
  {
    hide ExtensionsMeaning, BlockOk, BlockBytes;
    var exts := match b.exts case None => [] case Some((block, slack)) => Field16(BlockBytes(block)) + slack;
    Vec8Field(b.session, Field16(b.ciphers) + (Field8(b.compression) + exts));
    Vec16Field(b.ciphers, Field8(b.compression) + exts);
    Vec8Field(b.compression, exts);
    if b.exts.Some? {
      var (block, slack) := b.exts.value;
      Vec16Field(BlockBytes(block), slack);
      ExtensionsOfBlock(block);
    }
  }

  lemma HelloOfBody(tail: Bytes) returns (b: HelloBody)
    requires BodyMeaning(tail).Ok?
    ensures BodyOk(b) && tail == TailBytes(b)
  {
    hide ExtensionsMeaning, BlockOk, BlockBytes;
    Vec8Bytes(tail);
    var (session, afterSession) := Vec8(tail).value;
    Vec16Bytes(afterSession);
    var (ciphers, afterCiphers) := Vec16(afterSession).value;
    Vec8Bytes(afterCiphers);
    var (compression, rest) := Vec8(afterCiphers).value;
    if rest == [] {
      b := HelloBody(session, ciphers, compression, None);
    } else {
      Vec16Bytes(rest);
      var (exts, slack) := Vec16(rest).value;
      var block := BlockOfExtensions(exts);
      b := HelloBody(session, ciphers, compression, Some((block, slack)));
    }
  }

  /** One record: `front` is the version and the random, `slack` what follows the handshake message in the record. */
  datatype Record = Record(minor: u8, front: Bytes, body: HelloBody, slack: Bytes)

  function Message(r: Record): Bytes
    requires BodyOk(r.body)
  {
    r.front + TailBytes(r.body)
  }

  function Fragment(r: Record): Bytes
    requires BodyOk(r.body)
  {
    [0x01] + Be24(|Message(r)|) + Message(r) + r.slack
  }

  predicate RecordOk(r: Record) { |r.front| == 34 && BodyOk(r.body) && |Fragment(r)| <= MAX_HANDSHAKE_BODY }

  function RecordBytes(r: Record): Bytes
    requires RecordOk(r)
  {
    [0x16, 0x03, r.minor] + Field16(Fragment(r))
  }

  lemma FragmentOfRecord(r: Record)
    requires RecordOk(r)
    ensures FragmentMeaning(Fragment(r)) == Ok(BodyHost(r.body))
  {
    hide BodyMeaning, BlockOk, BlockBytes, TailBytes;
    var n, f := |Message(r)|, Fragment(r);
    Be24RoundTrip(n);
    assert f[1] == Be24(n)[0] && f[2] == Be24(n)[1] && f[3] == Be24(n)[2];
    assert f[4 + 34..4 + n] == TailBytes(r.body);
    BodyOfHello(r.body);
  }

  /**
   * Whatever the session id, the cipher suites, the compression methods, the extensions before
   * `server_name`, the entries before the host name and everything after it: the parser answers the host.
   */
  lemma ParseOfRecord(r: Record, more: Bytes)
    requires RecordOk(r)
    ensures HelloMeaning(RecordBytes(r) + more) == Ok(Parsed(BodyHost(r.body)))
  {
    hide FragmentMeaning, BodyOk;
    var f, bytes := Fragment(r), RecordBytes(r) + more;
    Be16RoundTrip(|f|);
    assert bytes[3] == Be16(|f|)[0] && bytes[4] == Be16(|f|)[1];
    assert bytes[5..5 + |f|] == f;
    FragmentOfRecord(r);
  }

  lemma RecordOfFragment(minor: u8, fragment: Bytes) returns (r: Record)
    requires |fragment| <= MAX_HANDSHAKE_BODY && FragmentMeaning(fragment).Ok?
    ensures RecordOk(r) && r.minor == minor && Fragment(r) == fragment
  {
    hide BodyMeaning, BodyOk, TailBytes;
    var n := U24(fragment[1], fragment[2], fragment[3]);
    var body := HelloOfBody(fragment[4 + 34..4 + n]);
    r := Record(minor, fragment[4..4 + 34], body, fragment[4 + n..]);
    assert Message(r) == fragment[4..4 + n];
    assert fragment[..4] == [0x01] + Be24(n);
    assert fragment == fragment[..4] + fragment[4..4 + n] + fragment[4 + n..];
  }

  /** A buffer starts with a well-formed record whose answer is `sni`. */
  ghost predicate StartsWithHello(bytes: Bytes, sni: Option<Bytes>) {
    exists r: Record, more: Bytes :: RecordOk(r) && BodyHost(r.body) == sni && bytes == RecordBytes(r) + more
  }

  /** The parser answers `sni` exactly on the buffers that start with a well-formed hello carrying it. */
  lemma ParsedIff(bytes: Bytes, sni: Option<Bytes>)
    ensures HelloMeaning(bytes) == Ok(Parsed(sni)) <==> StartsWithHello(bytes, sni)
  {
    if HelloMeaning(bytes) == Ok(Parsed(sni)) {
      var r, more := RecordOfHello(bytes);
      ParseOfRecord(r, more);
    }
    if StartsWithHello(bytes, sni) {
      var r: Record, more: Bytes :| RecordOk(r) && BodyHost(r.body) == sni && bytes == RecordBytes(r) + more;
      ParseOfRecord(r, more);
    }
  }

  lemma HeaderBytes(bytes: Bytes)
    requires |bytes| >= 5 && bytes[0] == 0x16 && bytes[1] == 0x03
    ensures bytes[..5] == [0x16, 0x03, bytes[2]] + Be16(U16(bytes[3], bytes[4]))
  {
  }

  lemma RecordOfHello(bytes: Bytes) returns (r: Record, more: Bytes)
    requires HelloMeaning(bytes).Ok? && HelloMeaning(bytes).value.Parsed?
    ensures RecordOk(r) && bytes == RecordBytes(r) + more
  {
    hide FragmentMeaning, BodyOk;
    var len: nat := U16(bytes[3], bytes[4]);
    r := RecordOfFragment(bytes[2], bytes[5..5 + len]);
    more := bytes[5 + len..];
    HeaderBytes(bytes);
    hide Be16, U16, Fragment;
    assert bytes == bytes[..5] + bytes[5..5 + len] + bytes[5 + len..];
  }

  /** The length field of a record header. */
  function Announced(bytes: Bytes): nat
    requires |bytes| >= 5
  {
    bytes[3] as int * 256 + bytes[4] as int
  }

  predicate TlsHeader(bytes: Bytes) { |bytes| >= 5 && bytes[0] == 22 && bytes[1] == 3 }

  /** More bytes are wanted for an incomplete header or an incomplete record of legal length. */
  predicate Incomplete(bytes: Bytes) {
    |bytes| < 5 || (TlsHeader(bytes) && 0 < Announced(bytes) <= 16384 && |bytes| < 5 + Announced(bytes))
  }

  /** The other outcomes, on every buffer: wait, not TLS, and malformed for all that is left. */
  lemma OtherOutcomesIff(bytes: Bytes)
    ensures HelloMeaning(bytes) == Ok(Truncated) <==> Incomplete(bytes)
    ensures HelloMeaning(bytes) == Err(NotTls) <==> |bytes| >= 5 && !TlsHeader(bytes)
    ensures HelloMeaning(bytes) == Err(Malformed)
       <==> TlsHeader(bytes) && !Incomplete(bytes) && forall sni :: !StartsWithHello(bytes, sni)
  {
    hide StartsWithHello;
    OutcomeCases(bytes);
    match HelloMeaning(bytes) {
      case Ok(Parsed(sni)) => ParsedIff(bytes, sni);
      case Ok(Truncated) => assert Incomplete(bytes);
      case Err(NotTls) => assert !TlsHeader(bytes);
      case Err(Malformed) =>
        assert TlsHeader(bytes) && !Incomplete(bytes);
        forall sni ensures !StartsWithHello(bytes, sni) { ParsedIff(bytes, sni); }
    }
  }

  lemma OutcomeCases(bytes: Bytes)
    ensures HelloMeaning(bytes) == Ok(Truncated) <==> Incomplete(bytes)
    ensures HelloMeaning(bytes) == Err(NotTls) <==> |bytes| >= 5 && !TlsHeader(bytes)
  {
    if TlsHeader(bytes) && 0 < Announced(bytes) <= 16384 && |bytes| >= 5 + Announced(bytes) {
      NeverNotTls(bytes[5..5 + Announced(bytes)]);
      hide FragmentMeaning;
    }
  }

  lemma {:induction false} NeverNotTls(fragment: Bytes)
    ensures FragmentMeaning(fragment) != Err(NotTls)
  {
    hide BodyMeaning;
    if |fragment| >= 4 {
      var n := U24(fragment[1], fragment[2], fragment[3]);
      if 34 <= n <= |fragment| - 4 { BodyErrors(fragment[4 + 34..4 + n]); }
    }
  }

  lemma BodyErrors(tail: Bytes)
    ensures BodyMeaning(tail) != Err(NotTls)
  {
    match Vec8(tail)
    case None =>
    case Some((_, a)) =>
      match Vec16(a)
      case None =>
      case Some((_, b)) =>
        match Vec8(b)
        case None =>
        case Some((_, d)) => if Vec16(d).Some? { ExtensionErrors(Vec16(d).value.0); }
  }

  lemma {:induction false} ExtensionErrors(exts: Bytes)
    ensures ExtensionsMeaning(exts) != Err(NotTls)
    decreases |exts|
  {
    if |exts| >= 2 && Vec16(exts[2..]).Some? {
      var (data, rest) := Vec16(exts[2..]).value;
      if U16(exts[0], exts[1]) != 0 { ExtensionErrors(rest); }
      else if Vec16(data).Some? { NameErrors(Vec16(data).value.0); }
    }
  }

  lemma {:induction false} NameErrors(list: Bytes)
    ensures NamesMeaning(list) != Err(NotTls)
    decreases |list|
  {
    if list != [] && Vec16(list[1..]).Some? { NameErrors(Vec16(list[1..]).value.1); }
  }
}
