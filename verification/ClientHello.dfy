/** The TLS ClientHello parser: a cursor walk over nested length fields, and what it computes. */
module ClientHello {
  import opened Prelude
  import opened RouteTable
  import opened HostText

  datatype Outcome = Truncated | Parsed(sni: Option<Bytes>)
  datatype ParseError = NotTls | Malformed

  const MAX_HANDSHAKE_BODY := 0x4000

  function U16(a: u8, b: u8): (n: u16) { (a as int) * 0x100 + b }

  function U24(a: u8, b: u8, c: u8): (n: nat) { (a as int) * 0x1_0000 + (b as int) * 0x100 + c }

  // ---------------------------------------------------------------- what the bytes mean

  /** A one-byte length, that many bytes, and the rest. */
  function Vec8(s: Bytes): (r: Option<(Bytes, Bytes)>)
    ensures r.Some? ==> |r.value.1| < |s|
  {
    if |s| < 1 || 1 + s[0] > |s| then None else Some((s[1..][..s[0]], s[1..][s[0]..]))
  }

  /** A two-byte length, that many bytes, and the rest. */
  function Vec16(s: Bytes): (r: Option<(Bytes, Bytes)>)
    ensures r.Some? ==> |r.value.1| < |s|
  {
    if |s| < 2 then None
    else
      var n := U16(s[0], s[1]);
      if 2 + n > |s| then None else Some((s[2..][..n], s[2..][n..]))
  }

  /** The first `host_name` entry that is not empty once stripped. */
  function NamesMeaning(list: Bytes): (r: Result<Option<Bytes>, ParseError>)
    decreases |list|
  {
    if list == [] then Ok(None)
    else
      match Vec16(list[1..])
      case None => Err(Malformed)
      case Some((name, rest)) =>
        if list[0] == 0 && name != [] then
          if !ValidUtf8(name) then Err(Malformed)
          else if Strip(name) == [] then NamesMeaning(rest)
          else Ok(Some(Lower(Strip(name))))
        else NamesMeaning(rest)
  }

  function ServerNameMeaning(data: Bytes): (r: Result<Option<Bytes>, ParseError>) {
    match Vec16(data)
    case None => Err(Malformed)
    case Some((list, _)) => NamesMeaning(list)
  }

  /** The first `server_name` extension decides. */
  function ExtensionsMeaning(exts: Bytes): (r: Result<Option<Bytes>, ParseError>)
    decreases |exts|
  {
    if exts == [] then Ok(None)
    else if |exts| < 2 then Err(Malformed)
    else
      match Vec16(exts[2..])
      case None => Err(Malformed)
      case Some((data, rest)) =>
        if U16(exts[0], exts[1]) != 0 then ExtensionsMeaning(rest) else ServerNameMeaning(data)
  }

  /** Session id, cipher suites, compression methods, then the optional extension block. */
  function BodyMeaning(tail: Bytes): (r: Result<Option<Bytes>, ParseError>) {
    match Vec8(tail)
    case None => Err(Malformed)
    case Some((_, afterSession)) =>
      match Vec16(afterSession)
      case None => Err(Malformed)
      case Some((_, afterCiphers)) =>
        match Vec8(afterCiphers)
        case None => Err(Malformed)
        case Some((_, afterCompression)) =>
          if afterCompression == [] then Ok(None)
          else
            match Vec16(afterCompression)
            case None => Err(Malformed)
            case Some((exts, _)) => ExtensionsMeaning(exts)
  }

  function FragmentMeaning(fragment: Bytes): (r: Result<Option<Bytes>, ParseError>) {
    if |fragment| < 4 || fragment[0] != 0x01 then Err(Malformed)
    else
      var hsLen := U24(fragment[1], fragment[2], fragment[3]);
      if hsLen > |fragment| - 4 || hsLen < 34 then Err(Malformed)
      else BodyMeaning(fragment[4 + 34..4 + hsLen])
  }

  function HelloMeaning(bytes: Bytes): (r: Result<Outcome, ParseError>) {
    if |bytes| < 5 then Ok(Truncated)
    else if bytes[0] != 0x16 || bytes[1] != 0x03 then Err(NotTls)
    else
      var len := U16(bytes[3], bytes[4]);
      if len == 0 || len > MAX_HANDSHAKE_BODY then Err(Malformed)
      else if |bytes| < 5 + len then Ok(Truncated)
      else
        match FragmentMeaning(bytes[5..5 + len])
        case Err(e) => Err(e)
        case Ok(sni) => Ok(Parsed(sni))
  }

  // ---------------------------------------------------------------- the parser

  class Cursor {
    const buf: Bytes
    var pos: nat

    ghost predicate Valid()
      reads this
    {
      pos <= |buf|
    }

    ghost function Rest(): Bytes
      requires Valid()
      reads this
    {
      buf[pos..]
    }

    constructor (buf: Bytes)
      ensures Valid() && Rest() == buf
    {
      this.buf := buf;
      pos := 0;
    }

    method IsEof() returns (r: bool)
      requires Valid()
      ensures r <==> Rest() == []
    {
      return pos >= |buf|;
    }

    method ReadU8() returns (r: Result<u8, ParseError>)
      requires Valid()
      modifies this
      ensures Valid()
      ensures old(Rest()) == [] ==> r == Err(Malformed)
      ensures old(Rest()) != [] ==> r == Ok(old(Rest())[0]) && Rest() == old(Rest())[1..]
    {
      if pos + 1 > |buf| {
        return Err(Malformed);
      }
      var v := buf[pos];
      pos := pos + 1;
      return Ok(v);
    }

    method ReadU16() returns (r: Result<u16, ParseError>)
      requires Valid()
      modifies this
      ensures Valid()
      ensures |old(Rest())| < 2 ==> r == Err(Malformed)
      ensures |old(Rest())| >= 2 ==> r == Ok(U16(old(Rest())[0], old(Rest())[1])) && Rest() == old(Rest())[2..]
    {
      if pos + 2 > |buf| {
        return Err(Malformed);
      }
      var v := U16(buf[pos], buf[pos + 1]);
      pos := pos + 2;
      return Ok(v);
    }

    method Take(n: nat) returns (r: Result<Bytes, ParseError>)
      requires Valid()
      modifies this
      ensures Valid()
      ensures n > |old(Rest())| ==> r == Err(Malformed)
      ensures n <= |old(Rest())| ==> r == Ok(old(Rest())[..n]) && Rest() == old(Rest())[n..]
    {
      if pos + n > |buf| {
        return Err(Malformed);
      }
      var s := buf[pos..pos + n];
      assert s == buf[pos..][..n] && buf[pos..][n..] == buf[pos + n..];
      pos := pos + n;
      return Ok(s);
    }

    /** A one-byte length and its bytes. */
    method TakeVec8() returns (r: Result<Bytes, ParseError>)
      requires Valid()
      modifies this
      ensures Valid()
      ensures match Vec8(old(Rest()))
              case None => r == Err(Malformed)
              case Some((v, rest)) => r == Ok(v) && Rest() == rest
    {
      var n :- ReadU8();
      r := Take(n);
    }

    /** A two-byte length and its bytes. */
    method TakeVec16() returns (r: Result<Bytes, ParseError>)
      requires Valid()
      modifies this
      ensures Valid()
      ensures match Vec16(old(Rest()))
              case None => r == Err(Malformed)
              case Some((v, rest)) => r == Ok(v) && Rest() == rest
    {
      var n :- ReadU16();
      r := Take(n);
    }
  }

  /** One entry of a server name list: the name type and the name. */
  method TakeName(c: Cursor) returns (r: Result<(u8, Bytes), ParseError>)
    requires c.Valid()
    modifies c
    ensures c.Valid()
    ensures old(c.Rest()) == [] || Vec16(old(c.Rest())[1..]).None? ==> r == Err(Malformed)
    ensures old(c.Rest()) != [] && Vec16(old(c.Rest())[1..]).Some? ==>
              && r == Ok((old(c.Rest())[0], Vec16(old(c.Rest())[1..]).value.0))
              && c.Rest() == Vec16(old(c.Rest())[1..]).value.1
  {
    var nameType :- c.ReadU8();
    var name :- c.TakeVec16();
    return Ok((nameType, name));
  }

  method WalkNames(list: Bytes) returns (r: Result<Option<Bytes>, ParseError>)
    ensures r == NamesMeaning(list)
  {
    var lc := new Cursor(list);
    while true
      invariant fresh(lc) && lc.Valid()
      invariant NamesMeaning(lc.Rest()) == NamesMeaning(list)
      decreases |lc.Rest()|
    {
      var eof := lc.IsEof();
      if eof { break; }
      var entry :- TakeName(lc);
      var (nameType, name) := entry;
      if nameType == 0 && name != [] {
        if !ValidUtf8(name) {
          return Err(Malformed);
        }
        var raw := Strip(name);
        if raw == [] {
          continue;
        }
        return Ok(Some(Lower(raw)));
      }
    }
    return Ok(None);
  }

  method WalkExtensions(exts: Bytes) returns (r: Result<Option<Bytes>, ParseError>)
    ensures r == ExtensionsMeaning(exts)
  {
    var ec := new Cursor(exts);
    while true
      invariant fresh(ec) && ec.Valid()
      invariant ExtensionsMeaning(ec.Rest()) == ExtensionsMeaning(exts)
      decreases |ec.Rest()|
    {
      var eof := ec.IsEof();
      if eof { break; }
      var extType :- ec.ReadU16();
      var data :- ec.TakeVec16();
      if extType != 0 {
        continue;
      }
      var sc := new Cursor(data);
      var list :- sc.TakeVec16();
      r := WalkNames(list);
      return r;
    }
    return Ok(None);
  }

  /** `client_hello::parse`. */
  method Parse(bytes: Bytes) returns (r: Result<Outcome, ParseError>)
    ensures r == HelloMeaning(bytes)
  {
    if |bytes| < 5 {
      return Ok(Truncated);
    }
    if bytes[0] != 0x16 {
      return Err(NotTls);
    }
    if bytes[1] != 0x03 {
      return Err(NotTls);
    }
    var recordLen := U16(bytes[3], bytes[4]);
    if recordLen == 0 || recordLen > MAX_HANDSHAKE_BODY {
      return Err(Malformed);
    }
    if |bytes| < 5 + recordLen {
      return Ok(Truncated);
    }
    var fragment := bytes[5..5 + recordLen];
    if |fragment| < 4 {
      return Err(Malformed);
    }
    if fragment[0] != 0x01 {
      return Err(Malformed);
    }
    var hsLen := U24(fragment[1], fragment[2], fragment[3]);
    if hsLen > |fragment| - 4 {
      return Err(Malformed);
    }
    var body := fragment[4..4 + hsLen];
    if |body| < 34 {
      return Err(Malformed);
    }
    assert body[34..] == fragment[4 + 34..4 + hsLen];
    var cur := new Cursor(body[34..]);
    var _ :- cur.TakeVec8();
    var _ :- cur.TakeVec16();
    var _ :- cur.TakeVec8();
    var eof := cur.IsEof();
    if eof {
      return Ok(Parsed(None));
    }
    var exts :- cur.TakeVec16();
    var sni :- WalkExtensions(exts);
    return Ok(Parsed(sni));
  }

  // ---------------------------------------------------------------- more bytes never change a decision

  predicate Decided(bytes: Bytes) { HelloMeaning(bytes) != Ok(Truncated) }

  /** Once a buffer is decided, whatever arrives after it is irrelevant. */
  lemma DecisionIsFinal(bytes: Bytes, more: Bytes)
    requires Decided(bytes)
    ensures HelloMeaning(bytes + more) == HelloMeaning(bytes)
  {
    if |bytes| >= 5 {
      var len: nat := U16(bytes[3], bytes[4]);
      if |bytes| >= 5 + len {
        assert (bytes + more)[5..5 + len] == bytes[5..5 + len];
      }
    }
  }

  /** A record header and the largest legal fragment are always enough to decide. */
  lemma FullRecordDecides(bytes: Bytes)
    requires |bytes| >= 5 + MAX_HANDSHAKE_BODY
    ensures Decided(bytes)
  {
  }
}
