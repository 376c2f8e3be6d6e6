/** The benchmark's inline parser on structured hellos: which name it finds, and the one cut that makes it panic. */
module InlineGrammar {
  import opened Prelude
  import opened RouteTable
  import opened HostText
  import opened ClientHello
  import opened HelloBuilder
  import opened HelloGrammar
  import opened InlineHello

  /** A name list as this parser reads it: whole entries, then up to two bytes it never looks at. */
  datatype Names = Names(entries: seq<NameEntry>, junk: Bytes)

  datatype Piece = Plain(kind: u16, data: Bytes) | Named(names: Names, slack: Bytes)

  /** An extension block: whole extensions, then up to three bytes it never looks at. */
  datatype Pieces = Pieces(list: seq<Piece>, junk: Bytes)

  function NamesBytes(n: Names): Bytes { PassedBytes(n.entries) + n.junk }

  function PieceBytes(x: Piece): Bytes {
    match x
    case Plain(kind, data) => ExtensionBytes(Extension(kind, data))
    case Named(names, slack) => ExtensionBytes(Extension(0, Field16(NamesBytes(names)) + slack))
  }

  function PiecesBytes(xs: seq<Piece>, junk: Bytes): Bytes {
    if xs == [] then junk else PieceBytes(xs[0]) + PiecesBytes(xs[1..], junk)
  }

  predicate NamesOk(n: Names) {
    |n.junk| < 3 && Short(NamesBytes(n)) && forall i :: 0 <= i < |n.entries| ==> Short(n.entries[i].name)
  }

  predicate PieceOk(x: Piece) {
    match x
    case Plain(kind, data) => kind != 0 && Short(data)
    case Named(names, slack) => NamesOk(names) && Short(Field16(NamesBytes(names)) + slack)
  }

  predicate PiecesOk(xs: seq<Piece>, junk: Bytes) {
    |junk| < 4 && forall i :: 0 <= i < |xs| ==> PieceOk(xs[i])
  }

  /** The first host name entry that is not empty on the wire. */
  function FirstEntry(entries: seq<NameEntry>): Option<Bytes> {
    if entries == [] then None
    else if entries[0].kind == 0 && entries[0].name != [] then Some(entries[0].name)
    else FirstEntry(entries[1..])
  }

  /** In the first server name extension that has one. */
  function FirstRaw(xs: seq<Piece>): Option<Bytes> {
    if xs == [] then None
    else if xs[0].Named? && FirstEntry(xs[0].names.entries).Some? then FirstEntry(xs[0].names.entries)
    else FirstRaw(xs[1..])
  }

  /** It is answered stripped and lowercased, or not at all if it is no UTF-8. */
  function AnswerFor(raw: Option<Bytes>): Answer {
    if raw.Some? && ValidUtf8(raw.value) then Found(Lower(Strip(raw.value))) else NoName
  }

  lemma EntryStep(e: NameEntry, rest: Bytes)
    requires Short(e.name)
    ensures InlineNames(NameBytes(e) + rest)
         == if e.kind != 0 || e.name == [] then InlineNames(rest)
            else if ValidUtf8(e.name) then Host(Lower(Strip(e.name))) else Stop
  {
    hide ValidUtf8, Strip, Lower;
    assert (NameBytes(e) + rest)[1..] == Field16(e.name) + rest;
    Vec16Field(e.name, rest);
  }

  lemma {:induction false} NamesFound(entries: seq<NameEntry>, junk: Bytes)
    requires |junk| < 3 && forall i :: 0 <= i < |entries| ==> Short(entries[i].name)
    ensures InlineNames(PassedBytes(entries) + junk)
         == match FirstEntry(entries)
            case None => Exhausted
            case Some(raw) => if ValidUtf8(raw) then Host(Lower(Strip(raw))) else Stop
    decreases |entries|
  {
    hide ValidUtf8, Strip, Lower, NameBytes;
    if entries != [] {
      var rest := PassedBytes(entries[1..]) + junk;
      NamesFound(entries[1..], junk);
      EntryStep(entries[0], rest);
      assert PassedBytes(entries) + junk == NameBytes(entries[0]) + rest;
    }
  }

  lemma PieceStep(x: Extension, rest: Bytes)
    requires Short(x.data)
    ensures InlineExtensions(ExtensionBytes(x) + rest)
         == if x.kind != 0 then InlineExtensions(rest)
            else match InlineServerName(x.data)
                 case Host(h) => Found(h)
                 case Stop => NoName
                 case Exhausted => InlineExtensions(rest)
  {
    hide ExtensionBytes, Field16, U16, Vec16, InlineServerName;
    ExtensionHead(x, rest);
    Vec16Field(x.data, rest);
  }

  lemma NamedStep(names: Names, slack: Bytes)
    requires NamesOk(names)
    ensures InlineServerName(Field16(NamesBytes(names)) + slack)
         == match FirstEntry(names.entries)
            case None => Exhausted
            case Some(raw) => if ValidUtf8(raw) then Host(Lower(Strip(raw))) else Stop
  {
    hide InlineNames, Field16, Vec16, ValidUtf8, Strip, Lower;
    Vec16Field(NamesBytes(names), slack);
    NamesFound(names.entries, names.junk);
  }

  lemma {:induction false} PiecesFound(xs: seq<Piece>, junk: Bytes)
    requires PiecesOk(xs, junk)
    ensures InlineExtensions(PiecesBytes(xs, junk)) == AnswerFor(FirstRaw(xs))
    decreases |xs|
  {
    hide ExtensionBytes, Field16, NamesBytes, NamesOk, InlineServerName, ValidUtf8, Strip, Lower, Short;
    if xs != [] {
      var rest := PiecesBytes(xs[1..], junk);
      PiecesFound(xs[1..], junk);
      assert PieceOk(xs[0]);
      hide InlineExtensions;
      match xs[0] {
        case Plain(kind, data) => PieceStep(Extension(kind, data), rest);
        case Named(names, slack) =>
          NamedStep(names, slack);
          PieceStep(Extension(0, Field16(NamesBytes(names)) + slack), rest);
      }
    }
  }

  /** A whole body: its extension block, if any, and what follows it. */
  function InlineTail(session: Bytes, ciphers: Bytes, compression: Bytes, rest: Bytes): Bytes
    requires |session| < 0x100 && |compression| < 0x100
  {
    Field8(session) + (Field16(ciphers) + (Field8(compression) + rest))
  }

  lemma TailReaches(session: Bytes, ciphers: Bytes, compression: Bytes, rest: Bytes)
    requires |session| < 0x100 && Short(ciphers) && |compression| < 0x100
    ensures InlineBody(InlineTail(session, ciphers, compression, rest)) == InlineBlock(rest)
  {
    hide InlineBlock;
    Vec8Field(session, Field16(ciphers) + (Field8(compression) + rest));
    Vec16Field(ciphers, Field8(compression) + rest);
    Vec8Field(compression, rest);
  }

  /** A record around a body; unlike production there is no limit but the 16-bit length. */
  function InlineRecord(minor: u8, front: Bytes, tail: Bytes, slack: Bytes): Bytes {
    [0x16, 0x03, minor] + Field16([0x01] + Be24(34 + |tail|) + (front + tail) + slack)
  }

  lemma FragmentReaches(front: Bytes, tail: Bytes, slack: Bytes)
    requires |front| == 34 && |tail| + 34 < 0x100_0000
    ensures InlineFragment([0x01] + Be24(34 + |tail|) + (front + tail) + slack) == InlineBody(tail)
  {
    hide InlineBody;
    var n := 34 + |tail|;
    var f := [0x01] + Be24(n) + (front + tail) + slack;
    Be24RoundTrip(n);
    assert f[1] == Be24(n)[0] && f[2] == Be24(n)[1] && f[3] == Be24(n)[2];
    hide Be24, U24;
    assert f[4 + 34..4 + n] == tail;
  }

  lemma RecordReaches(minor: u8, front: Bytes, tail: Bytes, slack: Bytes, more: Bytes)
    requires |front| == 34 && 38 + |tail| + |slack| < 0x1_0000
    ensures InlineMeaning(InlineRecord(minor, front, tail, slack) + more) == InlineBody(tail)
  {
    hide InlineBody, InlineFragment;
    var f := [0x01] + Be24(34 + |tail|) + (front + tail) + slack;
    var bytes := InlineRecord(minor, front, tail, slack) + more;
    FragmentReaches(front, tail, slack);
    Be16RoundTrip(|f|);
    assert bytes[3] == Be16(|f|)[0] && bytes[4] == Be16(|f|)[1];
    hide Be16, Be24, U16;
    assert bytes[5..5 + |f|] == f;
  }

  /**
   * On every well-structured hello the inline parser answers the first non-empty host name on the wire, in
   * whichever server name extension it stands, and nothing if there is none or it is no UTF-8.
   */
  lemma InlineAnswers(
    minor: u8, front: Bytes, session: Bytes, ciphers: Bytes, compression: Bytes, xs: seq<Piece>, junk: Bytes,
    afterBlock: Bytes, slack: Bytes, more: Bytes)
    requires |front| == 34 && |session| < 0x100 && Short(ciphers) && |compression| < 0x100
    requires PiecesOk(xs, junk) && Short(PiecesBytes(xs, junk))
    requires var tail := InlineTail(session, ciphers, compression, Field16(PiecesBytes(xs, junk)) + afterBlock);
             38 + |tail| + |slack| < 0x1_0000
    ensures var tail := InlineTail(session, ciphers, compression, Field16(PiecesBytes(xs, junk)) + afterBlock);
            InlineMeaning(InlineRecord(minor, front, tail, slack) + more) == AnswerFor(FirstRaw(xs))
  {
    hide InlineMeaning, InlineExtensions, PiecesBytes, PiecesOk, InlineTail, InlineRecord, Field16, Vec16;
    var block := PiecesBytes(xs, junk);
    var rest := Field16(block) + afterBlock;
    RecordReaches(minor, front, InlineTail(session, ciphers, compression, rest), slack, more);
    TailReaches(session, ciphers, compression, rest);
    Vec16Field(block, afterBlock);
    assert |rest| >= 2 by { FieldIsLong(block); }
    PiecesFound(xs, junk);
  }

  lemma FieldIsLong(s: Bytes)
    ensures |Field16(s)| >= 2
  {
  }

  /** Without an extension block there is no name; a body cut after one byte of its length makes the parser panic. */
  lemma InlineWithoutBlock(
    minor: u8, front: Bytes, session: Bytes, ciphers: Bytes, compression: Bytes, rest: Bytes, slack: Bytes, more: Bytes)
    requires |front| == 34 && |session| < 0x100 && Short(ciphers) && |compression| < 0x100 && |rest| <= 1
    requires 38 + |InlineTail(session, ciphers, compression, rest)| + |slack| < 0x1_0000
    ensures InlineMeaning(InlineRecord(minor, front, InlineTail(session, ciphers, compression, rest), slack) + more)
         == if rest == [] then NoName else Panic
  {
    hide InlineMeaning, InlineTail, InlineRecord;
    RecordReaches(minor, front, InlineTail(session, ciphers, compression, rest), slack, more);
    TailReaches(session, ciphers, compression, rest);
  }
}
