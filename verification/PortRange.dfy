/** `PortRange`: the contiguous port interval behind every rule, and its trips through rule fields and the wire. */
module PortRanges {
  import opened Prelude

  datatype RawRange = RawRange(start: u16, end: u16)

  /** Both constructors of the source establish `start <= end`; the fields are private. */
  type PortRange = r: RawRange | r.start <= r.end witness RawRange(1, 1)

  datatype PortRangeError =
    | Inverted(start: u16, end: u16)
    | OutOfBounds
    | LengthMismatch(listenLen: nat, targetLen: nat)

  function Single(port: u16): (r: PortRange) { RawRange(port, port) }

  function New(start: u16, end: u16): (r: Result<PortRange, PortRangeError>) {
    if start == 0 then Err(OutOfBounds)
    else if start > end then Err(Inverted(start, end))
    else Ok(RawRange(start, end))
  }

  function Len(r: PortRange): nat { r.end - r.start + 1 }

  function Pair(listen: PortRange, target: PortRange): (r: Result<(PortRange, PortRange), PortRangeError>) {
    if Len(listen) != Len(target) then Err(LengthMismatch(Len(listen), Len(target)))
    else Ok((listen, target))
  }

  predicate Contains(r: PortRange, port: int) { r.start <= port <= r.end }

  predicate Overlaps(a: PortRange, b: PortRange) { a.start <= b.end && b.start <= a.end }

  /** Same-offset mapping; the `u16` addition wraps, as a release build does. */
  function TargetFor(port: u16, listen: PortRange, target: PortRange): (r: Option<u16>) {
    if !Contains(listen, port) then None
    else Some((target.start + (port - listen.start)) % 0x1_0000)
  }

  function MaxPort(a: u16, b: u16): u16 { if a < b then b else a }

  /** The interval test decides whether a port is shared, and the larger start is the first shared port. */
  lemma OverlapIsSharedPort(a: PortRange, b: PortRange)
    ensures Overlaps(a, b) <==> exists p: u16 :: Contains(a, p) && Contains(b, p)
    ensures Overlaps(a, b) ==>
              var m := MaxPort(a.start, b.start);
              && Contains(a, m) && Contains(b, m)
              && forall p :: Contains(a, p) && Contains(b, p) ==> m <= p
  {
    if Overlaps(a, b) {
      var m := MaxPort(a.start, b.start);
      assert Contains(a, m) && Contains(b, m);
    }
  }

  /** For an accepted pair the mapping hits exactly the target range, keeps order and never wraps. */
  lemma TargetForIsBijection(listen: PortRange, target: PortRange)
    requires Pair(listen, target).Ok?
    ensures forall p: u16 :: Contains(listen, p) ==>
              var t := TargetFor(p, listen, target);
              t.Some? && Contains(target, t.value) && t.value - target.start == p - listen.start
    ensures forall p: u16, q: u16 :: Contains(listen, p) && Contains(listen, q) && p < q ==>
              TargetFor(p, listen, target).value < TargetFor(q, listen, target).value
    ensures forall t: u16 :: Contains(target, t) ==>
              exists p: u16 :: Contains(listen, p) && TargetFor(p, listen, target) == Some(t)
    ensures forall p: u16 :: !Contains(listen, p) ==> TargetFor(p, listen, target) == None
  {
    forall t: u16 | Contains(target, t)
      ensures exists p: u16 :: Contains(listen, p) && TargetFor(p, listen, target) == Some(t)
    {
      var p: u16 := listen.start + (t - target.start);
      assert Contains(listen, p) && TargetFor(p, listen, target) == Some(t);
    }
  }

  /** Without a matching length the 16-bit addition wraps at exactly the ports whose offset passes 65535. */
  lemma TargetForWrapsIff(port: u16, listen: PortRange, target: PortRange)
    requires Contains(listen, port)
    ensures TargetFor(port, listen, target) != Some(target.start + (port - listen.start))
       <==> target.start + (port - listen.start) > 0xFFFF
    ensures (exists p: u16 :: Contains(listen, p) && WrapsAt(p, listen, target))
       <==> target.start + (listen.end - listen.start) > 0xFFFF
  {
    if target.start + (listen.end - listen.start) > 0xFFFF { assert WrapsAt(listen.end, listen, target); }
  }

  predicate WrapsAt(port: u16, listen: PortRange, target: PortRange)
    requires Contains(listen, port)
  {
    TargetFor(port, listen, target).value < target.start
  }

  /** The stored form of a range: the end is recorded only when there is more than one port. */
  function EndField(r: PortRange): (e: Option<u16>) {
    if Len(r) > 1 then Some(r.end) else None
  }

  /** `Rule::listen_range` and `Rule::target_range`: fields back to a range, tolerating a useless end. */
  function RangeOfFields(port: u16, end: Option<u16>): (r: PortRange) {
    match end
    case Some(e) =>
      if e > port then
        match New(port, e)
        case Ok(r) => r
        case Err(_) => Single(port)
      else Single(port)
    case None => Single(port)
  }

  /** proto3 carries an absent end as zero. */
  function WireEnd(end: Option<u16>): (w: u32) {
    match end case Some(e) => e case None => 0
  }

  /** `u16::try_from(..).unwrap_or(0)`. */
  function NarrowPort(wire: u32): (p: u16) {
    if wire < 0x1_0000 then wire else 0
  }

  /** The client's reading of the end field: out of range or zero means "no end". */
  function NarrowEnd(wire: u32, port: u16): (e: u16) {
    if wire < 0x1_0000 && wire != 0 then wire else port
  }

  function DecodeRange(wirePort: u32, wireEnd: u32): (r: Result<PortRange, PortRangeError>) {
    var port := NarrowPort(wirePort);
    New(port, NarrowEnd(wireEnd, port))
  }

  /**
   * A range survives range -> rule fields -> range exactly when it is not the one shape that the
   * validating constructor refuses: a multi-port range starting at port 0.
   */
  lemma FieldRoundTrip(r: PortRange)
    ensures RangeOfFields(r.start, EndField(r)) == r <==> !(r.start == 0 && r.end > 0)
  {
  }

  /** The client decodes rule fields off the wire to the same range exactly when the port is not 0. */
  lemma WireRoundTrip(r: PortRange)
    ensures DecodeRange(r.start, WireEnd(EndField(r))) == Ok(r) <==> r.start != 0
    ensures r.start == 0 ==> DecodeRange(r.start, WireEnd(EndField(r))) == Err(OutOfBounds)
  {
  }

  /** Ranges are coupled as given exactly when they have equally many ports. */
  lemma PairMeaning(listen: PortRange, target: PortRange)
    ensures var a, b := listen.end - listen.start + 1, target.end - target.start + 1;
            Pair(listen, target) == if a == b then Ok((listen, target)) else Err(LengthMismatch(a, b))
  {
  }

  /** The validating constructor: which pairs it takes, and which error the others get. */
  lemma NewMeaning(start: u16, end: u16)
    ensures New(start, end) == Ok(RawRange(start, end)) <==> 0 < start <= end
    ensures New(start, end) == Err(OutOfBounds) <==> start == 0
    ensures New(start, end) == Err(Inverted(start, end)) <==> start != 0 && end < start
    ensures forall r: PortRange :: Len(r) >= 1 && (Len(r) == 1 <==> r.start == r.end) && Len(r) - 1 == r.end - r.start
  {
  }
}
