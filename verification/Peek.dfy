/** `read_client_hello`: accumulate stream bytes until the parser decides, whatever the chunking. */
module Peek {
  import opened Prelude
  import opened ClientHello

  const CHUNK := 0x1000
  const PEEK_BYTE_CAP := 0x1_0000

  datatype PeekError = Timeout(bytesRead: nat) | PeekNotTls | PeekMalformed | SizeCap | Io

  type Positive = n: int | n >= 1 witness 1

  /** How one read turns out: between one and `atMost` bytes if any are left, an I/O error, or the deadline. */
  datatype Read = Data(atMost: Positive) | Failed | Elapsed

  predicate KeepsDelivering(schedule: seq<Read>) { forall i :: 0 <= i < |schedule| ==> schedule[i].Data? }

  function Min(a: nat, b: nat): nat { if a < b then a else b }

  /** The verdict on a whole stream, as the listener reports it. */
  predicate Reports(r: Result<(Bytes, Option<Bytes>), PeekError>, stream: Bytes) {
    match HelloMeaning(stream)
    case Ok(Truncated) => false
    case Ok(Parsed(sni)) => r.Ok? && r.value.1 == sni && r.value.0 <= stream
    case Err(NotTls) => r == Err(PeekNotTls)
    case Err(Malformed) => r == Err(PeekMalformed)
  }

  /**
   * `stream` is everything the peer will send, `schedule` how the reads happen to go. A verdict is the
   * verdict on the whole stream and the captured bytes are a prefix of it, however the stream was cut
   * up; when the reads keep delivering, a decided stream gets its verdict; and a cap that leaves room
   * for one full record is never met.
   */
  method ReadClientHello(stream: Bytes, schedule: seq<Read>, cap: nat)
    returns (r: Result<(Bytes, Option<Bytes>), PeekError>)
    ensures r.Ok? || r == Err(PeekNotTls) || r == Err(PeekMalformed) ==> Reports(r, stream)
    ensures r.Ok? ==> |r.value.0| < 5 + MAX_HANDSHAKE_BODY + CHUNK
    ensures r == Err(SizeCap) ==> cap < 5 + MAX_HANDSHAKE_BODY && cap != PEEK_BYTE_CAP
    ensures r.Err? && r.error.Timeout? ==> r.error.bytesRead <= |stream| && !Decided(stream[..r.error.bytesRead])
    ensures r.Err? && r.error.Timeout? ==>
              (exists i :: 0 <= i < |schedule| && schedule[i].Elapsed?) || |schedule| <= r.error.bytesRead
    ensures r == Err(Io) ==> (exists i :: 0 <= i < |schedule| && schedule[i].Failed?) || !Decided(stream)
    ensures Decided(stream) && cap >= 5 + MAX_HANDSHAKE_BODY && |schedule| >= |stream| && KeepsDelivering(schedule) ==>
              Reports(r, stream)
  {
    var buf: Bytes := [];
    var i := 0;
    while true
      invariant buf <= stream && i <= |schedule| && i <= |buf|
      invariant |buf| < 5 + MAX_HANDSHAKE_BODY + CHUNK
      decreases |schedule| - i
    {
      assert stream == buf + stream[|buf|..];
      if Decided(buf) { DecisionIsFinal(buf, stream[|buf|..]); }
      if |buf| >= 5 + MAX_HANDSHAKE_BODY { FullRecordDecides(buf); }
      var outcome := Parse(buf);
      match outcome {
        case Ok(Parsed(sni)) => return Ok((buf, sni));
        case Err(NotTls) => return Err(PeekNotTls);
        case Err(Malformed) => return Err(PeekMalformed);
        case Ok(Truncated) =>
      }
      if |buf| >= cap {
        return Err(SizeCap);
      }
      assert buf == stream[..|buf|];
      assert |buf| == |stream| ==> buf == stream;
      if i == |schedule| || schedule[i].Elapsed? {
        return Err(Timeout(|buf|));
      }
      if schedule[i].Failed? {
        return Err(Io);
      }
      var want := Min(CHUNK, cap - |buf|);
      var n := Min(Min(schedule[i].atMost, want), |stream| - |buf|);
      if n == 0 {
        return Err(Io);
      }
      buf := buf + stream[|buf|..|buf| + n];
      i := i + 1;
    }
  }
}
