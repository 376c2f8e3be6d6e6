/** UTF-8 validation and the trimming that turns a raw `host_name` into the routed host. */
module HostText {
  import opened Prelude
  import opened RouteTable

  predicate Continuation(b: u8) { 0x80 <= b <= 0xBF }

  /** Length of the well-formed UTF-8 sequence at the front, 0 if there is none. */
  function Utf8Front(s: Bytes): (n: nat)
    ensures n <= |s|
  {
    if s == [] then 0
    else if s[0] < 0x80 then 1
    else if 0xC2 <= s[0] <= 0xDF then
      if |s| >= 2 && Continuation(s[1]) then 2 else 0
    else if 0xE0 <= s[0] <= 0xEF then
      if |s| >= 3 && Continuation(s[1]) && Continuation(s[2])
         && (s[0] == 0xE0 ==> s[1] >= 0xA0) && (s[0] == 0xED ==> s[1] <= 0x9F) then 3 else 0
    else if 0xF0 <= s[0] <= 0xF4 then
      if |s| >= 4 && Continuation(s[1]) && Continuation(s[2]) && Continuation(s[3])
         && (s[0] == 0xF0 ==> s[1] >= 0x90) && (s[0] == 0xF4 ==> s[1] <= 0x8F) then 4 else 0
    else 0
  }

  /** `std::str::from_utf8` succeeds. */
  predicate ValidUtf8(s: Bytes) {
    s == [] || (Utf8Front(s) > 0 && ValidUtf8(s[Utf8Front(s)..]))
  }

  predicate Ascii(s: Bytes) { forall i :: 0 <= i < |s| ==> s[i] < 0x80 }

  lemma {:induction false} AsciiIsUtf8(s: Bytes)
    requires Ascii(s)
    ensures ValidUtf8(s)
  {
    if s != [] { AsciiIsUtf8(s[1..]); }
  }

  predicate AsciiSpace(b: u8) { 0x09 <= b <= 0x0D || b == 0x20 }

  /** U+0085 and U+00A0. */
  predicate Space2(a: u8, b: u8) { a == 0xC2 && (b == 0x85 || b == 0xA0) }

  /** U+1680, U+2000..U+200A, U+2028, U+2029, U+202F, U+205F and U+3000. */
  predicate Space3(a: u8, b: u8, c: u8) {
    || (a == 0xE1 && b == 0x9A && c == 0x80)
    || (a == 0xE2 && b == 0x80 && (0x80 <= c <= 0x8A || c == 0xA8 || c == 0xA9 || c == 0xAF))
    || (a == 0xE2 && b == 0x81 && c == 0x9F)
    || (a == 0xE3 && b == 0x80 && c == 0x80)
  }

  function SpaceAtStart(s: Bytes): (n: nat)
    ensures n <= |s|
  {
    if |s| >= 1 && AsciiSpace(s[0]) then 1
    else if |s| >= 2 && Space2(s[0], s[1]) then 2
    else if |s| >= 3 && Space3(s[0], s[1], s[2]) then 3
    else 0
  }

  function SpaceAtEnd(s: Bytes): (n: nat)
    ensures n <= |s|
  {
    var k := |s|;
    if k >= 1 && AsciiSpace(s[k - 1]) then 1
    else if k >= 2 && Space2(s[k - 2], s[k - 1]) then 2
    else if k >= 3 && Space3(s[k - 3], s[k - 2], s[k - 1]) then 3
    else 0
  }

  function TrimStart(s: Bytes): (r: Bytes)
    decreases |s|
  {
    if SpaceAtStart(s) == 0 then s else TrimStart(s[SpaceAtStart(s)..])
  }

  function TrimEnd(s: Bytes): (r: Bytes)
    decreases |s|
  {
    if SpaceAtEnd(s) == 0 then s else TrimEnd(s[..|s| - SpaceAtEnd(s)])
  }

  function TrimDots(s: Bytes): (r: Bytes)
    decreases |s|
  {
    if s == [] || s[|s| - 1] != DOT then s else TrimDots(s[..|s| - 1])
  }

  /** `raw.trim().trim_end_matches('.')`. */
  function Strip(raw: Bytes): (r: Bytes) { TrimDots(TrimEnd(TrimStart(raw))) }

  /** No outer white space and no trailing dot. */
  predicate Bare(host: Bytes) {
    SpaceAtStart(host) == 0 && SpaceAtEnd(host) == 0 && (host != [] ==> host[|host| - 1] != DOT)
  }

  lemma BareIsStripped(host: Bytes)
    requires Bare(host)
    ensures Strip(host) == host
  {
  }
}
