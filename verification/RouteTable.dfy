/** `SniRoutingTable`: building the per-port routing table and looking host names up in it. */
module RouteTable {
  import opened Prelude

  const DOT: u8 := 0x2e
  const STAR: u8 := 0x2a

  function LowerByte(b: u8): u8 { if 0x41 <= b <= 0x5a then b + 0x20 else b }

  /** `to_ascii_lowercase`. */
  function Lower(s: Bytes): (r: Bytes)
    ensures |r| == |s| && forall i :: 0 <= i < |s| ==> r[i] == LowerByte(s[i])
  {
    seq(|s|, i requires 0 <= i < |s| => LowerByte(s[i]))
  }

  lemma LowerIdempotent(s: Bytes)
    ensures Lower(Lower(s)) == Lower(s)
  {
  }

  datatype Member = Member(pattern: Option<Bytes>, id: RuleId)

  datatype MatchKind = ExactMatch | WildcardMatch | FallbackMatch
  datatype SniMatch = Hit(id: RuleId, kind: MatchKind) | Miss

  datatype BuildError =
    | DuplicateExact(host: Bytes)
    | DuplicateWildcard(suffix: Bytes)
    | DuplicateFallback

  /** `wildcards` holds `(".suffix", rule)` needles, longest first. */
  datatype Table = Table(exact: map<Bytes, RuleId>, wildcards: seq<(Bytes, RuleId)>, fallback: Option<RuleId>)

  const EMPTY_TABLE := Table(map[], [], None)

  // ---------------------------------------------------------------- what a pattern stands for

  datatype Key = FallbackKey | ExactKey(host: Bytes) | WildcardKey(needle: Bytes)

  predicate IsWildcard(lowered: Bytes) { |lowered| >= 2 && lowered[0] == STAR && lowered[1] == DOT }

  function KeyOf(pattern: Option<Bytes>): (k: Key) {
    match pattern
    case None => FallbackKey
    case Some(p) =>
      var l := Lower(p);
      if IsWildcard(l) then WildcardKey([DOT] + l[2..]) else ExactKey(l)
  }

  /** Patterns land in the same place exactly when they agree up to ASCII case. */
  lemma SameKeyIffSameLowercase(p: Bytes, q: Bytes)
    ensures KeyOf(Some(p)) == KeyOf(Some(q)) <==> Lower(p) == Lower(q)
  {
    var a, b := Lower(p), Lower(q);
    if IsWildcard(a) && IsWildcard(b) && KeyOf(Some(p)) == KeyOf(Some(q)) {
      assert a[2..] == ([DOT] + a[2..])[1..] == ([DOT] + b[2..])[1..] == b[2..];
      assert a == [STAR, DOT] + a[2..] && b == [STAR, DOT] + b[2..];
    }
  }

  ghost predicate DistinctUpTo(ms: seq<Member>, n: nat)
    requires n <= |ms|
  {
    forall i, j :: 0 <= i < j < n ==> KeyOf(ms[i].pattern) != KeyOf(ms[j].pattern)
  }

  ghost predicate DistinctKeys(ms: seq<Member>) { DistinctUpTo(ms, |ms|) }

  /** The routes that the first `n` members ask for. */
  function RoutesUpTo(ms: seq<Member>, n: nat): (m: map<Key, RuleId>)
    requires n <= |ms|
  {
    if n == 0 then map[] else RoutesUpTo(ms, n - 1)[KeyOf(ms[n - 1].pattern) := ms[n - 1].id]
  }

  function RouteMap(ms: seq<Member>): (m: map<Key, RuleId>) { RoutesUpTo(ms, |ms|) }

  /** The part of a host from its first dot on, when a non-empty label comes before it. */
  function FirstDot(host: Bytes): (i: nat)
    ensures i <= |host| && DOT !in host[..i] && (i < |host| ==> host[i] == DOT)
  {
    if host == [] || host[0] == DOT then 0
    else
      var i := FirstDot(host[1..]);
      assert host[..i + 1] == [host[0]] + host[1..][..i];
      i + 1
  }

  function NeedleFor(host: Bytes): (n: Option<Bytes>) {
    var i := FirstDot(host);
    if 0 < i < |host| then Some(host[i..]) else None
  }

  /** Routing as three map lookups: the exact host, then its one possible wildcard, then the fallback. */
  function Route(routes: map<Key, RuleId>, sni: Option<Bytes>): (r: SniMatch) {
    var fallback := if FallbackKey in routes then Hit(routes[FallbackKey], FallbackMatch) else Miss;
    match sni
    case None => fallback
    case Some(h) =>
      var host := Lower(h);
      if ExactKey(host) in routes then Hit(routes[ExactKey(host)], ExactMatch)
      else if NeedleFor(host).Some? && WildcardKey(NeedleFor(host).value) in routes then
        Hit(routes[WildcardKey(NeedleFor(host).value)], WildcardMatch)
      else fallback
  }

  // ---------------------------------------------------------------- what a table holds

  predicate Holds(t: Table, k: Key, id: RuleId) {
    match k
    case FallbackKey => t.fallback == Some(id)
    case ExactKey(h) => h in t.exact && t.exact[h] == id
    case WildcardKey(n) => (n, id) in t.wildcards
  }

  ghost predicate Represents(t: Table, routes: map<Key, RuleId>) {
    && (forall k, id :: Holds(t, k, id) ==> k in routes && routes[k] == id)
    && (forall k :: k in routes ==> Holds(t, k, routes[k]))
  }

  ghost predicate LongestFirst(ws: seq<(Bytes, RuleId)>) {
    forall i, j :: 0 <= i < j < |ws| ==> |ws[i].0| >= |ws[j].0|
  }

  function InsertLongest(x: (Bytes, RuleId), ws: seq<(Bytes, RuleId)>): (r: seq<(Bytes, RuleId)>)
    ensures multiset(r) == multiset(ws) + multiset{x}
  {
    if ws == [] || |x.0| >= |ws[0].0| then [x] + ws
    else
      assert ws == [ws[0]] + ws[1..];
      [ws[0]] + InsertLongest(x, ws[1..])
  }

  lemma {:induction false} InsertKeepsOrder(x: (Bytes, RuleId), ws: seq<(Bytes, RuleId)>)
    requires LongestFirst(ws)
    ensures LongestFirst(InsertLongest(x, ws))
  {
    if ws != [] && |x.0| < |ws[0].0| {
      InsertKeepsOrder(x, ws[1..]);
      var r := InsertLongest(x, ws[1..]);
      forall i | 0 <= i < |r| ensures |r[i].0| <= |ws[0].0| {
        assert r[i] in multiset(r);
        assert r[i] == x || r[i] in ws[1..];
      }
    }
  }

  /** The stable sort by descending needle length. */
  function SortLongestFirst(ws: seq<(Bytes, RuleId)>): (r: seq<(Bytes, RuleId)>)
    ensures multiset(r) == multiset(ws) && LongestFirst(r)
  {
    if ws == [] then []
    else
      assert ws == [ws[0]] + ws[1..];
      InsertKeepsOrder(ws[0], SortLongestFirst(ws[1..]));
      InsertLongest(ws[0], SortLongestFirst(ws[1..]))
  }

  // ---------------------------------------------------------------- building

  lemma FreeKey(t: Table, routes: map<Key, RuleId>, k: Key)
    requires Represents(t, routes) && forall id :: !Holds(t, k, id)
    ensures k !in routes
  {
  }

  lemma RepresentsExtend(t: Table, t': Table, routes: map<Key, RuleId>, k: Key, id: RuleId)
    requires Represents(t, routes) && k !in routes
    requires forall k', i :: Holds(t', k', i) <==> Holds(t, k', i) || (k' == k && i == id)
    ensures Represents(t', routes[k := id])
  {
  }

  ghost predicate AskedBefore(ms: seq<Member>, n: nat, k: Key)
    requires n <= |ms|
  {
    exists i :: 0 <= i < n && KeyOf(ms[i].pattern) == k
  }

  lemma {:induction false} RoutesUpToKeys(ms: seq<Member>, n: nat)
    requires n <= |ms|
    ensures forall k :: k in RoutesUpTo(ms, n) <==> AskedBefore(ms, n, k)
    ensures DistinctUpTo(ms, n) ==> forall i :: 0 <= i < n ==>
              KeyOf(ms[i].pattern) in RoutesUpTo(ms, n) && RoutesUpTo(ms, n)[KeyOf(ms[i].pattern)] == ms[i].id
  {
    if n > 0 {
      RoutesUpToKeys(ms, n - 1);
      forall k ensures AskedBefore(ms, n, k) <==> AskedBefore(ms, n - 1, k) || KeyOf(ms[n - 1].pattern) == k { }
    }
  }

  lemma RouteMapKeys(ms: seq<Member>)
    ensures forall k :: k in RouteMap(ms) <==> exists i :: 0 <= i < |ms| && KeyOf(ms[i].pattern) == k
    ensures DistinctKeys(ms) ==> forall i :: 0 <= i < |ms| ==> RouteMap(ms)[KeyOf(ms[i].pattern)] == ms[i].id
  {
    RoutesUpToKeys(ms, |ms|);
    forall k ensures k in RouteMap(ms) <==> exists i :: 0 <= i < |ms| && KeyOf(ms[i].pattern) == k {
      assert k in RouteMap(ms) <==> AskedBefore(ms, |ms|, k);
    }
  }

  function ErrorKey(e: BuildError): (k: Key) {
    match e
    case DuplicateExact(h) => ExactKey(h)
    case DuplicateWildcard(suffix) => WildcardKey([DOT] + suffix)
    case DuplicateFallback => FallbackKey
  }

  /** Put one member in its place; fails exactly when the place is taken. */
  method Place(t: Table, m: Member, ghost routes: map<Key, RuleId>) returns (r: Result<Table, BuildError>)
    requires Represents(t, routes)
    ensures r.Ok? <==> KeyOf(m.pattern) !in routes
    ensures r.Err? ==> ErrorKey(r.error) == KeyOf(m.pattern)
    ensures r.Ok? ==> Represents(r.value, routes[KeyOf(m.pattern) := m.id])
  {
    match m.pattern {
      case None =>
        if t.fallback.Some? {
          assert Holds(t, FallbackKey, t.fallback.value);
          return Err(DuplicateFallback);
        }
        r := Ok(t.(fallback := Some(m.id)));
      case Some(p) =>
        var lowered := Lower(p);
        if IsWildcard(lowered) {
          var suffix := lowered[2..];
          var needle := [DOT] + suffix;
          var taken := NeedleTaken(t.wildcards, needle);
          if taken {
            ghost var w :| w in t.wildcards && w.0 == needle;
            assert Holds(t, WildcardKey(needle), w.1);
            return Err(DuplicateWildcard(suffix));
          }
          r := Ok(t.(wildcards := t.wildcards + [(needle, m.id)]));
        } else {
          if lowered in t.exact {
            assert Holds(t, ExactKey(lowered), t.exact[lowered]);
            return Err(DuplicateExact(lowered));
          }
          r := Ok(t.(exact := t.exact[lowered := m.id]));
        }
    }
    FreeKey(t, routes, KeyOf(m.pattern));
    RepresentsExtend(t, r.value, routes, KeyOf(m.pattern), m.id);
  }

  /**
   * Succeeds exactly when no two members ask for the same place, and then holds exactly the routes
   * asked for, wildcards longest first. A failure names the first place asked for twice.
   */
  method FromMembers(ms: seq<Member>) returns (r: Result<Table, BuildError>)
    ensures r.Ok? <==> DistinctKeys(ms)
    ensures r.Ok? ==> Represents(r.value, RouteMap(ms)) && LongestFirst(r.value.wildcards)
    ensures r.Err? ==> exists j :: 0 <= j < |ms| && DistinctUpTo(ms, j)
                                   && ErrorKey(r.error) == KeyOf(ms[j].pattern) && AskedBefore(ms, j, ErrorKey(r.error))
  {
    var t := EMPTY_TABLE;
    for i := 0 to |ms|
      invariant DistinctUpTo(ms, i)
      invariant Represents(t, RoutesUpTo(ms, i))
    {
      DistinctStep(ms, i);
      var placed := Place(t, ms[i], RoutesUpTo(ms, i));
      if placed.Err? {
        return placed;
      }
      t := placed.value;
    }
    var sorted := SortLongestFirst(t.wildcards);
    SameElements(sorted, t.wildcards);
    SameHoldings(t, t.(wildcards := sorted), RouteMap(ms));
    return Ok(t.(wildcards := sorted));
  }

  /** One more member keeps the keys distinct exactly when its place is free; if it is taken, all is lost. */
  lemma DistinctStep(ms: seq<Member>, i: nat)
    requires i < |ms| && DistinctUpTo(ms, i)
    ensures KeyOf(ms[i].pattern) in RoutesUpTo(ms, i) <==> AskedBefore(ms, i, KeyOf(ms[i].pattern))
    ensures DistinctUpTo(ms, i + 1) <==> !AskedBefore(ms, i, KeyOf(ms[i].pattern))
    ensures !DistinctUpTo(ms, i + 1) ==> !DistinctKeys(ms)
  {
    RoutesUpToKeys(ms, i);
  }

  lemma SameHoldings(t: Table, t': Table, routes: map<Key, RuleId>)
    requires Represents(t, routes) && t'.exact == t.exact && t'.fallback == t.fallback
    requires forall w :: w in t.wildcards <==> w in t'.wildcards
    ensures Represents(t', routes)
  {
    forall k, id ensures Holds(t', k, id) <==> Holds(t, k, id) { }
  }

  lemma SameElements(a: seq<(Bytes, RuleId)>, b: seq<(Bytes, RuleId)>)
    requires multiset(a) == multiset(b)
    ensures forall x :: x in a <==> x in b
  {
    forall x ensures x in a <==> x in b {
      assert x in a <==> x in multiset(a);
      assert x in b <==> x in multiset(b);
    }
  }

  /** `wildcards.iter().any(..)`. */
  method NeedleTaken(ws: seq<(Bytes, RuleId)>, needle: Bytes) returns (taken: bool)
    ensures taken <==> exists w :: w in ws && w.0 == needle
  {
    for i := 0 to |ws|
      invariant forall j :: 0 <= j < i ==> ws[j].0 != needle
    {
      if ws[i].0 == needle {
        assert ws[i] in ws;
        return true;
      }
    }
    return false;
  }

  // ---------------------------------------------------------------- looking up

  /** `host.strip_suffix(needle)` leaves one non-empty label. */
  predicate WildcardMatches(host: Bytes, needle: Bytes) {
    && |needle| <= |host|
    && host[|host| - |needle|..] == needle
    && var prefix := host[..|host| - |needle|]; prefix != [] && DOT !in prefix
  }

  lemma {:induction false} FirstDotUnique(host: Bytes, j: nat)
    requires j < |host| && host[j] == DOT && DOT !in host[..j]
    ensures FirstDot(host) == j
  {
    if j > 0 {
      assert host[0] == host[..j][0] != DOT;
      assert host[1..][..j - 1] == host[..j][1..];
      FirstDotUnique(host[1..], j - 1);
    }
  }

  /** A needle can match a host only by being the host's text from its first dot on. */
  lemma OnlyOneNeedle(host: Bytes, needle: Bytes)
    requires needle != [] && needle[0] == DOT
    ensures WildcardMatches(host, needle) <==> NeedleFor(host) == Some(needle)
  {
    var i := FirstDot(host);
    if WildcardMatches(host, needle) {
      var j := |host| - |needle|;
      assert host[j] == needle[0] == DOT;
      FirstDotUnique(host, j);
    }
  }

  /** The first match of the wildcard walk. */
  function FirstWildcard(ws: seq<(Bytes, RuleId)>, host: Bytes): (r: Option<RuleId>) {
    if ws == [] then None
    else if WildcardMatches(host, ws[0].0) then Some(ws[0].1)
    else FirstWildcard(ws[1..], host)
  }

  function LookupWalk(t: Table, sni: Option<Bytes>): (r: SniMatch) {
    var fallback := if t.fallback.Some? then Hit(t.fallback.value, FallbackMatch) else Miss;
    match sni
    case None => fallback
    case Some(h) =>
      var host := Lower(h);
      if host in t.exact then Hit(t.exact[host], ExactMatch)
      else if FirstWildcard(t.wildcards, host).Some? then Hit(FirstWildcard(t.wildcards, host).value, WildcardMatch)
      else fallback
  }

  method Lookup(t: Table, sni: Option<Bytes>) returns (r: SniMatch)
    ensures r == LookupWalk(t, sni)
    ensures forall routes :: Represents(t, routes) && NeedlesDotted(routes) ==> r == Route(routes, sni)
  {
    forall routes | Represents(t, routes) && NeedlesDotted(routes)
      ensures LookupWalk(t, sni) == Route(routes, sni)
    {
      LookupIsRoute(t, routes, sni);
    }
    if sni.Some? {
      var host := Lower(sni.value);
      if host in t.exact {
        return Hit(t.exact[host], ExactMatch);
      }
      for i := 0 to |t.wildcards|
        invariant FirstWildcard(t.wildcards, host) == FirstWildcard(t.wildcards[i..], host)
      {
        if WildcardMatches(host, t.wildcards[i].0) {
          return Hit(t.wildcards[i].1, WildcardMatch);
        }
        assert t.wildcards[i..][1..] == t.wildcards[i + 1..];
      }
    }
    if t.fallback.Some? {
      return Hit(t.fallback.value, FallbackMatch);
    }
    return Miss;
  }

  predicate NeedlesDotted(routes: map<Key, RuleId>) {
    forall k :: k in routes && k.WildcardKey? ==> k.needle != [] && k.needle[0] == DOT
  }

  lemma {:induction false} FirstWildcardMeaning(ws: seq<(Bytes, RuleId)>, host: Bytes)
    ensures var r := FirstWildcard(ws, host);
            && (r.Some? ==> exists w :: w in ws && WildcardMatches(host, w.0) && w.1 == r.value)
            && (r.None? ==> forall w :: w in ws ==> !WildcardMatches(host, w.0))
  {
    if ws != [] {
      FirstWildcardMeaning(ws[1..], host);
      assert ws == [ws[0]] + ws[1..];
      assert ws[0] in ws;
    }
  }

  /** The longest-first walk finds what a map lookup of the host's one needle finds. */
  lemma LookupIsRoute(t: Table, routes: map<Key, RuleId>, sni: Option<Bytes>)
    requires Represents(t, routes) && NeedlesDotted(routes)
    ensures LookupWalk(t, sni) == Route(routes, sni)
  {
    if t.fallback.Some? { assert Holds(t, FallbackKey, t.fallback.value); }
    if FallbackKey in routes { assert Holds(t, FallbackKey, routes[FallbackKey]); }
    if sni.Some? {
      var host := Lower(sni.value);
      if host in t.exact { assert Holds(t, ExactKey(host), t.exact[host]); }
      if ExactKey(host) in routes { assert Holds(t, ExactKey(host), routes[ExactKey(host)]); }
      FirstWildcardMeaning(t.wildcards, host);
      var found := FirstWildcard(t.wildcards, host);
      if found.Some? {
        var w :| w in t.wildcards && WildcardMatches(host, w.0) && w.1 == found.value;
        assert Holds(t, WildcardKey(w.0), w.1);
        OnlyOneNeedle(host, w.0);
      } else if NeedleFor(host).Some? {
        var k := WildcardKey(NeedleFor(host).value);
        if k in routes {
          assert Holds(t, k, routes[k]);
          assert (k.needle, routes[k]) in t.wildcards;
          OnlyOneNeedle(host, k.needle);
        }
      }
    }
  }

  // ---------------------------------------------------------------- the order of the members does not matter

  /** Every enumeration of one set of members builds or fails alike, and asks for the same routes. */
  lemma MemberOrderIrrelevant(a: seq<Member>, b: seq<Member>, members: set<Member>)
    requires Lists(a, members) && Lists(b, members)
    ensures DistinctKeys(a) <==> DistinctKeys(b)
    ensures DistinctKeys(a) ==> RouteMap(a) == RouteMap(b)
  {
    if DistinctKeys(a) { DistinctKeysTransfer(a, b, members); }
    if DistinctKeys(b) { DistinctKeysTransfer(b, a, members); }
    if DistinctKeys(a) {
      RouteMapKeys(a);
      RouteMapKeys(b);
      forall k | k in RouteMap(a) ensures k in RouteMap(b) && RouteMap(a)[k] == RouteMap(b)[k] {
        var i :| 0 <= i < |a| && KeyOf(a[i].pattern) == k;
        assert a[i] in b;
        var j :| 0 <= j < |b| && b[j] == a[i];
      }
      forall k | k in RouteMap(b) ensures k in RouteMap(a) {
        var j :| 0 <= j < |b| && KeyOf(b[j].pattern) == k;
        assert b[j] in a;
      }
    }
  }

  lemma DistinctKeysTransfer(a: seq<Member>, b: seq<Member>, members: set<Member>)
    requires Lists(a, members) && Lists(b, members) && DistinctKeys(a)
    ensures DistinctKeys(b)
  {
    forall i, j | 0 <= i < j < |b| ensures KeyOf(b[i].pattern) != KeyOf(b[j].pattern) {
      assert b[i] in a && b[j] in a && b[i] != b[j];
      var x :| 0 <= x < |a| && a[x] == b[i];
      var y :| 0 <= y < |a| && a[y] == b[j];
    }
  }
}
