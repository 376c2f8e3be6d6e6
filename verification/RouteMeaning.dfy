/** What routing means for the patterns an operator wrote, without lowercasing, keys, needles or tables. */
module RouteMeaning {
  import opened Prelude
  import opened RouteTable

  // ---------------------------------------------------------------- letter case

  /** The same byte, or the capital and the small form of one of the 26 letters. */
  predicate SameLetter(a: u8, b: u8) {
    || a == b
    || (0x41 <= a <= 0x5A && b == a + 0x20)
    || (0x41 <= b <= 0x5A && a == b + 0x20)
  }

  predicate SameUpToCase(p: Bytes, q: Bytes) {
    |p| == |q| && forall i :: 0 <= i < |p| ==> SameLetter(p[i], q[i])
  }

  /** Lowercasing turns each capital letter into its small form and leaves every other byte alone. */
  lemma LowerMeaning(p: Bytes, q: Bytes)
    ensures |Lower(p)| == |p| && forall i :: 0 <= i < |p| && !(0x41 <= p[i] <= 0x5A) ==> Lower(p)[i] == p[i]
    ensures forall i :: 0 <= i < |p| && 0x41 <= p[i] <= 0x5A ==> Lower(p)[i] == p[i] - 0x41 + 0x61
    ensures Lower(p) == Lower(q) <==> SameUpToCase(p, q)
  {
    if Lower(p) == Lower(q) {
      forall i | 0 <= i < |p| ensures SameLetter(p[i], q[i]) { assert Lower(p)[i] == Lower(q)[i]; }
    } else if |p| == |q| {
      var i :| 0 <= i < |p| && Lower(p)[i] != Lower(q)[i];
      assert !SameLetter(p[i], q[i]);
    }
  }

  // ---------------------------------------------------------------- patterns and hosts

  predicate Starred(pattern: Bytes) { |pattern| >= 2 && pattern[..2] == [0x2A, 0x2E] }

  /** An exact pattern names the host. */
  predicate Names(pattern: Bytes, host: Bytes) { !Starred(pattern) && SameUpToCase(pattern, host) }

  /** A wildcard covers the hosts made of one non-empty label, a dot and the pattern's suffix. */
  ghost predicate Covers(pattern: Bytes, host: Bytes) {
    Starred(pattern) && exists first: Bytes, rest: Bytes ::
      first != [] && 0x2E !in first && host == first + [0x2E] + rest && SameUpToCase(pattern[2..], rest)
  }

  ghost predicate AnyNames(ms: seq<Member>, host: Bytes) {
    exists i :: 0 <= i < |ms| && ms[i].pattern.Some? && Names(ms[i].pattern.value, host)
  }

  ghost predicate AnyCovers(ms: seq<Member>, host: Bytes) {
    exists i :: 0 <= i < |ms| && ms[i].pattern.Some? && Covers(ms[i].pattern.value, host)
  }

  /** Two members want the same hosts: both have no pattern, or one pattern up to letter case. */
  predicate Collide(a: Member, b: Member) {
    if a.pattern.Some? && b.pattern.Some? then SameUpToCase(a.pattern.value, b.pattern.value)
    else a.pattern == b.pattern
  }

  /** Members can be built into a table exactly when no two of them collide. */
  lemma BuildableIff(ms: seq<Member>)
    ensures DistinctKeys(ms) <==> forall i, j :: 0 <= i < j < |ms| ==> !Collide(ms[i], ms[j])
  {
    forall i, j | 0 <= i < j < |ms| ensures KeyOf(ms[i].pattern) == KeyOf(ms[j].pattern) <==> Collide(ms[i], ms[j]) {
      CollideIff(ms[i], ms[j]);
    }
  }

  lemma CollideIff(a: Member, b: Member)
    ensures KeyOf(a.pattern) == KeyOf(b.pattern) <==> Collide(a, b)
  {
    if a.pattern.Some? && b.pattern.Some? {
      SameKeyIffSameLowercase(a.pattern.value, b.pattern.value);
      LowerMeaning(a.pattern.value, b.pattern.value);
    }
  }

  lemma NamesIff(pattern: Bytes, host: Bytes)
    ensures KeyOf(Some(pattern)) == ExactKey(Lower(host)) <==> Names(pattern, host)
  {
    LowerMeaning(pattern, host);
    StarredIff(pattern);
  }

  lemma StarredIff(pattern: Bytes)
    ensures IsWildcard(Lower(pattern)) <==> Starred(pattern)
  {
    if |pattern| >= 2 {
      assert Lower(pattern)[0] == LowerByte(pattern[0]) && Lower(pattern)[1] == LowerByte(pattern[1]);
    }
  }

  lemma CoversIff(pattern: Bytes, host: Bytes)
    ensures NeedleFor(Lower(host)).Some? && KeyOf(Some(pattern)) == WildcardKey(NeedleFor(Lower(host)).value)
       <==> Covers(pattern, host)
  {
    StarredIff(pattern);
    var low := Lower(host);
    if NeedleFor(low).Some? && KeyOf(Some(pattern)) == WildcardKey(NeedleFor(low).value) {
      var i := FirstDot(low);
      SplitAt(pattern, host, i);
    }
    if Covers(pattern, host) {
      var first: Bytes, rest: Bytes :|
        first != [] && 0x2E !in first && host == first + [0x2E] + rest && SameUpToCase(pattern[2..], rest);
      JoinAt(pattern, host, first, rest);
    }
  }

  lemma DotStays(host: Bytes, i: nat)
    requires i < |host|
    ensures Lower(host)[i] == 0x2E <==> host[i] == 0x2E
  {
  }

  lemma SameLower(a: u8, b: u8)
    requires LowerByte(a) == LowerByte(b)
    ensures SameLetter(a, b)
  {
  }

  lemma SplitAt(pattern: Bytes, host: Bytes, i: nat)
    requires Starred(pattern) && 0 < i < |host| && i == FirstDot(Lower(host))
    requires Lower(pattern)[1..] == Lower(host)[i..]
    ensures Covers(pattern, host)
  {
    var first, rest := host[..i], host[i + 1..];
    DotStays(host, i);
    assert host == first + [0x2E] + rest;
    forall k | 0 <= k < i ensures first[k] != 0x2E {
      DotStays(host, k);
      assert Lower(host)[k] in Lower(host)[..i];
    }
    assert |rest| == |pattern[2..]|;
    forall k | 0 <= k < |rest| ensures SameLetter(pattern[2..][k], rest[k]) {
      assert Lower(pattern)[1..][k + 1] == Lower(host)[i..][k + 1];
      SameLower(pattern[2 + k], host[i + 1 + k]);
    }
    assert 0x2E !in first && SameUpToCase(pattern[2..], rest);
  }

  lemma JoinAt(pattern: Bytes, host: Bytes, first: Bytes, rest: Bytes)
    requires Starred(pattern) && first != [] && 0x2E !in first && host == first + [0x2E] + rest
    requires SameUpToCase(pattern[2..], rest)
    ensures NeedleFor(Lower(host)).Some? && KeyOf(Some(pattern)) == WildcardKey(NeedleFor(Lower(host)).value)
  {
    NeedleAfter(host, first, rest);
    StarredKey(pattern);
    LowerMeaning(pattern[2..], rest);
  }

  lemma StarredKey(pattern: Bytes)
    requires Starred(pattern)
    ensures KeyOf(Some(pattern)) == WildcardKey([DOT] + Lower(pattern[2..]))
  {
    StarredIff(pattern);
    LowerTail(pattern, 2);
  }

  lemma NeedleAfter(host: Bytes, first: Bytes, rest: Bytes)
    requires first != [] && 0x2E !in first && host == first + [0x2E] + rest
    ensures NeedleFor(Lower(host)) == Some([DOT] + Lower(rest))
  {
    var i, low := |first|, Lower(host);
    FirstDotAfter(host, first, rest);
    assert low[i] == DOT by { DotStays(host, i); }
    assert low[i + 1..] == Lower(rest) by { LowerTail(host, i + 1); assert host[i + 1..] == rest; }
    hide Lower, FirstDot;
    assert low[i..] == [low[i]] + low[i + 1..];
  }

  lemma FirstDotAfter(host: Bytes, first: Bytes, rest: Bytes)
    requires 0x2E !in first && host == first + [0x2E] + rest
    ensures FirstDot(Lower(host)) == |first|
  {
    hide FirstDot;
    var i, low := |first|, Lower(host);
    DotStays(host, i);
    forall k | 0 <= k < i ensures low[..i][k] != DOT { DotStays(host, k); assert first[k] in first; }
    FirstDotUnique(low, i);
  }

  lemma LowerTail(s: Bytes, i: nat)
    requires i <= |s|
    ensures Lower(s)[i..] == Lower(s[i..])
  {
  }

  // ---------------------------------------------------------------- the answer

  /** What a connection that asks for a host, or for none, is entitled to. */
  ghost predicate Entitled(ms: seq<Member>, sni: Option<Bytes>, answer: SniMatch) {
    match answer
    case Hit(id, ExactMatch) =>
      sni.Some?
      && exists i :: 0 <= i < |ms| && ms[i].pattern.Some? && ms[i].id == id && Names(ms[i].pattern.value, sni.value)
    case Hit(id, WildcardMatch) =>
      sni.Some? && !AnyNames(ms, sni.value)
      && exists i :: 0 <= i < |ms| && ms[i].pattern.Some? && ms[i].id == id && Covers(ms[i].pattern.value, sni.value)
    case Hit(id, FallbackMatch) =>
      (sni.Some? ==> !AnyNames(ms, sni.value) && !AnyCovers(ms, sni.value))
      && exists i :: 0 <= i < |ms| && ms[i].pattern.None? && ms[i].id == id
    case Miss =>
      (sni.Some? ==> !AnyNames(ms, sni.value) && !AnyCovers(ms, sni.value))
      && forall i :: 0 <= i < |ms| ==> ms[i].pattern.Some?
  }

  /**
   * Whatever the members and the host: the table built from them answers an exact pattern equal up to
   * letter case before a covering wildcard, that before the fallback, and a miss only when there is none.
   */
  lemma TableAnswersAsEntitled(ms: seq<Member>, t: Table, sni: Option<Bytes>)
    requires DistinctKeys(ms) && Represents(t, RouteMap(ms))
    ensures Entitled(ms, sni, LookupWalk(t, sni))
  {
    hide LookupWalk, Represents, RouteMap, DistinctKeys;
    assert NeedlesDotted(RouteMap(ms)) by { NeedlesOfMembers(ms); }
    LookupIsRoute(t, RouteMap(ms), sni);
    RouteMapKeys(ms);
    if sni.Some? { RouteIsEntitled(ms, RouteMap(ms), sni.value); }
  }

  lemma NeedlesOfMembers(ms: seq<Member>)
    ensures NeedlesDotted(RouteMap(ms))
  {
    RouteMapKeys(ms);
  }

  lemma RouteIsEntitled(ms: seq<Member>, routes: map<Key, RuleId>, host: Bytes)
    requires forall k :: k in routes <==> exists i :: 0 <= i < |ms| && KeyOf(ms[i].pattern) == k
    requires forall i :: 0 <= i < |ms| ==> routes[KeyOf(ms[i].pattern)] == ms[i].id
    ensures Entitled(ms, Some(host), Route(routes, Some(host)))
  {
    var low := Lower(host);
    forall i | 0 <= i < |ms| && ms[i].pattern.Some?
      ensures KeyOf(ms[i].pattern) == ExactKey(low) <==> Names(ms[i].pattern.value, host)
    {
      NamesIff(ms[i].pattern.value, host);
    }
    assert ExactKey(low) in routes <==> AnyNames(ms, host) by { hide Names, Lower; }
    forall i | 0 <= i < |ms| && ms[i].pattern.Some?
      ensures NeedleFor(low).Some? && KeyOf(ms[i].pattern) == WildcardKey(NeedleFor(low).value)
         <==> Covers(ms[i].pattern.value, host)
    {
      CoversIff(ms[i].pattern.value, host);
    }
    hide Names, Covers, Lower, NeedleFor;
    assert NeedleFor(low).Some? && WildcardKey(NeedleFor(low).value) in routes <==> AnyCovers(ms, host);
  }
}
