/** The operator's entry for pushes: what `post_rules` lets through to the rule store. */
module OperatorEntry {
  import opened Prelude
  import opened PortRanges
  import opened RuleModel
  import opened RouteTable
  import opened HostText

  const MAX_PATTERN := 253
  const MAX_LABEL := 63
  const HYPHEN: u8 := 0x2D

  predicate LabelByte(b: u8) { 0x61 <= b <= 0x7A || 0x30 <= b <= 0x39 || b == HYPHEN }

  predicate LabelOk(part: Bytes) {
    && 0 < |part| <= MAX_LABEL && part[0] != HYPHEN && part[|part| - 1] != HYPHEN
    && forall i :: 0 <= i < |part| ==> LabelByte(part[i])
  }

  /** Every dot-separated label is well formed. */
  predicate LabelsOk(body: Bytes)
    decreases |body|
  {
    var i := FirstDot(body);
    LabelOk(body[..i]) && (i < |body| ==> LabelsOk(body[i + 1..]))
  }

  function Trim(raw: Bytes): Bytes { TrimEnd(TrimStart(raw)) }

  /** The grammar proper, on a trimmed and lowercased pattern. */
  predicate WellFormedPattern(lower: Bytes) {
    var wild := IsWildcard(lower);
    var body := if wild then lower[2..] else lower;
    0 < |lower| <= MAX_PATTERN && body != [] && (wild ==> DOT in body) && LabelsOk(body)
  }

  /** `validate_sni_pattern`: the stored pattern is the trimmed, lowercased text, if that is well formed. */
  function ValidatePattern(raw: Bytes): (r: Option<Bytes>)
    ensures r.Some? ==> Lower(r.value) == r.value
  {
    var lower := Lower(Trim(raw));
    LowerIdempotent(Trim(raw));
    if WellFormedPattern(lower) then Some(lower) else None
  }

  /** `post_rules`: both ranges start above port 0, and a pattern comes with one TCP port and is validated. */
  function Admit(c: Candidate): (r: Option<Candidate>) {
    if c.listen.start == 0 || c.target.start == 0 then None
    else
      match c.sniPattern
      case None => Some(c)
      case Some(raw) =>
        if c.protocol != Tcp || Len(c.listen) > 1 || ValidatePattern(raw).None? then None
        else Some(c.(sniPattern := ValidatePattern(raw)))
  }

  // ---------------------------------------------------------------- letter case

  lemma {:induction false} TrimStartLower(s: Bytes)
    ensures Lower(TrimStart(s)) == TrimStart(Lower(s))
    decreases |s|
  {
    var n := SpaceAtStart(s);
    assert SpaceAtStart(Lower(s)) == n;
    if n > 0 {
      assert Lower(s)[n..] == Lower(s[n..]);
      TrimStartLower(s[n..]);
    }
  }

  lemma {:induction false} TrimEndLower(s: Bytes)
    ensures Lower(TrimEnd(s)) == TrimEnd(Lower(s))
    decreases |s|
  {
    var n := SpaceAtEnd(s);
    assert SpaceAtEnd(Lower(s)) == n;
    if n > 0 {
      assert Lower(s)[..|s| - n] == Lower(s[..|s| - n]);
      TrimEndLower(s[..|s| - n]);
    }
  }

  lemma {:induction false} TrimStartDone(s: Bytes)
    ensures SpaceAtStart(TrimStart(s)) == 0
    decreases |s|
  {
    if SpaceAtStart(s) > 0 { TrimStartDone(s[SpaceAtStart(s)..]); }
  }

  lemma {:induction false} TrimEndDone(s: Bytes)
    ensures SpaceAtEnd(TrimEnd(s)) == 0 && TrimEnd(s) <= s
    decreases |s|
  {
    if SpaceAtEnd(s) > 0 { TrimEndDone(s[..|s| - SpaceAtEnd(s)]); }
  }

  lemma TrimDone(s: Bytes)
    ensures Trim(Trim(s)) == Trim(s)
  {
    var t := TrimStart(s);
    TrimStartDone(s);
    TrimEndDone(t);
    assert SpaceAtStart(TrimEnd(t)) == 0 by {
      assert forall i :: 0 <= i < |TrimEnd(t)| ==> TrimEnd(t)[i] == t[i];
    }
  }

  /** What the entry stores is in normal form: it is lowercase and would be stored unchanged again. */
  lemma ValidatedIsFixed(raw: Bytes)
    requires ValidatePattern(raw).Some?
    ensures var p := ValidatePattern(raw).value; Lower(p) == p && ValidatePattern(p) == Some(p)
  {
    var t := Trim(raw);
    TrimDone(raw);
    TrimStartLower(t);
    TrimEndLower(TrimStart(t));
    LowerIdempotent(t);
  }

  /** Candidates whose patterns differ only in letter case are one candidate behind the entry. */
  lemma CaseTwinsAreAdmittedAlike(c: Candidate, p: Bytes, q: Bytes)
    requires Lower(p) == Lower(q)
    ensures Admit(c.(sniPattern := Some(p))) == Admit(c.(sniPattern := Some(q)))
  {
    TrimStartLower(p);
    TrimStartLower(q);
    TrimEndLower(TrimStart(p));
    TrimEndLower(TrimStart(q));
    assert ValidatePattern(p) == ValidatePattern(q);
  }

  // ---------------------------------------------------------------- what the grammar admits

  /** One to 63 small letters, digits and hyphens, no hyphen at either end. */
  predicate HostLabel(part: Bytes) {
    && 1 <= |part| <= 63 && part[0] != 0x2D && part[|part| - 1] != 0x2D
    && forall i :: 0 <= i < |part| ==> 0x61 <= part[i] <= 0x7A || 0x30 <= part[i] <= 0x39 || part[i] == 0x2D
  }

  function Dotted(parts: seq<Bytes>): Bytes
    requires parts != []
  {
    if |parts| == 1 then parts[0] else parts[0] + [0x2E] + Dotted(parts[1..])
  }

  predicate AllLabels(parts: seq<Bytes>) { forall i :: 0 <= i < |parts| ==> HostLabel(parts[i]) }

  /** A host name of labels, or `*.` before one of at least two; 253 bytes at most. */
  ghost predicate HostPattern(p: Bytes) {
    |p| <= 253 && exists parts: seq<Bytes> ::
      parts != [] && AllLabels(parts) && (p == Dotted(parts) || (|parts| >= 2 && p == [0x2A, 0x2E] + Dotted(parts)))
  }

  lemma LabelIff(part: Bytes)
    ensures LabelOk(part) <==> HostLabel(part)
  {
  }

  lemma NoDotInLabel(part: Bytes)
    requires HostLabel(part)
    ensures DOT !in part
  {
  }

  lemma {:induction false} LabelsOfDotted(parts: seq<Bytes>)
    requires parts != [] && AllLabels(parts)
    ensures LabelsOk(Dotted(parts)) && Dotted(parts) != [] && Dotted(parts)[0] != 0x2A
    ensures |parts| >= 2 <==> DOT in Dotted(parts)
    decreases |parts|
  {
    hide LabelOk, HostLabel, LabelsOk;
    var first, body := parts[0], Dotted(parts);
    assert HostLabel(first);
    LabelIff(first);
    NoDotInLabel(first);
    LabelStart(first);
    if |parts| == 1 {
      LastLabel(first);
    } else {
      LabelsOfDotted(parts[1..]);
      MoreLabels(first, Dotted(parts[1..]));
      assert body[|first|] == DOT;
    }
  }

  lemma LabelStart(part: Bytes)
    requires HostLabel(part)
    ensures part != [] && part[0] != 0x2A
  {
  }

  lemma LastLabel(part: Bytes)
    requires DOT !in part
    ensures FirstDot(part) == |part| && (LabelsOk(part) <==> LabelOk(part))
  {
    assert part[..|part|] == part;
  }

  lemma MoreLabels(part: Bytes, rest: Bytes)
    requires DOT !in part
    ensures LabelsOk(part + [DOT] + rest) <==> LabelOk(part) && LabelsOk(rest)
  {
    hide LabelOk;
    var body, i := part + [DOT] + rest, |part|;
    assert body[..i] == part && body[i + 1..] == rest;
    FirstDotUnique(body, i);
  }

  lemma {:induction false} PartsOf(body: Bytes) returns (parts: seq<Bytes>)
    requires LabelsOk(body)
    ensures parts != [] && AllLabels(parts) && Dotted(parts) == body
    decreases |body|
  {
    hide LabelOk, HostLabel;
    var i := FirstDot(body);
    LabelIff(body[..i]);
    if i == |body| {
      assert body[..i] == body;
      parts := [body];
    } else {
      var rest := PartsOf(body[i + 1..]);
      parts := [body[..i]] + rest;
      assert parts[1..] == rest;
      assert body == body[..i] + [DOT] + body[i + 1..];
    }
  }

  /** The entry accepts a pattern exactly when, trimmed and lowercased, it is a host pattern, and stores that. */
  lemma PatternMeaning(raw: Bytes)
    ensures ValidatePattern(raw).Some? <==> HostPattern(Lower(Trim(raw)))
    ensures ValidatePattern(raw).Some? ==> ValidatePattern(raw).value == Lower(Trim(raw))
  {
    WellFormedIff(Lower(Trim(raw)));
  }

  lemma WellFormedIff(p: Bytes)
    ensures WellFormedPattern(p) <==> HostPattern(p)
  {
    hide LabelsOk, AllLabels;
    if WellFormedPattern(p) {
      var wild := IsWildcard(p);
      var body := if wild then p[2..] else p;
      var parts := PartsOf(body);
      LabelsOfDotted(parts);
      assert wild ==> p == [0x2A, 0x2E] + Dotted(parts);
      assert HostPattern(p);
    }
    if HostPattern(p) {
      var parts: seq<Bytes> :|
        parts != [] && AllLabels(parts) && (p == Dotted(parts) || (|parts| >= 2 && p == [0x2A, 0x2E] + Dotted(parts)));
      LabelsOfDotted(parts);
      if p != Dotted(parts) { assert p[2..] == Dotted(parts); }
    }
  }

  /** What a request must be like to get through, and what of it is changed. */
  lemma AdmitMeaning(c: Candidate)
    ensures Admit(c).Some? <==>
              && c.listen.start > 0 && c.target.start > 0
              && (c.sniPattern.Some? ==>
                    c.protocol == Tcp && c.listen.start == c.listen.end && HostPattern(Lower(Trim(c.sniPattern.value))))
    ensures Admit(c).Some? ==> Admit(c).value.(sniPattern := c.sniPattern) == c
    ensures Admit(c).Some? ==>
              (Admit(c).value.sniPattern
               == if c.sniPattern.Some? then Some(Lower(Trim(c.sniPattern.value))) else None)
  {
    if c.sniPattern.Some? { PatternMeaning(c.sniPattern.value); }
  }
}
