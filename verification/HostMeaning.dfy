/** Host names as characters: what UTF-8 validation and stripping mean for the text behind the bytes. */
module HostMeaning {
  import opened Prelude
  import opened RouteTable
  import opened HostText

  /** A Unicode scalar value. */
  type Scalar = n: int | 0 <= n <= 0x10FFFF && !(0xD800 <= n <= 0xDFFF)

  type Text = seq<Scalar>

  /** The table in section 3 of RFC 3629. */
  function Encode(ch: Scalar): (r: Bytes)
    ensures 1 <= |r| <= 4
  {
    if ch < 0x80 then [ch]
    else if ch < 0x800 then [0xC0 + ch / 0x40, 0x80 + ch % 0x40]
    else if ch < 0x1_0000 then [0xE0 + ch / 0x1000, 0x80 + ch / 0x40 % 0x40, 0x80 + ch % 0x40]
    else [0xF0 + ch / 0x4_0000, 0x80 + ch / 0x1000 % 0x40, 0x80 + ch / 0x40 % 0x40, 0x80 + ch % 0x40]
  }

  function EncodeText(t: Text): Bytes {
    if t == [] then [] else EncodeText(t[..|t| - 1]) + Encode(t[|t| - 1])
  }

  lemma {:induction false} EncodeFirst(t: Text)
    requires t != []
    ensures EncodeText(t) == Encode(t[0]) + EncodeText(t[1..])
    decreases |t|
  {
    hide Encode;
    var k := |t| - 1;
    if k > 0 {
      EncodeFirst(t[..k]);
      assert t[..k][1..] == t[1..][..k - 1] && t[1..][k - 1] == t[k];
    }
  }

  // ---------------------------------------------------------------- validation

  lemma FrontOfScalar(ch: Scalar, rest: Bytes)
    ensures Utf8Front(Encode(ch) + rest) == |Encode(ch)|
  {
    var s := Encode(ch) + rest;
    assert forall i :: 0 <= i < |Encode(ch)| ==> s[i] == Encode(ch)[i];
  }

  lemma TwoBytes(a: int, b: int) returns (ch: Scalar)
    requires 0xC2 <= a <= 0xDF && 0x80 <= b <= 0xBF
    ensures Encode(ch) == [a, b]
  {
    ch := (a - 0xC0) * 0x40 + (b - 0x80);
    assert ch / 0x40 == a - 0xC0 && ch % 0x40 == b - 0x80;
  }

  lemma ThreeBytes(a: int, b: int, c: int) returns (ch: Scalar)
    requires 0xE0 <= a <= 0xEF && 0x80 <= b <= 0xBF && 0x80 <= c <= 0xBF
    requires (a == 0xE0 ==> b >= 0xA0) && (a == 0xED ==> b <= 0x9F)
    ensures Encode(ch) == [a, b, c]
  {
    var high := (a - 0xE0) * 0x40 + (b - 0x80);
    ch := high * 0x40 + (c - 0x80);
    assert ch / 0x40 == high && ch % 0x40 == c - 0x80;
    assert ch / 0x1000 == a - 0xE0 && high % 0x40 == b - 0x80;
  }

  lemma FourBytes(a: int, b: int, c: int, d: int) returns (ch: Scalar)
    requires 0xF0 <= a <= 0xF4 && 0x80 <= b <= 0xBF && 0x80 <= c <= 0xBF && 0x80 <= d <= 0xBF
    requires (a == 0xF0 ==> b >= 0x90) && (a == 0xF4 ==> b <= 0x8F)
    ensures Encode(ch) == [a, b, c, d]
  {
    var top := (a - 0xF0) * 0x40 + (b - 0x80);
    var high := top * 0x40 + (c - 0x80);
    ch := high * 0x40 + (d - 0x80);
    assert ch / 0x40 == high && ch % 0x40 == d - 0x80;
    assert ch / 0x1000 == top && high % 0x40 == c - 0x80;
    assert ch / 0x4_0000 == a - 0xF0 && top % 0x40 == b - 0x80;
  }

  lemma ScalarAtFront(s: Bytes) returns (ch: Scalar)
    requires Utf8Front(s) > 0
    ensures s[..Utf8Front(s)] == Encode(ch)
  {
    var n := Utf8Front(s);
    if n == 1 {
      ch := s[0];
    } else {
      hide Encode;
      if n == 2 {
        ch := TwoBytes(s[0], s[1]);
      } else if n == 3 {
        ch := ThreeBytes(s[0], s[1], s[2]);
      } else {
        ch := FourBytes(s[0], s[1], s[2], s[3]);
      }
    }
  }

  lemma {:induction false} EncodedIsValid(t: Text)
    ensures ValidUtf8(EncodeText(t))
    decreases |t|
  {
    hide Encode, Utf8Front;
    if t != [] {
      EncodeFirst(t);
      FrontOfScalar(t[0], EncodeText(t[1..]));
      EncodedIsValid(t[1..]);
      assert EncodeText(t)[|Encode(t[0])|..] == EncodeText(t[1..]);
    }
  }

  lemma {:induction false} DecodeText(s: Bytes) returns (t: Text)
    requires ValidUtf8(s)
    ensures s == EncodeText(t)
    decreases |s|
  {
    hide Encode, Utf8Front;
    if s == [] {
      t := [];
    } else {
      var n := Utf8Front(s);
      var ch := ScalarAtFront(s);
      var rest := DecodeText(s[n..]);
      t := [ch] + rest;
      assert t[1..] == rest;
      EncodeFirst(t);
      assert s == s[..n] + s[n..];
    }
  }

  ghost predicate IsText(s: Bytes) { exists t: Text :: s == EncodeText(t) }

  /** A name is accepted exactly when it is the UTF-8 encoding of some text. */
  lemma ValidIffText(s: Bytes)
    ensures ValidUtf8(s) <==> IsText(s)
  {
    if ValidUtf8(s) { var t := DecodeText(s); }
    if IsText(s) {
      var t: Text :| s == EncodeText(t);
      EncodedIsValid(t);
    }
  }

  // ---------------------------------------------------------------- white space

  /** The White_Space property of the Unicode character database. */
  predicate White(ch: Scalar) {
    || 0x09 <= ch <= 0x0D || ch == 0x20 || ch == 0x85 || ch == 0xA0 || ch == 0x1680
    || 0x2000 <= ch <= 0x200A || ch == 0x2028 || ch == 0x2029 || ch == 0x202F || ch == 0x205F || ch == 0x3000
  }

  lemma SpaceIffWhite(ch: Scalar, s: Bytes)
    ensures SpaceAtStart(Encode(ch) + s) == if White(ch) then |Encode(ch)| else 0
    ensures SpaceAtEnd(s + Encode(ch)) == if White(ch) then |Encode(ch)| else 0
  {
    StartIffWhite(ch, s);
    EndIffWhite(ch, s);
  }

  lemma StartIffWhite(ch: Scalar, s: Bytes)
    ensures SpaceAtStart(Encode(ch) + s) == if White(ch) then |Encode(ch)| else 0
  {
    var b := Encode(ch) + s;
    assert forall i :: 0 <= i < |Encode(ch)| ==> b[i] == Encode(ch)[i];
  }

  lemma EndIffWhite(ch: Scalar, s: Bytes)
    ensures SpaceAtEnd(s + Encode(ch)) == if White(ch) then |Encode(ch)| else 0
  {
    var e := Encode(ch);
    var b, n := s + e, |e|;
    var k := |b|;
    assert b[k - 1] == e[n - 1];
    if n >= 2 {
      assert b[k - 2] == e[n - 2];
      if n >= 3 { assert b[k - 3] == e[n - 3]; }
    }
  }

  predicate AllWhite(t: Text) { forall i :: 0 <= i < |t| ==> White(t[i]) }

  predicate AllDots(t: Text) { forall i :: 0 <= i < |t| ==> t[i] == 0x2E }

  lemma NothingToTrim()
    ensures TrimStart([]) == [] && TrimEnd([]) == []
  {
  }

  lemma {:induction false} TrimStartText(t: Text) returns (lead: Text, rest: Text)
    ensures t == lead + rest && AllWhite(lead) && (rest != [] ==> !White(rest[0]))
    ensures TrimStart(EncodeText(t)) == EncodeText(rest)
    decreases |t|
  {
    hide Encode, SpaceAtStart, White;
    if t == [] {
      lead, rest := [], [];
      NothingToTrim();
    } else {
      var ch, after := t[0], t[1..];
      EncodeFirst(t);
      StartIffWhite(ch, EncodeText(after));
      if White(ch) {
        assert EncodeText(t)[|Encode(ch)|..] == EncodeText(after);
        lead, rest := TrimStartText(after);
        lead := [ch] + lead;
      } else {
        lead, rest := [], t;
      }
    }
  }

  lemma {:induction false} TrimEndText(t: Text) returns (rest: Text, trail: Text)
    ensures t == rest + trail && AllWhite(trail) && (rest != [] ==> !White(rest[|rest| - 1]))
    ensures TrimEnd(EncodeText(t)) == EncodeText(rest)
    decreases |t|
  {
    hide Encode, SpaceAtEnd, White;
    if t == [] {
      rest, trail := [], [];
      NothingToTrim();
    } else {
      var k := |t| - 1;
      EndIffWhite(t[k], EncodeText(t[..k]));
      if White(t[k]) {
        var s := EncodeText(t);
        assert s[..|s| - |Encode(t[k])|] == EncodeText(t[..k]);
        rest, trail := TrimEndText(t[..k]);
        trail := trail + [t[k]];
      } else {
        rest, trail := t, [];
      }
    }
  }

  lemma DotIffDot(ch: Scalar)
    ensures Encode(ch)[|Encode(ch)| - 1] == DOT <==> ch == 0x2E
  {
  }

  lemma NoText()
    ensures EncodeText([]) == []
  {
  }

  lemma LastByte(t: Text)
    requires t != []
    ensures var s := EncodeText(t);
            && s != [] && (s[|s| - 1] == DOT <==> t[|t| - 1] == 0x2E)
            && (t[|t| - 1] == 0x2E ==> s[..|s| - 1] == EncodeText(t[..|t| - 1]))
  {
    var k := |t| - 1;
    DotIffDot(t[k]);
    assert t[k] == 0x2E ==> |Encode(t[k])| == 1;
    hide Encode;
    var s := EncodeText(t);
    assert s[|s| - 1] == Encode(t[k])[|Encode(t[k])| - 1];
  }

  lemma {:induction false} TrimDotsText(t: Text) returns (rest: Text, dots: Text)
    ensures t == rest + dots && AllDots(dots) && (rest != [] ==> rest[|rest| - 1] != 0x2E)
    ensures TrimDots(EncodeText(t)) == EncodeText(rest)
    decreases |t|
  {
    hide Encode, EncodeText;
    if t == [] {
      rest, dots := [], [];
      assert EncodeText([]) == [] by { NoText(); }
    } else {
      var k, s := |t| - 1, EncodeText(t);
      LastByte(t);
      if t[k] == 0x2E {
        rest, dots := TrimDotsText(t[..k]);
        dots := dots + [t[k]];
      } else {
        rest, dots := t, [];
      }
    }
  }

  /**
   * Stripping a name cuts the outer white space and then the dots at the end, and nothing else. What is
   * left can end in white space: exactly when white space stands right before those dots.
   */
  lemma StripMeaning(t: Text) returns (lead: Text, core: Text, dots: Text, trail: Text)
    ensures t == lead + core + dots + trail && AllWhite(lead) && AllDots(dots) && AllWhite(trail)
    ensures core != [] ==> !White(core[0]) && core[|core| - 1] != 0x2E
    ensures core + dots != [] ==> !White((core + dots)[|core + dots| - 1])
    ensures Strip(EncodeText(t)) == EncodeText(core)
    ensures Bare(EncodeText(core)) <==> core == [] || !White(core[|core| - 1])
  {
    hide Encode, EncodeText, TrimStart, TrimEnd, TrimDots, White, Bare;
    var afterLead;
    lead, afterLead := TrimStartText(t);
    var beforeTrail;
    beforeTrail, trail := TrimEndText(afterLead);
    core, dots := TrimDotsText(beforeTrail);
    assert core != [] ==> core[0] == afterLead[0];
    BareText(core);
  }

  lemma BareText(t: Text)
    requires t != [] ==> !White(t[0]) && t[|t| - 1] != 0x2E
    ensures Bare(EncodeText(t)) <==> t == [] || !White(t[|t| - 1])
  {
    hide Encode, SpaceAtStart, SpaceAtEnd, White;
    if t == [] {
      BareNothing();
    } else {
      var k := |t| - 1;
      EndIffWhite(t[k], EncodeText(t[..k]));
      EncodeFirst(t);
      StartIffWhite(t[0], EncodeText(t[1..]));
      LastByte(t);
    }
  }

  lemma BareNothing()
    ensures Bare([])
  {
  }

  /** The smallest such name: `a .` is stripped to `a` and a blank. */
  lemma StripCanLeaveABlank()
    ensures Strip([0x61, 0x20, 0x2E]) == [0x61, 0x20] && !Bare(Strip([0x61, 0x20, 0x2E]))
  {
    var s: Bytes := [0x61, 0x20, 0x2E];
    assert TrimStart(s) == s && TrimEnd(s) == s;
    assert TrimDots(s) == TrimDots(s[..2]) && s[..2] == [0x61, 0x20];
  }
}
