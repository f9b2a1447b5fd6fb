/**
  * Traversal detection under repeated percent-decoding (frontend/server/path-safety.ts). Text is a sequence of
  * UTF-16 code units and decoding is ECMAScript's decodeURIComponent, which follows section 2.1 of RFC 3986.
  */
module PathSafety {

  import opened Options

  type Unit = x: int | 0 <= x < 0x1_0000
  type Text = seq<Unit>

  const PERCENT: Unit := 0x25
  const DOT: Unit := 0x2e
  const SLASH: Unit := 0x2f

  // --- decodeURIComponent ---

  function HexValue(c: Unit): Option<nat>
  {
    if 0x30 <= c <= 0x39 then Some(c - 0x30)
    else if 0x41 <= c <= 0x46 then Some(c - 0x41 + 10)
    else if 0x61 <= c <= 0x66 then Some(c - 0x61 + 10)
    else None
  }

  /** The octet an escape at the front of `s` denotes. */
  function Octet(s: Text): (r: Option<nat>)
    ensures r.Some? ==> |s| >= 3 && r.value < 0x100
  {
    if |s| < 3 || s[0] != PERCENT then None
    else
      var hi, lo := HexValue(s[1]), HexValue(s[2]);
      if hi.None? || lo.None? then None else Some(16 * hi.value + lo.value)
  }

  /** How many octets a UTF-8 sequence that starts with `b` has; 0 when none can start with it. */
  function SequenceLength(b: nat): nat
  {
    if b < 0x80 then 1 else if b < 0xC0 then 0 else if b < 0xE0 then 2 else if b < 0xF0 then 3 else if b < 0xF8 then 4 else 0
  }

  /** The payload of the continuation octet escaped at the front of `s`. */
  function Continuation(s: Text): (r: Option<nat>)
    ensures r.Some? ==> |s| >= 3 && r.value < 0x40
  {
    var b := Octet(s);
    if b.Some? && 0x80 <= b.value < 0xC0 then Some(b.value - 0x80) else None
  }

  /** The code point of the escaped UTF-8 sequence of n octets at the front of `s`; malformed, overlong and surrogate forms have none. */
  function CodePoint(s: Text, n: nat): (r: Option<nat>)
    requires 1 <= n <= 4
    ensures r.Some? ==> |s| >= 3 * n && r.value <= 0x10_FFFF && (n < 4 ==> r.value < 0x1_0000) && (n == 4 ==> r.value >= 0x1_0000)
  {
    var b := Octet(s);
    if b.None? || SequenceLength(b.value) != n then None
    else if n == 1 then Some(b.value)
    else
      var c1 := Continuation(s[3..]);
      if c1.None? then None
      else if n == 2 then
        var v := (b.value - 0xC0) * 0x40 + c1.value;
        if v >= 0x80 then Some(v) else None
      else
        var c2 := Continuation(s[6..]);
        if c2.None? then None
        else if n == 3 then
          var v := (b.value - 0xE0) * 0x1000 + c1.value * 0x40 + c2.value;
          if v >= 0x800 && !(0xD800 <= v <= 0xDFFF) then Some(v) else None
        else
          var c3 := Continuation(s[9..]);
          if c3.None? then None
          else
            var v := (b.value - 0xF0) * 0x4_0000 + c1.value * 0x1000 + c2.value * 0x40 + c3.value;
            if 0x1_0000 <= v <= 0x10_FFFF then Some(v) else None
  }

  function Utf16(v: nat): (r: Text)
    requires v <= 0x10_FFFF
    ensures |r| == if v < 0x1_0000 then 1 else 2
  {
    if v < 0x1_0000 then [v] else [0xD800 + (v - 0x1_0000) / 0x400, 0xDC00 + (v - 0x1_0000) % 0x400]
  }

  /** The escape sequence at the front of `s`: the units it stands for and how many units it takes. */
  function Escape(s: Text): (r: Option<(Text, nat)>)
    requires s != []
    ensures r.Some? ==> |r.value.0| < r.value.1 && 3 <= r.value.1 <= |s|
  {
    var b := Octet(s);
    if b.None? then None
    else
      var n := SequenceLength(b.value);
      if n == 0 then None
      else
        var v := CodePoint(s, n);
        if v.None? then None else Some((Utf16(v.value), 3 * n))
  }

  /** None where decodeURIComponent throws. */
  function Decode(s: Text): Option<Text>
    decreases |s|
  {
    if s == [] then Some([])
    else if s[0] != PERCENT then
      var rest := Decode(s[1..]);
      if rest.None? then None else Some([s[0]] + rest.value)
    else
      var e := Escape(s);
      if e.None? then None
      else
        var rest := Decode(s[e.value.1..]);
        if rest.None? then None else Some(e.value.0 + rest.value)
  }

  predicate HasEscapes(s: Text) { PERCENT in s }

  /** A text without escapes decodes to itself; one with escapes decodes, if at all, to a strictly shorter text. */
  lemma {:induction false} DecodeShrinks(s: Text)
    ensures !HasEscapes(s) ==> Decode(s) == Some(s)
    ensures HasEscapes(s) && Decode(s).Some? ==> |Decode(s).value| < |s|
    ensures Decode(s).Some? ==> |Decode(s).value| <= |s|
    decreases |s|
  {
    hide Escape;
    if s != [] {
      assert s == [s[0]] + s[1..];
      if s[0] != PERCENT {
        DecodeShrinks(s[1..]);
      } else if Escape(s).Some? {
        DecodeShrinks(s[Escape(s).value.1..]);
      }
    }
  }

  // --- What decoding does: it reads texts spelled from characters and escapes ---

  predicate IsScalar(v: nat) { v <= 0x10_FFFF && !(0xD800 <= v <= 0xDFFF) }

  /** The UTF-8 form of a scalar value. */
  function Utf8(v: nat): (bs: seq<nat>)
    requires IsScalar(v)
    ensures 1 <= |bs| <= 4 && forall i :: 0 <= i < |bs| ==> bs[i] < 0x100
  {
    if v < 0x80 then [v]
    else if v < 0x800 then [0xC0 + v / 0x40, 0x80 + v % 0x40]
    else if v < 0x1_0000 then [0xE0 + v / 0x1000, 0x80 + v / 0x40 % 0x40, 0x80 + v % 0x40]
    else [0xF0 + v / 0x4_0000, 0x80 + v / 0x1000 % 0x40, 0x80 + v / 0x40 % 0x40, 0x80 + v % 0x40]
  }

  /** The table of section 3 of RFC 3629: lead and continuation octets, the payload bits in order, no longer than needed. */
  lemma Utf8Means(v: nat)
    requires IsScalar(v)
    ensures var b := Utf8(v);
            match |b|
            case 1 => v == b[0] && b[0] < 0x80
            case 2 => v == (b[0] - 0xC0) * 0x40 + (b[1] - 0x80) && 0x80 <= v < 0x800
            case 3 => v == (b[0] - 0xE0) * 0x1000 + (b[1] - 0x80) * 0x40 + (b[2] - 0x80) && 0x800 <= v < 0x1_0000
            case _ =>
              && v == (b[0] - 0xF0) * 0x4_0000 + (b[1] - 0x80) * 0x1000 + (b[2] - 0x80) * 0x40 + (b[3] - 0x80)
              && 0x1_0000 <= v <= 0x10_FFFF
    ensures forall k :: 1 <= k < |Utf8(v)| ==> 0x80 <= Utf8(v)[k] < 0xC0
  {
    Split(v);
  }

  /** Section 2.1 of RFC 2781: a unit, or a high and a low surrogate with ten payload bits each. */
  lemma Utf16Means(v: nat)
    requires v <= 0x10_FFFF
    ensures var u := Utf16(v);
            if |u| == 1 then v == u[0] < 0x1_0000
            else && |u| == 2 && 0xD800 <= u[0] < 0xDC00 && 0xDC00 <= u[1] < 0xE000
                 && v == 0x1_0000 + (u[0] as int - 0xD800) * 0x400 + (u[1] as int - 0xDC00)
  {
  }

  /** c is the hexadecimal digit d, in either case. */
  predicate IsDigit(c: Unit, d: nat)
    requires d < 16
  {
    c == "0123456789ABCDEF"[d] as int || c == "0123456789abcdef"[d] as int
  }

  /** `%` and the two digits of the octet. */
  predicate SpellsOctet(t: Text, b: nat)
    requires b < 0x100
  {
    |t| == 3 && t[0] == '%' as int && IsDigit(t[1], b / 16) && IsDigit(t[2], b % 16)
  }

  /** One unit that stands for itself, or an escape: a scalar value and how its UTF-8 octets are spelled. */
  datatype Piece = Plain(unit: Unit) | Escaped(v: nat, spelling: Text)

  predicate PieceOk(p: Piece)
  {
    match p
    case Plain(unit) => unit != '%' as int
    case Escaped(v, t) =>
      && IsScalar(v) && |t| == 3 * |Utf8(v)|
      && forall k :: 0 <= k < |Utf8(v)| ==> SpellsOctet(t[3 * k..3 * k + 3], Utf8(v)[k])
  }

  function TextOf(ps: seq<Piece>): Text
  {
    if ps == [] then [] else (match ps[0] case Plain(unit) => [unit] case Escaped(_, t) => t) + TextOf(ps[1..])
  }

  function Meaning(ps: seq<Piece>): Text
    requires forall i :: 0 <= i < |ps| ==> PieceOk(ps[i])
  {
    if ps == [] then []
    else assert PieceOk(ps[0]); (match ps[0] case Plain(unit) => [unit] case Escaped(v, _) => Utf16(v)) + Meaning(ps[1..])
  }

  lemma HexValueIs(c: Unit, d: nat)
    requires d < 16
    ensures HexValue(c) == Some(d) <==> IsDigit(c, d)
  {
  }

  lemma HexValueSmall(c: Unit)
    ensures HexValue(c).Some? ==> HexValue(c).value < 16
  {
  }

  lemma OctetIs(s: Text, b: nat)
    requires b < 0x100
    ensures Octet(s) == Some(b) <==> |s| >= 3 && SpellsOctet(s[..3], b)
  {
    hide HexValue, IsDigit;
    if |s| >= 3 {
      HexValueIs(s[1], b / 16);
      HexValueIs(s[2], b % 16);
      HexValueSmall(s[1]);
      HexValueSmall(s[2]);
      assert s[..3][0] == s[0] && s[..3][1] == s[1] && s[..3][2] == s[2];
    }
  }

  /** A text whose leading escapes are the UTF-8 octets of v denotes v. */
  lemma CodePointOfUtf8(s: Text, v: nat)
    requires IsScalar(v) && |s| >= 3 * |Utf8(v)|
    requires forall k :: 0 <= k < |Utf8(v)| ==> Octet(s[3 * k..]) == Some(Utf8(v)[k])
    ensures Octet(s) == Some(Utf8(v)[0]) && SequenceLength(Utf8(v)[0]) == |Utf8(v)|
    ensures CodePoint(s, |Utf8(v)|) == Some(v)
  {
    hide Octet;
    var bs := Utf8(v);
    assert s[3 * 0..] == s;
    assert Octet(s[3 * 0..]) == Some(bs[0]);
    if |bs| > 1 { assert Octet(s[3 * 1..]) == Some(bs[1]); }
    if |bs| > 2 { assert Octet(s[3 * 2..]) == Some(bs[2]); }
    if |bs| > 3 { assert Octet(s[3 * 3..]) == Some(bs[3]); }
    Split(v);
  }

  lemma Split(v: nat)
    ensures v == v / 0x40 * 0x40 + v % 0x40
    ensures v == v / 0x1000 * 0x1000 + v / 0x40 % 0x40 * 0x40 + v % 0x40
    ensures v == v / 0x4_0000 * 0x4_0000 + v / 0x1000 % 0x40 * 0x1000 + v / 0x40 % 0x40 * 0x40 + v % 0x40
  {
    assert v / 0x1000 == v / 0x40 / 0x40;
    assert v / 0x4_0000 == v / 0x1000 / 0x40;
  }

  lemma EscapeOfPiece(p: Piece, rest: Text)
    requires p.Escaped? && PieceOk(p)
    ensures var s := p.spelling + rest;
            && s != [] && s[0] == PERCENT && Escape(s) == Some((Utf16(p.v), |p.spelling|)) && s[|p.spelling|..] == rest
  {
    hide Octet, Utf8, CodePoint, Utf16, SpellsOctet;
    var bs := Utf8(p.v);
    var s := p.spelling + rest;
    forall k | 0 <= k < |bs|
      ensures Octet(s[3 * k..]) == Some(bs[k])
    {
      assert s[3 * k..][..3] == p.spelling[3 * k..3 * k + 3];
      OctetIs(s[3 * k..], bs[k]);
    }
    CodePointOfUtf8(s, p.v);
    OctetStartsWithPercent(s);
  }

  lemma OctetStartsWithPercent(s: Text)
    requires Octet(s).Some?
    ensures s[0] == PERCENT
  {
  }

  lemma Utf8OfTwo(b: nat, c1: nat)
    requires 0xC0 <= b < 0xE0 && c1 < 0x40 && (b - 0xC0) * 0x40 + c1 >= 0x80
    ensures var v := (b - 0xC0) * 0x40 + c1; IsScalar(v) && Utf8(v) == [b, 0x80 + c1]
  {
  }

  lemma Utf8OfThree(b: nat, c1: nat, c2: nat)
    requires 0xE0 <= b < 0xF0 && c1 < 0x40 && c2 < 0x40
    ensures var v := (b - 0xE0) * 0x1000 + c1 * 0x40 + c2;
            v >= 0x800 && IsScalar(v) ==> Utf8(v) == [b, 0x80 + c1, 0x80 + c2]
  {
    var v := (b - 0xE0) * 0x1000 + c1 * 0x40 + c2;
    assert v / 0x1000 == b - 0xE0 && v / 0x40 == (b - 0xE0) * 0x40 + c1 && v % 0x40 == c2;
  }

  lemma Utf8OfFour(b: nat, c1: nat, c2: nat, c3: nat)
    requires 0xF0 <= b < 0xF8 && c1 < 0x40 && c2 < 0x40 && c3 < 0x40
    ensures var v := (b - 0xF0) * 0x4_0000 + c1 * 0x1000 + c2 * 0x40 + c3;
            0x1_0000 <= v <= 0x10_FFFF ==> Utf8(v) == [b, 0x80 + c1, 0x80 + c2, 0x80 + c3]
  {
    var v := (b - 0xF0) * 0x4_0000 + c1 * 0x1000 + c2 * 0x40 + c3;
    assert v / 0x4_0000 == b - 0xF0 && v / 0x1000 == (b - 0xF0) * 0x40 + c1;
    assert v / 0x40 == (b - 0xF0) * 0x1000 + c1 * 0x40 + c2 && v % 0x40 == c3;
  }

  /** A code point read from escapes is a scalar value, and the escapes are those of its UTF-8 form and no longer one. */
  lemma CodePointIsUtf8(s: Text, n: nat)
    requires 1 <= n <= 4 && CodePoint(s, n).Some?
    ensures var v := CodePoint(s, n).value;
            && IsScalar(v) && |Utf8(v)| == n && |s| >= 3 * n
            && forall k :: 0 <= k < n ==> Octet(s[3 * k..]) == Some(Utf8(v)[k])
  {
    hide Octet, Utf8;
    var v, b := CodePoint(s, n).value, Octet(s).value;
    assert s[3 * 0..] == s;
    if n == 1 {
      assert Utf8(v) == [b] by { OneOctet(b); }
    } else {
      var c1 := Continuation(s[3..]).value;
      if n == 2 {
        Utf8OfTwo(b, c1);
      } else {
        var c2 := Continuation(s[6..]).value;
        if n == 3 {
          Utf8OfThree(b, c1, c2);
        } else {
          Utf8OfFour(b, c1, c2, Continuation(s[9..]).value);
        }
      }
    }
    forall k | 0 <= k < n
      ensures Octet(s[3 * k..]) == Some(Utf8(v)[k])
    {
      assert k == 0 || k == 1 || k == 2 || k == 3;
    }
  }

  lemma OneOctet(b: nat)
    requires b < 0x80
    ensures Utf8(b) == [b]
  {
  }

  lemma PieceOfEscape(s: Text) returns (p: Piece)
    requires s != [] && Escape(s).Some?
    ensures p.Escaped? && PieceOk(p) && p.spelling == s[..Escape(s).value.1] && Utf16(p.v) == Escape(s).value.0
  {
    hide Octet, Utf8, CodePoint, Utf16, SpellsOctet;
    var n := SequenceLength(Octet(s).value);
    var v := CodePoint(s, n).value;
    CodePointIsUtf8(s, n);
    var t := s[..3 * n];
    forall k | 0 <= k < n
      ensures SpellsOctet(t[3 * k..3 * k + 3], Utf8(v)[k])
    {
      OctetIs(s[3 * k..], Utf8(v)[k]);
      assert s[3 * k..][..3] == t[3 * k..3 * k + 3];
    }
    p := Escaped(v, t);
  }

  predicate AllOk(ps: seq<Piece>) { forall i :: 0 <= i < |ps| ==> PieceOk(ps[i]) }

  /** Every text spelled from pieces decodes to what the pieces mean, whatever the case of their digits. */
  lemma {:induction false} DecodeUndoesEncode(ps: seq<Piece>)
    requires AllOk(ps)
    ensures Decode(TextOf(ps)) == Some(Meaning(ps))
  {
    if ps != [] {
      hide Escape, PieceOk, Utf16;
      var rest := TextOf(ps[1..]);
      DecodeUndoesEncode(ps[1..]);
      if ps[0].Plain? {
        PlainIsNoPercent(ps[0]);
        assert ([ps[0].unit] + rest)[1..] == rest;
      } else {
        EscapeOfPiece(ps[0], rest);
      }
    }
  }

  lemma PlainIsNoPercent(p: Piece)
    requires p.Plain? && PieceOk(p)
    ensures p.unit != PERCENT
  {
  }

  /** And a text that decodes is spelled from pieces. */
  lemma {:induction false} DecodableIsSpelled(s: Text) returns (ps: seq<Piece>)
    requires Decode(s).Some?
    ensures AllOk(ps) && TextOf(ps) == s && Meaning(ps) == Decode(s).value
    decreases |s|
  {
    hide Escape, Utf16;
    if s == [] {
      ps := [];
    } else if s[0] != PERCENT {
      var rest := DecodableIsSpelled(s[1..]);
      ps := [Plain(s[0])] + rest;
      assert ps[1..] == rest && s == [s[0]] + s[1..];
    } else {
      var n := Escape(s).value.1;
      var rest := DecodableIsSpelled(s[n..]);
      var p := PieceOfEscape(s);
      hide PieceOk;
      ps := [p] + rest;
      assert ps[1..] == rest && s == s[..n] + s[n..];
    }
  }

  /** decodeURIComponent, exactly: r is what s means when it is read as characters and escapes; other texts have no reading. */
  lemma DecodeIff(s: Text, r: Text)
    ensures Decode(s) == Some(r) <==> exists ps :: AllOk(ps) && TextOf(ps) == s && Meaning(ps) == r
  {
    hide Decode, PieceOk, TextOf, Meaning;
    if Decode(s) == Some(r) {
      var ps := DecodableIsSpelled(s);
    }
    forall ps | AllOk(ps) && TextOf(ps) == s && Meaning(ps) == r
      ensures Decode(s) == Some(r)
    {
      DecodeUndoesEncode(ps);
    }
  }

  // --- Repeated decoding ---

  /** The text after n decodings. */
  function Decoded(p: Text, n: nat): Option<Text>
  {
    if n == 0 then Some(p)
    else
      var prev := Decoded(p, n - 1);
      if prev.None? then None else Decode(prev.value)
  }

  /** Once a decoding changes nothing, no further one does. */
  lemma {:induction false} Settled(p: Text, k: nat, n: nat)
    requires k <= n && Decoded(p, k).Some? && Decode(Decoded(p, k).value) == Decoded(p, k)
    ensures Decoded(p, n) == Decoded(p, k)
  {
    if k < n { Settled(p, k, n - 1); }
  }

  lemma {:induction false} UndefinedStays(p: Text, k: nat, n: nat)
    requires k <= n && Decoded(p, k).None?
    ensures Decoded(p, n).None?
  {
    if k < n { UndefinedStays(p, k, n - 1); }
  }

  /** Repeated decoding always ends: after as many passes as the text is long it is undefined or free of escapes. */
  lemma {:induction false} DecodingEnds(p: Text, n: nat)
    ensures Decoded(p, n).Some? && HasEscapes(Decoded(p, n).value) ==> |Decoded(p, n).value| + n <= |p|
    ensures n >= |p| && Decoded(p, n).Some? ==> !HasEscapes(Decoded(p, n).value)
  {
    hide Decode;
    if n > 0 {
      DecodingEnds(p, n - 1);
      if Decoded(p, n - 1).Some? { DecodeShrinks(Decoded(p, n - 1).value); }
    }
  }

  // --- The guard ---

  predicate IsEOrF(c: Unit) { c == 0x45 || c == 0x46 || c == 0x65 || c == 0x66 }

  /** The pattern: `..`, `//`, `%2e` or `%2f`, in either case, anywhere. */
  predicate BadAt(s: Text, i: nat)
  {
    || (i + 1 < |s| && s[i] == DOT && s[i + 1] == DOT)
    || (i + 1 < |s| && s[i] == SLASH && s[i + 1] == SLASH)
    || (i + 2 < |s| && s[i] == PERCENT && s[i + 1] == 0x32 && IsEOrF(s[i + 2]))
  }

  predicate Bad(s: Text) { exists i :: 0 <= i < |s| && BadAt(s, i) }

  const MAX_DECODE_PASSES: nat := 8

  /** The word stands somewhere in the text. */
  ghost predicate Contains(s: Text, word: string)
  {
    exists i :: 0 <= i <= |s| - |word| && StandsAt(s, i, word)
  }

  predicate StandsAt(s: Text, i: nat, word: string)
    requires i + |word| <= |s|
  {
    forall k :: 0 <= k < |word| ==> s[i + k] == word[k] as int
  }

  ghost predicate Unsafe(s: Text)
  {
    || Contains(s, "..") || Contains(s, "//")
    || Contains(s, "%2e") || Contains(s, "%2E") || Contains(s, "%2f") || Contains(s, "%2F")
  }

  lemma BadIsUnsafe(s: Text)
    ensures Bad(s) <==> Unsafe(s)
  {
    if Bad(s) {
      var i :| 0 <= i < |s| && BadAt(s, i);
      BadStands(s, i);
    }
    if Unsafe(s) {
      UnsafeIsBad(s);
    }
  }

  lemma BadStands(s: Text, i: nat)
    requires i < |s| && BadAt(s, i)
    ensures Unsafe(s)
  {
    if i + 1 < |s| && s[i] == DOT && s[i + 1] == DOT {
      assert StandsAt(s, i, "..");
    } else if i + 1 < |s| && s[i] == SLASH && s[i + 1] == SLASH {
      assert StandsAt(s, i, "//");
    } else {
      assert StandsAt(s, i, "%2e") || StandsAt(s, i, "%2E") || StandsAt(s, i, "%2f") || StandsAt(s, i, "%2F");
    }
  }

  lemma Stands2(s: Text, i: nat, w: string)
    requires |w| == 2 && i + 2 <= |s| && StandsAt(s, i, w)
    ensures s[i] == w[0] as int && s[i + 1] == w[1] as int
  {
    assert s[i + 0] == w[0] as int;
  }

  lemma Stands3(s: Text, i: nat, w: string)
    requires |w| == 3 && i + 3 <= |s| && StandsAt(s, i, w)
    ensures s[i] == w[0] as int && s[i + 1] == w[1] as int && s[i + 2] == w[2] as int
  {
    assert s[i + 0] == w[0] as int;
  }

  lemma PairIsBad(s: Text, w: string)
    requires (w == ".." || w == "//") && Contains(s, w)
    ensures Bad(s)
  {
    var i :| 0 <= i <= |s| - |w| && StandsAt(s, i, w);
    Stands2(s, i, w);
    assert BadAt(s, i);
  }

  lemma EscapeIsBad(s: Text, w: string)
    requires (w == "%2e" || w == "%2E" || w == "%2f" || w == "%2F") && Contains(s, w)
    ensures Bad(s)
  {
    var i :| 0 <= i <= |s| - |w| && StandsAt(s, i, w);
    Stands3(s, i, w);
    assert BadAt(s, i);
  }

  lemma UnsafeIsBad(s: Text)
    requires Unsafe(s)
    ensures Bad(s)
  {
    hide Contains, Bad;
    if Contains(s, "..") {
      PairIsBad(s, "..");
    } else if Contains(s, "//") {
      PairIsBad(s, "//");
    } else if Contains(s, "%2e") {
      EscapeIsBad(s, "%2e");
    } else if Contains(s, "%2E") {
      EscapeIsBad(s, "%2E");
    } else if Contains(s, "%2f") {
      EscapeIsBad(s, "%2f");
    } else {
      EscapeIsBad(s, "%2F");
    }
  }

  /** The forms are the successive decodings from the raw text on, and no decoding gives any other. */
  ghost predicate AllForms(p: Text, forms: seq<Text>)
  {
    && |forms| >= 1
    && (forall j :: 0 <= j < |forms| ==> Decoded(p, j) == Some(forms[j]))
    && (forall n: nat :: Decoded(p, n).Some? && Decoded(p, n).value in forms)
    && |forms| <= MAX_DECODE_PASSES + 1 && Decode(forms[|forms| - 1]) == Some(forms[|forms| - 1])
  }

  /** Some pass within the bound throws, or escapes are left after the last one. */
  ghost predicate Irreducible(p: Text)
  {
    Decoded(p, 8).None? || '%' as int in Decoded(p, 8).value
  }

  lemma FormsComplete(p: Text, forms: seq<Text>)
    requires 1 <= |forms| <= MAX_DECODE_PASSES + 1
    requires forall j :: 0 <= j < |forms| ==> Decoded(p, j) == Some(forms[j])
    requires Decode(forms[|forms| - 1]) == Some(forms[|forms| - 1])
    ensures AllForms(p, forms)
  {
    var k := |forms| - 1;
    forall n: nat
      ensures Decoded(p, n).Some? && Decoded(p, n).value in forms
    {
      if n >= k { Settled(p, k, n); }
    }
  }

  /** Up to eight decodings, kept with the raw text; None when the path cannot be fully reduced. */
  method DecodedForms(p: Text) returns (r: Option<seq<Text>>)
    ensures r.Some? ==> AllForms(p, r.value)
    ensures r.None? ==> Irreducible(p)
  {
    hide Decode, AllForms;
    var forms := [p];
    var current := p;
    for i := 0 to MAX_DECODE_PASSES
      invariant |forms| == i + 1 && current == forms[i]
      invariant forall j :: 0 <= j < |forms| ==> Decoded(p, j) == Some(forms[j])
    {
      if PERCENT !in current {
        DecodeShrinks(current);
        FormsComplete(p, forms);
        return Some(forms);
      }
      var next := Decode(current);
      if next.None? {
        assert Decoded(p, i + 1).None?;
        UndefinedStays(p, i + 1, MAX_DECODE_PASSES);
        return None;
      }
      if next.value == current {
        FormsComplete(p, forms);
        return Some(forms);
      }
      forms := forms + [next.value];
      current := next.value;
    }
    if PERCENT in current { return None; }
    DecodeShrinks(current);
    FormsComplete(p, forms);
    return Some(forms);
  }

  /** Every decoding, however often repeated, is defined and free of the pattern. */
  ghost predicate SafeForever(p: Text)
  {
    forall n: nat :: Decoded(p, n).Some? && !Unsafe(Decoded(p, n).value)
  }

  /**
    * A path is let through if and only if every repeated decoding of it is defined and contains none of `..`,
    * `//`, `%2e` and `%2f`, and eight passes leave no escape.
    */
  method HasTraversal(p: Text) returns (unsafe: bool)
    ensures !unsafe <==> SafeForever(p) && !Irreducible(p)
  {
    hide Decode, Bad, Unsafe;
    var forms := DecodedForms(p);
    if forms.None? { return true; }
    unsafe := exists j :: 0 <= j < |forms.value| && Bad(forms.value[j]);
    ReducibleForms(p, forms.value);
    if unsafe {
      var j :| 0 <= j < |forms.value| && Bad(forms.value[j]);
      BadIsUnsafe(Decoded(p, j).value);
    } else {
      forall n: nat
        ensures Decoded(p, n).Some? && !Unsafe(Decoded(p, n).value)
      {
        assert Decoded(p, n).value in forms.value;
        BadIsUnsafe(Decoded(p, n).value);
      }
    }
  }

  lemma ReducibleForms(p: Text, forms: seq<Text>)
    requires AllForms(p, forms)
    ensures !Irreducible(p)
  {
    DecodeShrinks(forms[|forms| - 1]);
    Settled(p, |forms| - 1, MAX_DECODE_PASSES);
  }
}
