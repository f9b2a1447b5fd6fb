/** The key line of a YAML map, as the masking regular expression recognizes it (frontend/lib/secret-yaml-mask.ts). */
module KeyLine {

  import opened Options

  /** ECMAScript's \s, which `trim` strips too. */
  predicate IsSpace(c: char)
  {
    var u := c as int;
    || 0x09 <= u <= 0x0d || u == 0x20 || u == 0xa0 || u == 0x1680 || 0x2000 <= u <= 0x200a
    || u == 0x2028 || u == 0x2029 || u == 0x202f || u == 0x205f || u == 0x3000 || u == 0xfeff
  }

  /** What `.` does not match. */
  predicate IsLineEnd(c: char) { c == '\n' || c == '\r' || c as int == 0x2028 || c as int == 0x2029 }

  // --- The three alternatives of the key group, as grammars over line[i..e] ---

  /** `(?:[^"\\]|\\.)*` over line[j..e] */
  predicate DoubleBody(line: string, j: nat, e: nat)
    requires e <= |line|
    decreases |line| - j
  {
    || j == e
    || (j < e && line[j] != '"' && line[j] != '\\' && DoubleBody(line, j + 1, e))
    || (j + 1 < e && line[j] == '\\' && !IsLineEnd(line[j + 1]) && DoubleBody(line, j + 2, e))
  }

  predicate IsDouble(line: string, i: nat, e: nat)
    requires e <= |line|
  {
    i + 1 < e && line[i] == '"' && line[e - 1] == '"' && DoubleBody(line, i + 1, e - 1)
  }

  /** In a double-quoted key a backslash takes any character after it but the four that end a line. */
  lemma EscapedCharIff(c: char)
    ensures IsDouble(['"', '\\', c, '"'], 0, 4) <==> c !in {'\n', '\r', '\U{2028}', '\U{2029}'}
  {
    var line := ['"', '\\', c, '"'];
    assert DoubleBody(line, 3, 3);
    assert DoubleBody(line, 1, 3) <==> !IsLineEnd(line[2]);
  }

  /** `(?:[^']|'')*` over line[j..e] */
  predicate SingleBody(line: string, j: nat, e: nat)
    requires e <= |line|
    decreases |line| - j
  {
    || j == e
    || (j < e && line[j] != '\'' && SingleBody(line, j + 1, e))
    || (j + 1 < e && line[j] == '\'' && line[j + 1] == '\'' && SingleBody(line, j + 2, e))
  }

  predicate IsSingle(line: string, i: nat, e: nat)
    requires e <= |line|
  {
    i + 1 < e && line[i] == '\'' && line[e - 1] == '\'' && SingleBody(line, i + 1, e - 1)
  }

  /** `[^:\s][^:]*?` */
  predicate IsPlain(line: string, i: nat, e: nat)
    requires e <= |line|
  {
    i < e && !IsSpace(line[i]) && forall k :: i <= k < e ==> line[k] != ':'
  }

  /** `:(?:\s|$)` */
  predicate EndsKey(line: string, e: nat) { e < |line| && line[e] == ':' && (e + 1 == |line| || IsSpace(line[e + 1])) }

  // --- Scanning ---

  datatype Scan = Closed(end: nat) | Open | Dead

  /** From inside a double-quoted scalar: where it closes, whether the text ends first, or whether an escape breaks it. */
  function ScanDouble(line: string, j: nat): (r: Scan)
    ensures r.Closed? ==> j < r.end <= |line|
    decreases |line| - j
  {
    if j >= |line| then Open
    else if line[j] == '"' then Closed(j + 1)
    else if line[j] == '\\' then
      if j + 1 >= |line| then Open
      else if IsLineEnd(line[j + 1]) then Dead
      else ScanDouble(line, j + 2)
    else ScanDouble(line, j + 1)
  }

  function ScanSingle(line: string, j: nat): (r: Scan)
    ensures r.Closed? ==> j < r.end <= |line|
    decreases |line| - j
  {
    if j >= |line| then Open
    else if line[j] != '\'' then ScanSingle(line, j + 1)
    else if j + 1 < |line| && line[j + 1] == '\'' then ScanSingle(line, j + 2)
    else Closed(j + 1)
  }

  function FirstColon(line: string, j: nat): (k: nat)
    requires j <= |line|
    ensures j <= k <= |line| && (k < |line| ==> line[k] == ':') && forall m :: j <= m < k ==> line[m] != ':'
    decreases |line| - j
  {
    if j == |line| || line[j] == ':' then j else FirstColon(line, j + 1)
  }

  /** Where the key that starts at i ends, if the line is a key line. */
  function KeyEnd(line: string, i: nat): Option<nat>
  {
    if i >= |line| || IsSpace(line[i]) then None
    else
      var quoted := if line[i] == '"' then ScanDouble(line, i + 1)
                    else if line[i] == '\'' then ScanSingle(line, i + 1) else Dead;
      if quoted.Closed? && EndsKey(line, quoted.end) then Some(quoted.end)
      else
        var k := FirstColon(line, i);
        if k > i && EndsKey(line, k) then Some(k) else None
  }

  // --- The scan is the regular expression ---

  lemma {:induction false} DoubleIsScan(line: string, j: nat, e: nat)
    requires e < |line| && line[e] == '"'
    ensures DoubleBody(line, j, e) ==> ScanDouble(line, j) == Closed(e + 1)
    decreases |line| - j
  {
    if j < e && DoubleBody(line, j, e) {
      if line[j] == '\\' { DoubleIsScan(line, j + 2, e); } else { DoubleIsScan(line, j + 1, e); }
    }
  }

  lemma {:induction false} ScanIsDouble(line: string, j: nat)
    ensures ScanDouble(line, j).Closed? ==>
              var e := ScanDouble(line, j).end - 1; line[e] == '"' && DoubleBody(line, j, e)
    decreases |line| - j
  {
    if j < |line| && line[j] != '"' {
      if line[j] == '\\' { ScanIsDouble(line, j + 2); } else { ScanIsDouble(line, j + 1); }
    }
  }

  lemma {:induction false} SingleIsScan(line: string, j: nat, e: nat)
    requires e < |line| && line[e] == '\'' && (e + 1 == |line| || line[e + 1] != '\'')
    ensures SingleBody(line, j, e) ==> ScanSingle(line, j) == Closed(e + 1)
    decreases |line| - j
  {
    if j < e && SingleBody(line, j, e) {
      if line[j] == '\'' { SingleIsScan(line, j + 2, e); } else { SingleIsScan(line, j + 1, e); }
    }
  }

  lemma {:induction false} ScanIsSingle(line: string, j: nat)
    ensures ScanSingle(line, j).Closed? ==>
              var e := ScanSingle(line, j).end - 1; line[e] == '\'' && SingleBody(line, j, e)
    decreases |line| - j
  {
    if j < |line| {
      if line[j] != '\'' { ScanIsSingle(line, j + 1); }
      else if j + 1 < |line| && line[j + 1] == '\'' { ScanIsSingle(line, j + 2); }
    }
  }

  /** Each alternative, followed by the colon. */
  predicate DoubleKey(line: string, i: nat, e: nat) { e <= |line| && IsDouble(line, i, e) && EndsKey(line, e) }

  predicate SingleKey(line: string, i: nat, e: nat) { e <= |line| && IsSingle(line, i, e) && EndsKey(line, e) }

  predicate PlainKey(line: string, i: nat, e: nat) { e <= |line| && IsPlain(line, i, e) && EndsKey(line, e) }

  /** The leftmost alternative with a match wins. */
  ghost predicate Matches(line: string, i: nat, e: nat)
  {
    || DoubleKey(line, i, e)
    || (!(exists x :: DoubleKey(line, i, x)) && SingleKey(line, i, e))
    || (!(exists x :: DoubleKey(line, i, x)) && !(exists x :: SingleKey(line, i, x)) && PlainKey(line, i, e))
  }

  lemma QuotedKeyIsScan(line: string, i: nat, e: nat)
    ensures DoubleKey(line, i, e) <==>
              i < |line| && line[i] == '"' && ScanDouble(line, i + 1) == Closed(e) && EndsKey(line, e)
    ensures SingleKey(line, i, e) <==>
              i < |line| && line[i] == '\'' && ScanSingle(line, i + 1) == Closed(e) && EndsKey(line, e)
  {
    hide DoubleBody, SingleBody, ScanDouble, ScanSingle;
    if i < |line| {
      ScanIsDouble(line, i + 1);
      ScanIsSingle(line, i + 1);
      if DoubleKey(line, i, e) { DoubleIsScan(line, i + 1, e - 1); }
      if SingleKey(line, i, e) { SingleIsScan(line, i + 1, e - 1); }
    }
  }

  lemma PlainKeyIsColon(line: string, i: nat, e: nat)
    ensures PlainKey(line, i, e) <==>
              i < |line| && !IsSpace(line[i]) && e > i && FirstColon(line, i) == e && EndsKey(line, e)
  {
    hide IsSpace;
  }

  /** `KeyEnd` is the regular expression's match, for every line and starting point. */
  lemma KeyEndIsMatch(line: string, i: nat, e: nat)
    ensures KeyEnd(line, i) == Some(e) <==> Matches(line, i, e)
  {
    hide DoubleKey, SingleKey, PlainKey, EndsKey, ScanDouble, ScanSingle, FirstColon, IsSpace;
    QuoteIsNoSpace();
    forall x
      ensures DoubleKey(line, i, x) <==> i < |line| && line[i] == '"' && ScanDouble(line, i + 1) == Closed(x) && EndsKey(line, x)
      ensures SingleKey(line, i, x) <==> i < |line| && line[i] == '\'' && ScanSingle(line, i + 1) == Closed(x) && EndsKey(line, x)
    {
      QuotedKeyIsScan(line, i, x);
    }
    PlainKeyIsColon(line, i, e);
  }

  lemma QuoteIsNoSpace()
    ensures !IsSpace('"') && !IsSpace('\'')
  {
  }

  // --- When the value cannot influence the key ---

  /** What may follow the key's colon. */
  predicate IsRest(rest: string) { rest == "" || IsSpace(rest[0]) }

  /** The key starts with a quote that is still open where the colon stands. */
  predicate OpenQuote(p: string, i: nat)
    requires i < |p|
  {
    (p[i] == '"' && ScanDouble(p, i + 1).Open?) || (p[i] == '\'' && ScanSingle(p, i + 1).Open?)
  }

  lemma {:induction false} ScanDoubleDecided(p: string, j: nat, rest: string)
    ensures !ScanDouble(p, j).Open? ==> ScanDouble(p + ":" + rest, j) == ScanDouble(p, j)
    decreases |p| - j
  {
    hide IsLineEnd;
    if j < |p| && p[j] != '"' {
      ScanDoubleDecided(p, if p[j] == '\\' then j + 2 else j + 1, rest);
    }
  }

  lemma {:induction false} ScanSingleDecided(p: string, j: nat, rest: string)
    ensures !ScanSingle(p, j).Open? ==> ScanSingle(p + ":" + rest, j) == ScanSingle(p, j)
    decreases |p| - j
  {
    if j < |p| {
      if p[j] != '\'' { ScanSingleDecided(p, j + 1, rest); }
      else if j + 1 < |p| && p[j + 1] == '\'' { ScanSingleDecided(p, j + 2, rest); }
    }
  }

  /** An open double quote goes on past the colon: a quote in the value closes it. */
  lemma {:induction false} ScanDoubleRunsOn(p: string, j: nat)
    requires j <= |p| && ScanDouble(p, j).Open?
    ensures ScanDouble(p + ": \":", j) == Closed(|p| + 3)
    decreases |p| - j
  {
    var line := p + ": \":";
    assert line[|p|] == ':' && line[|p| + 1] == ' ' && line[|p| + 2] == '"';
    assert ScanDouble(line, |p| + 1) == Closed(|p| + 3);
    if j < |p| && !(p[j] == '\\' && j + 1 == |p|) {
      ScanDoubleRunsOn(p, if p[j] == '\\' then j + 2 else j + 1);
    }
  }

  lemma {:induction false} ScanSingleRunsOn(p: string, j: nat)
    requires j <= |p| && ScanSingle(p, j).Open?
    ensures ScanSingle(p + ": ':", j) == Closed(|p| + 3)
    decreases |p| - j
  {
    var line := p + ": ':";
    assert line[|p|] == ':' && line[|p| + 1] == ' ' && line[|p| + 2] == '\'' && line[|p| + 3] == ':';
    assert ScanSingle(line, |p| + 1) == Closed(|p| + 3);
    if j < |p| {
      ScanSingleRunsOn(p, if p[j] == '\'' then j + 2 else j + 1);
    }
  }

  lemma {:induction false} FirstColonStays(p: string, i: nat, rest: string, rest': string)
    requires i <= |p|
    ensures FirstColon(p + ":" + rest, i) == FirstColon(p + ":" + rest', i)
    ensures FirstColon(p + ":" + rest, i) <= |p|
    decreases |p| - i
  {
    if i < |p| && p[i] != ':' { FirstColonStays(p, i + 1, rest, rest'); }
  }

  lemma EndsKeyBefore(p: string, e: nat, rest: string, rest': string)
    requires e <= |p| && IsRest(rest) && IsRest(rest')
    ensures EndsKey(p + ":" + rest, e) == EndsKey(p + ":" + rest', e)
    ensures e == |p| ==> EndsKey(p + ":" + rest, e)
  {
    var l, l' := p + ":" + rest, p + ":" + rest';
    assert l[|p|] == ':' && l'[|p|] == ':' && !IsSpace(':');
    if e == |p| {
      if rest != "" { assert l[|p| + 1] == rest[0]; }
      if rest' != "" { assert l'[|p| + 1] == rest'[0]; }
    }
  }

  lemma ClosedKeyIsStable(p: string, i: nat, rest: string, rest': string)
    requires i < |p| && IsRest(rest) && IsRest(rest') && KeyEnd(p + ":" + rest, i) == Some(|p|)
    requires !OpenQuote(p, i)
    ensures KeyEnd(p + ":" + rest', i) == Some(|p|)
  {
    hide ScanDouble, ScanSingle, FirstColon, EndsKey, IsSpace;
    ScanDoubleDecided(p, i + 1, rest);
    ScanDoubleDecided(p, i + 1, rest');
    ScanSingleDecided(p, i + 1, rest);
    ScanSingleDecided(p, i + 1, rest');
    FirstColonStays(p, i, rest, rest');
    EndsKeyBefore(p, FirstColon(p + ":" + rest, i), rest, rest');
    var quoted := if p[i] == '"' then ScanDouble(p, i + 1) else if p[i] == '\'' then ScanSingle(p, i + 1) else Dead;
    if quoted.Closed? { EndsKeyBefore(p, quoted.end, rest, rest'); }
  }

  lemma OpenKeyIsUnstable(p: string, i: nat)
    requires i < |p| && OpenQuote(p, i)
    ensures exists rest :: IsRest(rest) && KeyEnd(p + ":" + rest, i) == Some(|p| + 3)
  {
    QuoteIsNoSpace();
    if p[i] == '"' {
      ScanDoubleRunsOn(p, i + 1);
      var rest := " \":";
      assert p + ":" + rest == p + ": \":";
      assert IsRest(rest) && KeyEnd(p + ":" + rest, i) == Some(|p| + 3);
    } else {
      ScanSingleRunsOn(p, i + 1);
      var rest := " ':";
      assert p + ":" + rest == p + ": ':";
      assert IsRest(rest) && KeyEnd(p + ":" + rest, i) == Some(|p| + 3);
    }
  }

  // --- A value without quotes cannot move the key either ---

  lemma {:induction false} NoQuoteNoClose(line: string, j: nat)
    ensures (forall k :: j <= k < |line| ==> line[k] != '"') ==> !ScanDouble(line, j).Closed?
    ensures (forall k :: j <= k < |line| ==> line[k] != '\'') ==> !ScanSingle(line, j).Closed?
    decreases |line| - j
  {
    if j < |line| {
      NoQuoteNoClose(line, j + 1);
      if j + 1 < |line| { NoQuoteNoClose(line, j + 2); }
    }
  }

  lemma {:induction false} OpenDoubleStays(p: string, j: nat, q: string)
    requires ScanDouble(p, j).Open?
    ensures ScanDouble(p + ":" + q, j).Closed? ==> ScanDouble(p + ":" + q, j).end > |p| && '"' in q
    decreases |p| - j
  {
    var line := p + ":" + q;
    if j >= |p| {
      NoQuoteNoClose(line, j);
    } else if p[j] == '\\' {
      if j + 1 < |p| { OpenDoubleStays(p, j + 2, q); } else { NoQuoteNoClose(line, j + 2); }
    } else {
      OpenDoubleStays(p, j + 1, q);
    }
  }

  lemma {:induction false} OpenSingleStays(p: string, j: nat, q: string)
    requires ScanSingle(p, j).Open?
    ensures ScanSingle(p + ":" + q, j).Closed? ==> ScanSingle(p + ":" + q, j).end > |p| && '\'' in q
    decreases |p| - j
  {
    if j >= |p| {
      NoQuoteNoClose(p + ":" + q, j);
    } else if p[j] == '\'' {
      OpenSingleStays(p, j + 2, q);
    } else {
      OpenSingleStays(p, j + 1, q);
    }
  }

  /** Putting a value without quotes after a key leaves the key what it was, even a key with a quote left open. */
  lemma QuotelessKeyIsStable(p: string, i: nat, rest: string, q: string)
    requires i < |p| && IsRest(rest) && IsRest(q) && KeyEnd(p + ":" + rest, i) == Some(|p|)
    requires '"' !in q && '\'' !in q
    ensures KeyEnd(p + ":" + q, i) == Some(|p|)
  {
    hide IsSpace;
    if !OpenQuote(p, i) {
      ClosedKeyIsStable(p, i, rest, q);
    } else {
      if p[i] == '"' {
        OpenDoubleStays(p, i + 1, q);
        OpenDoubleStays(p, i + 1, rest);
      } else {
        OpenSingleStays(p, i + 1, q);
        OpenSingleStays(p, i + 1, rest);
      }
      FirstColonStays(p, i, rest, q);
      EndsKeyBefore(p, |p|, q, q);
    }
  }

  /**
    * Once a line is recognized as key `p` followed by a colon, no other value after the colon can change which
    * text counts as the key, if and only if the key does not start with a quote it leaves open.
    */
  lemma ValueCannotMoveKeyIff(p: string, i: nat, rest: string)
    requires i < |p| && IsRest(rest) && KeyEnd(p + ":" + rest, i) == Some(|p|)
    ensures (forall rest' :: IsRest(rest') ==> KeyEnd(p + ":" + rest', i) == Some(|p|)) <==> !OpenQuote(p, i)
  {
    hide KeyEnd, OpenQuote, IsRest;
    if OpenQuote(p, i) {
      OpenKeyIsUnstable(p, i);
    } else {
      forall rest' | IsRest(rest')
        ensures KeyEnd(p + ":" + rest', i) == Some(|p|)
      {
        ClosedKeyIsStable(p, i, rest, rest');
      }
    }
  }
}

/** Masking the values of a Secret's `data` and `stringData` maps. */
module SecretMask {
  import opened KeyLine
  import opened Options

  const MASK: string := "\U{2022}\U{2022}\U{2022}\U{2022}\U{2022}\U{2022}\U{2022}\U{2022}"

  // --- Lines ---

  function Split(s: string): (ls: seq<string>)
    ensures |ls| >= 1
  {
    if s == "" then [""]
    else
      var rest := Split(s[1..]);
      if s[0] == '\n' then [""] + rest else [[s[0]] + rest[0]] + rest[1..]
  }

  function Join(ls: seq<string>): string
  {
    if |ls| == 0 then "" else if |ls| == 1 then ls[0] else ls[0] + "\n" + Join(ls[1..])
  }

  lemma {:induction false} JoinOfSplit(s: string)
    ensures Join(Split(s)) == s
  {
    if s != "" {
      JoinOfSplit(s[1..]);
      var rest := Split(s[1..]);
      assert s == [s[0]] + s[1..];
      if s[0] == '\n' {
        assert ([""] + rest)[1..] == rest;
      } else {
        assert ([[s[0]] + rest[0]] + rest[1..])[1..] == rest[1..];
      }
    }
  }

  /** Leading white space. */
  function Indent(line: string): (n: nat)
    ensures n <= |line| && (forall k :: 0 <= k < n ==> IsSpace(line[k])) && (n < |line| ==> !IsSpace(line[n]))
  {
    if line == "" || !IsSpace(line[0]) then 0 else 1 + Indent(line[1..])
  }

  /** The trimmed text is empty, or starts with `#`. */
  predicate IsFiller(line: string) { Indent(line) == |line| || line[Indent(line)] == '#' }

  predicate AllSpaces(s: string) { forall k :: 0 <= k < |s| ==> IsSpace(s[k]) }

  /** The trimmed text starts with `? `: trimming keeps that space only if more follows. */
  predicate IsExplicitKey(line: string)
  {
    var i := Indent(line); i + 1 < |line| && line[i] == '?' && line[i + 1] == ' ' && !AllSpaces(line[i + 1..])
  }

  /** `stringData:` or `data:` alone on an unindented line. */
  predicate IsMapHeader(line: string)
  {
    ("stringData:" <= line && AllSpaces(line[11..])) || ("data:" <= line && AllSpaces(line[5..]))
  }

  // --- The mask ---

  datatype Context = Context(inMap: bool, keyIndent: int)

  const START: Context := Context(false, -1)

  function MaskKeyLine(line: string): seq<string>
    requires Indent(line) < |line|
  {
    var i := Indent(line);
    if IsExplicitKey(line) then [line]
    else if line[i] == ':' then [line[..i] + ": " + MASK]
    else
      var e := KeyEnd(line, i);
      if e.Some? && e.value <= |line| then [line[..e.value] + ": " + MASK] else []
  }

  /** What one line does to the context, and the lines it puts out: one or none. */
  function MaskLine(ctx: Context, line: string): (r: (Context, seq<string>))
  {
    if ctx.inMap && (Indent(line) > 0 || IsFiller(line)) then
      if IsFiller(line) then (ctx, [])
      else
        var ctx1 := if ctx.keyIndent < 0 then ctx.(keyIndent := Indent(line)) else ctx;
        (ctx1, if Indent(line) != ctx1.keyIndent then [] else MaskKeyLine(line))
    else
      var header := IsMapHeader(line);
      (Context(header, if header then -1 else ctx.keyIndent), [line])
  }

  function MaskLines(ctx: Context, ls: seq<string>): seq<string>
    decreases |ls|
  {
    if ls == [] then [] else MaskLine(ctx, ls[0]).1 + MaskLines(MaskLine(ctx, ls[0]).0, ls[1..])
  }

  function ContextAfter(ctx: Context, ls: seq<string>): Context
    decreases |ls|
  {
    if ls == [] then ctx else ContextAfter(MaskLine(ctx, ls[0]).0, ls[1..])
  }

  lemma MaskLinesAt(ctx: Context, ls: seq<string>, n: nat)
    requires n < |ls|
    ensures MaskLines(ctx, ls[n..]) == MaskLine(ctx, ls[n]).1 + MaskLines(MaskLine(ctx, ls[n]).0, ls[n + 1..])
  {
    hide MaskLine;
    assert ls[n..][0] == ls[n] && ls[n..][1..] == ls[n + 1..];
  }

  /** One turn of the line loop. */
  method MaskOne(inMap0: bool, keyIndent0: int, line: string) returns (inMap: bool, keyIndent: int, shown: seq<string>)
    ensures (Context(inMap, keyIndent), shown) == MaskLine(Context(inMap0, keyIndent0), line)
  {
    hide IsMapHeader, IsSpace, MaskKeyLine, IsFiller;
    inMap, keyIndent, shown := inMap0, keyIndent0, [];
    var indent := Indent(line);
    if inMap && (indent > 0 || IsFiller(line)) {
      if IsFiller(line) { return; }
      if keyIndent < 0 { keyIndent := indent; }
      if indent != keyIndent { return; }
      NotFiller(line);
      shown := MaskKeyLine(line);
      return;
    }
    inMap := IsMapHeader(line);
    if inMap { keyIndent := -1; }
    shown := [line];
  }

  lemma NotFiller(line: string)
    requires !IsFiller(line)
    ensures Indent(line) < |line|
  {
  }

  /** The line loop, with its two variables and its output list. */
  method MaskEach(lines: seq<string>) returns (out: seq<string>)
    ensures out == MaskLines(START, lines)
  {
    hide MaskLine;
    out := [];
    var inMap := false;
    var keyIndent: int := -1;
    assert lines[0..] == lines;
    for n := 0 to |lines|
      invariant out + MaskLines(Context(inMap, keyIndent), lines[n..]) == MaskLines(START, lines)
    {
      MaskLinesAt(Context(inMap, keyIndent), lines, n);
      var shown;
      inMap, keyIndent, shown := MaskOne(inMap, keyIndent, lines[n]);
      out := out + shown;
    }
    assert lines[|lines|..] == [];
  }

  method MaskSecretYaml(yaml: string) returns (masked: string)
    ensures masked == Join(MaskLines(START, Split(yaml)))
  {
    hide Join, MaskLines;
    var out := MaskEach(Split(yaml));
    masked := Join(out);
  }

  // --- Text outside the maps ---

  lemma {:induction false} MaskLinesConcat(ctx: Context, a: seq<string>, b: seq<string>)
    ensures MaskLines(ctx, a + b) == MaskLines(ctx, a) + MaskLines(ContextAfter(ctx, a), b)
    decreases |a|
  {
    hide MaskLine;
    if a == [] {
      assert a + b == b;
    } else {
      assert (a + b)[1..] == a[1..] + b;
      MaskLinesConcat(MaskLine(ctx, a[0]).0, a[1..], b);
    }
  }

  predicate IsTopLevel(line: string) { Indent(line) == 0 && !IsFiller(line) }

  /** Outside a map the remembered indent plays no part. */
  lemma {:induction false} IndentForgotten(ls: seq<string>, x: int, y: int)
    ensures MaskLines(Context(false, x), ls) == MaskLines(Context(false, y), ls)
    decreases |ls|
  {
    hide IsMapHeader, IsFiller, MaskKeyLine;
    if ls != [] && !IsMapHeader(ls[0]) { IndentForgotten(ls[1..], x, y); }
  }

  /** A top-level line ends whatever map came before: from there on the text is masked as if it stood alone. */
  lemma SectionsAreIndependent(ctx: Context, a: seq<string>, b: seq<string>)
    requires b != [] && IsTopLevel(b[0])
    ensures MaskLines(ctx, a + b) == MaskLines(ctx, a) + MaskLines(START, b)
  {
    hide IsMapHeader, IsFiller, MaskKeyLine;
    MaskLinesConcat(ctx, a, b);
    var c := ContextAfter(ctx, a);
    if !IsMapHeader(b[0]) { IndentForgotten(b[1..], c.keyIndent, -1); }
  }

  lemma {:induction false} NoHeaderLines(ls: seq<string>, keyIndent: int)
    requires forall k :: 0 <= k < |ls| ==> !IsMapHeader(ls[k])
    ensures MaskLines(Context(false, keyIndent), ls) == ls
    decreases |ls|
  {
    hide IsMapHeader, IsFiller, MaskKeyLine;
    if ls != [] { NoHeaderLines(ls[1..], keyIndent); }
  }

  /** A text without such a map comes out unchanged. */
  lemma NoMapNoChange(yaml: string)
    requires forall k :: 0 <= k < |Split(yaml)| ==> !IsMapHeader(Split(yaml)[k])
    ensures Join(MaskLines(START, Split(yaml))) == yaml
  {
    NoHeaderLines(Split(yaml), -1);
    JoinOfSplit(yaml);
  }

  // --- Noninterference ---

  /** A line of a map that is dropped whatever it says: filler, or at another indent than the map's keys. */
  predicate IsSwallowed(ctx: Context, line: string)
  {
    ctx.inMap && (IsFiller(line) || (ctx.keyIndent >= 0 && Indent(line) > 0 && Indent(line) != ctx.keyIndent))
  }

  /** A line of a map at the indent of its keys; the first one sets that indent. */
  predicate AtMapIndent(ctx: Context, line: string)
  {
    ctx.inMap && Indent(line) > 0 && !IsFiller(line) && (ctx.keyIndent < 0 || Indent(line) == ctx.keyIndent)
  }

  /** The same key before the colon, or the value line of an explicit key, or neither a key line. */
  predicate SameKey(a: string, b: string)
    requires !IsFiller(a) && !IsFiller(b)
  {
    var i, j := Indent(a), Indent(b);
    && a[..i] == b[..j] && !IsExplicitKey(a) && !IsExplicitKey(b)
    && (|| (a[i] == ':' && b[j] == ':')
        || (&& a[i] != ':' && b[j] != ':' && KeyEnd(a, i) == KeyEnd(b, j)
            && (KeyEnd(a, i).Some? ==> KeyEnd(a, i).value <= |a| && KeyEnd(a, i).value <= |b|
                                       && a[..KeyEnd(a, i).value] == b[..KeyEnd(a, i).value])))
  }

  /** Two lines that differ at most in what the mask is there to hide. */
  predicate Alike(ctx: Context, a: string, b: string)
  {
    || a == b
    || (IsSwallowed(ctx, a) && IsSwallowed(ctx, b))
    || (AtMapIndent(ctx, a) && AtMapIndent(ctx, b) && SameKey(a, b))
  }

  ghost predicate AllAlike(ctx: Context, a: seq<string>, b: seq<string>)
    decreases |a|
  {
    && |a| == |b|
    && (a != [] ==> Alike(ctx, a[0], b[0]) && AllAlike(MaskLine(ctx, a[0]).0, a[1..], b[1..]))
  }

  lemma AlikeMaskAlike(ctx: Context, a: string, b: string)
    requires Alike(ctx, a, b)
    ensures MaskLine(ctx, a) == MaskLine(ctx, b)
  {
    hide KeyEnd, IsSpace, IsMapHeader, IsExplicitKey, Indent;
    if a != b && AtMapIndent(ctx, a) {
      assert |a[..Indent(a)]| == Indent(a) && |b[..Indent(b)]| == Indent(b);
    }
  }

  /** Two texts that are alike line by line mask to the same output: nothing the mask hides can be told from it. */
  lemma {:induction false} Noninterference(ctx: Context, a: seq<string>, b: seq<string>)
    requires AllAlike(ctx, a, b)
    ensures MaskLines(ctx, a) == MaskLines(ctx, b)
    decreases |a|
  {
    if a != [] {
      hide Alike, MaskLine;
      AlikeMaskAlike(ctx, a[0], b[0]);
      Noninterference(MaskLine(ctx, a[0]).0, a[1..], b[1..]);
    }
  }

  /** A key line with another value after its colon is alike, unless its key leaves a quote open. */
  lemma OtherValueIsAlike(ctx: Context, p: string, rest: string, rest': string)
    requires AtMapIndent(ctx, p) && !IsExplicitKey(p + ":") && IsRest(rest) && IsRest(rest')
    requires KeyEnd(p + ":" + rest, Indent(p)) == Some(|p|) && !OpenQuote(p, Indent(p))
    ensures Alike(ctx, p + ":" + rest, p + ":" + rest')
  {
    var i := Indent(p);
    ClosedKeyIsStable(p, i, rest, rest');
    LineShape(p, rest);
    LineShape(p, rest');
    hide KeyEnd, IsExplicitKey, IsSpace;
  }

  lemma LineShape(p: string, rest: string)
    requires !IsFiller(p)
    ensures var line := p + ":" + rest;
            && Indent(line) == Indent(p) && !IsFiller(line) && line[..Indent(p)] == p[..Indent(p)] && line[..|p|] == p
            && line[Indent(p)] == p[Indent(p)] && (IsExplicitKey(line) <==> IsExplicitKey(p + ":"))
  {
    hide IsSpace, Indent, IsExplicitKey;
    var line := p + ":" + rest;
    assert line == p + (":" + rest);
    IndentOfPrefix(p, ":" + rest);
    ExplicitShape(p, rest);
    ExplicitShape(p, "");
    assert p + ":" + "" == p + ":";
  }

  /** A line with a colon in it is never blank after a `? `. */
  lemma ExplicitIs(line: string, i: nat, k: nat)
    requires Indent(line) == i < k < |line| && line[k] == ':'
    ensures IsExplicitKey(line) <==> line[i] == '?' && line[i + 1] == ' '
  {
    hide IsSpace, Indent, AllSpaces;
    ColonIsText(line, i + 1, k);
  }

  /** Whether a line is an explicit key shows before its colon. */
  lemma ExplicitShape(p: string, rest: string)
    requires Indent(p) < |p|
    ensures IsExplicitKey(p + ":" + rest) <==> Indent(p) + 1 < |p| && p[Indent(p)] == '?' && p[Indent(p) + 1] == ' '
  {
    hide IsSpace, Indent, IsExplicitKey;
    var line, i := p + ":" + rest, Indent(p);
    IndentOfPrefix(p, ":" + rest);
    assert line == p + (":" + rest);
    assert line[i] == p[i] && line[|p|] == ':' && (i + 1 < |p| ==> line[i + 1] == p[i + 1]);
    ExplicitIs(line, i, |p|);
  }

  lemma {:induction false} IndentOfPrefix(p: string, tail: string)
    requires Indent(p) < |p|
    ensures Indent(p + tail) == Indent(p)
  {
    if IsSpace(p[0]) {
      assert (p + tail)[1..] == p[1..] + tail;
      IndentOfPrefix(p[1..], tail);
    }
  }

  lemma ColonIsText(line: string, i: nat, k: nat)
    requires i <= k < |line| && line[k] == ':'
    ensures !AllSpaces(line[i..])
  {
    assert line[i..][k - i] == ':' && !IsSpace(':');
  }

  /** Changing the value of one key anywhere in a text leaves its masked form unchanged. */
  lemma ValueIsHidden(a: seq<string>, p: string, rest: string, rest': string, b: seq<string>)
    requires AtMapIndent(ContextAfter(START, a), p) && !IsExplicitKey(p + ":") && IsRest(rest) && IsRest(rest')
    requires KeyEnd(p + ":" + rest, Indent(p)) == Some(|p|) && !OpenQuote(p, Indent(p))
    ensures MaskLines(START, a + ([p + ":" + rest] + b)) == MaskLines(START, a + ([p + ":" + rest'] + b))
  {
    hide MaskLine, KeyEnd, Indent, IsExplicitKey, Alike, OpenQuote, IsRest;
    var ctx := ContextAfter(START, a);
    var l, l' := p + ":" + rest, p + ":" + rest';
    MaskLinesConcat(START, a, [l] + b);
    MaskLinesConcat(START, a, [l'] + b);
    OtherValueIsAlike(ctx, p, rest, rest');
    AlikeMaskAlike(ctx, l, l');
    assert ([l] + b)[1..] == b && ([l'] + b)[1..] == b;
  }

  /** What the mask shows of a key line: the key up to where the line's own text ends it. */
  lemma MaskShowsKey(ctx: Context, p: string, rest: string, e: nat)
    requires AtMapIndent(ctx, p) && !IsExplicitKey(p + ":") && e <= |p + ":" + rest|
    requires KeyEnd(p + ":" + rest, Indent(p)) == Some(e)
    ensures MaskLine(ctx, p + ":" + rest).1 == [(p + ":" + rest)[..e] + ": " + MASK]
  {
    LineShape(p, rest);
    assert (p + ":" + rest)[Indent(p)] != ':' by { KeyStartsPlain(p + ":" + rest, Indent(p), e); }
    hide KeyEnd, IsExplicitKey, IsSpace, Indent;
  }

  lemma KeyStartsPlain(line: string, i: nat, e: nat)
    requires KeyEnd(line, i) == Some(e)
    ensures i < |line| && line[i] != ':'
  {
    hide IsSpace;
  }

  /**
    * No other value of a key changes what the mask puts out for its line if and only if the key leaves no quote
    * open.
    */
  lemma LineIsHiddenIff(ctx: Context, p: string, rest: string)
    requires AtMapIndent(ctx, p) && !IsExplicitKey(p + ":") && IsRest(rest)
    requires KeyEnd(p + ":" + rest, Indent(p)) == Some(|p|)
    ensures (forall rest' :: IsRest(rest') ==> MaskLine(ctx, p + ":" + rest') == MaskLine(ctx, p + ":" + rest))
            <==> !OpenQuote(p, Indent(p))
    ensures OpenQuote(p, Indent(p)) ==>
              exists rest' :: IsRest(rest') && MaskLine(ctx, p + ":" + rest').1 != MaskLine(ctx, p + ":" + rest).1
                              && |MaskLine(ctx, p + ":" + rest').1| == |MaskLine(ctx, p + ":" + rest).1| == 1
                              && MaskLine(ctx, p + ":" + rest').0 == MaskLine(ctx, p + ":" + rest).0
  {
    hide KeyEnd, IsExplicitKey, IsSpace, Indent, IsRest, OpenQuote, MaskLine, Alike;
    if !OpenQuote(p, Indent(p)) {
      forall rest' | IsRest(rest')
        ensures MaskLine(ctx, p + ":" + rest') == MaskLine(ctx, p + ":" + rest)
      {
        OtherValueIsAlike(ctx, p, rest, rest');
        AlikeMaskAlike(ctx, p + ":" + rest, p + ":" + rest');
      }
    } else {
      OpenKeyIsUnstable(p, Indent(p));
      var rest' :| IsRest(rest') && KeyEnd(p + ":" + rest', Indent(p)) == Some(|p| + 3);
      assert |p| + 3 < |p + ":" + rest'| by { KeyEndShape(p + ":" + rest', Indent(p), |p| + 3); }
      MaskShowsKey(ctx, p, rest, |p|);
      MaskShowsKey(ctx, p, rest', |p| + 3);
      var x, x' := (p + ":" + rest)[..|p|] + ": " + MASK, (p + ":" + rest')[..|p| + 3] + ": " + MASK;
      assert |x| != |x'|;
      SameContext(ctx, p, rest, rest');
    }
  }

  lemma SameContext(ctx: Context, p: string, rest: string, rest': string)
    requires AtMapIndent(ctx, p)
    ensures MaskLine(ctx, p + ":" + rest').0 == MaskLine(ctx, p + ":" + rest).0
  {
    LineShape(p, rest);
    LineShape(p, rest');
    hide KeyEnd, IsExplicitKey, IsSpace, Indent, MaskKeyLine;
  }

  /**
    * The promise on whole texts: wherever a key line of a masked map stands, no other value of its key changes the
    * output if and only if the key leaves no quote open.
    */
  lemma ValueIsHiddenIff(a: seq<string>, p: string, rest: string, b: seq<string>)
    requires AtMapIndent(ContextAfter(START, a), p) && !IsExplicitKey(p + ":") && IsRest(rest)
    requires KeyEnd(p + ":" + rest, Indent(p)) == Some(|p|)
    ensures (forall rest' :: IsRest(rest') ==>
               MaskLines(START, a + ([p + ":" + rest'] + b)) == MaskLines(START, a + ([p + ":" + rest] + b)))
            <==> !OpenQuote(p, Indent(p))
  {
    hide MaskLine, MaskLines, KeyEnd, Indent, IsExplicitKey, OpenQuote, IsRest;
    var ctx := ContextAfter(START, a);
    if !OpenQuote(p, Indent(p)) {
      forall rest' | IsRest(rest')
        ensures MaskLines(START, a + ([p + ":" + rest'] + b)) == MaskLines(START, a + ([p + ":" + rest] + b))
      {
        ValueIsHidden(a, p, rest, rest', b);
      }
    } else {
      LineIsHiddenIff(ctx, p, rest);
      var rest' :| IsRest(rest') && MaskLine(ctx, p + ":" + rest').1 != MaskLine(ctx, p + ":" + rest).1
                   && |MaskLine(ctx, p + ":" + rest').1| == |MaskLine(ctx, p + ":" + rest).1| == 1
                   && MaskLine(ctx, p + ":" + rest').0 == MaskLine(ctx, p + ":" + rest).0;
      LineInText(a, p + ":" + rest, b);
      LineInText(a, p + ":" + rest', b);
      var n := |MaskLines(START, a)|;
      assert MaskLines(START, a + ([p + ":" + rest] + b))[n] == MaskLine(ctx, p + ":" + rest).1[0];
      assert MaskLines(START, a + ([p + ":" + rest'] + b))[n] == MaskLine(ctx, p + ":" + rest').1[0];
    }
  }

  lemma LineInText(a: seq<string>, line: string, b: seq<string>)
    ensures var r := MaskLine(ContextAfter(START, a), line);
            MaskLines(START, a + ([line] + b)) == MaskLines(START, a) + (r.1 + MaskLines(r.0, b))
  {
    hide MaskLine;
    MaskLinesConcat(START, a, [line] + b);
    assert ([line] + b)[1..] == b;
  }

  // --- The promise on texts, in terms of the text alone ---

  /** ECMAScript's white space and line terminators. */
  predicate IsWhite(c: char)
  {
    c as int in {0x09, 0x0a, 0x0b, 0x0c, 0x0d, 0x20, 0xa0, 0x1680, 0x2000, 0x2001, 0x2002, 0x2003, 0x2004, 0x2005, 0x2006,
                 0x2007, 0x2008, 0x2009, 0x200a, 0x2028, 0x2029, 0x202f, 0x205f, 0x3000, 0xfeff}
  }

  predicate Blank(s: string) { forall k :: 0 <= k < |s| ==> IsWhite(s[k]) }

  /** How many white characters a line starts with. */
  function Lead(line: string): nat { if line == "" || !IsWhite(line[0]) then 0 else 1 + Lead(line[1..]) }

  /** Nothing, or a comment, after the leading white space. */
  predicate IsComment(line: string) { Lead(line) >= |line| || line[Lead(line)] == '#' }

  /** A line that cannot end a map: indented, empty or a comment. */
  predicate StaysInside(line: string) { line == "" || IsWhite(line[0]) || line[0] == '#' }

  /** `data:` or `stringData:` at the margin, with nothing but white space after it. */
  predicate OpensMap(line: string)
  {
    || (|line| >= 5 && line[..5] == "data:" && Blank(line[5..]))
    || (|line| >= 11 && line[..11] == "stringData:" && Blank(line[11..]))
  }

  /** The indent of a map's keys: that of its first line that is no comment; -1 before there is one. */
  function KeyColumn(lines: seq<string>): int
  {
    if lines == [] then -1
    else
      var n := |lines| - 1;
      if KeyColumn(lines[..n]) >= 0 || IsComment(lines[n]) then KeyColumn(lines[..n]) else Lead(lines[n])
  }

  lemma WhiteIs(c: char)
    ensures IsWhite(c) <==> IsSpace(c)
  {
  }

  lemma {:induction false} LeadIs(line: string)
    ensures Lead(line) == Indent(line)
  {
    hide IsSpace, IsWhite;
    if line != "" {
      WhiteIs(line[0]);
      LeadIs(line[1..]);
    }
  }

  lemma BlankIs(s: string)
    ensures Blank(s) <==> AllSpaces(s)
  {
    hide IsSpace, IsWhite;
    forall k | 0 <= k < |s|
      ensures IsWhite(s[k]) <==> IsSpace(s[k])
    {
      WhiteIs(s[k]);
    }
  }

  lemma CommentIs(line: string)
    ensures IsComment(line) <==> IsFiller(line)
    ensures StaysInside(line) <==> Indent(line) > 0 || IsFiller(line)
  {
    hide IsSpace, IsWhite;
    LeadIs(line);
    if line != "" { WhiteIs(line[0]); }
  }

  lemma OpensMapIs(line: string)
    ensures OpensMap(line) <==> IsMapHeader(line)
  {
    hide AllSpaces, Blank;
    if |line| >= 5 { BlankIs(line[5..]); }
    if |line| >= 11 { BlankIs(line[11..]); }
    assert "data:" <= line <==> |line| >= 5 && line[..5] == "data:";
    assert "stringData:" <= line <==> |line| >= 11 && line[..11] == "stringData:";
  }

  lemma HeaderContext(ctx: Context, line: string)
    requires OpensMap(line)
    ensures MaskLine(ctx, line) == (Context(true, -1), [line])
  {
    OpensMapIs(line);
    hide OpensMap, IsMapHeader, IsSpace;
    assert line[0] == 'd' || line[0] == 's' by { HeaderStarts(line); }
    NotWhite(line);
  }

  lemma HeaderStarts(line: string)
    requires OpensMap(line)
    ensures line != "" && (line[0] == 'd' || line[0] == 's')
  {
    if |line| >= 5 && line[..5] == "data:" {
      assert line[0] == line[..5][0];
    } else {
      assert line[0] == line[..11][0];
    }
  }

  lemma NotWhite(line: string)
    requires line != "" && (line[0] == 'd' || line[0] == 's')
    ensures Indent(line) == 0 && !IsFiller(line)
  {
  }

  lemma InsideStep(column: int, line: string)
    requires column >= -1 && StaysInside(line)
    ensures MaskLine(Context(true, column), line).0 == Context(true, if column >= 0 || IsComment(line) then column else Lead(line))
  {
    CommentIs(line);
    LeadIs(line);
    hide IsSpace, IsWhite, Indent, Lead, IsFiller, IsComment, StaysInside;
  }

  /** After a header and lines that stay inside, the mask is in the map and knows its keys' indent. */
  lemma {:induction false} InsideMap(ctx: Context, header: string, between: seq<string>)
    requires OpensMap(header) && forall k :: 0 <= k < |between| ==> StaysInside(between[k])
    ensures KeyColumn(between) >= -1
    ensures ContextAfter(ctx, [header] + between) == Context(true, KeyColumn(between))
  {
    hide MaskLine, OpensMap, StaysInside, IsComment;
    var all := [header] + between;
    if between == [] {
      HeaderContext(ctx, header);
      assert all == [header] && all[1..] == [];
    } else {
      var n := |between| - 1;
      InsideMap(ctx, header, between[..n]);
      InsideStep(KeyColumn(between[..n]), between[n]);
      ContextSnoc(ctx, [header] + between[..n], between[n]);
      assert all == [header] + between[..n] + [between[n]];
    }
  }

  lemma {:induction false} ContextSnoc(ctx: Context, a: seq<string>, line: string)
    ensures ContextAfter(ctx, a + [line]) == MaskLine(ContextAfter(ctx, a), line).0
    decreases |a|
  {
    hide MaskLine;
    if a == [] {
      assert (a + [line])[1..] == [];
    } else {
      assert (a + [line])[1..] == a[1..] + [line];
      ContextSnoc(MaskLine(ctx, a[0]).0, a[1..], line);
    }
  }

  lemma {:induction false} ContextConcat(ctx: Context, a: seq<string>, b: seq<string>)
    ensures ContextAfter(ctx, a + b) == ContextAfter(ContextAfter(ctx, a), b)
    decreases |a|
  {
    hide MaskLine;
    if a == [] {
      assert a + b == b;
    } else {
      assert (a + b)[1..] == a[1..] + b;
      ContextConcat(MaskLine(ctx, a[0]).0, a[1..], b);
    }
  }

  /** A text with a map in it: what comes before, its header, lines of the map, one more line of it, what comes after. */
  function MapText(before: seq<string>, header: string, between: seq<string>, line: string, rest: seq<string>): seq<string>
  {
    before + ([header] + between) + ([line] + rest)
  }

  /** What the mask puts out for a text: the lines before, then what the one line shows, then the lines after. */
  lemma MapTextOutput(before: seq<string>, header: string, between: seq<string>, line: string, rest: seq<string>)
    requires OpensMap(header) && forall k :: 0 <= k < |between| ==> StaysInside(between[k])
    ensures var ctx := Context(true, KeyColumn(between));
            var r := MaskLine(ctx, line);
            MaskLines(START, MapText(before, header, between, line, rest))
            == MaskLines(START, before + ([header] + between)) + (r.1 + MaskLines(r.0, rest))
  {
    hide MaskLine, OpensMap, StaysInside;
    var a := before + ([header] + between);
    ContextConcat(START, before, [header] + between);
    InsideMap(ContextAfter(START, before), header, between);
    LineInText(a, line, rest);
  }

  /** The line `pad key: value` at the indent of the map's keys. */
  ghost predicate IsKeyLine(between: seq<string>, pad: string, key: string, value: string)
  {
    && pad != "" && Blank(pad) && key != "" && !IsWhite(key[0]) && key[0] != '#' && !("? " <= key)
    && (KeyColumn(between) < 0 || KeyColumn(between) == |pad|)
    && (value == "" || IsWhite(value[0]))
    && Matches(pad + key + ":" + value, |pad|, |pad| + |key|)
  }

  /** The key starts with a quote and does not close it. */
  predicate LeavesOpen(pad: string, key: string)
    requires key != ""
  {
    OpenQuote(pad + key, |pad|)
  }

  lemma KeyLineIs(between: seq<string>, pad: string, key: string, value: string)
    requires IsKeyLine(between, pad, key, value)
    ensures var p := pad + key;
            && AtMapIndent(Context(true, KeyColumn(between)), p) && !IsExplicitKey(p + ":") && IsRest(value)
            && Indent(p) == |pad| && KeyEnd(p + ":" + value, |pad|) == Some(|p|)
  {
    var p := pad + key;
    assert forall k :: 0 <= k < |pad| ==> p[k] == pad[k];
    assert p[|pad|] == key[0];
    assert Indent(p) == |pad| by { PadIndent(pad, key); }
    KeyEndIsMatch(p + ":" + value, |pad|, |p|);
    if value != "" { WhiteIs(value[0]); }
    hide KeyEnd, Matches, IsSpace, IsWhite, Indent, KeyColumn, IsExplicitKey;
    ExplicitShape(p, "");
    assert p + ":" + "" == p + ":";
    assert |pad| + 1 < |p| ==> p[|pad| + 1] == key[1];
  }

  lemma PadIndent(pad: string, key: string)
    requires Blank(pad) && key != "" && !IsWhite(key[0])
    ensures Indent(pad + key) == |pad|
  {
    hide IsSpace, IsWhite;
    var p := pad + key;
    WhiteIs(key[0]);
    forall k | 0 <= k < |pad|
      ensures IsSpace(p[k])
    {
      WhiteIs(pad[k]);
    }
    IndentIs(p, |pad|);
  }

  /**
    * Under a line `data:` or `stringData:`, whatever stands before it and whatever lines of the map come between,
    * a key line comes out as its key and eight bullets; and if the key leaves no quote open, the whole output is
    * the same for every value.
    */
  lemma SecretValuesAreMasked(before: seq<string>, header: string, between: seq<string>,
                              pad: string, key: string, value: string, other: string, rest: seq<string>)
    requires OpensMap(header) && forall k :: 0 <= k < |between| ==> StaysInside(between[k])
    requires IsKeyLine(between, pad, key, value) && (other == "" || IsWhite(other[0]))
    ensures var out := MaskLines(START, MapText(before, header, between, pad + key + ":" + value, rest));
            var n := |MaskLines(START, before + ([header] + between))|;
            && n < |out| && out[n] == pad + key + ": \U{2022}\U{2022}\U{2022}\U{2022}\U{2022}\U{2022}\U{2022}\U{2022}"
            && (!LeavesOpen(pad, key) ==>
                  out == MaskLines(START, MapText(before, header, between, pad + key + ":" + other, rest)))
  {
    var p, ctx := pad + key, Context(true, KeyColumn(between));
    KeyLineIs(between, pad, key, value);
    hide MaskLine, OpensMap, StaysInside, IsKeyLine, KeyEnd, IsExplicitKey, Indent, IsSpace, KeyColumn, MapText, IsWhite, OpenQuote, Matches;
    MapTextOutput(before, header, between, p + ":" + value, rest);
    MapTextOutput(before, header, between, p + ":" + other, rest);
    MaskShowsKey(ctx, p, value, |p|);
    assert (p + ":" + value)[..|p|] == p;
    if !LeavesOpen(pad, key) {
      assert IsRest(other) by { if other != "" { WhiteIs(other[0]); } }
      OtherValueIsAlike(ctx, p, value, other);
      AlikeMaskAlike(ctx, p + ":" + value, p + ":" + other);
    }
  }

  /** A line of the map at another indent than its keys, or a comment, is not shown at all, whatever it says. */
  lemma OtherLinesAreDropped(before: seq<string>, header: string, between: seq<string>, line: string, rest: seq<string>)
    requires OpensMap(header) && forall k :: 0 <= k < |between| ==> StaysInside(between[k])
    requires StaysInside(line) && (IsComment(line) || (KeyColumn(between) >= 0 && Lead(line) != KeyColumn(between)))
    ensures MaskLines(START, MapText(before, header, between, line, rest)) == MaskLines(START, before + ([header] + between) + rest)
  {
    var ctx := Context(true, KeyColumn(between));
    InsideMap(ContextAfter(START, before), header, between);
    CommentIs(line);
    LeadIs(line);
    assert MaskLine(ctx, line) == (ctx, []) by { hide Indent, IsSpace, IsWhite, Lead, KeyColumn; }
    hide MaskLine, OpensMap, StaysInside, IsComment, KeyColumn, Lead, MapText;
    MapTextOutput(before, header, between, line, rest);
    ContextConcat(START, before, [header] + between);
    MaskLinesConcat(START, before + ([header] + between), rest);
  }

  /** The value line of an explicit key comes out as a colon and eight bullets. */
  lemma ExplicitValuesAreMasked(before: seq<string>, header: string, between: seq<string>, pad: string, value: string, rest: seq<string>)
    requires OpensMap(header) && forall k :: 0 <= k < |between| ==> StaysInside(between[k])
    requires pad != "" && Blank(pad) && (KeyColumn(between) < 0 || KeyColumn(between) == |pad|)
    ensures var out := MaskLines(START, MapText(before, header, between, pad + ":" + value, rest));
            var n := |MaskLines(START, before + ([header] + between))|;
            n < |out| && out[n] == pad + ": \U{2022}\U{2022}\U{2022}\U{2022}\U{2022}\U{2022}\U{2022}\U{2022}"
  {
    hide MaskLine, OpensMap, StaysInside, KeyColumn, MapText, Blank, IsWhite;
    ColonLine(KeyColumn(between), pad, value);
    MapTextOutput(before, header, between, pad + ":" + value, rest);
  }

  lemma ColonLine(column: int, pad: string, value: string)
    requires pad != "" && Blank(pad) && (column < 0 || column == |pad|)
    ensures MaskLine(Context(true, column), pad + ":" + value).1 == [pad + ": " + MASK]
  {
    var line := pad + ":" + value;
    assert line == pad + (":" + value);
    PadIndent(pad, ":" + value);
    hide KeyEnd, IsSpace, Indent, Blank, IsWhite, IsMapHeader;
    assert line[|pad|] == ':' && line[..|pad|] == pad;
  }

  /** No other line opens a map: after any text, a line at the margin that is no header leaves what follows as it is. */
  lemma OnlyHeadersOpenMaps(before: seq<string>, line: string, rest: seq<string>)
    requires !StaysInside(line) && !OpensMap(line) && forall k :: 0 <= k < |rest| ==> !OpensMap(rest[k])
    ensures MaskLines(START, before + ([line] + rest)) == MaskLines(START, before) + ([line] + rest)
  {
    var b := [line] + rest;
    CommentIs(line);
    forall k | 0 <= k < |b|
      ensures !IsMapHeader(b[k])
    {
      OpensMapIs(b[k]);
      assert k > 0 ==> b[k] == rest[k - 1];
    }
    hide IsMapHeader, OpensMap, StaysInside, MaskLine, Indent, IsFiller;
    NoHeaderLines(b, -1);
    SectionsAreIndependent(START, before, b);
  }

  // --- A text whose output its value changes ---

  /** In `  "a: x` under `data:` the key is `"a`, which leaves its quote open. */
  lemma OpenQuoteKey(p: string)
    requires p == "  \"a"
    ensures Indent(p) == 2 && OpenQuote(p, 2) && !IsFiller(p) && !IsExplicitKey(p + ":")
    ensures KeyEnd(p + ":" + " x", 2) == Some(4) && KeyEnd(p + ":" + " \":", 2) == Some(7)
    ensures IsRest(" x") && IsRest(" \":")
  {
    IndentIs(p, 2);
    assert ScanDouble(p, 4) == Open;
    assert ScanDouble(p, 3) == Open;
    ExplicitShape(p, "");
    assert p + ":" + "" == p + ":";
    OpenQuoteEnds(p);
  }

  lemma OpenQuoteEnds(p: string)
    requires p == "  \"a"
    ensures KeyEnd(p + ":" + " x", 2) == Some(4) && KeyEnd(p + ":" + " \":", 2) == Some(7)
  {
    var l, l' := p + ":" + " x", p + ":" + " \":";
    assert l == "  \"a: x" && l' == "  \"a: \":";
    assert ScanDouble(l, 7) == ScanDouble(l, 6) == ScanDouble(l, 5) == ScanDouble(l, 4) == ScanDouble(l, 3) == Open;
    assert FirstColon(l, 4) == 4 && FirstColon(l, 3) == 4 && FirstColon(l, 2) == 4;
    assert ScanDouble(l', 6) == Closed(7);
    assert ScanDouble(l', 5) == ScanDouble(l', 4) == ScanDouble(l', 3) == Closed(7);
  }

  /** What the mask puts out for the two values `x` and `":` of that key. */
  lemma OpenQuoteLines(p: string)
    requires p == "  \"a"
    ensures MaskLine(Context(true, -1), p + ":" + " x").1 == ["  \"a: " + MASK]
    ensures MaskLine(Context(true, -1), p + ":" + " \":").1 == ["  \"a: \": " + MASK]
  {
    hide MaskLine, KeyEnd, IsExplicitKey, Indent, OpenQuote;
    OpenQuoteKey(p);
    MaskShowsKey(Context(true, -1), p, " x", 4);
    MaskShowsKey(Context(true, -1), p, " \":", 7);
    assert (p + ":" + " x")[..4] + ": " + MASK == "  \"a: " + MASK;
    assert (p + ":" + " \":")[..7] + ": " + MASK == "  \"a: \": " + MASK;
  }

  /** The key line stands under `data:` at the map's indent, so it is one the equivalence speaks of. */
  lemma OpenQuoteUnderData(p: string)
    requires p == "  \"a"
    ensures AtMapIndent(ContextAfter(START, ["data:"]), p) && !IsExplicitKey(p + ":") && OpenQuote(p, Indent(p))
    ensures IsRest(" x") && KeyEnd(p + ":" + " x", Indent(p)) == Some(|p|)
  {
    hide MaskLine, KeyEnd, IsExplicitKey, Indent, OpenQuote, ContextAfter, IsRest;
    OpenQuoteKey(p);
    var ctx := DataContext();
  }

  /** And the two values give different outputs: the failing side of the equivalence is real. */
  lemma OpenQuoteShowsValue(p: string)
    requires p == "  \"a"
    ensures MaskLines(START, ["data:", p + ":" + " x"]) == ["data:", "  \"a: " + MASK]
    ensures MaskLines(START, ["data:", p + ":" + " \":"]) == ["data:", "  \"a: \": " + MASK]
    ensures Join(["data:", "  \"a: " + MASK]) != Join(["data:", "  \"a: \": " + MASK])
  {
    hide MaskLine, MaskLines, Join;
    OpenQuoteLines(p);
    UnderData(p + ":" + " x");
    UnderData(p + ":" + " \":");
    JoinTwo("data:", "  \"a: " + MASK);
    JoinTwo("data:", "  \"a: \": " + MASK);
  }

  lemma JoinTwo(a: string, b: string)
    ensures Join([a, b]) == a + "\n" + b && |Join([a, b])| == |a| + 1 + |b|
  {
    assert [a, b][1..] == [b];
  }

  lemma DataContext() returns (ctx: Context)
    ensures ctx == Context(true, -1) && ContextAfter(START, ["data:"]) == ctx && MaskLine(START, "data:") == (ctx, ["data:"])
  {
    ctx := Context(true, -1);
    assert "data:"[5..] == "" && IsMapHeader("data:");
    assert MaskLine(START, "data:") == (ctx, ["data:"]);
    assert ["data:"][1..] == [];
  }

  lemma UnderData(line: string)
    ensures MaskLines(START, ["data:", line]) == ["data:"] + MaskLine(Context(true, -1), line).1
  {
    var ctx := DataContext();
    hide MaskLine;
    var ls := ["data:", line];
    assert ls[0] == "data:" && ls[1..] == [line] && [line][1..] == [];
    assert MaskLines(ctx, []) == [];
    assert MaskLines(ctx, [line]) == MaskLine(ctx, line).1 + [];
    assert MaskLines(START, ls) == ["data:"] + MaskLines(ctx, [line]);
  }

  // --- Masking keeps the keys and is final ---

  lemma IndentIs(line: string, n: nat)
    requires n < |line| && !IsSpace(line[n]) && forall k :: 0 <= k < n ==> IsSpace(line[k])
    ensures Indent(line) == n
  {
    hide IsSpace;
  }

  lemma KeyEndShape(line: string, i: nat, e: nat)
    requires KeyEnd(line, i) == Some(e)
    ensures i < e < |line| && line[e] == ':' && IsRest(line[e + 1..]) && line == line[..e] + ":" + line[e + 1..]
  {
    hide IsSpace;
  }

  /** What a line of the map contributes as a key: an explicit key whole, a key line up to its colon. */
  function KeyText(line: string): Option<string>
    requires !IsFiller(line)
  {
    var i := Indent(line);
    if IsExplicitKey(line) then Some(line)
    else if line[i] == ':' then Some(line[..i])
    else
      var e := KeyEnd(line, i);
      if e.Some? && e.value <= |line| then Some(line[..e.value]) else None
  }

  /** The line a key line becomes is itself a key line, of the same key, that masks to itself. */
  predicate Masked(line: string, out: string)
    requires !IsFiller(line)
  {
    Indent(out) == Indent(line) && !IsFiller(out) && MaskKeyLine(out) == [out] && KeyText(out) == KeyText(line)
  }

  lemma MaskedValueLine(line: string)
    requires !IsFiller(line) && line[Indent(line)] == ':'
    ensures !IsExplicitKey(line) && Masked(line, line[..Indent(line)] + ": " + MASK)
  {
    hide KeyEnd, IsSpace;
    var i := Indent(line);
    var out := line[..i] + ": " + MASK;
    assert out[i] == ':' == line[i] && forall k :: 0 <= k < i ==> out[k] == line[k];
    IndentIs(out, i);
    assert out[..i] == line[..i];
  }

  lemma MaskIsQuoteless(q: string)
    requires q == " " + MASK
    ensures IsRest(q) && '"' !in q && '\'' !in q
  {
  }

  lemma MaskedPlainLine(line: string, e: nat)
    requires !IsFiller(line) && !IsExplicitKey(line) && line[Indent(line)] != ':'
    requires e <= |line| && KeyEnd(line, Indent(line)) == Some(e)
    ensures Masked(line, line[..e] + ": " + MASK)
  {
    hide KeyEnd, IsExplicitKey, IsSpace, Indent, IsRest;
    var q :| q == " " + MASK;
    MaskIsQuoteless(q);
    assert line[..e] + ": " + MASK == line[..e] + ":" + q;
    KeyEndShape(line, Indent(line), e);
    MaskedAs(line, line[..e], line[e + 1..], q);
  }

  /** A key line with a quoteless value after its colon has the same indent and key, and is no explicit key. */
  lemma MaskedAs(line: string, p: string, rest: string, q: string)
    requires line == p + ":" + rest && IsRest(rest) && IsRest(q) && '"' !in q && '\'' !in q
    requires !IsFiller(line) && !IsExplicitKey(line) && line[Indent(line)] != ':' && Indent(line) < |p|
    requires KeyEnd(line, Indent(line)) == Some(|p|)
    ensures var out := p + ":" + q;
            && Indent(out) == Indent(line) && !IsFiller(out) && !IsExplicitKey(out) && out[Indent(line)] != ':'
            && KeyEnd(out, Indent(line)) == Some(|p|) && out[..|p|] == p == line[..|p|]
  {
    hide KeyEnd, IsExplicitKey, IsSpace, Indent, IsRest;
    var i := Indent(line);
    assert p[i] == line[i] && forall k :: 0 <= k < i ==> p[k] == line[k];
    IndentIs(p, i);
    QuotelessKeyIsStable(p, i, rest, q);
    LineShape(p, rest);
    LineShape(p, q);
  }

  lemma MaskedKeyLine(line: string)
    requires !IsFiller(line)
    ensures var shown := MaskKeyLine(line);
            && |shown| <= 1 && (shown == [] <==> KeyText(line).None?)
            && (shown != [] ==> Masked(line, shown[0]))
  {
    hide KeyEnd, IsExplicitKey, IsSpace, Indent;
    var i := Indent(line);
    if !IsExplicitKey(line) {
      if line[i] == ':' {
        MaskedValueLine(line);
      } else if KeyEnd(line, i).Some? && KeyEnd(line, i).value <= |line| {
        MaskedPlainLine(line, KeyEnd(line, i).value);
      }
    }
  }

  /** The keys of a text, in order, with the lines outside every map. */
  function Keys(ctx: Context, ls: seq<string>): seq<string>
    decreases |ls|
  {
    if ls == [] then []
    else KeysOfLine(ctx, ls[0]) + Keys(MaskLine(ctx, ls[0]).0, ls[1..])
  }

  function KeysOfLine(ctx: Context, line: string): seq<string>
  {
    if AtMapIndent(ctx, line) then (if KeyText(line).Some? then [KeyText(line).value] else [])
    else if ctx.inMap && (Indent(line) > 0 || IsFiller(line)) then []
    else [line]
  }

  /** The context met when masking the masked text: the same map, its indent perhaps not yet set. */
  predicate Tracks(c: Context, again: Context)
  {
    c.inMap == again.inMap && (c.inMap ==> again.keyIndent == c.keyIndent || again.keyIndent < 0)
  }

  lemma MaskLineAgain(c: Context, again: Context, line: string)
    requires Tracks(c, again)
    ensures var r := MaskLine(c, line);
            && |r.1| <= 1
            && (r.1 == [] ==> KeysOfLine(c, line) == [] && Tracks(r.0, again))
            && (r.1 != [] ==> && MaskLine(again, r.1[0]).1 == r.1 && Tracks(r.0, MaskLine(again, r.1[0]).0)
                              && KeysOfLine(again, r.1[0]) == KeysOfLine(c, line))
  {
    hide KeyEnd, IsExplicitKey, IsSpace, Indent, MaskKeyLine, KeyText, IsMapHeader;
    if AtMapIndent(c, line) { MaskedKeyLine(line); }
  }

  lemma {:induction false} MaskLinesAgain(c: Context, again: Context, ls: seq<string>)
    requires Tracks(c, again)
    ensures MaskLines(again, MaskLines(c, ls)) == MaskLines(c, ls)
    ensures Keys(again, MaskLines(c, ls)) == Keys(c, ls)
    decreases |ls|
  {
    if ls != [] {
      hide MaskLine, Tracks, KeysOfLine;
      var r := MaskLine(c, ls[0]);
      MaskLineAgain(c, again, ls[0]);
      if r.1 == [] {
        assert r.1 + MaskLines(r.0, ls[1..]) == MaskLines(r.0, ls[1..]);
        MaskLinesAgain(r.0, again, ls[1..]);
      } else {
        var out := MaskLines(c, ls);
        assert r.1 == [r.1[0]] && out[0] == r.1[0] && out[1..] == MaskLines(r.0, ls[1..]);
        MaskLinesAgain(r.0, MaskLine(again, r.1[0]).0, ls[1..]);
      }
    }
  }

  predicate NoNewlines(ls: seq<string>) { forall k :: 0 <= k < |ls| ==> '\n' !in ls[k] }

  lemma {:induction false} SplitLines(s: string)
    ensures NoNewlines(Split(s))
  {
    if s != "" { SplitLines(s[1..]); }
  }

  lemma {:induction false} SplitOfJoin(ls: seq<string>)
    requires ls != [] && NoNewlines(ls)
    ensures Split(Join(ls)) == ls
    decreases |ls|
  {
    if |ls| == 1 {
      SplitOfLine(ls[0], "");
      assert ls[0] + "" == ls[0];
    } else {
      SplitOfJoin(ls[1..]);
      var tail := "\n" + Join(ls[1..]);
      assert tail[1..] == Join(ls[1..]);
      SplitOfLine(ls[0], tail);
      assert Join(ls) == ls[0] + tail;
      assert ls[0] + "" == ls[0];
    }
  }

  lemma {:induction false} SplitOfLine(a: string, tail: string)
    requires '\n' !in a
    ensures Split(a + tail) == [a + Split(tail)[0]] + Split(tail)[1..]
  {
    if a == "" {
      assert a + tail == tail && a + Split(tail)[0] == Split(tail)[0];
    } else {
      assert (a + tail)[1..] == a[1..] + tail;
      SplitOfLine(a[1..], tail);
      assert [a[0]] + (a[1..] + Split(tail)[0]) == a + Split(tail)[0];
    }
  }

  lemma {:induction false} MaskedLinesWhole(c: Context, ls: seq<string>)
    requires NoNewlines(ls)
    ensures NoNewlines(MaskLines(c, ls))
    decreases |ls|
  {
    if ls != [] {
      var r := MaskLine(c, ls[0]);
      MaskedLinesWhole(r.0, ls[1..]);
      assert '\n' !in MASK;
      hide Indent, IsSpace, KeyEnd, IsMapHeader, IsExplicitKey;
      assert NoNewlines(r.1);
    }
  }

  /**
    * Masking keeps every key of every masked map and every line outside them, in order; and it is final: a masked
    * text masks to itself.
    */
  lemma MaskKeepsKeysAndIsFinal(yaml: string)
    ensures var masked := Join(MaskLines(START, Split(yaml)));
            && Keys(START, Split(masked)) == Keys(START, Split(yaml))
            && Join(MaskLines(START, Split(masked))) == masked
  {
    hide MaskLine, Keys;
    var out := MaskLines(START, Split(yaml));
    MaskLinesAgain(START, START, Split(yaml));
    SplitLines(yaml);
    MaskedLinesWhole(START, Split(yaml));
    FirstLineShows(Split(yaml));
    SplitOfJoin(out);
  }

  lemma FirstLineShows(ls: seq<string>)
    requires ls != []
    ensures MaskLines(START, ls) != []
  {
  }
}
