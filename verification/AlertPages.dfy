/** Decimal text and byte-wise string order, as Go's strconv and string comparison define them. */
module Decimal {

  import opened Options

  predicate StrLess(a: string, b: string)
  {
    if b == "" then false
    else if a == "" then true
    else if a[0] != b[0] then a[0] < b[0]
    else StrLess(a[1..], b[1..])
  }

  /** The texts agree on their first k characters and differ from there on, the first being the smaller or at its end. */
  predicate LessAt(a: string, b: string, k: nat)
  {
    && k < |b| && k <= |a| && (forall i :: 0 <= i < k ==> a[i] == b[i])
    && (k == |a| || a[k] < b[k])
  }

  lemma {:induction false} StrLessIff(a: string, b: string)
    ensures StrLess(a, b) <==> exists k: nat :: LessAt(a, b, k)
  {
    if b != "" {
      if a == "" || a[0] < b[0] {
        assert LessAt(a, b, 0);
      } else if a[0] == b[0] {
        StrLessIff(a[1..], b[1..]);
        if StrLess(a, b) {
          var k: nat :| LessAt(a[1..], b[1..], k);
          forall i | 0 <= i < k + 1 ensures a[i] == b[i] { if i > 0 { assert a[1..][i - 1] == b[1..][i - 1]; } }
          assert LessAt(a, b, k + 1);
        }
        if k: nat :| LessAt(a, b, k) {
          assert LessAt(a[1..], b[1..], k - 1);
        }
      }
    }
  }

  lemma {:induction false} StrLessIrreflexive(a: string)
    ensures !StrLess(a, a)
  {
    if a != "" { StrLessIrreflexive(a[1..]); }
  }

  lemma {:induction false} StrLessTransitive(a: string, b: string, c: string)
    requires StrLess(a, b) && StrLess(b, c)
    ensures StrLess(a, c)
  {
    if a != "" && b != "" && c != "" && a[0] == b[0] && b[0] == c[0] {
      StrLessTransitive(a[1..], b[1..], c[1..]);
    }
  }

  lemma {:induction false} StrLessPrefix(p: string, a: string, b: string)
    ensures StrLess(p + a, p + b) == StrLess(a, b)
  {
    if p == "" {
      assert p + a == a && p + b == b;
    } else {
      assert (p + a)[1..] == p[1..] + a && (p + b)[1..] == p[1..] + b;
      StrLessPrefix(p[1..], a, b);
    }
  }

  lemma {:induction false} StrLessSnoc(a: string, b: string, x: char, y: char)
    requires |a| == |b|
    ensures StrLess(a + [x], b + [y]) <==> StrLess(a, b) || (a == b && x < y)
  {
    if a == "" {
      assert a + [x] == [x] && b + [y] == [y];
    } else {
      assert (a + [x])[1..] == a[1..] + [x] && (b + [y])[1..] == b[1..] + [y];
      StrLessSnoc(a[1..], b[1..], x, y);
      assert a == [a[0]] + a[1..] && b == [b[0]] + b[1..];
    }
  }

  // --- Digits ---

  function DigitChar(d: nat): (c: char)
    requires d < 10
    ensures IsDigit(c) && c as int - '0' as int == d
  {
    ('0' as int + d) as char
  }

  predicate IsDigit(c: char) { '0' <= c <= '9' }

  function Digits(n: nat): (s: string)
    ensures |s| >= 1 && forall i :: 0 <= i < |s| ==> IsDigit(s[i])
  {
    if n < 10 then [DigitChar(n)] else Digits(n / 10) + [DigitChar(n % 10)]
  }

  /** Numbers with equally many digits order as their texts do. */
  lemma {:induction false} DigitsOrder(m: nat, n: nat)
    requires |Digits(m)| == |Digits(n)|
    ensures StrLess(Digits(m), Digits(n)) <==> m < n
    ensures Digits(m) == Digits(n) <==> m == n
  {
    var a, b := if m < 10 then "" else Digits(m / 10), if n < 10 then "" else Digits(n / 10);
    assert Digits(m) == a + [DigitChar(m % 10)] && Digits(n) == b + [DigitChar(n % 10)];
    StrLessSnoc(a, b, DigitChar(m % 10), DigitChar(n % 10));
    if m >= 10 && n >= 10 {
      DigitsOrder(m / 10, n / 10);
      assert a == Digits(m)[..|a|] && b == Digits(n)[..|b|];
    }
  }

  predicate IsPowerOfTen(n: nat) { n == 1 || (n >= 10 && n % 10 == 0 && IsPowerOfTen(n / 10)) }

  /** Only a power of ten has more digits than its predecessor; it starts with 1 and its predecessor with 9. */
  lemma {:induction false} DigitsOfNext(n: nat)
    requires n >= 1
    ensures !IsPowerOfTen(n + 1) ==> |Digits(n + 1)| == |Digits(n)|
    ensures IsPowerOfTen(n + 1) ==> Digits(n + 1)[0] == '1' && Digits(n)[0] == '9'
  {
    if n >= 10 {
      if n % 10 == 9 {
        assert (n + 1) / 10 == n / 10 + 1;
        DigitsOfNext(n / 10);
      } else {
        assert (n + 1) / 10 == n / 10;
      }
    }
  }

  function AlertId(n: nat): string { "alert-" + Digits(n) }

  /** Consecutive ids order as strings the way they were issued, except across a power of ten. */
  lemma ConsecutiveIdsOrder(n: nat)
    requires n >= 1
    ensures StrLess(AlertId(n), AlertId(n + 1)) <==> !IsPowerOfTen(n + 1)
  {
    StrLessPrefix("alert-", Digits(n), Digits(n + 1));
    DigitsOfNext(n);
    if !IsPowerOfTen(n + 1) { DigitsOrder(n, n + 1); }
  }

  // --- Integers as text ---

  const MIN_INT64: int := -0x8000_0000_0000_0000
  const MAX_INT64: int := 0x7fff_ffff_ffff_ffff

  predicate IsInt64(n: int) { MIN_INT64 <= n <= MAX_INT64 }

  /** `strconv.FormatInt(n, 10)` */
  function FormatInt(n: int): string { if n < 0 then "-" + Digits(-n) else Digits(n) }

  function DigitsValue(s: string): Option<nat>
  {
    if s == "" then None
    else
      var c := s[|s| - 1];
      if !IsDigit(c) then None
      else
        var d := c as int - '0' as int;
        if |s| == 1 then Some(d)
        else
          var v := DigitsValue(s[..|s| - 1]);
          if v.None? then None else Some(10 * v.value + d)
  }

  /** `strconv.ParseInt(s, 10, 64)`: an optional sign, then digits, within the range. */
  function ParseInt(s: string): Option<int>
  {
    if s == "" then None
    else
      var signed := s[0] == '-' || s[0] == '+';
      var v := DigitsValue(if signed then s[1..] else s);
      if v.None? then None
      else
        var n: int := if s[0] == '-' then -(v.value as int) else v.value;
        if IsInt64(n) then Some(n) else None
  }

  lemma {:induction false} DigitsRoundTrip(n: nat)
    ensures DigitsValue(Digits(n)) == Some(n)
  {
    if n >= 10 {
      var s := Digits(n);
      assert s[..|s| - 1] == Digits(n / 10);
      DigitsRoundTrip(n / 10);
    }
  }

  lemma IntRoundTrip(n: int)
    ensures ParseInt(FormatInt(n)) == if IsInt64(n) then Some(n) else None
  {
    DigitsRoundTrip(if n < 0 then -n else n);
    if n < 0 {
      assert FormatInt(n)[1..] == Digits(-n);
    } else {
      assert IsDigit(Digits(n)[0]);
    }
  }

  // --- Which texts are numbers ---

  predicate AllDigits(s: string) { forall i :: 0 <= i < |s| ==> '0' <= s[i] <= '9' }

  /** Reading the digits from the left, with `acc` read so far. */
  function ReadDigits(acc: nat, s: string): nat
    requires AllDigits(s)
    decreases |s|
  {
    if s == "" then acc else ReadDigits(10 * acc + (s[0] as int - 48), s[1..])
  }

  lemma {:induction false} ReadDigitsSnoc(acc: nat, s: string)
    requires AllDigits(s) && s != ""
    ensures ReadDigits(acc, s) == 10 * ReadDigits(acc, s[..|s| - 1]) + (s[|s| - 1] as int - 48)
    decreases |s|
  {
    if |s| > 1 {
      ReadDigitsSnoc(10 * acc + (s[0] as int - 48), s[1..]);
      assert s[..|s| - 1][1..] == s[1..][..|s| - 2];
    } else {
      assert s[..0] == "" && s[1..] == "";
    }
  }

  lemma {:induction false} DigitsValueIs(s: string)
    ensures DigitsValue(s).Some? <==> s != "" && AllDigits(s)
    ensures s != "" && AllDigits(s) ==> DigitsValue(s) == Some(ReadDigits(0, s))
  {
    if s != "" {
      var n := |s| - 1;
      assert AllDigits(s) <==> AllDigits(s[..n]) && '0' <= s[n] <= '9' by { assert s == s[..n] + [s[n]]; }
      if n > 0 { DigitsValueIs(s[..n]); }
      if AllDigits(s) { ReadDigitsSnoc(0, s); }
    }
  }

  predicate HasSign(s: string) { s != "" && (s[0] == '+' || s[0] == '-') }

  function Unsigned(s: string): string { if HasSign(s) then s[1..] else s }

  /** An optional sign and at least one digit. */
  predicate IsNumeral(s: string) { Unsigned(s) != "" && AllDigits(Unsigned(s)) }

  function NumeralValue(s: string): int
    requires IsNumeral(s)
  {
    var size: int := ReadDigits(0, Unsigned(s));
    if s[0] == '-' then -size else size
  }

  /** A text is accepted, with its value, exactly if it is a numeral that fits 64 bits. */
  lemma ParseIntIff(s: string, n: int)
    ensures ParseInt(s) == Some(n) <==>
              IsNumeral(s) && n == NumeralValue(s) && -9_223_372_036_854_775_808 <= n <= 9_223_372_036_854_775_807
  {
    DigitsValueIs(Unsigned(s));
  }

  lemma FormatIntHasNoColon(n: int)
    ensures ':' !in FormatInt(n)
  {
    var s := FormatInt(n);
    forall i | 0 <= i < |s|
      ensures s[i] != ':'
    {
      if n >= 0 { assert IsDigit(Digits(n)[i]); }
      else if i > 0 { assert IsDigit(Digits(-n)[i - 1]); }
    }
  }
}

/** Keyset pagination over the alert history (List in backend/internal/alerting/store.go). */
module AlertPages {
  import opened Decimal
  import opened Options
  import AlertStore

  type AlertEvent = AlertStore.AlertEvent

  datatype Cursor = Cursor(nanos: int, id: string)

  function KeyOf(e: AlertEvent): Cursor { Cursor(e.receivedAt, AlertId(e.number)) }

  /** Strictly older than the cursor: earlier, or at the same time with a smaller id. */
  predicate Below(e: AlertEvent, c: Cursor)
  {
    e.receivedAt < c.nanos || (e.receivedAt == c.nanos && c.id != "" && StrLess(AlertId(e.number), c.id))
  }

  predicate Passes(e: AlertEvent, c: Option<Cursor>) { c.Some? ==> Below(e, c.value) }

  type Filter = AlertEvent -> bool

  /** The matching events past the cursor, newest first. */
  function Select(h: seq<AlertEvent>, m: Filter, c: Option<Cursor>): seq<AlertEvent>
  {
    if h == [] then []
    else
      var e := h[|h| - 1];
      (if Passes(e, c) && m(e) then [e] else []) + Select(h[..|h| - 1], m, c)
  }

  // --- Continue tokens ---

  /** The request's token once base64 is undone; the codec itself is the platform's. */
  datatype Token = Absent | BadBase64 | Text(text: string)

  function FormatCursor(c: Cursor): string { FormatInt(c.nanos) + ":" + c.id }

  function IndexOf(s: string, ch: char): (i: nat)
    ensures i <= |s| && ch !in s[..i] && (i < |s| ==> s[i] == ch)
  {
    if s == "" || s[0] == ch then 0
    else
      var i := 1 + IndexOf(s[1..], ch);
      assert s[..i] == [s[0]] + s[1..][..i - 1];
      i
  }

  /** `strings.SplitN(text, ":", 2)` followed by `ParseInt` of the first part. */
  function ParseCursor(text: string): Option<Cursor>
  {
    var i := IndexOf(text, ':');
    var nanos := ParseInt(text[..i]);
    if nanos.None? then None
    else Some(Cursor(nanos.value, if i < |text| then text[i + 1..] else ""))
  }

  /** A token names the event it was made for. */
  lemma CursorRoundTrip(c: Cursor)
    ensures ParseCursor(FormatCursor(c)) == if IsInt64(c.nanos) then Some(c) else None
  {
    var t, n := FormatCursor(c), |FormatInt(c.nanos)|;
    FormatIntHasNoColon(c.nanos);
    IntRoundTrip(c.nanos);
    assert t[n] == ':' && t[..n] == FormatInt(c.nanos) && t[n + 1..] == c.id;
    IndexOfIs(t, ':', n);
  }

  lemma {:induction false} IndexOfIs(s: string, ch: char, n: nat)
    requires n < |s| && s[n] == ch && ch !in s[..n]
    ensures IndexOf(s, ch) == n
  {
    if n > 0 {
      assert s[0] in s[..n] && s[1..][..n - 1] == s[..n][1..];
      IndexOfIs(s[1..], ch, n - 1);
    }
  }

  // --- One page ---

  datatype Page = Page(items: seq<AlertEvent>, token: Option<string>)

  datatype Result = Ok(page: Page) | InvalidToken

  /** At most `limit` selected events, and a token for the last one if more are left. */
  function PageOf(h: seq<AlertEvent>, m: Filter, c: Option<Cursor>, limit: nat): Page
    requires limit >= 1
  {
    var sel := Select(h, m, c);
    if |sel| <= limit then Page(sel, None)
    else Page(sel[..limit], Some(FormatCursor(KeyOf(sel[limit - 1]))))
  }

  datatype ListOptions = ListOptions(namespace: string, alertName: string, severity: string, status: string,
                                     since: Option<int>, until: Option<int>, limit: int, token: Token)

  const DEFAULT_LIMIT: nat := 50

  /** `strings.Contains` */
  predicate Contains(s: string, sub: string)
  {
    sub <= s || (s != "" && Contains(s[1..], sub))
  }

  /** The filter the options describe; `lower` is the platform's case folding. */
  predicate Matches(o: ListOptions, lower: string -> string, e: AlertEvent)
  {
    && (o.namespace != "" ==> e.namespace == o.namespace)
    && (o.alertName != "" ==> Contains(lower(e.alertName), lower(o.alertName)))
    && (o.severity != "" ==> e.severity == o.severity)
    && (o.status != "" ==> e.status == o.status)
    && (o.since.Some? ==> e.receivedAt >= o.since.value)
    && (o.until.Some? ==> e.receivedAt <= o.until.value)
  }

  function FilterOf(o: ListOptions, lower: string -> string): Filter { e => Matches(o, lower, e) }

  function LimitOf(o: ListOptions): nat { if o.limit <= 0 then DEFAULT_LIMIT else o.limit }

  function List(h: seq<AlertEvent>, o: ListOptions, lower: string -> string): Result
  {
    match o.token
    case Absent => Ok(PageOf(h, FilterOf(o, lower), None, LimitOf(o)))
    case BadBase64 => InvalidToken
    case Text(text) =>
      var c := ParseCursor(text);
      if c.None? then InvalidToken else Ok(PageOf(h, FilterOf(o, lower), c, LimitOf(o)))
  }

  lemma SelectNone(m: Filter, c: Option<Cursor>)
    ensures Select([], m, c) == []
  {
  }

  lemma SelectLast(h: seq<AlertEvent>, i: nat, m: Filter, c: Option<Cursor>)
    requires i < |h|
    ensures Select(h[..i + 1], m, c) ==
            if Passes(h[i], c) && m(h[i]) then [h[i]] + Select(h[..i], m, c) else Select(h[..i], m, c)
  {
    assert h[..i + 1][..i] == h[..i];
  }

  lemma SelectSnoc(h: seq<AlertEvent>, e: AlertEvent, m: Filter, c: Option<Cursor>)
    ensures Select(h + [e], m, c) == (if Passes(e, c) && m(e) then [e] else []) + Select(h, m, c)
  {
    hide Passes;
    assert (h + [e])[..|h|] == h;
  }

  lemma {:induction false} SelectConcat(a: seq<AlertEvent>, b: seq<AlertEvent>, m: Filter, c: Option<Cursor>)
    ensures Select(a + b, m, c) == Select(b, m, c) + Select(a, m, c)
  {
    hide Select, Passes;
    if b == [] {
      assert a + b == a;
      SelectNone(m, c);
    } else {
      var b', e := b[..|b| - 1], b[|b| - 1];
      SelectConcat(a, b', m, c);
      SelectSnoc(b', e, m, c);
      SelectSnoc(a + b', e, m, c);
      assert b == b' + [e] && a + b == (a + b') + [e];
    }
  }

  /** The reverse scan with an accumulator that stops one past the limit. */
  method Scan(h: seq<AlertEvent>, m: Filter, cursor: Option<Cursor>, limit: nat) returns (result: seq<AlertEvent>)
    ensures var sel := Select(h, m, cursor); result == if |sel| <= limit + 1 then sel else sel[..limit + 1]
  {
    hide Passes, Select;
    result := [];
    var i := |h|;
    assert h[..i] == h;
    SelectNone(m, cursor);
    while i > 0 && |result| < limit + 1
      invariant 0 <= i <= |h| && |result| <= limit + 1
      invariant Select(h, m, cursor) == result + Select(h[..i], m, cursor)
    {
      i := i - 1;
      SelectLast(h, i, m, cursor);
      if !Passes(h[i], cursor) { continue; }
      if !m(h[i]) { continue; }
      assert result + ([h[i]] + Select(h[..i], m, cursor)) == (result + [h[i]]) + Select(h[..i], m, cursor);
      result := result + [h[i]];
    }
  }

  method ListMemory(store: AlertStore.MemoryStore, o: ListOptions, lower: string -> string) returns (r: Result)
    ensures r == List(store.history, o, lower)
  {
    hide Select, Matches, ParseCursor, FormatCursor;
    var limit := if o.limit <= 0 then DEFAULT_LIMIT else o.limit;
    var cursor: Option<Cursor> := None;
    match o.token {
      case Absent =>
      case BadBase64 => return InvalidToken;
      case Text(text) =>
        cursor := ParseCursor(text);
        if cursor.None? { return InvalidToken; }
    }
    var result := Scan(store.history, FilterOf(o, lower), cursor, limit);
    var token: Option<string> := None;
    if |result| > limit {
      result := result[..limit];
      token := Some(FormatCursor(KeyOf(result[limit - 1])));
    }
    r := Ok(Page(result, token));
  }

  // --- Following tokens, while the store keeps changing ---

  /**
    * The client's walk: page k is taken from `hs[k]`, the history at the time it is fetched. The result is
    * everything returned, and whether the last page said there is no more.
    */
  function Follow(hs: seq<seq<AlertEvent>>, m: Filter, limit: nat, c: Option<Cursor>): (r: (seq<AlertEvent>, bool))
    requires limit >= 1
  {
    if hs == [] then ([], false)
    else
      var page := PageOf(hs[0], m, c, limit);
      if page.token.None? then (page.items, true)
      else
        var next := ParseCursor(page.token.value);
        if next.None? then (page.items, false)
        else
          var rest := Follow(hs[1..], m, limit, next);
          (page.items + rest.0, rest.1)
  }

  /** Strictly increasing (time, id text): what the tie-break needs. */
  predicate Increasing(h: seq<AlertEvent>) { forall i, j :: 0 <= i < j < |h| ==> Below(h[i], KeyOf(h[j])) }

  predicate InRange(h: seq<AlertEvent>) { forall i :: 0 <= i < |h| ==> IsInt64(h[i].receivedAt) }

  datatype Window = Window(lo: nat, hi: nat)

  /** The histories are windows of one log whose ends only move forward: appends at one end, evictions at the other. */
  predicate AreWindows(log: seq<AlertEvent>, ws: seq<Window>, hs: seq<seq<AlertEvent>>)
  {
    && |ws| == |hs|
    && (forall k :: 0 <= k < |ws| ==> ws[k].lo <= ws[k].hi <= |log| && hs[k] == log[ws[k].lo..ws[k].hi])
    && (forall k, l :: 0 <= k < l < |ws| ==> ws[k].lo <= ws[l].lo && ws[k].hi <= ws[l].hi)
  }

  lemma BelowIrreflexive(e: AlertEvent)
    ensures !Below(e, KeyOf(e))
  {
    StrLessIrreflexive(AlertId(e.number));
  }

  lemma BelowTransitive(a: AlertEvent, b: AlertEvent, c: AlertEvent)
    requires Below(a, KeyOf(b)) && Below(b, KeyOf(c))
    ensures Below(a, KeyOf(c))
  {
    hide AlertId;
    if a.receivedAt == c.receivedAt {
      StrLessTransitive(AlertId(a.number), AlertId(b.number), AlertId(c.number));
    }
  }

  lemma {:induction false} SelectAllBelow(h: seq<AlertEvent>, m: Filter, c: Cursor)
    requires forall i :: 0 <= i < |h| ==> Below(h[i], c)
    ensures Select(h, m, Some(c)) == Select(h, m, None)
  {
    hide Below;
    if h != [] { SelectAllBelow(h[..|h| - 1], m, c); }
  }

  lemma {:induction false} SelectNoneBelow(h: seq<AlertEvent>, m: Filter, c: Cursor)
    requires forall i :: 0 <= i < |h| ==> !Below(h[i], c)
    ensures Select(h, m, Some(c)) == []
  {
    hide Below;
    if h != [] { SelectNoneBelow(h[..|h| - 1], m, c); }
  }

  lemma NotBelowEarlier(log: seq<AlertEvent>, c: nat, i: nat)
    requires Increasing(log) && c <= i < |log|
    ensures !Below(log[i], KeyOf(log[c]))
  {
    hide Below, KeyOf;
    if i == c {
      BelowIrreflexive(log[i]);
    } else if Below(log[i], KeyOf(log[c])) {
      BelowTransitive(log[i], log[c], log[i]);
      BelowIrreflexive(log[i]);
    }
  }

  /** Past the cursor of log event c, a window holds exactly its part before c. */
  lemma SelectPast(log: seq<AlertEvent>, lo: nat, hi: nat, m: Filter, c: nat)
    requires Increasing(log) && lo <= hi <= |log| && c < hi
    ensures Select(log[lo..hi], m, Some(KeyOf(log[c]))) == if lo <= c then Select(log[lo..c], m, None) else []
  {
    hide Below, KeyOf, Select;
    var key := KeyOf(log[c]);
    var mid := if lo <= c then c else lo;
    assert log[lo..hi] == log[lo..mid] + log[mid..hi];
    SelectConcat(log[lo..mid], log[mid..hi], m, Some(key));
    forall i | 0 <= i < hi - mid
      ensures !Below(log[mid..hi][i], key)
    {
      NotBelowEarlier(log, c, mid + i);
    }
    SelectNoneBelow(log[mid..hi], m, key);
    SelectAllBelow(log[lo..mid], m, key);
    if lo > c {
      assert log[lo..mid] == [];
      SelectNone(m, Some(key));
      SelectNone(m, None);
    }
  }

  lemma SelectWindow(log: seq<AlertEvent>, lo: nat, c: nat, m: Filter)
    requires lo < c <= |log|
    ensures Select(log[lo..c], m, None) ==
            if m(log[c - 1]) then [log[c - 1]] + Select(log[lo..c - 1], m, None) else Select(log[lo..c - 1], m, None)
  {
    hide Select;
    var w := log[lo..c];
    SelectLast(w, c - 1 - lo, m, None);
    assert w[..c - lo] == w && w[..c - 1 - lo] == log[lo..c - 1] && w[c - 1 - lo] == log[c - 1];
  }

  /** The j-th selected event sits at some place in the log, and what is selected up to it is what lies from there on. */
  lemma {:induction false} SelectIndex(log: seq<AlertEvent>, lo: nat, c: nat, m: Filter, j: nat) returns (i: nat)
    requires lo <= c <= |log| && j < |Select(log[lo..c], m, None)|
    ensures lo <= i < c && Select(log[lo..c], m, None)[j] == log[i]
    ensures Select(log[lo..c], m, None)[..j + 1] == Select(log[i..c], m, None)
    decreases c
  {
    hide Select;
    SelectNone(m, None);
    assert log[c..c] == [];
    SelectWindow(log, lo, c, m);
    var e, rest := log[c - 1], Select(log[lo..c - 1], m, None);
    if !m(e) {
      i := SelectIndex(log, lo, c - 1, m, j);
      SelectWindow(log, i, c, m);
    } else if j == 0 {
      i := c - 1;
      SelectWindow(log, i, c, m);
      assert log[c - 1..c - 1] == [];
    } else {
      i := SelectIndex(log, lo, c - 1, m, j - 1);
      SelectWindow(log, i, c, m);
      assert ([e] + rest)[..j + 1] == [e] + rest[..j];
    }
  }

  lemma TailWindows(log: seq<AlertEvent>, ws: seq<Window>, hs: seq<seq<AlertEvent>>)
    requires AreWindows(log, ws, hs) && ws != []
    ensures AreWindows(log, ws[1..], hs[1..])
  {
  }

  /** From a cursor at log place c, a finished walk returned what lies between some place b and c. */
  lemma {:induction false} FollowFromPlace(log: seq<AlertEvent>, ws: seq<Window>, hs: seq<seq<AlertEvent>>,
                                           m: Filter, limit: nat, c: nat) returns (b: nat)
    requires Increasing(log) && InRange(log) && limit >= 1
    requires AreWindows(log, ws, hs) && ws != [] && c < ws[0].hi
    ensures var r := Follow(hs, m, limit, Some(KeyOf(log[c])));
            b <= c && (r.1 ==> (b >= ws[0].lo || b == c) && b <= ws[|ws| - 1].lo && r.0 == Select(log[b..c], m, None))
    ensures (if c <= ws[0].lo then 0 else c - ws[0].lo) < |ws| ==> Follow(hs, m, limit, Some(KeyOf(log[c]))).1
    decreases |ws|
  {
    hide Select, Below, KeyOf, ParseCursor, FormatCursor, Increasing, InRange;
    var lo := ws[0].lo;
    SelectPast(log, lo, ws[0].hi, m, c);
    SelectNone(m, None);
    if lo > c {
      b := c;
      assert log[b..c] == [];
    } else {
      b := lo;
      var sel := Select(log[lo..c], m, None);
      if |sel| > limit {
        var i := SelectIndex(log, lo, c, m, limit - 1);
        TokenNames(log, i);
        if |ws| > 1 {
          TailWindows(log, ws, hs);
          b := FollowFromPlace(log, ws[1..], hs[1..], m, limit, i);
          assert log[b..c] == log[b..i] + log[i..c];
          SelectConcat(log[b..i], log[i..c], m, None);
        }
      }
    }
  }

  lemma TokenNames(log: seq<AlertEvent>, i: nat)
    requires InRange(log) && i < |log|
    ensures ParseCursor(FormatCursor(KeyOf(log[i]))) == Some(KeyOf(log[i]))
  {
    hide ParseCursor, FormatCursor;
    CursorRoundTrip(KeyOf(log[i]));
  }

  /**
    * Following tokens from the first page, for every filter and limit, while events are recorded, evicted and
    * pruned between pages: a finished walk returned exactly the matching events of the first page's history,
    * newest first and each once, from some place b on; b is past that history's start only if what lies before
    * b had been evicted by the last page. And the walk does finish within as many pages as that history has events.
    */
  lemma WalkReturnsSnapshot(log: seq<AlertEvent>, ws: seq<Window>, hs: seq<seq<AlertEvent>>, m: Filter, limit: nat)
    returns (b: nat)
    requires Increasing(log) && InRange(log) && limit >= 1
    requires AreWindows(log, ws, hs) && ws != []
    ensures var r := Follow(hs, m, limit, None);
            && b <= ws[0].hi
            && (r.1 ==> ws[0].lo <= b <= ws[|ws| - 1].lo && r.0 == Select(log[b..ws[0].hi], m, None))
    ensures ws[0].hi - ws[0].lo < |ws| ==> Follow(hs, m, limit, None).1
  {
    hide Select, Below, KeyOf, ParseCursor, FormatCursor, Increasing, InRange;
    var lo, hi := ws[0].lo, ws[0].hi;
    b := lo;
    var sel := Select(log[lo..hi], m, None);
    if |sel| > limit {
      var i := SelectIndex(log, lo, hi, m, limit - 1);
      TokenNames(log, i);
      if |ws| > 1 {
        TailWindows(log, ws, hs);
        b := FollowFromPlace(log, ws[1..], hs[1..], m, limit, i);
        assert log[b..hi] == log[b..i] + log[i..hi];
        SelectConcat(log[b..i], log[i..hi], m, None);
      }
    }
  }

  // --- On an unchanging history, exactly when the keys increase ---

  function Unchanging(h: seq<AlertEvent>): seq<seq<AlertEvent>> { seq(|h| + 1, _ => h) }

  /** The walk returns the whole filtered history and stops. */
  predicate WalksExactly(h: seq<AlertEvent>, m: Filter, limit: nat)
    requires limit >= 1
  {
    Follow(Unchanging(h), m, limit, None) == (Select(h, m, None), true)
  }

  lemma IncreasingWalksExactly(h: seq<AlertEvent>, m: Filter, limit: nat)
    requires InRange(h) && Increasing(h) && limit >= 1
    ensures WalksExactly(h, m, limit)
  {
    hide Select, Below, KeyOf, Follow;
    var ws := seq(|h| + 1, _ => Window(0, |h|));
    assert h[0..|h|] == h;
    var b := WalkReturnsSnapshot(h, ws, Unchanging(h), m, limit);
    assert h[b..|h|] == h;
  }

  function Everything(): Filter { _ => true }

  function Reverse(h: seq<AlertEvent>): (r: seq<AlertEvent>)
    ensures |r| == |h|
  {
    if h == [] then [] else [h[|h| - 1]] + Reverse(h[..|h| - 1])
  }

  lemma {:induction false} SelectEverything(h: seq<AlertEvent>)
    ensures Select(h, Everything(), None) == Reverse(h)
  {
    if h != [] { SelectEverything(h[..|h| - 1]); }
  }

  lemma {:induction false} SelectedPasses(h: seq<AlertEvent>, m: Filter, c: Option<Cursor>)
    ensures forall i :: 0 <= i < |Select(h, m, c)| ==> Passes(Select(h, m, c)[i], c)
  {
    hide Passes;
    if h != [] { SelectedPasses(h[..|h| - 1], m, c); }
  }

  /** Adjacent keys increase below place j. */
  predicate IncreasingTo(h: seq<AlertEvent>, j: nat)
    requires j <= |h|
  {
    forall i :: 0 <= i < j - 1 ==> Below(h[i], KeyOf(h[i + 1]))
  }

  /** A walk in pages of one that returns everything below place j shows that the keys increase there. */
  lemma {:induction false} ExactWalkShowsOrder(h: seq<AlertEvent>, hs: seq<seq<AlertEvent>>, c: Option<Cursor>, j: nat)
    requires InRange(h) && 1 <= j <= |h| && (forall k :: 0 <= k < |hs| ==> hs[k] == h)
    requires Follow(hs, Everything(), 1, c).0 == Reverse(h[..j])
    ensures IncreasingTo(h, j) && Passes(h[j - 1], c)
    decreases j
  {
    hide Select, Below, KeyOf, ParseCursor, FormatCursor, Passes, InRange;
    assert Reverse(h[..j])[0] == h[j - 1] && h[..j][..j - 1] == h[..j - 1];
    var sel := Select(h, Everything(), c);
    var r := Reverse(h[..j]);
    SelectedPasses(h, Everything(), c);
    if |sel| > 1 {
      TokenNames(h, j - 1);
      if j > 1 {
        assert r[1..] == Reverse(h[..j - 1]);
        ExactWalkShowsOrder(h, hs[1..], Some(KeyOf(h[j - 1])), j - 1);
        BelowFromPasses(h[j - 2], KeyOf(h[j - 1]));
      }
    }
  }

  lemma BelowFromPasses(e: AlertEvent, c: Cursor)
    requires Passes(e, Some(c))
    ensures Below(e, c)
  {
  }

  lemma {:induction false} AdjacentIsEnough(h: seq<AlertEvent>, i: nat, j: nat)
    requires IncreasingTo(h, |h|) && i < j < |h|
    ensures Below(h[i], KeyOf(h[j]))
    decreases j
  {
    hide Below, KeyOf;
    assert Below(h[j - 1], KeyOf(h[j - 1 + 1]));
    if i < j - 1 {
      AdjacentIsEnough(h, i, j - 1);
      BelowTransitive(h[i], h[j - 1], h[j]);
    }
  }

  /**
    * Pagination is exact for every filter and every limit if and only if the keys strictly increase along the
    * history; one unfiltered walk in pages of one already decides it.
    */
  lemma PaginationExactIff(h: seq<AlertEvent>)
    requires InRange(h)
    ensures Increasing(h) <==> WalksExactly(h, Everything(), 1)
    ensures Increasing(h) <==> forall m: Filter, limit: nat :: limit >= 1 ==> WalksExactly(h, m, limit)
  {
    if Increasing(h) {
      forall m: Filter, limit: nat | limit >= 1
        ensures WalksExactly(h, m, limit)
      {
        IncreasingWalksExactly(h, m, limit);
      }
      IncreasingWalksExactly(h, Everything(), 1);
    } else if WalksExactly(h, Everything(), 1) {
      ExactWalkIncreases(h);
    }
  }

  lemma ExactWalkIncreases(h: seq<AlertEvent>)
    requires InRange(h) && WalksExactly(h, Everything(), 1)
    ensures Increasing(h)
  {
    hide Below, KeyOf, Follow, Select;
    SelectEverything(h);
    if h != [] {
      assert h[..|h|] == h;
      ExactWalkShowsOrder(h, Unchanging(h), None, |h|);
      forall i, j | 0 <= i < j < |h|
        ensures Below(h[i], KeyOf(h[j]))
      {
        AdjacentIsEnough(h, i, j);
      }
    }
  }

  // --- What this means for the store ---

  predicate Chronological(h: seq<AlertEvent>) { forall i, j :: 0 <= i < j < |h| ==> h[i].receivedAt <= h[j].receivedAt }

  predicate Consecutive(h: seq<AlertEvent>)
  {
    forall i :: 0 <= i < |h| ==> h[i].number >= 1 && h[i].number == h[0].number + i
  }

  /** Two events at one clock reading, the later with a number that is a power of ten. */
  predicate TieAtPowerOfTen(h: seq<AlertEvent>, i: nat)
    requires i < |h| - 1
  {
    h[i].receivedAt == h[i + 1].receivedAt && IsPowerOfTen(h[i + 1].number)
  }

  /** With a clock that does not run backwards, the keys of consecutive events increase iff no tie falls on a power of ten. */
  lemma KeysIncreaseIff(h: seq<AlertEvent>)
    requires Chronological(h) && Consecutive(h)
    ensures Increasing(h) <==> forall i :: 0 <= i < |h| - 1 ==> !TieAtPowerOfTen(h, i)
  {
    hide AlertId;
    forall i | 0 <= i < |h| - 1
      ensures Below(h[i], KeyOf(h[i + 1])) <==> !TieAtPowerOfTen(h, i)
    {
      assert h[i + 1].number == h[i].number + 1;
      ConsecutiveIdsOrder(h[i].number);
      IdNotEmpty(h[i + 1].number);
    }
    if forall i :: 0 <= i < |h| - 1 ==> !TieAtPowerOfTen(h, i) {
      forall i, j | 0 <= i < j < |h|
        ensures Below(h[i], KeyOf(h[j]))
      {
        AdjacentIsEnough(h, i, j);
      }
    }
  }

  lemma IdNotEmpty(n: nat)
    ensures AlertId(n) != ""
  {
  }

  predicate MonotoneClock(steps: seq<AlertStore.Step>)
  {
    forall i, j :: 0 <= i < j < |steps| && steps[i].Alert? && steps[j].Alert? ==> steps[i].now <= steps[j].now
  }

  function HistoryAt(steps: seq<AlertStore.Step>, k: nat): seq<AlertEvent>
    requires k <= |steps|
  {
    AlertStore.RunStore(steps[..k]).history
  }

  function WindowAt(steps: seq<AlertStore.Step>, k: nat): Window
    requires k <= |steps|
  {
    var log, h := AlertStore.FullLog(steps[..k]), HistoryAt(steps, k);
    Window(if |h| <= |log| then |log| - |h| else 0, |log|)
  }

  predicate LoggedInTime(log: seq<AlertEvent>, steps: seq<AlertStore.Step>)
  {
    forall i :: 0 <= i < |log| ==> IsReading(steps, log[i].receivedAt)
  }

  /** The clock read t at some alert. */
  predicate IsReading(steps: seq<AlertStore.Step>, t: int)
  {
    exists k :: 0 <= k < |steps| && steps[k].Alert? && steps[k].now == t
  }

  lemma EmittedNow(s: AlertStore.Store, st: AlertStore.Step)
    ensures |AlertStore.Emitted(s, st)| <= 1
    ensures forall e :: e in AlertStore.Emitted(s, st) ==> st.Alert? && e.receivedAt == st.now
  {
  }

  lemma MonotonePrefix(steps: seq<AlertStore.Step>, n: nat)
    requires MonotoneClock(steps) && n <= |steps|
    ensures MonotoneClock(steps[..n])
  {
  }

  lemma NoSteps()
    ensures AlertStore.RunStore([]) == AlertStore.EMPTY && AlertStore.FullLog([]) == []
  {
  }

  lemma LastStep(steps: seq<AlertStore.Step>, n: nat)
    requires n < |steps|
    ensures var s := AlertStore.RunStore(steps[..n]);
            && AlertStore.RunStore(steps[..n + 1]) == AlertStore.After(s, steps[n])
            && AlertStore.FullLog(steps[..n + 1]) == AlertStore.FullLog(steps[..n]) + AlertStore.Emitted(s, steps[n])
  {
    hide AlertStore.After, AlertStore.Emitted;
    assert steps[..n + 1][..n] == steps[..n];
  }

  lemma {:induction false} LogIsChronological(steps: seq<AlertStore.Step>)
    requires MonotoneClock(steps)
    ensures Chronological(AlertStore.FullLog(steps)) && LoggedInTime(AlertStore.FullLog(steps), steps)
  {
    hide AlertStore.Emitted, AlertStore.After, AlertStore.RunStore, AlertStore.FullLog, MonotoneClock, IsReading;
    NoSteps();
    if steps != [] {
      hide Chronological, LoggedInTime;
      var n := |steps| - 1;
      MonotonePrefix(steps, n);
      var prev, st := steps[..n], steps[n];
      LogIsChronological(prev);
      LastStep(steps, n);
      assert steps[..n + 1] == steps;
      var more := AlertStore.Emitted(AlertStore.RunStore(prev), st);
      EmittedNow(AlertStore.RunStore(prev), st);
      assert prev + [st] == steps;
      LogExtends(AlertStore.FullLog(prev), prev, st, more);
    }
  }

  lemma LogExtends(log: seq<AlertEvent>, steps: seq<AlertStore.Step>, st: AlertStore.Step, more: seq<AlertEvent>)
    requires Chronological(log) && LoggedInTime(log, steps) && MonotoneClock(steps + [st])
    requires |more| <= 1 && forall e :: e in more ==> st.Alert? && e.receivedAt == st.now
    ensures Chronological(log + more) && LoggedInTime(log + more, steps + [st])
  {
    var log', steps' := log + more, steps + [st];
    forall i | 0 <= i < |log'|
      ensures IsReading(steps', log'[i].receivedAt)
    {
      if i < |log| {
        assert IsReading(steps, log[i].receivedAt);
        var k :| 0 <= k < |steps| && steps[k].Alert? && steps[k].now == log[i].receivedAt;
        assert steps'[k] == steps[k];
      } else {
        assert more[0] in more && steps'[|steps|] == st;
      }
    }
    if more != [] {
      forall i | 0 <= i < |log|
        ensures log[i].receivedAt <= more[0].receivedAt
      {
        assert IsReading(steps, log[i].receivedAt);
        var k :| 0 <= k < |steps| && steps[k].Alert? && steps[k].now == log[i].receivedAt;
        assert more[0] in more && steps'[k] == steps[k] && steps'[|steps|] == st;
      }
    }
  }

  lemma {:induction false} KeptIsSuffix(h: seq<AlertEvent>, olderThan: int)
    requires Chronological(h)
    ensures |AlertStore.Kept(h, olderThan)| <= |h|
    ensures AlertStore.Kept(h, olderThan) == h[|h| - |AlertStore.Kept(h, olderThan)|..]
    ensures h != [] && h[|h| - 1].receivedAt < olderThan ==> AlertStore.Kept(h, olderThan) == []
  {
    if h != [] {
      var n := |h| - 1;
      var prev := h[..n];
      KeptIsSuffix(prev, olderThan);
      var kept := AlertStore.Kept(prev, olderThan);
      if h[n].receivedAt < olderThan {
        assert n > 0 ==> prev[n - 1].receivedAt <= h[n].receivedAt;
        assert kept == [];
      } else {
        var d := n - |kept|;
        assert h[d..] == prev[d..] + [h[n]];
      }
    }
  }

  /** The history is always the newest part of the log: eviction and pruning only ever drop its old end. */
  lemma {:induction false} HistoryIsWindow(steps: seq<AlertStore.Step>)
    requires MonotoneClock(steps)
    ensures var log, h := AlertStore.FullLog(steps), AlertStore.RunStore(steps).history;
            |h| <= |log| && h == log[|log| - |h|..]
  {
    hide AlertStore.Emitted, AlertStore.After, AlertStore.RunStore, AlertStore.FullLog, MonotoneClock, Chronological, LoggedInTime;
    NoSteps();
    if steps != [] {
      var n := |steps| - 1;
      MonotonePrefix(steps, n);
      var prev := steps[..n];
      HistoryIsWindow(prev);
      LogIsChronological(prev);
      LastStep(steps, n);
      assert steps[..n + 1] == steps;
      StepIsSuffix(AlertStore.RunStore(prev), AlertStore.FullLog(prev), steps[n]);
    }
  }

  lemma StepIsSuffix(s: AlertStore.Store, log: seq<AlertEvent>, st: AlertStore.Step)
    requires Chronological(log) && |s.history| <= |log| && s.history == log[|log| - |s.history|..]
    ensures var h', log' := AlertStore.After(s, st).history, log + AlertStore.Emitted(s, st);
            |h'| <= |log'| && h' == log'[|log'| - |h'|..] && |log'| - |h'| >= |log| - |s.history|
  {
    hide AlertStore.After, AlertStore.Emitted, AlertStore.Kept;
    if st.Prune? { KeptIsSuffix(s.history, st.olderThan); }
    AfterIsSuffix(s, log, st);
  }

  lemma AfterIsSuffix(s: AlertStore.Store, log: seq<AlertEvent>, st: AlertStore.Step)
    requires |s.history| <= |log| && s.history == log[|log| - |s.history|..]
    requires st.Prune? ==> var kept := AlertStore.Kept(s.history, st.olderThan);
                           |kept| <= |s.history| && kept == s.history[|s.history| - |kept|..]
    ensures var h', log' := AlertStore.After(s, st).history, log + AlertStore.Emitted(s, st);
            |h'| <= |log'| && h' == log'[|log'| - |h'|..] && |log'| - |h'| >= |log| - |s.history|
  {
    hide AlertStore.Kept, AlertStore.Label;
  }

  lemma {:induction false} WindowsMoveForward(steps: seq<AlertStore.Step>, k: nat, l: nat)
    requires MonotoneClock(steps) && k <= l <= |steps|
    ensures AlertStore.FullLog(steps[..k]) <= AlertStore.FullLog(steps[..l])
    ensures WindowAt(steps, k).lo <= WindowAt(steps, l).lo && WindowAt(steps, k).hi <= WindowAt(steps, l).hi
    decreases l
  {
    hide AlertStore.RunStore, AlertStore.FullLog, AlertStore.After, AlertStore.Emitted, MonotoneClock, Chronological;
    if k < l {
      MonotonePrefix(steps, l - 1);
      WindowsMoveForward(steps, k, l - 1);
      var prev := steps[..l - 1];
      HistoryIsWindow(prev);
      LogIsChronological(prev);
      LastStep(steps, l - 1);
      StepIsSuffix(AlertStore.RunStore(prev), AlertStore.FullLog(prev), steps[l - 1]);
    }
  }

  /**
    * The histories a client meets at any non-decreasing points of a run, whatever payloads and prunes happen
    * in between, are windows of the run's log, so the snapshot theorem applies to them.
    */
  lemma StoreHistoriesAreWindows(steps: seq<AlertStore.Step>, cuts: seq<nat>, ws: seq<Window>, hs: seq<seq<AlertEvent>>)
    requires MonotoneClock(steps) && |ws| == |hs| == |cuts|
    requires forall k :: 0 <= k < |cuts| ==> cuts[k] <= |steps| && ws[k] == WindowAt(steps, cuts[k]) && hs[k] == HistoryAt(steps, cuts[k])
    requires forall k, l :: 0 <= k < l < |cuts| ==> cuts[k] <= cuts[l]
    ensures AreWindows(AlertStore.FullLog(steps), ws, hs)
  {
    hide AlertStore.FullLog, AlertStore.RunStore, HistoryAt, WindowAt;
    forall k | 0 <= k < |ws|
      ensures ws[k].lo <= ws[k].hi <= |AlertStore.FullLog(steps)| && hs[k] == AlertStore.FullLog(steps)[ws[k].lo..ws[k].hi]
    {
      HistoryAtIsWindow(steps, cuts[k]);
    }
    forall k, l | 0 <= k < l < |ws|
      ensures ws[k].lo <= ws[l].lo && ws[k].hi <= ws[l].hi
    {
      WindowsMoveForward(steps, cuts[k], cuts[l]);
    }
  }

  lemma HistoryAtIsWindow(steps: seq<AlertStore.Step>, k: nat)
    requires MonotoneClock(steps) && k <= |steps|
    ensures var w, log := WindowAt(steps, k), AlertStore.FullLog(steps);
            w.lo <= w.hi <= |log| && HistoryAt(steps, k) == log[w.lo..w.hi]
  {
    hide AlertStore.FullLog, AlertStore.RunStore;
    var log, part, w := AlertStore.FullLog(steps), AlertStore.FullLog(steps[..k]), WindowAt(steps, k);
    HistoryIsWindow(steps[..k]);
    WindowsMoveForward(steps, k, |steps|);
    assert steps[..|steps|] == steps;
    assert part == log[..|part|];
    assert part[w.lo..] == log[w.lo..w.hi];
  }

  predicate NoTieFrom(log: seq<AlertEvent>, lo: nat)
  {
    forall i :: lo <= i < |log| - 1 ==> !TieAtPowerOfTen(log, i)
  }

  /** Every part of a run's log is in time order and consecutively numbered. */
  lemma LogParts(steps: seq<AlertStore.Step>, lo: nat)
    requires MonotoneClock(steps) && lo <= |AlertStore.FullLog(steps)|
    ensures Chronological(AlertStore.FullLog(steps)[lo..]) && Consecutive(AlertStore.FullLog(steps)[lo..])
  {
    hide AlertStore.FullLog, AlertStore.RunStore;
    LogIsChronological(steps);
    AlertStore.StoreInvariant(steps);
  }

  /** From such a place on, keys increase iff no tie falls on a power of ten there. */
  lemma LogIncreasesIff(steps: seq<AlertStore.Step>, lo: nat)
    requires MonotoneClock(steps) && lo <= |AlertStore.FullLog(steps)|
    ensures Increasing(AlertStore.FullLog(steps)[lo..]) <==> NoTieFrom(AlertStore.FullLog(steps), lo)
  {
    hide AlertStore.FullLog, Increasing, Chronological, Consecutive;
    var log := AlertStore.FullLog(steps);
    var h := log[lo..];
    LogParts(steps, lo);
    KeysIncreaseIff(h);
    assert forall i :: 0 <= i < |h| - 1 ==> TieAtPowerOfTen(h, i) == TieAtPowerOfTen(log, lo + i);
    assert forall i :: lo <= i < |log| - 1 ==> TieAtPowerOfTen(log, i) == TieAtPowerOfTen(h, i - lo);
  }

  /**
    * The store as it is: after every run, paging through its history is exact for all filters and limits if and
    * only if no two neighbouring events of the history tie across a power of ten.
    */
  lemma StorePaginationExactIff(steps: seq<AlertStore.Step>)
    requires MonotoneClock(steps) && InRange(AlertStore.RunStore(steps).history)
    ensures var h := AlertStore.RunStore(steps).history;
            (forall m: Filter, limit: nat :: limit >= 1 ==> WalksExactly(h, m, limit)) <==> NoTieFrom(h, 0)
  {
    hide AlertStore.FullLog, AlertStore.RunStore, WalksExactly, Increasing, Chronological, Consecutive;
    var log, h := AlertStore.FullLog(steps), AlertStore.RunStore(steps).history;
    HistoryIsWindow(steps);
    LogParts(steps, |log| - |h|);
    KeysIncreaseIff(h);
    PaginationExactIff(h);
  }

  predicate Ascending(cuts: seq<nat>, n: nat)
  {
    && (forall k :: 0 <= k < |cuts| ==> cuts[k] <= n)
    && (forall k, l :: 0 <= k < l < |cuts| ==> cuts[k] <= cuts[l])
  }

  /** The histories a client meets that fetches its pages at the given points of a run. */
  function HistoriesAt(steps: seq<AlertStore.Step>, cuts: seq<nat>): seq<seq<AlertEvent>>
    requires Ascending(cuts, |steps|)
  {
    seq(|cuts|, k requires 0 <= k < |cuts| => HistoryAt(steps, cuts[k]))
  }

  /** Windows of a log stay windows when the part before the first of them is forgotten. */
  lemma WindowsOfRest(log: seq<AlertEvent>, ws: seq<Window>, hs: seq<seq<AlertEvent>>, rest: seq<Window>)
    requires AreWindows(log, ws, hs) && ws != [] && |rest| == |ws|
    requires forall k :: 0 <= k < |ws| && ws[k].lo >= ws[0].lo && ws[k].hi >= ws[0].lo ==>
               rest[k] == Window(ws[k].lo - ws[0].lo, ws[k].hi - ws[0].lo)
    ensures AreWindows(log[ws[0].lo..], rest, hs)
  {
    var lo := ws[0].lo;
    assert forall k :: 0 <= k < |ws| ==> ws[k].lo >= lo && ws[k].hi >= lo;
    forall k | 0 <= k < |ws|
      ensures hs[k] == log[lo..][rest[k].lo..rest[k].hi]
    {
      assert log[lo..][rest[k].lo..rest[k].hi] == log[ws[k].lo..ws[k].hi];
    }
  }

  /**
    * A client that fetches its pages at any later and later points of a run, while alerts arrive and are evicted
    * and pruned between them: if no tie falls on a power of ten from the first page's oldest event on, a finished
    * walk returned exactly the matching events the first page's history had, newest first and each once, down to
    * some place b that only eviction or pruning before the last page can have moved; and it does finish.
    */
  lemma StoreWalkReturnsSnapshot(steps: seq<AlertStore.Step>, cuts: seq<nat>, m: Filter, limit: nat) returns (b: nat)
    requires MonotoneClock(steps) && Ascending(cuts, |steps|) && cuts != [] && limit >= 1
    requires InRange(AlertStore.FullLog(steps)) && NoTieFrom(AlertStore.FullLog(steps), WindowAt(steps, cuts[0]).lo)
    ensures var log, first, last := AlertStore.FullLog(steps), WindowAt(steps, cuts[0]), WindowAt(steps, cuts[|cuts| - 1]);
            var r := Follow(HistoriesAt(steps, cuts), m, limit, None);
            && b <= first.hi <= |log| && HistoryAt(steps, cuts[0]) == log[first.lo..first.hi]
            && (r.1 ==> first.lo <= b <= last.lo && r.0 == Select(log[b..first.hi], m, None))
            && (first.hi - first.lo < |cuts| ==> r.1)
  {
    hide AlertStore.FullLog, AlertStore.RunStore, HistoryAt, WindowAt, Select, Follow, TieAtPowerOfTen;
    var log, hs := AlertStore.FullLog(steps), HistoriesAt(steps, cuts);
    var ws := seq(|cuts|, k requires 0 <= k < |cuts| => WindowAt(steps, cuts[k]));
    StoreHistoriesAreWindows(steps, cuts, ws, hs);
    var lo := ws[0].lo;
    LogIncreasesIff(steps, lo);
    hide Increasing, NoTieFrom;
    var rest := seq(|ws|, k requires 0 <= k < |ws| => Window(NatSub(ws[k].lo, lo), NatSub(ws[k].hi, lo)));
    WindowsOfRest(log, ws, hs, rest);
    var b0 := WalkReturnsSnapshot(log[lo..], rest, hs, m, limit);
    b := lo + b0;
    assert log[lo..][b0..rest[0].hi] == log[b..ws[0].hi];
  }

  function NatSub(a: nat, b: nat): nat { if a >= b then a - b else 0 }

  // --- What a listing shows ---

  function FilterSeq(m: Filter, s: seq<AlertEvent>): seq<AlertEvent>
  {
    if s == [] then [] else (if m(s[0]) then [s[0]] else []) + FilterSeq(m, s[1..])
  }

  lemma {:induction false} ReverseAt(h: seq<AlertEvent>, i: nat)
    requires i < |h|
    ensures Reverse(h)[i] == h[|h| - 1 - i]
  {
    if i > 0 { ReverseAt(h[..|h| - 1], i - 1); }
  }

  /** What the scan selects without a cursor is the history backwards, filtered. */
  lemma {:induction false} SelectMeans(h: seq<AlertEvent>, m: Filter)
    ensures Select(h, m, None) == FilterSeq(m, Reverse(h))
  {
    if h != [] {
      var n := |h| - 1;
      SelectMeans(h[..n], m);
      assert Reverse(h)[0] == h[n] && Reverse(h)[1..] == Reverse(h[..n]);
    }
  }

  predicate StandsAt(s: string, sub: string, i: nat) { i + |sub| <= |s| && s[i..i + |sub|] == sub }

  /** The text stands somewhere in the other. */
  ghost predicate Includes(s: string, sub: string) { exists i: nat :: StandsAt(s, sub, i) }

  lemma {:induction false} ContainsIff(s: string, sub: string)
    ensures Contains(s, sub) <==> Includes(s, sub)
  {
    assert sub <= s <==> StandsAt(s, sub, 0) by { if |sub| <= |s| { assert s[0..|sub|] == s[..|sub|]; } }
    if s != "" {
      ContainsIff(s[1..], sub);
      forall i: nat
        ensures StandsAt(s, sub, i + 1) <==> StandsAt(s[1..], sub, i)
      {
        if i + 1 + |sub| <= |s| { assert s[i + 1..i + 1 + |sub|] == s[1..][i..i + |sub|]; }
      }
      hide StandsAt;
      if Includes(s[1..], sub) {
        var i: nat :| StandsAt(s[1..], sub, i);
        assert StandsAt(s, sub, i + 1);
      }
      if Includes(s, sub) && !StandsAt(s, sub, 0) {
        var i: nat :| StandsAt(s, sub, i);
        assert StandsAt(s, sub, i - 1 + 1);
        assert StandsAt(s[1..], sub, i - 1);
      }
    }
  }

  /** The event is one the options ask for: each option that is set agrees with it, the two times included. */
  ghost predicate Wanted(o: ListOptions, lower: string -> string, e: AlertEvent)
  {
    && (o.namespace == "" || o.namespace == e.namespace)
    && (o.severity == "" || o.severity == e.severity)
    && (o.status == "" || o.status == e.status)
    && (o.alertName == "" || Includes(lower(e.alertName), lower(o.alertName)))
    && (match o.since case None => true case Some(t) => t <= e.receivedAt)
    && (match o.until case None => true case Some(t) => e.receivedAt <= t)
  }

  lemma MatchesIff(o: ListOptions, lower: string -> string, e: AlertEvent)
    ensures Matches(o, lower, e) <==> Wanted(o, lower, e)
  {
    ContainsIff(lower(e.alertName), lower(o.alertName));
  }

  lemma {:induction false} FilterHas(m: Filter, s: seq<AlertEvent>, e: AlertEvent)
    ensures e in FilterSeq(m, s) <==> e in s && m(e)
  {
    if s != [] {
      FilterHas(m, s[1..], e);
      assert s == [s[0]] + s[1..];
    }
  }

  lemma ReverseHas(h: seq<AlertEvent>, e: AlertEvent)
    ensures e in Reverse(h) <==> e in h
  {
    forall i | 0 <= i < |h|
      ensures Reverse(h)[i] == h[|h| - 1 - i]
    {
      ReverseAt(h, i);
    }
    if e in h {
      var i :| 0 <= i < |h| && h[i] == e;
      assert Reverse(h)[|h| - 1 - i] == e;
    }
  }

  /**
    * A first page, in full: the wanted events newest first, as many as asked for and 50 if no positive number is,
    * with a token exactly when there are more.
    */
  lemma FirstPageMeans(h: seq<AlertEvent>, o: ListOptions, lower: string -> string, e: AlertEvent)
    requires o.token.Absent?
    ensures var all := FilterSeq(FilterOf(o, lower), Reverse(h));
            var n := if o.limit <= 0 then 50 else o.limit;
            && (e in all <==> e in h && Wanted(o, lower, e))
            && List(h, o, lower).Ok?
            && (var page := List(h, o, lower).page;
                page.items == (if |all| <= n then all else all[..n]) && (page.token.Some? <==> |all| > n))
  {
    hide Select, Matches, FilterSeq, Reverse, Wanted;
    SelectMeans(h, FilterOf(o, lower));
    FilterHas(FilterOf(o, lower), Reverse(h), e);
    ReverseHas(h, e);
    MatchesIff(o, lower, e);
  }

  /** A token is refused exactly if it is not base64 or what stands before its first colon is no 64-bit number. */
  lemma TokenRefusedIff(h: seq<AlertEvent>, o: ListOptions, lower: string -> string)
    ensures List(h, o, lower).InvalidToken? <==>
              || o.token.BadBase64?
              || (o.token.Text? && var number := o.token.text[..IndexOf(o.token.text, ':')];
                                   !(IsNumeral(number) && IsInt64(NumeralValue(number))))
  {
    hide PageOf, Matches;
    if o.token.Text? {
      var number := o.token.text[..IndexOf(o.token.text, ':')];
      if IsNumeral(number) { ParseIntIff(number, NumeralValue(number)); }
      if ParseInt(number).Some? { ParseIntIff(number, ParseInt(number).value); }
    }
  }

  // --- A run that breaks it ---

  lemma {:induction false} SameAlertAgain(a: AlertStore.WebhookAlert, clusterId: string, t: int, n: nat)
    requires a.status == "firing" && n <= AlertStore.MAX_HISTORY
    ensures var s := AlertStore.RunStore(seq(n, _ => AlertStore.Alert(a, clusterId, t)));
            && s.nextId == n && |s.history| == n
            && forall i :: 0 <= i < n ==> s.history[i].number == i + 1 && s.history[i].receivedAt == t
  {
    if n > 0 {
      SameAlertAgain(a, clusterId, t, n - 1);
      var steps := seq(n, _ => AlertStore.Alert(a, clusterId, t));
      assert steps[..n - 1] == seq(n - 1, _ => AlertStore.Alert(a, clusterId, t));
    }
  }

  /** Ten firing alerts at one clock reading: the ninth and tenth tie across a power of ten, and paging one by one fails. */
  lemma TenAlertsAtOnce(a: AlertStore.WebhookAlert, clusterId: string, t: int)
    requires a.status == "firing" && IsInt64(t)
    ensures var steps := seq(10, _ => AlertStore.Alert(a, clusterId, t));
            var h := AlertStore.RunStore(steps).history;
            && MonotoneClock(steps) && InRange(h) && |h| == 10 && TieAtPowerOfTen(h, 8)
            && !WalksExactly(h, Everything(), 1)
  {
    hide AlertStore.RunStore, WalksExactly, Increasing, IsInt64;
    var steps := seq(10, _ => AlertStore.Alert(a, clusterId, t));
    var h := AlertStore.RunStore(steps).history;
    SameAlertAgain(a, clusterId, t, 10);
    assert IsPowerOfTen(10);
    KeysIncreaseIff(h);
    PaginationExactIff(h);
  }
}
