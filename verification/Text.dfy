/** Options, results and the string operations of the Rust standard library the bot relies on. */
module Text {

  datatype Option<+T> = None | Some(value: T)

  datatype Result<+T, +E> = Ok(value: T) | Err(error: E)

  predicate StartsWith(s: string, prefix: string) {
    prefix <= s
  }

  predicate EndsWith(s: string, suffix: string) {
    |suffix| <= |s| && s[|s| - |suffix|..] == suffix
  }

  /** `trim_end_matches(c)`. */
  function TrimEnd(s: string, c: char): (r: string)
    ensures r <= s
    ensures r == [] || r[|r| - 1] != c
    ensures forall i | |r| <= i < |s| :: s[i] == c
  {
    if s != [] && s[|s| - 1] == c then TrimEnd(s[..|s| - 1], c) else s
  }

  lemma {:induction false} TrimEndAppend(s: string, c: char)
    ensures TrimEnd(s + [c], c) == TrimEnd(s, c)
  {
    assert (s + [c])[..|s|] == s;
  }

  /** `rfind(c)`: the index of the last occurrence. */
  function LastIndex(s: string, c: char): (r: Option<nat>)
    ensures r.None? <==> c !in s
    ensures r.Some? ==> r.value < |s| && s[r.value] == c && forall j | r.value < j < |s| :: s[j] != c
  {
    if s == [] then None
    else if s[|s| - 1] == c then Some(|s| - 1)
    else
      assert forall j | 0 <= j < |s| - 1 :: s[j] == s[..|s| - 1][j];
      LastIndex(s[..|s| - 1], c)
  }

  lemma {:induction false} LastIndexIs(s: string, c: char, i: nat)
    requires i < |s| && s[i] == c && forall j | i < j < |s| :: s[j] != c
    ensures LastIndex(s, c) == Some(i)
  {
    if i < |s| - 1 {
      LastIndexIs(s[..|s| - 1], c, i);
    }
  }

  /** `split_once(c)`: the text before and after the first occurrence. */
  function SplitOnce(s: string, c: char): (r: Option<(string, string)>)
    ensures r.None? <==> c !in s
    ensures r.Some? ==> s == r.value.0 + [c] + r.value.1 && c !in r.value.0
  {
    if s == [] then None
    else if s[0] == c then assert s == [] + [c] + s[1..]; Some(([], s[1..]))
    else
      match SplitOnce(s[1..], c)
      case None => None
      case Some((a, b)) => assert s == [s[0]] + s[1..]; Some(([s[0]] + a, b))
  }

  /** The split is the only decomposition whose left part is free of the separator. */
  lemma {:induction false} SplitOnceAt(a: string, c: char, b: string)
    requires c !in a
    ensures SplitOnce(a + [c] + b, c) == Some((a, b))
  {
    var s := a + [c] + b;
    if a == [] {
      assert s[1..] == b;
    } else {
      assert s[1..] == a[1..] + [c] + b;
      assert s[0] == a[0] && [a[0]] + a[1..] == a;
      SplitOnceAt(a[1..], c, b);
    }
  }

  /** `splitn(n, c).collect()`. */
  function SplitN(s: string, n: nat, c: char): seq<string>
    decreases n
  {
    if n == 0 then []
    else if n == 1 then [s]
    else
      match SplitOnce(s, c)
      case None => [s]
      case Some((a, b)) => [a] + SplitN(b, n - 1, c)
  }

  lemma SplitNAt(a: string, c: char, b: string, n: nat)
    requires c !in a && n > 1
    ensures SplitN(a + [c] + b, n, c) == [a] + SplitN(b, n - 1, c)
  {
    SplitOnceAt(a, c, b);
  }

  /** Parts with a separator between them. */
  function JoinWith(parts: seq<string>, c: char): string {
    if parts == [] then []
    else if |parts| == 1 then parts[0]
    else parts[0] + [c] + JoinWith(parts[1..], c)
  }

  /** Splitting takes joined parts apart, if only the last may hold the separator. */
  lemma {:induction false} SplitJoined(parts: seq<string>, c: char)
    requires parts != [] && forall i | 0 <= i < |parts| - 1 :: c !in parts[i]
    ensures SplitN(JoinWith(parts, c), |parts|, c) == parts
  {
    if |parts| > 1 {
      SplitJoined(parts[1..], c);
      SplitNAt(parts[0], c, JoinWith(parts[1..], c), |parts|);
      assert parts == [parts[0]] + parts[1..];
    }
  }

  /** `split(c).collect()`. */
  function Split(s: string, c: char): (parts: seq<string>)
    ensures parts != []
    decreases |s|
  {
    match SplitOnce(s, c)
    case None => [s]
    case Some((a, b)) => [a] + Split(b, c)
  }

  /** The White_Space property of Unicode, as `str::trim` reads it. */
  predicate IsWhitespace(c: char) {
    '\t' <= c <= '\r' || c == ' ' || c == '\U{0085}' || c == '\U{00A0}' || c == '\U{1680}'
    || '\U{2000}' <= c <= '\U{200A}' || c == '\U{2028}' || c == '\U{2029}' || c == '\U{202F}'
    || c == '\U{205F}' || c == '\U{3000}'
  }

  function Trim(s: string): (r: string)
    ensures r == [] || (!IsWhitespace(r[0]) && !IsWhitespace(r[|r| - 1]))
    decreases |s|
  {
    if s == [] then []
    else if IsWhitespace(s[0]) then Trim(s[1..])
    else if IsWhitespace(s[|s| - 1]) then Trim(s[..|s| - 1])
    else s
  }

  ghost predicate IsBlank(s: string) {
    forall i | 0 <= i < |s| :: IsWhitespace(s[i])
  }

  lemma WithoutFirst(a: string, b: string)
    requires a != []
    ensures (a + b)[0] == a[0] && (a + b)[1..] == a[1..] + b
  {
  }

  lemma WithoutLast(a: string, b: string)
    requires b != []
    ensures (a + b)[|a + b| - 1] == b[|b| - 1] && (a + b)[..|a + b| - 1] == a + b[..|b| - 1]
  {
  }

  lemma TrimFirst(a: string, b: string)
    requires a != [] && IsWhitespace(a[0])
    ensures Trim(a + b) == Trim(a[1..] + b)
  {
    WithoutFirst(a, b);
  }

  lemma TrimLast(a: string, b: string)
    requires a != [] && !IsWhitespace(a[0]) && b != [] && IsWhitespace(b[|b| - 1])
    ensures Trim(a + b) == Trim(a + b[..|b| - 1])
  {
    WithoutLast(a, b);
    assert (a + b)[0] == a[0];
  }

  lemma {:induction false} TrimRight(core: string, after: string)
    requires core != [] && !IsWhitespace(core[0]) && !IsWhitespace(core[|core| - 1]) && IsBlank(after)
    ensures Trim(core + after) == core
    decreases |after|
  {
    if after == [] {
      assert core + after == core;
    } else {
      TrimLast(core, after);
      TrimRight(core, after[..|after| - 1]);
    }
  }

  /** Trimming takes off exactly the surrounding whitespace. */
  lemma {:induction false} TrimWhole(before: string, core: string, after: string)
    requires IsBlank(before) && IsBlank(after)
    requires core != [] && !IsWhitespace(core[0]) && !IsWhitespace(core[|core| - 1])
    ensures Trim(before + (core + after)) == core
    decreases |before|
  {
    if before == [] {
      assert before + (core + after) == core + after;
      TrimRight(core, after);
    } else {
      TrimFirst(before, core + after);
      TrimWhole(before[1..], core, after);
    }
  }

  lemma TrimBetween(before: string, core: string, after: string)
    requires IsBlank(before) && IsBlank(after)
    requires core != [] && !IsWhitespace(core[0]) && !IsWhitespace(core[|core| - 1])
    ensures Trim(before + core + after) == core
  {
    assert before + core + after == before + (core + after);
    TrimWhole(before, core, after);
  }

  /** Blanks before position `i` and from position `j` on. */
  ghost predicate BlankOutside(s: string, i: nat, j: nat) {
    i <= j <= |s| && forall k | 0 <= k < |s| && !(i <= k < j) :: IsWhitespace(s[k])
  }

  lemma BlankBefore(s: string, a: nat, b: nat)
    requires s != [] && IsWhitespace(s[0]) && BlankOutside(s[1..], a, b)
    ensures BlankOutside(s, a + 1, b + 1) && s[1..][a..b] == s[a + 1..b + 1]
  {
    SliceOfTail(s, a, b);
    forall k | 0 <= k < |s| && !(a + 1 <= k < b + 1) ensures IsWhitespace(s[k]) {
      assert k > 0 ==> s[k] == s[1..][k - 1];
    }
  }

  lemma BlankAfter(s: string, i: nat, j: nat)
    requires s != [] && IsWhitespace(s[|s| - 1]) && BlankOutside(s[..|s| - 1], i, j)
    ensures BlankOutside(s, i, j) && s[..|s| - 1][i..j] == s[i..j]
  {
    forall k | 0 <= k < |s| && !(i <= k < j) ensures IsWhitespace(s[k]) {
      assert k < |s| - 1 ==> s[k] == s[..|s| - 1][k];
    }
  }

  lemma {:induction false} TrimmedFrom(s: string) returns (i: nat, j: nat)
    ensures BlankOutside(s, i, j) && Trim(s) == s[i..j]
    decreases |s|
  {
    i, j := 0, |s|;
    if s != [] && IsWhitespace(s[0]) {
      var a, b := TrimmedFrom(s[1..]);
      BlankBefore(s, a, b);
      i, j := a + 1, b + 1;
    } else if s != [] && IsWhitespace(s[|s| - 1]) {
      i, j := TrimmedFrom(s[..|s| - 1]);
      BlankAfter(s, i, j);
    }
  }

  /** A text is its trimmed text between blanks. */
  lemma TrimmedWhole(s: string) returns (before: string, after: string)
    ensures IsBlank(before) && IsBlank(after) && s == before + Trim(s) + after
  {
    var i, j := TrimmedFrom(s);
    before, after := s[..i], s[j..];
  }

  /** Three parts make up the whole. */
  lemma SplitThree(s: string, c: char)
    requires |Split(s, c)| == 3
    ensures s == Split(s, c)[0] + [c] + (Split(s, c)[1] + [c] + Split(s, c)[2])
  {
    var rest := SplitOnce(s, c).value.1;
    assert Split(s, c)[1..] == Split(rest, c);
    var last := SplitOnce(rest, c).value.1;
    assert Split(rest, c)[1..] == Split(last, c);
  }

  lemma SliceOfTail<T>(s: seq<T>, a: nat, b: nat)
    requires a <= b < |s|
    ensures s[1..][a..b] == s[a + 1..b + 1]
  {
    var (slice, same) := (s[1..][a..b], s[a + 1..b + 1]);
    assert |slice| == |same|;
    forall k | 0 <= k < |slice| ensures slice[k] == same[k] {
      assert slice[k] == s[1..][a + k] && same[k] == s[a + 1 + k];
    }
  }

  // -------------------------------------------------------------------------
  // Decimal numbers
  // -------------------------------------------------------------------------

  predicate IsDigit(c: char) {
    '0' <= c <= '9'
  }

  ghost predicate IsNumeral(s: string) {
    s != [] && forall i | 0 <= i < |s| :: IsDigit(s[i])
  }

  function DigitValue(c: char): (n: nat)
    requires IsDigit(c)
    ensures n < 10
  {
    c as int - '0' as int
  }

  /** The value of a digit string, most significant digit first. */
  function Value(s: string): nat
    requires forall i | 0 <= i < |s| :: IsDigit(s[i])
  {
    if s == [] then 0 else 10 * Value(s[..|s| - 1]) + DigitValue(s[|s| - 1])
  }

  function AfterPlus(s: string): string {
    if s != [] && s[0] == '+' then s[1..] else s
  }

  /** The value of a numeral with one digit more. */
  lemma OneMoreDigit(s: string, d: nat)
    requires (forall i | 0 <= i < |s| :: IsDigit(s[i])) && d < 10
    ensures var t := s + ["0123456789"[d]];
            (forall i | 0 <= i < |t| :: IsDigit(t[i])) && Value(t) == 10 * Value(s) + d
  {
    var t := s + ["0123456789"[d]];
    assert forall i | 0 <= i < 10 :: "0123456789"[i] == '0' + i as char;
    assert t[..|t| - 1] == s;
  }

  /** `str::parse` for an integer type with maximum `max`, on text without a minus sign. */
  function ParseInt(s: string, max: nat): (r: Option<nat>)
    ensures r.Some? ==> r.value <= max
  {
    if AfterPlus(s) == [] then None
    else
      match ParseDigits(AfterPlus(s))
      case None => None
      case Some(n) => if n <= max then Some(n) else None
  }

  /** Digit by digit, failing on anything else. */
  function ParseDigits(s: string): Option<nat> {
    if s == [] then Some(0)
    else
      match ParseDigits(s[..|s| - 1])
      case None => None
      case Some(n) => if IsDigit(s[|s| - 1]) then Some(10 * n + DigitValue(s[|s| - 1])) else None
  }

  lemma {:induction false} ParsedDigits(s: string)
    ensures ParseDigits(s).Some? <==> forall i | 0 <= i < |s| :: IsDigit(s[i])
    ensures ParseDigits(s).Some? ==> ParseDigits(s).value == Value(s)
  {
    if s != [] {
      ParsedDigits(s[..|s| - 1]);
      assert forall i | 0 <= i < |s| - 1 :: s[i] == s[..|s| - 1][i];
    }
  }

  /** A number as the integer parser takes it: digits, with or without a plus sign. */
  ghost predicate Spells(s: string, n: nat, max: nat) {
    IsNumeral(AfterPlus(s)) && Value(AfterPlus(s)) == n <= max
  }

  lemma SpelledIffParsed(s: string, n: nat, max: nat)
    ensures ParseInt(s, max) == Some(n) <==> Spells(s, n, max)
  {
    ParsedDigits(AfterPlus(s));
  }

  function Digit(d: nat): (c: char)
    requires d < 10
    ensures IsDigit(c) && DigitValue(c) == d
  {
    '0' + d as char
  }

  /** `Display` of an unsigned integer. */
  function Decimal(n: nat): (s: string)
    ensures IsNumeral(s)
    ensures Value(s) == n
  {
    if n < 10 then
      assert [Digit(n)][..0] == [];
      [Digit(n)]
    else
      var s := Decimal(n / 10) + [Digit(n % 10)];
      assert s[..|s| - 1] == Decimal(n / 10);
      s
  }

  lemma ParseNumeral(s: string, max: nat)
    requires IsNumeral(s)
    ensures ParseInt(s, max) == if Value(s) <= max then Some(Value(s)) else None
  {
    assert IsDigit(s[0]);
    ParsedDigits(s);
  }
}
