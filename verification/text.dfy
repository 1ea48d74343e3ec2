/** Text primitives of the Rust standard library and of JavaScript that the core relies on:
    whitespace classes, trimming, the first whitespace-separated token, ASCII lowering,
    substring and prefix tests, byte-wise string order, and decimal numbers. */
module Text {
  import opened Wrappers

  /** Rust's `char::is_whitespace`, the Unicode White_Space property. Used by `str::trim`
      and `str::split_whitespace`. */
  predicate IsRustWhitespace(c: char) {
    ('\t' <= c <= '\r') || c == ' ' || c == '\U{85}' || c == '\U{A0}' || c == '\U{1680}'
    || ('\U{2000}' <= c <= '\U{200A}') || c == '\U{2028}' || c == '\U{2029}'
    || c == '\U{202F}' || c == '\U{205F}' || c == '\U{3000}'
  }

  /** JavaScript's WhiteSpace and LineTerminator productions, which `String.prototype.trim`
      removes. Unlike Rust's class it contains U+FEFF and not U+0085. */
  predicate IsJsWhitespace(c: char) {
    ('\t' <= c <= '\r') || c == ' ' || c == '\U{A0}' || c == '\U{1680}'
    || ('\U{2000}' <= c <= '\U{200A}') || c == '\U{2028}' || c == '\U{2029}'
    || c == '\U{202F}' || c == '\U{205F}' || c == '\U{3000}' || c == '\U{FEFF}'
  }

  /** How many characters of class `ws` open `s`. */
  function LeadingCount(ws: char -> bool, s: string): (k: nat)
    ensures k <= |s|
    ensures forall i :: 0 <= i < k ==> ws(s[i])
    ensures k == |s| || !ws(s[k])
  {
    if s != [] && ws(s[0]) then
      var k := 1 + LeadingCount(ws, s[1..]);
      assert forall i :: 1 <= i < k ==> s[i] == s[1..][i - 1];
      k
    else 0
  }

  /** How many characters of class `ws` close `s`. */
  function TrailingCount(ws: char -> bool, s: string): (k: nat)
    ensures k <= |s|
    ensures forall i :: |s| - k <= i < |s| ==> ws(s[i])
    ensures k == |s| || !ws(s[|s| - k - 1])
  {
    if s != [] && ws(s[|s| - 1]) then
      var k := 1 + TrailingCount(ws, s[..|s| - 1]);
      assert forall i :: |s| - k <= i < |s| - 1 ==> s[i] == s[..|s| - 1][i];
      k
    else 0
  }

  /** `s` without its leading characters of class `ws`. */
  function TrimStart(ws: char -> bool, s: string): (r: string)
  {
    s[LeadingCount(ws, s)..]
  }

  /** `s` without its trailing characters of class `ws`. */
  function TrimEnd(ws: char -> bool, s: string): (r: string)
  {
    s[..|s| - TrailingCount(ws, s)]
  }

  /** `s` without leading and trailing characters of class `ws`: a contiguous piece of `s`
      whose ends are not of that class, everything cut off being of that class. */
  function Trim(ws: char -> bool, s: string): (r: string)
  {
    TrimEnd(ws, TrimStart(ws, s))
  }

  /** Rust's `str::trim`. */
  function RustTrim(s: string): (r: string)
  {
    Trim(IsRustWhitespace, s)
  }

  /** JavaScript's `String.prototype.trim`. */
  function JsTrim(s: string): (r: string)
  {
    Trim(IsJsWhitespace, s)
  }

  /** What trimming promises: a contiguous piece of the input, bounded by non-whitespace,
      the removed ends being whitespace only. */
  lemma TrimShape(ws: char -> bool, s: string)
    ensures exists i, j :: (0 <= i <= j <= |s| && Trim(ws, s) == s[i..j]
      && (forall k :: 0 <= k < i ==> ws(s[k])) && (forall k :: j <= k < |s| ==> ws(s[k])))
    ensures Trim(ws, s) == [] || (!ws(Trim(ws, s)[0]) && !ws(Trim(ws, s)[|Trim(ws, s)| - 1]))
  {
    var i := LeadingCount(ws, s);
    var t := s[i..];
    var j := |s| - TrailingCount(ws, t);
    assert Trim(ws, s) == s[i..j];
    forall k | j <= k < |s| ensures ws(s[k]) {
      assert s[k] == t[k - i];
    }
  }

  /** `s` neither starts nor ends with Rust whitespace. */
  predicate Unpadded(s: string) {
    s == [] || (!IsRustWhitespace(s[0]) && !IsRustWhitespace(s[|s| - 1]))
  }

  /** Trimming twice trims nothing more. */
  lemma TrimIdempotent(ws: char -> bool, s: string)
    ensures Trim(ws, Trim(ws, s)) == Trim(ws, s)
  {
    var r := Trim(ws, s);
    TrimShape(ws, s);
    assert TrimStart(ws, r) == r;
    assert TrimEnd(ws, r) == r;
  }

  /** How many characters without Rust whitespace open `s`. */
  function TokenLength(s: string): (k: nat)
    ensures k <= |s|
    ensures forall i :: 0 <= i < k ==> !IsRustWhitespace(s[i])
    ensures k == |s| || IsRustWhitespace(s[k])
  {
    if s != [] && !IsRustWhitespace(s[0]) then
      var k := 1 + TokenLength(s[1..]);
      assert forall i :: 1 <= i < k ==> s[i] == s[1..][i - 1];
      k
    else 0
  }

  /** Rust's `s.split_whitespace().next().unwrap_or("")`: the maximal run of non-whitespace
      characters that follows the leading whitespace, or "" when `s` holds only whitespace. */
  function FirstToken(s: string): (r: string)
    ensures var k := LeadingCount(IsRustWhitespace, s);
      k + |r| <= |s| && r == s[k..k + |r|]
  {
    var k := LeadingCount(IsRustWhitespace, s);
    s[k..k + TokenLength(s[k..])]
  }

  /** The token holds no whitespace, starts where the leading whitespace ends and ends at
      whitespace or at the end of the input; it is empty exactly when the input is blank. */
  lemma FirstTokenShape(s: string)
    ensures var r, k := FirstToken(s), LeadingCount(IsRustWhitespace, s);
      && (forall i :: 0 <= i < |r| ==> !IsRustWhitespace(r[i]))
      && (forall i :: 0 <= i < k ==> IsRustWhitespace(s[i]))
      && OccursAt(s, r, k)
      && (k + |r| == |s| || IsRustWhitespace(s[k + |r|]))
    ensures FirstToken(s) == [] <==> forall i :: 0 <= i < |s| ==> IsRustWhitespace(s[i])
  {
    var k := LeadingCount(IsRustWhitespace, s);
    var t := s[k..];
    var n := TokenLength(t);
    var r := FirstToken(s);
    assert |r| == n;
    assert forall i :: 0 <= i < n ==> r[i] == t[i];
    assert k + n < |s| ==> s[k + n] == t[n];
  }

  /** ASCII lower-casing of one character. */
  function LowerChar(c: char): (r: char)
    ensures 'A' <= c <= 'Z' ==> r as int == c as int + 32
    ensures !('A' <= c <= 'Z') ==> r == c
  {
    if 'A' <= c <= 'Z' then (c as int + 32) as char else c
  }

  /** Lower-casing of a string, restricted to ASCII letters: the same length, each
      character lowered, no upper-case ASCII letter left. */
  function ToLower(s: string): (r: string)
    ensures |r| == |s|
    ensures forall i :: 0 <= i < |s| ==> r[i] == LowerChar(s[i])
    ensures forall i :: 0 <= i < |r| ==> !('A' <= r[i] <= 'Z')
  {
    seq(|s|, i requires 0 <= i < |s| => LowerChar(s[i]))
  }

  lemma ToLowerIdempotent(s: string)
    ensures ToLower(ToLower(s)) == ToLower(s)
  {
  }

  /** `sub` occurs in `s` as a contiguous piece (Rust's `str::contains`, JavaScript's
      `String.prototype.includes`). */
  predicate Contains(s: string, sub: string) {
    exists i | 0 <= i <= |s| - |sub| :: OccursAt(s, sub, i)
  }

  /** `sub` occurs in `s` starting at index `i`. */
  predicate OccursAt(s: string, sub: string, i: int) {
    0 <= i <= |s| - |sub| && s[i..i + |sub|] == sub
  }

  lemma ContainsEmpty(s: string)
    ensures Contains(s, "")
  {
    assert OccursAt(s, "", 0);
  }

  /** `p` is a prefix of `s` (JavaScript's `String.prototype.startsWith`). */
  predicate StartsWith(s: string, p: string) {
    |p| <= |s| && s[..|p|] == p
  }

  /** `suffix` closes `s`. */
  predicate EndsWith(s: string, suffix: string) {
    |suffix| <= |s| && s[|s| - |suffix|..] == suffix
  }

  /** Rust's `Ord` on `String`: byte-wise order of the UTF-8 encodings, which is the
      order of the code points, compared character by character. */
  predicate LexLe(a: string, b: string) {
    a == [] || (b != [] && (a[0] < b[0] || (a[0] == b[0] && LexLe(a[1..], b[1..]))))
  }

  lemma {:induction false} LexLeTotal(a: string, b: string)
    ensures LexLe(a, b) || LexLe(b, a)
  {
    if a != [] && b != [] && a[0] == b[0] {
      LexLeTotal(a[1..], b[1..]);
    }
  }

  lemma {:induction false} LexLeReflexive(a: string)
    ensures LexLe(a, a)
  {
    if a != [] {
      LexLeReflexive(a[1..]);
    }
  }

  lemma {:induction false} LexLeTransitive(a: string, b: string, c: string)
    requires LexLe(a, b) && LexLe(b, c)
    ensures LexLe(a, c)
  {
    if a != [] && a[0] == b[0] && b[0] == c[0] {
      LexLeTransitive(a[1..], b[1..], c[1..]);
    }
  }

  lemma {:induction false} LexLeAntisymmetric(a: string, b: string)
    requires LexLe(a, b) && LexLe(b, a)
    ensures a == b
  {
    if a != [] && b != [] {
      LexLeAntisymmetric(a[1..], b[1..]);
      assert a == [a[0]] + a[1..] && b == [b[0]] + b[1..];
    }
  }

  predicate IsDigit(c: char) {
    '0' <= c <= '9'
  }

  predicate AllDigits(s: string) {
    forall i :: 0 <= i < |s| ==> IsDigit(s[i])
  }

  /** The number a string of decimal digits denotes, leading zeros allowed. */
  function DigitsValue(s: string): nat
    requires AllDigits(s)
  {
    if s == [] then 0 else DigitsValue(s[..|s| - 1]) * 10 + (s[|s| - 1] as int - '0' as int)
  }

  /** Rust's `str::parse` for an unsigned integer type whose values are below `limit`
      (2^32 for u32, 2^64 for u64): one optional leading '+', then at least one ASCII
      digit and nothing else, and a value that fits; anything else is an error (None). */
  function ParseUnsigned(s: string, limit: nat): (r: Option<nat>)
    ensures r.Some? ==> r.value < limit
    ensures r.Some? ==> s != [] && (s[0] == '+' || IsDigit(s[0]))
    ensures s == [] ==> r == None
  {
    var digits := if |s| > 0 && s[0] == '+' then s[1..] else s;
    if digits != [] && AllDigits(digits) && DigitsValue(digits) < limit then Some(DigitsValue(digits)) else None
  }

  /** Rust's `Display` for an unsigned integer: its decimal digits without leading zeros. */
  function DecimalString(n: nat): (r: string)
    ensures r != [] && AllDigits(r)
    ensures |r| > 1 ==> r[0] != '0'
  {
    var d := ['0' + (n % 10) as char];
    if n < 10 then d else DecimalString(n / 10) + d
  }

  /** Printing a number and parsing it back gives the number. */
  lemma {:induction false} DecimalRoundTrip(n: nat)
    ensures DigitsValue(DecimalString(n)) == n
  {
    var d := ['0' + (n % 10) as char];
    if n >= 10 {
      DecimalRoundTrip(n / 10);
      var s := DecimalString(n);
      assert s[..|s| - 1] == DecimalString(n / 10);
    }
  }

  lemma ParseDecimalString(n: nat, limit: nat)
    requires n < limit
    ensures ParseUnsigned(DecimalString(n), limit) == Some(n)
  {
    DecimalRoundTrip(n);
  }
}
