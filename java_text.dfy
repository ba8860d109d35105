/**
 * The java.lang.String operations the validations and the error mapping rely on:
 * `trim`, `isEmpty`, `matches` for the two patterns in use, `toLowerCase`, `contains`,
 * string concatenation of a possibly-null reference and of a `long`.
 * Regular expressions are written out as character predicates.
 */
module JavaText {
  import opened Wrappers

  /** A Java String reference: null, or a sequence of characters. */
  type JString = Option<string>

  // ---------------------------------------------------------------------------
  // trim / isEmpty

  /** `String.trim` strips every leading and trailing character whose code is at most U+0020. */
  predicate IsTrimmable(c: char) { c <= ' ' }

  function TrimStart(s: string): (r: string)
    ensures |r| <= |s| && r == s[|s| - |r|..]
    ensures r != [] ==> !IsTrimmable(r[0])
    ensures forall i :: 0 <= i < |s| - |r| ==> IsTrimmable(s[i])
  {
    if s != [] && IsTrimmable(s[0]) then TrimStart(s[1..]) else s
  }

  function TrimEnd(s: string): (r: string)
    ensures |r| <= |s| && r == s[..|r|]
    ensures r != [] ==> !IsTrimmable(r[|r| - 1])
    ensures forall i :: |r| <= i < |s| ==> IsTrimmable(s[i])
  {
    if s != [] && IsTrimmable(s[|s| - 1]) then TrimEnd(s[..|s| - 1]) else s
  }

  /** `s.trim()`: the longest infix of `s` that starts and ends with a non-trimmable character. */
  function Trim(s: string): (r: string)
    ensures |r| <= |s|
    ensures r != [] ==> !IsTrimmable(r[0]) && !IsTrimmable(r[|r| - 1])
  {
    TrimEnd(TrimStart(s))
  }

  /** Trimming leaves nothing exactly when every character is trimmable. */
  lemma TrimEmptyIff(s: string)
    ensures Trim(s) == [] <==> forall i :: 0 <= i < |s| ==> IsTrimmable(s[i])
  {
  }

  /** Padding made only of trimmable characters around a visible core is removed, and nothing else. */
  lemma TrimRemovesPadding(left: string, core: string, right: string)
    requires forall i :: 0 <= i < |left| ==> IsTrimmable(left[i])
    requires forall i :: 0 <= i < |right| ==> IsTrimmable(right[i])
    requires core != [] && !IsTrimmable(core[0]) && !IsTrimmable(core[|core| - 1])
    ensures Trim(left + core + right) == core
  {
    assert left + core + right == left + (core + right);
    TrimStartSkips(left, core + right);
    assert (core + right)[0] == core[0];
    TrimEndSkips(core, right);
  }

  /** Leading trimmable characters are skipped one by one. */
  lemma {:induction false} TrimStartSkips(pad: string, rest: string)
    requires forall i :: 0 <= i < |pad| ==> IsTrimmable(pad[i])
    ensures TrimStart(pad + rest) == TrimStart(rest)
  {
    if pad == [] {
      assert pad + rest == rest;
    } else {
      assert (pad + rest)[1..] == pad[1..] + rest;
      TrimStartSkips(pad[1..], rest);
    }
  }

  /** Trailing trimmable characters are dropped one by one. */
  lemma {:induction false} TrimEndSkips(rest: string, pad: string)
    requires forall i :: 0 <= i < |pad| ==> IsTrimmable(pad[i])
    ensures TrimEnd(rest + pad) == TrimEnd(rest)
  {
    if pad == [] {
      assert rest + pad == rest;
    } else {
      var s := rest + pad;
      assert s[..|s| - 1] == rest + pad[..|pad| - 1];
      TrimEndSkips(rest, pad[..|pad| - 1]);
    }
  }

  /** A string that already starts and ends with a visible character is its own trim. */
  lemma TrimKeepsTrimmed(s: string)
    requires s != [] && !IsTrimmable(s[0]) && !IsTrimmable(s[|s| - 1])
    ensures Trim(s) == s
  {
    assert TrimStart(s) == s;
  }

  /** `s == null || s.trim().isEmpty()`, the blank test every validation uses. */
  predicate IsBlank(s: JString) {
    s.None? || Trim(s.value) == []
  }

  /** A declarative reading of "not blank": the string exists and holds some visible character. */
  ghost predicate HasText(s: JString) {
    s.Some? && exists i :: 0 <= i < |s.value| && !IsTrimmable(s.value[i])
  }

  lemma BlankIffNoText(s: JString)
    ensures IsBlank(s) <==> !HasText(s)
  {
    if s.Some? {
      TrimEmptyIff(s.value);
    }
  }

  // ---------------------------------------------------------------------------
  // matches("\\d+")

  /** `\d` in a Java pattern without UNICODE_CHARACTER_CLASS: an ASCII digit. */
  predicate IsAsciiDigit(c: char) { '0' <= c <= '9' }

  predicate AllDigits(s: string) {
    s == [] || (IsAsciiDigit(s[0]) && AllDigits(s[1..]))
  }

  /** `s.matches("\\d+")`: the whole string is one or more ASCII digits. */
  predicate MatchesDigits(s: string) {
    |s| > 0 && AllDigits(s)
  }

  lemma {:induction false} AllDigitsIff(s: string)
    ensures AllDigits(s) <==> forall i :: 0 <= i < |s| ==> IsAsciiDigit(s[i])
  {
    if s != [] {
      AllDigitsIff(s[1..]);
      assert forall i :: 1 <= i < |s| ==> s[i] == s[1..][i - 1];
    }
  }

  lemma MatchesDigitsIff(s: string)
    ensures MatchesDigits(s) <==> |s| > 0 && forall i :: 0 <= i < |s| ==> IsAsciiDigit(s[i])
  {
    AllDigitsIff(s);
  }

  // ---------------------------------------------------------------------------
  // matches("^[A-Za-z0-9+_.-]+@(.+)$")

  /** The character class `[A-Za-z0-9+_.-]`. */
  predicate IsEmailLocalChar(c: char) {
    ('A' <= c <= 'Z') || ('a' <= c <= 'z') || ('0' <= c <= '9')
    || c == '+' || c == '_' || c == '.' || c == '-'
  }

  /** The characters that `.` does not match in a Java pattern without DOTALL. */
  predicate IsLineTerminator(c: char) {
    c == '\n' || c == '\r' || c == '\U{85}' || c == '\U{2028}' || c == '\U{2029}'
  }

  predicate NoLineTerminator(s: string) {
    forall i :: 0 <= i < |s| ==> !IsLineTerminator(s[i])
  }

  /** The length of the longest prefix of `s` drawn from `[A-Za-z0-9+_.-]`. */
  function LocalPartLength(s: string): (n: nat)
    ensures n <= |s|
    ensures forall i :: 0 <= i < n ==> IsEmailLocalChar(s[i])
    ensures n < |s| ==> !IsEmailLocalChar(s[n])
  {
    if s != [] && IsEmailLocalChar(s[0]) then 1 + LocalPartLength(s[1..]) else 0
  }

  /**
   * `s.matches(EMAIL_REGEX)`. Since '@' is not in the local character class, the only
   * split the pattern can use is at the end of the longest local prefix.
   */
  predicate MatchesEmail(s: string) {
    var n := LocalPartLength(s);
    0 < n && n + 1 < |s| && s[n] == '@' && NoLineTerminator(s[n + 1..])
  }

  /** The pattern read as a split: a non-empty local run, '@', a non-empty rest without line terminators. */
  ghost predicate EmailSplitAt(s: string, k: int) {
    && 0 < k && k + 1 < |s| && s[k] == '@'
    && (forall i :: 0 <= i < k ==> IsEmailLocalChar(s[i]))
    && NoLineTerminator(s[k + 1..])
  }

  ghost predicate EmailShape(s: string) {
    exists k :: EmailSplitAt(s, k)
  }

  lemma MatchesEmailIff(s: string)
    ensures MatchesEmail(s) <==> EmailShape(s)
  {
    var n := LocalPartLength(s);
    if MatchesEmail(s) {
      assert EmailSplitAt(s, n);
    }
    if EmailShape(s) {
      var k :| EmailSplitAt(s, k);
      assert !IsEmailLocalChar(s[k]);
      assert n == k;
    }
  }

  // ---------------------------------------------------------------------------
  // toLowerCase / contains

  /** Lower-case mapping of one character; only the ASCII letters are mapped. */
  function LowerChar(c: char): char {
    if 'A' <= c <= 'Z' then (c as int + 32) as char else c
  }

  /** `s.toLowerCase()`, restricted to ASCII letters. */
  function ToLowerAscii(s: string): (r: string)
    ensures |r| == |s|
    ensures forall i :: 0 <= i < |s| ==> r[i] == LowerChar(s[i])
  {
    if s == [] then [] else [LowerChar(s[0])] + ToLowerAscii(s[1..])
  }

  /** `sub` occurs in `s` starting at index `i`. */
  predicate OccursAt(s: string, sub: string, i: int) {
    0 <= i && i + |sub| <= |s| && s[i..i + |sub|] == sub
  }

  /** `s.contains(sub)`. */
  predicate Contains(s: string, sub: string) {
    (|sub| <= |s| && s[..|sub|] == sub) || (s != [] && Contains(s[1..], sub))
  }

  lemma {:induction false} ContainsIff(s: string, sub: string)
    ensures Contains(s, sub) <==> exists i :: OccursAt(s, sub, i)
  {
    if Contains(s, sub) {
      ContainsOccurs(s, sub);
    }
    if exists i :: OccursAt(s, sub, i) {
      var i :| OccursAt(s, sub, i);
      OccursContains(s, sub, i);
    }
  }

  lemma {:induction false} ContainsOccurs(s: string, sub: string)
    requires Contains(s, sub)
    ensures exists i :: OccursAt(s, sub, i)
  {
    if |sub| <= |s| && s[..|sub|] == sub {
      assert OccursAt(s, sub, 0);
    } else {
      ContainsOccurs(s[1..], sub);
      var j :| OccursAt(s[1..], sub, j);
      assert s[j + 1..j + 1 + |sub|] == s[1..][j..j + |sub|];
      assert OccursAt(s, sub, j + 1);
    }
  }

  lemma {:induction false} OccursContains(s: string, sub: string, i: int)
    requires OccursAt(s, sub, i)
    ensures Contains(s, sub)
    decreases i
  {
    if i > 0 {
      assert s[1..][i - 1..i - 1 + |sub|] == s[i..i + |sub|];
      OccursContains(s[1..], sub, i - 1);
    }
  }

  // ---------------------------------------------------------------------------
  // concatenation

  /** `"" + s` for a String reference: a null reference renders as "null". */
  function Render(s: JString): string {
    if s.None? then "null" else s.value
  }

  function DigitChar(d: nat): (c: char)
    requires d < 10
    ensures IsAsciiDigit(c)
  {
    ('0' as int + d) as char
  }

  /** `"" + n` for a non-negative `long`: its decimal digits, without leading zeros. */
  function DecimalText(n: nat): (r: string)
    ensures |r| > 0 && forall i :: 0 <= i < |r| ==> IsAsciiDigit(r[i])
    ensures |r| > 1 ==> r[0] != '0'
  {
    if n < 10 then [DigitChar(n)] else DecimalText(n / 10) + [DigitChar(n % 10)]
  }

  /** The number a string of ASCII digits denotes. */
  function DigitsValue(s: string): nat
    requires forall i :: 0 <= i < |s| ==> IsAsciiDigit(s[i])
  {
    if s == [] then 0
    else
      assert IsAsciiDigit(s[|s| - 1]);
      10 * DigitsValue(s[..|s| - 1]) + (s[|s| - 1] as int - '0' as int)
  }

  /** The decimal rendering of an id reads back as the same id. */
  lemma {:induction false} DecimalTextRoundTrip(n: nat)
    ensures MatchesDigits(DecimalText(n))
    ensures DigitsValue(DecimalText(n)) == n
  {
    MatchesDigitsIff(DecimalText(n));
    if n >= 10 {
      DecimalTextRoundTrip(n / 10);
      var r := DecimalText(n);
      assert r[..|r| - 1] == DecimalText(n / 10);
    }
  }
}
