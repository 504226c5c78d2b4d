/**
 * The string primitives the directive parser relies on: ASCII lower-casing,
 * whitespace trimming, splitting on commas and reading decimal digits.
 * Strings are sequences of characters; only ASCII case and ASCII whitespace
 * are modelled.
 */
module Text {

  /** Lower-case one character; only 'A'..'Z' change. */
  function LowerChar(c: char): char {
    if IsUpper(c) then (c as int + 32) as char else c
  }

  /** True iff `c` is an ASCII upper-case letter. */
  predicate IsUpper(c: char) {
    'A' <= c <= 'Z'
  }

  /**
   * Lower-case a whole string: no upper-case letter is left, every other
   * character stays where it was, and each upper-case letter becomes its
   * lower-case partner in the same position.
   */
  function ToLower(s: string): (r: string)
    ensures |r| == |s|
    ensures forall i :: 0 <= i < |r| ==> !IsUpper(r[i])
    ensures forall i :: 0 <= i < |s| && !IsUpper(s[i]) ==> r[i] == s[i]
    ensures forall i :: 0 <= i < |s| && IsUpper(s[i]) ==> 'a' <= r[i] <= 'z' && r[i] as int - s[i] as int == 'a' as int - 'A' as int
  {
    seq(|s|, i requires 0 <= i < |s| => LowerChar(s[i]))
  }

  /** ASCII whitespace: space, tab, line feed, vertical tab, form feed, carriage return. */
  predicate IsSpace(c: char) {
    c == ' ' || 9 <= c as int <= 13
  }

  /** The number of whitespace characters at the front of `s`. */
  function LeadingSpaces(s: string): (n: nat)
    ensures n <= |s|
    ensures forall k :: 0 <= k < n ==> IsSpace(s[k])
    ensures n == |s| || !IsSpace(s[n])
  {
    if |s| == 0 || !IsSpace(s[0]) then 0 else 1 + LeadingSpaces(s[1..])
  }

  /** The number of whitespace characters at the back of `s`. */
  function TrailingSpaces(s: string): (n: nat)
    ensures n <= |s|
    ensures forall k :: |s| - n <= k < |s| ==> IsSpace(s[k])
    ensures n == |s| || !IsSpace(s[|s| - 1 - n])
  {
    if |s| == 0 || !IsSpace(s[|s| - 1]) then 0 else 1 + TrailingSpaces(s[..|s| - 1])
  }

  /** True iff every character of `s` is whitespace. */
  predicate AllSpace(s: string) {
    forall k :: 0 <= k < |s| ==> IsSpace(s[k])
  }

  /**
   * Remove whitespace from both ends. The result sits between two runs of
   * whitespace in `s` and neither starts nor ends with whitespace itself.
   */
  function Trim(s: string): (r: string)
    ensures |r| == 0 || (!IsSpace(r[0]) && !IsSpace(r[|r| - 1]))
    ensures exists a, b :: 0 <= a <= b <= |s| && s[a..b] == r && AllSpace(s[..a]) && AllSpace(s[b..])
  {
    var a := LeadingSpaces(s);
    var rest := s[a..];
    var b := a + |rest| - TrailingSpaces(rest);
    assert s[a..b] == rest[..|rest| - TrailingSpaces(rest)];
    assert AllSpace(s[..a]);
    assert AllSpace(s[b..]) by {
      forall k | 0 <= k < |s[b..]| ensures IsSpace(s[b..][k]) {
        assert s[b..][k] == rest[|rest| - TrailingSpaces(rest) + k];
      }
    }
    s[a..b]
  }

  /** Join comma-free parts with a comma between consecutive parts. */
  function Join(parts: seq<string>): string
    requires |parts| >= 1
  {
    if |parts| == 1 then parts[0] else parts[0] + "," + Join(parts[1..])
  }

  /** Every character of every part appears in the joined string. */
  lemma {:induction false} JoinHolds(parts: seq<string>, i: nat, k: nat)
    requires |parts| >= 1 && i < |parts| && k < |parts[i]|
    ensures parts[i][k] in Join(parts)
    decreases |parts|
  {
    if |parts| > 1 {
      if i == 0 {
        assert Join(parts) == parts[0] + "," + Join(parts[1..]);
        assert Join(parts)[k] == parts[0][k];
      } else {
        JoinHolds(parts[1..], i - 1, k);
        assert Join(parts) == parts[0] + "," + Join(parts[1..]);
      }
    }
  }

  /** Index of the first comma at or after `from`, if any. */
  function FindComma(s: string, from: nat): (r: nat)
    requires from <= |s|
    ensures from <= r <= |s|
    ensures r < |s| ==> s[r] == ','
    ensures forall k :: from <= k < r ==> s[k] != ','
    decreases |s| - from
  {
    if from == |s| || s[from] == ',' then from else FindComma(s, from + 1)
  }

  /**
   * Split on every comma, keeping empty pieces; always at least one piece.
   * The pieces contain no comma and joining them back restores `s`.
   */
  function Split(s: string): (parts: seq<string>)
    ensures |parts| >= 1
    ensures forall i :: 0 <= i < |parts| ==> ',' !in parts[i]
    ensures Join(parts) == s
    decreases |s|
  {
    var c := FindComma(s, 0);
    assert ',' !in s[..c] by {
      forall k | 0 <= k < c ensures s[..c][k] != ',' { }
    }
    if c == |s| then
      assert s[..c] == s;
      [s]
    else
      var tail := Split(s[c + 1..]);
      assert s == s[..c] + "," + s[c + 1..];
      [s[..c]] + tail
  }

  /** The number of commas in `s`. */
  function Commas(s: string): nat {
    multiset(s)[',']
  }

  /** Splitting yields one piece more than there are commas. */
  lemma {:induction false} SplitCount(s: string)
    ensures |Split(s)| == 1 + Commas(s)
    decreases |s|
  {
    var c := FindComma(s, 0);
    assert ',' !in s[..c] by {
      forall k | 0 <= k < c ensures s[..c][k] != ',' { }
    }
    if c == |s| {
      assert s[..c] == s;
    } else {
      SplitCount(s[c + 1..]);
      assert s == s[..c] + "," + s[c + 1..];
      assert multiset(s) == multiset(s[..c]) + multiset(",") + multiset(s[c + 1..]);
    }
  }

  /** Lower-casing keeps the number of commas. */
  lemma {:induction false} ToLowerCommas(s: string)
    ensures Commas(ToLower(s)) == Commas(s)
    decreases |s|
  {
    if |s| > 0 {
      var init := s[..|s| - 1];
      ToLowerCommas(init);
      assert s == init + [s[|s| - 1]];
      assert ToLower(s) == ToLower(init) + [ToLower(s)[|s| - 1]];
      assert multiset(s) == multiset(init) + multiset([s[|s| - 1]]);
      assert multiset(ToLower(s)) == multiset(ToLower(init)) + multiset([ToLower(s)[|s| - 1]]);
    }
  }

  /** Splitting undoes joining: `Split` is the inverse of `Join` on comma-free parts. */
  lemma {:induction false} SplitJoin(parts: seq<string>)
    requires |parts| >= 1
    requires forall i :: 0 <= i < |parts| ==> ',' !in parts[i]
    ensures Split(Join(parts)) == parts
    decreases |parts|
  {
    var s := Join(parts);
    var p := parts[0];
    if |parts| == 1 {
      assert FindComma(s, 0) == |s| by { FindCommaNone(s, 0); }
    } else {
      var rest := Join(parts[1..]);
      assert s == p + "," + rest;
      FindCommaAt(s, |p|);
      SplitJoin(parts[1..]);
      assert s[|p| + 1..] == rest;
      assert s[..|p|] == p;
    }
  }

  /** With no comma in `s`, the search runs to the end. */
  lemma {:induction false} FindCommaNone(s: string, from: nat)
    requires from <= |s|
    requires ',' !in s
    ensures FindComma(s, from) == |s|
    decreases |s| - from
  {
    if from < |s| {
      assert s[from] in s;
      FindCommaNone(s, from + 1);
    }
  }

  /** A comma at index `c` with none before it is the one found. */
  lemma FindCommaAt(s: string, c: nat)
    requires c < |s| && s[c] == ','
    requires forall k :: 0 <= k < c ==> s[k] != ','
    ensures FindComma(s, 0) == c
  {
  }

  predicate IsDigit(c: char) {
    '0' <= c <= '9'
  }

  predicate AllDigits(s: string) {
    forall k :: 0 <= k < |s| ==> IsDigit(s[k])
  }

  function DigitValue(c: char): nat
    requires IsDigit(c)
  {
    c as int - '0' as int
  }

  /** The decimal value of a digit string, read left to right (leading zeros allowed). */
  function DigitsValue(s: string): nat
    requires AllDigits(s)
  {
    if |s| == 0 then 0 else DigitsValue(s[..|s| - 1]) * 10 + DigitValue(s[|s| - 1])
  }

  function DigitChar(d: nat): (c: char)
    requires d < 10
    ensures IsDigit(c) && DigitValue(c) == d
  {
    ('0' as int + d) as char
  }

  /** The shortest decimal spelling of `n`. */
  function Decimal(n: nat): (s: string)
    ensures |s| >= 1 && AllDigits(s)
  {
    if n < 10 then [DigitChar(n)] else Decimal(n / 10) + [DigitChar(n % 10)]
  }

  /** Reading back a printed number gives the number. */
  lemma {:induction false} DecimalRoundTrip(n: nat)
    ensures DigitsValue(Decimal(n)) == n
  {
    var s := Decimal(n);
    if n >= 10 {
      DecimalRoundTrip(n / 10);
      assert s[..|s| - 1] == Decimal(n / 10);
    }
  }

  /** End of the maximal run of digits that starts at `from`. */
  function DigitRunEnd(s: string, from: nat): (e: nat)
    requires from <= |s|
    ensures from <= e <= |s|
    ensures forall k :: from <= k < e ==> IsDigit(s[k])
    ensures e == |s| || !IsDigit(s[e])
    decreases |s| - from
  {
    if from == |s| || !IsDigit(s[from]) then from else DigitRunEnd(s, from + 1)
  }

  /** A string without upper-case letters is its own lower-case form. */
  lemma ToLowerUnchanged(s: string)
    requires forall i :: 0 <= i < |s| ==> !IsUpper(s[i])
    ensures ToLower(s) == s
  {
  }

  /** Lower-casing twice is lower-casing once. */
  lemma ToLowerIdempotent(s: string)
    ensures ToLower(ToLower(s)) == ToLower(s)
  {
    ToLowerUnchanged(ToLower(s));
  }

  /** A string that neither starts nor ends with whitespace is its own trim. */
  lemma TrimUnchanged(s: string)
    requires |s| > 0 && !IsSpace(s[0]) && !IsSpace(s[|s| - 1])
    ensures Trim(s) == s
  {
    var r := Trim(s);
    var a, b :| 0 <= a <= b <= |s| && s[a..b] == r && AllSpace(s[..a]) && AllSpace(s[b..]);
  }
}
