/**
 * The Cache-Control parser of the simple-cache middleware: the header value
 * is lower-cased, split on commas and each piece trimmed; `no-cache` and
 * `no-store` set flags, and an unanchored `max-age=<digits>` overrides the
 * lifetime, the last such piece winning. Parsing is total.
 */
module Directives {
  import opened Wrappers
  import opened Text

  /** The literal that introduces a lifetime inside a token. */
  const MaxAgeKey: string := "max-age="

  /** The flags and lifetime (in seconds) a request asks for. */
  datatype Directives = Directives(noCache: bool, noStore: bool, maxAge: int)

  /** The pattern `max-age=[0-9]+` starts at index `p` of `el`. */
  predicate MatchesAt(el: string, p: nat) {
    p + |MaxAgeKey| < |el| && el[p..p + |MaxAgeKey|] == MaxAgeKey && IsDigit(el[p + |MaxAgeKey|])
  }

  /** Leftmost start at or after `from` where the pattern matches, as a regular-expression search finds it. */
  function FirstMatch(el: string, from: nat): (r: Option<nat>)
    ensures r.Some? ==> from <= r.value && MatchesAt(el, r.value)
    ensures r.Some? ==> forall k :: from <= k < r.value ==> !MatchesAt(el, k)
    ensures r.None? ==> forall k :: from <= k ==> !MatchesAt(el, k)
    decreases |el| - from
  {
    if from + |MaxAgeKey| >= |el| then None
    else if MatchesAt(el, from) then Some(from)
    else FirstMatch(el, from + 1)
  }

  /**
   * The lifetime an unanchored `max-age=([0-9]+)` search finds in `el`: the
   * greedy digit run after the leftmost match, read as a decimal number.
   */
  function MaxAgeMatch(el: string): Option<nat> {
    match FirstMatch(el, 0)
    case None => None
    case Some(p) =>
      var e := DigitRunEnd(el, p + |MaxAgeKey|);
      Some(DigitsValue(el[p + |MaxAgeKey|..e]))
  }

  /**
   * A token whose leftmost match starts at `p` carries the number spelled by
   * the whole run of digits after `max-age=`, as the greedy group `([0-9]+)`
   * captures it.
   */
  lemma MaxAgeMatchSome(el: string, p: nat)
    requires MatchesAt(el, p)
    requires forall k :: 0 <= k < p ==> !MatchesAt(el, k)
    ensures var start := p + |MaxAgeKey|; var e := DigitRunEnd(el, start);
      && start < e && (e == |el| || !IsDigit(el[e]))
      && MaxAgeMatch(el) == Some(DigitsValue(el[start..e]))
  {
    var r := FirstMatch(el, 0);
    assert r == Some(p);
  }

  /** A token carries no lifetime iff the pattern matches nowhere in it. */
  lemma MaxAgeMatchNone(el: string)
    ensures MaxAgeMatch(el).None? <==> forall p :: !MatchesAt(el, p)
  {
    var r := FirstMatch(el, 0);
  }

  /** A token as the parser sees it: lower-case, comma-free, and without whitespace at either end. */
  predicate IsToken(t: string) {
    && (|t| == 0 || (!IsSpace(t[0]) && !IsSpace(t[|t| - 1])))
    && forall i :: 0 <= i < |t| ==> !IsUpper(t[i]) && t[i] != ','
  }

  /** Trimming a lower-case, comma-free piece yields a token. */
  lemma TrimGivesToken(p: string)
    requires forall i :: 0 <= i < |p| ==> !IsUpper(p[i]) && p[i] != ','
    ensures IsToken(Trim(p))
  {
    var r := Trim(p);
    var a, b :| 0 <= a <= b <= |p| && p[a..b] == r && AllSpace(p[..a]) && AllSpace(p[b..]);
    assert forall i :: 0 <= i < |r| ==> r[i] == p[a + i];
  }

  /** The pieces the header value is cut into: lower-cased, split on commas, trimmed. */
  function Tokens(v: string): seq<string> {
    var parts := Split(ToLower(v));
    seq(|parts|, i requires 0 <= i < |parts| => Trim(parts[i]))
  }

  /**
   * A header value yields one token more than it has commas, and every token
   * is lower-case, comma-free and trimmed.
   */
  lemma TokensShape(v: string)
    ensures |Tokens(v)| == 1 + Commas(v)
    ensures forall i :: 0 <= i < |Tokens(v)| ==> IsToken(Tokens(v)[i])
  {
    var lower := ToLower(v);
    var parts := Split(lower);
    SplitCount(lower);
    ToLowerCommas(v);
    forall i | 0 <= i < |parts| ensures IsToken(Trim(parts[i])) {
      var part := parts[i];
      assert forall k :: 0 <= k < |part| ==> part[k] != ',' by {
        forall k | 0 <= k < |part| ensures part[k] != ',' { assert part[k] in part; }
      }
      assert forall k :: 0 <= k < |part| ==> !IsUpper(part[k]) by {
        forall k | 0 <= k < |part| ensures !IsUpper(part[k]) { JoinHolds(parts, i, k); }
      }
      TrimGivesToken(part);
    }
  }

  /** One iteration over a token: the exact flags first, then the lifetime. */
  function Apply(d: Directives, el: string): Directives {
    if el == "no-cache" then d.(noCache := true)
    else if el == "no-store" then d.(noStore := true)
    else match MaxAgeMatch(el)
      case Some(n) => d.(maxAge := n)
      case None => d
  }

  /** The tokens applied in order, left to right. */
  function ApplyAll(d: Directives, ts: seq<string>): Directives
    decreases |ts|
  {
    if |ts| == 0 then d else Apply(ApplyAll(d, ts[..|ts| - 1]), ts[|ts| - 1])
  }

  /**
   * Parse a Cache-Control value; `None` stands for a header that is absent
   * (any non-string value). Starts from no flags and `defaultMaxAge`.
   */
  function ParseCacheControl(value: Option<string>, defaultMaxAge: int): (d: Directives)
    ensures value.None? ==> d == Directives(false, false, defaultMaxAge)
  {
    match value
    case None => Directives(false, false, defaultMaxAge)
    case Some(v) => ApplyAll(Directives(false, false, defaultMaxAge), Tokens(v))
  }

  // ---------------------------------------------------------------------------
  // A declarative description of the parse that does not follow the loop, and the
  // proof that the parser meets it.

  /** Some token is exactly `t`. */
  predicate HasToken(ts: seq<string>, t: string) {
    exists i :: 0 <= i < |ts| && ts[i] == t
  }

  /** No token carries a lifetime. */
  predicate NoMaxAge(ts: seq<string>) {
    forall i :: 0 <= i < |ts| ==> MaxAgeMatch(ts[i]).None?
  }

  /** The last token carrying a lifetime carries `n`. */
  predicate LastMaxAgeIs(ts: seq<string>, n: int) {
    exists i :: 0 <= i < |ts| && MaxAgeMatch(ts[i]) == Some(n) && forall j :: i < j < |ts| ==> MaxAgeMatch(ts[j]).None?
  }

  /** What the parse of the tokens `ts` must be, starting from `defaultMaxAge`. */
  predicate Describes(ts: seq<string>, defaultMaxAge: int, d: Directives) {
    && (d.noCache <==> HasToken(ts, "no-cache"))
    && (d.noStore <==> HasToken(ts, "no-store"))
    && (if NoMaxAge(ts) then d.maxAge == defaultMaxAge else LastMaxAgeIs(ts, d.maxAge))
  }

  /** A flag word is too short to carry a lifetime. */
  lemma FlagWordHasNoMaxAge(el: string)
    requires el == "no-cache" || el == "no-store"
    ensures MaxAgeMatch(el).None?
  {
    MaxAgeMatchNone(el);
  }

  /** One step keeps the flag description: the flag is set iff the new token or an earlier one is the word. */
  lemma {:induction false} ApplyAllFlags(ts: seq<string>, defaultMaxAge: int)
    ensures ApplyAll(Directives(false, false, defaultMaxAge), ts).noCache <==> HasToken(ts, "no-cache")
    ensures ApplyAll(Directives(false, false, defaultMaxAge), ts).noStore <==> HasToken(ts, "no-store")
    decreases |ts|
  {
    if |ts| > 0 {
      var init := ts[..|ts| - 1];
      ApplyAllFlags(init, defaultMaxAge);
      assert forall i :: 0 <= i < |init| ==> init[i] == ts[i];
      assert HasToken(ts, "no-cache") <==> HasToken(init, "no-cache") || ts[|ts| - 1] == "no-cache";
      assert HasToken(ts, "no-store") <==> HasToken(init, "no-store") || ts[|ts| - 1] == "no-store";
    }
  }

  /** One step over a token: a flag becomes set when the token is its word, and is never cleared. */
  lemma ApplyFlagsStep(d: Directives, el: string)
    ensures Apply(d, el).noCache <==> d.noCache || el == "no-cache"
    ensures Apply(d, el).noStore <==> d.noStore || el == "no-store"
  {
  }

  /** One step changes the lifetime exactly when the token carries one. */
  lemma ApplyMaxAge(d: Directives, el: string)
    ensures MaxAgeMatch(el).Some? ==> Apply(d, el).maxAge == MaxAgeMatch(el).value
    ensures MaxAgeMatch(el).None? ==> Apply(d, el).maxAge == d.maxAge
  {
    if el == "no-cache" || el == "no-store" {
      FlagWordHasNoMaxAge(el);
    }
  }

  /** A token carrying a lifetime becomes the last one to do so. */
  lemma LastMaxAgeNew(init: seq<string>, el: string)
    requires MaxAgeMatch(el).Some?
    ensures LastMaxAgeIs(init + [el], MaxAgeMatch(el).value) && !NoMaxAge(init + [el])
  {
    var ts := init + [el];
    assert ts[|init|] == el;
  }

  /** A token without a lifetime leaves the last one in place. */
  lemma LastMaxAgeKept(init: seq<string>, el: string, n: int)
    requires MaxAgeMatch(el).None? && LastMaxAgeIs(init, n)
    ensures LastMaxAgeIs(init + [el], n) && !NoMaxAge(init + [el])
  {
    var ts := init + [el];
    var i :| 0 <= i < |init| && MaxAgeMatch(init[i]) == Some(n)
      && forall j :: i < j < |init| ==> MaxAgeMatch(init[j]).None?;
    assert ts[i] == init[i];
    assert forall j :: i < j < |ts| ==> MaxAgeMatch(ts[j]).None? by {
      forall j | i < j < |ts| ensures MaxAgeMatch(ts[j]).None? {
        if j < |init| { assert ts[j] == init[j]; }
      }
    }
  }

  /** A token without a lifetime keeps a lifetime-free list lifetime-free. */
  lemma NoMaxAgeKept(init: seq<string>, el: string)
    requires MaxAgeMatch(el).None? && NoMaxAge(init)
    ensures NoMaxAge(init + [el])
  {
    var ts := init + [el];
    forall i | 0 <= i < |ts| ensures MaxAgeMatch(ts[i]).None? {
      if i < |init| { assert ts[i] == init[i]; }
    }
  }

  /** The lifetime after the tokens is the last token's `max-age`, or the default when none has one. */
  lemma {:induction false} ApplyAllMaxAge(ts: seq<string>, defaultMaxAge: int)
    ensures var d := ApplyAll(Directives(false, false, defaultMaxAge), ts);
      if NoMaxAge(ts) then d.maxAge == defaultMaxAge else LastMaxAgeIs(ts, d.maxAge)
    decreases |ts|
  {
    var d0 := Directives(false, false, defaultMaxAge);
    if |ts| > 0 {
      var init := ts[..|ts| - 1];
      var el := ts[|ts| - 1];
      assert ts == init + [el];
      var prev := ApplyAll(d0, init);
      var d := ApplyAll(d0, ts);
      assert d == Apply(prev, el);
      ApplyMaxAge(prev, el);
      ApplyAllMaxAge(init, defaultMaxAge);
      if MaxAgeMatch(el).Some? {
        LastMaxAgeNew(init, el);
      } else if NoMaxAge(init) {
        NoMaxAgeKept(init, el);
      } else {
        LastMaxAgeKept(init, el, prev.maxAge);
      }
    }
  }

  /** Applying the tokens left to right yields exactly what `Describes` asks. */
  lemma ApplyAllDescribed(ts: seq<string>, defaultMaxAge: int)
    ensures Describes(ts, defaultMaxAge, ApplyAll(Directives(false, false, defaultMaxAge), ts))
  {
    ApplyAllFlags(ts, defaultMaxAge);
    ApplyAllMaxAge(ts, defaultMaxAge);
  }

  /** Applying tokens never makes a non-negative lifetime negative: every `max-age` is a natural number. */
  lemma {:induction false} ApplyAllKeepsNonNegative(d: Directives, ts: seq<string>)
    requires d.maxAge >= 0
    ensures ApplyAll(d, ts).maxAge >= 0
    decreases |ts|
  {
    if |ts| > 0 {
      ApplyAllKeepsNonNegative(d, ts[..|ts| - 1]);
      ApplyMaxAge(ApplyAll(d, ts[..|ts| - 1]), ts[|ts| - 1]);
    }
  }

  /** A lifetime-carrying token never follows the last one. */
  lemma LastMaxAgeIsLast(ts: seq<string>, i: int, k: int)
    requires 0 <= i < |ts| && 0 <= k < |ts| && MaxAgeMatch(ts[k]).Some?
    requires forall j :: i < j < |ts| ==> MaxAgeMatch(ts[j]).None?
    ensures k <= i
  {
  }

  /** The description pins the result down: at most one directive set meets it. */
  lemma DescribesUnique(ts: seq<string>, defaultMaxAge: int, d1: Directives, d2: Directives)
    requires Describes(ts, defaultMaxAge, d1) && Describes(ts, defaultMaxAge, d2)
    ensures d1 == d2
  {
    if !NoMaxAge(ts) {
      var i1 :| 0 <= i1 < |ts| && MaxAgeMatch(ts[i1]) == Some(d1.maxAge)
        && forall j :: i1 < j < |ts| ==> MaxAgeMatch(ts[j]).None?;
      var i2 :| 0 <= i2 < |ts| && MaxAgeMatch(ts[i2]) == Some(d2.maxAge)
        && forall j :: i2 < j < |ts| ==> MaxAgeMatch(ts[j]).None?;
      // Each pick is the last lifetime-carrying token, so neither lies before the other.
      LastMaxAgeIsLast(ts, i1, i2);
      LastMaxAgeIsLast(ts, i2, i1);
    }
  }

  /**
   * The parse of a present header: each flag is set iff some token is exactly
   * that word, and the lifetime is the last token's `max-age`, or the default.
   */
  lemma ParseCacheControlSpec(v: string, defaultMaxAge: int)
    ensures Describes(Tokens(v), defaultMaxAge, ParseCacheControl(Some(v), defaultMaxAge))
  {
    ApplyAllDescribed(Tokens(v), defaultMaxAge);
  }

  // ---------------------------------------------------------------------------
  // Header values the middleware's callers send.

  /** A value that lower-casing, splitting and trimming all leave alone. */
  predicate PlainToken(el: string) {
    |el| > 0 && IsToken(el)
  }

  /** A plain value is its own only token. */
  lemma TokensOfOne(el: string)
    requires PlainToken(el)
    ensures Tokens(el) == [el]
  {
    ToLowerUnchanged(el);
    SplitJoin([el]);
    TrimUnchanged(el);
  }

  lemma LowerOfTwo(a: string, b: string)
    requires PlainToken(a) && PlainToken(b)
    ensures ToLower(a + ", " + b) == a + ", " + b
  {
    var v := a + ", " + b;
    forall i | 0 <= i < |v| ensures !IsUpper(v[i]) {
      if i < |a| { assert v[i] == a[i]; }
      else if i >= |a| + 2 { assert v[i] == b[i - |a| - 2]; }
    }
    ToLowerUnchanged(v);
  }

  lemma SplitOfTwo(a: string, b: string)
    requires PlainToken(a) && PlainToken(b)
    ensures Split(a + ", " + b) == [a, " " + b]
  {
    var parts := [a, " " + b];
    assert ',' !in parts[1] by {
      forall i | 0 <= i < |parts[1]| ensures parts[1][i] != ',' {
        if i > 0 { assert parts[1][i] == b[i - 1]; }
      }
    }
    assert Join(parts) == a + ", " + b;
    SplitJoin(parts);
  }

  lemma TrimAfterSpace(b: string)
    requires PlainToken(b)
    ensures Trim(" " + b) == b
  {
    var s := " " + b;
    assert s[1..] == b;
    assert LeadingSpaces(s) == 1;
    TrimUnchanged(b);
  }

  /** Two plain values joined by `, ` lower-case and split into the first value and the blank-led second. */
  lemma PiecesOfTwo(a: string, b: string)
    requires PlainToken(a) && PlainToken(b)
    ensures Split(ToLower(a + ", " + b)) == [a, " " + b]
  {
    LowerOfTwo(a, b);
    SplitOfTwo(a, b);
  }

  /** Trimming leaves a plain value alone and strips the blank before the second one. */
  lemma TrimsOfTwo(a: string, b: string)
    requires PlainToken(a) && PlainToken(b)
    ensures Trim(a) == a && Trim(" " + b) == b
  {
    TrimUnchanged(a);
    TrimAfterSpace(b);
  }

  /** Two plain values joined by `, ` give exactly those two tokens. */
  lemma TokensOfTwo(a: string, b: string)
    requires PlainToken(a) && PlainToken(b)
    ensures Tokens(a + ", " + b) == [a, b]
  {
    PiecesOfTwo(a, b);
    TrimsOfTwo(a, b);
  }

  /** The pattern finds `n` in `max-age=<n>`. */
  lemma MaxAgeMatchOfDecimal(n: nat)
    ensures MaxAgeMatch(MaxAgeKey + Decimal(n)) == Some(n)
  {
    var digits := Decimal(n);
    var el := MaxAgeKey + digits;
    assert MatchesAt(el, 0) by { assert el[|MaxAgeKey|] == digits[0]; }
    assert FirstMatch(el, 0) == Some(0);
    var e := DigitRunEnd(el, |MaxAgeKey|);
    assert e == |el|;
    assert el[|MaxAgeKey|..e] == digits;
    DecimalRoundTrip(n);
    assert MaxAgeMatch(el) == Some(DigitsValue(el[|MaxAgeKey|..e]));
  }

  /** `max-age=<n>` is a plain value. */
  lemma MaxAgeValuePlain(n: nat)
    ensures PlainToken(MaxAgeKey + Decimal(n))
  {
    var digits := Decimal(n);
    var el := MaxAgeKey + digits;
    forall i | 0 <= i < |el| ensures !IsUpper(el[i]) && el[i] != ',' {
      if i >= |MaxAgeKey| { assert el[i] == digits[i - |MaxAgeKey|]; }
    }
    assert el[|el| - 1] == digits[|digits| - 1];
  }

  /** `max-age=<n>` alone sets the lifetime to `n` and no flag. */
  lemma ParseMaxAge(n: nat, defaultMaxAge: int)
    ensures ParseCacheControl(Some(MaxAgeKey + Decimal(n)), defaultMaxAge) == Directives(false, false, n)
  {
    var el := MaxAgeKey + Decimal(n);
    MaxAgeValuePlain(n);
    TokensOfOne(el);
    MaxAgeMatchOfDecimal(n);
    var d0 := Directives(false, false, defaultMaxAge);
    assert [el][..0] == [];
    assert ApplyAll(d0, [el]) == Apply(d0, el);
    assert |el| > 8;
    assert Apply(d0, el) == d0.(maxAge := n);
  }

  /** Two plain values joined by `, ` are applied in order, from no flags and the default lifetime. */
  lemma ParseOfTwo(a: string, b: string, defaultMaxAge: int)
    requires PlainToken(a) && PlainToken(b)
    ensures ParseCacheControl(Some(a + ", " + b), defaultMaxAge) == Apply(Apply(Directives(false, false, defaultMaxAge), a), b)
  {
    TokensOfTwo(a, b);
    var ts := [a, b];
    var d0 := Directives(false, false, defaultMaxAge);
    assert ts[..1] == [a];
    assert [a][..0] == [];
    assert ApplyAll(d0, ts[..1]) == Apply(d0, a);
  }

  /** `no-cache, no-store` sets both flags and keeps the default lifetime. */
  lemma ParseNoCacheNoStore(defaultMaxAge: int)
    ensures ParseCacheControl(Some("no-cache" + ", " + "no-store"), defaultMaxAge) == Directives(true, true, defaultMaxAge)
  {
    var a, b := "no-cache", "no-store";
    assert PlainToken(a) && PlainToken(b);
    ParseOfTwo(a, b, defaultMaxAge);
  }

  /** `no-cache` alone sets that flag only. */
  lemma ParseNoCache(defaultMaxAge: int)
    ensures ParseCacheControl(Some("no-cache"), defaultMaxAge) == Directives(true, false, defaultMaxAge)
  {
    var el := "no-cache";
    assert PlainToken(el);
    TokensOfOne(el);
    var d0 := Directives(false, false, defaultMaxAge);
    assert [el][..0] == [];
    assert ApplyAll(d0, [el]) == Apply(d0, el);
  }
}
