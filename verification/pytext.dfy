/** The few Python string operations the routes rely on: `str.strip()`,
    `str.lower()`, the `in` substring test, `str(int)` and `int(str)`. */
module PyText {
  import opened Wrappers

  /** The characters Python's `str.strip()` and `int()` treat as whitespace
      (`str.isspace()`). */
  predicate IsSpace(c: char) {
    ('\t' <= c <= '\r') || ('\U{1C}' <= c <= '\U{1F}') || c == ' ' ||
    c == '\U{85}' || c == '\U{A0}' || c == '\U{1680}' ||
    ('\U{2000}' <= c <= '\U{200A}') || c == '\U{2028}' || c == '\U{2029}' ||
    c == '\U{202F}' || c == '\U{205F}' || c == '\U{3000}'
  }

  /** True when the string is empty or holds whitespace only, i.e. when
      `s.strip()` is falsy. */
  predicate Blank(s: string) {
    forall k | 0 <= k < |s| :: IsSpace(s[k])
  }

  /** `s.lstrip()`: drops the leading whitespace and nothing else. */
  function TrimStart(s: string): (r: string)
    ensures |r| <= |s| && r == s[|s| - |r|..]
    ensures r != [] ==> !IsSpace(r[0])
    ensures forall k | 0 <= k < |s| - |r| :: IsSpace(s[k])
  {
    if |s| > 0 && IsSpace(s[0]) then TrimStart(s[1..]) else s
  }

  /** `s.rstrip()`: drops the trailing whitespace and nothing else. */
  function TrimEnd(s: string): (r: string)
    ensures |r| <= |s| && r == s[..|r|]
    ensures r != [] ==> !IsSpace(r[|r| - 1])
    ensures forall k | |r| <= k < |s| :: IsSpace(s[k])
  {
    if |s| > 0 && IsSpace(s[|s| - 1]) then TrimEnd(s[..|s| - 1]) else s
  }

  /** `r` is `s` with the whitespace before index `i` and after `r` cut
      off. */
  ghost predicate TrimmedAt(s: string, r: string, i: int) {
    && OccursAt(s, r, i)
    && (forall k | 0 <= k < i :: IsSpace(s[k]))
    && (forall k | i + |r| <= k < |s| :: IsSpace(s[k]))
  }

  /** `s.strip()`: the longest infix of `s` that neither starts nor ends with
      whitespace; it is empty exactly when `s` is blank. Only whitespace is
      removed, and only at the two ends. */
  function Strip(s: string): (r: string)
    ensures |r| <= |s|
    ensures r != [] ==> !IsSpace(r[0]) && !IsSpace(r[|r| - 1])
    ensures r == [] <==> Blank(s)
    ensures exists i :: TrimmedAt(s, r, i)
  {
    StripBlank(s);
    StripTrimmed(s);
    TrimEnd(TrimStart(s))
  }

  lemma StripBlank(s: string)
    ensures TrimEnd(TrimStart(s)) == [] <==> Blank(s)
  {
    var a := TrimStart(s);
    var b := TrimEnd(a);
    if b == [] {
      forall k | 0 <= k < |s| ensures IsSpace(s[k]) {
        if k >= |s| - |a| {
          assert s[k] == a[k - (|s| - |a|)];
        }
      }
    }
  }

  /** Cutting leading whitespace off `s`, then trailing whitespace off the
      rest, leaves the piece of `s` that starts where the first cut ends. */
  lemma StripTrimmed(s: string)
    ensures exists i :: TrimmedAt(s, TrimEnd(TrimStart(s)), i)
  {
    var a := TrimStart(s);
    var b := TrimEnd(a);
    var i := |s| - |a|;
    assert b == s[i..][..|b|];
    forall k | i + |b| <= k < |s| ensures IsSpace(s[k]) {
      assert s[k] == a[k - i];
    }
    assert TrimmedAt(s, b, i);
  }

  /** A string that already has no surrounding whitespace is its own strip. */
  lemma StripUnchanged(s: string)
    requires s != [] && !IsSpace(s[0]) && !IsSpace(s[|s| - 1])
    ensures Strip(s) == s
  {
  }

  /** Python's `str.lower()` on ASCII letters; every other character is kept. */
  function LowerChar(c: char): char {
    if 'A' <= c <= 'Z' then (c as int + 32) as char else c
  }

  function Lower(s: string): (r: string)
    ensures |r| == |s|
    ensures forall k | 0 <= k < |s| :: r[k] == LowerChar(s[k])
  {
    seq(|s|, k requires 0 <= k < |s| => LowerChar(s[k]))
  }

  /** `sub` sits in `s` starting at index `i`. */
  ghost predicate OccursAt(s: string, sub: string, i: int) {
    0 <= i <= |s| - |sub| && s[i..i + |sub|] == sub
  }

  /** Python's `sub in s`: `sub` occurs in `s` at some offset. */
  function Contains(s: string, sub: string): (b: bool)
    ensures b <==> exists i :: OccursAt(s, sub, i)
  {
    if |sub| > |s| then false
    else if s[..|sub|] == sub then assert OccursAt(s, sub, 0); true
    else
      ContainsShift(s, sub);
      Contains(s[1..], sub)
  }

  lemma ContainsShift(s: string, sub: string)
    requires |sub| <= |s| && s[..|sub|] != sub
    ensures (exists i :: OccursAt(s, sub, i)) <==> (exists i :: OccursAt(s[1..], sub, i))
  {
    forall i | OccursAt(s, sub, i) ensures OccursAt(s[1..], sub, i - 1) {
      assert i != 0 by { assert s[..|sub|] == s[0..0 + |sub|]; }
      assert s[1..][i - 1..i - 1 + |sub|] == s[i..i + |sub|];
    }
    forall i | OccursAt(s[1..], sub, i) ensures OccursAt(s, sub, i + 1) {
      assert s[i + 1..i + 1 + |sub|] == s[1..][i..i + |sub|];
    }
  }

  predicate IsDigit(c: char) {
    '0' <= c <= '9'
  }

  function DigitChar(d: nat): char
    requires d < 10
  {
    ('0' as int + d) as char
  }

  /** `str(n)` for a non-negative integer: its shortest decimal numeral. */
  function ShowNat(n: nat): string {
    if n < 10 then [DigitChar(n)] else ShowNat(n / 10) + [DigitChar(n % 10)]
  }

  /** `str(i)` for any integer: a minus sign before the numeral of `-i` when
      `i` is negative. */
  function ShowInt(i: int): string {
    if i < 0 then "-" + ShowNat(-i) else ShowNat(i)
  }

  /** The digit part that `int()` accepts: ASCII digits, where a single
      underscore may separate two digits. */
  predicate WellFormedDigits(d: string) {
    && |d| > 0
    && IsDigit(d[0])
    && IsDigit(d[|d| - 1])
    && forall k | 0 <= k < |d| ::
         IsDigit(d[k]) || (d[k] == '_' && 0 < k < |d| - 1 && IsDigit(d[k - 1]) && IsDigit(d[k + 1]))
  }

  /** The value of a digit string, underscores ignored. */
  function DigitsValue(d: string): nat {
    if d == [] then 0
    else if IsDigit(d[|d| - 1]) then DigitsValue(d[..|d| - 1]) * 10 + (d[|d| - 1] as int - '0' as int)
    else DigitsValue(d[..|d| - 1])
  }

  /** Python's `int(s)` on a string: whitespace around the numeral is
      ignored, one sign is allowed; anything else raises, here `None`. */
  function ParseInt(s: string): (r: Option<int>)
    ensures r.Some? ==> Strip(s) != []
    ensures r.Some? && r.value < 0 ==> Strip(s)[0] == '-'
    ensures var t := Strip(s);
      r.Some? <==> WellFormedDigits(t) || (|t| > 0 && (t[0] == '+' || t[0] == '-') && WellFormedDigits(t[1..]))
    ensures WellFormedDigits(Strip(s)) ==> r == Some(DigitsValue(Strip(s)))
    ensures var t := Strip(s);
      |t| > 0 && t[0] == '+' && WellFormedDigits(t[1..]) ==> r == Some(DigitsValue(t[1..]))
    ensures var t := Strip(s);
      |t| > 0 && t[0] == '-' && WellFormedDigits(t[1..]) ==> r.Some? && r.value + DigitsValue(t[1..]) == 0
  {
    var t := Strip(s);
    if |t| > 0 && (t[0] == '+' || t[0] == '-') then
      if WellFormedDigits(t[1..]) then
        var v: int := DigitsValue(t[1..]);
        Some(if t[0] == '-' then -v else v)
      else None
    else if WellFormedDigits(t) then Some(DigitsValue(t))
    else None
  }

  lemma {:induction false} ShowNatDigits(n: nat)
    ensures |ShowNat(n)| > 0
    ensures forall k | 0 <= k < |ShowNat(n)| :: IsDigit(ShowNat(n)[k])
    ensures DigitsValue(ShowNat(n)) == n
  {
    if n >= 10 {
      ShowNatDigits(n / 10);
      var s := ShowNat(n);
      assert s[..|s| - 1] == ShowNat(n / 10);
    }
  }

  /** A plain run of ASCII digits is a numeral `int()` accepts. */
  lemma AllDigitsWellFormed(d: string)
    requires |d| > 0 && forall k | 0 <= k < |d| :: IsDigit(d[k])
    ensures WellFormedDigits(d)
  {
  }

  /** A well-formed numeral without sign or surrounding space reads as its
      digits' value. */
  lemma ParseDigits(d: string)
    requires WellFormedDigits(d)
    ensures ParseInt(d) == Some(DigitsValue(d))
  {
    assert !IsSpace(d[0]) && !IsSpace(d[|d| - 1]);
    StripUnchanged(d);
  }

  lemma ParseShowNat(n: nat)
    ensures ParseInt(ShowNat(n)) == Some(n)
  {
    ShowNatDigits(n);
    AllDigitsWellFormed(ShowNat(n));
    ParseDigits(ShowNat(n));
  }

  /** `int(str(i)) == i`: the numeral Python writes for an integer reads back
      as that integer. */
  lemma {:induction false} ParseShowInt(i: int)
    ensures ParseInt(ShowInt(i)) == Some(i)
  {
    if i < 0 {
      ShowNatDigits(-i);
      var d := ShowNat(-i);
      AllDigitsWellFormed(d);
      var s := ShowInt(i);
      assert s[1..] == d;
      assert s[|s| - 1] == d[|d| - 1];
      StripUnchanged(s);
    } else {
      ParseShowNat(i);
    }
  }

  /** `str(i)` holds only digits and, for a negative `i`, a leading minus. */
  lemma ShowIntChars(i: int)
    ensures forall k | 0 <= k < |ShowInt(i)| :: IsDigit(ShowInt(i)[k]) || (k == 0 && ShowInt(i)[k] == '-')
  {
    if i < 0 {
      ShowNatDigits(-i);
      assert forall k | 1 <= k < |ShowInt(i)| :: ShowInt(i)[k] == ShowNat(-i)[k - 1];
    } else {
      ShowNatDigits(i);
    }
  }

  /** Lower-casing twice is lower-casing once. */
  lemma LowerIdempotent(s: string)
    ensures Lower(Lower(s)) == Lower(s)
  {
  }

  /** Lower-casing `s` does not change where a piece without ASCII letters
      occurs in it. */
  lemma ContainsIgnoresLower(s: string, sub: string)
    requires forall k | 0 <= k < |sub| :: !('A' <= sub[k] <= 'Z') && !('a' <= sub[k] <= 'z')
    ensures Contains(Lower(s), sub) == Contains(s, sub)
  {
    var l := Lower(s);
    forall i | OccursAt(l, sub, i) ensures OccursAt(s, sub, i) {
      forall k | 0 <= k < |sub| ensures s[i + k] == sub[k] {
        assert l[i + k] == l[i..i + |sub|][k];
      }
    }
    forall i | OccursAt(s, sub, i) ensures OccursAt(l, sub, i) {
      forall k | 0 <= k < |sub| ensures l[i + k] == sub[k] {
        assert s[i + k] == s[i..i + |sub|][k];
      }
    }
  }
}
