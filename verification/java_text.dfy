/** Java strings as sequences of UTF-16 code units, with the semantics of
    `String.trim()` and of the hexadecimal character class used by the
    app-identifier check. */
module JavaText {

  /** One UTF-16 code unit, the element of a Java `String`; `length()` counts these. */
  newtype CodeUnit = x: int | 0 <= x < 0x1_0000

  type JavaString = seq<CodeUnit>

  /** The code unit of a character of the Basic Multilingual Plane. */
  function Unit(c: char): CodeUnit
    requires c as int < 0x1_0000
  {
    c as int as CodeUnit
  }

  /** `trim()` removes every code unit less than or equal to U+0020 (the space). */
  predicate IsTrimmable(c: CodeUnit) {
    c <= 0x20
  }

  predicate AllTrimmable(s: JavaString) {
    forall i :: 0 <= i < |s| ==> IsTrimmable(s[i])
  }

  /** Neither end of `t` could be removed by `trim()`. */
  predicate IsTrimmed(t: JavaString) {
    |t| == 0 || (!IsTrimmable(t[0]) && !IsTrimmable(t[|t| - 1]))
  }

  /** Number of trimmable code units at the start of `s`. */
  function LeadingTrimmable(s: JavaString): (n: nat)
    ensures n <= |s|
    ensures forall i :: 0 <= i < n ==> IsTrimmable(s[i])
    ensures n < |s| ==> !IsTrimmable(s[n])
  {
    if |s| > 0 && IsTrimmable(s[0]) then
      var tail := s[1..];
      var n := 1 + LeadingTrimmable(tail);
      assert forall i :: 1 <= i < n ==> s[i] == tail[i - 1];
      n
    else
      0
  }

  /** Number of trimmable code units at the end of `s`. */
  function TrailingTrimmable(s: JavaString): (n: nat)
    ensures n <= |s|
    ensures AllTrimmable(s[|s| - n..])
    ensures n < |s| ==> !IsTrimmable(s[|s| - n - 1])
  {
    if |s| > 0 && IsTrimmable(s[|s| - 1]) then
      var init := s[..|s| - 1];
      var n := 1 + TrailingTrimmable(init);
      assert s[|s| - n..] == init[|init| - (n - 1)..] + [s[|s| - 1]];
      n
    else
      0
  }

  /** Java `String.trim()`: the input with its leading and trailing code units
      up to U+0020 removed. */
  function Trim(s: JavaString): (r: JavaString)
    ensures LeadingTrimmable(s) + |r| <= |s|
    ensures IsTrimmed(r)
    ensures r == s[LeadingTrimmable(s)..LeadingTrimmable(s) + |r|]
    ensures AllTrimmable(s[..LeadingTrimmable(s)])
    ensures AllTrimmable(s[LeadingTrimmable(s) + |r|..])
  {
    var rest := s[LeadingTrimmable(s)..];
    var r := rest[..|rest| - TrailingTrimmable(rest)];
    assert |r| > 0 ==> r[0] == rest[0];
    assert s[LeadingTrimmable(s) + |r|..] == rest[|rest| - TrailingTrimmable(rest)..];
    r
  }

  /** Leading trimmable units counted in front of a non-trimmable unit. */
  lemma {:induction false} LeadingOfSplit(pre: JavaString, t: JavaString)
    requires AllTrimmable(pre)
    requires |t| > 0 && !IsTrimmable(t[0])
    ensures LeadingTrimmable(pre + t) == |pre|
  {
    if |pre| > 0 {
      assert (pre + t)[1..] == pre[1..] + t;
      LeadingOfSplit(pre[1..], t);
    } else {
      assert pre + t == t;
    }
  }

  /** An all-trimmable string is trimmable throughout. */
  lemma {:induction false} LeadingOfAllTrimmable(s: JavaString)
    requires AllTrimmable(s)
    ensures LeadingTrimmable(s) == |s|
  {
    if |s| > 0 {
      LeadingOfAllTrimmable(s[1..]);
    }
  }

  /** Trailing trimmable units counted after a non-trimmable unit. */
  lemma {:induction false} TrailingOfSplit(t: JavaString, post: JavaString)
    requires AllTrimmable(post)
    requires |t| > 0 && !IsTrimmable(t[|t| - 1])
    ensures TrailingTrimmable(t + post) == |post|
  {
    if |post| > 0 {
      var s := t + post;
      assert s[..|s| - 1] == t + post[..|post| - 1];
      TrailingOfSplit(t, post[..|post| - 1]);
    } else {
      assert t + post == t;
    }
  }

  /** `trim()` is determined by its defining property: whenever `s` splits into
      trimmable units, a trimmed middle and trimmable units, the middle is the
      result. */
  lemma TrimUnique(s: JavaString, pre: JavaString, t: JavaString, post: JavaString)
    requires s == pre + t + post
    requires AllTrimmable(pre) && AllTrimmable(post) && IsTrimmed(t)
    ensures Trim(s) == t
  {
    if |t| == 0 {
      assert AllTrimmable(s) by {
        forall i | 0 <= i < |s| ensures IsTrimmable(s[i]) {
          if i < |pre| { assert s[i] == pre[i]; } else { assert s[i] == post[i - |pre|]; }
        }
      }
      LeadingOfAllTrimmable(s);
    } else {
      assert s == pre + (t + post);
      LeadingOfSplit(pre, t + post);
      var rest := s[|pre|..];
      assert rest == t + post;
      TrailingOfSplit(t, post);
    }
  }

  /** Trimming a trimmed string changes nothing. */
  lemma TrimTrimmed(t: JavaString)
    requires IsTrimmed(t)
    ensures Trim(t) == t
  {
    assert t == [] + t + [];
    TrimUnique(t, [], t, []);
  }

  /** `trim()` is idempotent. */
  lemma TrimIdempotent(s: JavaString)
    ensures Trim(Trim(s)) == Trim(s)
  {
    TrimTrimmed(Trim(s));
  }

  /** A hexadecimal digit in either case: the class `[0-9a-f]` under
      `Pattern.CASE_INSENSITIVE`, which folds ASCII letters only. */
  predicate IsHexDigit(c: CodeUnit) {
    || (Unit('0') <= c <= Unit('9'))
    || (Unit('a') <= c <= Unit('f'))
    || (Unit('A') <= c <= Unit('F'))
  }

  predicate AllHexDigits(s: JavaString) {
    forall i :: 0 <= i < |s| ==> IsHexDigit(s[i])
  }
}
