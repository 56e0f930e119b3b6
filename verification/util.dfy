/** The pure string helpers of the base `Util` class: app-identifier
    sanitising, its conversion to GUID text, and joining strings with a
    delimiter. */
module Util {
  import opened Results
  import opened JavaText

  /** Length, in code units, of a well-formed app identifier. */
  const AppIdentifierLength: nat := 32

  /** The `IllegalArgumentException`s thrown by `sanitizeAppIdentifier`, one per check. */
  datatype AppIdError = NullAppId | WrongLength | NotHex

  /** `sanitizeAppIdentifier`: trims the identifier, then checks its length, then
      that it is made of hexadecimal digits only; `None` stands for `null`. */
  function SanitizeAppIdentifier(appIdentifier: Option<JavaString>): (r: Result<JavaString, AppIdError>)
    ensures r == Failure(NullAppId) <==> appIdentifier.None?
    ensures appIdentifier.Some? ==>
      (r == Failure(WrongLength) <==> |Trim(appIdentifier.value)| != AppIdentifierLength)
    ensures appIdentifier.Some? ==>
      (r == Failure(NotHex) <==>
        |Trim(appIdentifier.value)| == AppIdentifierLength && !AllHexDigits(Trim(appIdentifier.value)))
    ensures r.Success? <==>
      appIdentifier.Some? && |Trim(appIdentifier.value)| == AppIdentifierLength
      && AllHexDigits(Trim(appIdentifier.value))
    ensures r.Success? ==> r.value == Trim(appIdentifier.value)
  {
    match appIdentifier
    case None => Failure(NullAppId)
    case Some(id) =>
      var trimmed := Trim(id);
      if |trimmed| != AppIdentifierLength then Failure(WrongLength)
      else if !AllHexDigits(trimmed) then Failure(NotHex)
      else Success(trimmed)
  }

  /** A sanitised identifier is accepted again, unchanged. */
  lemma SanitizeIdempotent(appIdentifier: Option<JavaString>)
    requires SanitizeAppIdentifier(appIdentifier).Success?
    ensures var id := SanitizeAppIdentifier(appIdentifier).value;
      SanitizeAppIdentifier(Some(id)) == Success(id)
  {
    var id := SanitizeAppIdentifier(appIdentifier).value;
    assert IsHexDigit(id[0]) && IsHexDigit(id[|id| - 1]);
    TrimTrimmed(id);
  }

  /** The hyphen that separates the groups of a GUID. */
  const Dash: CodeUnit := 0x2D

  /** `StringBuffer.insert(i, c)`. */
  function Insert(s: JavaString, i: nat, c: CodeUnit): (r: JavaString)
    requires i <= |s|
    ensures |r| == |s| + 1
    ensures r[..i] == s[..i] && r[i] == c && r[i + 1..] == s[i..]
  {
    s[..i] + [c] + s[i..]
  }

  /** The positions of the hyphens in the 8-4-4-4-12 layout of section 3 of RFC 4122. */
  predicate IsDashPosition(i: int) {
    i == 8 || i == 13 || i == 18 || i == 23
  }

  /** Text in the 8-4-4-4-12 layout: 36 code units, hyphens at the group
      boundaries and hexadecimal digits everywhere else. */
  predicate IsGuidText(g: JavaString) {
    && |g| == 36
    && (forall i :: 0 <= i < |g| && IsDashPosition(i) ==> g[i] == Dash)
    && (forall i :: 0 <= i < |g| && !IsDashPosition(i) ==> IsHexDigit(g[i]))
  }

  /** The string with every hyphen deleted: no hyphen is left and every other
      code unit of the input still occurs. */
  function RemoveDashes(s: JavaString): (r: JavaString)
    ensures Dash !in r
    ensures forall c :: c != Dash ==> (c in r <==> c in s)
  {
    if |s| == 0 then []
    else (if s[0] == Dash then [] else [s[0]]) + RemoveDashes(s[1..])
  }

  lemma {:induction false} RemoveDashesConcat(a: JavaString, b: JavaString)
    ensures RemoveDashes(a + b) == RemoveDashes(a) + RemoveDashes(b)
  {
    if |a| > 0 {
      assert (a + b)[1..] == a[1..] + b;
      RemoveDashesConcat(a[1..], b);
    } else {
      assert a + b == b;
    }
  }

  lemma {:induction false} RemoveDashesOfHex(s: JavaString)
    requires AllHexDigits(s)
    ensures RemoveDashes(s) == s
  {
    if |s| > 0 {
      RemoveDashesOfHex(s[1..]);
    }
  }

  /** The sanitised identifier cut into groups of 8, 4, 4, 4 and 12 digits joined by hyphens. */
  function GuidLayout(t: JavaString): (g: JavaString)
    requires |t| == 32
  {
    t[..8] + [Dash] + t[8..12] + [Dash] + t[12..16] + [Dash] + t[16..20] + [Dash] + t[20..]
  }

  lemma GuidLayoutIsGuid(t: JavaString)
    requires |t| == 32 && AllHexDigits(t)
    ensures IsGuidText(GuidLayout(t))
  {
    var g := GuidLayout(t);
    forall i | 0 <= i < |g| && !IsDashPosition(i) ensures IsHexDigit(g[i]) {
      if i < 8 { assert g[i] == t[i]; }
      else if i < 13 { assert g[i] == t[i - 1]; }
      else if i < 18 { assert g[i] == t[i - 2]; }
      else if i < 23 { assert g[i] == t[i - 3]; }
      else { assert g[i] == t[i - 4]; }
    }
  }

  /** A hexadecimal group followed by a hyphen loses only the hyphen. */
  lemma RemoveDashesAfterGroup(group: JavaString, rest: JavaString)
    requires AllHexDigits(group)
    ensures RemoveDashes(group + [Dash] + rest) == group + RemoveDashes(rest)
  {
    var tail := [Dash] + rest;
    assert tail[0] == Dash && tail[1..] == rest;
    assert RemoveDashes(tail) == RemoveDashes(rest);
    assert group + [Dash] + rest == group + tail;
    RemoveDashesConcat(group, tail);
    RemoveDashesOfHex(group);
  }

  /** Deleting the hyphens of the layout gives back the identifier. */
  lemma GuidLayoutRemoveDashes(t: JavaString)
    requires |t| == 32 && AllHexDigits(t)
    ensures RemoveDashes(GuidLayout(t)) == t
  {
    var g1, g2, g3, g4, g5 := t[..8], t[8..12], t[12..16], t[16..20], t[20..];
    var r4 := g4 + [Dash] + g5;
    var r3 := g3 + [Dash] + r4;
    var r2 := g2 + [Dash] + r3;
    assert GuidLayout(t) == g1 + [Dash] + r2;
    assert AllHexDigits(g5);
    RemoveDashesOfHex(g5);
    RemoveDashesAfterGroup(g4, g5);
    RemoveDashesAfterGroup(g3, r4);
    RemoveDashesAfterGroup(g2, r3);
    RemoveDashesAfterGroup(g1, r2);
    assert t == g1 + (g2 + (g3 + (g4 + g5)));
  }

  /** Four insertions, from the right so that earlier positions do not move,
      build the layout. */
  lemma InsertionsBuildLayout(t: JavaString)
    requires |t| == 32
    ensures Insert(Insert(Insert(Insert(t, 20, Dash), 16, Dash), 12, Dash), 8, Dash) == GuidLayout(t)
  {
    var a1 := Insert(t, 20, Dash);
    assert a1 == t[..20] + [Dash] + t[20..];
    assert a1[..16] == t[..16] && a1[16..] == t[16..20] + [Dash] + t[20..];
    var a2 := Insert(a1, 16, Dash);
    assert a2 == t[..16] + [Dash] + t[16..20] + [Dash] + t[20..];
    assert a2[..12] == t[..12] && a2[12..] == t[12..16] + [Dash] + t[16..20] + [Dash] + t[20..];
    var a3 := Insert(a2, 12, Dash);
    assert a3 == t[..12] + [Dash] + t[12..16] + [Dash] + t[16..20] + [Dash] + t[20..];
    assert a3[..8] == t[..8] && a3[8..] == t[8..12] + [Dash] + t[12..16] + [Dash] + t[16..20] + [Dash] + t[20..];
  }

  /** `convertAppIdentifierToGuid`: sanitises the identifier, rethrowing its
      exception, and inserts hyphens at positions 20, 16, 12 and 8, in that order. */
  function ConvertAppIdentifierToGuid(appIdentifier: Option<JavaString>): (r: Result<JavaString, AppIdError>)
    ensures r.Failure? <==> SanitizeAppIdentifier(appIdentifier).Failure?
    ensures r.Failure? ==> r.error == SanitizeAppIdentifier(appIdentifier).error
    ensures r.Success? ==> r.value == GuidLayout(SanitizeAppIdentifier(appIdentifier).value)
    ensures r.Success? ==> IsGuidText(r.value)
    ensures r.Success? ==> RemoveDashes(r.value) == SanitizeAppIdentifier(appIdentifier).value
  {
    match SanitizeAppIdentifier(appIdentifier)
    case Failure(e) => Failure(e)
    case Success(id) =>
      var guid := Insert(Insert(Insert(Insert(id, 20, Dash), 16, Dash), 12, Dash), 8, Dash);
      InsertionsBuildLayout(id);
      GuidLayoutIsGuid(id);
      GuidLayoutRemoveDashes(id);
      Success(guid)
  }

  /** The sum of the lengths of the parts. */
  function TotalLength<T>(parts: seq<seq<T>>): nat {
    if |parts| == 0 then 0 else |parts[0]| + TotalLength(parts[1..])
  }

  /** The parts in order, each two neighbours separated by `delimiter`. */
  function Join<T>(parts: seq<seq<T>>, delimiter: seq<T>): seq<T> {
    if |parts| == 0 then []
    else if |parts| == 1 then parts[0]
    else parts[0] + delimiter + Join(parts[1..], delimiter)
  }

  lemma {:induction false} JoinSnoc<T>(parts: seq<seq<T>>, delimiter: seq<T>, x: seq<T>)
    requires |parts| >= 1
    ensures Join(parts + [x], delimiter) == Join(parts, delimiter) + delimiter + x
  {
    if |parts| > 1 {
      assert (parts + [x])[1..] == parts[1..] + [x];
      JoinSnoc(parts[1..], delimiter, x);
    }
  }

  /** The joined string is as long as the parts plus one delimiter between each two of them. */
  lemma {:induction false} JoinLength<T>(parts: seq<seq<T>>, delimiter: seq<T>)
    requires |parts| >= 1
    ensures |Join(parts, delimiter)| == TotalLength(parts) + (|parts| - 1) * |delimiter|
  {
    if |parts| > 1 {
      JoinLength(parts[1..], delimiter);
    }
  }

  /** Where part `k` starts in the joined string. */
  function Offset<T>(parts: seq<seq<T>>, delimiter: seq<T>, k: nat): nat
    requires k <= |parts|
  {
    TotalLength(parts[..k]) + k * |delimiter|
  }

  /** Every part appears, in order, at its offset, and a delimiter follows every
      part but the last. */
  lemma {:induction false} JoinPlacesParts<T>(parts: seq<seq<T>>, delimiter: seq<T>, k: nat)
    requires k < |parts|
    ensures var j, o := Join(parts, delimiter), Offset(parts, delimiter, k);
      && o + |parts[k]| <= |j|
      && j[o..o + |parts[k]|] == parts[k]
      && (k < |parts| - 1 ==> o + |parts[k]| + |delimiter| <= |j|
                              && j[o + |parts[k]|..o + |parts[k]| + |delimiter|] == delimiter)
  {
    var j := Join(parts, delimiter);
    if k == 0 {
      assert parts[..0] == [];
      if |parts| > 1 {
        assert j == parts[0] + delimiter + Join(parts[1..], delimiter);
        assert j[|parts[0]|..|parts[0]| + |delimiter|] == delimiter;
      }
    } else {
      var tail := parts[1..];
      JoinPlacesParts(tail, delimiter, k - 1);
      assert parts[..k][1..] == tail[..k - 1];
      assert Offset(parts, delimiter, k) == |parts[0]| + |delimiter| + Offset(tail, delimiter, k - 1);
      assert j == parts[0] + delimiter + Join(tail, delimiter);
      var p := |parts[0]| + |delimiter|;
      assert j[p..] == Join(tail, delimiter);
    }
  }

  /** `joinArray`: appends each element and, after every element but the last,
      the delimiter. */
  method JoinArray(elements: seq<JavaString>, delimiter: JavaString) returns (r: JavaString)
    ensures r == Join(elements, delimiter)
    ensures |elements| == 0 ==> r == []
    ensures |elements| == 1 ==> r == elements[0]
  {
    var buffer: JavaString := [];
    var index := 0;
    assert elements[..|elements|] == elements;
    while index < |elements|
      invariant 0 <= index <= |elements|
      invariant index == 0 ==> buffer == []
      invariant 0 < index < |elements| ==> buffer == Join(elements[..index], delimiter) + delimiter
      invariant 0 < index == |elements| ==> buffer == Join(elements, delimiter)
    {
      if index > 0 {
        JoinSnoc(elements[..index], delimiter, elements[index]);
        assert elements[..index] + [elements[index]] == elements[..index + 1];
      }
      buffer := buffer + elements[index];
      if index < |elements| - 1 {
        buffer := buffer + delimiter;
      }
      index := index + 1;
    }
    r := buffer;
  }
}
