/**
 The case-insensitive string comparisons of util.cc, on NUL-terminated strings.
 */
module Strings {

  function Lowcase(c: char): char {
    if 'A' <= c <= 'Z' then (c as int + 32) as char else c
  }

  /** What std::string::c_str() shows a C function: everything before the first NUL. */
  function CStr(s: string): (t: string)
    ensures |t| <= |s| && t == s[..|t|] && '\0' !in t
    ensures |t| < |s| ==> s[|t|] == '\0'
  {
    if s == [] || s[0] == '\0' then [] else [s[0]] + CStr(s[1..])
  }

  lemma CStrWhole(s: string)
    requires forall i :: 0 <= i < |s| ==> s[i] != '\0'
    ensures CStr(s) == s
  {
  }

  predicate SameNoCase(a: string, b: string) {
    |a| == |b| && forall i :: 0 <= i < |a| ==> Lowcase(a[i]) == Lowcase(b[i])
  }

  predicate StartsNoCase(a: string, b: string) {
    |b| <= |a| && forall i :: 0 <= i < |b| ==> Lowcase(a[i]) == Lowcase(b[i])
  }

  /** `b` occurs in `a`; nothing occurs in an empty string. */
  predicate OccursNoCase(a: string, b: string) {
    exists i :: 0 <= i < |a| && StartsNoCase(a[i..], b)
  }

  /** A string that begins with `b`, without a NUL in it, contains `b` for C. */
  lemma OccursInFront(a: string, b: string)
    requires b != [] && StartsNoCase(a, b) && forall i :: 0 <= i < |b| ==> a[i] != '\0'
    ensures OccursNoCase(CStr(a), b)
  {
    var c := CStr(a);
    assert |c| >= |b|;
    assert c[0..] == c && StartsNoCase(c[0..], b);
  }

  lemma TooLongToOccur(a: string, b: string)
    requires |a| < |b|
    ensures !OccursNoCase(a, b)
  {
  }

  function At(s: string, i: nat): char {
    if i < |s| then s[i] else '\0'
  }

  /** How far two strings agree from the given positions. */
  method Advance(a: string, b: string, from: nat) returns (n: nat)
    requires '\0' !in a && '\0' !in b && from <= |a|
    ensures from + n <= |a| && n <= |b|
    ensures forall i :: 0 <= i < n ==> Lowcase(a[from + i]) == Lowcase(b[i])
    ensures from + n == |a| || n == |b| || Lowcase(a[from + n]) != Lowcase(b[n])
  {
    n := 0;
    while At(a, from + n) != '\0' && At(b, n) != '\0' && Lowcase(At(a, from + n)) == Lowcase(At(b, n))
      invariant from + n <= |a| && n <= |b|
      invariant forall i :: 0 <= i < n ==> Lowcase(a[from + i]) == Lowcase(b[i])
      decreases |a| - n
    {
      n := n + 1;
    }
  }

  method Strieq(s: string, t: string) returns (r: bool)
    ensures r <==> SameNoCase(CStr(s), CStr(t))
  {
    var a, b := CStr(s), CStr(t);
    var n := Advance(a, b, 0);
    r := n == |a| && n == |b|;
  }

  method Strifind(s: string, t: string) returns (r: bool)
    ensures r <==> OccursNoCase(CStr(s), CStr(t))
  {
    var a, b := CStr(s), CStr(t);
    var i := 0;
    while i < |a|
      invariant i <= |a|
      invariant forall k :: 0 <= k < i ==> !StartsNoCase(a[k..], b)
    {
      var n := Advance(a, b, i);
      if n == |b| {
        assert StartsNoCase(a[i..], b);
        return true;
      }
      assert n < |a| - i ==> a[i..][n] == a[i + n];
      i := i + 1;
    }
    return false;
  }
}
