/** The email normalisation `update` of the user service compares with:
    `trim()` followed by `to_lowercase()`. `trim` removes leading and trailing
    characters with the Unicode White_Space property; the lowering here maps
    the ASCII capitals only. */
module Emails {

  /** The Unicode White_Space property, which `str::trim` strips. */
  predicate IsWhiteSpace(c: char) {
    ('\U{9}' <= c <= '\U{D}') || c == ' ' || c == '\U{85}' || c == '\U{A0}' || c == '\U{1680}' ||
    ('\U{2000}' <= c <= '\U{200A}') || c == '\U{2028}' || c == '\U{2029}' || c == '\U{202F}' ||
    c == '\U{205F}' || c == '\U{3000}'
  }

  predicate AllWhiteSpace(s: string) {
    forall i :: 0 <= i < |s| ==> IsWhiteSpace(s[i])
  }

  /** Neither end of `s` is white space. */
  predicate Trimmed(s: string) {
    s == [] || (!IsWhiteSpace(s[0]) && !IsWhiteSpace(s[|s| - 1]))
  }

  /** The number of white-space characters `s` starts with. */
  function LeadingWhiteSpace(s: string): (k: nat)
    ensures k <= |s| && AllWhiteSpace(s[..k])
    ensures k == |s| || !IsWhiteSpace(s[k])
  {
    if s != [] && IsWhiteSpace(s[0]) then
      var k := LeadingWhiteSpace(s[1..]);
      assert forall i :: 0 <= i < k ==> s[..k + 1][i + 1] == s[1..][..k][i];
      k + 1
    else 0
  }

  /** Where the white space `s` ends with begins. */
  function TrailingWhiteSpace(s: string): (k: nat)
    ensures k <= |s| && AllWhiteSpace(s[k..])
    ensures k == 0 || !IsWhiteSpace(s[k - 1])
  {
    if s != [] && IsWhiteSpace(s[|s| - 1]) then
      var k := TrailingWhiteSpace(s[..|s| - 1]);
      assert forall i :: 0 <= i < |s| - 1 - k ==> s[k..][i] == s[..|s| - 1][k..][i];
      k
    else |s|
  }

  /** `str::trim`: `s` without its leading and trailing white space. */
  function Trim(s: string): (r: string)
    ensures Trimmed(r)
  {
    var t := s[LeadingWhiteSpace(s)..];
    t[..TrailingWhiteSpace(t)]
  }

  /** `char::to_lowercase` on the ASCII capitals; every other character is kept. */
  function LowerChar(c: char): char {
    if 'A' <= c <= 'Z' then (c as int + 32) as char else c
  }

  function Lower(s: string): (r: string)
    ensures |r| == |s|
    ensures forall i :: 0 <= i < |s| ==> r[i] == LowerChar(s[i])
  {
    if s == [] then [] else [LowerChar(s[0])] + Lower(s[1..])
  }

  /** The form two emails are compared in: `email.trim().to_lowercase()`. */
  function Normalize(email: string): string {
    Lower(Trim(email))
  }

  /** `Trim` cuts off white space only, from both ends: it keeps `s[i..j]`. */
  lemma TrimSplits(s: string) returns (i: nat, j: nat)
    ensures i <= j <= |s| && Trim(s) == s[i..j]
    ensures AllWhiteSpace(s[..i]) && AllWhiteSpace(s[j..])
  {
    i := LeadingWhiteSpace(s);
    var t := s[i..];
    var k := TrailingWhiteSpace(t);
    j := i + k;
    SliceOfSuffix(s, i, k);
  }

  lemma SliceOfSuffix(s: string, i: nat, k: nat)
    requires i <= |s| && k <= |s| - i
    ensures s[i..][..k] == s[i..i + k] && s[i..][k..] == s[i + k..]
  {
  }

  /** Trimming a string with no white space at either end changes nothing. */
  lemma TrimOfTrimmed(s: string)
    requires Trimmed(s)
    ensures Trim(s) == s
  {
  }

  /** Lowering never turns white space into anything else, nor the reverse. */
  lemma LowerKeepsWhiteSpace(c: char)
    ensures IsWhiteSpace(LowerChar(c)) <==> IsWhiteSpace(c)
  {
  }

  lemma LowerOfTrimmedIsTrimmed(s: string)
    requires Trimmed(s)
    ensures Trimmed(Lower(s))
  {
    if s != [] {
      LowerKeepsWhiteSpace(s[0]);
      LowerKeepsWhiteSpace(s[|s| - 1]);
    }
  }

  lemma {:induction false} LowerIdempotent(s: string)
    ensures Lower(Lower(s)) == Lower(s)
  {
    var l := Lower(s);
    assert forall i :: 0 <= i < |s| ==> Lower(l)[i] == LowerChar(LowerChar(s[i])) == l[i];
  }

  /** Normalising twice is normalising once: a stored normalised email
      compares equal to itself. */
  lemma NormalizeIdempotent(email: string)
    ensures Normalize(Normalize(email)) == Normalize(email)
  {
    var t := Trim(email);
    LowerOfTrimmedIsTrimmed(t);
    TrimOfTrimmed(Lower(t));
    LowerIdempotent(t);
  }

  /** White space around an email does not change its normalised form. */
  lemma NormalizeIgnoresPadding(before: string, email: string, after: string)
    requires AllWhiteSpace(before) && AllWhiteSpace(after)
    ensures Normalize(before + email + after) == Normalize(email)
  {
    TrimIgnoresPadding(before, email, after);
  }

  lemma TrimIgnoresPadding(before: string, email: string, after: string)
    requires AllWhiteSpace(before) && AllWhiteSpace(after)
    ensures Trim(before + email + after) == Trim(email)
  {
    var i, j := TrimSplits(email);
    var core := email[i..j];
    var head := before + email[..i];
    var tail := email[j..] + after;
    AllWhiteSpaceJoin(before, email[..i]);
    AllWhiteSpaceJoin(email[j..], after);
    PaddedTrim(head, core, tail);
    Regroup(before, email, after, i, j);
  }

  lemma Regroup(before: string, s: string, after: string, i: nat, j: nat)
    requires i <= j <= |s|
    ensures (before + s[..i]) + s[i..j] + (s[j..] + after) == before + s + after
  {
    assert s == s[..i] + s[i..j] + s[j..];
  }

  lemma AllWhiteSpaceJoin(a: string, b: string)
    requires AllWhiteSpace(a) && AllWhiteSpace(b)
    ensures AllWhiteSpace(a + b)
  {
    assert forall i :: |a| <= i < |a + b| ==> (a + b)[i] == b[i - |a|];
  }

  /** Trimming a trimmed core wrapped in white space gives the core back. */
  lemma PaddedTrim(before: string, core: string, after: string)
    requires AllWhiteSpace(before) && AllWhiteSpace(after) && Trimmed(core)
    ensures Trim(before + core + after) == core
  {
    var s := before + core + after;
    if core == [] {
      AllWhiteSpaceJoin(before, after);
      assert s == before + after + [];
      StartDrops(before + after, []);
    } else {
      assert s == before + (core + after);
      StartDrops(before, core + after);
      assert s[|before|..] == core + after;
      EndDrops(core, after);
    }
  }

  lemma {:induction false} StartDrops(ws: string, s: string)
    requires AllWhiteSpace(ws) && (s == [] || !IsWhiteSpace(s[0]))
    ensures LeadingWhiteSpace(ws + s) == |ws|
  {
    if ws != [] {
      assert (ws + s)[1..] == ws[1..] + s;
      StartDrops(ws[1..], s);
    } else {
      assert ws + s == s;
    }
  }

  lemma {:induction false} EndDrops(s: string, ws: string)
    requires AllWhiteSpace(ws) && (s == [] || !IsWhiteSpace(s[|s| - 1]))
    ensures TrailingWhiteSpace(s + ws) == |s|
  {
    if ws != [] {
      assert (s + ws)[..|s + ws| - 1] == s + ws[..|ws| - 1];
      EndDrops(s, ws[..|ws| - 1]);
    } else {
      assert s + ws == s;
    }
  }

  /** Emails that differ only in ASCII case normalise alike. */
  lemma NormalizeIgnoresCase(email: string)
    ensures Normalize(Lower(email)) == Normalize(email)
  {
    var i, j := TrimSplits(email);
    assert email == email[..i] + email[i..j] + email[j..];
    LowerJoin(email[..i] + email[i..j], email[j..]);
    LowerJoin(email[..i], email[i..j]);
    LowerKeepsAllWhiteSpace(email[..i]);
    LowerKeepsAllWhiteSpace(email[j..]);
    LowerOfTrimmedIsTrimmed(email[i..j]);
    PaddedTrim(Lower(email[..i]), Lower(email[i..j]), Lower(email[j..]));
    LowerIdempotent(email[i..j]);
  }

  lemma LowerJoin(a: string, b: string)
    ensures Lower(a + b) == Lower(a) + Lower(b)
  {
    assert forall i :: 0 <= i < |a + b| ==> Lower(a + b)[i] == (Lower(a) + Lower(b))[i];
  }

  lemma LowerKeepsAllWhiteSpace(s: string)
    requires AllWhiteSpace(s)
    ensures AllWhiteSpace(Lower(s))
  {
    forall i | 0 <= i < |s|
      ensures IsWhiteSpace(Lower(s)[i])
    {
      LowerKeepsWhiteSpace(s[i]);
    }
  }
}
