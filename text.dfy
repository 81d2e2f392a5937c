/**
  The string operations the mailer applies to addresses: Python's `str.strip()`,
  `str.lower()` (on ASCII letters only) and `str.replace` of one character.
 */
module Text {

  /** The characters Python's `str.isspace` accepts, which `str.strip()` removes. */
  predicate IsSpace(c: char) {
    || c == ' '
    || '\t' <= c <= '\r'
    || '\U{1C}' <= c <= '\U{1F}'
    || c == '\U{85}' || c == '\U{A0}' || c == '\U{1680}'
    || '\U{2000}' <= c <= '\U{200A}'
    || c == '\U{2028}' || c == '\U{2029}' || c == '\U{202F}' || c == '\U{205F}' || c == '\U{3000}'
  }

  predicate IsUpper(c: char) {
    'A' <= c <= 'Z'
  }

  function LowerChar(c: char): (d: char)
    ensures !IsUpper(d)
    ensures !IsUpper(c) ==> d == c
  {
    if IsUpper(c) then (c as int + 32) as char else c
  }

  /** `s.lower()`, restricted to the ASCII letters. */
  function Lower(s: string): (t: string)
    ensures |t| == |s|
    ensures forall k :: 0 <= k < |s| ==> t[k] == LowerChar(s[k])
  {
    seq(|s|, k requires 0 <= k < |s| => LowerChar(s[k]))
  }

  lemma LowerIdempotent(s: string)
    ensures Lower(Lower(s)) == Lower(s)
  {
  }

  /** Number of whitespace characters at the front of `s`. */
  function LeadingSpaces(s: string): (n: nat)
    ensures n <= |s|
    ensures forall k :: 0 <= k < n ==> IsSpace(s[k])
    ensures n < |s| ==> !IsSpace(s[n])
  {
    if s == [] || !IsSpace(s[0]) then 0 else 1 + LeadingSpaces(s[1..])
  }

  /** Number of whitespace characters at the back of `s`. */
  function TrailingSpaces(s: string): (n: nat)
    ensures n <= |s|
    ensures forall k :: |s| - n <= k < |s| ==> IsSpace(s[k])
    ensures n < |s| ==> !IsSpace(s[|s| - 1 - n])
  {
    if s == [] || !IsSpace(s[|s| - 1]) then 0 else 1 + TrailingSpaces(s[..|s| - 1])
  }

  /** `t` is `s` from position `i` on, with only whitespace cut on either side. */
  ghost predicate CutOfSpaces(s: string, i: int, t: string) {
    && 0 <= i <= |s| - |t|
    && t == s[i..i + |t|]
    && (forall k :: 0 <= k < i ==> IsSpace(s[k]))
    && (forall k :: i + |t| <= k < |s| ==> IsSpace(s[k]))
  }

  /** `s.strip()`: the middle of `s` once whitespace is cut from both ends. */
  function Strip(s: string): string {
    var rest := s[LeadingSpaces(s)..];
    rest[..|rest| - TrailingSpaces(rest)]
  }

  /** `Strip` cuts only whitespace, and all of it: what is left starts and ends with something else. */
  lemma StripCutsSpaces(s: string)
    ensures var t := Strip(s);
      && (t == [] || (!IsSpace(t[0]) && !IsSpace(t[|t| - 1])))
      && exists i :: CutOfSpaces(s, i, t)
  {
    var i := LeadingSpaces(s);
    var rest := s[i..];
    var n := TrailingSpaces(rest);
    var t := rest[..|rest| - n];
    assert t == s[i..i + |t|];
    forall k | i + |t| <= k < |s|
      ensures IsSpace(s[k])
    {
      assert s[k] == rest[k - i];
    }
    if t != [] {
      assert t[0] == rest[0] && t[|t| - 1] == rest[|rest| - 1 - n];
    }
    assert CutOfSpaces(s, i, t);
  }

  /** Whether `s` has no whitespace at either end. */
  predicate Trimmed(s: string) {
    s == [] || (!IsSpace(s[0]) && !IsSpace(s[|s| - 1]))
  }

  lemma StripTrimmed(s: string)
    requires Trimmed(s)
    ensures Strip(s) == s
  {
    assert LeadingSpaces(s) == 0;
    assert s[0..] == s;
    if s != [] {
      assert TrailingSpaces(s) == 0;
    }
  }

  /** The normal form both blocklist operations use: `s.strip().lower()`. */
  function Normalize(s: string): string {
    Lower(Strip(s))
  }

  /** A normal form is trimmed, has no upper-case letter, and is no longer than what it came from. */
  lemma NormalizeIsNormal(s: string)
    ensures var t := Normalize(s);
      Trimmed(t) && (forall k :: 0 <= k < |t| ==> !IsUpper(t[k])) && |t| <= |s|
  {
    StripCutsSpaces(s);
    var u := Strip(s);
    if u != [] {
      assert Normalize(s)[0] == LowerChar(u[0]);
      assert Normalize(s)[|u| - 1] == LowerChar(u[|u| - 1]);
    }
  }

  lemma {:induction false} NormalizeIdempotent(s: string)
    ensures Normalize(Normalize(s)) == Normalize(s)
  {
    var n := Normalize(s);
    NormalizeIsNormal(s);
    StripTrimmed(n);
    LowerIdempotent(Strip(s));
  }

  /** The number of occurrences of `c` in `s`. */
  function Count(s: string, c: char): nat {
    if s == [] then 0 else (if s[0] == c then 1 else 0) + Count(s[1..], c)
  }

  /** `s.replace(c, r)` for a single character `c`. */
  function Replace(s: string, c: char, r: string): (t: string)
    ensures c !in r ==> c !in t
    ensures forall d :: d != c && d !in r ==> (d in t <==> d in s)
    ensures c !in s ==> t == s
  {
    if s == [] then []
    else (if s[0] == c then r else [s[0]]) + Replace(s[1..], c, r)
  }

  /** A single character is replaced by `r` when it is `c`, and kept otherwise. */
  lemma ReplaceOfChar(d: char, c: char, r: string)
    ensures Replace([d], c, r) == if d == c then r else [d]
  {
    assert [d][1..] == [];
    assert r + [] == r && [d] + [] == [d];
  }

  lemma {:induction false} ReplaceConcat(a: string, b: string, c: char, r: string)
    ensures Replace(a + b, c, r) == Replace(a, c, r) + Replace(b, c, r)
  {
    if a == [] {
      assert a + b == b;
    } else {
      var head := if a[0] == c then r else [a[0]];
      assert (a + b)[0] == a[0] && (a + b)[1..] == a[1..] + b;
      ReplaceConcat(a[1..], b, c, r);
      calc {
        Replace(a + b, c, r);
        head + Replace(a[1..] + b, c, r);
        head + (Replace(a[1..], c, r) + Replace(b, c, r));
        (head + Replace(a[1..], c, r)) + Replace(b, c, r);
      }
    }
  }
}
