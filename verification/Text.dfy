/** The string functions the services rely on: trimming, lower-casing and the
    order of strings. */
module Text {

  /** `unicode.IsSpace` */
  predicate IsSpace(c: char) {
    || c == ' ' || '\U{9}' <= c <= '\U{D}' || c == '\U{85}' || c == '\U{A0}' || c == '\U{1680}'
    || '\U{2000}' <= c <= '\U{200A}' || c == '\U{2028}' || c == '\U{2029}' || c == '\U{202F}'
    || c == '\U{205F}' || c == '\U{3000}'
  }

  /** The spaces: six controls, the blank, and the blanks of the other alphabets. */
  lemma SpacesAre(c: char)
    ensures IsSpace(c) <==>
            c in {'\t', '\n', '\U{B}', '\U{C}', '\r', '\U{85}', ' ', '\U{A0}', '\U{1680}',
                  '\U{2000}', '\U{2001}', '\U{2002}', '\U{2003}', '\U{2004}', '\U{2005}', '\U{2006}', '\U{2007}',
                  '\U{2008}', '\U{2009}', '\U{200A}', '\U{2028}', '\U{2029}', '\U{202F}', '\U{205F}', '\U{3000}'}
  {
  }

  /** `strings.TrimSpace` */
  function Trim(s: string): string {
    if s == "" then ""
    else if IsSpace(s[0]) then Trim(s[1..])
    else if IsSpace(s[|s| - 1]) then Trim(s[..|s| - 1])
    else s
  }

  /** No space at either end. */
  predicate Trimmed(s: string) {
    s != "" ==> !IsSpace(s[0]) && !IsSpace(s[|s| - 1])
  }

  predicate AllSpace(s: string) {
    forall i :: 0 <= i < |s| ==> IsSpace(s[i])
  }

  lemma {:induction false} TrimIsTrimmed(s: string)
    ensures Trimmed(Trim(s))
    ensures Trimmed(s) ==> Trim(s) == s
  {
    if s != "" && IsSpace(s[0]) {
      TrimIsTrimmed(s[1..]);
    } else if s != "" && IsSpace(s[|s| - 1]) {
      TrimIsTrimmed(s[..|s| - 1]);
    }
  }

  /** Trimming takes away nothing but spaces, and only from the ends. */
  lemma {:induction false} TrimDropsOnlySpaces(s: string) returns (left: string, right: string)
    ensures s == left + Trim(s) + right && AllSpace(left) && AllSpace(right)
  {
    left, right := "", "";
    if s != "" && IsSpace(s[0]) {
      left, right := TrimDropsOnlySpaces(s[1..]);
      MoreSpace(left, s[0]);
      assert s == [s[0]] + (left + Trim(s) + right) == ([s[0]] + left) + Trim(s) + right;
      left := [s[0]] + left;
    } else if s != "" && IsSpace(s[|s| - 1]) {
      left, right := TrimDropsOnlySpaces(s[..|s| - 1]);
      MoreSpace(right, s[|s| - 1]);
      assert s == (left + Trim(s) + right) + [s[|s| - 1]] == left + Trim(s) + (right + [s[|s| - 1]]);
      right := right + [s[|s| - 1]];
    }
  }

  lemma MoreSpace(s: string, c: char)
    requires AllSpace(s) && IsSpace(c)
    ensures AllSpace([c] + s) && AllSpace(s + [c])
  {
  }

  /** A string is blank exactly when it is all space. */
  lemma BlankMeansAllSpace(s: string)
    ensures Trim(s) == "" <==> AllSpace(s)
  {
    var left, right := TrimDropsOnlySpaces(s);
    TrimIsTrimmed(s);
    if Trim(s) == "" {
      assert s == left + right;
    } else {
      assert s[|left|] == Trim(s)[0];
    }
  }

  /** `strings.ToLower` on ASCII letters; other characters are left alone. */
  function LowerChar(c: char): char {
    if 'A' <= c <= 'Z' then c + 32 as char else c
  }

  function Lower(s: string): string {
    seq(|s|, i requires 0 <= i < |s| => LowerChar(s[i]))
  }

  /** Letter by letter: a capital becomes its small letter, at the same place of the
      alphabet, and nothing else changes. */
  lemma LowerExactly(s: string, i: nat)
    requires i < |s|
    ensures |Lower(s)| == |s|
    ensures var capitals, small := "ABCDEFGHIJKLMNOPQRSTUVWXYZ", "abcdefghijklmnopqrstuvwxyz";
            && (forall k :: 0 <= k < 26 && s[i] == capitals[k] ==> Lower(s)[i] == small[k])
            && (s[i] !in capitals ==> Lower(s)[i] == s[i])
  {
    var capitals, small := "ABCDEFGHIJKLMNOPQRSTUVWXYZ", "abcdefghijklmnopqrstuvwxyz";
    forall k | 0 <= k < 26
      ensures capitals[k] == 'A' + k as char && small[k] == 'a' + k as char
    {
    }
    if 'A' <= s[i] <= 'Z' {
      assert s[i] == capitals[s[i] as int - 'A' as int];
    }
  }

  lemma LowerIsIdempotent(s: string)
    ensures Lower(Lower(s)) == Lower(s)
    ensures Trimmed(s) ==> Trimmed(Lower(s))
    ensures Lower(s) == "" <==> s == ""
  {
  }

  /** `strings.ToLower(strings.TrimSpace(s))` */
  function Normalized(s: string): string {
    Lower(Trim(s))
  }

  lemma NormalizedIsIdempotent(s: string)
    ensures Normalized(Normalized(s)) == Normalized(s)
  {
    TrimIsTrimmed(s);
    LowerIsIdempotent(Trim(s));
    TrimIsTrimmed(Normalized(s));
  }

  // ---------------------------------------------------------------- order

  /** `strings.Compare(a, b) < 0`; bytes of UTF-8 text compare as its characters do. */
  predicate Before(a: string, b: string) {
    b != "" && (a == "" || a[0] < b[0] || (a[0] == b[0] && Before(a[1..], b[1..])))
  }

  /** The texts agree up to `k`, and there `a` ends or has the smaller character. */
  predicate DiffersAt(a: string, b: string, k: nat) {
    && k <= |a| && k < |b| && a[..k] == b[..k]
    && (k == |a| || a[k] < b[k])
  }

  lemma {:induction false} BeforeIsLexicographic(a: string, b: string)
    ensures Before(a, b) <==> exists k :: 0 <= k <= |a| && DiffersAt(a, b, k)
  {
    if a == "" || b == "" || a[0] != b[0] {
      assert b != "" && (a == "" || a[0] < b[0]) ==> DiffersAt(a, b, 0);
    } else {
      BeforeIsLexicographic(a[1..], b[1..]);
      if k :| 0 <= k <= |a| && DiffersAt(a, b, k) {
        DiffersLater(a, b, k - 1);
      }
      if k :| 0 <= k < |a| && DiffersAt(a[1..], b[1..], k) {
        DiffersLater(a, b, k);
      }
    }
  }

  lemma DiffersLater(a: string, b: string, k: nat)
    requires a != "" && b != "" && a[0] == b[0]
    ensures DiffersAt(a[1..], b[1..], k) <==> DiffersAt(a, b, k + 1)
  {
    if k < |a| && k < |b| - 1 {
      assert a[..k + 1] == [a[0]] + a[1..][..k] && b[..k + 1] == [b[0]] + b[1..][..k];
      assert a[1..][..k] == a[..k + 1][1..] && b[1..][..k] == b[..k + 1][1..];
    }
  }

  lemma {:induction false} BeforeIsTotal(a: string, b: string)
    ensures Before(a, b) || a == b || Before(b, a)
    ensures !(Before(a, b) && (Before(b, a) || a == b))
  {
    if a != "" && b != "" && a[0] == b[0] {
      BeforeIsTotal(a[1..], b[1..]);
      assert a == [a[0]] + a[1..] && b == [b[0]] + b[1..];
    }
  }

  lemma {:induction false} BeforeIsTransitive(a: string, b: string, c: string)
    requires Before(a, b) && Before(b, c)
    ensures Before(a, c)
  {
    if a != "" && a[0] == b[0] && b[0] == c[0] {
      BeforeIsTransitive(a[1..], b[1..], c[1..]);
    }
  }
}
