/** String primitives of the JavaScript runtime that the signing engine relies on:
    indexOf with its clamped start position, replace with a string pattern (first
    occurrence only), global replace of a literal pattern, split on one character,
    ASCII lower-casing and the decimal rendering of numbers. */
module Text {

  datatype Option<+T> = None | Some(value: T)

  predicate IsDigit(c: char) { '0' <= c <= '9' }

  predicate IsUpperAscii(c: char) { 'A' <= c <= 'Z' }

  predicate IsLowerAscii(c: char) { 'a' <= c <= 'z' }

  /** The characters that the regular-expression `.` refuses to match. */
  predicate IsLineTerminator(c: char) {
    c == '\n' || c == '\r' || c == '\U{2028}' || c == '\U{2029}'
  }

  /** The two characters that the source's patterns accept as attribute quotes, ['"]. */
  predicate IsQuote(c: char) { c == '"' || c == '\'' }

  predicate StartsWith(s: string, p: string) {
    |p| <= |s| && s[..|p|] == p
  }

  predicate OccursAt(s: string, n: string, k: int) {
    0 <= k && k + |n| <= |s| && s[k..k + |n|] == n
  }

  function Clamp(i: int, hi: nat): (r: nat)
    ensures r <= hi
  {
    if i < 0 then 0 else if i > hi then hi else i
  }

  /** The first position at or after k where n occurs in s, or -1. */
  function FirstFrom(s: string, n: string, k: nat): (r: int)
    requires k <= |s|
    ensures r == -1 || (k <= r && OccursAt(s, n, r))
    ensures r != -1 ==> forall j :: k <= j < r ==> !OccursAt(s, n, j)
    ensures r == -1 ==> forall j :: k <= j ==> !OccursAt(s, n, j)
    decreases |s| - k
  {
    if k + |n| > |s| then -1
    else if s[k..k + |n|] == n then k
    else if k == |s| then -1
    else FirstFrom(s, n, k + 1)
  }

  /** JavaScript `s.indexOf(n, from)`: the search starts at `from` clamped to [0, |s|]. */
  function IndexOf(s: string, n: string, from: int): (r: int)
    ensures r == -1 || (Clamp(from, |s|) <= r && OccursAt(s, n, r))
    ensures r != -1 ==> forall j :: Clamp(from, |s|) <= j < r ==> !OccursAt(s, n, j)
    ensures r == -1 ==> forall j :: Clamp(from, |s|) <= j ==> !OccursAt(s, n, j)
  {
    FirstFrom(s, n, Clamp(from, |s|))
  }

  /** `s.indexOf(n) !== -1`, the `strContains` helper of the engine. */
  predicate Contains(s: string, n: string)
    ensures Contains(s, n) <==> exists k :: OccursAt(s, n, k)
  {
    IndexOf(s, n, 0) != -1
  }

  /** An occurrence in the tail of a concatenation is one in the whole. */
  lemma ContainsInTail(a: string, b: string, n: string)
    requires Contains(b, n)
    ensures Contains(a + b, n)
  {
    var k :| OccursAt(b, n, k);
    assert (a + b)[|a| + k..|a| + k + |n|] == b[k..k + |n|];
    assert OccursAt(a + b, n, |a| + k);
  }

  /** An occurrence that cannot start at the first character lies in the rest. */
  lemma ContainsPastHead(c: char, s: string, n: string)
    requires Contains([c] + s, n) && |n| > 0 && n[0] != c
    ensures Contains(s, n)
  {
    var k :| OccursAt([c] + s, n, k);
    assert ([c] + s)[k] == n[0];
    assert ([c] + s)[k..k + |n|] == s[k - 1..k - 1 + |n|];
    assert OccursAt(s, n, k - 1);
  }

  /** JavaScript `s.replace(pat, rep)` with a string pattern: only the leftmost
      occurrence is replaced; without an occurrence the string is returned as it is. */
  function ReplaceFirst(s: string, pat: string, rep: string): (r: string)
    ensures !Contains(s, pat) ==> r == s
    ensures Contains(s, pat) ==>
      var i := IndexOf(s, pat, 0);
      OccursAt(s, pat, i) && r == s[..i] + rep + s[i + |pat|..]
  {
    var i := IndexOf(s, pat, 0);
    if i == -1 then s else s[..i] + rep + s[i + |pat|..]
  }

  /** Replacing an occurrence of p by p itself changes nothing. */
  lemma ReplaceFirstSelf(s: string, p: string)
    ensures ReplaceFirst(s, p, p) == s
  {
    if Contains(s, p) {
      var i := IndexOf(s, p, 0);
      assert s == s[..i] + s[i..i + |p|] + s[i + |p|..];
    }
  }

  /** A string without the character c contains no occurrence of [c]. */
  lemma NoOccurrenceOfAbsentChar(s: string, c: char)
    requires c !in s
    ensures !Contains(s, [c])
  {
    forall k | 0 <= k && k + 1 <= |s| ensures !OccursAt(s, [c], k) {
      assert s[k..k + 1] == [s[k]];
    }
  }

  /** JavaScript `s.replace(/pat/g, rep)` for a pattern without metacharacters:
      leftmost, non-overlapping occurrences are replaced. */
  function ReplaceAll(s: string, pat: string, rep: string): string
    requires |pat| > 0
    decreases |s|
  {
    if |s| < |pat| then s
    else if s[..|pat|] == pat then rep + ReplaceAll(s[|pat|..], pat, rep)
    else [s[0]] + ReplaceAll(s[1..], pat, rep)
  }

  /** Text without the first character of the pattern passes through unchanged. */
  lemma {:induction false} ReplaceAllSkip(a: string, t: string, pat: string, rep: string)
    requires |pat| > 0 && pat[0] !in a
    ensures ReplaceAll(a + t, pat, rep) == a + ReplaceAll(t, pat, rep)
    decreases |a|
  {
    if a != [] {
      var s := a + t;
      assert s[0] == a[0];
      if |s| < |pat| {
        assert ReplaceAll(t, pat, rep) == t;
        assert ReplaceAll(s, pat, rep) == s;
      } else {
        assert s[..|pat|][0] != pat[0];
        assert s[1..] == a[1..] + t;
        calc {
          ReplaceAll(s, pat, rep);
          [s[0]] + ReplaceAll(a[1..] + t, pat, rep);
          { ReplaceAllSkip(a[1..], t, pat, rep); }
          [a[0]] + (a[1..] + ReplaceAll(t, pat, rep));
          { assert a == [a[0]] + a[1..]; }
          a + ReplaceAll(t, pat, rep);
        }
      }
    } else {
      assert a + t == t;
    }
  }

  /** An occurrence at the front is replaced. */
  lemma ReplaceAllHit(t: string, pat: string, rep: string)
    requires |pat| > 0
    ensures ReplaceAll(pat + t, pat, rep) == rep + ReplaceAll(t, pat, rep)
  {
    assert (pat + t)[..|pat|] == pat && (pat + t)[|pat|..] == t;
  }

  /** Every character a replaced by b: `s.replace(/a/g, b)` for single characters. */
  function MapChar(s: string, a: char, b: char): (r: string)
    ensures |r| == |s|
    ensures forall i :: 0 <= i < |s| ==> r[i] == if s[i] == a then b else s[i]
  {
    seq(|s|, i requires 0 <= i < |s| => if s[i] == a then b else s[i])
  }

  function LowerChar(c: char): char {
    if IsUpperAscii(c) then (c as int + 32) as char else c
  }

  /** `toLowerCase()` on the ASCII range. */
  function ToLower(s: string): (r: string)
    ensures |r| == |s|
    ensures forall i :: 0 <= i < |s| ==> r[i] == LowerChar(s[i])
  {
    seq(|s|, i requires 0 <= i < |s| => LowerChar(s[i]))
  }

  predicate IsLowerCase(s: string) {
    forall i :: 0 <= i < |s| ==> !IsUpperAscii(s[i])
  }

  /** One leading c removed, as `s.replace(/^c/, "")` does. */
  function DropLeading(s: string, c: char): (r: string)
    ensures if |s| > 0 && s[0] == c then r == s[1..] else r == s
  {
    if |s| > 0 && s[0] == c then s[1..] else s
  }

  /** JavaScript `s.split(c)` for a one-character separator. */
  function Split(s: string, c: char): (r: seq<string>)
    ensures |r| >= 1
    ensures (c !in s) <==> r == [s]
    ensures c in s ==> |r| >= 2
    decreases |s|
  {
    var i := IndexOf(s, [c], 0);
    if i == -1 then
      assert Clamp(0, |s|) == 0;
      assert c !in s by {
        forall j | 0 <= j < |s| ensures s[j] != c {
          assert !OccursAt(s, [c], j) && s[j..j + 1] == [s[j]];
        }
      }
      [s]
    else
      assert s[i] == s[i..i + 1][0];
      [s[..i]] + Split(s[i + 1..], c)
  }

  /** The text before the first separator is the first piece; the rest is split on. */
  lemma SplitFirst(a: string, b: string, c: char)
    requires c !in a
    ensures Split(a + [c] + b, c) == [a] + Split(b, c)
  {
    var s := a + [c] + b;
    var i := IndexOf(s, [c], 0);
    assert Clamp(0, |s|) == 0;
    assert OccursAt(s, [c], |a|) by { assert s[|a|..|a| + 1] == [c]; }
    assert forall j :: 0 <= j < |a| ==> !OccursAt(s, [c], j) by {
      forall j | 0 <= j < |a| ensures !OccursAt(s, [c], j) { assert s[j] == a[j] && s[j..j + 1] == [s[j]]; }
    }
    assert i == |a|;
    assert s[..i] == a;
    assert s[i + 1..] == b;
  }

  /** A string with exactly one separator splits into the two sides. */
  lemma SplitOnce(a: string, b: string, c: char)
    requires c !in a && c !in b
    ensures Split(a + [c] + b, c) == [a, b]
  {
    SplitFirst(a, b, c);
  }

  function DigitChar(d: nat): char
    requires d < 10
  {
    ('0' as int + d) as char
  }

  /** Decimal rendering of a natural number, as `String(n)`. */
  function NatToString(n: nat): (r: string)
    ensures |r| >= 1
    ensures forall i :: 0 <= i < |r| ==> IsDigit(r[i])
    decreases n
  {
    if n < 10 then [DigitChar(n)] else NatToString(n / 10) + [DigitChar(n % 10)]
  }

  function IntToString(n: int): string {
    if n < 0 then "-" + NatToString(-n) else NatToString(n)
  }
}
