/** Explicit scanners for the small single-match patterns that the signing engine runs
    over one tag at a time (`value=['"](.*?)['"]`, `name=['"]…(?<name>.+?)['"]` and the
    like). A non-global match finds the leftmost start position at which the pattern
    matches; `Leftmost` searches for it, given what the pattern does at one position. */
module Scan {
  import opened Text

  /** The leftmost position k in [i, n] where `at` matches, with what it matched there. */
  function Leftmost<T>(at: nat -> Option<T>, i: nat, n: nat): (r: Option<(nat, T)>)
    requires i <= n
    ensures r.Some? ==> i <= r.value.0 <= n && at(r.value.0) == Some(r.value.1)
    ensures r.Some? ==> forall j :: i <= j < r.value.0 ==> at(j).None?
    ensures r.None? ==> forall j :: i <= j <= n ==> at(j).None?
    decreases n - i
  {
    match at(i)
    case Some(x) => Some((i, x))
    case None => if i == n then None else Leftmost(at, i + 1, n)
  }

  /** `k` in t ignores ASCII letter case, as under the `i` flag; `k` is lower case. */
  predicate OccursAtFolded(t: string, k: string, i: nat) {
    i + |k| <= |t| && ToLower(t[i..i + |k|]) == k
  }

  /** The first index at or after j holding a quote or a line terminator, or |t|. */
  function StopAt(t: string, j: nat): (r: nat)
    requires j <= |t|
    ensures j <= r <= |t|
    ensures r < |t| ==> IsQuote(t[r]) || IsLineTerminator(t[r])
    ensures forall k :: j <= k < r ==> !IsQuote(t[k]) && !IsLineTerminator(t[k])
    decreases |t| - j
  {
    if j == |t| || IsQuote(t[j]) || IsLineTerminator(t[j]) then j else StopAt(t, j + 1)
  }

  /** `(.*?)['"]` at j: the shortest run of non-line-terminators ending before a quote. */
  function LazyQuoted(t: string, j: nat): (r: Option<string>)
    requires j <= |t|
    ensures r.Some? <==> exists e :: j <= e < |t| && IsQuote(t[e]) && NoLineBreak(t, j, e)
    ensures r.Some? ==> exists e :: j <= e < |t| && IsQuote(t[e]) && r.value == t[j..e]
                                     && forall k :: j <= k < e ==> !IsQuote(t[k])
  {
    var e := StopAt(t, j);
    if e < |t| && IsQuote(t[e]) then Some(t[j..e])
    else
      assert forall e' :: j <= e' < |t| && IsQuote(t[e']) ==> !NoLineBreak(t, j, e') by {
        forall e' | j <= e' < |t| && IsQuote(t[e']) ensures !NoLineBreak(t, j, e') {
          assert e <= e' && e < |t| && IsLineTerminator(t[e]);
        }
      }
      None
  }

  predicate NoLineBreak(t: string, j: nat, e: nat)
    requires j <= e <= |t|
  {
    forall k :: j <= k < e ==> !IsLineTerminator(t[k])
  }

  /** `(.+?)['"]` at j: as `LazyQuoted`, but the run holds at least one character,
      which may itself be a quote. */
  function LazyQuotedNonEmpty(t: string, j: nat): (r: Option<string>)
    requires j <= |t|
    ensures r.Some? ==> |r.value| >= 1
    ensures r.Some? <==> exists e :: j < e < |t| && IsQuote(t[e]) && NoLineBreak(t, j, e)
  {
    if j < |t| && !IsLineTerminator(t[j]) then
      match LazyQuoted(t, j + 1)
      case Some(v) => Some([t[j]] + v)
      case None =>
        assert forall e :: j < e < |t| && IsQuote(t[e]) ==> !NoLineBreak(t, j, e) by {
          forall e | j < e < |t| && IsQuote(t[e]) ensures !NoLineBreak(t, j, e) {
            if NoLineBreak(t, j, e) { assert NoLineBreak(t, j + 1, e); }
          }
        }
        None
    else None
  }

  /** The first line terminator at or after j, or |t|. */
  function LineEnd(t: string, j: nat): (r: nat)
    requires j <= |t|
    ensures j <= r <= |t| && NoLineBreak(t, j, r)
    ensures r < |t| ==> IsLineTerminator(t[r])
    decreases |t| - j
  {
    if j == |t| || IsLineTerminator(t[j]) then j else LineEnd(t, j + 1)
  }

  /** The largest quote position e with j < e < k, if any. */
  function LastQuote(t: string, j: nat, k: nat): (r: Option<nat>)
    requires j <= k <= |t|
    ensures r.Some? ==> j < r.value < k && IsQuote(t[r.value])
    ensures r.Some? ==> forall e :: r.value < e < k ==> !IsQuote(t[e])
    ensures r.None? ==> forall e :: j < e < k ==> !IsQuote(t[e])
    decreases k
  {
    if k <= j + 1 then None
    else if IsQuote(t[k - 1]) then Some(k - 1)
    else LastQuote(t, j, k - 1)
  }

  /** `(.+)['"]` at j: the longest run of non-line-terminators ending before a quote. */
  function GreedyQuoted(t: string, j: nat): (r: Option<string>)
    requires j <= |t|
    ensures r.Some? ==> |r.value| >= 1
    ensures r.Some? <==> exists e :: j < e < |t| && IsQuote(t[e]) && NoLineBreak(t, j, e)
    ensures r.Some? ==> exists e :: j < e < |t| && IsQuote(t[e]) && NoLineBreak(t, j, e)
                                     && r.value == t[j..e]
                                     && forall e' :: e < e' < |t| && IsQuote(t[e']) ==> !NoLineBreak(t, j, e')
  {
    var l := LineEnd(t, j);
    match LastQuote(t, j, l)
    case Some(e) =>
      assert NoLineBreak(t, j, e);
      assert forall e' :: e < e' < |t| && IsQuote(t[e']) ==> !NoLineBreak(t, j, e') by {
        forall e' | e < e' < |t| && IsQuote(t[e']) ensures !NoLineBreak(t, j, e') {
          assert l <= e' && l < |t| && IsLineTerminator(t[l]);
        }
      }
      Some(t[j..e])
    case None =>
      assert forall e :: j < e < |t| && IsQuote(t[e]) ==> !NoLineBreak(t, j, e) by {
        forall e | j < e < |t| && IsQuote(t[e]) ensures !NoLineBreak(t, j, e) {
          assert l <= e && l < |t| && IsLineTerminator(t[l]);
        }
      }
      None
  }

  /** `key['"](.*?)['"]` at i, for a plain lower-case key such as `value=` or `type=`;
      `folded` selects the `i` flag. */
  function AttrAt(t: string, key: string, folded: bool, i: nat): (r: Option<string>)
    ensures r.Some? ==> i + |key| < |t| && IsQuote(t[i + |key|])
  {
    if (if folded then OccursAtFolded(t, key, i) else OccursAt(t, key, i))
       && i + |key| < |t| && IsQuote(t[i + |key|])
    then LazyQuoted(t, i + |key| + 1)
    else None
  }

  /** The first match of `key['"](.*?)['"]` in t, as `t.match(…)[1]`. */
  function FindAttr(t: string, key: string, folded: bool): (r: Option<string>)
    ensures r.Some? ==> exists i :: AttrAt(t, key, folded, i) == r
    ensures r.None? ==> forall i :: 0 <= i <= |t| ==> AttrAt(t, key, folded, i).None?
  {
    var at := (i: nat) => AttrAt(t, key, folded, i);
    match Leftmost(at, 0, |t|)
    case Some((_, v)) => Some(v)
    case None =>
      assert forall i: nat :: i <= |t| ==> AttrAt(t, key, folded, i).None? by {
        forall i: nat | i <= |t| ensures AttrAt(t, key, folded, i).None? { assert at(i).None?; }
      }
      None
  }

  /** `key['"](.+)['"]` at i, case-sensitive: the greedy capture runs to the last quote
      before the end of the line. */
  function GreedyAttrAt(t: string, key: string, i: nat): (r: Option<string>)
    ensures r.Some? ==> |r.value| >= 1 && OccursAt(t, key, i)
  {
    if OccursAt(t, key, i) && i + |key| < |t| && IsQuote(t[i + |key|])
    then GreedyQuoted(t, i + |key| + 1)
    else None
  }

  /** The first match of `key['"](.+)['"]` in t, as `t.match(…)[1]`. */
  function FindGreedyAttr(t: string, key: string): (r: Option<string>)
    ensures r.Some? ==> |r.value| >= 1 && exists i :: GreedyAttrAt(t, key, i) == r
    ensures r.None? ==> forall i :: 0 <= i <= |t| ==> GreedyAttrAt(t, key, i).None?
  {
    var at := (i: nat) => GreedyAttrAt(t, key, i);
    match Leftmost(at, 0, |t|)
    case Some((_, v)) => Some(v)
    case None =>
      assert forall i: nat :: i <= |t| ==> GreedyAttrAt(t, key, i).None? by {
        forall i: nat | i <= |t| ensures GreedyAttrAt(t, key, i).None? { assert at(i).None?; }
      }
      None
  }

  /** At j, the first of `alts` followed by `body` and a closing quote, as the regular
      expression `(alt1|alt2|…)body['"]` tries its alternatives in order; the end of the
      match. */
  function AltQuotedAt(t: string, alts: seq<string>, body: string, j: nat): (r: Option<nat>)
    ensures r.Some? ==> j < r.value <= |t| && IsQuote(t[r.value - 1])
    ensures r.Some? ==> exists a :: a in alts && OccursAt(t, a + body, j) && r.value == j + |a + body| + 1
    ensures r.None? ==> forall a :: a in alts ==> !(OccursAt(t, a + body, j) && j + |a + body| < |t| && IsQuote(t[j + |a + body|]))
    decreases |alts|
  {
    if alts == [] then None
    else
      var s := alts[0] + body;
      if OccursAt(t, s, j) && j + |s| < |t| && IsQuote(t[j + |s|]) then Some(j + |s| + 1)
      else AltQuotedAt(t, alts[1..], body, j)
  }

  /** At i: `lead`, an opening quote, one of `alts`, `body` and a closing quote, all taken
      literally and case-sensitively; the end of the match. */
  function QuotedAt(t: string, lead: string, alts: seq<string>, body: string, i: nat): (r: Option<nat>)
    ensures r.Some? ==> i < r.value <= |t| && OccursAt(t, lead, i) && i + |lead| < |t| && IsQuote(t[i + |lead|])
  {
    if OccursAt(t, lead, i) && i + |lead| < |t| && IsQuote(t[i + |lead|])
    then AltQuotedAt(t, alts, body, i + |lead| + 1)
    else None
  }

  /** The leftmost match of `QuotedAt`, as the pair of its start and end. */
  function FindQuoted(t: string, lead: string, alts: seq<string>, body: string): (r: Option<(nat, nat)>)
    ensures r.Some? ==> r.value.0 < r.value.1 <= |t| && QuotedAt(t, lead, alts, body, r.value.0) == Some(r.value.1)
    ensures r.Some? ==> forall j :: 0 <= j < r.value.0 ==> QuotedAt(t, lead, alts, body, j).None?
    ensures r.None? ==> forall j :: 0 <= j <= |t| ==> QuotedAt(t, lead, alts, body, j).None?
  {
    var at := (i: nat) => QuotedAt(t, lead, alts, body, i);
    match Leftmost(at, 0, |t|)
    case Some((i, e)) =>
      assert forall j: nat :: j < i ==> QuotedAt(t, lead, alts, body, j).None? by {
        forall j: nat | j < i ensures QuotedAt(t, lead, alts, body, j).None? { assert at(j).None?; }
      }
      Some((i, e))
    case None =>
      assert forall j: nat :: j <= |t| ==> QuotedAt(t, lead, alts, body, j).None? by {
        forall j: nat | j <= |t| ensures QuotedAt(t, lead, alts, body, j).None? { assert at(j).None?; }
      }
      None
  }

  /** `t.replace(re, rep)` once the leftmost match of `re` is known, as the pair of its
      start and end positions: the matched text becomes `rep`, the rest is kept. */
  function ReplaceSpan(t: string, m: Option<(nat, nat)>, rep: string): (r: string)
    ensures m.None? ==> r == t
    ensures m.Some? && m.value.0 <= m.value.1 <= |t| ==> r == t[..m.value.0] + rep + t[m.value.1..]
  {
    if m.Some? && m.value.0 <= m.value.1 <= |t| then t[..m.value.0] + rep + t[m.value.1..] else t
  }
}
