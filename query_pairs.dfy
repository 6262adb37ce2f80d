/** An explicit scanner for the query-pair pattern that both signing revisions use,
      (?<amp>&(?:amp;)?)(?<prefix>[a-z0-9]{1,3}:)?(?<name>[^=]+)=(?<value>[^&]+)
    run with the global flag, so that successive matches are collected from left to right.

    Worked out from the backtracking order of the pattern: a match must start at '&';
    its name runs up to the first '=' after that '&' and is never empty; its value is
    the whole run of non-'&' characters after that '=' and is never empty. When the
    text after '&' starts with "amp;" and a non-empty name remains, the separator is
    "&amp;"; a prefix of one to three [a-z0-9] characters and ':' is taken when a
    non-empty name remains after it. */
module QueryPairs {
  import opened Text

  /** One match. `prefix` is "" when the optional group did not take part (undefined
      in the source); `matched` is the whole matched text. */
  datatype Pair = Pair(amp: string, prefix: string, name: string, value: string, matched: string)

  predicate IsPrefixChar(c: char) { 'a' <= c <= 'z' || '0' <= c <= '9' }

  /** One to three [a-z0-9] characters followed by ':'. */
  predicate ValidPrefix(p: string) {
    2 <= |p| <= 4 && p[|p| - 1] == ':' && forall i :: 0 <= i < |p| - 1 ==> IsPrefixChar(p[i])
  }

  /** The separator: "&" or "&amp;", compared a character at a time. */
  predicate IsSeparator(amp: string) {
    (|amp| == 1 || (|amp| == 5 && AmpEntityAt(amp, 1))) && amp[0] == '&'
  }

  predicate WellFormed(p: Pair) {
    && IsSeparator(p.amp)
    && (p.prefix == "" || ValidPrefix(p.prefix))
    && |p.name| > 0 && '=' !in p.name
    && |p.value| > 0 && '&' !in p.value
    && p.matched == p.amp + p.prefix + p.name + "=" + p.value
  }

  /** The first index at or after i holding c, or |t| when there is none. */
  function NextChar(t: string, c: char, i: nat): (r: nat)
    requires i <= |t|
    ensures i <= r <= |t|
    ensures r < |t| ==> t[r] == c
    decreases |t| - i
  {
    if i == |t| || t[i] == c then i else NextChar(t, c, i + 1)
  }

  /** No c lies between i and `NextChar(t, c, i)`. */
  lemma {:induction false} NextCharFirst(t: string, c: char, i: nat)
    requires i <= |t|
    ensures forall j :: i <= j < NextChar(t, c, i) ==> t[j] != c
    decreases |t| - i
  {
    if i < |t| && t[i] != c { NextCharFirst(t, c, i + 1); }
  }

  /** Length of the prefix group at t[s..] including its ':', or 0 when it does not match. */
  function PrefixLen(t: string, s: nat): (k: nat)
    ensures k == 0 || (2 <= k <= 4 && s + k <= |t|)
  {
    if s + 3 < |t| && IsPrefixChar(t[s]) && IsPrefixChar(t[s + 1]) && IsPrefixChar(t[s + 2])
       && t[s + 3] == ':' then 4
    else if s + 2 < |t| && IsPrefixChar(t[s]) && IsPrefixChar(t[s + 1]) && t[s + 2] == ':' then 3
    else if s + 1 < |t| && IsPrefixChar(t[s]) && t[s + 1] == ':' then 2
    else 0
  }

  /** What `PrefixLen` takes is a valid prefix. */
  lemma PrefixLenValid(t: string, s: nat)
    ensures var k := PrefixLen(t, s); k == 0 || ValidPrefix(t[s..s + k])
  {
    var k := PrefixLen(t, s);
    if k == 4 { assert t[s..s + 4] == [t[s], t[s + 1], t[s + 2], ':']; }
    if k == 3 { assert t[s..s + 3] == [t[s], t[s + 1], ':']; }
    if k == 2 { assert t[s..s + 2] == [t[s], ':']; }
  }

  /** Where the separator ends: "&amp;" is taken when a non-empty name can follow it. */
  function AmpEnd(t: string, i: nat, e: nat): (a: nat)
    requires i + 1 < e <= |t|
    ensures a == i + 1 || (a == i + 5 && a < e && AmpEntityAt(t, i + 1))
  {
    if i + 5 < e && AmpEntityAt(t, i + 1) then i + 5 else i + 1
  }

  /** "amp;" at position j, compared a character at a time. */
  predicate AmpEntityAt(t: string, j: nat) {
    j + 4 <= |t| && t[j] == 'a' && t[j + 1] == 'm' && t[j + 2] == 'p' && t[j + 3] == ';'
  }

  /** The prefix group at a, kept only when a non-empty name still follows it before e. */
  function PrefixTaken(t: string, a: nat, e: nat): (k: nat)
    ensures k == 0 || (a + k < e && k == PrefixLen(t, a))
  {
    if a + PrefixLen(t, a) < e then PrefixLen(t, a) else 0
  }

  /** The pair cut out of t from the '&' at i, with its '=' at e and its value ending at v. */
  function Cut(t: string, i: nat, e: nat, v: nat): (p: Pair)
    requires i + 1 < e < v <= |t|
    ensures p.matched == t[i..v]
  {
    var a := AmpEnd(t, i, e);
    var k := PrefixTaken(t, a, e);
    Pair(t[i..a], t[a..a + k], t[a + k..e], t[e + 1..v], t[i..v])
  }

  /** The match of the pattern that starts at position i of t, if there is one. */
  function MatchAt(t: string, i: nat): (r: Option<Pair>)
    ensures r.Some? ==> |r.value.matched| > 0 && i + |r.value.matched| <= |t|
  {
    if i < |t| && t[i] == '&' then
      var e := NextChar(t, '=', i + 1);
      if e < |t| && i + 1 < e then
        var v := NextChar(t, '&', e + 1);
        if e + 1 < v then Some(Cut(t, i, e, v)) else None
      else None
    else None
  }

  /** Every match is well formed and is the text at its position. */
  lemma MatchAtSound(t: string, i: nat, p: Pair)
    requires MatchAt(t, i) == Some(p)
    ensures WellFormed(p) && OccursAt(t, p.matched, i)
  {
    var e := NextChar(t, '=', i + 1);
    var v := NextChar(t, '&', e + 1);
    MatchAtParts(t, i, p);
    CutSound(t, i, e, v, p);
  }

  /** A match starts at '&' and is cut at the positions of the scan. */
  lemma MatchAtParts(t: string, i: nat, p: Pair)
    requires MatchAt(t, i) == Some(p)
    ensures i < |t| && t[i] == '&'
    ensures var e := NextChar(t, '=', i + 1);
      var v := NextChar(t, '&', e + 1);
      i + 1 < e < |t| && e + 1 < v <= |t| && p == Cut(t, i, e, v)
  {
  }

  /** What `Cut` takes at the positions of the scan is well formed and is the text there. */
  lemma CutSound(t: string, i: nat, e: nat, v: nat, p: Pair)
    requires i + 1 < e < |t| && e + 1 < v <= |t| && t[i] == '&'
    requires e == NextChar(t, '=', i + 1) && v == NextChar(t, '&', e + 1)
    requires p == Cut(t, i, e, v)
    ensures WellFormed(p) && OccursAt(t, p.matched, i)
  {
    var a := AmpEnd(t, i, e);
    var k := PrefixTaken(t, a, e);
    NextCharFirst(t, '=', i + 1);
    NextCharFirst(t, '&', e + 1);
    PrefixLenValid(t, a);
    MatchFacts(t, i, a, a + k, e, v);
  }

  lemma MatchFacts(t: string, i: nat, a: nat, b: nat, e: nat, v: nat)
    requires i < a <= b < e && e + 1 < v <= |t| && t[i] == '&' && t[e] == '='
    requires a == i + 1 || (a == i + 5 && AmpEntityAt(t, i + 1))
    requires a == b || ValidPrefix(t[a..b])
    requires forall j :: b <= j < e ==> t[j] != '='
    requires forall j :: e + 1 <= j < v ==> t[j] != '&'
    ensures WellFormed(Pair(t[i..a], t[a..b], t[b..e], t[e + 1..v], t[i..v]))
    ensures OccursAt(t, t[i..v], i)
  {
    if a == i + 5 { assert t[i..a] == [t[i], t[i + 1], t[i + 2], t[i + 3], t[i + 4]]; } else { assert t[i..a] == [t[i]]; }
    NoCharInSlice(t, '=', b, e);
    NoCharInSlice(t, '&', e + 1, v);
    MatchedParts(t, i, a, b, e, v);
  }

  /** The matched text is its parts put back together. */
  lemma MatchedParts(t: string, i: nat, a: nat, b: nat, e: nat, v: nat)
    requires i <= a <= b <= e < v <= |t| && t[e] == '='
    ensures t[i..v] == t[i..a] + t[a..b] + t[b..e] + "=" + t[e + 1..v]
  {
    // Left to right, as the concatenation associates.
    SliceSplit(t, i, a, b);
    SliceSplit(t, i, b, e);
    SliceSplit(t, i, e, e + 1);
    assert t[e..e + 1] == "=";
    SliceSplit(t, i, e + 1, v);
  }

  lemma SliceSplit(t: string, x: nat, y: nat, z: nat)
    requires x <= y <= z <= |t|
    ensures t[x..z] == t[x..y] + t[y..z]
  {
  }

  lemma NoCharInSlice(t: string, c: char, i: nat, j: nat)
    requires i <= j <= |t|
    requires forall k :: i <= k < j ==> t[k] != c
    ensures c !in t[i..j]
  {
  }

  /** All matches at or after position i, left to right, as the global pattern finds
      them: after a match the search resumes where it ended. */
  function PairsFrom(t: string, i: nat): (r: seq<Pair>)
    decreases |t| - i
  {
    if i >= |t| then []
    else match MatchAt(t, i)
      case Some(p) => [p] + PairsFrom(t, i + |p.matched|)
      case None => PairsFrom(t, i + 1)
  }

  function Pairs(t: string): seq<Pair> {
    PairsFrom(t, 0)
  }

  /** The `matchGroups` loop for this pattern: `regexp.exec` is tried again from the end
      of each match, and the groups of each match are collected. */
  method MatchPairs(qs: string) returns (found: seq<Pair>)
    ensures found == Pairs(qs)
  {
    found := [];
    var i := 0;
    while i < |qs|
      invariant 0 <= i
      invariant found + PairsFrom(qs, i) == Pairs(qs)
      decreases |qs| - i
    {
      var m := MatchAt(qs, i);
      match m {
        case Some(p) =>
          found := found + [p];
          i := i + |p.matched|;
        case None =>
          i := i + 1;
      }
    }
  }

  /** Every pair found is well formed and its matched text occurs in the scanned string. */
  lemma {:induction false} PairsAreMatches(t: string, i: nat)
    ensures forall p :: p in PairsFrom(t, i) ==> WellFormed(p) && Contains(t, p.matched)
    decreases |t| - i
  {
    if i < |t| {
      match MatchAt(t, i)
      case Some(p) =>
        PairsAreMatches(t, i + |p.matched|);
        MatchFound(t, i, p);
        PairsFromMatch(t, i, p);
        FoundCons(t, PairsFrom(t, i), p, PairsFrom(t, i + |p.matched|));
      case None =>
        PairsAreMatches(t, i + 1);
        PairsFromNoMatch(t, i);
    }
  }

  lemma FoundCons(t: string, x: seq<Pair>, p: Pair, rest: seq<Pair>)
    requires x == [p] + rest && WellFormed(p) && Contains(t, p.matched)
    requires forall q :: q in rest ==> WellFormed(q) && Contains(t, q.matched)
    ensures forall q :: q in x ==> WellFormed(q) && Contains(t, q.matched)
  {
  }

  lemma MatchFound(t: string, i: nat, p: Pair)
    requires MatchAt(t, i) == Some(p)
    ensures WellFormed(p) && Contains(t, p.matched)
  {
    MatchAtSound(t, i, p);
  }

  /** Where nothing matches, the global scan moves on by one character. */
  lemma PairsFromNoMatch(t: string, i: nat)
    requires i < |t| && MatchAt(t, i).None?
    ensures PairsFrom(t, i) == PairsFrom(t, i + 1)
  {
  }

  /** A pair as a client writes it: separator '&', an optional valid prefix, a name
      free of '=', '&', ':' and ';', and a non-empty value free of '&'. */
  predicate NameChar(c: char) { c != '=' && c != '&' && c != ':' && c != ';' }

  predicate Plain(p: Pair) {
    && p.amp == "&"
    && (p.prefix == "" || ValidPrefix(p.prefix))
    && |p.name| > 0
    && (forall i :: 0 <= i < |p.name| ==> NameChar(p.name[i]))
    && |p.value| > 0 && '&' !in p.value
    && p.matched == p.amp + p.prefix + p.name + "=" + p.value
  }

  function Render(ps: seq<Pair>): string {
    if ps == [] then "" else ps[0].matched + Render(ps[1..])
  }

  /** The scanner recovers exactly the pairs that a query string was written from. */
  lemma ScanRender(ps: seq<Pair>)
    requires forall p :: p in ps ==> Plain(p)
    ensures Pairs(Render(ps)) == ps
  {
    var t := Render(ps);
    assert t[0..] == t;
    RenderedAtStart(t, 0, ps);
    RenderedMatches(t, 0, ps);
    ScanMatchesAt(t, 0, ps);
  }

  /** The pairs are written one after the other from position i to the end of t, each
      followed by '&' or by the end of t. */
  predicate RenderedAt(t: string, i: nat, ps: seq<Pair>)
    decreases |ps|
  {
    if ps == [] then i == |t|
    else
      && Plain(ps[0]) && OccursAt(t, ps[0].matched, i)
      && (i + |ps[0].matched| == |t| || t[i + |ps[0].matched|] == '&')
      && RenderedAt(t, i + |ps[0].matched|, ps[1..])
  }

  /** Plain pairs rendered from position i to the end are laid out as `RenderedAt` says. */
  lemma {:induction false} RenderedAtStart(t: string, i: nat, ps: seq<Pair>)
    requires forall p :: p in ps ==> Plain(p)
    requires i + |Render(ps)| == |t| && t[i..] == Render(ps)
    ensures RenderedAt(t, i, ps)
    decreases |ps|
  {
    if ps != [] {
      RenderLayout(t, i, ps);
      PlainRest(ps);
      RenderedAtStart(t, i + |ps[0].matched|, ps[1..]);
    }
  }

  /** The pairs are the successive matches from position i to the end of t. */
  predicate MatchesAt(t: string, i: nat, ps: seq<Pair>)
    decreases |ps|
  {
    if ps == [] then i == |t|
    else MatchAt(t, i) == Some(ps[0]) && MatchesAt(t, i + |ps[0].matched|, ps[1..])
  }

  /** Each plain pair of a layout is the match at its position. */
  lemma {:induction false} RenderedMatches(t: string, i: nat, ps: seq<Pair>)
    requires RenderedAt(t, i, ps)
    ensures MatchesAt(t, i, ps)
    decreases |ps|
  {
    if ps != [] {
      RenderedAtTail(t, i, ps);
      RenderedMatches(t, i + |ps[0].matched|, ps[1..]);
      HeadMatches(t, i, ps);
      MatchesAtCons(t, i, ps);
    }
  }

  /** The global scan over successive matches finds exactly those matches. */
  lemma {:induction false} ScanMatchesAt(t: string, i: nat, ps: seq<Pair>)
    requires MatchesAt(t, i, ps)
    ensures PairsFrom(t, i) == ps
    decreases |ps|
  {
    if ps != [] {
      MatchesAtTail(t, i, ps);
      ScanMatchesAt(t, i + |ps[0].matched|, ps[1..]);
      ScanTakes(t, i, ps);
    }
  }

  lemma HeadMatches(t: string, i: nat, ps: seq<Pair>)
    requires ps != [] && RenderedAt(t, i, ps)
    ensures MatchAt(t, i) == Some(ps[0])
  {
    MatchPlain(t, i, ps[0]);
  }

  lemma MatchesAtCons(t: string, i: nat, ps: seq<Pair>)
    requires ps != [] && MatchAt(t, i) == Some(ps[0])
    requires MatchesAt(t, i + |ps[0].matched|, ps[1..])
    ensures MatchesAt(t, i, ps)
  {
  }

  lemma RenderedAtTail(t: string, i: nat, ps: seq<Pair>)
    requires ps != [] && RenderedAt(t, i, ps)
    ensures RenderedAt(t, i + |ps[0].matched|, ps[1..])
  {
  }

  lemma MatchesAtTail(t: string, i: nat, ps: seq<Pair>)
    requires ps != [] && MatchesAt(t, i, ps)
    ensures MatchAt(t, i) == Some(ps[0]) && MatchesAt(t, i + |ps[0].matched|, ps[1..])
  {
  }

  lemma PlainRest(ps: seq<Pair>)
    requires ps != [] && forall p :: p in ps ==> Plain(p)
    ensures forall p :: p in ps[1..] ==> Plain(p)
  {
    assert forall p :: p in ps[1..] ==> p in ps;
  }

  /** The scan takes the match at i and then finds the rest. */
  lemma ScanTakes(t: string, i: nat, ps: seq<Pair>)
    requires ps != [] && MatchAt(t, i) == Some(ps[0])
    requires PairsFrom(t, i + |ps[0].matched|) == ps[1..]
    ensures PairsFrom(t, i) == ps
  {
    PairsFromMatch(t, i, ps[0]);
    ConsEqual(PairsFrom(t, i), PairsFrom(t, i + |ps[0].matched|), ps);
  }

  /** A sequence built from the head of ps and the tail of ps is ps. */
  lemma ConsEqual<T>(x: seq<T>, y: seq<T>, ps: seq<T>)
    requires ps != [] && x == [ps[0]] + y && y == ps[1..]
    ensures x == ps
  {
    assert ps == [ps[0]] + ps[1..];
  }

  /** The global scan takes the match at i and resumes after it. */
  lemma PairsFromMatch(t: string, i: nat, p: Pair)
    requires MatchAt(t, i) == Some(p)
    ensures PairsFrom(t, i) == [p] + PairsFrom(t, i + |p.matched|)
  {
  }

  /** The first pair of a rendering lies where the rendering starts, followed by '&' or
      the end, and the rest of the rendering follows it. */
  lemma RenderLayout(t: string, i: nat, ps: seq<Pair>)
    requires ps != [] && forall p :: p in ps ==> Plain(p)
    requires i + |Render(ps)| == |t| && t[i..] == Render(ps)
    ensures Plain(ps[0]) && OccursAt(t, ps[0].matched, i)
    ensures i + |ps[0].matched| == |t| || t[i + |ps[0].matched|] == '&'
    ensures i + |ps[0].matched| + |Render(ps[1..])| == |t| && t[i + |ps[0].matched|..] == Render(ps[1..])
  {
    var m := ps[0].matched;
    var rest := Render(ps[1..]);
    SuffixSplit(t, i, m, rest);
    assert i + |m| == |t| || t[i + |m|] == '&' by {
      if ps[1..] != [] { assert ps[1..][0] in ps; RenderStartsWithAmp(ps[1..]); }
    }
    assert ps[0] in ps;
  }

  /** The two halves of a suffix that is a concatenation. */
  lemma SuffixSplit(t: string, i: nat, m: string, rest: string)
    requires i <= |t| && t[i..] == m + rest
    ensures i + |m| <= |t| && t[i..i + |m|] == m && t[i + |m|..] == rest
  {
    assert t[i..i + |m|] == t[i..][..|m|];
    assert t[i + |m|..] == t[i..][|m|..];
  }

  /** A rendering of plain pairs, when not empty, starts with '&'. */
  lemma RenderStartsWithAmp(ps: seq<Pair>)
    requires ps != [] && Plain(ps[0])
    ensures |Render(ps)| > 0 && Render(ps)[0] == '&'
  {
    var m := ps[0].matched;
    assert m == "&" + ps[0].prefix + ps[0].name + "=" + ps[0].value;
    assert Render(ps) == m + Render(ps[1..]);
    assert m[0] == '&';
  }

  /** c first occurs at or after i at position r (or not at all, r == |t|). */
  lemma NextCharIs(t: string, c: char, i: nat, r: nat)
    requires i <= r <= |t|
    requires forall j :: i <= j < r ==> t[j] != c
    requires r < |t| ==> t[r] == c
    ensures NextChar(t, c, i) == r
    decreases r - i
  {
    if i < r { NextCharIs(t, c, i + 1, r); }
  }

  /** Where each part of a plain pair lies in a text holding it at position i. */
  lemma PlainLayout(t: string, i: nat, p: Pair)
    requires Plain(p) && OccursAt(t, p.matched, i)
    ensures var b := i + 1 + |p.prefix|;
      var e := b + |p.name|;
      var v := e + 1 + |p.value|;
      && v == i + |p.matched| <= |t|
      && t[i] == '&'
      && (forall j :: i + 1 <= j < b ==> t[j] == p.prefix[j - i - 1])
      && (forall j :: b <= j < e ==> t[j] == p.name[j - b])
      && t[e] == '='
      && (forall j :: e + 1 <= j < v ==> t[j] == p.value[j - e - 1])
  {
    var m := p.matched;
    var b := i + 1 + |p.prefix|;
    var e := b + |p.name|;
    assert forall j :: i <= j < i + |m| ==> t[j] == m[j - i] by {
      forall j | i <= j < i + |m| ensures t[j] == m[j - i] { assert t[i..i + |m|][j - i] == t[j]; }
    }
    assert m[0] == '&';
    assert m[e - i] == '=';
  }

  lemma MatchPlain(t: string, i: nat, p: Pair)
    requires Plain(p) && OccursAt(t, p.matched, i)
    requires i + |p.matched| == |t| || t[i + |p.matched|] == '&'
    ensures MatchAt(t, i) == Some(p)
  {
    var e := i + 1 + |p.prefix| + |p.name|;
    var v := e + 1 + |p.value|;
    PlainScanIs(t, i, p);
    PlainCutIs(t, i, p);
    MatchAtCut(t, i, e, v, p);
  }

  /** Where the scans of `MatchAt` stop on a plain pair. */
  lemma PlainScanIs(t: string, i: nat, p: Pair)
    requires Plain(p) && OccursAt(t, p.matched, i)
    requires i + |p.matched| == |t| || t[i + |p.matched|] == '&'
    ensures var e := i + 1 + |p.prefix| + |p.name|;
      && i < |t| && t[i] == '&' && i + 1 < e < |t|
      && NextChar(t, '=', i + 1) == e && NextChar(t, '&', e + 1) == e + 1 + |p.value|
  {
    PlainLayout(t, i, p);
    PlainNameEnd(t, i, p);
    PlainValueEnd(t, i, p);
  }

  /** `Cut` at the positions of a plain pair gives back the pair. */
  lemma PlainCutIs(t: string, i: nat, p: Pair)
    requires Plain(p) && OccursAt(t, p.matched, i)
    ensures var e := i + 1 + |p.prefix| + |p.name|;
      var v := e + 1 + |p.value|;
      i + 1 < e < v <= |t| && Cut(t, i, e, v) == p
  {
    var b := i + 1 + |p.prefix|;
    var e := b + |p.name|;
    var v := e + 1 + |p.value|;
    PlainAmp(t, i, p);
    PlainPrefix(t, i, p);
    PlainFields(t, i, p);
    CutIs(t, i, e, v, b, p);
  }

  /** `MatchAt` once its scan positions are known and what `Cut` takes there. */
  lemma MatchAtCut(t: string, i: nat, e: nat, v: nat, p: Pair)
    requires i < |t| && t[i] == '&' && i + 1 < e < |t| && e + 1 < v <= |t|
    requires NextChar(t, '=', i + 1) == e && NextChar(t, '&', e + 1) == v
    requires Cut(t, i, e, v) == p
    ensures MatchAt(t, i) == Some(p)
  {
  }

  /** `Cut` where the separator is "&", the prefix group ends at b, and the slices are the
      parts of p. */
  lemma CutIs(t: string, i: nat, e: nat, v: nat, b: nat, p: Pair)
    requires i + 1 <= b <= e && i + 1 < e < v <= |t|
    requires AmpEnd(t, i, e) == i + 1 && PrefixTaken(t, i + 1, e) == b - i - 1
    requires t[i..i + 1] == p.amp && t[i + 1..b] == p.prefix && t[b..e] == p.name
    requires t[e + 1..v] == p.value && t[i..v] == p.matched
    ensures Cut(t, i, e, v) == p
  {
  }

  /** The scan for '=' stops after the name of a plain pair. */
  lemma PlainNameEnd(t: string, i: nat, p: Pair)
    requires Plain(p) && OccursAt(t, p.matched, i)
    ensures var e := i + 1 + |p.prefix| + |p.name|; e < |t| && NextChar(t, '=', i + 1) == e
  {
    var b := i + 1 + |p.prefix|;
    var e := b + |p.name|;
    PlainLayout(t, i, p);
    forall j | i + 1 <= j < e ensures t[j] != '=' {
      if j < b { assert t[j] == p.prefix[j - i - 1]; } else { assert t[j] == p.name[j - b]; }
    }
    NextCharIs(t, '=', i + 1, e);
  }

  /** The scan for '&' stops after the value of a plain pair followed by '&' or the end. */
  lemma PlainValueEnd(t: string, i: nat, p: Pair)
    requires Plain(p) && OccursAt(t, p.matched, i)
    requires i + |p.matched| == |t| || t[i + |p.matched|] == '&'
    ensures var e := i + 1 + |p.prefix| + |p.name|;
      e + 1 < |t| && NextChar(t, '&', e + 1) == e + 1 + |p.value|
  {
    var e := i + 1 + |p.prefix| + |p.name|;
    PlainLayout(t, i, p);
    NextCharIs(t, '&', e + 1, e + 1 + |p.value|);
  }

  /** The prefix group `MatchAt` takes on a plain pair is the pair's prefix. */
  lemma PlainPrefix(t: string, i: nat, p: Pair)
    requires Plain(p) && OccursAt(t, p.matched, i)
    ensures var e := i + 1 + |p.prefix| + |p.name|; e <= |t| && PrefixTaken(t, i + 1, e) == |p.prefix|
  {
    var e := i + 1 + |p.prefix| + |p.name|;
    PlainLayout(t, i, p);
    PrefixOfPlain(p, t, i, e);
  }

  /** The text after the '&' of a plain pair is not "amp;": a name has no ';' and a
      prefix ends in ':'. */
  lemma PlainAmp(t: string, i: nat, p: Pair)
    requires Plain(p) && OccursAt(t, p.matched, i)
    ensures var e := i + 1 + |p.prefix| + |p.name|;
      i + 1 < e <= |t| && AmpEnd(t, i, e) == i + 1
  {
    var b := i + 1 + |p.prefix|;
    var e := b + |p.name|;
    PlainLayout(t, i, p);
    if i + 5 < e {
      if i + 4 < b { assert t[i + 4] == p.prefix[3]; } else { assert t[i + 4] == p.name[i + 4 - b]; }
      assert t[i + 4] != ';';
    }
  }

  /** The slices that `MatchAt` takes are the parts of the pair. */
  lemma PlainFields(t: string, i: nat, p: Pair)
    requires Plain(p) && OccursAt(t, p.matched, i)
    ensures var b := i + 1 + |p.prefix|;
      var e := b + |p.name|;
      var v := e + 1 + |p.value|;
      v <= |t| && t[i..i + 1] == p.amp && t[i + 1..b] == p.prefix && t[b..e] == p.name
      && t[e + 1..v] == p.value && t[i..v] == p.matched
  {
    var b := i + 1 + |p.prefix|;
    var e := b + |p.name|;
    var v := e + 1 + |p.value|;
    PlainLayout(t, i, p);
    assert t[i..i + 1] == p.amp;
    assert t[i + 1..b] == p.prefix;
    assert t[b..e] == p.name;
    assert t[e + 1..v] == p.value;
  }

  lemma PrefixOfPlain(p: Pair, t: string, i: nat, e: nat)
    requires Plain(p)
    requires e == i + 1 + |p.prefix| + |p.name| < |t| && t[e] == '='
    requires forall j :: i + 1 <= j < i + 1 + |p.prefix| ==> t[j] == p.prefix[j - i - 1]
    requires forall j :: i + 1 + |p.prefix| <= j < e ==> t[j] == p.name[j - i - 1 - |p.prefix|]
    ensures PrefixTaken(t, i + 1, e) == |p.prefix|
  {
    if p.prefix == "" {
      forall j | i + 1 <= j < e ensures t[j] != ':' { assert t[j] == p.name[j - i - 1]; }
    } else {
      assert p.prefix[|p.prefix| - 1] == ':';
      forall j | i + 1 <= j < i + |p.prefix| ensures IsPrefixChar(t[j]) && t[j] != ':' {
        assert t[j] == p.prefix[j - i - 1];
      }
      assert t[i + |p.prefix|] == ':';
    }
  }
}
