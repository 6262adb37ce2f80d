/** The older signing helper, `FoxyCart_Helper` (src/CartValidation/cart-validation.ts):
    query-string signing behind a configurable cart path, and whole-document signing of
    cart links and cart forms. It shares the token format, the query-pair scanner, the
    product-code collection, the single-input rewrite and several element patterns with
    the current engine, and differs from it in its exclusion tests, its "already signed"
    guards, its link rewrite, its handling of selects and its textarea step. */
module CartValidation {
  import opened Text
  import opened Primitives
  import opened Excludes
  import opened QueryPairs
  import opened Scan
  import opened Signer
  import opened SignerForms

  // ------------------------------------------------------- htmlSpecialChars

  predicate IsSpecial(c: char) {
    c == '&' || c == '<' || c == '>' || c == '"' || c == '\''
  }

  /** The entity written for one character, or the character itself. */
  function EscapeChar(c: char): (r: string)
    ensures IsSpecial(c) ==> |r| >= 4 && r[0] == '&'
    ensures !IsSpecial(c) ==> r == [c]
    ensures forall i :: 0 <= i < |r| ==> r[i] != '<' && r[i] != '>' && r[i] != '"' && r[i] != '\''
  {
    match c
    case '&' => "&amp;"
    case '<' => "&lt;"
    case '>' => "&gt;"
    case '"' => "&quot;"
    case '\'' => "&#039;"
    case _ => [c]
  }

  /** `htmlSpecialChars`: every '&', '<', '>', '"' and '\'' replaced by its entity. No
      markup character is left, and text without special characters is unchanged. */
  function HtmlSpecialChars(s: string): (r: string)
    ensures forall i :: 0 <= i < |r| ==> r[i] != '<' && r[i] != '>' && r[i] != '"' && r[i] != '\''
    ensures (forall i :: 0 <= i < |s| ==> !IsSpecial(s[i])) ==> r == s
    decreases |s|
  {
    if s == [] then []
    else
      var head := EscapeChar(s[0]);
      var tail := HtmlSpecialChars(s[1..]);
      assert forall i :: 0 <= i < |s| - 1 ==> s[1..][i] == s[i + 1];
      head + tail
  }

  /** The decoder of the five entities, reading left to right. */
  function Unescape(t: string): string
    decreases |t|
  {
    if t == [] then []
    else if StartsWith(t, "&amp;") then "&" + Unescape(t[5..])
    else if StartsWith(t, "&lt;") then "<" + Unescape(t[4..])
    else if StartsWith(t, "&gt;") then ">" + Unescape(t[4..])
    else if StartsWith(t, "&quot;") then "\"" + Unescape(t[6..])
    else if StartsWith(t, "&#039;") then "'" + Unescape(t[6..])
    else [t[0]] + Unescape(t[1..])
  }

  lemma DiffersAt(t: string, p: string, j: nat)
    requires j < |t| && j < |p| && t[j] != p[j]
    ensures !StartsWith(t, p)
  {
    if |p| <= |t| { assert t[..|p|][j] == t[j]; }
  }

  lemma UnescapeStep(c: char, rest: string)
    ensures Unescape(EscapeChar(c) + rest) == [c] + Unescape(rest)
  {
    var t := EscapeChar(c) + rest;
    if c == '&' {
      assert t[..5] == "&amp;" && t[5..] == rest;
    } else if c == '<' {
      DiffersAt(t, "&amp;", 1);
      assert t[..4] == "&lt;" && t[4..] == rest;
    } else if c == '>' {
      DiffersAt(t, "&amp;", 1);
      DiffersAt(t, "&lt;", 1);
      assert t[..4] == "&gt;" && t[4..] == rest;
    } else if c == '"' {
      DiffersAt(t, "&amp;", 1);
      DiffersAt(t, "&lt;", 1);
      DiffersAt(t, "&gt;", 1);
      assert t[..6] == "&quot;" && t[6..] == rest;
    } else if c == '\'' {
      DiffersAt(t, "&amp;", 1);
      DiffersAt(t, "&lt;", 1);
      DiffersAt(t, "&gt;", 1);
      DiffersAt(t, "&quot;", 1);
      assert t[..6] == "&#039;" && t[6..] == rest;
    } else {
      DiffersAt(t, "&amp;", 0);
      DiffersAt(t, "&lt;", 0);
      DiffersAt(t, "&gt;", 0);
      DiffersAt(t, "&quot;", 0);
      DiffersAt(t, "&#039;", 0);
      assert t[1..] == rest;
    }
  }

  /** Escaping loses nothing: decoding the entities gives the text back. */
  lemma {:induction false} HtmlSpecialCharsRoundTrip(s: string)
    ensures Unescape(HtmlSpecialChars(s)) == s
    decreases |s|
  {
    if s != [] {
      UnescapeStep(s[0], HtmlSpecialChars(s[1..]));
      HtmlSpecialCharsRoundTrip(s[1..]);
      assert s == [s[0]] + s[1..];
    }
  }

  // ---------------------------------------------------------------- strPos

  /** What `strPos` returns: an index, or `false`. */
  datatype Position = False | At(index: nat)

  /** `strPos`: the first occurrence of the needle at or after the offset (clamped to the
      haystack), or `false` when there is none. */
  function StrPos(haystack: string, needle: string, offset: int): (r: Position)
    ensures r.False? <==> forall j :: Clamp(offset, |haystack|) <= j ==> !OccursAt(haystack, needle, j)
    ensures r.At? ==> Clamp(offset, |haystack|) <= r.index && OccursAt(haystack, needle, r.index)
    ensures r.At? ==> forall j :: Clamp(offset, |haystack|) <= j < r.index ==> !OccursAt(haystack, needle, j)
  {
    var i := IndexOf(haystack, needle, offset);
    if i == -1 then False else At(i)
  }

  /** A position used as a condition: `false` and the index 0 are both falsy. */
  predicate Truthy(p: Position) {
    p.At? && p.index != 0
  }

  /** The "already signed" guard of the helper, `if (strPos(s, '||'))`. */
  predicate MarkedSigned(s: string) {
    Truthy(StrPos(s, "||", 0))
  }

  /** The guard sees a "||" only when the text does not start with one: a text that
      starts with "||" passes the guard whatever follows. */
  lemma MarkedSignedIff(s: string)
    ensures MarkedSigned(s) <==> Contains(s, "||") && !StartsWith(s, "||")
  {
    assert Clamp(0, |s|) == 0;
    assert OccursAt(s, "||", 0) <==> StartsWith(s, "||");
    var p := StrPos(s, "||", 0);
    if Contains(s, "||") {
      var k :| OccursAt(s, "||", k);
      assert p.At?;
    }
  }

  /** The parent-code test, `strPos(item, 'parent_code') !== false`, is plain containment,
      which is the test the current engine makes. */
  lemma ParentTestIsContains(item: string)
    ensures StrPos(item, "parent_code", 0).At? <==> Contains(item, "parent_code")
  {
  }

  // ------------------------------------------------------------- exclusions

  /** The string keys of an array besides its indices, own or inherited from
      Array.prototype (ECMAScript 2023). */
  const ArrayPrototypeNames: seq<string> := [
    "length", "constructor", "at", "concat", "copyWithin", "entries", "every", "fill",
    "filter", "find", "findIndex", "findLast", "findLastIndex", "flat", "flatMap", "forEach",
    "includes", "indexOf", "join", "keys", "lastIndexOf", "map", "pop", "push", "reduce",
    "reduceRight", "reverse", "shift", "slice", "some", "sort", "splice", "toLocaleString",
    "toReversed", "toSorted", "toSpliced", "toString", "unshift", "values", "with"
  ]

  /** The further keys inherited from Object.prototype. */
  const ObjectPrototypeNames: seq<string> := [
    "__defineGetter__", "__defineSetter__", "__lookupGetter__", "__lookupSetter__",
    "__proto__", "hasOwnProperty", "isPrototypeOf", "propertyIsEnumerable", "valueOf"
  ]

  /** `name in cart_excludes`: `in` on an array tests its keys, the indices 0 to 43 and
      the property names, and not the listed names themselves. */
  predicate InExcludesArray(name: string) {
    || (exists k :: 0 <= k < |CartExcludes| && name == NatToString(k))
    || name in ArrayPrototypeNames
    || name in ObjectPrototypeNames
  }

  /** `__shouldSkipInput` of the helper. */
  predicate HelperShouldSkip(name: string) {
    InExcludesArray(name) || HasExcludedPrefix(ToLower(name))
  }

  /** The exclusion test on a query pair: the name alone is looked up with `in`; the
      prefix and name together are tested against the prefix table. */
  predicate SkipsPair(p: Pair) {
    InExcludesArray(p.name) || HasExcludedPrefix(ToLower(p.prefix + p.name))
  }

  predicate PropertyFacts(e: string) {
    |e| > 0 && (e[0] == '_' || IsLowerAscii(e[0]))
  }

  // The tables are checked a part at a time to keep each proof small.
  lemma PropertiesChecked0() ensures forall j | 0 <= j < 20 :: PropertyFacts(ArrayPrototypeNames[j]) {}
  lemma PropertiesChecked1() ensures forall j | 20 <= j < 40 :: PropertyFacts(ArrayPrototypeNames[j]) {}
  lemma PropertiesChecked2() ensures forall j | 0 <= j < 9 :: PropertyFacts(ObjectPrototypeNames[j]) {}

  /** Every property name starts with a lower-case letter or '_'. */
  lemma PropertyNamesStartWithLetter(s: string)
    requires |s| > 0 && (IsDigit(s[0]) || s[0] == '(')
    ensures s !in ArrayPrototypeNames && s !in ObjectPrototypeNames
  {
    PropertiesChecked0();
    PropertiesChecked1();
    PropertiesChecked2();
    NotAProperty(s, ArrayPrototypeNames);
    NotAProperty(s, ObjectPrototypeNames);
  }

  lemma NotAProperty(s: string, names: seq<string>)
    requires |s| > 0 && (IsDigit(s[0]) || s[0] == '(')
    requires forall j | 0 <= j < |names| :: PropertyFacts(names[j])
    ensures s !in names
  {
    forall j | 0 <= j < |names| ensures names[j] != s {
      assert PropertyFacts(names[j]);
    }
  }

  /** A name holding a character other than a digit is no index. */
  lemma NotAnIndex(s: string, j: nat)
    requires j < |s| && !IsDigit(s[j])
    ensures forall k :: 0 <= k < |CartExcludes| ==> s != NatToString(k)
  {
  }

  // No listed name is a property name; checked a block of pairs at a time to keep each
  // proof small.
  lemma ListedNotProperties0()
    ensures forall i, j | 0 <= i < 11 && 0 <= j < 20 :: CartExcludes[i] != ArrayPrototypeNames[j] {}
  lemma ListedNotProperties1()
    ensures forall i, j | 0 <= i < 11 && 20 <= j < 40 :: CartExcludes[i] != ArrayPrototypeNames[j] {}
  lemma ListedNotProperties2()
    ensures forall i, j | 11 <= i < 22 && 0 <= j < 20 :: CartExcludes[i] != ArrayPrototypeNames[j] {}
  lemma ListedNotProperties3()
    ensures forall i, j | 11 <= i < 22 && 20 <= j < 40 :: CartExcludes[i] != ArrayPrototypeNames[j] {}
  lemma ListedNotProperties4()
    ensures forall i, j | 22 <= i < 33 && 0 <= j < 20 :: CartExcludes[i] != ArrayPrototypeNames[j] {}
  lemma ListedNotProperties5()
    ensures forall i, j | 22 <= i < 33 && 20 <= j < 40 :: CartExcludes[i] != ArrayPrototypeNames[j] {}
  lemma ListedNotProperties6()
    ensures forall i, j | 33 <= i < 44 && 0 <= j < 20 :: CartExcludes[i] != ArrayPrototypeNames[j] {}
  lemma ListedNotProperties7()
    ensures forall i, j | 33 <= i < 44 && 20 <= j < 40 :: CartExcludes[i] != ArrayPrototypeNames[j] {}
  lemma ListedNotProperties8()
    ensures forall i, j | 0 <= i < 22 && 0 <= j < 9 :: CartExcludes[i] != ObjectPrototypeNames[j] {}
  lemma ListedNotProperties9()
    ensures forall i, j | 22 <= i < 44 && 0 <= j < 9 :: CartExcludes[i] != ObjectPrototypeNames[j] {}

  /** No listed name is a key of the exclusion array, so the `in` test never finds one. */
  lemma ListedNamesNotKeys(e: string)
    requires e in CartExcludes
    ensures !InExcludesArray(e)
  {
    EntriesChecked();
    ListedNotProperties0();
    ListedNotProperties1();
    ListedNotProperties2();
    ListedNotProperties3();
    ListedNotProperties4();
    ListedNotProperties5();
    ListedNotProperties6();
    ListedNotProperties7();
    ListedNotProperties8();
    ListedNotProperties9();
    var i :| 0 <= i < |CartExcludes| && CartExcludes[i] == e;
    assert |e| > 0 && !IsDigit(e[0]);
    NotAnIndex(e, 0);
  }

  /** A name made of a prefix that starts with a digit or '(' and holds ':' is never
      skipped by the helper: it is no key of the array, and the prefix table does not
      match it. */
  lemma PrefixedNameNeverSkipped(s: string, j: nat)
    requires |s| >= 2 && (IsDigit(s[0]) || s[0] == '(')
    requires j < |s| && s[j] == ':'
    ensures !HelperShouldSkip(s)
  {
    NotAnIndex(s, j);
    PropertyNamesStartWithLetter(s);
    NoExcludedPrefixFor(s);
  }

  /** The helper's input test sees the prefix pattern in front of the name ("(0:)?" or
      a digit prefix), so no input is ever excluded. */
  lemma HelperInputsNeverExcluded(prefix: string, name: string)
    requires prefix == "0:" || (prefix != "" && DigitPrefix(prefix))
    ensures !HelperShouldSkip(PrefixRegex(prefix) + name)
  {
    var s := PrefixRegex(prefix) + name;
    if prefix == "0:" {
      assert s[0] == '(' && s[2] == ':';
      PrefixedNameNeverSkipped(s, 2);
    } else {
      assert s[0] == prefix[0] && s[|prefix| - 1] == ':';
      PrefixedNameNeverSkipped(s, |prefix| - 1);
    }
  }

  /** A listed name is signed in a query string by the helper, where the current engine
      leaves it as it is. */
  lemma RevisionsDisagreeOnListedNames(p: Pair)
    requires p.prefix == "0:" && p.name in CartExcludes
    ensures !SkipsPair(p)
    ensures ShouldSkipInput(p.prefix + p.name)
  {
    ListedNamesNotKeys(p.name);
    NoExcludedPrefixFor(p.prefix + p.name);
    ZeroPrefixSkipsOnlyListed(p.name);
  }

  /** A pair named after an index of the exclusion array ("0" to "43") is skipped. */
  lemma IndexNamedPairSkipped(p: Pair, k: nat)
    requires k < |CartExcludes| && p.name == NatToString(k)
    ensures SkipsPair(p)
  {
  }

  /** On a scanned pair whose prefix has been defaulted (so it is "0:" or another
      [a-z0-9]{1,3} prefix), the prefix table excludes exactly the prefixes "h:" and
      "x:": a `utm_` or `__` name is signed. */
  lemma PairPrefixExclusion(p: Pair)
    requires ValidPrefix(p.prefix)
    ensures HasExcludedPrefix(ToLower(p.prefix + p.name)) <==> p.prefix == "h:" || p.prefix == "x:"
  {
    var s := p.prefix + p.name;
    var l := ToLower(s);
    var n := |p.prefix|;
    assert forall i :: 0 <= i < n ==> l[i] == p.prefix[i] by {
      forall i | 0 <= i < n ensures l[i] == p.prefix[i] { assert s[i] == p.prefix[i]; }
    }
    if p.prefix == "h:" {
      assert StartsWith(l, "h:") by { assert l[..2] == "h:"; }
    } else if p.prefix == "x:" {
      assert StartsWith(l, "x:") by { assert l[..2] == "x:"; }
    } else {
      forall q | q in CartExcludesPrefixes ensures !StartsWith(l, q) {
        if q == "h:" || q == "x:" {
          if n == 2 {
            assert p.prefix == [p.prefix[0], ':'];
            DiffersAt(l, q, 0);
          } else {
            DiffersAt(l, q, 1);
          }
        } else if q == "__" {
          DiffersAt(l, q, 0);
        } else {
          DiffersAt(l, q, n - 1);
        }
      }
    }
  }

  // --------------------------------------------------- fc_hash_querystring

  /** What one pair is replaced with, or None for a skipped pair. Where neither revision
      skips the pair, the replacement is the current engine's. */
  function HashReplacement(h: Host, codes: map<string, string>, p: Pair): (r: Option<string>)
    ensures r.None? <==> SkipsPair(p)
    ensures r.Some? && !ShouldSkipInput(p.prefix + p.name) ==> r == PairReplacement(h, codes, p)
  {
    if SkipsPair(p) then None
    else
      var value := JsStr(SignName(h, CodeFor(codes, p.prefix), h.decodeUri(p.name), h.decodeUri(p.value), "value", true));
      if h.decodeUri(p.value) == Open then Some(p.amp + value + "=")
      else Some(p.amp + p.prefix + h.encodeUri(p.name) + "=" + value)
  }

  function HashStep(h: Host, codes: map<string, string>, qs: string, p: Pair): string {
    match HashReplacement(h, codes, p)
    case None => qs
    case Some(rep) => ReplaceFirst(qs, p.matched, rep)
  }

  function HashPairs(h: Host, codes: map<string, string>, qs: string, ps: seq<Pair>): string
    decreases |ps|
  {
    if ps == [] then qs else HashPairs(h, codes, HashStep(h, codes, qs, ps[0]), ps[1..])
  }

  /** What `fc_hash_querystring` returns: the cart path, '?', and the query string, as
      given when it looks signed or carries no code, signed pair by pair otherwise. */
  function HashedQueryString(h: Host, cartPath: string, qs: string): (r: string)
    ensures StartsWith(r, cartPath + "?")
  {
    var lead := cartPath + "?";
    var rest :=
      if MarkedSigned(qs) then qs
      else
        var t := "&" + qs;
        var found := Pairs(t);
        if |Codes(found)| == 0 then qs
        else DropLeading(HashPairs(h, Codes(found), t, NormaliseAll(found)), '&');
    assert (lead + rest)[..|lead|] == lead;
    lead + rest
  }

  /** The guards: a query string that looks signed, or one without a `code` or
      `parent_code` pair, comes back behind the cart path as it was. */
  lemma HashedQueryStringGuards(h: Host, cartPath: string, qs: string)
    requires MarkedSigned(qs) || forall p :: p in Pairs("&" + qs) ==> p.name != "code" && p.name != "parent_code"
    ensures HashedQueryString(h, cartPath, qs) == cartPath + "?" + qs
  {
    NoCodesIff(Pairs("&" + qs));
  }

  /** Signing the query part of a result whose query looks signed gives that result
      again (a query that starts with "||" does not look signed: `LeadingMarkNotSeen`). */
  lemma HashedQueryStringIdempotent(h: Host, cartPath: string, qs: string)
    requires MarkedSigned(HashedQueryString(h, cartPath, qs)[|cartPath| + 1..])
    ensures var r := HashedQueryString(h, cartPath, qs);
      HashedQueryString(h, cartPath, r[|cartPath| + 1..]) == r
  {
    var r := HashedQueryString(h, cartPath, qs);
    var x := r[|cartPath| + 1..];
    assert r == cartPath + "?" + x by { assert r[..|cartPath| + 1] == cartPath + "?"; }
    HashedQueryStringGuards(h, cartPath, x);
  }

  /** A query string that starts with "||" is signed again, however many marks follow. */
  lemma LeadingMarkNotSeen(h: Host, cartPath: string, x: string)
    requires exists p :: p in Pairs("&||" + x) && p.name == "code"
    ensures HashedQueryString(h, cartPath, "||" + x)
            == cartPath + "?" + DropLeading(HashPairs(h, Codes(Pairs("&||" + x)), "&||" + x, NormaliseAll(Pairs("&||" + x))), '&')
  {
    var s := "||" + x;
    MarkedSignedIff(s);
    assert StartsWith(s, "||") by { assert s[..2] == "||"; }
    assert "&" + s == "&||" + x;
    NoCodesIff(Pairs("&||" + x));
  }

  /** Neither revision skips any of the pairs. */
  predicate NoneSkipped(ps: seq<Pair>)
    decreases |ps|
  {
    ps == [] || (!SkipsPair(ps[0]) && !ShouldSkipInput(ps[0].prefix + ps[0].name) && NoneSkipped(ps[1..]))
  }

  /** Over pairs that neither revision skips, both sign alike. */
  lemma {:induction false} HashPairsAgree(h: Host, codes: map<string, string>, qs: string, ps: seq<Pair>)
    requires NoneSkipped(ps)
    ensures HashPairs(h, codes, qs, ps) == SignPairs(h, codes, qs, ps)
    decreases |ps|
  {
    if ps != [] {
      assert HashStep(h, codes, qs, ps[0]) == SignStep(h, codes, qs, ps[0]);
      HashPairsAgree(h, codes, HashStep(h, codes, qs, ps[0]), ps[1..]);
    }
  }

  /** A query string without '?' in front and without "||", none of whose pairs either
      revision skips, is signed by the helper as by the current engine, behind the cart
      path. */
  lemma RevisionsAgreeOnPlainQueries(h: Host, cartPath: string, qs: string)
    requires (|qs| == 0 || qs[0] != '?') && !Contains(qs, "||")
    requires NoneSkipped(NormaliseAll(Pairs("&" + qs)))
    ensures HashedQueryString(h, cartPath, qs) == cartPath + SignedQueryString(h, qs)
  {
    MarkedSignedIff(qs);
    var t := "&" + qs;
    HashedUnmarked(h, cartPath, qs);
    SignedUnmarked(h, qs);
    HashPairsAgree(h, Codes(Pairs(t)), t, NormaliseAll(Pairs(t)));
    var x := if |Codes(Pairs(t))| == 0 then qs else DropLeading(SignPairs(h, Codes(Pairs(t)), t, NormaliseAll(Pairs(t))), '&');
    JoinAtMark(HashedQueryString(h, cartPath, qs), cartPath, SignedQueryString(h, qs), x);
  }

  lemma JoinAtMark(whole: string, lead: string, tail: string, x: string)
    requires whole == lead + "?" + x && tail == "?" + x
    ensures whole == lead + tail
  {
  }

  /** `fc_hash_querystring` on a query string that does not look signed. */
  lemma HashedUnmarked(h: Host, cartPath: string, qs: string)
    requires !MarkedSigned(qs)
    ensures var t := "&" + qs;
      HashedQueryString(h, cartPath, qs) == cartPath + "?" +
        (if |Codes(Pairs(t))| == 0 then qs else DropLeading(HashPairs(h, Codes(Pairs(t)), t, NormaliseAll(Pairs(t))), '&'))
  {
  }

  /** `signQueryString` on a query string without '?' in front and without "||". */
  lemma SignedUnmarked(h: Host, qs: string)
    requires (|qs| == 0 || qs[0] != '?') && !Contains(qs, "||")
    ensures var t := "&" + qs;
      SignedQueryString(h, qs) == "?" +
        (if |Codes(Pairs(t))| == 0 then qs else DropLeading(SignPairs(h, Codes(Pairs(t)), t, NormaliseAll(Pairs(t))), '&'))
  {
    assert DropLeading(qs, '?') == qs;
  }

  // ------------------------------------------------------------ fc_hash_html

  /** A match of the link pattern built from an anchor: where it starts and ends, and
      the text its `(\.php)?` group captured, if it took part. The pattern is built from
      a string literal, so its group is any character followed by `php` in any case. */
  datatype LinkMatch = LinkMatch(start: nat, end: nat, group: Option<string>)

  /** What the replacer's first argument prints: the captured text, or "undefined" when
      the group did not take part. */
  function GroupText(lm: LinkMatch): string {
    if lm.group.Some? then lm.group.value else "undefined"
  }

  /** The span finders of the helper's own patterns; `fields` holds those it shares with
      the current engine (code elements, prefixed inputs, selects, options and the
      button rewrite). */
  datatype Page = Page(
    /** The cart forms of a document, given the cart path. */
    forms: (string, string) -> seq<string>,
    /** The cart anchors of a document, given the cart path. */
    queryStrings: (string, string) -> seq<Anchor>,
    /** The first match of the link pattern built from an anchor and the cart path. */
    link: (string, Anchor, string) -> Option<LinkMatch>,
    /** The number of matches in a form of the textarea pattern built from a prefix. */
    textAreas: (string, string) -> nat,
    fields: Markup)

  /** What the replacer of the link loop returns: the group's text, the signed cart URL,
      and the offset of the match in the document. */
  function LinkText(lm: LinkMatch, signed: string): string {
    GroupText(lm) + signed + NatToString(lm.start)
  }

  /** One anchor of the link loop. */
  function LinkSigned(h: Host, pg: Page, cartPath: string, html: string, a: Anchor): string {
    if MarkedSigned(a.query) then html
    else
      match pg.link(html, a, cartPath)
      case None => html
      case Some(lm) => ReplaceSpan(html, Some((lm.start, lm.end)), LinkText(lm, HashedQueryString(h, cartPath, a.query)))
  }

  function LinksSigned(h: Host, pg: Page, cartPath: string, html: string, anchors: seq<Anchor>): string
    decreases |anchors|
  {
    if anchors == [] then html else LinksSigned(h, pg, cartPath, LinkSigned(h, pg, cartPath, html, anchors[0]), anchors[1..])
  }

  lemma ConcatParts(x: string, y: string, z: string)
    ensures (x + y + z)[..|x|] == x
    ensures (x + y + z)[|x|..] == y + z
    ensures (x + y + z)[|x| + |y|..] == z
  {
  }

  /** The replacer's text starts with the group and the cart path, and ends with the
      offset. */
  lemma LinkTextShape(lm: LinkMatch, signed: string, cartPath: string)
    requires StartsWith(signed, cartPath + "?")
    ensures var shown := GroupText(lm);
      var t := LinkText(lm, signed);
      StartsWith(t, shown + cartPath + "?") && t[|t| - |NatToString(lm.start)|..] == NatToString(lm.start)
  {
    var shown := GroupText(lm);
    var t := LinkText(lm, signed);
    assert t[..|shown| + |cartPath| + 1] == shown + signed[..|cartPath| + 1];
  }

  /** Text spliced between x and z keeps both, and its own lead and tail show. */
  lemma SpliceShape(x: string, t: string, z: string, lead: string, d: string)
    requires StartsWith(t, lead) && |d| <= |t| && t[|t| - |d|..] == d
    ensures var r := x + t + z;
      r[..|x|] == x && StartsWith(r[|x|..], lead) && |d + z| <= |r| && r[|r| - |d + z|..] == d + z
  {
    var r := x + t + z;
    ConcatParts(x, t, z);
    assert r[|x|..][..|lead|] == t[..|lead|];
    var u := t[..|t| - |d|];
    assert t == u + d;
    assert r == (x + u) + d + z;
    ConcatParts(x + u, d, z);
  }

  /** The layout of a rewritten link: the text before the match is kept, the rewrite
      starts with the group's text (or "undefined"), the cart path and '?', and the
      decimal offset of the match stands in place of the closing quote, followed by the
      rest of the document. */
  predicate RewriteLayout(html: string, lm: LinkMatch, cartPath: string, r: string)
    requires lm.start <= lm.end <= |html|
  {
    var tail := NatToString(lm.start) + html[lm.end..];
    && lm.start <= |r| && r[..lm.start] == html[..lm.start]
    && StartsWith(r[lm.start..], GroupText(lm) + cartPath + "?")
    && |tail| <= |r| && r[|r| - |tail|..] == tail
  }

  /** A link is rewritten with the group's captured text (or "undefined") where its
      domain was, then the signed query behind the cart path, then the decimal offset of
      the match in place of the closing quote; the text around the match is kept. */
  lemma LinkRewrite(h: Host, pg: Page, cartPath: string, html: string, a: Anchor)
    requires !MarkedSigned(a.query) && pg.link(html, a, cartPath).Some?
    requires var lm := pg.link(html, a, cartPath).value; lm.start <= lm.end <= |html|
    ensures RewriteLayout(html, pg.link(html, a, cartPath).value, cartPath, LinkSigned(h, pg, cartPath, html, a))
  {
    var lm := pg.link(html, a, cartPath).value;
    var signed := HashedQueryString(h, cartPath, a.query);
    assert LinkSigned(h, pg, cartPath, html, a) == ReplaceSpan(html, Some((lm.start, lm.end)), LinkText(lm, signed));
    LinkSpliced(html, lm, signed, cartPath);
  }

  /** The splice of the replacer's text, whatever the signed URL behind the cart path. */
  lemma LinkSpliced(html: string, lm: LinkMatch, signed: string, cartPath: string)
    requires lm.start <= lm.end <= |html| && StartsWith(signed, cartPath + "?")
    ensures RewriteLayout(html, lm, cartPath, ReplaceSpan(html, Some((lm.start, lm.end)), LinkText(lm, signed)))
  {
    var t := LinkText(lm, signed);
    LinkTextShape(lm, signed, cartPath);
    var r := ReplaceSpan(html, Some((lm.start, lm.end)), t);
    var x, z := html[..lm.start], html[lm.end..];
    assert r == x + t + z;
    var lead := GroupText(lm) + cartPath + "?";
    var d := NatToString(lm.start);
    SpliceShape(x, t, z, lead, d);
    assert |x| == lm.start;
  }

  /** Anchors whose query looks signed leave the document as it is. */
  lemma {:induction false} MarkedLinksUntouched(h: Host, pg: Page, cartPath: string, html: string, anchors: seq<Anchor>)
    requires forall i :: 0 <= i < |anchors| ==> MarkedSigned(anchors[i].query)
    ensures LinksSigned(h, pg, cartPath, html, anchors) == html
    decreases |anchors|
  {
    if anchors != [] {
      assert forall i :: 0 <= i < |anchors| - 1 ==> anchors[1..][i] == anchors[i + 1];
      MarkedLinksUntouched(h, pg, cartPath, html, anchors[1..]);
    }
  }

  /** `__getInputsWithPrefix` of the helper builds the prefix pattern once, and finds the
      inputs the current engine finds. */
  function HelperInputs(m: Markup, form: string, prefix: string): (r: seq<string>)
    ensures r == InputsWithPrefix(m, form, prefix)
  {
    PrefixRegexIdempotent(prefix);
    m.inputs(form, PrefixRegex(prefix))
  }

  /** The options of one list signed into the text shared by all lists of a product
      (`form_part_signed`): the text is taken from the list only while it is empty, at
      an option with a value. */
  function OptionsInto(h: Host, code: Product, list: SelectTag, opts: seq<OptionTag>, part: string): string
    decreases |opts|
  {
    if opts == [] then part
    else if opts[0].value == "" then OptionsInto(h, code, list, opts[1..], part)
    else
      var base := if part == "" then list.matched else part;
      OptionsInto(h, code, list, opts[1..], ReplaceFirst(base, opts[0].matched, OptionSigned(h, code, list.name, opts[0])))
  }

  /** The list loop of one product: each list that is not excluded is replaced in the
      form by the shared text after its options are signed into it. */
  function ListsSigned(h: Host, m: Markup, code: Product, form: string, part: string, lists: seq<SelectTag>): string
    decreases |lists|
  {
    if lists == [] then form
    else if HelperShouldSkip(code.prefix + lists[0].name) then ListsSigned(h, m, code, form, part, lists[1..])
    else
      var part' := OptionsInto(h, code, lists[0], m.options(lists[0].children), part);
      ListsSigned(h, m, code, ReplaceFirst(form, lists[0].matched, part'), part', lists[1..])
  }

  lemma ReplaceFirstNonEmpty(s: string, pat: string, rep: string)
    requires s != [] && rep != []
    ensures ReplaceFirst(s, pat, rep) != []
  {
  }

  lemma OptionSignedNonEmpty(h: Host, code: Product, name: string, opt: OptionTag)
    requires opt.matched != [] && opt.value != ""
    ensures OptionSigned(h, code, name, opt) != []
  {
    var tok := SignName(h, code.code + code.parentCode, name, opt.value, "value", false);
    assert JsStr(tok) != [];
    ReplaceFirstNonEmpty(opt.matched, opt.quote + opt.value + opt.quote, opt.quote + JsStr(tok) + opt.quote);
  }

  /** Options without a value leave the shared text as it is. */
  lemma {:induction false} ValuelessOptionsKeepPart(h: Host, code: Product, list: SelectTag, opts: seq<OptionTag>, part: string)
    requires forall i :: 0 <= i < |opts| ==> opts[i].value == ""
    ensures OptionsInto(h, code, list, opts, part) == part
    decreases |opts|
  {
    if opts != [] {
      assert forall i :: 0 <= i < |opts| - 1 ==> opts[1..][i] == opts[i + 1];
      ValuelessOptionsKeepPart(h, code, list, opts[1..], part);
    }
  }

  /** Once the shared text is non-empty, a list's options are signed into it rather than
      into the list: the list is replaced by the earlier list's text. */
  lemma {:induction false} SharedPartSigned(h: Host, code: Product, list: SelectTag, opts: seq<OptionTag>, part: string)
    requires part != ""
    requires forall i :: 0 <= i < |opts| ==> opts[i].matched != ""
    ensures OptionsInto(h, code, list, opts, part) == OptionsSigned(h, code, list.name, part, opts)
    decreases |opts|
  {
    if opts != [] {
      assert forall i :: 0 <= i < |opts| - 1 ==> opts[1..][i] == opts[i + 1];
      if opts[0].value == "" {
        SharedPartSigned(h, code, list, opts[1..], part);
      } else {
        var os := OptionSigned(h, code, list.name, opts[0]);
        OptionSignedNonEmpty(h, code, list.name, opts[0]);
        ReplaceFirstNonEmpty(part, opts[0].matched, os);
        SharedPartSigned(h, code, list, opts[1..], ReplaceFirst(part, opts[0].matched, os));
      }
    }
  }

  /** The first list of a product whose first option has a value is signed as the
      current engine signs it. */
  lemma FirstListAsCurrentEngine(h: Host, code: Product, list: SelectTag, opts: seq<OptionTag>)
    requires |opts| > 0 && opts[0].value != "" && list.matched != ""
    requires forall i :: 0 <= i < |opts| ==> opts[i].matched != ""
    ensures OptionsInto(h, code, list, opts, "") == OptionsSigned(h, code, list.name, list.matched, opts)
  {
    var os := OptionSigned(h, code, list.name, opts[0]);
    OptionSignedNonEmpty(h, code, list.name, opts[0]);
    ReplaceFirstNonEmpty(list.matched, opts[0].matched, os);
    assert forall i :: 0 <= i < |opts| - 1 ==> opts[1..][i] == opts[i + 1];
    SharedPartSigned(h, code, list, opts[1..], ReplaceFirst(list.matched, opts[0].matched, os));
  }

  /** A valueless list after a signed one is not cut out: it is replaced by a copy of
      the shared text, which still holds the earlier list's signed options. */
  lemma ValuelessListCopiesPart(h: Host, m: Markup, code: Product, form: string, first: SelectTag, list: SelectTag)
    requires !HelperShouldSkip(code.prefix + first.name) && !HelperShouldSkip(code.prefix + list.name)
    requires forall i :: 0 <= i < |m.options(list.children)| ==> m.options(list.children)[i].value == ""
    ensures var part := OptionsInto(h, code, first, m.options(first.children), "");
      ListsSigned(h, m, code, form, "", [first, list])
      == ReplaceFirst(ReplaceFirst(form, first.matched, part), list.matched, part)
  {
    var part := OptionsInto(h, code, first, m.options(first.children), "");
    var once := ReplaceFirst(form, first.matched, part);
    assert [first, list][1..] == [list];
    assert ListsSigned(h, m, code, form, "", [first, list]) == ListsSigned(h, m, code, once, part, [list]);
    ValuelessOptionsKeepPart(h, code, list, m.options(list.children), part);
    assert ListsSigned(h, m, code, once, part, [list]) == ListsSigned(h, m, code, ReplaceFirst(once, list.matched, part), part, []);
  }

  /** A first list without any valued option is cut out of the form: it is replaced by
      the still empty shared text. */
  lemma ValuelessFirstListRemoved(h: Host, m: Markup, code: Product, form: string, list: SelectTag)
    requires !HelperShouldSkip(code.prefix + list.name)
    requires forall i :: 0 <= i < |m.options(list.children)| ==> m.options(list.children)[i].value == ""
    ensures ListsSigned(h, m, code, form, "", [list]) == ReplaceFirst(form, list.matched, "")
  {
    ValuelessOptionsKeepPart(h, code, list, m.options(list.children), "");
  }

  /** The textarea step throws (the matches are read as arrays) unless the prefix alone
      is excluded, since the pattern's name group is always empty. */
  predicate TextAreaThrows(pg: Page, form: string, code: Product) {
    pg.textAreas(form, code.prefix) > 0 && !HelperShouldSkip(code.prefix)
  }

  /** One product of a form: a product whose element looks signed, or without a code, is
      skipped, button rewrite included; otherwise its inputs, its lists, its textareas
      and the first button are processed. None when the textarea step throws. */
  function CodeSigned(h: Host, pg: Page, form: string, code: Product): Option<string> {
    if MarkedSigned(code.matched) || code.code == "" then Some(form)
    else
      var inputsDone := InputsSigned(h, HelperShouldSkip, form, code, HelperInputs(pg.fields, form, code.prefix));
      var listsDone := ListsSigned(h, pg.fields, code, inputsDone, "", pg.fields.selects(inputsDone, PrefixRegex(code.prefix)));
      if TextAreaThrows(pg, listsDone, code) then None
      else Some(pg.fields.button(listsDone))
  }

  /** With a code prefix as the code pattern captures it, any textarea match throws. */
  lemma TextAreaMatchThrows(pg: Page, form: string, code: Product)
    requires code.prefix == "0:" || (code.prefix != "" && DigitPrefix(code.prefix))
    requires pg.textAreas(form, code.prefix) > 0
    ensures TextAreaThrows(pg, form, code)
  {
    var n := |code.prefix|;
    assert code.prefix[n - 1] == ':';
    assert IsDigit(code.prefix[0]);
    PrefixedNameNeverSkipped(code.prefix, n - 1);
  }

  function CodesSigned(h: Host, pg: Page, form: string, codes: seq<Product>): Option<string>
    decreases |codes|
  {
    if codes == [] then Some(form)
    else
      match CodeSigned(h, pg, form, codes[0])
      case None => None
      case Some(next) => CodesSigned(h, pg, next, codes[1..])
  }

  /** Products that look signed or have no code leave the form exactly as it is: unlike
      the current engine, not even the button is rewritten. */
  lemma {:induction false} SkippedCodesUntouched(h: Host, pg: Page, form: string, codes: seq<Product>)
    requires forall i :: 0 <= i < |codes| ==> MarkedSigned(codes[i].matched) || codes[i].code == ""
    ensures CodesSigned(h, pg, form, codes) == Some(form)
    decreases |codes|
  {
    if codes != [] {
      assert forall i :: 0 <= i < |codes| - 1 ==> codes[1..][i] == codes[i + 1];
      SkippedCodesUntouched(h, pg, form, codes[1..]);
    }
  }

  /** Once a product throws, the whole form does. */
  lemma {:induction false} ThrowingCodeFails(h: Host, pg: Page, form: string, codes: seq<Product>)
    requires |codes| > 0 && CodeSigned(h, pg, form, codes[0]).None?
    ensures CodesSigned(h, pg, form, codes).None?
  {
  }

  /** The forms, each replaced in the document by its signed text. */
  function FormsHashed(h: Host, pg: Page, html: string, forms: seq<string>): Option<string>
    decreases |forms|
  {
    if forms == [] then Some(html)
    else
      match CodesSigned(h, pg, forms[0], FormProducts(pg.fields, forms[0]))
      case None => None
      case Some(form) => FormsHashed(h, pg, ReplaceFirst(html, forms[0], form), forms[1..])
  }

  /** What `fc_hash_html` resolves to, with debugging off: the links signed first, then
      the forms found in the result; None when it rejects. */
  function HashedHtml(h: Host, pg: Page, cartPath: string, html: string): Option<string> {
    var linked := LinksSigned(h, pg, cartPath, html, pg.queryStrings(html, cartPath));
    FormsHashed(h, pg, linked, pg.forms(linked, cartPath))
  }

  /** A document whose cart links all look signed and whose cart forms hold only
      products that look signed or have no code comes back unchanged. */
  lemma {:induction false} HashedDocumentUntouched(h: Host, pg: Page, cartPath: string, html: string)
    requires forall i :: 0 <= i < |pg.queryStrings(html, cartPath)| ==> MarkedSigned(pg.queryStrings(html, cartPath)[i].query)
    requires forall f, i :: f in pg.forms(html, cartPath) && 0 <= i < |FormProducts(pg.fields, f)| ==>
               MarkedSigned(FormProducts(pg.fields, f)[i].matched) || FormProducts(pg.fields, f)[i].code == ""
    ensures HashedHtml(h, pg, cartPath, html) == Some(html)
  {
    MarkedLinksUntouched(h, pg, cartPath, html, pg.queryStrings(html, cartPath));
    FormsUntouched(h, pg, html, pg.forms(html, cartPath));
  }

  lemma {:induction false} FormsUntouched(h: Host, pg: Page, html: string, forms: seq<string>)
    requires forall f, i :: f in forms && 0 <= i < |FormProducts(pg.fields, f)| ==>
               MarkedSigned(FormProducts(pg.fields, f)[i].matched) || FormProducts(pg.fields, f)[i].code == ""
    ensures FormsHashed(h, pg, html, forms) == Some(html)
    decreases |forms|
  {
    if forms != [] {
      SkippedCodesUntouched(h, pg, forms[0], FormProducts(pg.fields, forms[0]));
      ReplaceFirstSelf(html, forms[0]);
      assert forall f :: f in forms[1..] ==> f in forms;
      FormsUntouched(h, pg, html, forms[1..]);
    }
  }

  // ---------------------------------------------------------- the loops

  /** The list loop of `fc_hash_html` for one product. */
  method SignLists(h: Host, m: Markup, form: string, code: Product) returns (r: string)
    ensures r == ListsSigned(h, m, code, form, "", m.selects(form, PrefixRegex(code.prefix)))
  {
    var lists := m.selects(form, PrefixRegex(code.prefix));
    var part := "";
    r := form;
    for i := 0 to |lists|
      invariant ListsSigned(h, m, code, r, part, lists[i..]) == ListsSigned(h, m, code, form, "", lists)
    {
      var list := lists[i];
      assert lists[i..][1..] == lists[i + 1..];
      if HelperShouldSkip(code.prefix + list.name) {
        continue;
      }
      var options := m.options(list.children);
      ghost var part0 := part;
      for j := 0 to |options|
        invariant OptionsInto(h, code, list, options[j..], part) == OptionsInto(h, code, list, options, part0)
      {
        var option := options[j];
        assert options[j..][1..] == options[j + 1..];
        if option.value == "" {
          continue;
        }
        if part == "" {
          part := list.matched;
        }
        var optionSigned := OptionSigned(h, code, list.name, option);
        part := ReplaceFirst(part, option.matched, optionSigned);
      }
      r := ReplaceFirst(r, list.matched, part);
    }
  }

  /** The product loop of `fc_hash_html` for one form. */
  method HashForm(h: Host, pg: Page, form: string) returns (r: Option<string>)
    ensures r == CodesSigned(h, pg, form, FormProducts(pg.fields, form))
  {
    var codes := GetFormCodes(pg.fields, form);
    assert codes == FormProducts(pg.fields, form);
    var current := form;
    for i := 0 to |codes|
      invariant CodesSigned(h, pg, current, codes[i..]) == CodesSigned(h, pg, form, codes)
    {
      var code := codes[i];
      assert codes[i..][1..] == codes[i + 1..];
      if MarkedSigned(code.matched) || code.code == "" {
        continue;
      }
      current := SignInputs(h, HelperShouldSkip, pg.fields, current, code);
      current := SignLists(h, pg.fields, current, code);
      if TextAreaThrows(pg, current, code) {
        return None;
      }
      current := pg.fields.button(current);
    }
    r := Some(current);
  }

  /** `FoxyCart_Helper`: the signer and the cart path. */
  class FoxyCartHelper {
    /** The HMAC signer, with the URI functions of the runtime. */
    const host: Host
    var cartPath: string

    constructor(signer: Host)
      ensures host == signer && cartPath == CartPath
    {
      host := signer;
      cartPath := CartPath;
    }

    /** `setCartUrl`. */
    method SetCartUrl(cartUrl: string)
      modifies this
      ensures cartPath == cartUrl
    {
      cartPath := cartUrl;
    }

    /** `getCartUrl`. */
    method GetCartUrl() returns (r: string)
      ensures r == cartPath
    {
      r := cartPath;
    }

    /** `fc_hash_querystring`. */
    method FcHashQuerystring(qs: string) returns (r: string)
      ensures r == HashedQueryString(host, cartPath, qs)
    {
      var fail := cartPath + "?" + qs;
      if MarkedSigned(qs) {
        return fail;
      }
      var q := "&" + qs;
      var pairs := MatchPairs(q);
      var codes;
      codes, pairs := GetCodesFromPairs(pairs);
      if |codes| == 0 {
        return fail;
      }
      ghost var q0 := q;
      for i := 0 to |pairs|
        invariant HashPairs(host, codes, q, pairs[i..]) == HashPairs(host, codes, q0, pairs)
      {
        var pair := pairs[i];
        assert pairs[i..][1..] == pairs[i + 1..];
        if SkipsPair(pair) {
          continue;
        }
        var value := JsStr(SignName(host, CodeFor(codes, pair.prefix), host.decodeUri(pair.name),
                                    host.decodeUri(pair.value), "value", true));
        var replacement: string;
        if host.decodeUri(pair.value) == Open {
          replacement := pair.amp + value + "=";
        } else {
          replacement := pair.amp + pair.prefix + host.encodeUri(pair.name) + "=" + value;
        }
        assert HashReplacement(host, codes, pair) == Some(replacement);
        q := ReplaceFirst(q, pair.matched, replacement);
      }
      q := DropLeading(q, '&');
      r := cartPath + "?" + q;
    }

    /** `fc_hash_html` with debugging off; None when it rejects. */
    method FcHashHtml(pg: Page, html: string) returns (r: Option<string>)
      ensures r == HashedHtml(host, pg, cartPath, html)
    {
      var anchors := pg.queryStrings(html, cartPath);
      var doc := html;
      for i := 0 to |anchors|
        invariant LinksSigned(host, pg, cartPath, doc, anchors[i..]) == LinksSigned(host, pg, cartPath, html, anchors)
      {
        var a := anchors[i];
        assert anchors[i..][1..] == anchors[i + 1..];
        if MarkedSigned(a.query) {
          continue;
        }
        var signed := FcHashQuerystring(a.query);
        var found := pg.link(doc, a, cartPath);
        if found.Some? {
          doc := ReplaceSpan(doc, Some((found.value.start, found.value.end)), LinkText(found.value, signed));
        }
      }
      var linked := doc;
      var forms := pg.forms(doc, cartPath);
      for i := 0 to |forms|
        invariant FormsHashed(host, pg, doc, forms[i..]) == FormsHashed(host, pg, linked, forms)
      {
        assert forms[i..][1..] == forms[i + 1..];
        var form := HashForm(host, pg, forms[i]);
        if form.None? {
          return None;
        }
        doc := ReplaceFirst(doc, forms[i], form.value);
      }
      r := Some(doc);
    }
  }
}
