/** The link half of the current signing engine (src/Signer.ts): the signed token,
    the exclusion policy, product codes resolved from query pairs, and the rewriting
    of query strings and cart URLs. */
module Signer {
  import opened Text
  import opened Excludes
  import opened Primitives
  import opened QueryPairs
  import opened Scan

  /** The class's `cartPath`; this revision never changes it. */
  const CartPath: string := "/cart"

  /** The value that marks a user-editable ("open") option. */
  const Open: string := "--OPEN--"

  /** The default prefix stands for "prefix `0:` or none" in the patterns built from it. */
  function PrefixRegex(prefix: string): (r: string)
    ensures prefix == "0:" ==> r == "(0:)?"
    ensures prefix != "0:" ==> r == prefix
  {
    if prefix == "0:" then "(0:)?" else prefix
  }

  /** Applying the mapping twice, as `__getInputsWithPrefix` does, is applying it once. */
  lemma PrefixRegexIdempotent(prefix: string)
    ensures PrefixRegex(PrefixRegex(prefix)) == PrefixRegex(prefix)
  {
  }

  // ---------------------------------------------------------------- tokens

  /** What a string becomes in the template: `false` is rendered as "false". */
  function JsStr(v: Option<string>): (r: string)
    ensures v.Some? ==> r == v.value
    ensures v.None? ==> r == "false"
  {
    if v.Some? then v.value else "false"
  }

  function Emit(h: Host, urlEncode: bool, s: string): string {
    if urlEncode then h.encodeUri(s) else s
  }

  /** The message that is hashed: no separators for an open value, dots otherwise. */
  function Message(code: string, name: string, value: string): (m: string)
    ensures value == Open ==> m == code + name + Open
    ensures value != Open ==> m == code + "." + name + "." + value
  {
    if value == Open then code + name + value else code + "." + name + "." + value
  }

  /** `signName`: `false` (None) for an empty code or name; otherwise the shown part,
      "||", the hash, and "||open" for an open value. An open value always shows the
      name, whatever the method; otherwise "name" shows the name and any other method
      shows the value. Only the first space of the name becomes '_'. */
  function SignName(h: Host, productCode: string, optionName: string, optionValue: string,
                    how: string, urlEncode: bool): (r: Option<string>)
    ensures r.None? <==> productCode == "" || optionName == ""
    ensures r.Some? ==>
      var name := ReplaceFirst(optionName, " ", "_");
      var hash := h.sign(Message(productCode, name, optionValue));
      if optionValue == Open then r.value == Emit(h, urlEncode, name) + "||" + hash + "||open"
      else r.value == Emit(h, urlEncode, if how == "name" then name else optionValue) + "||" + hash
  {
    if productCode == "" || optionName == "" then None
    else
      var name := ReplaceFirst(optionName, " ", "_");
      if optionValue == Open then
        var hash := h.sign(productCode + name + optionValue);
        Some(Emit(h, urlEncode, name) + "||" + hash + "||open")
      else
        var hash := h.sign(productCode + "." + name + "." + optionValue);
        if how == "name" then Some(Emit(h, urlEncode, name) + "||" + hash)
        else Some(Emit(h, urlEncode, optionValue) + "||" + hash)
  }

  /** Every token holds "||", which is what the "already signed" guards look for. */
  lemma TokenIsMarked(h: Host, productCode: string, optionName: string, optionValue: string,
                      how: string, urlEncode: bool)
    requires productCode != "" && optionName != ""
    ensures Contains(JsStr(SignName(h, productCode, optionName, optionValue, how, urlEncode)), "||")
  {
    var name := ReplaceFirst(optionName, " ", "_");
    var shown := Emit(h, urlEncode, if optionValue == Open || how == "name" then name else optionValue);
    var t := JsStr(SignName(h, productCode, optionName, optionValue, how, urlEncode));
    assert t[|shown|..|shown| + 2] == "||";
    assert OccursAt(t, "||", |shown|);
  }

  /** Only the first space of the name is replaced: a later space survives. */
  lemma OnlyFirstSpaceReplaced(name: string, i: nat)
    requires i < |name| && name[i] == ' ' && forall j :: 0 <= j < i ==> name[j] != ' '
    ensures ReplaceFirst(name, " ", "_") == name[..i] + "_" + name[i + 1..]
  {
    assert OccursAt(name, " ", i);
    forall j | 0 <= j < i ensures !OccursAt(name, " ", j) {
      assert name[j..j + 1] == [name[j]];
    }
  }

  // ------------------------------------------------------- exclusion policy

  /** `name.replace(/^\d:/, "")`. */
  function StripDigitPrefix(name: string): (r: string)
    ensures if |name| >= 2 && IsDigit(name[0]) && name[1] == ':' then r == name[2..] else r == name
  {
    if |name| >= 2 && IsDigit(name[0]) && name[1] == ':' then name[2..] else name
  }

  /** `__shouldSkipInput`: the name, with at most one leading `digit:` removed, is listed
      exactly, or the lower-cased name starts with an excluded prefix. */
  predicate ShouldSkipInput(name: string) {
    StripDigitPrefix(name) in CartExcludes || HasExcludedPrefix(ToLower(name))
  }

  /** A code prefix as found in forms, `[0-9]{1,3}:`, or none. */
  predicate DigitPrefix(p: string) {
    p == "" || (2 <= |p| <= 4 && p[|p| - 1] == ':' && forall i :: 0 <= i < |p| - 1 ==> IsDigit(p[i]))
  }

  /** No lower-cased name that starts with a digit, '(' or "co"/"pa" has an excluded prefix. */
  lemma NoExcludedPrefixFor(s: string)
    requires |s| >= 2 && (IsDigit(s[0]) || s[0] == '(' || s[..2] == "co" || s[..2] == "pa")
    ensures !HasExcludedPrefix(ToLower(s))
  {
    var l := ToLower(s);
    assert l[0] == LowerChar(s[0]) && l[1] == LowerChar(s[1]);
    forall p | p in CartExcludesPrefixes ensures !StartsWith(l, p) {
      assert l[0] != p[0];
      if |p| <= |l| { assert l[..|p|][0] == l[0]; }
    }
  }

  /** The code fields are never skipped, under any code prefix. */
  lemma CodeFieldsNeverSkipped(p: string)
    requires DigitPrefix(p)
    ensures !ShouldSkipInput(p + "code") && !ShouldSkipInput(p + "parent_code")
  {
    CodeFieldsNotExcluded();
    CodeFieldNotSkipped(p, "code");
    CodeFieldNotSkipped(p, "parent_code");
  }

  lemma CodeFieldNotSkipped(p: string, f: string)
    requires DigitPrefix(p) && (f == "code" || f == "parent_code")
    requires f !in CartExcludes
    ensures !ShouldSkipInput(p + f)
  {
    var n := p + f;
    if p == "" {
      assert n == f && n[..2] == f[..2];
      assert f[0] == 'c' || f[0] == 'p';
      NoExcludedPrefixFor(n);
    } else {
      assert n[0] == p[0] && IsDigit(n[0]);
      NoExcludedPrefixFor(n);
      if |p| == 2 {
        assert StripDigitPrefix(n) == f by { assert n[1] == ':' && n[2..] == f; }
      } else {
        assert StripDigitPrefix(n) == n by { assert n[1] == p[1] && IsDigit(n[1]); }
        EntriesStartWithLetter(n);
      }
    }
  }

  /** Every listed name is skipped, bare or behind a one-digit prefix. */
  lemma ExcludedNamesSkipped(e: string, d: char)
    requires e in CartExcludes && IsDigit(d)
    ensures ShouldSkipInput(e) && ShouldSkipInput([d, ':'] + e)
  {
    EntriesChecked();
    assert StripDigitPrefix(e) == e by {
      if |e| >= 2 && IsDigit(e[0]) { EntriesStartWithLetter(e); }
    }
    assert StripDigitPrefix([d, ':'] + e) == e by { assert ([d, ':'] + e)[2..] == e; }
  }

  /** With the prefix "0:" in front, only the exact list applies: the prefix table (utm_,
      __, h:, x:) never matches. This is the test `signQueryString` makes on pairs
      without a prefix, whose prefix has been set to "0:". */
  lemma ZeroPrefixSkipsOnlyListed(n: string)
    ensures ShouldSkipInput("0:" + n) <==> n in CartExcludes
  {
    assert StripDigitPrefix("0:" + n) == n by { assert ("0:" + n)[2..] == n; }
    NoExcludedPrefixFor("0:" + n);
  }

  /** The test `__getSignedInput` makes for the default prefix, on "(0:)?" followed by the
      name, never skips anything. */
  lemma OpenPrefixNeverSkips(n: string)
    ensures !ShouldSkipInput("(0:)?" + n)
  {
    var s := "(0:)?" + n;
    assert s[0] == '(';
    assert StripDigitPrefix(s) == s;
    EntriesStartWithLetter(s);
    NoExcludedPrefixFor(s);
  }

  // ---------------------------------------------- product codes from pairs

  /** A pair without a prefix is given the prefix "0:" (the source writes it back into
      the pair, so later steps see the new prefix). */
  function Normalised(p: Pair): (q: Pair)
    ensures q.prefix == (if p.prefix == "" then "0:" else p.prefix)
    ensures q.(prefix := p.prefix) == p
  {
    if p.prefix == "" then p.(prefix := "0:") else p
  }

  function NormaliseAll(ps: seq<Pair>): (r: seq<Pair>)
    ensures |r| == |ps| && forall i :: 0 <= i < |ps| ==> r[i] == Normalised(ps[i])
  {
    seq(|ps|, i requires 0 <= i < |ps| => Normalised(ps[i]))
  }

  /** The first pass over the pairs, in order: each `code` pair sets its prefix's code. */
  function CodePass(ps: seq<Pair>): map<string, string>
    decreases |ps|
  {
    if ps == [] then map[]
    else
      var c := CodePass(ps[..|ps| - 1]);
      var p := ps[|ps| - 1];
      if p.name == "code" then c[p.prefix := p.value] else c
  }

  /** `codes[k] += v`: an absent code reads as "undefined". */
  function AppendTo(c: map<string, string>, k: string, v: string): string {
    (if k in c then c[k] else "undefined") + v
  }

  /** The second pass, in order: each `parent_code` value is appended to its prefix's code. */
  function ParentPass(c: map<string, string>, ps: seq<Pair>): map<string, string>
    decreases |ps|
  {
    if ps == [] then c
    else
      var c' := ParentPass(c, ps[..|ps| - 1]);
      var p := ps[|ps| - 1];
      if p.name == "parent_code" then c'[p.prefix := AppendTo(c', p.prefix, p.value)] else c'
  }

  lemma CodePassSnoc(ps: seq<Pair>, p: Pair)
    ensures CodePass(ps + [p]) == if p.name == "code" then CodePass(ps)[p.prefix := p.value] else CodePass(ps)
  {
    assert (ps + [p])[..|ps|] == ps;
  }

  lemma ParentPassSnoc(c: map<string, string>, ps: seq<Pair>, p: Pair)
    ensures ParentPass(c, ps + [p]) ==
      var c' := ParentPass(c, ps);
      if p.name == "parent_code" then c'[p.prefix := AppendTo(c', p.prefix, p.value)] else c'
  {
    assert (ps + [p])[..|ps|] == ps;
  }

  lemma NormaliseAllSnoc(ps: seq<Pair>, i: nat)
    requires i < |ps|
    ensures NormaliseAll(ps[..i + 1]) == NormaliseAll(ps[..i]) + [Normalised(ps[i])]
  {
  }

  /** The dictionary `__getCodesFromPairs` returns. */
  function Codes(ps: seq<Pair>): map<string, string> {
    var n := NormaliseAll(ps);
    ParentPass(CodePass(n), n)
  }

  /** `__getCodesFromPairs`: returns the codes and the pairs with their prefixes defaulted. */
  method GetCodesFromPairs(pairs: seq<Pair>) returns (codes: map<string, string>, normalised: seq<Pair>)
    ensures normalised == NormaliseAll(pairs)
    ensures codes == Codes(pairs)
  {
    codes := map[];
    normalised := [];
    var i := 0;
    while i < |pairs|
      invariant 0 <= i <= |pairs|
      invariant normalised == NormaliseAll(pairs[..i])
      invariant codes == CodePass(normalised)
    {
      var pair := Normalised(pairs[i]);
      if pair.name == "code" {
        codes := codes[pair.prefix := pair.value];
      }
      NormaliseAllSnoc(pairs, i);
      CodePassSnoc(normalised, pair);
      normalised := normalised + [pair];
      i := i + 1;
    }
    assert pairs[..i] == pairs;
    ghost var firstPass := codes;
    var j := 0;
    while j < |normalised|
      invariant 0 <= j <= |normalised|
      invariant codes == ParentPass(firstPass, normalised[..j])
    {
      var pair := normalised[j];
      if pair.name == "parent_code" {
        codes := codes[pair.prefix := AppendTo(codes, pair.prefix, pair.value)];
      }
      ParentPassSnoc(firstPass, normalised[..j], pair);
      assert normalised[..j + 1] == normalised[..j] + [pair];
      j := j + 1;
    }
    assert normalised[..j] == normalised;
  }

  /** The value of the last `code` pair with prefix k. */
  function LastCode(ps: seq<Pair>, k: string): Option<string>
    decreases |ps|
  {
    if ps == [] then None
    else if ps[|ps| - 1].name == "code" && ps[|ps| - 1].prefix == k then Some(ps[|ps| - 1].value)
    else LastCode(ps[..|ps| - 1], k)
  }

  /** The values of the `parent_code` pairs with prefix k, concatenated in order. */
  function ParentSuffix(ps: seq<Pair>, k: string): string
    decreases |ps|
  {
    if ps == [] then ""
    else ParentSuffix(ps[..|ps| - 1], k)
         + (if ps[|ps| - 1].name == "parent_code" && ps[|ps| - 1].prefix == k then ps[|ps| - 1].value else "")
  }

  predicate HasField(ps: seq<Pair>, k: string, field: string) {
    exists i :: 0 <= i < |ps| && ps[i].name == field && ps[i].prefix == k
  }

  lemma {:induction false} CodePassForm(ps: seq<Pair>)
    ensures forall k :: k in CodePass(ps) <==> LastCode(ps, k).Some?
    ensures forall k :: k in CodePass(ps) ==> CodePass(ps)[k] == LastCode(ps, k).value
    ensures forall k :: LastCode(ps, k).Some? <==> HasField(ps, k, "code")
    decreases |ps|
  {
    if ps != [] {
      var init := ps[..|ps| - 1];
      CodePassForm(init);
      forall k ensures LastCode(ps, k).Some? <==> HasField(ps, k, "code") {
        HasFieldSnoc(ps, k, "code");
      }
    }
  }

  lemma ParentPassForm(c: map<string, string>, ps: seq<Pair>)
    ensures forall k :: k in ParentPass(c, ps) <==> k in c || HasField(ps, k, "parent_code")
    ensures forall k :: k in ParentPass(c, ps) ==>
      ParentPass(c, ps)[k] == if HasField(ps, k, "parent_code") then AppendTo(c, k, ParentSuffix(ps, k)) else c[k]
    ensures forall k :: !HasField(ps, k, "parent_code") ==> ParentSuffix(ps, k) == ""
  {
    forall k ensures k in ParentPass(c, ps) <==> k in c || HasField(ps, k, "parent_code") {
      ParentPassKey(c, ps, k);
    }
    forall k | k in ParentPass(c, ps) ensures
      ParentPass(c, ps)[k] == if HasField(ps, k, "parent_code") then AppendTo(c, k, ParentSuffix(ps, k)) else c[k]
    {
      ParentPassKey(c, ps, k);
    }
    forall k | !HasField(ps, k, "parent_code") ensures ParentSuffix(ps, k) == "" {
      ParentPassKey(c, ps, k);
    }
  }

  /** The closed form of the second pass at one prefix. */
  predicate ParentPassAt(c: map<string, string>, ps: seq<Pair>, k: string) {
    && (k in ParentPass(c, ps) <==> k in c || HasField(ps, k, "parent_code"))
    && (k in ParentPass(c, ps) ==>
        ParentPass(c, ps)[k] == if HasField(ps, k, "parent_code") then AppendTo(c, k, ParentSuffix(ps, k)) else c[k])
    && (!HasField(ps, k, "parent_code") ==> ParentSuffix(ps, k) == "")
  }

  lemma {:induction false} ParentPassKey(c: map<string, string>, ps: seq<Pair>, k: string)
    ensures ParentPassAt(c, ps, k)
    decreases |ps|
  {
    if ps != [] {
      var init := ps[..|ps| - 1];
      var p := ps[|ps| - 1];
      ParentPassKey(c, init, k);
      HasFieldSnoc(ps, k, "parent_code");
      if p.name == "parent_code" && p.prefix == k && HasField(init, k, "parent_code") {
        assert AppendTo(c, k, ParentSuffix(init, k)) + p.value == AppendTo(c, k, ParentSuffix(ps, k));
      } else if p.name == "parent_code" && p.prefix == k {
        assert ParentSuffix(ps, k) == p.value;
      }
    }
  }

  /** A field is present in a non-empty list iff it is present before the last pair or
      in the last pair. */
  lemma HasFieldSnoc(ps: seq<Pair>, k: string, field: string)
    requires ps != []
    ensures HasField(ps, k, field) <==>
      HasField(ps[..|ps| - 1], k, field) || (ps[|ps| - 1].name == field && ps[|ps| - 1].prefix == k)
  {
    var init := ps[..|ps| - 1];
    if HasField(init, k, field) {
      var i :| 0 <= i < |init| && init[i].name == field && init[i].prefix == k;
      assert ps[i] == init[i];
    }
    if HasField(ps, k, field) && !(ps[|ps| - 1].name == field && ps[|ps| - 1].prefix == k) {
      var i :| 0 <= i < |ps| && ps[i].name == field && ps[i].prefix == k;
      assert i < |init| && init[i] == ps[i];
    }
  }

  /** `__getCodesFromPairs` in closed form: a prefix has an entry iff some `code` or
      `parent_code` pair carries it (after defaulting to "0:"); the entry is the last
      code for it, or "undefined" when there is none, followed by every parent code for
      it in order. So the order of `code` and `parent_code` pairs does not matter. */
  lemma CodesClosedForm(ps: seq<Pair>)
    ensures var n := NormaliseAll(ps);
      forall k :: k in Codes(ps) <==> HasField(n, k, "code") || HasField(n, k, "parent_code")
    ensures var n := NormaliseAll(ps);
      forall k :: k in Codes(ps) ==>
        Codes(ps)[k] == (if LastCode(n, k).Some? then LastCode(n, k).value else "undefined")
                        + ParentSuffix(n, k)
  {
    var n := NormaliseAll(ps);
    CodePassForm(n);
    ParentPassForm(CodePass(n), n);
  }

  /** No codes at all iff no pair is named `code` or `parent_code`. */
  lemma NoCodesIff(ps: seq<Pair>)
    ensures |Codes(ps)| == 0 <==> forall p :: p in ps ==> p.name != "code" && p.name != "parent_code"
  {
    CodesClosedForm(ps);
    var n := NormaliseAll(ps);
    if |Codes(ps)| != 0 {
      var k :| k in Codes(ps);
      if HasField(n, k, "code") {
        var i :| 0 <= i < |n| && n[i].name == "code" && n[i].prefix == k;
        assert ps[i] in ps && ps[i].name == "code";
      } else {
        var i :| 0 <= i < |n| && n[i].name == "parent_code" && n[i].prefix == k;
        assert ps[i] in ps && ps[i].name == "parent_code";
      }
    } else {
      forall p | p in ps ensures p.name != "code" && p.name != "parent_code" {
        var i :| 0 <= i < |ps| && ps[i] == p;
        assert n[i].prefix !in Codes(ps);
        assert n[i].name == p.name;
      }
    }
  }

  // ---------------------------------------------------- query-string signing

  /** `codes[prefix]` as `signName` sees it: an absent code is as falsy as an empty one. */
  function CodeFor(codes: map<string, string>, prefix: string): (r: string)
    ensures prefix in codes ==> r == codes[prefix]
    ensures prefix !in codes ==> r == ""
  {
    if prefix in codes then codes[prefix] else ""
  }

  /** What one pair is replaced with, or None for an excluded pair, which stays verbatim.
      An open value keeps only the separator and the token; any other value keeps the
      separator, the prefix and the encoded name. */
  function PairReplacement(h: Host, codes: map<string, string>, p: Pair): (r: Option<string>)
    ensures r.None? <==> ShouldSkipInput(p.prefix + p.name)
    ensures r.Some? ==>
      var token := JsStr(SignName(h, CodeFor(codes, p.prefix), h.decodeUri(p.name), h.decodeUri(p.value), "value", true));
      r.value == (if h.decodeUri(p.value) == Open then p.amp + token + "="
                  else p.amp + p.prefix + h.encodeUri(p.name) + "=" + token)
  {
    if ShouldSkipInput(p.prefix + p.name) then None
    else
      var value := JsStr(SignName(h, CodeFor(codes, p.prefix), h.decodeUri(p.name), h.decodeUri(p.value), "value", true));
      if h.decodeUri(p.value) == Open then Some(p.amp + value + "=")
      else Some(p.amp + p.prefix + h.encodeUri(p.name) + "=" + value)
  }

  /** A pair whose prefix has no code is signed as `false`: its value is lost. */
  lemma UncodedPrefixSignsFalse(h: Host, codes: map<string, string>, p: Pair)
    requires p.prefix !in codes && !ShouldSkipInput(p.prefix + p.name) && h.decodeUri(p.value) != Open
    ensures PairReplacement(h, codes, p) == Some(p.amp + p.prefix + h.encodeUri(p.name) + "=false")
  {
    assert p.amp + p.prefix + h.encodeUri(p.name) + "=" + "false"
        == p.amp + p.prefix + h.encodeUri(p.name) + "=false";
  }

  /** … and an open value under such a prefix loses its name too: only `false=` is left. */
  lemma UncodedOpenSignsFalse(h: Host, codes: map<string, string>, p: Pair)
    requires p.prefix !in codes && !ShouldSkipInput(p.prefix + p.name) && h.decodeUri(p.value) == Open
    ensures PairReplacement(h, codes, p) == Some(p.amp + "false=")
  {
    assert p.amp + "false" + "=" == p.amp + "false=";
  }

  /** One step of the signing loop: the first occurrence of the pair's text is replaced. */
  function SignStep(h: Host, codes: map<string, string>, qs: string, p: Pair): string {
    match PairReplacement(h, codes, p)
    case None => qs
    case Some(rep) => ReplaceFirst(qs, p.matched, rep)
  }

  function SignPairs(h: Host, codes: map<string, string>, qs: string, ps: seq<Pair>): string
    decreases |ps|
  {
    if ps == [] then qs else SignPairs(h, codes, SignStep(h, codes, qs, ps[0]), ps[1..])
  }

  lemma SignPairsFrom(h: Host, codes: map<string, string>, qs: string, ps: seq<Pair>, i: nat)
    requires i < |ps|
    ensures SignPairs(h, codes, qs, ps[i..]) == SignPairs(h, codes, SignStep(h, codes, qs, ps[i]), ps[i + 1..])
  {
    assert ps[i..][1..] == ps[i + 1..];
  }

  /** What `signQueryString` returns. */
  function SignedQueryString(h: Host, qs: string): string {
    var q := DropLeading(qs, '?');
    if Contains(q, "||") then "?" + q
    else
      var found := Pairs("&" + q);
      if |Codes(found)| == 0 then "?" + q
      else "?" + DropLeading(SignPairs(h, Codes(found), "&" + q, NormaliseAll(found)), '&')
  }

  /** `signQueryString`: a query string already holding "||", or one without any code,
      comes back as "?" and the string without its leading '?'; otherwise every pair that
      is not excluded is signed in place. */
  method SignQueryString(h: Host, qs: string) returns (r: string)
    ensures r == SignedQueryString(h, qs)
  {
    var q := DropLeading(qs, '?');
    var fail := "?" + q;
    if Contains(q, "||") {
      return fail;
    }
    q := "&" + q;
    var pairs := MatchPairs(q);
    var codes;
    codes, pairs := GetCodesFromPairs(pairs);
    if |codes| == 0 {
      return fail;
    }
    ghost var q0 := q;
    var i := 0;
    while i < |pairs|
      invariant 0 <= i <= |pairs|
      invariant SignPairs(h, codes, q, pairs[i..]) == SignPairs(h, codes, q0, pairs)
    {
      var pair := pairs[i];
      SignPairsFrom(h, codes, q, pairs, i);
      if ShouldSkipInput(pair.prefix + pair.name) {
        i := i + 1;
        continue;
      }
      var value := JsStr(SignName(h, CodeFor(codes, pair.prefix), h.decodeUri(pair.name),
                                  h.decodeUri(pair.value), "value", true));
      var replacement: string;
      if h.decodeUri(pair.value) == Open {
        replacement := pair.amp + value + "=";
      } else {
        replacement := pair.amp + pair.prefix + h.encodeUri(pair.name) + "=" + value;
      }
      assert PairReplacement(h, codes, pair) == Some(replacement);
      q := ReplaceFirst(q, pair.matched, replacement);
      i := i + 1;
    }
    q := DropLeading(q, '&');
    r := "?" + q;
  }

  /** The guards of `signQueryString`: a string holding "||" is returned as it was. */
  lemma SignedQueryStringUntouched(h: Host, qs: string)
    requires Contains(DropLeading(qs, '?'), "||")
    ensures SignedQueryString(h, qs) == "?" + DropLeading(qs, '?')
  {
  }

  /** … and so is a string in which no pair is named `code` or `parent_code`. */
  lemma CodelessQueryStringUntouched(h: Host, qs: string)
    requires forall p :: p in Pairs("&" + DropLeading(qs, '?')) ==> p.name != "code" && p.name != "parent_code"
    ensures SignedQueryString(h, qs) == "?" + DropLeading(qs, '?')
  {
    NoCodesIff(Pairs("&" + DropLeading(qs, '?')));
  }

  /** Signing is idempotent once a pass has left "||" in the query: the second pass
      stops at its first guard and gives back what the first returned. */
  lemma SignedQueryStringIdempotent(h: Host, qs: string)
    requires Contains(SignedQueryString(h, qs), "||")
    ensures SignedQueryString(h, SignedQueryString(h, qs)) == SignedQueryString(h, qs)
  {
    var r := SignedQueryString(h, qs);
    SignedQueryStringLeads(h, qs);
    assert r == ['?'] + r[1..];
    ContainsPastHead('?', r[1..], "||");
  }

  /** `signQueryString` past its two guards. */
  lemma SignedQueryStringPastGuards(h: Host, qs: string)
    requires !Contains(DropLeading(qs, '?'), "||")
    requires Codes(Pairs("&" + DropLeading(qs, '?'))) != map[]
    ensures var t := "&" + DropLeading(qs, '?');
      SignedQueryString(h, qs) == "?" + DropLeading(SignPairs(h, Codes(Pairs(t)), t, NormaliseAll(Pairs(t))), '&')
  {
  }

  /** A query string made of one code pair: the code signs itself, and the pair comes
      back with the default prefix "0:" written in front of its name. */
  lemma SingleCodePair(h: Host, v: string)
    requires |v| > 0 && '&' !in v && !Contains("code=" + v, "||")
    requires h.decodeUri("code") == "code" && h.encodeUri("code") == "code"
    requires h.decodeUri(v) == v && v != Open
    ensures SignedQueryString(h, "code=" + v) == "?0:code=" + h.encodeUri(v) + "||" + h.sign(v + ".code." + v)
  {
    var q := "code=" + v;
    var t := "&code=" + v;
    var p := Pair("&", "", "code", v, t);
    var e, s := h.encodeUri(v), h.sign(v + ".code." + v);
    var rep := "&0:code=" + e + "||" + s;
    assert DropLeading(q, '?') == q && "&" + q == t;
    SingleCodePairScanned(v);
    SingleCodePairCodes(p);
    calc {
      SignedQueryString(h, q);
    == { assert "0:" in Codes([p]); SignedQueryStringPastGuards(h, q); }
      "?" + DropLeading(SignPairs(h, Codes([p]), t, NormaliseAll([p])), '&');
    == { SingleCodePairSigned(h, p, rep); }
      "?" + DropLeading(rep, '&');
    == { SingleCodeTail(e, s); }
      "?0:code=" + e + "||" + s;
    }
  }

  /** The one-code query string is marked by its first pass, so a second pass leaves
      it as it is. */
  lemma SingleCodePairIdempotent(h: Host, v: string)
    requires |v| > 0 && '&' !in v && !Contains("code=" + v, "||")
    requires h.decodeUri("code") == "code" && h.encodeUri("code") == "code"
    requires h.decodeUri(v) == v && v != Open
    ensures var r := SignedQueryString(h, "code=" + v);
      Contains(r, "||") && SignedQueryString(h, r) == r
  {
    SingleCodePair(h, v);
    MarkBetween("?0:code=" + h.encodeUri(v), h.sign(v + ".code." + v));
    SignedQueryStringIdempotent(h, "code=" + v);
  }

  lemma MarkBetween(a: string, s: string)
    ensures Contains(a + "||" + s, "||")
  {
    assert OccursAt("||" + s, "||", 0);
    ContainsInTail(a, "||" + s, "||");
    assert a + "||" + s == a + ("||" + s);
  }

  lemma SingleCodeTail(e: string, s: string)
    ensures "?" + DropLeading("&0:code=" + e + "||" + s, '&') == "?0:code=" + e + "||" + s
  {
    assert ("&0:code=" + e + "||" + s)[1..] == "0:code=" + e + "||" + s;
  }

  lemma SingleCodePairScanned(v: string)
    requires |v| > 0 && '&' !in v
    ensures Pairs("&code=" + v) == [Pair("&", "", "code", v, "&code=" + v)]
  {
    var t := "&code=" + v;
    var p := Pair("&", "", "code", v, t);
    assert p.matched == p.amp + p.prefix + p.name + "=" + p.value;
    assert forall i :: 0 <= i < |p.name| ==> NameChar(p.name[i]);
    assert Plain(p);
    assert OccursAt(t, p.matched, 0);
    MatchPlain(t, 0, p);
    PairsFromMatch(t, 0, p);
  }

  lemma SingleCodePairCodes(p: Pair)
    requires p.name == "code" && p.prefix == ""
    ensures NormaliseAll([p]) == [p.(prefix := "0:")]
    ensures Codes([p]) == map["0:" := p.value]
  {
    var n := NormaliseAll([p]);
    assert n == [] + [p.(prefix := "0:")];
    CodePassSnoc([], n[0]);
    assert CodePass(n) == map["0:" := p.value];
    ParentPassSnoc(CodePass(n), [], n[0]);
    assert ParentPass(CodePass(n), n) == CodePass(n);
  }

  /** The token of the code pair: its value signed under itself. */
  lemma SingleCodeToken(h: Host, v: string)
    requires v != "" && v != Open
    ensures SignName(h, v, "code", v, "value", true) == Some(h.encodeUri(v) + "||" + h.sign(v + ".code." + v))
  {
    NoOccurrenceOfAbsentChar("code", ' ');
    assert ReplaceFirst("code", " ", "_") == "code";
    assert v + "." + "code" + "." + v == v + ".code." + v;
  }

  /** Replacing a whole string by `rep` gives `rep`. */
  lemma ReplaceWhole(t: string, rep: string)
    ensures ReplaceFirst(t, t, rep) == rep
  {
    assert OccursAt(t, t, 0);
    assert IndexOf(t, t, 0) == 0;
  }

  /** The replacement of the code pair once its prefix is defaulted. */
  lemma SingleCodeReplacement(h: Host, v: string, rep: string)
    requires v != Open && v != ""
    requires h.decodeUri("code") == "code" && h.encodeUri("code") == "code" && h.decodeUri(v) == v
    requires rep == "&0:code=" + h.encodeUri(v) + "||" + h.sign(v + ".code." + v)
    ensures PairReplacement(h, map["0:" := v], Pair("&", "0:", "code", v, "&code=" + v)) == Some(rep)
  {
    var q := Pair("&", "0:", "code", v, "&code=" + v);
    var codes := map["0:" := v];
    var token := h.encodeUri(v) + "||" + h.sign(v + ".code." + v);
    ZeroCodeNotSkipped();
    assert CodeFor(codes, "0:") == v;
    SingleCodeToken(h, v);
    assert JsStr(SignName(h, v, "code", v, "value", true)) == token;
    assert PairReplacement(h, codes, q).value == "&" + "0:" + "code" + "=" + token;
    ZeroCodeLead(h.encodeUri(v), h.sign(v + ".code." + v));
  }

  lemma ZeroCodeLead(e: string, s: string)
    ensures "&" + "0:" + "code" + "=" + (e + "||" + s) == "&0:code=" + e + "||" + s
  {
    assert "&" + "0:" + "code" + "=" == "&0:code=";
  }

  lemma ZeroCodeNotSkipped()
    ensures !ShouldSkipInput("0:" + "code")
  {
    CodeFieldsNeverSkipped("0:");
  }

  lemma SingleCodePairSigned(h: Host, p: Pair, rep: string)
    requires p == Pair("&", "", "code", p.value, "&code=" + p.value) && p.value != Open && p.value != ""
    requires h.decodeUri("code") == "code" && h.encodeUri("code") == "code" && h.decodeUri(p.value) == p.value
    requires rep == "&0:code=" + h.encodeUri(p.value) + "||" + h.sign(p.value + ".code." + p.value)
    ensures SignPairs(h, map["0:" := p.value], p.matched, [p.(prefix := "0:")]) == rep
  {
    var q := p.(prefix := "0:");
    var codes := map["0:" := p.value];
    SingleCodeReplacement(h, p.value, rep);
    ReplaceWhole(p.matched, rep);
    assert SignStep(h, codes, p.matched, q) == rep;
    assert [q][1..] == [];
  }

  // --------------------------------------------------------------- URLs

  /** The groups of `(https?://)(?<domain>[^?/]*?)/cart(.php)?\?(.*)`. */
  datatype CartUrl = CartUrl(protocol: string, domain: string, querystring: string)

  /** The first index at or after i holding '?' or '/', or |t|. */
  function DomainEnd(t: string, i: nat): (r: nat)
    requires i <= |t|
    ensures i <= r <= |t| && (r < |t| ==> t[r] == '?' || t[r] == '/')
    ensures forall j :: i <= j < r ==> t[j] != '?' && t[j] != '/'
    decreases |t| - i
  {
    if i == |t| || t[i] == '?' || t[i] == '/' then i else DomainEnd(t, i + 1)
  }

  /** Where the query string starts once "/cart" has matched up to j: `(.php)?` is tried
      first (its '.' is any character but a line terminator), then the bare "?". */
  function QueryStart(t: string, j: nat): (r: Option<nat>)
    ensures r.Some? ==> j < r.value <= |t| && t[r.value - 1] == '?'
  {
    if j + 4 < |t| && !IsLineTerminator(t[j]) && t[j + 1..j + 4] == "php" && t[j + 4] == '?' then Some(j + 5)
    else if j < |t| && t[j] == '?' then Some(j + 1)
    else None
  }

  /** The match of the cart-URL pattern starting at s. The protocol "https://" is tried
      before "http://" (they cannot both start at s). The lazy domain cannot hold '/' or
      '?', so "/cart" can only start where the domain first meets one of them. The query
      string runs to the first line terminator. */
  function CartUrlAt(t: string, s: nat): (r: Option<CartUrl>)
  {
    var n := if OccursAt(t, "https://", s) then 8 else if OccursAt(t, "http://", s) then 7 else 0;
    if n == 0 then None
    else
      var e := DomainEnd(t, s + n);
      if OccursAt(t, "/cart", e) then
        match QueryStart(t, e + 5)
        case Some(q) => Some(CartUrl(t[s..s + n], t[s + n..e], t[q..LineEnd(t, q)]))
        case None => None
      else None
  }

  function FindCartUrl(t: string): Option<CartUrl> {
    match Leftmost((s: nat) => CartUrlAt(t, s), 0, |t|)
    case Some((_, m)) => Some(m)
    case None => None
  }

  /** What `signUrl` returns. */
  function SignedUrl(h: Host, url: string): string {
    if Contains(url, "||") then url
    else match FindCartUrl(url)
      case None => url
      case Some(m) => m.protocol + m.domain + CartPath + SignedQueryString(h, m.querystring)
  }

  /** `signUrl`: a URL holding "||", or one that is not a cart URL, is returned as it is;
      otherwise its query string is signed, and whatever preceded the protocol, the
      ".php" and anything after a line break are dropped. */
  method SignUrl(h: Host, url: string) returns (r: string)
    ensures r == SignedUrl(h, url)
    ensures Contains(url, "||") ==> r == url
    ensures FindCartUrl(url).None? ==> r == url
  {
    if Contains(url, "||") {
      return url;
    }
    var m := FindCartUrl(url);
    if m.None? {
      return url;
    }
    var signed := SignQueryString(h, m.value.querystring);
    r := m.value.protocol + m.value.domain + CartPath + signed;
  }

  /** Every result of `signQueryString` starts with '?'. */
  lemma SignedQueryStringLeads(h: Host, qs: string)
    ensures |SignedQueryString(h, qs)| > 0 && SignedQueryString(h, qs)[0] == '?'
  {
  }

  /** `signUrl` is idempotent on a URL it returns untouched, and on a cart URL whose
      signed query holds "||": the second pass stops at its first guard. */
  lemma SignedUrlIdempotent(h: Host, url: string)
    requires Contains(url, "||") || FindCartUrl(url).None?
             || Contains(SignedQueryString(h, FindCartUrl(url).value.querystring), "||")
    ensures SignedUrl(h, SignedUrl(h, url)) == SignedUrl(h, url)
  {
    if !Contains(url, "||") && FindCartUrl(url).Some? {
      var m := FindCartUrl(url).value;
      SignedUrlIs(h, url, m);
      ContainsInTail(m.protocol + m.domain + CartPath, SignedQueryString(h, m.querystring), "||");
    }
  }

  /** A signed cart URL keeps its protocol, domain and cart path. */
  lemma SignedUrlShape(h: Host, url: string)
    requires !Contains(url, "||") && FindCartUrl(url).Some?
    ensures var m := FindCartUrl(url).value;
      StartsWith(SignedUrl(h, url), m.protocol + m.domain + "/cart?")
  {
    var m := FindCartUrl(url).value;
    var tail := SignedQueryString(h, m.querystring);
    SignedUrlIs(h, url, m);
    SignedQueryStringLeads(h, m.querystring);
    CartPathThenQuery(m.protocol + m.domain, tail);
  }

  lemma SignedUrlIs(h: Host, url: string, m: CartUrl)
    requires !Contains(url, "||") && FindCartUrl(url) == Some(m)
    ensures SignedUrl(h, url) == m.protocol + m.domain + "/cart" + SignedQueryString(h, m.querystring)
  {
  }

  lemma CartPathThenQuery(a: string, tail: string)
    requires |tail| > 0 && tail[0] == '?'
    ensures StartsWith(a + "/cart" + tail, a + "/cart?")
  {
    assert a + "/cart?" == (a + "/cart") + "?";
    assert (a + "/cart" + tail)[..|a| + 6] == a + "/cart?";
  }
}
