/** The code dictionary of the DOM-based signing engine (src/CodeBuilder.js): every
    element whose `name` looks like a product code or a parent code is recorded, per
    prefix, in a dictionary from prefix to field name to value. Attribute lookups are
    parameters: None stands for a missing attribute. */
module CodeBuilder {
  import opened Text

  /** The dictionary: prefix, then lower-cased field name, then value. */
  type Codes = map<string, map<string, string>>

  /** `[0-9]{1,3}:` of length k + 1 at the start of n. */
  predicate DigitsThenColon(n: string, k: nat) {
    1 <= k <= 3 && k < |n| && n[k] == ':' && forall i :: 0 <= i < k ==> IsDigit(n[i])
  }

  /** `(parent_)?code` at position j, in any letter case. */
  predicate CodeWordAt(n: string, j: nat) {
    j <= |n| && (StartsWith(ToLower(n[j..]), "code") || StartsWith(ToLower(n[j..]), "parent_code"))
  }

  /** `/^([0-9]{1,3}:)?(parent_)?code/i`: a prefix match, so "codex" qualifies too. */
  predicate IsCodeName(n: string) {
    CodeWordAt(n, 0)
    || (DigitsThenColon(n, 1) && CodeWordAt(n, 2))
    || (DigitsThenColon(n, 2) && CodeWordAt(n, 3))
    || (DigitsThenColon(n, 3) && CodeWordAt(n, 4))
  }

  /** The dictionary with field f of prefix k set to v, creating the prefix's entry when
      it is missing. */
  function Store(codes: Codes, k: string, f: string, v: string): (r: Codes)
    ensures k in r && f in r[k] && r[k][f] == v
    ensures r.Keys == codes.Keys + {k}
    ensures forall k' :: k' in codes && k' != k ==> r[k'] == codes[k']
    ensures k in codes ==> forall f' :: f' in codes[k] && f' != f ==> f' in r[k] && r[k][f'] == codes[k][f']
    ensures forall f' :: f' in r[k] && f' != f ==> k in codes && f' in codes[k]
  {
    codes[k := (if k in codes then codes[k] else map[])[f := v]]
  }

  /** Where `element` files a name: a name with exactly one ':' under its first part,
      with the second part lower-cased; any other name under "0", lower-cased whole. */
  function Slot(name: string): (string, string) {
    var parts := Split(name, ':');
    if |parts| == 2 then (parts[0], ToLower(parts[1])) else ("0", ToLower(name))
  }

  /** The dictionary after `element` on an element with these attributes: only a
      non-empty code-like name with a non-empty value is recorded. */
  function ElementUpdate(codes: Codes, name: Option<string>, value: Option<string>): Codes {
    if name.Some? && name.value != "" && IsCodeName(name.value) && value.Some? && value.value != ""
    then Store(codes, Slot(name.value).0, Slot(name.value).1, value.value)
    else codes
  }

  class CodeDictBuilder {
    var codes: Codes

    /** The codes start as the given dictionary, or empty when none is given. */
    constructor(codesDict: Option<Codes>)
      ensures codes == if codesDict.Some? then codesDict.value else map[]
    {
      codes := if codesDict.Some? then codesDict.value else map[];
    }

    /** `element`: record the element when its name is a code name and its value is set. */
    method Element(name: Option<string>, value: Option<string>)
      modifies this
      ensures codes == ElementUpdate(old(codes), name, value)
    {
      if name.Some? && name.value != "" && IsCodeName(name.value) && value.Some? && value.value != "" {
        var namePrefix := Split(name.value, ':');
        var prefix := namePrefix[0];
        if |namePrefix| == 2 {
          var codeType := ToLower(namePrefix[1]);
          if prefix !in codes {
            codes := codes[prefix := map[]];
          }
          codes := codes[prefix := codes[prefix][codeType := value.value]];
        } else {
          if "0" !in codes {
            codes := codes["0" := map[]];
          }
          codes := codes["0" := codes["0"][ToLower(name.value) := value.value]];
        }
      }
    }
  }

  /** An element without a name, without a value, or whose name is not a code name
      leaves the dictionary as it is. */
  lemma IgnoredElements(codes: Codes, name: Option<string>, value: Option<string>)
    requires name.None? || value.None? || value == Some("") || (name.Some? && !IsCodeName(name.value))
    ensures ElementUpdate(codes, name, value) == codes
  {
  }

  /** A recorded element overwrites its own slot only: every other prefix and every other
      field of its prefix keep their values, and no entry disappears. */
  lemma ElementLastWins(codes: Codes, name: string, value: string)
    requires IsCodeName(name) && value != ""
    ensures var r := ElementUpdate(codes, Some(name), Some(value));
      var (k, f) := Slot(name);
      k in r && f in r[k] && r[k][f] == value
      && (forall k' :: k' in codes ==> k' in r)
      && (forall k' :: k' in codes && k' != k ==> r[k'] == codes[k'])
      && (k in codes ==> forall f' :: f' in codes[k] && f' != f ==> f' in r[k] && r[k][f'] == codes[k][f'])
  {
    assert name != "" by { assert CodeWordAt(name, 0) || DigitsThenColon(name, 1) || DigitsThenColon(name, 2) || DigitsThenColon(name, 3); }
  }

  /** A name "p:t" with a digit prefix of one to three digits and no further ':' is
      filed under p, as the lower-cased t. */
  lemma PrefixedSlot(p: string, t: string)
    requires 1 <= |p| <= 3 && (forall i :: 0 <= i < |p| ==> IsDigit(p[i])) && ':' !in t
    ensures Slot(p + ":" + t) == (p, ToLower(t))
    ensures IsCodeName(p + ":" + t) <==> CodeWordAt(t, 0)
  {
    assert ':' !in p by { assert forall i :: 0 <= i < |p| ==> IsDigit(p[i]); }
    SplitOnce(p, t, ':');
    assert p + ":" + t == p + [':'] + t;
    PrefixedCodeName(p, t);
  }

  /** Behind a digit prefix, a name is a code name iff what follows the ':' starts with
      a code word. */
  lemma PrefixedCodeName(p: string, t: string)
    requires 1 <= |p| <= 3 && (forall i :: 0 <= i < |p| ==> IsDigit(p[i]))
    ensures IsCodeName(p + ":" + t) <==> CodeWordAt(t, 0)
  {
    var n := p + ":" + t;
    var m := |p|;
    assert n[m] == ':';
    assert DigitsThenColon(n, m) by { assert forall i :: 0 <= i < m ==> n[i] == p[i]; }
    assert n[m + 1..] == t[0..];
    assert !CodeWordAt(n, 0) by { DigitNotCodeWord(n); }
    forall k | 1 <= k <= 3 && k != m ensures !DigitsThenColon(n, k) {
      if k < m { assert n[k] == p[k]; } else if k < |n| { assert n[m] == ':' && !IsDigit(':'); }
    }
  }

  /** A name that starts with a digit does not start with a code word. */
  lemma DigitNotCodeWord(n: string)
    requires |n| > 0 && IsDigit(n[0])
    ensures !CodeWordAt(n, 0)
  {
    assert ToLower(n[0..])[0] == LowerChar(n[0]) == n[0];
  }

  /** A name without ':' is filed under "0", lower-cased. */
  lemma UnprefixedSlot(name: string)
    requires ':' !in name
    ensures Slot(name) == ("0", ToLower(name))
    ensures IsCodeName(name) <==> CodeWordAt(name, 0)
  {
    forall k | 1 <= k <= 3 ensures !DigitsThenColon(name, k) {
      if k < |name| { assert name[k] in name; }
    }
  }

  // ------------------------------------------------------------ examples

  /** The dictionary after a sequence of elements. */
  function ElementsUpdate(codes: Codes, els: seq<(Option<string>, Option<string>)>): Codes
    decreases |els|
  {
    if els == [] then codes else ElementsUpdate(ElementUpdate(codes, els[0].0, els[0].1), els[1..])
  }

  /** A lower-case code word is one. */
  lemma CodeWords()
    ensures CodeWordAt("code", 0) && CodeWordAt("parent_code", 0)
    ensures ToLower("code") == "code" && ToLower("parent_code") == "parent_code"
  {
    assert ToLower("code") == "code";
    assert ToLower("parent_code") == "parent_code";
    assert "code"[0..] == "code" && "parent_code"[0..] == "parent_code";
  }

  /** The prefixed example names, written as prefix, ':' and field. */
  lemma PrefixedSpellings()
    ensures "1" + ":" + "code" == "1:code" && "1" + ":" + "CoDe" == "1:CoDe"
    ensures "1" + ":" + "parent_code" == "1:parent_code" && "1" + ":" + "PaReNt_CoDe" == "1:PaReNt_CoDe"
  {
  }

  lemma PrefixedCodeSlot()
    ensures Slot("1:code") == ("1", "code") && IsCodeName("1:code")
  {
    var p, t := "1", "code";
    assert ':' !in t by { assert forall i :: 0 <= i < |t| ==> t[i] != ':'; }
    assert IsDigit(p[0]);
    PrefixedSlot(p, t);
    CodeWords();
    PrefixedSpellings();
  }

  /** "1:code" lands under "1". */
  lemma PrefixedCodeFound()
    ensures ElementUpdate(map[], Some("1:code"), Some("foobar")) == map["1" := map["code" := "foobar"]]
  {
    PrefixedCodeSlot();
  }

  lemma PrefixedMixedCaseSlot()
    ensures Slot("1:CoDe") == ("1", "code") && IsCodeName("1:CoDe")
  {
    var p, t := "1", "CoDe";
    assert ':' !in t by { assert forall i :: 0 <= i < |t| ==> t[i] != ':'; }
    assert IsDigit(p[0]);
    PrefixedSlot(p, t);
    MixedCaseCode();
    PrefixedSpellings();
  }

  lemma MixedCaseCode()
    ensures ToLower("CoDe") == "code" && CodeWordAt("CoDe", 0)
  {
    assert ToLower("CoDe") == "code";
    assert "CoDe"[0..] == "CoDe";
  }

  /** "1:CoDe" is read in any letter case. */
  lemma PrefixedMixedCaseCodeFound()
    ensures ElementUpdate(map[], Some("1:CoDe"), Some("foobar")) == map["1" := map["code" := "foobar"]]
  {
    PrefixedMixedCaseSlot();
  }

  lemma ShortNameSlot()
    ensures !IsCodeName("1:cod")
  {
    var n := "1:cod";
    assert !CodeWordAt(n, 0) by { assert ToLower(n[0..])[0] == '1'; }
    assert !CodeWordAt(n, 2) by { assert |ToLower(n[2..])| == 3; }
    assert n[2] != ':' && n[3] != ':';
  }

  /** "1:cod" is not a code name. */
  lemma ShortNameIgnored()
    ensures ElementUpdate(map[], Some("1:cod"), Some("foobar")) == map[]
  {
    ShortNameSlot();
  }

  /** ":CoDe" has an empty prefix, which the pattern refuses. */
  lemma EmptyPrefixIgnored()
    ensures ElementUpdate(map[], Some(":CoDe"), Some("foobar")) == map[]
  {
    ColonFirstNotCodeName(":CoDe");
  }

  /** A name starting with ':' has neither a code word nor a digit prefix at its start. */
  lemma ColonFirstNotCodeName(n: string)
    requires |n| > 0 && n[0] == ':'
    ensures !IsCodeName(n)
  {
    assert ToLower(n)[0] == ':' && n[0..] == n;
    assert !DigitsThenColon(n, 1) && !DigitsThenColon(n, 2) && !DigitsThenColon(n, 3) by { assert !IsDigit(n[0]); }
  }

  /** "CoDe" without a prefix lands under "0". */
  lemma UnprefixedCodeFound()
    ensures ElementUpdate(map[], Some("CoDe"), Some("foobar")) == map["0" := map["code" := "foobar"]]
  {
    var n := "CoDe";
    assert ':' !in n by { assert forall i :: 0 <= i < |n| ==> n[i] != ':'; }
    UnprefixedSlot(n);
    MixedCaseCode();
  }

  /** "PaReNt_CoDe" without a prefix lands under "0" as "parent_code". */
  lemma UnprefixedParentFound()
    ensures ElementUpdate(map[], Some("PaReNt_CoDe"), Some("foobar")) == map["0" := map["parent_code" := "foobar"]]
  {
    MixedCaseParentSlot();
  }

  lemma ParentSlot()
    ensures Slot("parent_code") == ("0", "parent_code") && IsCodeName("parent_code")
  {
    CodeWords();
    UnprefixedSlot("parent_code");
  }

  lemma MixedCaseParentSlot()
    ensures Slot("PaReNt_CoDe") == ("0", "parent_code") && IsCodeName("PaReNt_CoDe")
  {
    var n := "PaReNt_CoDe";
    assert ':' !in n by { assert forall i :: 0 <= i < |n| ==> n[i] != ':'; }
    UnprefixedSlot(n);
    MixedCaseParent();
  }

  lemma MixedCaseParent()
    ensures ToLower("PaReNt_CoDe") == "parent_code" && CodeWordAt("PaReNt_CoDe", 0)
  {
    assert ToLower("PaReNt_CoDe") == "parent_code";
    assert "PaReNt_CoDe"[0..] == "PaReNt_CoDe";
  }

  lemma PrefixedParentSlot()
    ensures Slot("1:parent_code") == ("1", "parent_code") && IsCodeName("1:parent_code")
  {
    var p, t := "1", "parent_code";
    assert ':' !in t by { assert forall i :: 0 <= i < |t| ==> t[i] != ':'; }
    assert IsDigit(p[0]);
    PrefixedSlot(p, t);
    CodeWords();
    PrefixedSpellings();
  }

  lemma PrefixedMixedCaseParentSlot()
    ensures Slot("1:PaReNt_CoDe") == ("1", "parent_code") && IsCodeName("1:PaReNt_CoDe")
  {
    var p, t := "1", "PaReNt_CoDe";
    assert ':' !in t by { assert forall i :: 0 <= i < |t| ==> t[i] != ':'; }
    assert IsDigit(p[0]);
    PrefixedSlot(p, t);
    MixedCaseParent();
    PrefixedSpellings();
  }

  /** Storing the value a slot already holds changes nothing. */
  lemma StoreAgain(codes: Codes, k: string, f: string, v: string)
    requires k in codes && f in codes[k] && codes[k][f] == v
    ensures Store(codes, k, f, v) == codes
  {
    assert codes[k][f := v] == codes[k];
  }

  /** Storing twice in one slot keeps the second value. */
  lemma StoreOver(codes: Codes, k: string, f: string, v: string, w: string)
    ensures Store(Store(codes, k, f, v), k, f, w) == Store(codes, k, f, w)
  {
    var m := if k in codes then codes[k] else map[];
    assert m[f := v][f := w] == m[f := w];
  }

  /** One element, then the rest. */
  lemma ElementsStep(codes: Codes, x: (Option<string>, Option<string>), rest: seq<(Option<string>, Option<string>)>)
    ensures ElementsUpdate(codes, [x] + rest) == ElementsUpdate(ElementUpdate(codes, x.0, x.1), rest)
  {
    assert ([x] + rest)[1..] == rest;
  }

  /** Later elements overwrite earlier ones in the same slot. */
  lemma DuplicatesOverwritten()
    ensures ElementsUpdate(map[], [
      (Some("parent_code"), Some("foobar")),
      (Some("PaReNt_CoDe"), Some("foobar")),
      (Some("parent_code"), Some("baz")),
      (Some("1:parent_code"), Some("foobar")),
      (Some("1:PaReNt_CoDe"), Some("foobar")),
      (Some("1:parent_code"), Some("baz"))])
      == map["0" := map["parent_code" := "baz"], "1" := map["parent_code" := "baz"]]
  {
    var p, pm, q, qm := Some("parent_code"), Some("PaReNt_CoDe"), Some("1:parent_code"), Some("1:PaReNt_CoDe");
    var foo, baz := Some("foobar"), Some("baz");
    var tail := [(q, foo)] + ([(qm, foo)] + ([(q, baz)] + []));
    assert [(p, foo), (pm, foo), (p, baz), (q, foo), (qm, foo), (q, baz)]
        == [(p, foo)] + ([(pm, foo)] + ([(p, baz)] + tail));
    var b := Store(map[], "0", "parent_code", "baz");
    UnprefixedParentsOverwrite(tail);
    PrefixedParentsOverwrite(b);
    assert Store(b, "1", "parent_code", "baz") == map["0" := map["parent_code" := "baz"], "1" := map["parent_code" := "baz"]];
  }

  /** The three unprefixed parent codes leave the last value under "0". */
  lemma UnprefixedParentsOverwrite(rest: seq<(Option<string>, Option<string>)>)
    ensures var p, foo, baz := Some("parent_code"), Some("foobar"), Some("baz");
      ElementsUpdate(map[], [(p, foo)] + ([(Some("PaReNt_CoDe"), foo)] + ([(p, baz)] + rest)))
      == ElementsUpdate(Store(map[], "0", "parent_code", "baz"), rest)
  {
    var p, pm, foo, baz := Some("parent_code"), Some("PaReNt_CoDe"), Some("foobar"), Some("baz");
    var a := Store(map[], "0", "parent_code", "foobar");
    calc {
      ElementsUpdate(map[], [(p, foo)] + ([(pm, foo)] + ([(p, baz)] + rest)));
      { ParentSlot(); ElementsStep(map[], (p, foo), [(pm, foo)] + ([(p, baz)] + rest)); }
      ElementsUpdate(a, [(pm, foo)] + ([(p, baz)] + rest));
      { MixedCaseParentSlot(); StoreAgain(a, "0", "parent_code", "foobar"); ElementsStep(a, (pm, foo), [(p, baz)] + rest); }
      ElementsUpdate(a, [(p, baz)] + rest);
      { ParentSlot(); StoreOver(map[], "0", "parent_code", "foobar", "baz"); ElementsStep(a, (p, baz), rest); }
      ElementsUpdate(Store(map[], "0", "parent_code", "baz"), rest);
    }
  }

  /** The three parent codes under "1" leave the last value there. */
  lemma PrefixedParentsOverwrite(b: Codes)
    ensures var q, foo, baz := Some("1:parent_code"), Some("foobar"), Some("baz");
      ElementsUpdate(b, [(q, foo)] + ([(Some("1:PaReNt_CoDe"), foo)] + ([(q, baz)] + [])))
      == Store(b, "1", "parent_code", "baz")
  {
    var q, qm, foo, baz := Some("1:parent_code"), Some("1:PaReNt_CoDe"), Some("foobar"), Some("baz");
    var c := Store(b, "1", "parent_code", "foobar");
    calc {
      ElementsUpdate(b, [(q, foo)] + ([(qm, foo)] + ([(q, baz)] + [])));
      { PrefixedParentSlot(); ElementsStep(b, (q, foo), [(qm, foo)] + ([(q, baz)] + [])); }
      ElementsUpdate(c, [(qm, foo)] + ([(q, baz)] + []));
      { PrefixedMixedCaseParentSlot(); StoreAgain(c, "1", "parent_code", "foobar"); ElementsStep(c, (qm, foo), [(q, baz)] + []); }
      ElementsUpdate(c, [(q, baz)] + []);
      { PrefixedParentSlot(); StoreOver(b, "1", "parent_code", "foobar", "baz"); ElementsStep(c, (q, baz), []); }
      ElementsUpdate(Store(b, "1", "parent_code", "baz"), []);
    }
  }
}
