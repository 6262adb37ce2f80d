/** The DOM-oriented revision of the signing engine (src/Signer.js). Elements are
    rewritten through their attributes only; the message that is hashed has no
    separators; codes come from a prefix-keyed dictionary; URLs are signed through the
    platform's URL parser, which is given here as a `UrlApi` value. */
module DomSigner {
  import opened Text
  import opened Primitives
  import S = Signer

  /** A field value as the engine receives it: missing, text, or an integer. */
  datatype Value = Undefined | Str(s: string) | Num(n: int)

  /** How a value reads when it is concatenated into a string. */
  function Render(v: Value): string {
    match v
    case Undefined => "undefined"
    case Str(s) => s
    case Num(n) => IntToString(n)
  }

  /** `__valueOrOpen`: a missing or empty value is open; every other value, 0 included,
      is kept. */
  function ValueOrOpen(v: Value): (r: Value)
    ensures r != Undefined && r != Str("")
    ensures (v == Undefined || v == Str("")) <==> r == Str(S.Open) && v != Str(S.Open)
    ensures v != Undefined && v != Str("") ==> r == v
  {
    if v == Undefined || v == Str("") then Str(S.Open) else v
  }

  /** The value compares equal to the open marker once defaulted. */
  predicate IsOpen(v: Value) {
    ValueOrOpen(v) == Str(S.Open)
  }

  /** Defaulting twice is defaulting once, and the number 0 is a value of its own. */
  lemma ValueOrOpenFacts(v: Value)
    ensures ValueOrOpen(ValueOrOpen(v)) == ValueOrOpen(v)
    ensures Render(ValueOrOpen(v)) != ""
    ensures !IsOpen(Num(0)) && Render(ValueOrOpen(Num(0))) == "0"
  {
    assert [DigitChar(0)] == "0";
  }

  /** `__signProduct`: the hash of code, name and value written one after the other. */
  function SignProduct(h: Host, code: string, name: string, v: Value): string {
    h.sign(code + name + Render(ValueOrOpen(v)))
  }

  /** Without separators the message cannot tell where the code ends and the name starts. */
  lemma SignProductAmbiguous(h: Host, code: string, name: string, code': string, name': string, v: Value)
    requires code + name == code' + name'
    ensures SignProduct(h, code, name, v) == SignProduct(h, code', name', v)
  {
  }

  /** `__buildSignedName`: name, "||", signature, and "||open" for an open value. */
  function BuildSignedName(name: string, signature: string, v: Value): (r: string)
    ensures IsOpen(v) ==> r == name + "||" + signature + "||open"
    ensures !IsOpen(v) ==> r == name + "||" + signature
  {
    name + "||" + signature + (if IsOpen(v) then "||open" else "")
  }

  /** `__buildSignedValue`: value, "||", signature; an open value shows as "||open". */
  function BuildSignedValue(signature: string, v: Value): (r: string)
    ensures IsOpen(v) ==> r == "||open||" + signature
    ensures !IsOpen(v) ==> r == Render(v) + "||" + signature
  {
    (if IsOpen(v) then "||open" else Render(v)) + "||" + signature
  }

  /** `__buildSignedQueryArg`: name, "||", signature, "=", value. */
  function BuildSignedQueryArg(name: string, signature: string, value: string): (r: string)
    ensures '=' in r
  {
    var r := name + "||" + signature + "=" + value;
    assert r[|name| + 2 + |signature|] == '=';
    r
  }

  /** A signed name splits at '|' back into its name and signature. */
  lemma SignedNameParts(name: string, signature: string, v: Value)
    requires '|' !in name && '|' !in signature && !IsOpen(v)
    ensures Split(BuildSignedName(name, signature, v), '|') == [name, "", signature]
  {
    var tail := "" + ['|'] + signature;
    assert BuildSignedName(name, signature, v) == name + ['|'] + tail;
    calc {
      Split(name + ['|'] + tail, '|');
      { SplitFirst(name, tail, '|'); }
      [name] + Split(tail, '|');
      { SplitFirst("", signature, '|'); }
      [name] + ([""] + Split(signature, '|'));
      [name] + ([""] + [signature]);
    }
  }

  /** A signed open name splits at '|' into its name, its signature and "open". */
  lemma SignedOpenNameParts(name: string, signature: string, v: Value)
    requires '|' !in name && '|' !in signature && IsOpen(v)
    ensures Split(BuildSignedName(name, signature, v), '|') == [name, "", signature, "", "open"]
  {
    var o := "open";
    assert '|' !in o;
    var t3 := "|" + o;
    var t2 := signature + ['|'] + t3;
    var t1 := "" + ['|'] + t2;
    assert BuildSignedName(name, signature, v) == name + ['|'] + t1;
    assert t3 == "" + ['|'] + o;
    calc {
      Split(name + ['|'] + t1, '|');
      { SplitFirst(name, t1, '|'); }
      [name] + Split(t1, '|');
      { SplitFirst("", t2, '|'); }
      [name] + ([""] + Split(t2, '|'));
      { SplitFirst(signature, t3, '|'); }
      [name] + ([""] + ([signature] + Split(t3, '|')));
      { SplitFirst("", o, '|'); }
      [name] + ([""] + ([signature] + ([""] + Split(o, '|'))));
      [name] + ([""] + ([signature] + ([""] + [o])));
      [name, "", signature, "", "open"];
    }
  }

  /** The name with every space turned into '_', as `name.replace(/ /g, "_")`. */
  function Underscored(name: string): (r: string)
    ensures |r| == |name| && ' ' !in r
  {
    var r := MapChar(name, ' ', '_');
    assert forall i :: 0 <= i < |r| ==> r[i] != ' ';
    r
  }

  /** `signName`: the encoded name and the product signature of code plus parent code;
      a missing parent code counts as "". */
  function SignName(h: Host, name: string, code: string, parentCode: Option<string>, v: Value): string {
    var n := Underscored(name);
    var parent := if parentCode.Some? then parentCode.value else "";
    BuildSignedName(h.encodeUriComponent(n), SignProduct(h, code + parent, n, v), v)
  }

  /** `signValue`: the value and the product signature of code plus parent code. */
  function SignValue(h: Host, name: string, code: string, parentCode: Option<string>, v: Value): string {
    var n := Underscored(name);
    var parent := if parentCode.Some? then parentCode.value else "";
    BuildSignedValue(SignProduct(h, code + parent, n, v), v)
  }

  /** The signed name: the encoded name with every space turned into '_', and the hash of
      code, parent code, name and value with nothing between them. */
  lemma SignNameShape(h: Host, name: string, code: string, parent: string, v: Value)
    ensures var n := MapChar(name, ' ', '_');
      var hash := h.sign(code + parent + n + Render(ValueOrOpen(v)));
      SignName(h, name, code, Some(parent), v)
      == h.encodeUriComponent(n) + "||" + hash + (if IsOpen(v) then "||open" else "")
    ensures SignName(h, name, code, None, v) == SignName(h, name, code, Some(""), v)
  {
    assert code + "" == code;
  }

  /** The signed value: the value itself, or "||open" for an open value, then the hash. */
  lemma SignValueShape(h: Host, name: string, code: string, parent: string, v: Value)
    ensures var n := MapChar(name, ' ', '_');
      var hash := h.sign(code + parent + n + Render(ValueOrOpen(v)));
      SignValue(h, name, code, Some(parent), v)
      == (if IsOpen(v) then "||open" else Render(v)) + "||" + hash
  {
  }

  /** `__signQueryArg`: spaces become '_' in the name and the code; the encoded name and
      the encoded value (open when missing or empty) have "%20" turned into "+". */
  function SignQueryArg(h: Host, name: string, code: string, v: Value): (r: string)
    ensures '=' in r
  {
    var n := Underscored(name);
    var c := Underscored(code);
    var signature := SignProduct(h, c, n, v);
    var encodedName := ReplaceAll(h.encodeUriComponent(n), "%20", "+");
    var encodedValue := ReplaceAll(h.encodeUriComponent(Render(ValueOrOpen(v))), "%20", "+");
    BuildSignedQueryArg(encodedName, signature, encodedValue)
  }

  /** An open query value is emitted as the encoded open marker. */
  lemma OpenQueryArg(h: Host, name: string, code: string, v: Value)
    requires v == Undefined || v == Str("")
    ensures var n := MapChar(name, ' ', '_');
      SignQueryArg(h, name, code, v)
      == ReplaceAll(h.encodeUriComponent(n), "%20", "+") + "||"
         + h.sign(MapChar(code, ' ', '_') + n + S.Open) + "="
         + ReplaceAll(h.encodeUriComponent(S.Open), "%20", "+")
  {
  }

  // ------------------------------------------------------------- prefixes

  /** A JavaScript number as `parseInt` produces it. */
  datatype JsNumber = NaN | Int(i: int)

  /** The dictionary key a number becomes, `String(n)`. */
  function KeyOf(n: JsNumber): string {
    match n
    case NaN => "NaN"
    case Int(i) => IntToString(i)
  }

  /** The white space `parseInt` skips: the ECMAScript white space and line terminators. */
  predicate IsJsSpace(c: char) {
    c == ' ' || c == '\t' || c == '\n' || c == '\r' || c == '\U{000B}' || c == '\U{000C}'
    || c == '\U{00A0}' || c == '\U{FEFF}' || c == '\U{1680}' || ('\U{2000}' <= c <= '\U{200A}')
    || c == '\U{2028}' || c == '\U{2029}' || c == '\U{202F}' || c == '\U{205F}' || c == '\U{3000}'
  }

  function TrimStart(s: string): (r: string)
    ensures |r| <= |s| && (r == [] || !IsJsSpace(r[0]))
    decreases |s|
  {
    if |s| > 0 && IsJsSpace(s[0]) then TrimStart(s[1..]) else s
  }

  /** The longest prefix of decimal digits. */
  function LeadingDigits(s: string): (r: string)
    ensures |r| <= |s| && r == s[..|r|] && forall i :: 0 <= i < |r| ==> IsDigit(r[i])
    decreases |s|
  {
    if |s| > 0 && IsDigit(s[0]) then [s[0]] + LeadingDigits(s[1..]) else []
  }

  /** The number a run of decimal digits denotes. */
  function DigitsValue(d: string): nat
    requires forall i :: 0 <= i < |d| ==> IsDigit(d[i])
    decreases |d|
  {
    if d == [] then 0
    else
      assert IsDigit(d[|d| - 1]);
      DigitsValue(d[..|d| - 1]) * 10 + (d[|d| - 1] as int - '0' as int)
  }

  /** `parseInt(s, 10)` on integers: leading white space, an optional sign, then the
      longest run of digits; NaN when there is none. */
  function ParseInt(s: string): JsNumber {
    var t := TrimStart(s);
    var negative := |t| > 0 && t[0] == '-';
    var u := if |t| > 0 && (t[0] == '-' || t[0] == '+') then t[1..] else t;
    var d := LeadingDigits(u);
    if d == [] then NaN
    else
      var magnitude: int := DigitsValue(d);
      Int(if negative then -magnitude else magnitude)
  }

  lemma {:induction false} DigitsOfNat(n: nat)
    ensures LeadingDigits(NatToString(n)) == NatToString(n)
    ensures DigitsValue(NatToString(n)) == n
    decreases n
  {
    var d := NatToString(n);
    AllDigitsLead(d);
    if n >= 10 {
      DigitsOfNat(n / 10);
      assert d[..|d| - 1] == NatToString(n / 10);
    }
  }

  lemma {:induction false} AllDigitsLead(d: string)
    requires forall i :: 0 <= i < |d| ==> IsDigit(d[i])
    ensures LeadingDigits(d) == d
    decreases |d|
  {
    if d != [] {
      AllDigitsLead(d[1..]);
      assert d == [d[0]] + d[1..];
    }
  }

  /** `parseInt` reads back what `String` writes for a natural number. */
  lemma ParseIntOfNat(n: nat)
    ensures ParseInt(NatToString(n)) == Int(n)
    ensures KeyOf(ParseInt(NatToString(n))) == NatToString(n)
  {
    DigitsOfNat(n);
    var d := NatToString(n);
    assert !IsJsSpace(d[0]) && d[0] != '-' && d[0] != '+' by { assert IsDigit(d[0]); }
  }

  /** `__splitNamePrefix`: with exactly one ':' the number before it and the text after
      it; otherwise 0 and the whole name. */
  function SplitNamePrefix(name: string): (JsNumber, string) {
    var parts := Split(name, ':');
    if |parts| == 2 then (ParseInt(parts[0]), parts[1]) else (Int(0), name)
  }

  /** A canonical numeric prefix is read back as its key; a name without ':' has prefix 0. */
  lemma SplitNamePrefixFacts(n: nat, t: string, name: string)
    requires ':' !in t
    ensures SplitNamePrefix(NatToString(n) + ":" + t) == (Int(n), t)
    ensures KeyOf(SplitNamePrefix(NatToString(n) + ":" + t).0) == NatToString(n)
    ensures ':' !in name ==> SplitNamePrefix(name) == (Int(0), name) && KeyOf(Int(0)) == "0"
  {
    var p := NatToString(n);
    assert ':' !in p by { assert forall i :: 0 <= i < |p| ==> IsDigit(p[i]); }
    SplitOnce(p, t, ':');
    assert p + ":" + t == p + [':'] + t;
    ParseIntOfNat(n);
    assert NatToString(0) == "0";
  }

  /** A prefix written with a leading zero is looked up without it. */
  lemma LeadingZeroDropped()
    ensures KeyOf(SplitNamePrefix("01:size").0) == "1"
  {
    var p, t := "01", "size";
    assert ':' !in p && ':' !in t by {
      assert forall i :: 0 <= i < |p| ==> p[i] != ':';
      assert forall i :: 0 <= i < |t| ==> t[i] != ':';
    }
    SplitPrefixed(p, t);
    ParseLeadingZero();
    assert NatToString(1) == "1";
    assert p + ":" + t == "01:size" by { ZeroPrefixedSpelling(); }
  }

  /** A name with exactly one ':' splits into the number before it and the text after it. */
  lemma SplitPrefixed(p: string, t: string)
    requires ':' !in p && ':' !in t
    ensures SplitNamePrefix(p + ":" + t) == (ParseInt(p), t)
  {
    SplitOnce(p, t, ':');
    assert p + ":" + t == p + [':'] + t;
  }

  lemma ZeroPrefixedSpelling()
    ensures "01" + ":" + "size" == "01:size"
  {
  }

  lemma ParseLeadingZero()
    ensures ParseInt("01") == Int(1)
  {
    var d := "01";
    assert TrimStart(d) == d;
    assert LeadingDigits(d) == d by { AllDigitsLead(d); }
    assert DigitsValue(d) == 1 by { assert d[..1] == "0" && "0"[..0] == ""; }
  }

  // ------------------------------------------------------------------ URLs

  predicate IsHexDigit(c: char) {
    IsDigit(c) || ('a' <= c <= 'f') || ('A' <= c <= 'F')
  }

  /** "||" and 64 hexadecimal digits at k, with no line break before k. */
  predicate SignedAt(s: string, k: nat) {
    k + 66 <= |s| && s[k] == '|' && s[k + 1] == '|'
    && (forall j :: k + 2 <= j < k + 66 ==> IsHexDigit(s[j]))
    && (forall j :: 0 <= j < k ==> !IsLineTerminator(s[j]))
  }

  /** `__isSigned`: `/^.*\|\|[0-9a-fA-F]{64}/` finds a match. */
  predicate IsSigned(s: string) {
    exists k: nat :: k <= |s| && SignedAt(s, k)
  }

  /** Appending to a signed string keeps it signed. */
  lemma SignedStaysSigned(s: string, t: string)
    requires IsSigned(s)
    ensures IsSigned(s + t)
  {
    var k: nat :| k <= |s| && SignedAt(s, k);
    assert SignedAt(s + t, k);
  }

  /** `__getCodeFromURL`: the value of the first parameter named "code". */
  function GetCodeFromUrl(params: seq<(string, string)>): (r: Option<string>)
    ensures r.None? <==> forall i :: 0 <= i < |params| ==> params[i].0 != "code"
    ensures r.Some? ==> exists i :: 0 <= i < |params| && params[i] == ("code", r.value)
                                    && forall j :: 0 <= j < i ==> params[j].0 != "code"
    decreases |params|
  {
    if params == [] then None
    else if params[0].0 == "code" then Some(params[0].1)
    else
      var r := GetCodeFromUrl(params[1..]);
      assert forall i :: 1 <= i < |params| ==> params[i] == params[1..][i - 1];
      if r.Some? then
        ghost var i :| 0 <= i < |params[1..]| && params[1..][i] == ("code", r.value)
                       && forall j :: 0 <= j < i ==> params[1..][j].0 != "code";
        assert params[i + 1] == ("code", r.value);
        r
      else r
  }

  /** `__replaceUrlCharacters`: every "%7C", then every "%3D", then every "%2B" is
      written back as '|', '=' and '+'. */
  function ReplaceUrlCharacters(s: string): string {
    ReplaceAll(ReplaceAll(ReplaceAll(s, "%7C", "|"), "%3D", "="), "%2B", "+")
  }

  /** Text without '%' is left as it is. */
  lemma UrlCharactersPlain(s: string)
    requires '%' !in s
    ensures ReplaceUrlCharacters(s) == s
  {
    ReplaceAllSkip(s, [], "%7C", "|");
    ReplaceAllSkip(s, [], "%3D", "=");
    ReplaceAllSkip(s, [], "%2B", "+");
    assert s + [] == s;
    assert ReplaceAll([], "%7C", "|") == [] && ReplaceAll([], "%3D", "=") == [] && ReplaceAll([], "%2B", "+") == [];
  }

  /** An encoded '|' after text without '%' becomes '|'. */
  lemma UrlCharactersPipe(a: string, b: string)
    requires '%' !in a
    ensures ReplaceUrlCharacters(a + "%7C" + b)
            == a + "|" + ReplaceAll(ReplaceAll(ReplaceAll(b, "%7C", "|"), "%3D", "="), "%2B", "+")
  {
    var b1 := ReplaceAll(b, "%7C", "|");
    var b2 := ReplaceAll(b1, "%3D", "=");
    var a' := a + "|";
    assert '%' !in a' by { assert forall i :: 0 <= i < |a'| ==> a'[i] != '%' by { assert forall i :: 0 <= i < |a| ==> a[i] == a'[i]; } }
    calc {
      ReplaceAll(a + "%7C" + b, "%7C", "|");
      { assert a + "%7C" + b == a + ("%7C" + b); ReplaceAllSkip(a, "%7C" + b, "%7C", "|"); }
      a + ReplaceAll("%7C" + b, "%7C", "|");
      { ReplaceAllHit(b, "%7C", "|"); }
      a + ("|" + b1);
      a' + b1;
    }
    ReplaceAllSkip(a', b1, "%3D", "=");
    ReplaceAllSkip(a', b2, "%2B", "+");
  }

  /** URLSearchParams `set`: the first pair with the name takes the value and the other
      pairs with that name are removed; a new name is appended. */
  function ParamsSet(ps: seq<(string, string)>, k: string, v: string): seq<(string, string)>
    decreases |ps|
  {
    if ps == [] then [(k, v)]
    else if ps[0].0 == k then [(k, v)] + Without(ps[1..], k)
    else [ps[0]] + ParamsSet(ps[1..], k, v)
  }

  /** After `set` the name holds exactly the new value, and every other pair is kept. */
  lemma {:induction false} ParamsSetFacts(ps: seq<(string, string)>, k: string, v: string)
    ensures (k, v) in ParamsSet(ps, k, v)
    ensures forall p :: p in ParamsSet(ps, k, v) && p.0 == k ==> p.1 == v
    ensures forall p :: p in ps && p.0 != k ==> p in ParamsSet(ps, k, v)
    ensures forall p :: p in ParamsSet(ps, k, v) && p.0 != k ==> p in ps
    decreases |ps|
  {
    if ps != [] && ps[0].0 != k {
      ParamsSetFacts(ps[1..], k, v);
      assert forall p :: p in ps ==> p == ps[0] || p in ps[1..];
    }
  }

  /** The pairs not named k, in order. */
  function Without(ps: seq<(string, string)>, k: string): (r: seq<(string, string)>)
    ensures forall p :: p in r <==> p in ps && p.0 != k
    decreases |ps|
  {
    if ps == [] then [] else (if ps[0].0 == k then [] else [ps[0]]) + Without(ps[1..], k)
  }

  /** The platform's URL parser. */
  datatype UrlApi = UrlApi(
    /** `new URL(s)` and its search parameters, decoded; None when the constructor throws. */
    parse: string -> Option<seq<(string, string)>>,
    /** `new URL(url.origin)` does not throw for the URL parsed from s. */
    originParses: string -> bool,
    /** `URLSearchParams.toString()`. */
    serialize: seq<(string, string)> -> string,
    /** The URL parsed from s with its search replaced by q, as text. */
    withSearch: (string, string) -> string)

  /** One parameter signed and split at '=': the first piece is the new name, the second
      the new value. */
  function ParamSigned(h: Host, code: string, p: (string, string)): (r: (string, string)) {
    var pieces := Split(SignQueryArg(h, h.decodeUriComponent(p.0), h.decodeUriComponent(code),
                                     Str(h.decodeUriComponent(p.1))), '=');
    (pieces[0], pieces[1])
  }

  /** A signed argument whose parts hold no '=' splits back into name and value. */
  lemma QueryArgSplits(name: string, signature: string, value: string)
    requires '=' !in name + "||" + signature && '=' !in value
    ensures Split(BuildSignedQueryArg(name, signature, value), '=') == [name + "||" + signature, value]
  {
    SplitOnce(name + "||" + signature, value, '=');
    assert BuildSignedQueryArg(name, signature, value) == (name + "||" + signature) + ['='] + value;
  }

  /** A signature that ends in Base64 padding '=' cuts the argument early: the value that
      reaches the new parameter is "". */
  lemma PaddedSignatureDropsValue(name: string, sig: string, value: string)
    requires '=' !in name + "||" + sig && '=' !in value
    ensures Split(BuildSignedQueryArg(name, sig + "=", value), '=') == [name + "||" + sig, "", value]
  {
    var head := name + "||" + sig;
    assert BuildSignedQueryArg(name, sig + "=", value) == head + ['='] + ("" + ['='] + value);
    SplitFirst(head, "" + ['='] + value, '=');
    SplitOnce("", value, '=');
  }

  function ParamsSigned(h: Host, code: string, params: seq<(string, string)>, acc: seq<(string, string)>): seq<(string, string)>
    decreases |params|
  {
    if params == [] then acc
    else ParamsSigned(h, code, params[1..], ParamsSet(acc, ParamSigned(h, code, params[0]).0, ParamSigned(h, code, params[0]).1))
  }

  /** One step of the parameter loop. */
  lemma ParamsSignedStep(h: Host, code: string, params: seq<(string, string)>, i: nat, acc: seq<(string, string)>)
    requires i < |params|
    ensures var signed := ParamSigned(h, code, params[i]);
      ParamsSigned(h, code, params[i..], acc) == ParamsSigned(h, code, params[i + 1..], ParamsSet(acc, signed.0, signed.1))
  {
    assert params[i..][1..] == params[i + 1..];
  }

  /** What `signUrl` returns: a signed URL, a URL that does not parse, and a URL without a
      non-empty code are returned as they are. */
  function SignedUrl(h: Host, u: UrlApi, urlStr: string): string {
    if IsSigned(urlStr) then urlStr
    else
      var parsed := u.parse(urlStr);
      if parsed.None? || !u.originParses(urlStr) then urlStr
      else
        var code := GetCodeFromUrl(parsed.value);
        if code.None? || code.value == "" then urlStr
        else ReplaceUrlCharacters(u.withSearch(urlStr, u.serialize(ParamsSigned(h, code.value, parsed.value, []))))
  }

  /** The guards of `signUrl`. */
  lemma SignedUrlGuards(h: Host, u: UrlApi, urlStr: string)
    requires IsSigned(urlStr) || u.parse(urlStr).None? || !u.originParses(urlStr)
             || (forall i :: 0 <= i < |u.parse(urlStr).value| ==> u.parse(urlStr).value[i].0 != "code")
             || GetCodeFromUrl(u.parse(urlStr).value) == Some("")
    ensures SignedUrl(h, u, urlStr) == urlStr
  {
  }

  // -------------------------------------------------------------- elements

  /** An element as the engine sees it: its attributes, which it rewrites, and the
      properties it reads. */
  class Element {
    var attributes: map<string, string>
    /** The `value` property. */
    const value: Value
    /** The `name` property; None for an element without one (an `<option>`). */
    const name: Option<string>
    /** The `name` property of the parent element; None when there is no parent or it
        has no such property. */
    const parentName: Option<string>

    constructor(attributes: map<string, string>, value: Value, name: Option<string>, parentName: Option<string>)
      ensures this.attributes == attributes && this.value == value
      ensures this.name == name && this.parentName == parentName
    {
      this.attributes := attributes;
      this.value := value;
      this.name := name;
      this.parentName := parentName;
    }
  }

  /** The codes per prefix: "code" and "parent" of each. */
  type Codes = map<string, map<string, string>>

  class Signer {
    const host: Host
    const codes: Codes

    constructor(host: Host, codes: Codes)
      ensures this.host == host && this.codes == codes
    {
      this.host := host;
      this.codes := codes;
    }

    /** The code of a prefix, when it has a non-empty one. */
    function CodeOf(key: string): (r: Option<string>)
      ensures r.Some? <==> key in codes && "code" in codes[key] && codes[key]["code"] != ""
      ensures r.Some? ==> r.value == codes[key]["code"]
    {
      if key in codes && "code" in codes[key] && codes[key]["code"] != "" then Some(codes[key]["code"]) else None
    }

    /** The parent code of a prefix, when there is one. */
    function ParentOf(key: string): Option<string> {
      if key in codes && "parent" in codes[key] then Some(codes[key]["parent"]) else None
    }

    /** The attributes after `signInput`: only "name" changes, to the prefix, ':' and the
        signed name, and only for a non-empty name whose prefix has a code. */
    function InputAttributes(attrs: map<string, string>, v: Value): (r: map<string, string>)
      ensures forall k :: k != "name" ==> (k in r <==> k in attrs) && (k in attrs ==> r[k] == attrs[k])
      ensures r != attrs ==> "name" in attrs && attrs["name"] != ""
                             && CodeOf(KeyOf(SplitNamePrefix(attrs["name"]).0)).Some?
    {
      var name := if "name" in attrs then attrs["name"] else "";
      if name == "" then attrs
      else
        var (prefix, nameString) := SplitNamePrefix(name);
        var key := KeyOf(prefix);
        var code := CodeOf(key);
        if code.None? then attrs
        else attrs["name" := key + ":" + SignName(host, nameString, code.value, ParentOf(key), v)]
    }

    /** `signInput`. */
    method SignInput(el: Element)
      modifies el
      ensures el.attributes == InputAttributes(old(el.attributes), el.value)
    {
      var name := if "name" in el.attributes then el.attributes["name"] else "";
      if name == "" {
        return;
      }
      var namePrefix := SplitNamePrefix(name);
      var nameString := namePrefix.1;
      var prefix := KeyOf(namePrefix.0);
      var code := CodeOf(prefix);
      if code.None? {
        return;
      }
      var parentCode := ParentOf(prefix);
      var signedName := SignName(host, nameString, code.value, parentCode, el.value);
      el.attributes := el.attributes["name" := prefix + ":" + signedName];
    }

    /** A canonical prefix with a code gets its name signed under that prefix. */
    lemma InputNameSigned(attrs: map<string, string>, v: Value, n: nat, t: string)
      requires ':' !in t && "name" in attrs && attrs["name"] == NatToString(n) + ":" + t
      requires CodeOf(NatToString(n)).Some?
      ensures InputAttributes(attrs, v)["name"]
              == NatToString(n) + ":" + SignName(host, t, CodeOf(NatToString(n)).value, ParentOf(NatToString(n)), v)
    {
      SplitNamePrefixFacts(n, t, "");
    }

    /** The name the option is signed under: its own, else its parent's; None when
        neither exists, where the engine throws. */
    function OptionName(el: Element): Option<string>
      reads el
    {
      if el.name.Some? then el.name else el.parentName
    }

    /** The attributes after `signOption`: only "value" changes, to the prefix, ':' and the
        signed value, and only when the name's prefix has a code. */
    function OptionAttributes(n: string, attrs: map<string, string>, v: Value): (r: map<string, string>)
      ensures forall k :: k != "value" ==> (k in r <==> k in attrs) && (k in attrs ==> r[k] == attrs[k])
      ensures r != attrs ==> CodeOf(KeyOf(SplitNamePrefix(n).0)).Some?
    {
      var (prefix, nameString) := SplitNamePrefix(n);
      var key := KeyOf(prefix);
      var code := CodeOf(key);
      if code.None? then attrs
      else attrs["value" := key + ":" + SignValue(host, nameString, code.value, ParentOf(key), v)]
    }

    /** `signOption`: `thrown` when no name can be found; the element is then unchanged. */
    method SignOption(el: Element) returns (thrown: bool)
      modifies el
      ensures thrown <==> OptionName(el).None?
      ensures thrown ==> el.attributes == old(el.attributes)
      ensures !thrown ==> el.attributes == OptionAttributes(OptionName(el).value, old(el.attributes), el.value)
    {
      var n := el.name;
      if n.None? {
        n := el.parentName;
      }
      if n.None? {
        return true;
      }
      var namePrefix := SplitNamePrefix(n.value);
      var nameString := namePrefix.1;
      var prefix := KeyOf(namePrefix.0);
      var code := CodeOf(prefix);
      if code.None? {
        return false;
      }
      var parentCode := ParentOf(prefix);
      var signedValue := SignValue(host, nameString, code.value, parentCode, el.value);
      el.attributes := el.attributes["value" := prefix + ":" + signedValue];
      return false;
    }

    /** The parameter loop of `signUrl`: each parameter is signed, split at '=' and set
        on a fresh parameter list. */
    method SignParams(code: string, originalParams: seq<(string, string)>) returns (newParams: seq<(string, string)>)
      ensures newParams == ParamsSigned(host, code, originalParams, [])
    {
      newParams := [];
      for i := 0 to |originalParams|
        invariant ParamsSigned(host, code, originalParams[i..], newParams)
                  == ParamsSigned(host, code, originalParams, [])
      {
        var p := originalParams[i];
        var signed := Split(SignQueryArg(host, host.decodeUriComponent(p.0), host.decodeUriComponent(code),
                                         Str(host.decodeUriComponent(p.1))), '=');
        assert (signed[0], signed[1]) == ParamSigned(host, code, p);
        ParamsSignedStep(host, code, originalParams, i, newParams);
        newParams := ParamsSet(newParams, signed[0], signed[1]);
      }
    }

    /** `signUrl`. */
    method SignUrl(u: UrlApi, urlStr: string) returns (r: string)
      ensures r == SignedUrl(host, u, urlStr)
    {
      if IsSigned(urlStr) {
        return urlStr;
      }
      var parsed := u.parse(urlStr);
      if parsed.None? || !u.originParses(urlStr) {
        return urlStr;
      }
      var originalParams := parsed.value;
      var code := GetCodeFromUrl(originalParams);
      if code.None? || code.value == "" {
        return urlStr;
      }
      var newParams := SignParams(code.value, originalParams);
      r := ReplaceUrlCharacters(u.withSearch(urlStr, u.serialize(newParams)));
    }
  }
}
