/** The form half of the current signing engine (src/Signer.ts): the product codes of a
    form, the rewriting of single `<input>` tags and of the options of `<select>` lists,
    and the orchestration over the cart links and cart forms of a document.

    The global patterns that cut whole elements out of a document (forms, cart anchors,
    code elements, prefixed inputs, selects and their options) are given as span finders
    in a `Markup` value; the small single-tag patterns that the engine then runs on one
    tag (`name=…`, `value=…`, `type=…` and the replacement patterns) are scanned here. */
module SignerForms {
  import opened Text
  import opened Scan
  import opened Primitives
  import opened Excludes
  import opened Signer

  /** A match of `<[^>]*?name=['"](?<prefix>[0-9]{1,3}:)?code['"][^>]*?>`: the element
      text and the prefix group, None when it did not take part. */
  datatype CodeTag = CodeTag(matched: string, prefix: Option<string>)

  /** A product as `__getFormCodes` completes it. */
  datatype Product = Product(matched: string, prefix: string, code: string, parentCode: string)

  /** A cart anchor: the text of the href before the cart path, the text after it, and
      the whole matched tag. */
  datatype Anchor = Anchor(domain: string, query: string, matched: string)

  /** A `<select>` whose name starts with a given prefix: the rest of its name, its
      children and the whole matched element. */
  datatype SelectTag = SelectTag(name: string, children: string, matched: string)

  /** An `<option … value=…>…</option>`: the opening quote, the value and the whole match. */
  datatype OptionTag = OptionTag(quote: string, value: string, matched: string)

  /** The span finders, each returning its matches in document order. */
  datatype Markup = Markup(
    /** The cart forms of a document, given the cart path. */
    forms: (string, string) -> seq<string>,
    /** The cart anchors of a document, given the cart path. */
    anchors: (string, string) -> seq<Anchor>,
    /** The leftmost match of the href pattern that `signHtml` builds from an anchor. */
    hrefSpan: (string, Anchor) -> Option<(nat, nat)>,
    /** The code elements of a form. */
    codeTags: string -> seq<CodeTag>,
    /** The `<input>` tags of a form whose name starts with a prefix pattern. */
    inputs: (string, string) -> seq<string>,
    /** The selects of a form whose name starts with a prefix pattern. */
    selects: (string, string) -> seq<SelectTag>,
    /** The options among the children of a select. */
    options: string -> seq<OptionTag>,
    /** The textarea step of `signForm` for one product. */
    textAreas: (string, Product) -> string,
    /** The `<button>` rewrite at the end of `signForm`. */
    button: string -> string)

  // ------------------------------------------------------------ form codes

  /** An input that `__getParentCodeFromInputs` takes its value from: it mentions
      `parent_code` and has a `value=` attribute (in any letter case). */
  predicate CarriesParent(input: string) {
    Contains(input, "parent_code") && FindAttr(input, "value=", true).Some?
  }

  function ParentCodeOf(inputs: seq<string>): string
    decreases |inputs|
  {
    if inputs == [] then ""
    else if CarriesParent(inputs[0]) then FindAttr(inputs[0], "value=", true).value
    else ParentCodeOf(inputs[1..])
  }

  /** The parent code is the value of the first input that carries one, or "" when none
      does. */
  lemma {:induction false} ParentCodeIsFirst(inputs: seq<string>)
    ensures (forall i :: 0 <= i < |inputs| ==> !CarriesParent(inputs[i])) ==> ParentCodeOf(inputs) == ""
    ensures forall i :: 0 <= i < |inputs| && CarriesParent(inputs[i])
                        && (forall j :: 0 <= j < i ==> !CarriesParent(inputs[j]))
                        ==> ParentCodeOf(inputs) == FindAttr(inputs[i], "value=", true).value
  {
    forall i | 0 <= i < |inputs| && CarriesParent(inputs[i]) && (forall j :: 0 <= j < i ==> !CarriesParent(inputs[j]))
      ensures ParentCodeOf(inputs) == FindAttr(inputs[i], "value=", true).value
    {
      ParentCodeAt(inputs, i);
    }
    if forall i :: 0 <= i < |inputs| ==> !CarriesParent(inputs[i]) {
      ParentCodeNone(inputs);
    }
  }

  lemma {:induction false} ParentCodeAt(inputs: seq<string>, i: nat)
    requires i < |inputs| && CarriesParent(inputs[i])
    requires forall j :: 0 <= j < i ==> !CarriesParent(inputs[j])
    ensures ParentCodeOf(inputs) == FindAttr(inputs[i], "value=", true).value
    decreases i
  {
    if i > 0 {
      assert !CarriesParent(inputs[0]);
      assert inputs[1..][i - 1] == inputs[i];
      forall j | 0 <= j < i - 1 ensures !CarriesParent(inputs[1..][j]) { assert inputs[1..][j] == inputs[j + 1]; }
      ParentCodeAt(inputs[1..], i - 1);
    }
  }

  lemma {:induction false} ParentCodeNone(inputs: seq<string>)
    requires forall i :: 0 <= i < |inputs| ==> !CarriesParent(inputs[i])
    ensures ParentCodeOf(inputs) == ""
    decreases |inputs|
  {
    if inputs != [] {
      assert !CarriesParent(inputs[0]);
      forall i | 0 <= i < |inputs| - 1 ensures !CarriesParent(inputs[1..][i]) { assert inputs[1..][i] == inputs[i + 1]; }
      ParentCodeNone(inputs[1..]);
    }
  }

  /** `__getParentCodeFromInputs`. */
  method GetParentCodeFromInputs(inputs: seq<string>) returns (r: string)
    ensures r == ParentCodeOf(inputs)
  {
    for i := 0 to |inputs|
      invariant ParentCodeOf(inputs[i..]) == ParentCodeOf(inputs)
    {
      assert inputs[i..][1..] == inputs[i + 1..];
      if Contains(inputs[i], "parent_code") {
        var m := FindAttr(inputs[i], "value=", true);
        if m.Some? {
          return m.value;
        }
      }
    }
    return "";
  }

  /** `__getInputsWithPrefix`: the prefix pattern is built twice, which is building it once. */
  function InputsWithPrefix(m: Markup, form: string, prefix: string): seq<string> {
    m.inputs(form, PrefixRegex(PrefixRegex(prefix)))
  }

  /** The code of a code element: the greedy `value="…"` capture, or "" when there is
      none. */
  function CodeValue(tag: string): (r: string)
    ensures r == "" <==> FindGreedyAttr(tag, "value=").None?
  {
    var v := FindGreedyAttr(tag, "value=");
    if v.Some? then v.value else ""
  }

  /** One code element completed: a missing prefix becomes "0:" and the parent code
      comes from the inputs with that prefix. */
  function FormProduct(m: Markup, form: string, tag: CodeTag): Product {
    var prefix := if tag.prefix.Some? then tag.prefix.value else "0:";
    Product(tag.matched, prefix, CodeValue(tag.matched), ParentCodeOf(InputsWithPrefix(m, form, prefix)))
  }

  /** The code is empty exactly when the element has no quoted, non-empty value. */
  lemma FormProductCodeEmpty(m: Markup, form: string, tag: CodeTag)
    ensures FormProduct(m, form, tag).code == "" <==> FindGreedyAttr(tag.matched, "value=").None?
    ensures FormProduct(m, form, tag).prefix == "0:" <==> tag.prefix.None? || tag.prefix == Some("0:")
  {
  }

  /** `__getFormCodes`: every code element, in order, completed as a product. */
  method GetFormCodes(m: Markup, form: string) returns (products: seq<Product>)
    ensures |products| == |m.codeTags(form)|
    ensures forall i :: 0 <= i < |products| ==> products[i] == FormProduct(m, form, m.codeTags(form)[i])
  {
    var tags := m.codeTags(form);
    products := [];
    for i := 0 to |tags|
      invariant |products| == i
      invariant forall j :: 0 <= j < i ==> products[j] == FormProduct(m, form, tags[j])
    {
      var tag := tags[i];
      var prefix := if tag.prefix.Some? then tag.prefix.value else "0:";
      var parent := GetParentCodeFromInputs(InputsWithPrefix(m, form, prefix));
      products := products + [Product(tag.matched, prefix, CodeValue(tag.matched), parent)];
    }
  }

  function FormProducts(m: Markup, form: string): (r: seq<Product>)
    ensures |r| == |m.codeTags(form)|
  {
    seq(|m.codeTags(form)|, i requires 0 <= i < |m.codeTags(form)| => FormProduct(m, form, m.codeTags(form)[i]))
  }

  // ---------------------------------------------------------- one <input>

  /** The alternatives the prefix pattern tries in order: "(0:)?" is "0:" or nothing. */
  function PrefixAlternatives(prefixRe: string): (r: seq<string>)
    ensures prefixRe == "(0:)?" ==> r == ["0:", ""]
    ensures prefixRe != "(0:)?" ==> r == [prefixRe]
  {
    if prefixRe == "(0:)?" then ["0:", ""] else [prefixRe]
  }

  /** After the opening quote at j: the first alternative of the prefix (in any letter
      case) that is not followed by a digit and is followed by a non-empty name and a quote. */
  function NameAfter(t: string, alts: seq<string>, j: nat): (r: Option<string>)
    ensures r.Some? ==> |r.value| >= 1
    decreases |alts|
  {
    if alts == [] then None
    else
      var k := j + |alts[0]|;
      if k <= |t| && ToLower(t[j..k]) == ToLower(alts[0]) && !(k < |t| && IsDigit(t[k]))
         && LazyQuotedNonEmpty(t, k).Some?
      then LazyQuotedNonEmpty(t, k)
      else NameAfter(t, alts[1..], j)
  }

  /** `name=['"]` + prefix + `(?![0-9]{1,3})(?<name>.+?)['"]` at i, under the `i` flag. */
  function InputNameAt(t: string, prefixRe: string, i: nat): (r: Option<string>)
    ensures r.Some? ==> |r.value| >= 1
  {
    if OccursAtFolded(t, "name=", i) && i + 5 < |t| && IsQuote(t[i + 5])
    then NameAfter(t, PrefixAlternatives(prefixRe), i + 6)
    else None
  }

  /** The name group of the first match of the input-name pattern. */
  function FindInputName(t: string, prefixRe: string): (r: Option<string>)
    ensures r.Some? ==> |r.value| >= 1 && exists i :: InputNameAt(t, prefixRe, i) == r
    ensures r.None? ==> forall i :: 0 <= i <= |t| ==> InputNameAt(t, prefixRe, i).None?
  {
    var at := (i: nat) => InputNameAt(t, prefixRe, i);
    match Leftmost(at, 0, |t|)
    case Some((_, v)) => Some(v)
    case None =>
      assert forall i: nat :: i <= |t| ==> InputNameAt(t, prefixRe, i).None? by {
        forall i: nat | i <= |t| ensures InputNameAt(t, prefixRe, i).None? { assert at(i).None?; }
      }
      None
  }

  /** The value that is signed: the first `value="…"` (case-sensitive), with a missing
      or empty one read as open. */
  function InputValue(input: string): (v: string)
    ensures v != ""
    ensures FindAttr(input, "value=", false).None? ==> v == Open
    ensures FindAttr(input, "value=", false).Some? ==>
      v == if FindAttr(input, "value=", false).value == "" then Open else FindAttr(input, "value=", false).value
  {
    var m := FindAttr(input, "value=", false);
    if m.None? || m.value == "" then Open else m.value
  }

  /** The first `type="…"` (case-sensitive) says "radio". */
  predicate IsRadio(input: string) {
    FindAttr(input, "type=", false) == Some("radio")
  }

  /** `__getSignedInput`, with the exclusion test as a parameter (the two revisions of
      the engine differ in it). An input whose name does not match the prefix, or whose
      prefix pattern and name are excluded, comes back unchanged. A radio input has the
      first quoted occurrence of its value replaced by the double-quoted signed value;
      any other input has its `name` attribute replaced by `name="` + prefix + signed
      name + `"`. */
  function SignedInput(h: Host, skip: string -> bool, input: string, code: Product): (r: string)
  {
    var prefix := PrefixRegex(code.prefix);
    match FindInputName(input, prefix)
    case None => input
    case Some(name) =>
      if skip(prefix + name) then input
      else if IsRadio(input) then RevaluedInput(h, input, code, name)
      else RenamedInput(h, input, code, name)
  }

  /** The radio branch of `__getSignedInput`. */
  function RevaluedInput(h: Host, input: string, code: Product, name: string): string {
    var value := InputValue(input);
    ReplaceSpan(input, FindQuoted(input, "", [""], value),
                "\"" + JsStr(SignName(h, code.code + code.parentCode, name, value, "value", false)) + "\"")
  }

  /** The name branch of `__getSignedInput`. */
  function RenamedInput(h: Host, input: string, code: Product, name: string): string {
    ReplaceSpan(input, FindQuoted(input, "name=", PrefixAlternatives(PrefixRegex(code.prefix)), name),
                "name=\"" + code.prefix
                + JsStr(SignName(h, code.code + code.parentCode, name, InputValue(input), "name", false)) + "\"")
  }

  /** An input is left as it is when its name does not match, or when it is excluded. */
  lemma SignedInputGuards(h: Host, skip: string -> bool, input: string, code: Product)
    requires FindInputName(input, PrefixRegex(code.prefix)).None?
             || skip(PrefixRegex(code.prefix) + FindInputName(input, PrefixRegex(code.prefix)).value)
    ensures SignedInput(h, skip, input, code) == input
  {
  }

  /** Under a one-digit prefix other than the default "0:", an input whose name is
      listed is left as it is. */
  lemma ExcludedInputUntouched(h: Host, input: string, code: Product, d: char)
    requires IsDigit(d) && d != '0' && code.prefix == [d, ':']
    requires FindInputName(input, code.prefix).Some?
    requires FindInputName(input, code.prefix).value in CartExcludes
    ensures SignedInput(h, ShouldSkipInput, input, code) == input
  {
    assert code.prefix != "0:" by { assert code.prefix[0] != "0:"[0]; }
    var name := FindInputName(input, code.prefix).value;
    ExcludedNamesSkipped(name, d);
    SignedInputGuards(h, ShouldSkipInput, input, code);
  }

  /** Under the default prefix the exclusion test sees "(0:)?" in front of the name, so no
      input is ever excluded: listed names and h:, x:, __ and utm_ names are signed too. */
  lemma DefaultPrefixInputsNeverExcluded(name: string)
    ensures !ShouldSkipInput(PrefixRegex("0:") + name)
  {
    OpenPrefixNeverSkips(name);
  }

  /** The signed token of a field: the shown part, "||", the hash of the message, and
      "||open" for an open value. */
  function Token(h: Host, code: string, name: string, value: string, shown: string): string {
    var n := ReplaceFirst(name, " ", "_");
    if value == Open then n + "||" + h.sign(code + n + Open) + "||open"
    else shown + "||" + h.sign(code + "." + n + "." + value)
  }

  /** `signName` without URL encoding, for a non-empty code and name, is the token. */
  lemma SignNameToken(h: Host, code: string, name: string, value: string, how: string)
    requires code != "" && name != ""
    ensures JsStr(SignName(h, code, name, value, how, false))
            == Token(h, code, name, value, if how == "name" then ReplaceFirst(name, " ", "_") else value)
  {
  }

  /** A non-radio input gets its name attribute replaced by the prefix and the signed
      name; the value is signed as it is, or as open when it is missing or empty. */
  lemma NameSigned(h: Host, skip: string -> bool, input: string, code: Product, s: nat, e: nat)
    requires code.code != "" && !IsRadio(input)
    requires FindInputName(input, PrefixRegex(code.prefix)).Some?
    requires !skip(PrefixRegex(code.prefix) + FindInputName(input, PrefixRegex(code.prefix)).value)
    requires FindQuoted(input, "name=", PrefixAlternatives(PrefixRegex(code.prefix)),
                        FindInputName(input, PrefixRegex(code.prefix)).value) == Some((s, e))
    ensures var name := FindInputName(input, PrefixRegex(code.prefix)).value;
      SignedInput(h, skip, input, code)
      == input[..s] + ("name=\"" + code.prefix
         + Token(h, code.code + code.parentCode, name, InputValue(input), ReplaceFirst(name, " ", "_"))
         + "\"") + input[e..]
  {
    var name := FindInputName(input, PrefixRegex(code.prefix)).value;
    assert SignedInput(h, skip, input, code) == RenamedInput(h, input, code, name);
    SignNameToken(h, code.code + code.parentCode, name, InputValue(input), "name");
  }

  /** A radio input gets the first quoted occurrence of its value replaced by the signed
      value in double quotes; its name is not touched. */
  lemma RadioValueSigned(h: Host, skip: string -> bool, input: string, code: Product, s: nat, e: nat)
    requires code.code != "" && IsRadio(input)
    requires FindInputName(input, PrefixRegex(code.prefix)).Some?
    requires !skip(PrefixRegex(code.prefix) + FindInputName(input, PrefixRegex(code.prefix)).value)
    requires FindQuoted(input, "", [""], InputValue(input)) == Some((s, e))
    ensures var name := FindInputName(input, PrefixRegex(code.prefix)).value;
      SignedInput(h, skip, input, code)
      == input[..s] + ("\"" + Token(h, code.code + code.parentCode, name, InputValue(input), InputValue(input))
         + "\"") + input[e..]
  {
    var name := FindInputName(input, PrefixRegex(code.prefix)).value;
    assert SignedInput(h, skip, input, code) == RevaluedInput(h, input, code, name);
    SignNameToken(h, code.code + code.parentCode, name, InputValue(input), "value");
  }

  /** An input whose value is empty or missing and one whose value is the open marker
      are signed alike: both sign "--OPEN--", and the open token does not depend on
      what the method would show (the name or the value). */
  lemma OpenValueCanonical(h: Host, code: string, name: string, a: string, b: string, shown: string, shown': string)
    requires FindAttr(a, "value=", false).None? || FindAttr(a, "value=", false) == Some("")
    requires FindAttr(b, "value=", false) == Some(Open)
    ensures InputValue(a) == InputValue(b) == Open
    ensures Token(h, code, name, InputValue(a), shown) == Token(h, code, name, InputValue(b), shown')
  {
  }

  // ----------------------------------------------------- inputs of a form

  /** The inputs signed into the form in order, each replacing its first occurrence,
      under the exclusion test `skip`. */
  function InputsSigned(h: Host, skip: string -> bool, html: string, code: Product, inputs: seq<string>): string
    decreases |inputs|
  {
    if inputs == [] then html
    else InputsSigned(h, skip, ReplaceFirst(html, inputs[0], SignedInput(h, skip, inputs[0], code)),
                      code, inputs[1..])
  }

  /** Inputs that come back unchanged leave the form unchanged. */
  lemma {:induction false} InputsUntouched(h: Host, skip: string -> bool, html: string, code: Product, inputs: seq<string>)
    requires forall i :: 0 <= i < |inputs| ==> SignedInput(h, skip, inputs[i], code) == inputs[i]
    ensures InputsSigned(h, skip, html, code, inputs) == html
    decreases |inputs|
  {
    if inputs != [] {
      ReplaceFirstSelf(html, inputs[0]);
      assert forall i :: 0 <= i < |inputs| - 1 ==> inputs[1..][i] == inputs[i + 1];
      InputsUntouched(h, skip, html, code, inputs[1..]);
    }
  }

  /** `__signInputs`: each input with the product's prefix has its first occurrence in
      the form replaced by its signed form, in document order. The exclusion test is a
      parameter, so that the input loop of the older revision runs through it too. */
  method SignInputs(h: Host, skip: string -> bool, m: Markup, html: string, code: Product) returns (r: string)
    ensures r == InputsSigned(h, skip, html, code, InputsWithPrefix(m, html, code.prefix))
  {
    var inputs := InputsWithPrefix(m, html, code.prefix);
    r := html;
    for i := 0 to |inputs|
      invariant InputsSigned(h, skip, r, code, inputs[i..]) == InputsSigned(h, skip, html, code, inputs)
    {
      assert inputs[i..][1..] == inputs[i + 1..];
      var signed := SignedInput(h, skip, inputs[i], code);
      r := ReplaceFirst(r, inputs[i], signed);
    }
  }

  // ------------------------------------------------------ selects, options

  /** One option with its first `quote value quote` replaced by the signed value. */
  function OptionSigned(h: Host, code: Product, selectName: string, opt: OptionTag): string {
    ReplaceFirst(opt.matched, opt.quote + opt.value + opt.quote,
                 opt.quote + JsStr(SignName(h, code.code + code.parentCode, selectName, opt.value, "value", false)) + opt.quote)
  }

  /** The options of one select signed into its text; options without a value are skipped. */
  function OptionsSigned(h: Host, code: Product, selectName: string, signedSelect: string, opts: seq<OptionTag>): string
    decreases |opts|
  {
    if opts == [] then signedSelect
    else
      var next := if opts[0].value == "" then signedSelect
                  else ReplaceFirst(signedSelect, opts[0].matched, OptionSigned(h, code, selectName, opts[0]));
      OptionsSigned(h, code, selectName, next, opts[1..])
  }

  /** The selects signed into the form; a select whose prefix and name are excluded is
      skipped. */
  function SelectsSigned(h: Host, m: Markup, code: Product, html: string, sels: seq<SelectTag>): string
    decreases |sels|
  {
    if sels == [] then html
    else
      var next := if ShouldSkipInput(code.prefix + sels[0].name) then html
                  else ReplaceFirst(html, sels[0].matched,
                                    OptionsSigned(h, code, sels[0].name, sels[0].matched, m.options(sels[0].children)));
      SelectsSigned(h, m, code, next, sels[1..])
  }

  /** Under the default prefix a select is skipped exactly when its name is listed: the
      exclusion test sees "0:" in front, so the prefix table never applies. */
  lemma DefaultPrefixSelectSkip(code: Product, sel: SelectTag)
    requires code.prefix == "0:"
    ensures ShouldSkipInput(code.prefix + sel.name) <==> sel.name in CartExcludes
  {
    ZeroPrefixSkipsOnlyListed(sel.name);
  }

  /** Options without a value leave the select as it is. */
  lemma {:induction false} EmptyOptionsUntouched(h: Host, code: Product, name: string, s: string, opts: seq<OptionTag>)
    requires forall i :: 0 <= i < |opts| ==> opts[i].value == ""
    ensures OptionsSigned(h, code, name, s, opts) == s
    decreases |opts|
  {
    if opts != [] {
      assert forall i :: 0 <= i < |opts| - 1 ==> opts[1..][i] == opts[i + 1];
      EmptyOptionsUntouched(h, code, name, s, opts[1..]);
    }
  }

  /** `__signOptions`. */
  method SignOptions(h: Host, m: Markup, html: string, code: Product) returns (r: string)
    ensures r == SelectsSigned(h, m, code, html, m.selects(html, PrefixRegex(code.prefix)))
  {
    var selects := m.selects(html, PrefixRegex(code.prefix));
    r := html;
    for i := 0 to |selects|
      invariant SelectsSigned(h, m, code, r, selects[i..]) == SelectsSigned(h, m, code, html, selects)
    {
      var select := selects[i];
      assert selects[i..][1..] == selects[i + 1..];
      if ShouldSkipInput(code.prefix + select.name) {
        continue;
      }
      var options := m.options(select.children);
      var signedSelect := select.matched;
      for j := 0 to |options|
        invariant OptionsSigned(h, code, select.name, signedSelect, options[j..])
                  == OptionsSigned(h, code, select.name, select.matched, options)
      {
        var option := options[j];
        assert options[j..][1..] == options[j + 1..];
        if option.value == "" {
          continue;
        }
        var optionSigned := OptionSigned(h, code, select.name, option);
        signedSelect := ReplaceFirst(signedSelect, option.matched, optionSigned);
      }
      r := ReplaceFirst(r, select.matched, signedSelect);
    }
  }

  // ------------------------------------------------------------- a form

  /** The three field steps for one product; a product without a code is skipped. */
  function ProductSigned(h: Host, m: Markup, html: string, code: Product): string {
    if code.code == "" then html
    else
      var inputsDone := InputsSigned(h, ShouldSkipInput, html, code, InputsWithPrefix(m, html, code.prefix));
      var optionsDone := SelectsSigned(h, m, code, inputsDone, m.selects(inputsDone, PrefixRegex(code.prefix)));
      m.textAreas(optionsDone, code)
  }

  function ProductsSigned(h: Host, m: Markup, html: string, codes: seq<Product>): string
    decreases |codes|
  {
    if codes == [] then html else ProductsSigned(h, m, ProductSigned(h, m, html, codes[0]), codes[1..])
  }

  /** Products without a code leave the form as it is. */
  lemma {:induction false} EmptyCodesSkipped(h: Host, m: Markup, html: string, codes: seq<Product>)
    requires forall i :: 0 <= i < |codes| ==> codes[i].code == ""
    ensures ProductsSigned(h, m, html, codes) == html
    decreases |codes|
  {
    if codes != [] {
      assert forall i :: 0 <= i < |codes| - 1 ==> codes[1..][i] == codes[i + 1];
      EmptyCodesSkipped(h, m, html, codes[1..]);
    }
  }

  /** What `signForm` returns. */
  function SignedForm(h: Host, m: Markup, html: string): string {
    var codes := FormProducts(m, html);
    if |codes| == 0 then html
    else
      var form := m.button(ProductsSigned(h, m, html, codes));
      ReplaceFirst(form, html, form)
  }

  /** A form without a code element is returned as it is. */
  lemma CodelessFormUntouched(h: Host, m: Markup, html: string)
    requires m.codeTags(html) == []
    ensures SignedForm(h, m, html) == html
  {
  }

  /** A form whose code elements all lack a value only gets the button rewrite. */
  lemma EmptyCodedFormOnlyButtons(h: Host, m: Markup, html: string)
    requires |m.codeTags(html)| > 0
    requires forall i :: 0 <= i < |m.codeTags(html)| ==> FindGreedyAttr(m.codeTags(html)[i].matched, "value=").None?
    ensures SignedForm(h, m, html) == ReplaceFirst(m.button(html), html, m.button(html))
  {
    var codes := FormProducts(m, html);
    forall i | 0 <= i < |codes| ensures codes[i].code == "" {
      FormProductCodeEmpty(m, html, m.codeTags(html)[i]);
    }
    EmptyCodesSkipped(h, m, html, codes);
  }

  /** `signForm`. */
  method SignForm(h: Host, m: Markup, html: string) returns (r: string)
    ensures r == SignedForm(h, m, html)
  {
    var formOriginal := html;
    var codes := GetFormCodes(m, html);
    assert codes == FormProducts(m, html);
    if |codes| == 0 {
      return formOriginal;
    }
    var form := html;
    for i := 0 to |codes|
      invariant ProductsSigned(h, m, form, codes[i..]) == ProductsSigned(h, m, html, codes)
    {
      var code := codes[i];
      assert codes[i..][1..] == codes[i + 1..];
      if code.code == "" {
        continue;
      }
      form := SignInputs(h, ShouldSkipInput, m, form, code);
      form := SignOptions(h, m, form, code);
      form := m.textAreas(form, code);
    }
    form := m.button(form);
    r := ReplaceFirst(form, formOriginal, form);
  }

  // --------------------------------------------------------- a document

  /** `href=['"]` at i. */
  predicate HrefLeadAt(t: string, i: nat) {
    OccursAt(t, "href=", i) && i + 5 < |t| && IsQuote(t[i + 5])
  }

  /** `s.replace(/href=['"]/, "").replace(/['"]$/, "")`: the first href lead removed,
      then one closing quote at the very end. */
  function HrefUrl(s: string): string {
    var lead := Leftmost((i: nat) => if HrefLeadAt(s, i) then Some(i) else None, 0, |s|);
    var u := if lead.Some? && lead.value.0 + 6 <= |s| then s[..lead.value.0] + s[lead.value.0 + 6..] else s;
    if |u| > 0 && IsQuote(u[|u| - 1]) then u[..|u| - 1] else u
  }

  /** One anchor of the link loop: an anchor holding "||" is skipped; otherwise the URL
      made of its domain, the cart path and its query is signed, and the href is
      rewritten when the signed URL differs from the text the anchor was read as. */
  function AnchorSigned(h: Host, m: Markup, html: string, a: Anchor): string {
    if Contains(a.matched, "||") then html
    else
      var signed := SignedUrl(h, a.domain + CartPath + a.query);
      if signed != HrefUrl(a.matched) then ReplaceSpan(html, m.hrefSpan(html, a), "href=\"" + signed + "\"")
      else html
  }

  function AnchorsSigned(h: Host, m: Markup, html: string, anchors: seq<Anchor>): string
    decreases |anchors|
  {
    if anchors == [] then html else AnchorsSigned(h, m, AnchorSigned(h, m, html, anchors[0]), anchors[1..])
  }

  /** Anchors that already hold "||" leave the document as it is. */
  lemma {:induction false} SignedAnchorsUntouched(h: Host, m: Markup, html: string, anchors: seq<Anchor>)
    requires forall i :: 0 <= i < |anchors| ==> Contains(anchors[i].matched, "||")
    ensures AnchorsSigned(h, m, html, anchors) == html
    decreases |anchors|
  {
    if anchors != [] {
      assert forall i :: 0 <= i < |anchors| - 1 ==> anchors[1..][i] == anchors[i + 1];
      SignedAnchorsUntouched(h, m, html, anchors[1..]);
    }
  }

  function FormsSigned(h: Host, m: Markup, html: string, forms: seq<string>): string
    decreases |forms|
  {
    if forms == [] then html else FormsSigned(h, m, ReplaceFirst(html, forms[0], SignedForm(h, m, forms[0])), forms[1..])
  }

  /** Forms without a code element leave the document as it is. */
  lemma {:induction false} CodelessFormsUntouched(h: Host, m: Markup, html: string, forms: seq<string>)
    requires forall i :: 0 <= i < |forms| ==> m.codeTags(forms[i]) == []
    ensures FormsSigned(h, m, html, forms) == html
    decreases |forms|
  {
    if forms != [] {
      CodelessFormUntouched(h, m, forms[0]);
      ReplaceFirstSelf(html, forms[0]);
      assert forall i :: 0 <= i < |forms| - 1 ==> forms[1..][i] == forms[i + 1];
      CodelessFormsUntouched(h, m, html, forms[1..]);
    }
  }

  /** What `signHtml` returns: the links are signed first, then the forms found in the
      result. */
  function SignedHtml(h: Host, m: Markup, html: string): string {
    var linked := AnchorsSigned(h, m, html, m.anchors(html, CartPath));
    FormsSigned(h, m, linked, m.forms(linked, CartPath))
  }

  /** A document whose cart anchors are all signed already and whose cart forms carry no
      code comes back unchanged. */
  lemma SignedDocumentUntouched(h: Host, m: Markup, html: string)
    requires forall i :: 0 <= i < |m.anchors(html, CartPath)| ==> Contains(m.anchors(html, CartPath)[i].matched, "||")
    requires forall i :: 0 <= i < |m.forms(html, CartPath)| ==> m.codeTags(m.forms(html, CartPath)[i]) == []
    ensures SignedHtml(h, m, html) == html
  {
    SignedAnchorsUntouched(h, m, html, m.anchors(html, CartPath));
    CodelessFormsUntouched(h, m, html, m.forms(html, CartPath));
  }

  /** `signHtml`. */
  method SignHtml(h: Host, m: Markup, html: string) returns (r: string)
    ensures r == SignedHtml(h, m, html)
  {
    var anchors := m.anchors(html, CartPath);
    r := html;
    for i := 0 to |anchors|
      invariant AnchorsSigned(h, m, r, anchors[i..]) == AnchorsSigned(h, m, html, anchors)
    {
      var a := anchors[i];
      assert anchors[i..][1..] == anchors[i + 1..];
      if Contains(a.matched, "||") {
        continue;
      }
      var url := HrefUrl(a.matched);
      var signed := SignUrl(h, a.domain + CartPath + a.query);
      if signed != url {
        r := ReplaceSpan(r, m.hrefSpan(r, a), "href=\"" + signed + "\"");
      }
    }
    var linked := r;
    var forms := m.forms(r, CartPath);
    for i := 0 to |forms|
      invariant FormsSigned(h, m, r, forms[i..]) == FormsSigned(h, m, linked, forms)
    {
      assert forms[i..][1..] == forms[i + 1..];
      var signed := SignForm(h, m, forms[i]);
      r := ReplaceFirst(r, forms[i], signed);
    }
  }
}
