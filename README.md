# FoxyCart HMAC signer: a Dafny model

This project models the signing engine of the FoxyCart HMAC signer. The engine makes cart
links and cart forms tamper-evident. Every product field is rewritten to carry a keyed hash
of the product code, the field name and the field value. The cart can then reject a price or
an option that the shopper edited.

The model follows the repository's revisions one module each.

- **`Excludes`** (`excludes.dfy`) holds the two tables of field names and name prefixes that
  are never signed.
- **`Signer`** (`signer.dfy`) models the current TypeScript engine, `src/Signer.ts`. It covers:
  - the exclusion policy (`__shouldSkipInput`);
  - the canonical message and signed token (`signName`);
  - how product codes are resolved from query pairs (`__getCodesFromPairs`);
  - the link method (`signQueryString`, `signUrl`).
- **`QueryPairs`** (`query_pairs.dfy`) is an explicit scanner for the query-pair pattern
  `(?<amp>&(?:amp;)?)(?<prefix>[a-z0-9]{1,3}:)?(?<name>[^=]+)=(?<value>[^&]+)`. It is proved
  to find exactly the pairs of a query string built from plain pairs.
- **`SignerForms`** (`signer_forms.dfy`) models the form method of `src/Signer.ts`:
  - the code and parent code of a form;
  - the rewrite of one `<input>`;
  - the options of `<select>` lists;
  - `signForm` and `signHtml`.
- **`DomSigner`** (`dom_signer.dfy`) models the DOM-oriented revision, `src/Signer.js`:
  - the separator-free message;
  - the token builders and the name-prefix split;
  - the "already signed" test;
  - the URL clean-up;
  - the attribute rewrites of an element (a `class` whose attribute map the methods update);
  - `signUrl` over a parsed parameter list.
- **`CodeBuilder`** (`code_builder.dfy`) models the `CodeDictBuilder` accumulator of
  `src/CodeBuilder.js`. It is a `class` whose `codes` dictionary `element` updates in place.
- **`CartValidation`** (`cart_validation.dfy`) models the older `FoxyCart_Helper` of
  `src/CartValidation/cart-validation.ts`:
  - `htmlSpecialChars` and its inverse;
  - `strPos` and its falsy zero;
  - the exclusion test through JavaScript `in` on an array;
  - `fc_hash_querystring`;
  - the per-code guards of `fc_hash_html`;
  - the settable cart path (a `class`).

Some modules are shared support:

- **`Text`** (`text.dfy`) models the JavaScript string operations the engine relies on:
  `indexOf`, `replace` with a string pattern, `split`, ASCII `toLowerCase`, and global
  replacement.
- **`Scan`** (`scan.dfy`) holds scanners for the small single-tag patterns (`value=…`, `type=…`,
  `name=…`). It states their lazy or greedy quantifiers and their line-terminator rule.

The keyed hash and the URI coders are fields of a `Host` value (`primitives.dfy`). They are
deterministic functions the model knows nothing else about.

The patterns that cut whole elements out of a document are given as span finders:

- `SignerForms.Markup` finds forms, anchors, code elements, prefixed inputs, selects and
  options.
- `CartValidation.Page` does the same for the older helper.
- `DomSigner.UrlApi` stands for the WHATWG `URL` parser and serialiser.

Loops that reassign a string (`signQueryString`, `__signInputs`, `__signOptions`, `signForm`,
`signHtml`, `fc_hash_querystring`, `fc_hash_html`) are methods. Each is proved equal to a
specification function, and the guards and shapes the source promises are proved about
those functions.

The model keeps the source's behaviour as written, including these surprising cases, each
proved as a lemma:

- `__getSignedInput` runs the exclusion test on the regex text `(0:)?` plus the name for the
  default prefix. That string never matches a listed name or an excluded prefix, so no
  un-prefixed input is ever excluded (`Signer.OpenPrefixNeverSkips`).
- In a query string, a pair whose prefix has no code is signed with the JavaScript value
  `false`. It becomes the separator, the prefix, the encoded name and `=false`
  (`Signer.UncodedPrefixSignsFalse`). When its value decodes to `--OPEN--` it becomes the
  separator and `false=` instead (`Signer.UncodedOpenSignsFalse`).
- A pair without a prefix is given `0:` before the exclusion test. `utm_` and `__` names
  therefore never exclude an un-prefixed query pair, and only a listed name does
  (`Signer.ZeroPrefixSkipsOnlyListed`).
- A `parent_code` without a `code` for its prefix produces the code `"undefined"` followed by
  the parent value (`Signer.CodesClosedForm`).
- The older helper tests names with JavaScript `in` on the excludes array:
  - This tests index keys, so no listed name is excluded (`CartValidation.ListedNamesNotKeys`).
  - A field named `3` is excluded (`CartValidation.IndexNamedPairSkipped`).
- `strPos` reports a hit at index 0 as `0`, which the callers read as false. A query string
  that starts with `||` is therefore signed again (`CartValidation.LeadingMarkNotSeen`).
- The link replacer of `fc_hash_html` inserts its capture group and the match offset. The
  group is `(.php)?` matched case-insensitively, because the pattern is built from a string
  literal in which `\.` is a plain `.`; it captures any character followed by `php` in any
  case, such as `.PHP` or `Xphp`. The rewritten link reads that captured text (or `undefined`
  when the group did not take part), then the signed query, then the offset
  (`CartValidation.LinkRewrite`).
- Signing a query string or a cart URL a second time changes nothing once the first pass
  has left `‖` in it, because the first guard then stops the second pass
  (`Signer.SignedQueryStringIdempotent`, `Signer.SignedUrlIdempotent`,
  `CartValidation.HashedQueryStringIdempotent`). A one-code query string is marked by its
  first pass (`Signer.SingleCodePairIdempotent`).
- The older helper shares one `form_part_signed` across all lists of a product, and options
  without a value leave it as it is (`CartValidation.ValuelessOptionsKeepPart`). The first
  list whose options have no values is therefore replaced by the empty string
  (`CartValidation.ValuelessFirstListRemoved`). A valueless list met after a signed one is
  replaced by a copy of that signed list (`CartValidation.ValuelessListCopiesPart`).
- Any textarea match there throws (`CartValidation.TextAreaMatchThrows`).
- `DomSigner`:
  - drops a leading zero of a name prefix (`01:` becomes key `1`,
    `DomSigner.LeadingZeroDropped`);
  - loses the value of a query argument when the signature ends in `=` padding
    (`DomSigner.PaddedSignatureDropsValue`);
  - signs `code + name` without separators, so different splits of the same text sign alike
    (`DomSigner.SignProductAmbiguous`).
- `CodeBuilder` stores the parent code under the field `parent_code`, while `src/Signer.js`
  reads the field `parent`. `DomSigner.Signer.ParentOf` reads `parent`, as the source does.

## Model

In this table `‖` stands for the two-character marker `||` that the engine puts between a
field and its hash.

| member | source | states |
|---|---|---|
| Excludes.TableSizes | src/excludes.ts:7-57 | the excluded-name table has exactly 44 entries and the prefix table exactly the 4 prefixes `h:`, `x:`, `__`, `utm_` |
| Excludes.CodeFieldsNotExcluded | src/excludes.ts:7-57 | neither `code` nor `parent_code` is a listed name, and neither starts with an excluded prefix |
| Excludes.TablesAreLowerCase | src/excludes.ts:7-57 | every listed name and every prefix is lower-case, so comparing them with a lower-cased field name is sound |
| Excludes.EntriesChecked | src/excludes.ts:7-55 | every listed name is non-empty, lower-case, starts with a letter or `_`, and is neither code field |
| Excludes.EntriesStartWithLetter | src/excludes.ts:7-55 | no name starting with a digit or `(` is listed, so a prefixed field name never equals a listed name |
| CodeBuilder.Store | src/CodeBuilder.js:18-27 | writing `codes[k][f] = v` sets that field, adds `k` only when absent, and keeps every other prefix and every other field of `k` |
| CodeBuilder.CodeDictBuilder.constructor | src/CodeBuilder.js:8-10 | the builder starts from the supplied dictionary, or from the empty one when none is given |
| CodeBuilder.CodeDictBuilder.Element | src/CodeBuilder.js:12-29 | the new dictionary is the old one updated by the element (`ElementUpdate`) |
| CodeBuilder.IgnoredElements | src/CodeBuilder.js:13-15 | an element without a name, without a value, with an empty value, or whose name is not `([0-9]{1,3}:)?(parent_)?code…` in any case leaves the dictionary unchanged |
| CodeBuilder.ElementLastWins | src/CodeBuilder.js:15-27 | a code element stores its value at its prefix and field, overwriting an earlier value there, and keeps every other prefix and field |
| CodeBuilder.PrefixedSlot | src/CodeBuilder.js:16-22 | a name `n:t` with 1-3 digits `n` is stored under key `n` with the lower-cased `t` as field, and counts as a code name iff `t` starts with `code` or `parent_code` in any case |
| CodeBuilder.PrefixedCodeName | src/CodeBuilder.js:15 | `n:t` with 1-3 digits passes the code-name test iff `t` starts with a code word in any case |
| CodeBuilder.UnprefixedSlot | src/CodeBuilder.js:23-27 | a name without `:` is stored under key `0` with the lower-cased whole name as field, and is a code name iff it starts with a code word |
| CodeBuilder.StoreAgain | src/CodeBuilder.js:22 | storing the value already present changes nothing |
| CodeBuilder.StoreOver | src/CodeBuilder.js:22 | storing twice at one prefix and field is the same as storing the second value once |
| CodeBuilder.PrefixedCodeFound | src/CodeBuilder.js:15-22 | `1:code` = `foobar` gives `{"1": {"code": "foobar"}}` |
| CodeBuilder.PrefixedMixedCaseCodeFound | src/CodeBuilder.js:15-22 | `1:CoDe` = `foobar` gives `{"1": {"code": "foobar"}}` |
| CodeBuilder.ShortNameIgnored | src/CodeBuilder.js:15 | `1:cod` is not a code name and is ignored |
| CodeBuilder.EmptyPrefixIgnored | src/CodeBuilder.js:15 | `:CoDe` (an empty prefix) is not a code name and is ignored |
| CodeBuilder.UnprefixedCodeFound | src/CodeBuilder.js:23-27 | `CoDe` = `foobar` gives `{"0": {"code": "foobar"}}` |
| CodeBuilder.UnprefixedParentFound | src/CodeBuilder.js:23-27 | `PaReNt_CoDe` = `foobar` gives `{"0": {"parent_code": "foobar"}}` |
| CodeBuilder.DuplicatesOverwritten | src/CodeBuilder.js:18-27 | of repeated parent codes for prefixes 0 and 1 the last value wins under each prefix |
| Text.IndexOf | src/Signer.ts:41 | `indexOf` with a clamped start gives -1 iff the needle does not occur from the start on, and otherwise the first occurrence from the start |
| Text.Contains | src/Signer.ts:36-43 | `strContains` holds iff the needle occurs somewhere |
| Text.ReplaceFirst | src/Signer.ts:236 | `replace` with a string pattern leaves the text alone when the pattern is absent, and otherwise replaces exactly its first occurrence |
| Text.ReplaceAllSkip | src/Signer.js:358-361 | a global replacement passes over a prefix that cannot start the pattern |
| Text.ReplaceAllHit | src/Signer.js:358-361 | a global replacement replaces an occurrence at the front and goes on after it |
| Text.MapChar | src/Signer.js:115 | `replace(/ /g, "_")`: every space, and only spaces, become `_`, at the same positions |
| Text.ToLower | src/Signer.ts:301 | `toLowerCase` on ASCII: same length, each upper-case letter lowered and every other character kept |
| Text.DropLeading | src/Signer.ts:198 | `replace(/^\?/, "")`: one leading mark is dropped, otherwise the text is kept |
| Text.Split | src/CodeBuilder.js:16 | `split(":")` gives at least one part, exactly one iff there is no separator |
| Text.SplitOnce | src/CodeBuilder.js:16-18 | a text with exactly one separator splits into the two sides |
| Scan.Leftmost | src/Signer.ts:181 | the leftmost position where a pattern matches, with no match before it, or None when none matches |
| Scan.LazyQuoted | src/Signer.ts:415 | `(.*?)['"]`: the shortest run up to the first quote, present iff a quote follows before a line break |
| Scan.GreedyQuoted | src/Signer.ts:137 | `(.+)['"]`: the longest non-empty run up to the last quote before a line break |
| Scan.FindAttr | src/Signer.ts:100 | the first attribute match in the tag, or None iff no position matches |
| Scan.FindQuoted | src/Signer.ts:425-433 | the first span where a quoted replacement pattern matches, none before it, or None iff none matches |
| Scan.ReplaceSpan | src/Signer.ts:426-440 | the matched span, and nothing else, is replaced; no match leaves the text unchanged |
| Signer.PrefixRegexIdempotent | src/Signer.ts:149-153 | mapping the prefix twice, as `__getInputsWithPrefix` does, is the same as mapping it once |
| Signer.SignName | src/Signer.ts:259-294 | no token (JavaScript `false`) iff the product code or the option name is empty; otherwise only the first space of the name becomes `_`, an `--OPEN--` value signs `code+name+--OPEN--` and gives `name‖hash‖open` whatever the method, any other value signs `code.name.value` and gives `name‖hash` for method `name` and `value‖hash` otherwise, with `encodeURI` on the shown part when asked |
| Signer.TokenIsMarked | src/Signer.ts:259-294 | every token contains `‖`, which is what the guards take as "already signed" |
| Signer.OnlyFirstSpaceReplaced | src/Signer.ts:269 | only the first space of the option name becomes `_` |
| Signer.StripDigitPrefix | src/Signer.ts:297 | `replace(/^\d:/, "")` strips one leading digit and colon, and nothing else |
| Signer.CodeFieldsNeverSkipped | src/Signer.ts:296-304 | `code` and `parent_code`, bare or after a digit prefix, are never excluded |
| Signer.ExcludedNamesSkipped | src/Signer.ts:296-304 | a listed name is excluded both bare and after a one-digit prefix |
| Signer.ZeroPrefixSkipsOnlyListed | src/Signer.ts:296-304 | `0:` plus a name is excluded iff the name is listed; no prefix ever fires after `0:` |
| Signer.OpenPrefixNeverSkips | src/Signer.ts:406-420 | the string `(0:)?` plus any name is never excluded |
| Signer.Normalised | src/Signer.ts:83 | a missing prefix becomes `0:`, a present one is kept, and nothing else of the pair changes |
| Signer.NormaliseAll | src/Signer.ts:82-83 | every pair is normalised in place, order and count kept |
| Signer.GetCodesFromPairs | src/Signer.ts:77-94 | the two loops return the normalised pairs and the code dictionary `Codes(pairs)` |
| Signer.CodePassForm | src/Signer.ts:82-87 | after the first loop a prefix has a code iff some pair `code` has that prefix, and it holds the last such value |
| Signer.ParentPassForm | src/Signer.ts:88-92 | the second loop adds exactly the prefixes having a `parent_code` pair, appending all their parent values in order to the code (or to `undefined`) |
| Signer.CodesClosedForm | src/Signer.ts:77-94 | a prefix is a key iff it has a `code` or `parent_code` pair; its value is the last code, or `undefined`, followed by all parent values in order |
| Signer.NoCodesIff | src/Signer.ts:211-215 | the dictionary is empty iff no pair is named `code` or `parent_code` |
| Signer.PairReplacement | src/Signer.ts:217-235 | no replacement iff the pair is excluded; otherwise `amp+token+=` for a decoded `--OPEN--` value and `amp+prefix+encodeURI(name)+=+token` for any other, keeping the `&` or `&amp;` separator |
| Signer.UncodedPrefixSignsFalse | src/Signer.ts:222-234 | a pair whose prefix has no code, and whose value does not decode to `--OPEN--`, is rewritten to the separator, the prefix, the encoded name and `=false` |
| Signer.UncodedOpenSignsFalse | src/Signer.ts:222-232 | a pair whose prefix has no code and whose value decodes to `--OPEN--` is rewritten to the separator and `false=` |
| Signer.SignQueryString | src/Signer.ts:197-252 | the loop over the pairs returns `SignedQueryString` |
| Signer.SignedQueryStringUntouched | src/Signer.ts:198-203 | a query containing `‖` comes back as `?` plus the query without its leading `?` |
| Signer.CodelessQueryStringUntouched | src/Signer.ts:211-215 | a query without `code` or `parent_code` pairs comes back unchanged after `?` |
| Signer.SignedQueryStringIdempotent | src/Signer.ts:197-203 | when the signed query string holds `‖`, signing it again returns it unchanged |
| Signer.SingleCodePair | src/Signer.ts:197-252 | for plain text `v`, `code=v` becomes `?0:code=encodeURI(v)‖sign(v.code.v)` |
| Signer.SingleCodePairIdempotent | src/Signer.ts:197-252 | the signed one-code query string holds `‖`, and signing it again returns it unchanged |
| Signer.SingleCodePairScanned | src/Signer.ts:205-210 | the pair pattern finds exactly one pair in `&code=v` |
| Signer.SingleCodePairCodes | src/Signer.ts:77-94 | one un-prefixed code pair gives the dictionary `{"0:": v}` |
| Signer.SignUrl | src/Signer.ts:173-189 | returns `SignedUrl`; a URL containing `‖` or without a cart match is returned unchanged |
| Signer.SignedUrlIdempotent | src/Signer.ts:173-188 | a URL returned untouched, or a cart URL whose signed query holds `‖`, is left unchanged by a second `signUrl` |
| Signer.SignedUrlShape | src/Signer.ts:185-187 | a signed URL is protocol, domain, `/cart` and then the signed query, which starts with `?` |
| QueryPairs.MatchAtSound | src/Signer.ts:209 | a match is a well-formed pair at its position: separator `&` or `&amp;`, an optional 1-3 character `[a-z0-9]` prefix with `:`, a non-empty name without `=`, a non-empty value without `&` |
| QueryPairs.MatchPairs | src/Signer.ts:24-34 | the `matchGroups` loop returns the scanner's pairs `Pairs(qs)` |
| QueryPairs.PairsAreMatches | src/Signer.ts:205-210 | every pair found is well formed and occurs in the query string |
| QueryPairs.MatchPlain | src/Signer.ts:209 | a plain pair followed by the end or by `&` is matched exactly at its position |
| QueryPairs.ScanRender | src/Signer.ts:205-210 | round trip: scanning the concatenation of plain pairs gives back exactly those pairs |
| SignerForms.ParentCodeIsFirst | src/Signer.ts:96-107 | the parent code is the value of the first input that mentions `parent_code` and has a value, or the empty string when none does |
| SignerForms.ParentCodeAt | src/Signer.ts:98-103 | when input `i` is the first carrying a parent value, that value is returned |
| SignerForms.ParentCodeNone | src/Signer.ts:106 | when no input carries a parent value, the empty string is returned |
| SignerForms.GetParentCodeFromInputs | src/Signer.ts:96-107 | the loop returns `ParentCodeOf(inputs)` |
| SignerForms.CodeValue | src/Signer.ts:137-138 | the code is empty iff the tag has no greedy `value=` match |
| SignerForms.FormProductCodeEmpty | src/Signer.ts:136-145 | a product's code is empty iff its tag has no value, and its prefix is `0:` iff the tag had none or had `0:` |
| SignerForms.GetFormCodes | src/Signer.ts:130-147 | one product per code element, in order, each completed with its code, default prefix and parent code |
| SignerForms.FindInputName | src/Signer.ts:408-413 | the name after the prefix pattern is non-empty and comes from the first matching position, or None iff no position matches |
| SignerForms.InputValue | src/Signer.ts:415-423 | the value is never empty: a missing or empty value becomes `--OPEN--`, any other is kept |
| SignerForms.SignedInputGuards | src/Signer.ts:412-422 | an input whose name does not match the prefix, or whose name is excluded, is returned unchanged |
| SignerForms.ExcludedInputUntouched | src/Signer.ts:419-422 | under a non-zero digit prefix, an input with a listed name is returned unchanged |
| SignerForms.DefaultPrefixInputsNeverExcluded | src/Signer.ts:406-420 | under the default prefix no input name is excluded |
| SignerForms.SignNameToken | src/Signer.ts:259-294 | the token of `signName` without URI encoding, in closed form |
| SignerForms.NameSigned | src/Signer.ts:432-440 | a non-radio input gets its matched `name=` replaced by `name="<prefix><name‖hash…>"` and keeps the rest |
| SignerForms.RadioValueSigned | src/Signer.ts:424-431 | a radio input gets the first quoted occurrence of its value replaced by `"<value‖hash>"` and keeps the rest |
| SignerForms.OpenValueCanonical | src/Signer.ts:414-423 | an input whose value is empty or missing and one whose value is `--OPEN--` both sign `--OPEN--`, to the same token whatever the method would show |
| SignerForms.InputsUntouched | src/Signer.ts:306-313 | when every input signs to itself the document is unchanged |
| SignerForms.SignInputs | src/Signer.ts:306-313 | the loop returns `InputsSigned` over the prefixed inputs |
| SignerForms.DefaultPrefixSelectSkip | src/Signer.ts:333 | under the default prefix a select is skipped iff its name is listed |
| SignerForms.EmptyOptionsUntouched | src/Signer.ts:341-344 | options without a value leave the select text unchanged |
| SignerForms.SignOptions | src/Signer.ts:322-362 | the loops return `SelectsSigned` over the prefixed selects |
| SignerForms.EmptyCodesSkipped | src/Signer.ts:464-468 | products whose code is empty leave the form unchanged |
| SignerForms.CodelessFormUntouched | src/Signer.ts:455-462 | a form without code elements is returned unchanged |
| SignerForms.EmptyCodedFormOnlyButtons | src/Signer.ts:455-483 | a form whose codes are all empty gets only the button rewrite |
| SignerForms.SignForm | src/Signer.ts:455-483 | the method returns `SignedForm` |
| SignerForms.SignedAnchorsUntouched | src/Signer.ts:497-500 | anchors containing `‖` leave the document unchanged |
| SignerForms.CodelessFormsUntouched | src/Signer.ts:517-522 | forms without code elements leave the document unchanged |
| SignerForms.SignedDocumentUntouched | src/Signer.ts:494-524 | a document whose anchors are all marked and whose forms have no codes is returned unchanged |
| SignerForms.SignHtml | src/Signer.ts:494-524 | the method returns `SignedHtml`: links first, then forms |
| DomSigner.ValueOrOpen | src/Signer.js:313-318 | `undefined` and `""`, and only they, become `--OPEN--`; every other value, `0` included, is returned as is |
| DomSigner.ValueOrOpenFacts | src/Signer.js:313-318 | the mapping is idempotent, never renders empty, and `0` stays `0` |
| DomSigner.SignProductAmbiguous | src/Signer.js:146-148 | the message has no separators, so two splits of the same `code+name` sign alike |
| DomSigner.BuildSignedName | src/Signer.js:274-277 | `name‖sig`, followed by `‖open` exactly when the value is open |
| DomSigner.SignedNameParts | src/Signer.js:274-277 | for pipe-free parts, a signed name splits on the pipe character into the name and the signature |
| DomSigner.SignedOpenNameParts | src/Signer.js:274-277 | for pipe-free parts, an open signed name splits into the name, the signature and `open` |
| DomSigner.BuildSignedValue | src/Signer.js:287-290 | `value‖sig`, or `‖open‖sig` when the value is open |
| DomSigner.BuildSignedQueryArg | src/Signer.js:301-303 | `name‖sig=value` always contains `=` |
| DomSigner.QueryArgSplits | src/Signer.js:92-99 | for `=`-free parts, splitting the argument on `=` gives back `name‖sig` and the value |
| DomSigner.PaddedSignatureDropsValue | src/Signer.js:92-99 | a signature ending in `=` makes the split's second part empty, so the value is lost |
| DomSigner.Underscored | src/Signer.js:115 | every space of the name becomes `_`, and the length is kept |
| DomSigner.SignNameShape | src/Signer.js:114-119 | `signName` is `encodeURIComponent(name_)‖sign(code+parent+name_+valueOrOpen)` plus `‖open` for open values; a missing parent acts as `""` |
| DomSigner.SignValueShape | src/Signer.js:131-135 | `signValue` is `value‖sig`, or `‖open‖sig` for open values, over the same message |
| DomSigner.SignQueryArg | src/Signer.js:159-168 | the signed argument always contains `=` |
| DomSigner.OpenQueryArg | src/Signer.js:159-168 | for an open value: spaces become `_` in name and code, `%20` becomes `+`, the message ends in `--OPEN--`, and the emitted value is the encoded `--OPEN--` |
| DomSigner.ParseIntOfNat | src/Signer.js:260 | `parseInt` of a decimal numeral gives its number, whose key text is the numeral again |
| DomSigner.SplitNamePrefixFacts | src/Signer.js:257-263 | `n:t` splits into the number `n` and `t`; a name without `:` gives `[0, name]` |
| DomSigner.SplitPrefixed | src/Signer.js:257-260 | with exactly one `:` the parts are `parseInt` of the left side and the right side |
| DomSigner.LeadingZeroDropped | src/Signer.js:257-263 | `01:size` is looked up under key `1` |
| DomSigner.SignedStaysSigned | src/Signer.js:331-333 | text found signed (`‖` and 64 hex digits on the first line) stays signed when extended |
| DomSigner.GetCodeFromUrl | src/Signer.js:342-348 | the value of the first parameter named `code`, or None iff there is none |
| DomSigner.UrlCharactersPlain | src/Signer.js:357-362 | text without `%` is left unchanged |
| DomSigner.UrlCharactersPipe | src/Signer.js:357-362 | an encoded pipe becomes a pipe character and the rest is cleaned the same way |
| DomSigner.ParamsSetFacts | src/Signer.js:99 | `set` leaves exactly one value for the key, the new one, and keeps every other parameter |
| DomSigner.Without | src/Signer.js:99 | removing a key keeps exactly the parameters with other keys |
| DomSigner.SignedUrlGuards | src/Signer.js:67-89 | a signed, unparseable or code-less URL, or one whose code is empty, is returned unchanged |
| DomSigner.Element.constructor | src/Signer.js:176-187 | an element with its attributes and its `value`, `name` and parent-name properties |
| DomSigner.Signer.constructor | src/Signer.js:54-58 | the signer keeps the supplied hash engine and codes dictionary |
| DomSigner.Signer.CodeOf | src/Signer.js:182-185 | a code exists for a key iff the dictionary has a non-empty `code` under it |
| DomSigner.Signer.InputAttributes | src/Signer.js:176-191 | only `name` may change, and only when the element has a non-empty name whose prefix has a code |
| DomSigner.Signer.SignInput | src/Signer.js:176-191 | the element's new attributes are `InputAttributes` of the old ones |
| DomSigner.Signer.InputNameSigned | src/Signer.js:186-189 | the new name is `n:` followed by the signed name |
| DomSigner.Signer.OptionAttributes | src/Signer.js:211-237 | only `value` may change, and only when the name's prefix has a code |
| DomSigner.Signer.SignOption | src/Signer.js:211-237 | when neither the element nor its parent has a name the engine throws and nothing changes; otherwise the attributes become `OptionAttributes` of the name found |
| DomSigner.Signer.SignParams | src/Signer.js:91-100 | the loop returns `ParamsSigned` over the original parameters |
| DomSigner.Signer.SignUrl | src/Signer.js:67-103 | the method returns `SignedUrl` |
| CartValidation.EscapeChar | src/CartValidation/cart-validation.ts:35-41 | a special character becomes an entity starting with `&`, any other is kept, and no output contains `<`, `>` or quotes |
| CartValidation.HtmlSpecialChars | src/CartValidation/cart-validation.ts:34-43 | the output has no `<`, `>` or quote, and text without special characters is unchanged |
| CartValidation.HtmlSpecialCharsRoundTrip | src/CartValidation/cart-validation.ts:34-43 | decoding the five entities gives back the original text |
| CartValidation.StrPos | src/CartValidation/cart-validation.ts:45-48 | `false` iff the needle does not occur from the offset on; otherwise its first index there |
| CartValidation.MarkedSignedIff | src/CartValidation/cart-validation.ts:202 | the truthiness test sees `‖` iff it occurs and the text does not start with it |
| CartValidation.ParentTestIsContains | src/CartValidation/cart-validation.ts:108 | the `!== false` test is plain containment |
| CartValidation.PropertyNamesStartWithLetter | src/CartValidation/cart-validation.ts:218 | no array or object property name starts with a digit or `(` |
| CartValidation.ListedNamesNotKeys | src/CartValidation/cart-validation.ts:218-220 | no listed name is a key of the excludes array |
| CartValidation.IndexNamedPairSkipped | src/CartValidation/cart-validation.ts:218-220 | a pair named by an index of the array is excluded |
| CartValidation.PrefixedNameNeverSkipped | src/CartValidation/cart-validation.ts:272-277 | a name starting with a digit or `(` and containing `:` is never excluded by the helper |
| CartValidation.HelperInputsNeverExcluded | src/CartValidation/cart-validation.ts:284-297 | no input under a digit prefix or the default prefix is excluded in `__getSignedInput` |
| CartValidation.RevisionsDisagreeOnListedNames | src/CartValidation/cart-validation.ts:218-225 | an un-prefixed pair with a listed name is signed by the helper but excluded by the current engine |
| CartValidation.PairPrefixExclusion | src/CartValidation/cart-validation.ts:221-225 | a prefixed pair is excluded by the prefix list iff its prefix is `h:` or `x:` |
| CartValidation.HashReplacement | src/CartValidation/cart-validation.ts:215-237 | no replacement iff the pair is excluded; where the current engine also signs the pair, the replacement is the same |
| CartValidation.HashedQueryString | src/CartValidation/cart-validation.ts:198-243 | the result always starts with the cart path and `?` |
| CartValidation.HashedQueryStringGuards | src/CartValidation/cart-validation.ts:200-213 | a query marked signed, or one without `code` or `parent_code` pairs, comes back as cart path, `?` and the query |
| CartValidation.HashedQueryStringIdempotent | src/CartValidation/cart-validation.ts:198-204 | when the query part of the result looks signed, hashing that query again gives the same result |
| CartValidation.LeadingMarkNotSeen | src/CartValidation/cart-validation.ts:202 | a query starting with `‖` that has a code pair is signed again |
| CartValidation.HashPairsAgree | src/CartValidation/cart-validation.ts:215-240 | when no pair is excluded the helper rewrites the pairs exactly as the current engine |
| CartValidation.RevisionsAgreeOnPlainQueries | src/CartValidation/cart-validation.ts:198-243 | for an unmarked query without a leading `?` and without excluded pairs, the helper's result is the cart path followed by the current engine's |
| CartValidation.HashedUnmarked | src/CartValidation/cart-validation.ts:205-242 | an unmarked query is returned codeless-unchanged or rewritten, after the cart path and `?` |
| CartValidation.SignedUnmarked | src/Signer.ts:197-251 | the current engine's result on the same unmarked query, in the same form |
| CartValidation.LinkRewrite | src/CartValidation/cart-validation.ts:339-348 | the text before the match is kept, the rewrite starts with the text the `(.php)?` group captured (or `undefined`), the cart path and `?`, and ends with the match offset followed by the rest of the document |
| CartValidation.LinkSpliced | src/CartValidation/cart-validation.ts:342-346 | the same layout, with the captured group text, for any signed text behind the cart path spliced by the replacer |
| CartValidation.MarkedLinksUntouched | src/CartValidation/cart-validation.ts:334-338 | links whose query is marked signed leave the document unchanged |
| CartValidation.HelperInputs | src/CartValidation/cart-validation.ts:146-151 | the helper finds the same prefixed inputs as the current engine |
| CartValidation.ValuelessOptionsKeepPart | src/CartValidation/cart-validation.ts:396-399 | options without a value leave the shared signed part unchanged |
| CartValidation.SharedPartSigned | src/CartValidation/cart-validation.ts:400-408 | once the shared part is set, the options are signed into it as the current engine signs them into a select |
| CartValidation.FirstListAsCurrentEngine | src/CartValidation/cart-validation.ts:400-408 | for the first list with a valued option, the result equals the current engine's signed select |
| CartValidation.ValuelessListCopiesPart | src/CartValidation/cart-validation.ts:388-409 | a valueless list after a signed one is replaced by the shared part, a copy of the earlier list with its options signed |
| CartValidation.ValuelessFirstListRemoved | src/CartValidation/cart-validation.ts:389-409 | a first list whose options have no value is replaced by the empty string |
| CartValidation.TextAreaMatchThrows | src/CartValidation/cart-validation.ts:412-437 | any textarea match under a digit or default prefix throws |
| CartValidation.SkippedCodesUntouched | src/CartValidation/cart-validation.ts:365-373 | products marked signed past index 0, or with an empty code, leave the form unchanged |
| CartValidation.ThrowingCodeFails | src/CartValidation/cart-validation.ts:365-440 | a product that throws makes the whole form step throw |
| CartValidation.FormsUntouched | src/CartValidation/cart-validation.ts:352-443 | forms whose products are all skipped leave the document unchanged |
| CartValidation.HashedDocumentUntouched | src/CartValidation/cart-validation.ts:319-457 | a document whose links are marked and whose products are all skipped is returned unchanged |
| CartValidation.SignLists | src/CartValidation/cart-validation.ts:386-410 | the list loop returns `ListsSigned`, with one shared signed part |
| CartValidation.HashForm | src/CartValidation/cart-validation.ts:355-443 | the per-form loop returns `CodesSigned` over the form's products |
| CartValidation.FoxyCartHelper.constructor | src/CartValidation/cart-validation.ts:78-81 | the helper keeps the signer, and the cart path starts as `/cart` |
| CartValidation.FoxyCartHelper.SetCartUrl | src/CartValidation/cart-validation.ts:161-163 | the cart path becomes the value set |
| CartValidation.FoxyCartHelper.GetCartUrl | src/CartValidation/cart-validation.ts:165-167 | returns the current cart path |
| CartValidation.FoxyCartHelper.FcHashQuerystring | src/CartValidation/cart-validation.ts:198-243 | the loop returns `HashedQueryString` for the current cart path |
| CartValidation.FoxyCartHelper.FcHashHtml | src/CartValidation/cart-validation.ts:319-458 | the method returns `HashedHtml`, None standing for a thrown error; each link is rewritten with its captured group text, as `LinkRewrite` states |

`fc_hash_value`, `__prefixRegex` and `__getCodesFromPairs` of the older helper
(src/CartValidation/cart-validation.ts:83-103 and 251-270) have the same text as their
counterparts in `src/Signer.ts`. The model uses `Signer.SignName`, `Signer.PrefixRegex` and
`Signer.Codes` for both, so the rows above for those members cover both revisions.

## Left out

- The keyed hash (`Hmac` in src/Signer.js:2-33, src/Hmac.ts, src/Hmac.js). It is WebCrypto
  HMAC-SHA-256 with Base64 output, and it is the uninterpreted `Host.sign`. Its asynchrony
  (`await`) is not modelled.
- `encodeURI`, `decodeURI`, `encodeURIComponent` and `decodeURIComponent` are uninterpreted
  `Host` fields. Their exceptions on malformed input are not modelled.
- The JavaScript regular-expression engine. The whole-element patterns are given span
  finders (`SignerForms.Markup`, `CartValidation.Page`), and nothing is proved about how they
  find forms, anchors, selects, options, inputs or code elements. The query-pair pattern and
  the single-tag patterns are scanned explicitly.
- Regular-expression metacharacters inside names, values and prefixes that the source
  interpolates into a pattern are taken literally.
- `$` patterns in replacement strings (`$1` in the textarea step) are not interpreted.
- The textarea step of `signForm` (src/Signer.ts:364-396) is an opaque `Markup` field. It
  has an empty named group and replaces through `textarea[0]`, so nothing is claimed about it.
- The button rewrite (src/Signer.ts:477-480, src/CartValidation/cart-validation.ts:439) is an
  opaque field too. It touches only the first button and drops a closing quote, so no
  property is claimed for it.
- The WHATWG `URL` and `URLSearchParams` of `signUrl` in src/Signer.js are the `UrlApi`
  functions. The model does not capture parsing, percent-encoding in `toString`, or the
  origin of the URL.
- The element of src/Signer.js is its attribute map plus its `value`, `name` and parent-name
  properties. DOM reflection between the `value` property and the `value` attribute is not
  modelled.
- `DomSigner.Value` covers the values the element code handles: `undefined`, strings and
  integers. Non-integer numbers are not modelled.
- `toLowerCase` is modelled on ASCII letters only. Unicode case mapping is not modelled.
- `CartValidation.InExcludesArray`: JavaScript `in` on the array is modelled with its own
  keys (indices and `length`) and the listed `Array.prototype` and `Object.prototype`
  names. Other inherited names, such as symbol-keyed ones and newer proposals, are left out.
- `signTextArea` and `signRadio` (src/Signer.js:199-201, 245-247) are one-line delegations
  to `SignInput` and `SignOption` and have no members of their own.
- `matchGroups` is modelled for the query-pair pattern (`QueryPairs.MatchPairs`). For the
  HTML patterns its results are given by the span finders.
- Logging (`log.push`, `console.error`), the debug output of `fc_hash_html`, the
  `process.env` read, and the `count` fields are left out. `htmlSpecialChars` feeds only the
  log and is modelled on its own.
- The `FormRewriter` and `LinkRewriter` wrappers and the worker entry points are not part of
  this model.
- The unit tests of the builder (test/CodeBuilder.test.js) are not part of this model. The
  `CodeBuilder` lemmas on concrete names state the same cases.
- `QueryPairs.ScanRender`: the round trip is proved for plain pairs only. These are pairs
  whose separator is `&` and whose name has no `=`, `&`, `:` or `;`. The scan is
  deterministic, but rendering is not one-to-one for other names: the greedy `(?:amp;)?` and
  the optional prefix take text that a name could also hold. The pair with separator `&`,
  name `amp;x` and value `v` renders as `&amp;x=v`, which scans back as separator `&amp;`
  and name `x`.
- `Signer.SingleCodePair`: the end-to-end example assumes the URI coders are the identity
  on `code` and on the value.
- `SignerForms.SignedHtml` and `CartValidation.HashedHtml`: idempotence of a whole document is
  not claimed. Whether a second pass finds a form's codes again depends on the span
  finders. A form whose code elements are all empty is found again, and its button rewrite
  adds another `x:` to the button's name on every pass.
- `DomSigner.SignedUrl`: a signed URL is recognised only by `||` and 64 hexadecimal digits.
  The `Hmac` class (src/Hmac.js, not part of this model) returns 44 base64 characters, so
  with it a signed URL is not recognised. The model takes the hash as a parameter and claims
  no idempotence.
- `DomSigner.ParseInt` and `DomSigner.KeyOf`: `parseInt` returns a double in JavaScript, and
  the model uses unbounded integers. Digit runs above 2^53 lose precision, and numbers of 21
  digits or more print in exponent form (`1e+21`). Real prefixes have 1 to 3 digits.
- `CodeBuilder.CodeDictBuilder.constructor`: the source keeps the caller's dictionary object,
  so the caller sees later additions. The model holds the codes as a map value and does not
  capture that aliasing.
- `CartValidation.LinkRewrite`: it states the layout of the rewritten link, not the exact
  pattern match. The match itself comes from the `Page.link` finder.
