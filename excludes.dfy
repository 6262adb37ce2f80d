/** The static exclusion tables (src/excludes.ts): field names and name prefixes that
    are never signed when links and forms are signed. */
module Excludes {
  import opened Text

  /** Analytics values, cart-control values and checkout pre-population values. */
  const CartExcludes: seq<string> := [
    // Analytics values
    "_", "_ga", "_ke",
    // Cart values
    "cart", "fcsid", "empty", "coupon", "output", "sub_token", "redirect", "callback",
    "locale", "template_set",
    // Checkout pre-population values
    "customer_email", "customer_first_name", "customer_last_name", "customer_address1",
    "customer_address2", "customer_city", "customer_state", "customer_postal_code",
    "customer_country", "customer_phone", "customer_company",
    "billing_first_name", "billing_last_name", "billing_address1", "billing_address2",
    "billing_city", "billing_postal_code", "billing_region", "billing_phone", "billing_company",
    "shipping_first_name", "shipping_last_name", "shipping_address1", "shipping_address2",
    "shipping_city", "shipping_state", "shipping_country", "shipping_postal_code",
    "shipping_region", "shipping_phone", "shipping_company"
  ]

  const CartExcludesPrefixes: seq<string> := ["h:", "x:", "__", "utm_"]

  /** True when some exclusion prefix starts s. */
  predicate HasExcludedPrefix(s: string) {
    exists p :: p in CartExcludesPrefixes && StartsWith(s, p)
  }

  lemma TableSizes()
    ensures |CartExcludes| == 44 && |CartExcludesPrefixes| == 4
  {
  }

  /** The product code fields can never be excluded: neither name is listed and
      neither starts with an exclusion prefix. */
  lemma CodeFieldsNotExcluded()
    ensures "code" !in CartExcludes && "parent_code" !in CartExcludes
    ensures !HasExcludedPrefix("code") && !HasExcludedPrefix("parent_code")
  {
    EntriesChecked();
    assert "code"[..2] == "co" && "code"[..4] == "code";
    assert "parent_code"[..2] == "pa" && "parent_code"[..4] == "pare";
  }

  /** Every entry is lower case, which the callers' lower-cased prefix test relies on. */
  lemma TablesAreLowerCase()
    ensures forall e :: e in CartExcludes ==> IsLowerCase(e)
    ensures forall p :: p in CartExcludesPrefixes ==> IsLowerCase(p)
  {
    EntriesChecked();
  }

  /** What every entry satisfies: lower case, not a code field, and starting with a
      lower-case letter or '_' (so never with a digit, '(' or ':'). */
  predicate EntryFacts(e: string) {
    IsLowerCase(e) && e != "code" && e != "parent_code" && |e| > 0 && (IsLowerAscii(e[0]) || e[0] == '_')
  }

  /** No entry starts with a digit or with '(', so a name that does is never listed. */
  lemma EntriesStartWithLetter(s: string)
    requires |s| > 0 && (IsDigit(s[0]) || s[0] == '(')
    ensures s !in CartExcludes
  {
    EntriesChecked();
  }

  lemma EntriesChecked()
    ensures forall e :: e in CartExcludes ==> EntryFacts(e)
  {
    EntriesChecked0();
    EntriesChecked1();
    EntriesChecked2();
    EntriesChecked3();
    EntriesChecked4();
    EntriesChecked5();
    EntriesChecked6();
    EntriesChecked7();
    EntriesChecked8();
    EntriesChecked9();
    EntriesChecked10();
    forall e | e in CartExcludes ensures EntryFacts(e) {
      var i :| 0 <= i < |CartExcludes| && CartExcludes[i] == e;
    }
  }

  // The table is checked four entries at a time to keep each proof small.
  lemma EntriesChecked0() ensures forall i | 0 <= i < 4 :: EntryFacts(CartExcludes[i]) {}
  lemma EntriesChecked1() ensures forall i | 4 <= i < 8 :: EntryFacts(CartExcludes[i]) {}
  lemma EntriesChecked2() ensures forall i | 8 <= i < 12 :: EntryFacts(CartExcludes[i]) {}
  lemma EntriesChecked3() ensures forall i | 12 <= i < 16 :: EntryFacts(CartExcludes[i]) {}
  lemma EntriesChecked4() ensures forall i | 16 <= i < 20 :: EntryFacts(CartExcludes[i]) {}
  lemma EntriesChecked5() ensures forall i | 20 <= i < 24 :: EntryFacts(CartExcludes[i]) {}
  lemma EntriesChecked6() ensures forall i | 24 <= i < 28 :: EntryFacts(CartExcludes[i]) {}
  lemma EntriesChecked7() ensures forall i | 28 <= i < 32 :: EntryFacts(CartExcludes[i]) {}
  lemma EntriesChecked8() ensures forall i | 32 <= i < 36 :: EntryFacts(CartExcludes[i]) {}
  lemma EntriesChecked9() ensures forall i | 36 <= i < 40 :: EntryFacts(CartExcludes[i]) {}
  lemma EntriesChecked10() ensures forall i | 40 <= i < 44 :: EntryFacts(CartExcludes[i]) {}
}
