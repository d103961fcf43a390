/** `buildVendorRules`: the rows of the vendor rules sheet that name a vendor, as rules. */
module VendorRules {
  import opened Text
  import opened Cells
  import opened Seqs
  import opened FinanceTypes

  /** `filter((row) => row.Vendor_Contains)`. */
  predicate NamesVendor(row: Row) {
    Truthy(Field(row, "Vendor_Contains"))
  }

  /** The rule the `map` builds from a kept row. */
  function RuleOf(row: Row): VendorRule {
    VendorRule(
      vendorContains := TextField(row, "Vendor_Contains"),
      assignCategory := TextField(row, "Assign_Category"),
      assignSubcategory := TextField(row, "Assign_Subcategory"),
      tag := TextField(row, "Tag"))
  }

  /** `buildVendorRules(rows)`. */
  function VendorRulesOf(rows: seq<Row>): seq<VendorRule> {
    MapSeq(RuleOf, Filter(NamesVendor, rows))
  }

  /**
   * The rules are built sheet section by sheet section: the rules of two
   * consecutive runs of rows are the rules of the first followed by those of
   * the second, so input order is kept.
   */
  lemma VendorRulesAppend(a: seq<Row>, b: seq<Row>)
    ensures VendorRulesOf(a + b) == VendorRulesOf(a) + VendorRulesOf(b)
  {
    FilterAppend(NamesVendor, a, b);
    MapSeqAppend(RuleOf, Filter(NamesVendor, a), Filter(NamesVendor, b));
  }

  /** A single row gives its rule exactly when its `Vendor_Contains` is truthy, and nothing otherwise. */
  lemma VendorRuleOfOneRow(row: Row)
    ensures VendorRulesOf([row]) == if NamesVendor(row) then [RuleOf(row)] else []
  {
    assert [row][1..] == [];
  }

  /**
   * Exactly the rows with a truthy `Vendor_Contains` give rules: every such
   * row's rule is in the output and every rule in the output is such a row's.
   */
  lemma VendorRulesExactlyNamed(rows: seq<Row>)
    ensures |VendorRulesOf(rows)| <= |rows|
    ensures forall i :: 0 <= i < |rows| && NamesVendor(rows[i]) ==> RuleOf(rows[i]) in VendorRulesOf(rows)
    ensures forall rule :: rule in VendorRulesOf(rows) ==>
      exists i :: 0 <= i < |rows| && NamesVendor(rows[i]) && rule == RuleOf(rows[i])
  {
    MapFilterExactly(RuleOf, NamesVendor, rows);
  }

  /**
   * `Vendor_Contains` is tested before it is trimmed: a cell of white space
   * only is truthy, so its row gives a rule whose `vendorContains` is empty.
   */
  lemma BlankVendorKept(row: Row, blank: string)
    requires blank != [] && AllSpace(blank)
    requires Field(row, "Vendor_Contains") == Str(blank)
    ensures VendorRulesOf([row]) == [RuleOf(row)]
    ensures RuleOf(row).vendorContains == ""
  {
    VendorRuleOfOneRow(row);
    TrimPadded(blank, [], []);
    assert blank + [] + [] == blank;
  }
}
