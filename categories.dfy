/** The fixed set of expense categories, listed identically where an expense is
    added and where a model reply is snapped onto a category. */
module Categories {
  import opened JsText

  const ValidCategories: seq<string> :=
    ["Food", "Transportation", "Entertainment", "Shopping", "Bills", "Healthcare", "Other"]

  /** `validCategories.includes(s)`: an exact, case-sensitive match. */
  predicate IsCategory(s: string) {
    s in ValidCategories
  }

  /** No category name is empty or has white space at either end, so
      trimming leaves each one as it is. */
  lemma CategoryIsTrimmed(s: string)
    requires IsCategory(s)
    ensures s != [] && Trimmed(s)
  {
    var i :| 0 <= i < |ValidCategories| && ValidCategories[i] == s;
    assert i == 0 || i == 1 || i == 2 || i == 3 || i == 4 || i == 5 || i == 6;
  }

  /** Every category name starts with a capital letter, so the lower-case
      spelling of a name is not a category. */
  lemma CategoryCapitalised(s: string)
    requires IsCategory(s)
    ensures s != [] && 'A' <= s[0] <= 'Z'
  {
    var i :| 0 <= i < |ValidCategories| && ValidCategories[i] == s;
    assert i == 0 || i == 1 || i == 2 || i == 3 || i == 4 || i == 5 || i == 6;
  }
}
