/**
 * The catalogue query shared by the SQL route and by both storage classes:
 * a case-insensitive substring search over name or description and an exact
 * category filter, plus the derived list of categories.
 */
module Catalog {
  import opened Wrappers
  import opened Text
  import opened Seqs
  import opened Ordering
  import opened Schema

  /**
   * The search filter: an empty search keeps every row; otherwise the
   * lower-cased name, or the lower-cased description when it is not null,
   * must contain the lower-cased search.
   */
  predicate MatchesSearch(t: Tool, search: string) {
    || search == ""
    || Contains(Lower(t.name), Lower(search))
    || (t.description.Some? && Contains(Lower(t.description.value), Lower(search)))
  }

  /** The category filter: `""` and `"all"` keep every row; otherwise the category must be exactly `category`. */
  predicate MatchesCategory(t: Tool, category: string) {
    category == "" || category == "all" || t.category == Some(category)
  }

  predicate Matches(t: Tool, search: string, category: string) {
    MatchesSearch(t, search) && MatchesCategory(t, category)
  }

  /** The search ignores the case of its argument: lower-casing it first keeps the same rows. */
  lemma SearchIgnoresCase(t: Tool, search: string)
    ensures MatchesSearch(t, Lower(search)) == MatchesSearch(t, search)
  {
    LowerIdempotent(search);
  }

  /** The rows satisfying both filters, in stored order. */
  function Select(rows: seq<Tool>, search: string, category: string): (r: seq<Tool>)
    ensures forall t :: t in r <==> t in rows && Matches(t, search, category)
    ensures SubsequenceOf(r, rows)
  {
    var r := Filter(rows, t => Matches(t, search, category));
    assert forall t :: t in r ==> t in rows && Matches(t, search, category) by {
      forall t | t in r ensures t in rows && Matches(t, search, category) {
        var i :| 0 <= i < |r| && r[i] == t;
      }
    }
    assert forall t :: t in rows && Matches(t, search, category) ==> t in r by {
      forall t | t in rows && Matches(t, search, category) ensures t in r {
        var i :| 0 <= i < |rows| && rows[i] == t;
      }
    }
    r
  }

  /** With no search and no category restriction every stored row is selected, in stored order. */
  lemma SelectUnfiltered(rows: seq<Tool>, category: string)
    requires category == "" || category == "all"
    ensures Select(rows, "", category) == rows
  {
    FilterKeepsAll(rows, t => Matches(t, "", category));
  }

  /** The categories that count as present: non-null and non-empty. */
  function PresentCategories(rows: seq<Tool>): (r: seq<string>)
    ensures forall c :: c in r <==> c != "" && exists t :: t in rows && t.category == Some(c)
  {
    if |rows| == 0 then []
    else
      var rest := PresentCategories(rows[1..]);
      assert rows == [rows[0]] + rows[1..];
      var here := rows[0].category;
      if here.Some? && here.value != "" then [here.value] + rest else rest
  }

  /** The distinct non-null, non-empty categories of the rows, in ascending order. */
  function CategoryList(rows: seq<Tool>): (r: seq<string>)
    ensures StrictlyAscending(r)
    ensures forall c :: c in r <==> c != "" && exists t :: t in rows && t.category == Some(c)
  {
    SortedDistinct(PresentCategories(rows))
  }
}
