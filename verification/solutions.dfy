/**
  The solutions browser's search: an order-preserving filter of the catalog by
  category and by a case-insensitive substring search over title and steps.
 */
module Solutions {
  import opened Text
  import opened Seqs
  import opened ReportTypes

  /** A remediation guide for one kind of issue. */
  datatype Solution = Solution(
    id: string,
    category: ReportCategory,
    title: string,
    thumbnail: string,
    steps: seq<string>)

  /** The category selector: every category, or a single one. */
  datatype CategoryFilter = All | Only(category: ReportCategory)

  /** The category half of the rule: the selector is "all" or names the guide's category. */
  predicate CategoryMatches(filter: CategoryFilter, s: Solution) {
    filter == All || filter == Only(s.category)
  }

  /** The text half of the rule: the lower-cased term occurs in the lower-cased title or in some lower-cased step. */
  ghost predicate TextMatches(s: Solution, term: string) {
    || Contains(Lower(s.title), Lower(term))
    || exists j :: 0 <= j < |s.steps| && Contains(Lower(s.steps[j]), Lower(term))
  }

  /** A guide is listed when both halves of the rule hold. */
  ghost predicate Selected(s: Solution, term: string, filter: CategoryFilter) {
    CategoryMatches(filter, s) && TextMatches(s, term)
  }

  /** `steps.some(step => step.toLowerCase().includes(query))`. */
  function SomeStepIncludes(steps: seq<string>, query: string): (b: bool)
    ensures b <==> exists j :: 0 <= j < |steps| && Contains(Lower(steps[j]), query)
  {
    if steps == [] then false
    else if Includes(Lower(steps[0]), query) then true
    else
      var b := SomeStepIncludes(steps[1..], query);
      assert forall j :: 0 < j < |steps| ==> steps[j] == steps[1..][j - 1];
      assert b ==> exists j :: 0 <= j < |steps| && Contains(Lower(steps[j]), query) by {
        if b {
          var j :| 0 <= j < |steps[1..]| && Contains(Lower(steps[1..][j]), query);
          assert steps[j + 1] == steps[1..][j];
        }
      }
      b
  }

  /** The callback handed to `filter`, evaluated as the page evaluates it. */
  function Keep(s: Solution, term: string, filter: CategoryFilter): (b: bool)
    ensures b <==> Selected(s, term, filter)
  {
    var query := Lower(term);
    var matchesCategory := filter == All || s.category == filter.category;
    var matchesSearch := Includes(Lower(s.title), query) || SomeStepIncludes(s.steps, query);
    matchesCategory && matchesSearch
  }

  /**
    `SOLUTIONS.filter(solution => ...)`: the guides of the catalog that satisfy
    the rule, in catalog order, each as often as it occurs in the catalog.
   */
  function FilterSolutions(catalog: seq<Solution>, term: string, filter: CategoryFilter): (r: seq<Solution>)
    ensures IsSubsequence(r, catalog)
    ensures forall x :: x in r <==> x in catalog && Selected(x, term, filter)
    ensures forall x :: multiset(r)[x] == if Selected(x, term, filter) then multiset(catalog)[x] else 0
  {
    Filter(catalog, s => Keep(s, term, filter))
  }

  /** With "all" and an empty search term every guide is listed, so the whole catalog comes back. */
  lemma EmptySearchListsCatalog(catalog: seq<Solution>)
    ensures FilterSolutions(catalog, "", All) == catalog
  {
    forall i | 0 <= i < |catalog| ensures Keep(catalog[i], "", All) {
      ContainsEmpty(Lower(catalog[i].title));
    }
    FilterKeepsAll(catalog, s => Keep(s, "", All));
  }

  /** For a fixed term, narrowing to one category lists a subsequence of what "all" lists. */
  lemma CategoryNarrowsAll(catalog: seq<Solution>, term: string, c: ReportCategory)
    ensures IsSubsequence(FilterSolutions(catalog, term, Only(c)), FilterSolutions(catalog, term, All))
  {
    FilterMonotone(catalog, s => Keep(s, term, Only(c)), s => Keep(s, term, All));
  }

  /** Two terms that lower-case alike list the same guides in the same order. */
  lemma SearchIgnoresCase(catalog: seq<Solution>, t1: string, t2: string, filter: CategoryFilter)
    requires Lower(t1) == Lower(t2)
    ensures FilterSolutions(catalog, t1, filter) == FilterSolutions(catalog, t2, filter)
  {
    FilterCongruent(catalog, s => Keep(s, t1, filter), s => Keep(s, t2, filter));
  }

  /** Selecting a category no guide has lists nothing, whatever the search term. */
  lemma AbsentCategoryListsNothing(catalog: seq<Solution>, term: string, c: ReportCategory)
    requires forall i :: 0 <= i < |catalog| ==> catalog[i].category != c
    ensures FilterSolutions(catalog, term, Only(c)) == []
  {
    assert forall x :: x in catalog ==> !CategoryMatches(Only(c), x);
  }
}
