/**
 * The projects page: the category tabs with their badge counts, the
 * category-and-search filter over the catalog, the technology badges of a
 * card, and the two pieces of page state the filter reads.
 */
module ProjectsPage {
  import opened Wrappers
  import opened Seqs
  import opened Text
  import opened ProjectsData

  /** The categories in the order their tabs appear after "Todos". */
  const CategoryOrder: seq<Category> := [CSharp, Python, Laravel, React]

  datatype CategoryTab = CategoryTab(id: string, caption: string, count: nat)

  function CategoryCaption(c: Category): string
  {
    match c
    case CSharp => "C# / .NET"
    case Python => "Python"
    case Laravel => "Laravel"
    case React => "React"
  }

  function TabFor(ps: seq<Project>, c: Category): CategoryTab
  {
    CategoryTab(CategoryId(c), CategoryCaption(c), Count(ps, InCategory(c)))
  }

  /**
   * The tab list with its badge counts: "all" counts the whole catalog, each
   * category counts its own projects, and because a project has exactly one
   * of the four categories the four counts add up to the first.
   */
  function CategoryTabs(ps: seq<Project>): (tabs: seq<CategoryTab>)
    ensures |tabs| == 5
    ensures tabs[0] == CategoryTab("all", "Todos", |ps|)
    ensures forall k :: 1 <= k < 5 ==>
      tabs[k].id == CategoryId(CategoryOrder[k - 1])
      && tabs[k].caption == CategoryCaption(CategoryOrder[k - 1])
      && tabs[k].count == |GetProjectsByCategory(ps, CategoryOrder[k - 1])|
    ensures tabs[1].count + tabs[2].count + tabs[3].count + tabs[4].count == tabs[0].count
  {
    assert Distinct(CategoryOrder);
    assert forall p :: p in ps ==> CategoryOf(p) in CategoryOrder by {
      forall p | p in ps ensures CategoryOf(p) in CategoryOrder {
        assert CategoryOf(p) == CategoryOrder[0] || CategoryOf(p) == CategoryOrder[1]
            || CategoryOf(p) == CategoryOrder[2] || CategoryOf(p) == CategoryOrder[3];
      }
    }
    CountsPartition(ps, CategoryOf, CategoryOrder);
    PerCategoryCounts(ps);
    [CategoryTab("all", "Todos", |ps|)]
    + [TabFor(ps, CSharp), TabFor(ps, Python), TabFor(ps, Laravel), TabFor(ps, React)]
  }

  /** The per-key sum over the four categories, written out. */
  lemma PerCategoryCounts(ps: seq<Project>)
    ensures CountPerKey(ps, CategoryOf, CategoryOrder)
      == Count(ps, InCategory(CSharp)) + Count(ps, InCategory(Python))
       + Count(ps, InCategory(Laravel)) + Count(ps, InCategory(React))
  {
    var k1: seq<Category> := [Python, Laravel, React];
    var k2: seq<Category> := [Laravel, React];
    var k3: seq<Category> := [React];
    assert CategoryOrder[0] == CSharp && CategoryOrder[1..] == k1;
    assert k1[0] == Python && k1[1..] == k2;
    assert k2[0] == Laravel && k2[1..] == k3;
    assert k3[0] == React && k3[1..] == [];
    assert CountPerKey(ps, CategoryOf, k3) == Count(ps, InCategory(React));
    assert CountPerKey(ps, CategoryOf, k2) == Count(ps, InCategory(Laravel)) + CountPerKey(ps, CategoryOf, k3);
    assert CountPerKey(ps, CategoryOf, k1) == Count(ps, InCategory(Python)) + CountPerKey(ps, CategoryOf, k2);
  }

  /** The category test: the selection is "all" or is exactly the project's category. */
  predicate MatchesCategory(p: Project, selected: string)
  {
    selected == "all" || CategoryId(p.category) == selected
  }

  /**
   * The search test: an empty query, or the lower-cased query is a substring
   * of the lower-cased title, description, or one of the technologies.
   */
  predicate MatchesSearch(p: Project, query: string)
  {
    query == ""
    || Contains(Lower(p.title), Lower(query))
    || Contains(Lower(p.description), Lower(query))
    || exists t :: t in p.technologies && Contains(Lower(t), Lower(query))
  }

  function Passes(selected: string, query: string): Project -> bool
  {
    p => MatchesCategory(p, selected) && MatchesSearch(p, query)
  }

  /**
   * `filteredProjects`: exactly the projects passing both tests, in catalog
   * order.
   */
  function FilteredProjects(ps: seq<Project>, selected: string, query: string): (r: seq<Project>)
    ensures IsSubsequence(r, ps)
    ensures |r| == Count(ps, Passes(selected, query))
    ensures forall p :: p in r <==> p in ps && MatchesCategory(p, selected) && MatchesSearch(p, query)
  {
    FilterExact(ps, Passes(selected, query));
    Filter(ps, Passes(selected, query))
  }

  /** With no category and no query the whole catalog is shown, unchanged. */
  lemma NoFilterShowsAll(ps: seq<Project>)
    ensures FilteredProjects(ps, "all", "") == ps
  {
    FilterKeepsAll(ps, Passes("all", ""));
  }

  /** The query is compared in lower case, so a query and its lower case select the same projects. */
  lemma SearchIgnoresQueryCase(ps: seq<Project>, selected: string, query: string)
    ensures FilteredProjects(ps, selected, query) == FilteredProjects(ps, selected, Lower(query))
  {
    LowerIdempotent(query);
    assert query == "" <==> Lower(query) == "" by {
      assert |Lower(query)| == |query|;
    }
    FilterCongruent(ps, Passes(selected, query), Passes(selected, Lower(query)));
  }

  /** Filtering the shown list again with the same selection and query changes nothing. */
  lemma FilteringIsIdempotent(ps: seq<Project>, selected: string, query: string)
    ensures FilteredProjects(FilteredProjects(ps, selected, query), selected, query)
            == FilteredProjects(ps, selected, query)
  {
    FilterIdempotent(ps, Passes(selected, query));
  }

  /** Selecting a category tab with an empty query shows what `getProjectsByCategory` returns. */
  lemma CategoryTabShowsCategory(ps: seq<Project>, c: Category)
    ensures FilteredProjects(ps, CategoryId(c), "") == GetProjectsByCategory(ps, c)
  {
    forall p | p in ps ensures Passes(CategoryId(c), "")(p) == InCategory(c)(p) {
      CategoryIdInjective(p.category, c);
      assert InCategory(c)(p) == (CategoryOf(p) == c);
    }
    FilterCongruent(ps, Passes(CategoryId(c), ""), InCategory(c));
  }

  /** The technology badges of a card: at most four names, then a "+n" badge for the rest. */
  datatype TechBadges = TechBadges(shown: seq<string>, more: Option<nat>)

  function CardTechBadges(technologies: seq<string>): (b: TechBadges)
    ensures b.shown == technologies[..if |technologies| < 4 then |technologies| else 4]
    ensures b.more.Some? <==> |technologies| > 4
    ensures b.more.Some? ==> b.more.value > 0
    ensures |b.shown| + (if b.more.Some? then b.more.value else 0) == |technologies|
  {
    var n := |technologies|;
    TechBadges(technologies[..if n < 4 then n else 4], if n > 4 then Some(n - 4) else None)
  }

  /** The page's two `useState` fields and what the page renders from them. */
  class ProjectsPageView {
    var selectedCategory: string
    var searchQuery: string

    constructor ()
      ensures selectedCategory == "all" && searchQuery == ""
    {
      selectedCategory := "all";
      searchQuery := "";
    }

    /** The projects the grid shows. */
    function Visible(ps: seq<Project>): seq<Project>
      reads this
    {
      FilteredProjects(ps, selectedCategory, searchQuery)
    }

    /** The "no results" panel is shown exactly when no project passes both tests. */
    predicate ShowsNoResults(ps: seq<Project>)
      reads this
      ensures ShowsNoResults(ps) <==>
        forall p :: p in ps ==> !(MatchesCategory(p, selectedCategory) && MatchesSearch(p, searchQuery))
    {
      |Visible(ps)| == 0
    }

    /** Typing in the search box. */
    method SetSearchQuery(query: string)
      modifies this
      ensures searchQuery == query && selectedCategory == old(selectedCategory)
    {
      searchQuery := query;
    }

    /** Choosing a category tab. */
    method SetSelectedCategory(id: string)
      modifies this
      ensures selectedCategory == id && searchQuery == old(searchQuery)
    {
      selectedCategory := id;
    }

    /** "Limpiar filtros": back to ("all", ""), which shows every project again. */
    method ClearFilters()
      modifies this
      ensures selectedCategory == "all" && searchQuery == ""
      ensures forall ps :: Visible(ps) == ps
      ensures forall ps :: ShowsNoResults(ps) <==> ps == []
    {
      searchQuery := "";
      selectedCategory := "all";
      forall ps ensures Visible(ps) == ps {
        NoFilterShowsAll(ps);
      }
    }
  }
}
