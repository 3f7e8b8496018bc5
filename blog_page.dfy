/**
 * The blog page: the category-and-search filter over the posts, the list each
 * category tab shows, the popular tags and the two pieces of page state.
 */
module BlogPage {
  import opened Seqs
  import opened Text
  import opened BlogData

  /**
   * The category test: the selection is "all", or the post's slugified
   * category equals the selected tab id (the id itself is not lower-cased).
   */
  predicate MatchesCategory(p: BlogPost, selected: string)
  {
    selected == "all" || SlugifyCategory(p.category) == selected
  }

  /**
   * The search test: an empty query, or the lower-cased query is a substring
   * of the lower-cased title, excerpt, or one of the tags.
   */
  predicate MatchesSearch(p: BlogPost, query: string)
  {
    query == ""
    || Contains(Lower(p.title), Lower(query))
    || Contains(Lower(p.excerpt), Lower(query))
    || exists t :: t in p.tags && Contains(Lower(t), Lower(query))
  }

  function Passes(selected: string, query: string): BlogPost -> bool
  {
    p => MatchesCategory(p, selected) && MatchesSearch(p, query)
  }

  /** `filteredPosts`: exactly the posts passing both tests, in catalog order. */
  function FilteredPosts(posts: seq<BlogPost>, selected: string, query: string): (r: seq<BlogPost>)
    ensures IsSubsequence(r, posts)
    ensures |r| == Count(posts, Passes(selected, query))
    ensures forall p :: p in r <==> p in posts && MatchesCategory(p, selected) && MatchesSearch(p, query)
  {
    FilterExact(posts, Passes(selected, query));
    Filter(posts, Passes(selected, query))
  }

  /**
   * What the tab `tabId` lists: the filtered posts themselves for "all", and
   * otherwise the filtered posts whose slugified category is `tabId`.
   */
  function TabPosts(filtered: seq<BlogPost>, tabId: string): (r: seq<BlogPost>)
    ensures tabId == "all" ==> r == filtered
    ensures tabId != "all" ==> IsSubsequence(r, filtered)
    ensures tabId != "all" ==> |r| == Count(filtered, CategorySlugIs(tabId))
    ensures tabId != "all" ==>
      forall p :: p in r <==> p in filtered && SlugifyCategory(p.category) == tabId
  {
    if tabId == "all" then filtered
    else
      FilterExact(filtered, CategorySlugIs(tabId));
      Filter(filtered, CategorySlugIs(tabId))
  }

  /**
   * With "all" selected, the tab `tabId` shows exactly what selecting that
   * tab would have filtered: choosing a tab and filtering by it agree.
   */
  lemma TabOfAllIsSelection(posts: seq<BlogPost>, tabId: string, query: string)
    ensures TabPosts(FilteredPosts(posts, "all", query), tabId) == FilteredPosts(posts, tabId, query)
  {
    if tabId != "all" {
      forall p ensures Passes(tabId, query)(p) == (Passes("all", query)(p) && CategorySlugIs(tabId)(p)) {
        assert CategorySlugIs(tabId)(p) == (SlugifyCategory(p.category) == tabId);
      }
      FilterFilter(posts, Passes("all", query), CategorySlugIs(tabId), Passes(tabId, query));
    }
  }

  /** The tab matching the selection shows the whole filtered list. */
  lemma SelectedTabShowsAllFiltered(posts: seq<BlogPost>, selected: string, query: string)
    ensures TabPosts(FilteredPosts(posts, selected, query), selected) == FilteredPosts(posts, selected, query)
  {
    if selected != "all" {
      var filtered := FilteredPosts(posts, selected, query);
      forall p | p in filtered ensures CategorySlugIs(selected)(p) {
        assert SlugifyCategory(p.category) == selected;
      }
      FilterKeepsAll(filtered, CategorySlugIs(selected));
    }
  }

  /** Any tab other than the selected one and "all" is empty while a category is selected. */
  lemma OtherTabsEmpty(posts: seq<BlogPost>, selected: string, query: string, tabId: string)
    requires selected != "all" && tabId != "all" && tabId != selected
    ensures TabPosts(FilteredPosts(posts, selected, query), tabId) == []
  {
  }

  /** With no category and no query every post is shown, unchanged. */
  lemma NoFilterShowsAll(posts: seq<BlogPost>)
    ensures FilteredPosts(posts, "all", "") == posts
  {
    FilterKeepsAll(posts, Passes("all", ""));
  }

  /** A post carrying `tag` passes the search once the query is set to that tag. */
  lemma CarriedTagMatchesSearch(p: BlogPost, tag: string)
    requires tag in p.tags
    ensures MatchesSearch(p, tag)
  {
    ContainsSelf(Lower(tag));
  }

  /**
   * Every post `getBlogPostsByTag` returns for a tag is shown when the query
   * is that tag and no category is selected.
   */
  lemma TagLookupWithinSearch(posts: seq<BlogPost>, tag: string)
    ensures forall p :: p in GetBlogPostsByTag(posts, tag) ==> p in FilteredPosts(posts, "all", tag)
  {
    forall p | p in GetBlogPostsByTag(posts, tag) ensures MatchesSearch(p, tag) {
      var t :| t in p.tags && Lower(t) == Lower(tag);
      ContainsSelf(Lower(t));
    }
  }

  /**
   * "Tags Populares": the first ten entries of the tag list, or all of them
   * when there are fewer. On a list sorted by count, no hidden tag has a
   * larger count than a shown one.
   */
  function PopularTags(all: seq<TagCount>): (shown: seq<TagCount>)
    ensures |shown| == if |all| < 10 then |all| else 10
    ensures shown == all[..|shown|]
    ensures SortedByCount(all) ==>
      forall i, j :: 0 <= i < |shown| <= j < |all| ==> shown[i].count >= all[j].count
  {
    all[..if |all| < 10 then |all| else 10]
  }

  /** The page's two `useState` fields and what the page renders from them. */
  class BlogPageView {
    var selectedCategory: string
    var searchQuery: string

    constructor ()
      ensures selectedCategory == "all" && searchQuery == ""
    {
      selectedCategory := "all";
      searchQuery := "";
    }

    /** The posts the page filters for its tabs. */
    function Visible(posts: seq<BlogPost>): seq<BlogPost>
      reads this
    {
      FilteredPosts(posts, selectedCategory, searchQuery)
    }

    /** The "no results" panel is shown exactly when no post passes both tests. */
    predicate ShowsNoResults(posts: seq<BlogPost>)
      reads this
      ensures ShowsNoResults(posts) <==>
        forall p :: p in posts ==> !(MatchesCategory(p, selectedCategory) && MatchesSearch(p, searchQuery))
    {
      |Visible(posts)| == 0
    }

    /** Typing in the search box. */
    method SetSearchQuery(query: string)
      modifies this
      ensures searchQuery == query && selectedCategory == old(selectedCategory)
    {
      searchQuery := query;
    }

    /** Choosing a category tab. */
    method SetSelectedCategory(id: string)
      modifies this
      ensures selectedCategory == id && searchQuery == old(searchQuery)
    {
      selectedCategory := id;
    }

    /**
     * Clicking a popular tag: the query becomes the tag, so every post of the
     * selected category carrying it is shown.
     */
    method ClickTag(tag: string)
      modifies this
      ensures searchQuery == tag && selectedCategory == old(selectedCategory)
      ensures forall posts: seq<BlogPost>, p ::
        p in posts && tag in p.tags && MatchesCategory(p, selectedCategory) ==> p in Visible(posts)
    {
      searchQuery := tag;
      forall posts: seq<BlogPost>, p | p in posts && tag in p.tags && MatchesCategory(p, selectedCategory)
        ensures p in Visible(posts)
      {
        CarriedTagMatchesSearch(p, tag);
      }
    }

    /**
     * "Limpiar filtros": back to ("all", ""), which shows every post again, so
     * the panel stays only when there are no posts at all.
     */
    method ClearFilters()
      modifies this
      ensures selectedCategory == "all" && searchQuery == ""
      ensures forall posts :: Visible(posts) == posts
      ensures forall posts :: ShowsNoResults(posts) <==> posts == []
    {
      searchQuery := "";
      selectedCategory := "all";
      forall posts ensures Visible(posts) == posts {
        NoFilterShowsAll(posts);
      }
    }
  }
}
