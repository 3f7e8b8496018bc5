/**
 * The blog catalog: category badge counts, the lookups by category, tag,
 * slug and the featured flag, and the tag frequency table behind "popular
 * tags".
 */
module BlogData {
  import opened Wrappers
  import opened Seqs
  import opened Text

  /** A post (the body, author, dates and image are display-only and not modelled). */
  datatype BlogPost = BlogPost(
    id: string,
    slug: string,
    title: string,
    excerpt: string,
    tags: seq<string>,
    category: string,
    featured: bool)

  datatype CategoryTab = CategoryTab(id: string, caption: string, count: nat)

  function CategoryOf(p: BlogPost): string
  {
    p.category
  }

  function HasCategory(c: string): BlogPost -> bool
  {
    KeyIs(CategoryOf, c)
  }

  /** The three named categories, as the data writes them. */
  const NamedCategories: seq<string> := ["Frontend", "Backend", "Data Science"]

  /**
   * `categories`: "all" counts every post; each other tab counts the posts
   * whose category is exactly that string. Category is a free string, so the
   * three named counts add up to at most the total.
   */
  function CategoryTabs(posts: seq<BlogPost>): (tabs: seq<CategoryTab>)
    ensures |tabs| == 4
    ensures tabs[0] == CategoryTab("all", "Todos", |posts|)
    ensures tabs[1] == CategoryTab("frontend", "Frontend", |Filter(posts, HasCategory("Frontend"))|)
    ensures tabs[2] == CategoryTab("backend", "Backend", |Filter(posts, HasCategory("Backend"))|)
    ensures tabs[3] == CategoryTab("data-science", "Data Science", |Filter(posts, HasCategory("Data Science"))|)
    ensures tabs[1].count + tabs[2].count + tabs[3].count <= tabs[0].count
  {
    FilterLength(posts, HasCategory("Frontend"));
    FilterLength(posts, HasCategory("Backend"));
    FilterLength(posts, HasCategory("Data Science"));
    NamedCategoryCounts(posts);
    [ CategoryTab("all", "Todos", |posts|),
      CategoryTab("frontend", "Frontend", |Filter(posts, HasCategory("Frontend"))|),
      CategoryTab("backend", "Backend", |Filter(posts, HasCategory("Backend"))|),
      CategoryTab("data-science", "Data Science", |Filter(posts, HasCategory("Data Science"))|) ]
  }

  lemma NamedCategoryCounts(posts: seq<BlogPost>)
    ensures Count(posts, HasCategory("Frontend")) + Count(posts, HasCategory("Backend"))
            + Count(posts, HasCategory("Data Science")) <= |posts|
  {
    var ks := NamedCategories;
    assert Distinct(ks);
    CountsAtMostLength(posts, CategoryOf, ks);
    var k1: seq<string> := ["Backend", "Data Science"];
    var k2: seq<string> := ["Data Science"];
    assert ks[0] == "Frontend" && ks[1..] == k1;
    assert k1[0] == "Backend" && k1[1..] == k2;
    assert k2[0] == "Data Science" && k2[1..] == [];
    assert CountPerKey(posts, CategoryOf, k2) == Count(posts, HasCategory("Data Science"));
    assert CountPerKey(posts, CategoryOf, k1) == Count(posts, HasCategory("Backend")) + CountPerKey(posts, CategoryOf, k2);
  }

  /**
   * A category as a tab id: as long as the category, with no upper-case
   * letter left, and only the first space (after lower-casing) replaced by "-".
   */
  function SlugifyCategory(category: string): (id: string)
    ensures |id| == |category|
    ensures forall i :: 0 <= i < |id| ==> !IsUpper(id[i])
    ensures forall i :: 0 <= i < |category| ==>
      id[i] == (if category[i] == ' ' && ' ' !in category[..i] then '-' else LowerChar(category[i]))
  {
    ReplaceFirst(Lower(category), ' ', '-')
  }

  function CategorySlugIs(id: string): BlogPost -> bool
  {
    (p: BlogPost) => SlugifyCategory(p.category) == id
  }

  /**
   * `getBlogPostsByCategory`: "all" gives the whole list unchanged; any other
   * argument keeps, in order, the posts whose slugified category equals the
   * lower-cased argument.
   */
  function GetBlogPostsByCategory(posts: seq<BlogPost>, category: string): (r: seq<BlogPost>)
    ensures category == "all" ==> r == posts
    ensures category != "all" ==> IsSubsequence(r, posts)
    ensures category != "all" ==> |r| == Count(posts, CategorySlugIs(Lower(category)))
    ensures category != "all" ==>
      forall p :: p in r <==> p in posts && SlugifyCategory(p.category) == Lower(category)
  {
    if category == "all" then posts
    else
      FilterExact(posts, CategorySlugIs(Lower(category)));
      Filter(posts, CategorySlugIs(Lower(category)))
  }

  lemma FrontendLowered()
    ensures Lower("Frontend") == "frontend"
  {
    assert "Frontend" == ['F'] + "rontend";
    LowerConcat(['F'], "rontend");
    LowerUpperLetter('F', 'f');
    LowerOfLower("rontend");
    assert ['f'] + "rontend" == "frontend";
  }

  lemma BackendLowered()
    ensures Lower("Backend") == "backend"
  {
    assert "Backend" == ['B'] + "ackend";
    LowerConcat(['B'], "ackend");
    LowerUpperLetter('B', 'b');
    LowerOfLower("ackend");
    assert ['b'] + "ackend" == "backend";
  }

  lemma DataScienceLowered()
    ensures Lower("Data Science") == "data science"
  {
    assert "Data Science" == ['D'] + "ata " + ['S'] + "cience";
    LowerConcat(['D'] + "ata " + ['S'], "cience");
    LowerConcat(['D'] + "ata ", ['S']);
    LowerConcat(['D'], "ata ");
    LowerOfLower("ata ");
    LowerOfLower("cience");
    LowerUpperLetter('D', 'd');
    LowerUpperLetter('S', 's');
    assert ['d'] + "ata " + ['s'] + "cience" == "data science";
  }

  /** "Frontend" slugifies to its tab id, which lower-casing leaves unchanged. */
  lemma FrontendSlug()
    ensures SlugifyCategory("Frontend") == "frontend" && Lower("frontend") == "frontend"
  {
    FrontendLowered();
    SpacelessSlug("frontend");
    LowerOfLower("frontend");
  }

  /** "Backend" slugifies to its tab id, which lower-casing leaves unchanged. */
  lemma BackendSlug()
    ensures SlugifyCategory("Backend") == "backend" && Lower("backend") == "backend"
  {
    BackendLowered();
    SpacelessSlug("backend");
    LowerOfLower("backend");
  }

  /** "Data Science" slugifies to its tab id, which lower-casing leaves unchanged. */
  lemma DataScienceSlug()
    ensures SlugifyCategory("Data Science") == "data-science" && Lower("data-science") == "data-science"
  {
    DataScienceLowered();
    TwoWordSlug();
    LowerOfLower("data-science");
  }

  /** Each named category slugifies to the id of its own tab. */
  lemma NamedCategorySlugs()
    ensures SlugifyCategory("Frontend") == "frontend"
    ensures SlugifyCategory("Backend") == "backend"
    ensures SlugifyCategory("Data Science") == "data-science"
  {
    FrontendSlug();
    BackendSlug();
    DataScienceSlug();
  }

  lemma SpacelessSlug(s: string)
    requires forall i :: 0 <= i < |s| ==> s[i] != ' '
    ensures ReplaceFirst(s, ' ', '-') == s
  {
  }

  /** Only the first space is replaced. */
  lemma TwoWordSlug()
    ensures ReplaceFirst("data science", ' ', '-') == "data-science"
  {
    DataSciencePieces();
    ReplaceFirstAt("data", "science", ' ', '-');
  }

  lemma DataSciencePieces()
    ensures "data science" == "data" + [' '] + "science"
    ensures "data" + ['-'] + "science" == "data-science"
    ensures ' ' !in "data"
  {
  }

  /**
   * The badge of a named tab counts the posts whose category is exactly that
   * name; the tab itself also lists posts whose category differs only in
   * letter case, so the badge never exceeds what the tab shows.
   */
  lemma BadgeWithinTab(posts: seq<BlogPost>, k: nat)
    requires 1 <= k < 4
    ensures CategoryTabs(posts)[k].count <= |GetBlogPostsByCategory(posts, CategoryTabs(posts)[k].id)|
  {
    if k == 1 {
      FrontendSlug();
      NamedWithinSlugged(posts, "Frontend", "frontend");
    } else if k == 2 {
      BackendSlug();
      NamedWithinSlugged(posts, "Backend", "backend");
    } else {
      DataScienceSlug();
      NamedWithinSlugged(posts, "Data Science", "data-science");
    }
  }

  /** The posts whose category is exactly `name` are among those listed under a tab `id` it slugifies to. */
  lemma NamedWithinSlugged(posts: seq<BlogPost>, name: string, id: string)
    requires id != "all" && SlugifyCategory(name) == Lower(id)
    ensures |Filter(posts, HasCategory(name))| <= |GetBlogPostsByCategory(posts, id)|
  {
    forall p ensures HasCategory(name)(p) ==> CategorySlugIs(Lower(id))(p) {
      assert HasCategory(name)(p) == (CategoryOf(p) == name);
    }
    CountMonotone(posts, CategorySlugIs(Lower(id)), HasCategory(name));
    FilterLength(posts, CategorySlugIs(Lower(id)));
    FilterLength(posts, HasCategory(name));
  }

  predicate IsFeatured(p: BlogPost)
  {
    p.featured
  }

  /** `getFeaturedBlogPosts`: exactly the featured posts, in order. */
  function GetFeaturedBlogPosts(posts: seq<BlogPost>): (r: seq<BlogPost>)
    ensures IsSubsequence(r, posts)
    ensures |r| == Count(posts, IsFeatured)
    ensures forall p :: p in r <==> p in posts && p.featured
  {
    FilterExact(posts, IsFeatured);
    Filter(posts, IsFeatured)
  }

  function HasSlug(slug: string): BlogPost -> bool
  {
    (p: BlogPost) => p.slug == slug
  }

  /** `getBlogPostBySlug`: the first post with that slug, or nothing. */
  function GetBlogPostBySlug(posts: seq<BlogPost>, slug: string): (r: Option<BlogPost>)
    ensures r.None? <==> forall p :: p in posts ==> p.slug != slug
    ensures r.Some? ==> exists i :: 0 <= i < |posts| && posts[i] == r.value && r.value.slug == slug
                          && forall j :: 0 <= j < i ==> posts[j].slug != slug
  {
    Find(posts, HasSlug(slug))
  }

  /** Some tag of the post equals `tag` when both are lower-cased (a whole-string match). */
  predicate HasTagIgnoringCase(p: BlogPost, tag: string)
  {
    exists t :: t in p.tags && Lower(t) == Lower(tag)
  }

  function TagMatches(tag: string): BlogPost -> bool
  {
    (p: BlogPost) => HasTagIgnoringCase(p, tag)
  }

  /** `getBlogPostsByTag`: the posts carrying the tag in any letter case, in order. */
  function GetBlogPostsByTag(posts: seq<BlogPost>, tag: string): (r: seq<BlogPost>)
    ensures IsSubsequence(r, posts)
    ensures |r| == Count(posts, TagMatches(tag))
    ensures forall p :: p in r <==> p in posts && HasTagIgnoringCase(p, tag)
  {
    FilterExact(posts, TagMatches(tag));
    Filter(posts, TagMatches(tag))
  }

  // ------------------------------------------------------------ getAllTags

  datatype TagCount = TagCount(tag: string, count: nat)

  /** How many entries of `tags` are exactly `t`. */
  function Occurrences(tags: seq<string>, t: string): nat
  {
    if tags == [] then 0
    else Occurrences(tags[..|tags| - 1], t) + (if tags[|tags| - 1] == t then 1 else 0)
  }

  /** How many (post, tag) entries of the catalog are exactly `t`: case matters. */
  function TagTotal(posts: seq<BlogPost>, t: string): nat
  {
    if posts == [] then 0
    else TagTotal(posts[..|posts| - 1], t) + Occurrences(posts[|posts| - 1].tags, t)
  }

  /** The number of (post, tag) entries in the catalog. */
  function TagEntries(posts: seq<BlogPost>): nat
  {
    if posts == [] then 0 else TagEntries(posts[..|posts| - 1]) + |posts[|posts| - 1].tags|
  }

  function SumCounts(r: seq<TagCount>): nat
  {
    if r == [] then 0 else r[0].count + SumCounts(r[1..])
  }

  predicate SortedByCount(r: seq<TagCount>)
  {
    forall i, j :: 0 <= i < j < |r| ==> r[i].count >= r[j].count
  }

  predicate DistinctTags(r: seq<TagCount>)
  {
    forall i, j :: 0 <= i < j < |r| ==> r[i].tag != r[j].tag
  }

  lemma {:induction false} OccurrencesPositive(tags: seq<string>, t: string)
    ensures Occurrences(tags, t) > 0 <==> t in tags
    decreases |tags|
  {
    if tags != [] {
      var init := tags[..|tags| - 1];
      OccurrencesPositive(init, t);
      assert tags == init + [tags[|tags| - 1]];
    }
  }

  /** A tag has a positive count exactly when some post carries it. */
  lemma {:induction false} TagTotalPositive(posts: seq<BlogPost>, t: string)
    ensures TagTotal(posts, t) > 0 <==> exists p :: p in posts && t in p.tags
    decreases |posts|
  {
    if posts != [] {
      var init := posts[..|posts| - 1];
      var last := posts[|posts| - 1];
      TagTotalPositive(init, t);
      OccurrencesPositive(last.tags, t);
      assert posts == init + [last];
      if exists p :: p in posts && t in p.tags {
        var p :| p in posts && t in p.tags;
        assert p in init || p == last;
      }
    }
  }

  /** The sum of the dictionary's counts over the keys `keys`. */
  function SumOver(keys: seq<string>, counts: map<string, nat>): nat
    requires forall k :: k in keys ==> k in counts
  {
    if keys == [] then 0
    else SumOver(keys[..|keys| - 1], counts) + counts[keys[|keys| - 1]]
  }

  lemma {:induction false} SumOverAgree(keys: seq<string>, a: map<string, nat>, b: map<string, nat>)
    requires forall k :: k in keys ==> k in a && k in b && a[k] == b[k]
    ensures SumOver(keys, a) == SumOver(keys, b)
    decreases |keys|
  {
    if keys != [] {
      SumOverAgree(keys[..|keys| - 1], a, b);
    }
  }

  /** Incrementing the count of one key that occurs once in `keys` adds one to the sum. */
  lemma {:induction false} SumOverIncrement(keys: seq<string>, counts: map<string, nat>, tag: string)
    requires forall k :: k in keys ==> k in counts
    requires Distinct(keys) && tag in keys
    ensures SumOver(keys, counts[tag := counts[tag] + 1]) == SumOver(keys, counts) + 1
    decreases |keys|
  {
    var updated := counts[tag := counts[tag] + 1];
    var init := keys[..|keys| - 1];
    var last := keys[|keys| - 1];
    assert keys == init + [last];
    assert Distinct(init);
    if last == tag {
      assert tag !in init;
      SumOverAgree(init, counts, updated);
    } else {
      assert tag in init;
      SumOverIncrement(init, counts, tag);
    }
  }

  /** Adding a key that was not there with count one adds one to the sum. */
  lemma SumOverNewKey(keys: seq<string>, counts: map<string, nat>, tag: string)
    requires forall k :: k in keys ==> k in counts
    requires tag !in keys
    ensures SumOver(keys + [tag], counts[tag := 1]) == SumOver(keys, counts) + 1
  {
    var extended := keys + [tag];
    assert extended[..|extended| - 1] == keys;
    SumOverAgree(keys, counts, counts[tag := 1]);
  }

  /**
   * One step of the sort by count, descending: `e` goes after every entry
   * whose count is at least its own, so entries of equal count keep their
   * relative order.
   */
  function InsertByCount(r: seq<TagCount>, e: TagCount): (s: seq<TagCount>)
    ensures multiset(s) == multiset(r) + multiset{e}
    ensures SumCounts(s) == SumCounts(r) + e.count
  {
    if r == [] then [e]
    else if r[0].count >= e.count then
      assert r == [r[0]] + r[1..];
      [r[0]] + InsertByCount(r[1..], e)
    else
      assert r == [r[0]] + r[1..];
      [e] + r
  }

  /** Insertion adds exactly `e` to the entries. */
  lemma InsertMembers(r: seq<TagCount>, e: TagCount)
    ensures forall x :: x in InsertByCount(r, e) <==> x == e || x in r
  {
    var s := InsertByCount(r, e);
    forall x ensures x in s <==> x == e || x in r {
      assert x in s <==> x in multiset(s);
      assert x in r <==> x in multiset(r);
    }
  }

  lemma {:induction false} InsertKeepsSorted(r: seq<TagCount>, e: TagCount)
    requires SortedByCount(r)
    ensures SortedByCount(InsertByCount(r, e))
    decreases |r|
  {
    var out := InsertByCount(r, e);
    if r != [] && r[0].count >= e.count {
      var rest := InsertByCount(r[1..], e);
      assert out == [r[0]] + rest;
      InsertKeepsSorted(r[1..], e);
      InsertMembers(r[1..], e);
      forall i, j | 0 <= i < j < |out| ensures out[i].count >= out[j].count {
        if i == 0 {
          var x := rest[j - 1];
          assert x in rest && out[j] == x;
          if x != e {
            var k :| 0 <= k < |r| - 1 && r[1..][k] == x;
            assert r[k + 1] == x;
          }
        } else {
          assert out[i] == rest[i - 1] && out[j] == rest[j - 1];
        }
      }
    } else if r != [] {
      assert out == [e] + r;
      forall i, j | 0 <= i < j < |out| ensures out[i].count >= out[j].count {
        if i == 0 {
          assert out[j] == r[j - 1] && r[0].count >= r[j - 1].count;
        } else {
          assert out[i] == r[i - 1] && out[j] == r[j - 1];
        }
      }
    }
  }

  lemma {:induction false} InsertKeepsDistinct(r: seq<TagCount>, e: TagCount)
    requires DistinctTags(r)
    requires forall x :: x in r ==> x.tag != e.tag
    ensures DistinctTags(InsertByCount(r, e))
    decreases |r|
  {
    var out := InsertByCount(r, e);
    if r != [] && r[0].count >= e.count {
      var rest := InsertByCount(r[1..], e);
      assert out == [r[0]] + rest;
      InsertKeepsDistinct(r[1..], e);
      InsertMembers(r[1..], e);
      forall i, j | 0 <= i < j < |out| ensures out[i].tag != out[j].tag {
        if i == 0 {
          var x := rest[j - 1];
          assert x in rest && out[j] == x;
          if x != e {
            var k :| 0 <= k < |r| - 1 && r[1..][k] == x;
            assert r[k + 1] == x;
          }
        } else {
          assert out[i] == rest[i - 1] && out[j] == rest[j - 1];
        }
      }
    } else if r != [] {
      assert out == [e] + r;
      forall i, j | 0 <= i < j < |out| ensures out[i].tag != out[j].tag {
        if i == 0 {
          assert out[j] == r[j - 1] && r[j - 1] in r;
        } else {
          assert out[i] == r[i - 1] && out[j] == r[j - 1];
        }
      }
    }
  }

  /** The tags an entry list names. */
  ghost function TagsListed(r: seq<TagCount>): set<string>
  {
    set e | e in r :: e.tag
  }

  /** The tags that some post carries. */
  ghost function TagsCarried(posts: seq<BlogPost>): set<string>
  {
    set p, t | p in posts && t in p.tags :: t
  }

  /** The count of `t` in the dictionary, with a missing key read as zero (`tagCounts[tag] || 0`). */
  function Lookup(counts: map<string, nat>, t: string): nat
  {
    if t in counts then counts[t] else 0
  }

  /**
   * The dictionary built so far holds the tallies of the posts `done` and the
   * first tags `tags` of the next post: each key once in `keys`, every key's
   * count positive and equal to its number of occurrences, and the counts
   * adding up to the number of entries seen.
   */
  ghost predicate Tallies(keys: seq<string>, counts: map<string, nat>, done: seq<BlogPost>, tags: seq<string>)
  {
    Distinct(keys)
    && (forall t :: t in counts <==> t in keys)
    && (forall t :: t in counts ==> counts[t] > 0)
    && (forall t :: Lookup(counts, t) == TagTotal(done, t) + Occurrences(tags, t))
    && SumOver(keys, counts) == TagEntries(done) + |tags|
  }

  /** Counting one more tag keeps the tallies. */
  lemma TalliesStep(keys: seq<string>, counts: map<string, nat>, done: seq<BlogPost>, all: seq<string>, j: nat)
    requires j < |all| && Tallies(keys, counts, done, all[..j])
    ensures all[j] in counts ==> Tallies(keys, counts[all[j] := counts[all[j]] + 1], done, all[..j + 1])
    ensures all[j] !in counts ==> Tallies(keys + [all[j]], counts[all[j] := 1], done, all[..j + 1])
  {
    var tags := all[..j];
    var tag := all[j];
    var next := all[..j + 1];
    assert next[..|next| - 1] == tags && next[|next| - 1] == tag;
    if tag in counts {
      SumOverIncrement(keys, counts, tag);
    } else {
      SumOverNewKey(keys, counts, tag);
      var ks := keys + [tag];
      assert Distinct(ks) by {
        forall i, j | 0 <= i < j < |ks| ensures ks[i] != ks[j] {
          if j == |keys| {
            assert ks[i] == keys[i] && keys[i] in keys;
          }
        }
      }
    }
  }

  /** Once a post's tags are all counted, the tallies cover that post. */
  lemma TalliesNextPost(keys: seq<string>, counts: map<string, nat>, done: seq<BlogPost>, p: BlogPost)
    requires Tallies(keys, counts, done, p.tags)
    ensures Tallies(keys, counts, done + [p], [])
  {
    var next := done + [p];
    assert next[..|next| - 1] == done;
  }

  /**
   * `getAllTags`: count every (post, tag) entry into a dictionary keyed by the
   * exact tag, then list the dictionary's entries sorted by count, largest
   * first. The result lists each tag once, with its number of exact-case
   * occurrences; the counts add up to the number of entries.
   */
  method GetAllTags(posts: seq<BlogPost>) returns (r: seq<TagCount>)
    ensures forall e :: e in r <==> e.count > 0 && e.count == TagTotal(posts, e.tag)
    ensures DistinctTags(r)
    ensures SortedByCount(r)
    ensures SumCounts(r) == TagEntries(posts)
    ensures TagsListed(r) == TagsCarried(posts)
  {
    var keys: seq<string> := [];
    var counts: map<string, nat> := map[];
    var i := 0;
    assert posts[..0] == [];
    while i < |posts|
      invariant 0 <= i <= |posts|
      invariant Tallies(keys, counts, posts[..i], [])
    {
      keys, counts := TallyPost(keys, counts, posts[..i], posts[i]);
      assert posts[..i + 1] == posts[..i] + [posts[i]];
      i := i + 1;
    }
    assert posts[..i] == posts;
    r := ListByCount(keys, counts);
    ListedTallies(keys, counts, posts, r);
  }

  /** The inner loop: each tag of the post `p` is counted into the dictionary. */
  method TallyPost(keys: seq<string>, counts: map<string, nat>, done: seq<BlogPost>, p: BlogPost)
    returns (keys': seq<string>, counts': map<string, nat>)
    requires Tallies(keys, counts, done, [])
    ensures Tallies(keys', counts', done + [p], [])
  {
    keys', counts' := keys, counts;
    var tags := p.tags;
    var j := 0;
    while j < |tags|
      invariant 0 <= j <= |tags|
      invariant Tallies(keys', counts', done, tags[..j])
    {
      var tag := tags[j];
      TalliesStep(keys', counts', done, tags, j);
      if tag in counts' {
        counts' := counts'[tag := counts'[tag] + 1];
      } else {
        keys' := keys' + [tag];
        counts' := counts'[tag := 1];
      }
      j := j + 1;
    }
    assert tags[..j] == tags;
    TalliesNextPost(keys', counts', done, p);
  }

  /** The entries listed from the finished tallies are the tags' totals. */
  lemma ListedTallies(keys: seq<string>, counts: map<string, nat>, posts: seq<BlogPost>, r: seq<TagCount>)
    requires Tallies(keys, counts, posts, [])
    requires forall e :: e in r <==> e.tag in counts && e.count == counts[e.tag]
    ensures forall e :: e in r <==> e.count > 0 && e.count == TagTotal(posts, e.tag)
    ensures TagsListed(r) == TagsCarried(posts)
  {
    forall e: TagCount ensures e in r <==> e.count > 0 && e.count == TagTotal(posts, e.tag) {
      assert Lookup(counts, e.tag) == TagTotal(posts, e.tag);
    }
    forall t ensures t in TagsListed(r) <==> t in TagsCarried(posts) {
      TagTotalPositive(posts, t);
      if t in counts {
        assert TagCount(t, counts[t]) in r;
      }
    }
  }

  /** Inserting the entry of the next key keeps the loop's invariant of `ListByCount`. */
  lemma ListStep(keys: seq<string>, counts: map<string, nat>, k: nat, r: seq<TagCount>)
    requires Distinct(keys)
    requires forall t :: t in counts <==> t in keys
    requires k < |keys|
    requires SortedByCount(r) && DistinctTags(r)
    requires forall e :: e in r <==> e.tag in keys[..k] && e.count == counts[e.tag]
    requires SumCounts(r) == SumOver(keys[..k], counts)
    ensures var r' := InsertByCount(r, TagCount(keys[k], counts[keys[k]]));
      SortedByCount(r') && DistinctTags(r')
      && (forall e :: e in r' <==> e.tag in keys[..k + 1] && e.count == counts[e.tag])
      && SumCounts(r') == SumOver(keys[..k + 1], counts)
  {
    var e := TagCount(keys[k], counts[keys[k]]);
    assert keys[k] !in keys[..k];
    InsertKeepsSorted(r, e);
    InsertKeepsDistinct(r, e);
    var r' := InsertByCount(r, e);
    var ks := keys[..k + 1];
    assert ks == keys[..k] + [keys[k]];
    assert ks[..|ks| - 1] == keys[..k];
    forall x ensures x in r' <==> x.tag in ks && x.count == counts[x.tag] {
      assert x in r' <==> x in multiset(r');
      assert x in r <==> x in multiset(r);
      assert x.tag in ks <==> x.tag in keys[..k] || x.tag == keys[k];
    }
  }

  /**
   * The dictionary's entries, inserted one key at a time into a list kept
   * sorted by count, largest first.
   */
  method ListByCount(keys: seq<string>, counts: map<string, nat>) returns (r: seq<TagCount>)
    requires Distinct(keys)
    requires forall t :: t in counts <==> t in keys
    ensures forall e :: e in r <==> e.tag in counts && e.count == counts[e.tag]
    ensures DistinctTags(r)
    ensures SortedByCount(r)
    ensures SumCounts(r) == SumOver(keys, counts)
  {
    r := [];
    var k := 0;
    while k < |keys|
      invariant 0 <= k <= |keys|
      invariant SortedByCount(r)
      invariant DistinctTags(r)
      invariant forall e :: e in r <==> e.tag in keys[..k] && e.count == counts[e.tag]
      invariant SumCounts(r) == SumOver(keys[..k], counts)
    {
      var e := TagCount(keys[k], counts[keys[k]]);
      ListStep(keys, counts, k, r);
      r := InsertByCount(r, e);
      k := k + 1;
    }
    assert keys[..k] == keys;
  }
}
