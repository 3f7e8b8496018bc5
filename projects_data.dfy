/**
 * The project catalog: the slug derived from each project's title, and the
 * lookups the pages use (by category, featured, by id, by slug).
 */
module ProjectsData {
  import opened Wrappers
  import opened Seqs
  import opened Text

  /** The closed union of project categories. */
  datatype Category = CSharp | Python | Laravel | React

  /** The string a category is written as, which the pages compare against. */
  function CategoryId(c: Category): (id: string)
    ensures id != "all"
  {
    match c
    case CSharp => "csharp"
    case Python => "python"
    case Laravel => "laravel"
    case React => "react"
  }

  /** Distinct categories are written differently, so comparing the strings compares the categories. */
  lemma CategoryIdInjective(c: Category, d: Category)
    ensures CategoryId(c) == CategoryId(d) ==> c == d
  {
  }

  /** A project as authored, before its slug is added (display-only fields are not modelled). */
  datatype RawProject = RawProject(
    id: string,
    title: string,
    description: string,
    technologies: seq<string>,
    category: Category,
    featured: bool)

  datatype Project = Project(
    id: string,
    slug: string,
    title: string,
    description: string,
    technologies: seq<string>,
    category: Category,
    featured: bool)

  // ---------------------------------------------------------------- createSlug

  /** The characters JavaScript's `\s` and `String.prototype.trim` treat as white space. */
  predicate IsSpace(c: char)
  {
    ('\t' <= c <= '\r') || c == ' ' || c == '\U{A0}' || c == '\U{1680}'
    || ('\U{2000}' <= c <= '\U{200A}') || c == '\U{2028}' || c == '\U{2029}'
    || c == '\U{202F}' || c == '\U{205F}' || c == '\U{3000}' || c == '\U{FEFF}'
  }

  /** The slug alphabet `[a-z0-9-]`. */
  predicate IsSlugChar(c: char)
  {
    ('a' <= c <= 'z') || ('0' <= c <= '9') || c == '-'
  }

  predicate NoDoubleHyphen(s: string)
  {
    forall i :: 0 <= i < |s| - 1 ==> !(s[i] == '-' && s[i + 1] == '-')
  }

  /** A well-formed slug: only `a-z`, `0-9` and `-`, and never two hyphens in a row. */
  predicate IsSlug(s: string)
  {
    (forall i :: 0 <= i < |s| ==> IsSlugChar(s[i])) && NoDoubleHyphen(s)
  }

  /** One `replace(/[..]/g, to)` with a character class: every character in `from` becomes `to`. */
  function ReplaceAll(s: string, from: set<char>, to: char): (r: string)
    ensures |r| == |s|
    ensures forall i :: 0 <= i < |s| ==> r[i] == (if s[i] in from then to else s[i])
  {
    seq(|s|, i requires 0 <= i < |s| => if s[i] in from then to else s[i])
  }

  /** The six accent replacements, applied in the order the source writes them. */
  function FoldAccents(s: string): string
  {
    var a := ReplaceAll(s, {'á', 'Á'}, 'a');
    var e := ReplaceAll(a, {'é', 'É'}, 'e');
    var i := ReplaceAll(e, {'í', 'Í'}, 'i');
    var o := ReplaceAll(i, {'ó', 'Ó'}, 'o');
    var u := ReplaceAll(o, {'ú', 'Ú'}, 'u');
    ReplaceAll(u, {'ñ', 'Ñ'}, 'n')
  }

  /** Reference table: what the accent replacements do to a single character. */
  function FoldAccent(c: char): char
  {
    if c == 'á' || c == 'Á' then 'a'
    else if c == 'é' || c == 'É' then 'e'
    else if c == 'í' || c == 'Í' then 'i'
    else if c == 'ó' || c == 'Ó' then 'o'
    else if c == 'ú' || c == 'Ú' then 'u'
    else if c == 'ñ' || c == 'Ñ' then 'n'
    else c
  }

  /** The chain of replacements acts on each character independently, as the table says. */
  lemma FoldAccentsAt(s: string)
    ensures |FoldAccents(s)| == |s|
    ensures forall k :: 0 <= k < |s| ==> FoldAccents(s)[k] == FoldAccent(s[k])
  {
  }

  /** The characters that survive `replace(/[^a-z0-9\s-]/g, '')`. */
  predicate IsKept(c: char)
  {
    IsSlugChar(c) || IsSpace(c)
  }

  /** A lower-case Basic Latin letter or a decimal digit. */
  predicate IsAlnum(c: char)
  {
    ('a' <= c <= 'z') || ('0' <= c <= '9')
  }

  /** A character that is neither white space nor a hyphen: the collapses never touch it. */
  predicate IsWordChar(c: char)
  {
    !IsSpace(c) && c != '-'
  }

  predicate NotHyphen(c: char)
  {
    c != '-'
  }

  /**
   * `replace(/[^a-z0-9\s-]/g, '')`: every character outside the class is
   * dropped, and every character inside it is kept, in order.
   */
  function DropOthers(s: string): (r: string)
    ensures forall k :: 0 <= k < |r| ==> IsKept(r[k])
    ensures IsSubsequence(r, s) && |r| == Count(s, IsKept)
    ensures forall c :: c in r <==> c in s && IsKept(c)
  {
    FilterExact(s, IsKept);
    Filter(s, IsKept)
  }

  /** The rest of `s` after its leading run of white space. */
  function SkipSpaces(s: string): (r: string)
    ensures |r| <= |s| && r == s[|s| - |r|..]
    ensures s != [] && IsSpace(s[0]) ==> |r| < |s|
    ensures r == [] || !IsSpace(r[0])
    ensures forall k :: 0 <= k < |s| - |r| ==> IsSpace(s[k])
  {
    if s != [] && IsSpace(s[0]) then
      var r := SkipSpaces(s[1..]);
      assert s[1..][|s| - 1 - |r|..] == s[|s| - |r|..];
      assert forall k :: 1 <= k < |s| - |r| ==> s[k] == s[1..][k - 1];
      r
    else s
  }

  /**
   * `replace(/\s+/g, '-')`: each maximal run of white space becomes one
   * hyphen (`SpaceRunIsOneHyphen`); every character that is neither white
   * space nor a hyphen is kept, in order (`CollapseSpacesKeepsWords`).
   */
  function CollapseSpaces(s: string): (r: string)
    ensures forall k :: 0 <= k < |r| ==> !IsSpace(r[k])
    ensures forall k :: 0 <= k < |r| ==> r[k] == '-' || r[k] in s
    decreases |s|
  {
    if s == [] then []
    else if IsSpace(s[0]) then "-" + CollapseSpaces(SkipSpaces(s))
    else [s[0]] + CollapseSpaces(s[1..])
  }

  /** Every character that is neither white space nor a hyphen survives `CollapseSpaces`, in order. */
  lemma {:induction false} CollapseSpacesKeepsWords(s: string)
    ensures Filter(CollapseSpaces(s), IsWordChar) == Filter(s, IsWordChar)
    decreases |s|
  {
    if s != [] {
      if IsSpace(s[0]) {
        var rest := SkipSpaces(s);
        CollapseSpacesKeepsWords(rest);
        FilterSkipsRejected(s, |s| - |rest|, IsWordChar);
        FilterCons('-', CollapseSpaces(rest), IsWordChar);
      } else {
        CollapseSpacesKeepsWords(s[1..]);
        FilterCons(s[0], CollapseSpaces(s[1..]), IsWordChar);
        FilterCons(s[0], s[1..], IsWordChar);
        assert [s[0]] + s[1..] == s;
      }
    }
  }

  /** The rest of `s` after its leading run of hyphens. */
  function SkipHyphens(s: string): (r: string)
    ensures |r| <= |s| && r == s[|s| - |r|..]
    ensures s != [] && s[0] == '-' ==> |r| < |s|
    ensures r == [] || r[0] != '-'
    ensures forall k :: 0 <= k < |s| - |r| ==> s[k] == '-'
  {
    if s != [] && s[0] == '-' then
      var r := SkipHyphens(s[1..]);
      assert s[1..][|s| - 1 - |r|..] == s[|s| - |r|..];
      assert forall k :: 1 <= k < |s| - |r| ==> s[k] == s[1..][k - 1];
      r
    else s
  }

  /**
   * `replace(/--+/g, '-')`: each run of two or more hyphens becomes one
   * hyphen (`HyphenRunIsOneHyphen`); every other character is kept, in
   * order (`CollapseHyphensKeepsOthers`).
   */
  function CollapseHyphens(s: string): (r: string)
    ensures NoDoubleHyphen(r)
    ensures |r| == 0 <==> |s| == 0
    ensures r != [] ==> r[0] == s[0]
    ensures forall k :: 0 <= k < |r| ==> r[k] in s
    decreases |s|
  {
    if s == [] then []
    else if |s| >= 2 && s[0] == '-' && s[1] == '-' then "-" + CollapseHyphens(SkipHyphens(s))
    else [s[0]] + CollapseHyphens(s[1..])
  }

  /** Every character other than a hyphen survives `CollapseHyphens`, in order. */
  lemma {:induction false} CollapseHyphensKeepsOthers(s: string)
    ensures Filter(CollapseHyphens(s), NotHyphen) == Filter(s, NotHyphen)
    decreases |s|
  {
    if s != [] {
      if |s| >= 2 && s[0] == '-' && s[1] == '-' {
        var rest := SkipHyphens(s);
        CollapseHyphensKeepsOthers(rest);
        FilterSkipsRejected(s, |s| - |rest|, NotHyphen);
        FilterCons('-', CollapseHyphens(rest), NotHyphen);
      } else {
        CollapseHyphensKeepsOthers(s[1..]);
        FilterCons(s[0], CollapseHyphens(s[1..]), NotHyphen);
        FilterCons(s[0], s[1..], NotHyphen);
        assert [s[0]] + s[1..] == s;
      }
    }
  }

  /** A run of two or more hyphens at the head of the text becomes exactly one hyphen. */
  lemma HyphenRunAtStart(w: string, rest: string)
    requires |w| >= 2 && forall k :: 0 <= k < |w| ==> w[k] == '-'
    requires rest == [] || rest[0] != '-'
    ensures CollapseHyphens(w + rest) == "-" + CollapseHyphens(rest)
  {
    SkipHyphensOfRun(w, rest);
  }

  /**
   * `replace(/--+/g, '-')` anywhere in the text: a maximal run `w` of two or
   * more hyphens between `a` and `rest` becomes exactly one hyphen, and the
   * text on either side collapses on its own.
   */
  lemma HyphenRunIsOneHyphen(a: string, w: string, rest: string)
    requires a == [] || a[|a| - 1] != '-'
    requires |w| >= 2 && forall k :: 0 <= k < |w| ==> w[k] == '-'
    requires rest == [] || rest[0] != '-'
    ensures CollapseHyphens(a + w + rest) == CollapseHyphens(a) + "-" + CollapseHyphens(rest)
  {
    AppendAssoc(a, w, rest);
    CollapseHyphensSplit(a, w + rest);
    HyphenRunAtStart(w, rest);
    AppendAssoc(CollapseHyphens(a), "-", CollapseHyphens(rest));
  }

  /** A lone hyphen anywhere in the text (the pattern needs two) is kept as it is. */
  lemma LoneHyphenKept(a: string, rest: string)
    requires a == [] || a[|a| - 1] != '-'
    requires rest == [] || rest[0] != '-'
    ensures CollapseHyphens(a + "-" + rest) == CollapseHyphens(a) + "-" + CollapseHyphens(rest)
  {
    AppendAssoc(a, "-", rest);
    CollapseHyphensSplit(a, "-" + rest);
    LoneHyphenAtStart(rest);
    AppendAssoc(CollapseHyphens(a), "-", CollapseHyphens(rest));
  }

  lemma LoneHyphenAtStart(rest: string)
    requires rest == [] || rest[0] != '-'
    ensures CollapseHyphens("-" + rest) == "-" + CollapseHyphens(rest)
  {
    assert ("-" + rest)[1..] == rest;
  }

  /** No run of hyphens straddles a cut after a non-hyphen, so the collapse works piece by piece. */
  lemma {:induction false} CollapseHyphensSplit(a: string, b: string)
    requires a == [] || a[|a| - 1] != '-'
    ensures CollapseHyphens(a + b) == CollapseHyphens(a) + CollapseHyphens(b)
    decreases |a|
  {
    if a == [] {
      assert a + b == b;
    } else if |a| >= 2 && a[0] == '-' && a[1] == '-' {
      assert (a + b)[0] == a[0] && (a + b)[1] == a[1];
      var r := SkipHyphens(a);
      SkipHyphensAppend(a, b);
      assert r != [] && r[|r| - 1] == a[|a| - 1];
      CollapseHyphensSplit(r, b);
      AppendAssoc("-", CollapseHyphens(r), CollapseHyphens(b));
    } else {
      assert (a + b)[0] == a[0] && (a + b)[1..] == a[1..] + b;
      assert |a| >= 2 ==> (a + b)[1] == a[1];
      CollapseHyphensSplit(a[1..], b);
      AppendAssoc([a[0]], CollapseHyphens(a[1..]), CollapseHyphens(b));
    }
  }

  lemma {:induction false} SkipHyphensAppend(a: string, b: string)
    requires |a| > 0 && a[|a| - 1] != '-'
    ensures SkipHyphens(a + b) == SkipHyphens(a) + b
    decreases |a|
  {
    assert (a + b)[0] == a[0];
    if a[0] == '-' {
      assert a[1..][|a| - 2] == a[|a| - 1];
      assert (a + b)[1..] == a[1..] + b;
      SkipHyphensAppend(a[1..], b);
    }
  }

  lemma {:induction false} SkipHyphensOfRun(w: string, rest: string)
    requires forall k :: 0 <= k < |w| ==> w[k] == '-'
    requires rest == [] || rest[0] != '-'
    ensures SkipHyphens(w + rest) == rest
    decreases |w|
  {
    if w != [] {
      assert (w + rest)[1..] == w[1..] + rest;
      SkipHyphensOfRun(w[1..], rest);
    }
  }

  function TrimStart(s: string): (r: string)
    ensures |r| <= |s| && r == s[|s| - |r|..]
  {
    if s != [] && IsSpace(s[0]) then TrimStart(s[1..]) else s
  }

  function TrimEnd(s: string): (r: string)
    ensures |r| <= |s| && r == s[..|r|]
  {
    if s != [] && IsSpace(s[|s| - 1]) then TrimEnd(s[..|s| - 1]) else s
  }

  /** `String.prototype.trim`: white space removed from both ends. */
  function Trim(s: string): (r: string)
    ensures forall k :: 0 <= k < |r| ==> r[k] in s
  {
    var t := TrimEnd(TrimStart(s));
    assert forall k :: 0 <= k < |t| ==> t[k] in TrimStart(s);
    t
  }

  /**
   * `createSlug` (src/data/projects.ts), the replacement chain in source
   * order: a well-formed slug that keeps every letter and digit of the
   * lower-cased, accent-folded title, in order.
   */
  function CreateSlug(title: string): (slug: string)
    ensures IsSlug(slug)
    ensures Filter(slug, IsAlnum) == Filter(FoldAccents(Lower(title)), IsAlnum)
  {
    var lowered := Lower(title);
    var folded := FoldAccents(lowered);
    var kept := DropOthers(folded);
    var spaced := CollapseSpaces(kept);
    var hyphened := CollapseHyphens(spaced);
    CollapsedIsSlug(kept);
    TrimIsNoOp(hyphened);
    CollapsesKeepAlnum(folded);
    Trim(hyphened)
  }

  /** Letters and digits pass every step of the chain unchanged and in order. */
  lemma CollapsesKeepAlnum(folded: string)
    ensures Filter(CollapseHyphens(CollapseSpaces(DropOthers(folded))), IsAlnum) == Filter(folded, IsAlnum)
  {
    var kept := DropOthers(folded);
    var spaced := CollapseSpaces(kept);
    var hyphened := CollapseHyphens(spaced);
    CollapseSpacesKeepsWords(kept);
    CollapseHyphensKeepsOthers(spaced);
    FilterNarrower(folded, IsKept, IsAlnum);
    FilterNarrower(kept, IsWordChar, IsAlnum);
    FilterNarrower(spaced, IsWordChar, IsAlnum);
    FilterNarrower(spaced, NotHyphen, IsAlnum);
    FilterNarrower(hyphened, NotHyphen, IsAlnum);
  }

  /**
   * Once only slug characters and white space are left, the two collapses
   * give a slug, and a slug holds no white space.
   */
  lemma CollapsedIsSlug(kept: string)
    requires forall k :: 0 <= k < |kept| ==> IsKept(kept[k])
    ensures IsSlug(CollapseHyphens(CollapseSpaces(kept)))
    ensures forall k :: 0 <= k < |CollapseHyphens(CollapseSpaces(kept))| ==>
      !IsSpace(CollapseHyphens(CollapseSpaces(kept))[k])
  {
    var spaced := CollapseSpaces(kept);
    forall k | 0 <= k < |spaced| ensures IsSlugChar(spaced[k]) {
      if spaced[k] != '-' {
        var j :| 0 <= j < |kept| && kept[j] == spaced[k];
        assert IsKept(kept[j]) && !IsSpace(spaced[k]);
      }
    }
    var hyphened := CollapseHyphens(spaced);
    forall k | 0 <= k < |hyphened| ensures IsSlugChar(hyphened[k]) {
      var j :| 0 <= j < |spaced| && spaced[j] == hyphened[k];
    }
  }

  /** The final `trim` never removes anything: no white space survives the `\s+` replacement. */
  lemma TrimIsNoOp(s: string)
    requires forall k :: 0 <= k < |s| ==> !IsSpace(s[k])
    ensures Trim(s) == s
  {
    assert TrimStart(s) == s;
    assert TrimEnd(s) == s;
  }

  /** A run of white space at the head of the text becomes exactly one hyphen. */
  lemma SpaceRunAtStart(w: string, rest: string)
    requires |w| > 0 && forall k :: 0 <= k < |w| ==> IsSpace(w[k])
    requires rest == [] || !IsSpace(rest[0])
    ensures CollapseSpaces(w + rest) == "-" + CollapseSpaces(rest)
  {
    SkipSpacesOfRun(w, rest);
  }

  /**
   * `replace(/\s+/g, '-')` anywhere in the text: a maximal run `w` of white
   * space between `a` and `rest` becomes exactly one hyphen, and the text on
   * either side collapses on its own.
   */
  lemma SpaceRunIsOneHyphen(a: string, w: string, rest: string)
    requires a == [] || !IsSpace(a[|a| - 1])
    requires |w| > 0 && forall k :: 0 <= k < |w| ==> IsSpace(w[k])
    requires rest == [] || !IsSpace(rest[0])
    ensures CollapseSpaces(a + w + rest) == CollapseSpaces(a) + "-" + CollapseSpaces(rest)
  {
    AppendAssoc(a, w, rest);
    CollapseSpacesSplit(a, w + rest);
    SpaceRunAtStart(w, rest);
    AppendAssoc(CollapseSpaces(a), "-", CollapseSpaces(rest));
  }

  /** No run of white space straddles a cut after a non-space, so the collapse works piece by piece. */
  lemma {:induction false} CollapseSpacesSplit(a: string, b: string)
    requires a == [] || !IsSpace(a[|a| - 1])
    ensures CollapseSpaces(a + b) == CollapseSpaces(a) + CollapseSpaces(b)
    decreases |a|
  {
    if a == [] {
      assert a + b == b;
    } else if IsSpace(a[0]) {
      assert (a + b)[0] == a[0];
      var r := SkipSpaces(a);
      SkipSpacesAppend(a, b);
      assert r != [] && r[|r| - 1] == a[|a| - 1];
      CollapseSpacesSplit(r, b);
      AppendAssoc("-", CollapseSpaces(r), CollapseSpaces(b));
    } else {
      assert (a + b)[0] == a[0] && (a + b)[1..] == a[1..] + b;
      CollapseSpacesSplit(a[1..], b);
      AppendAssoc([a[0]], CollapseSpaces(a[1..]), CollapseSpaces(b));
    }
  }

  lemma {:induction false} SkipSpacesAppend(a: string, b: string)
    requires |a| > 0 && !IsSpace(a[|a| - 1])
    ensures SkipSpaces(a + b) == SkipSpaces(a) + b
    decreases |a|
  {
    assert (a + b)[0] == a[0];
    if IsSpace(a[0]) {
      assert a[1..][|a| - 2] == a[|a| - 1];
      assert (a + b)[1..] == a[1..] + b;
      SkipSpacesAppend(a[1..], b);
    }
  }

  /** Two words joined by a space give the two words joined by a hyphen ("hola mundo" gives "hola-mundo"). */
  lemma TwoWordsJoinedByHyphen(u: string, v: string)
    requires |u| > 0 && forall k :: 0 <= k < |u| ==> IsAlnum(u[k])
    requires |v| > 0 && forall k :: 0 <= k < |v| ==> IsAlnum(v[k])
    ensures CreateSlug(u + " " + v) == u + "-" + v
  {
    WordsAreKept(u, v);
    WordsCollapse(u, v);
    WordsKeepHyphen(u, v);
    TrimIsNoOp(u + "-" + v);
    CreateSlugSteps(u + " " + v);
  }

  /** The one space between two words becomes one hyphen. */
  lemma WordsCollapse(u: string, v: string)
    requires |u| > 0 && forall k :: 0 <= k < |u| ==> IsAlnum(u[k])
    requires |v| > 0 && forall k :: 0 <= k < |v| ==> IsAlnum(v[k])
    ensures CollapseSpaces(u + " " + v) == u + "-" + v
    ensures forall k :: 0 <= k < |u + "-" + v| ==> !IsSpace((u + "-" + v)[k])
  {
    SpaceRunIsOneHyphen(u, " ", v);
    CollapseSpacesNoSpace(u);
    CollapseSpacesNoSpace(v);
  }

  /** The second collapse keeps the one hyphen between two words. */
  lemma WordsKeepHyphen(u: string, v: string)
    requires |u| > 0 && forall k :: 0 <= k < |u| ==> IsAlnum(u[k])
    requires |v| > 0 && forall k :: 0 <= k < |v| ==> IsAlnum(v[k])
    ensures CollapseHyphens(u + "-" + v) == u + "-" + v
  {
    LoneHyphenKept(u, v);
    CollapseHyphensNoDouble(u);
    CollapseHyphensNoDouble(v);
  }

  lemma CreateSlugSteps(title: string)
    ensures CreateSlug(title) == Trim(CollapseHyphens(CollapseSpaces(DropOthers(FoldAccents(Lower(title))))))
  {
  }

  /** Lower-casing, accent folding and the character filter leave letters, digits and a space alone. */
  lemma WordsAreKept(u: string, v: string)
    requires forall k :: 0 <= k < |u| ==> IsAlnum(u[k])
    requires forall k :: 0 <= k < |v| ==> IsAlnum(v[k])
    ensures DropOthers(FoldAccents(Lower(u + " " + v))) == u + " " + v
  {
    var t := u + " " + v;
    assert forall k :: 0 <= k < |t| ==> IsAlnum(t[k]) || t[k] == ' ' by {
      forall k | 0 <= k < |t| ensures IsAlnum(t[k]) || t[k] == ' ' {
        if k < |u| { assert t[k] == u[k]; }
        else if k > |u| { assert t[k] == v[k - |u| - 1]; }
      }
    }
    LowerOfLower(t);
    FoldAccentsAt(t);
    assert FoldAccents(t) == t;
    FilterKeepsAll(t, IsKept);
  }


  lemma {:induction false} SkipSpacesOfRun(w: string, rest: string)
    requires forall k :: 0 <= k < |w| ==> IsSpace(w[k])
    requires rest == [] || !IsSpace(rest[0])
    ensures SkipSpaces(w + rest) == rest
    decreases |w|
  {
    if w != [] {
      assert (w + rest)[1..] == w[1..] + rest;
      SkipSpacesOfRun(w[1..], rest);
    }
  }

  lemma {:induction false} CollapseSpacesNoSpace(s: string)
    requires forall k :: 0 <= k < |s| ==> !IsSpace(s[k])
    ensures CollapseSpaces(s) == s
    decreases |s|
  {
    if s != [] {
      CollapseSpacesNoSpace(s[1..]);
    }
  }

  lemma {:induction false} CollapseHyphensNoDouble(s: string)
    requires NoDoubleHyphen(s)
    ensures CollapseHyphens(s) == s
    decreases |s|
  {
    if s != [] {
      CollapseHyphensNoDouble(s[1..]);
    }
  }

  /** A well-formed slug is a fixed point of every step of the chain. */
  lemma SlugIsFixedPoint(s: string)
    requires IsSlug(s)
    ensures CreateSlug(s) == s
  {
    LowerOfLower(s);
    assert Lower(s) == s;
    FoldAccentsAt(s);
    assert FoldAccents(s) == s;
    FilterKeepsAll(s, IsKept);
    CollapseSpacesNoSpace(s);
    CollapseHyphensNoDouble(s);
    TrimIsNoOp(s);
  }

  /** `createSlug` is idempotent. */
  lemma CreateSlugIdempotent(title: string)
    ensures CreateSlug(CreateSlug(title)) == CreateSlug(title)
  {
    SlugIsFixedPoint(CreateSlug(title));
  }

  /**
   * Leading white space is not trimmed away: it has already become a hyphen
   * when `trim` runs, so a title starting with a space gives a slug starting
   * with `-` (" Hola" gives "-hola").
   */
  lemma LeadingSpaceBecomesHyphen(title: string)
    requires |title| > 0 && IsSpace(title[0])
    ensures |CreateSlug(title)| > 0 && CreateSlug(title)[0] == '-'
  {
    var kept := DropOthers(FoldAccents(Lower(title)));
    assert |kept| > 0 && IsSpace(kept[0]) by {
      var folded := FoldAccents(Lower(title));
      assert |folded| > 0 && IsSpace(folded[0]) by {
        FoldAccentsAt(Lower(title));
      }
      FilterKeepsHead(folded, IsKept);
    }
    var spaced := CollapseSpaces(kept);
    assert spaced == "-" + CollapseSpaces(SkipSpaces(kept));
    var hyphened := CollapseHyphens(spaced);
    assert hyphened[0] == '-';
    CollapsedIsSlug(kept);
    TrimIsNoOp(hyphened);
  }

  lemma FilterKeepsHead(s: string, p: char -> bool)
    requires |s| > 0 && p(s[0])
    ensures |Filter(s, p)| > 0 && Filter(s, p)[0] == s[0]
  {
  }

  // ------------------------------------------------------------------ catalog

  /** `projectsRaw.map(...)`: every project gets the slug of its title; nothing else changes. */
  function WithSlugs(raw: seq<RawProject>): (ps: seq<Project>)
    ensures |ps| == |raw|
    ensures forall i :: 0 <= i < |raw| ==>
      ps[i] == Project(raw[i].id, CreateSlug(raw[i].title), raw[i].title, raw[i].description,
                       raw[i].technologies, raw[i].category, raw[i].featured)
    ensures forall p :: p in ps ==> IsSlug(p.slug)
  {
    seq(|raw|, i requires 0 <= i < |raw| =>
      Project(raw[i].id, CreateSlug(raw[i].title), raw[i].title, raw[i].description,
              raw[i].technologies, raw[i].category, raw[i].featured))
  }

  function CategoryOf(p: Project): Category
  {
    p.category
  }

  function InCategory(c: Category): Project -> bool
  {
    KeyIs(CategoryOf, c)
  }

  /** `getProjectsByCategory`: exactly the projects of category `c`, in catalog order. */
  function GetProjectsByCategory(ps: seq<Project>, c: Category): (r: seq<Project>)
    ensures IsSubsequence(r, ps)
    ensures |r| == Count(ps, InCategory(c))
    ensures forall p :: p in r <==> p in ps && p.category == c
  {
    forall p: Project ensures InCategory(c)(p) == (p.category == c) {
      assert KeyIs(CategoryOf, c)(p) == (CategoryOf(p) == c);
    }
    FilterExact(ps, InCategory(c));
    Filter(ps, InCategory(c))
  }

  predicate IsFeatured(p: Project)
  {
    p.featured
  }

  /** `getFeaturedProjects`: exactly the featured projects, in catalog order. */
  function GetFeaturedProjects(ps: seq<Project>): (r: seq<Project>)
    ensures IsSubsequence(r, ps)
    ensures |r| == Count(ps, IsFeatured)
    ensures forall p :: p in r <==> p in ps && p.featured
  {
    FilterExact(ps, IsFeatured);
    Filter(ps, IsFeatured)
  }

  function HasId(id: string): Project -> bool
  {
    (p: Project) => p.id == id
  }

  function HasSlug(slug: string): Project -> bool
  {
    (p: Project) => p.slug == slug
  }

  /** `getProjectById`: the first project with that id, or nothing when none has it. */
  function GetProjectById(ps: seq<Project>, id: string): (r: Option<Project>)
    ensures r.None? <==> forall p :: p in ps ==> p.id != id
    ensures r.Some? ==> exists i :: 0 <= i < |ps| && ps[i] == r.value && r.value.id == id
                          && forall j :: 0 <= j < i ==> ps[j].id != id
  {
    Find(ps, HasId(id))
  }

  /** `getProjectBySlug`: the first project with that slug, or nothing when none has it. */
  function GetProjectBySlug(ps: seq<Project>, slug: string): (r: Option<Project>)
    ensures r.None? <==> forall p :: p in ps ==> p.slug != slug
    ensures r.Some? ==> exists i :: 0 <= i < |ps| && ps[i] == r.value && r.value.slug == slug
                          && forall j :: 0 <= j < i ==> ps[j].slug != slug
  {
    Find(ps, HasSlug(slug))
  }

  /**
   * Every project's detail page resolves: looking up the slug made from a
   * project's title finds a project with that slug (the first one, should two
   * titles give the same slug).
   */
  lemma SlugLookupFindsProject(raw: seq<RawProject>, i: nat)
    requires i < |raw|
    ensures GetProjectBySlug(WithSlugs(raw), CreateSlug(raw[i].title)).Some?
    ensures GetProjectBySlug(WithSlugs(raw), CreateSlug(raw[i].title)).value.slug == CreateSlug(raw[i].title)
  {
    var ps := WithSlugs(raw);
    assert ps[i] in ps && ps[i].slug == CreateSlug(raw[i].title);
  }
}
