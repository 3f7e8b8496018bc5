/**
 * The experience catalog: the entry kinds, dates as (year, month) pairs, and
 * the lookups by kind, by "still ongoing" and by id.
 */
module ExperienceData {
  import opened Wrappers
  import opened Seqs

  /** The closed union of entry kinds. */
  datatype ExperienceType = Education | Work | Project | Certification

  /** A calendar month; "YYYY-MM" in the data. */
  datatype YearMonth = YearMonth(year: int, month: int)

  /**
   * An entry. A missing end date means the entry is current (the description,
   * technologies, achievements and location are display-only).
   */
  datatype ExperienceItem = ExperienceItem(
    id: string,
    title: string,
    organization: string,
    kind: ExperienceType,
    start: YearMonth,
    end: Option<YearMonth>)

  /** The kinds in the order the page lists them. */
  const TypeOrder: seq<ExperienceType> := [Education, Work, Project, Certification]

  function KindOf(item: ExperienceItem): ExperienceType
  {
    item.kind
  }

  function OfType(t: ExperienceType): ExperienceItem -> bool
  {
    KeyIs(KindOf, t)
  }

  /** `getExperienceByType`: exactly the entries of that kind, in catalog order. */
  function GetExperienceByType(items: seq<ExperienceItem>, t: ExperienceType): (r: seq<ExperienceItem>)
    ensures IsSubsequence(r, items)
    ensures |r| == Count(items, OfType(t))
    ensures forall x :: x in r <==> x in items && x.kind == t
  {
    FilterExact(items, OfType(t));
    forall x: ExperienceItem ensures OfType(t)(x) == (x.kind == t) {
      assert KeyIs(KindOf, t)(x) == (KindOf(x) == t);
    }
    Filter(items, OfType(t))
  }

  /** Every entry has exactly one of the four kinds, so the four lists add up to the catalog. */
  lemma KindsPartition(items: seq<ExperienceItem>)
    ensures |GetExperienceByType(items, Education)| + |GetExperienceByType(items, Work)|
          + |GetExperienceByType(items, Project)| + |GetExperienceByType(items, Certification)| == |items|
  {
    assert Distinct(TypeOrder);
    forall x | x in items ensures KindOf(x) in TypeOrder {
      assert KindOf(x) == TypeOrder[0] || KindOf(x) == TypeOrder[1]
          || KindOf(x) == TypeOrder[2] || KindOf(x) == TypeOrder[3];
    }
    CountsPartition(items, KindOf, TypeOrder);
    var k1: seq<ExperienceType> := [Work, Project, Certification];
    var k2: seq<ExperienceType> := [Project, Certification];
    var k3: seq<ExperienceType> := [Certification];
    assert TypeOrder[0] == Education && TypeOrder[1..] == k1;
    assert k1[0] == Work && k1[1..] == k2;
    assert k2[0] == Project && k2[1..] == k3;
    assert k3[0] == Certification && k3[1..] == [];
    assert CountPerKey(items, KindOf, k3) == Count(items, OfType(Certification));
    assert CountPerKey(items, KindOf, k2) == Count(items, OfType(Project)) + CountPerKey(items, KindOf, k3);
    assert CountPerKey(items, KindOf, k1) == Count(items, OfType(Work)) + CountPerKey(items, KindOf, k2);
  }

  predicate IsCurrent(item: ExperienceItem)
  {
    item.end.None?
  }

  /** `getCurrentExperience`: exactly the entries without an end date, in catalog order. */
  function GetCurrentExperience(items: seq<ExperienceItem>): (r: seq<ExperienceItem>)
    ensures IsSubsequence(r, items)
    ensures |r| == Count(items, IsCurrent)
    ensures forall x :: x in r <==> x in items && x.end.None?
  {
    FilterExact(items, IsCurrent);
    Filter(items, IsCurrent)
  }

  function HasId(id: string): ExperienceItem -> bool
  {
    (x: ExperienceItem) => x.id == id
  }

  /** `getExperienceById`: the first entry with that id, or `undefined`. */
  function GetExperienceById(items: seq<ExperienceItem>, id: string): (r: Option<ExperienceItem>)
    ensures r.None? <==> forall x :: x in items ==> x.id != id
    ensures r.Some? ==> exists i :: 0 <= i < |items| && items[i] == r.value && r.value.id == id
                          && forall j :: 0 <= j < i ==> items[j].id != id
  {
    Find(items, HasId(id))
  }
}
