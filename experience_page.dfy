/**
 * The experience page: the Spanish duration text of an entry, the accordion
 * groups by kind with their "elemento(s)" badges, the order of the entries
 * inside a group, and the summary counts.
 */
module ExperiencePage {
  import opened Wrappers
  import opened Seqs
  import opened Text
  import opened ExperienceData

  // ------------------------------------------------------- calculateDuration

  /**
   * Whole calendar months from `start` to `end`, the day of the month ignored:
   * the distance between the two months on the month scale, positive exactly
   * when `end` comes later and negative when it comes earlier.
   */
  function MonthsBetween(start: YearMonth, end: YearMonth): (m: int)
    ensures MonthIndex(start) + m == MonthIndex(end)
    ensures m > 0 <==> MonthIndex(start) < MonthIndex(end)
  {
    (end.year - start.year) * 12 + (end.month - start.month)
  }

  /** A number followed by its noun, singular exactly when the number is 1. */
  function Quantity(n: nat, one: string, many: string): string
  {
    NatToString(n) + " " + (if n == 1 then one else many)
  }

  /**
   * The text for a month count, branch by branch as the page writes it: the
   * fixed text under one month, and otherwise a text that opens with a
   * decimal number (its grammar is `DurationGrammar`, its reading back
   * `DurationRoundTrip`).
   */
  function DurationText(months: int): (text: string)
    ensures months >= 1 ==> LeadingDigits(text) > 0
  {
    if months < 1 then "Menos de 1 mes"
    else if months == 1 then "1 mes"
    else if months < 12 then NatToString(months) + " meses"
    else
      var years := months / 12;
      var remaining := months % 12;
      if years == 1 && remaining == 0 then "1 año"
      else if years == 1 then "1 año y " + NatToString(remaining) + " " + (if remaining == 1 then "mes" else "meses")
      else if remaining == 0 then NatToString(years) + " años"
      else NatToString(years) + " años y " + NatToString(remaining) + " " + (if remaining == 1 then "mes" else "meses")
  }

  /**
   * `calculateDuration`: the text of the whole months from the start month to
   * the end month, or to the current month `now` when the entry has no end
   * date; it reads back as that number of months, or zero under one month.
   */
  function CalculateDuration(start: YearMonth, end: Option<YearMonth>, now: YearMonth): (text: string)
    ensures var m := MonthsBetween(start, if end.Some? then end.value else now);
      ParseDuration(text) == Some(if m < 1 then 0 else m)
  {
    var m := MonthsBetween(start, if end.Some? then end.value else now);
    DurationRoundTrip(m);
    DurationText(m)
  }

  /** Whole years and the months left over. */
  function YearsAndMonths(months: nat): (p: (nat, nat))
    ensures p.0 * 12 + p.1 == months
    ensures p.1 < 12
  {
    (months / 12, months % 12)
  }

  /**
   * The branches agree with one grammar rule: under a year, a month count;
   * from a year on, a year count followed, when the leftover months are not
   * zero, by " y " and a month count; each noun singular exactly for 1.
   */
  lemma DurationGrammar(months: int)
    ensures months < 1 ==> DurationText(months) == "Menos de 1 mes"
    ensures 1 <= months < 12 ==> DurationText(months) == Quantity(months, "mes", "meses")
    ensures months >= 12 ==>
      var (years, remaining) := YearsAndMonths(months);
      DurationText(months) == Quantity(years, "año", "años")
        + (if remaining == 0 then "" else " y " + Quantity(remaining, "mes", "meses"))
  {
    assert NatToString(1) == "1";
    if months >= 12 {
      GrammarYears(months, months / 12, months % 12);
    }
  }

  lemma GrammarYears(months: int, years: nat, remaining: nat)
    requires months >= 12 && years == months / 12 && remaining == months % 12
    ensures DurationText(months) == Quantity(years, "año", "años")
        + (if remaining == 0 then "" else " y " + Quantity(remaining, "mes", "meses"))
  {
    if years == 1 && remaining == 0 {
      GrammarOneYear(months);
    } else if years == 1 {
      GrammarOneYearAndMonths(months, remaining);
    } else if remaining == 0 {
      GrammarWholeYears(months, years);
    } else {
      GrammarYearsAndMonths(months, years, remaining);
    }
  }

  lemma GrammarOneYear(months: int)
    requires months >= 12 && months / 12 == 1 && months % 12 == 0
    ensures DurationText(months) == Quantity(1, "año", "años")
  {
    assert NatToString(1) == "1";
    assert "1" + " " + "año" == "1 año";
  }

  lemma GrammarOneYearAndMonths(months: int, remaining: nat)
    requires months >= 12 && months / 12 == 1 && remaining == months % 12 && remaining != 0
    ensures DurationText(months) == Quantity(1, "año", "años") + " y " + Quantity(remaining, "mes", "meses")
  {
    assert NatToString(1) == "1";
    var noun := if remaining == 1 then "mes" else "meses";
    assert DurationText(months) == "1 año y " + NatToString(remaining) + " " + noun;
    assert "1 año y " == "1" + " " + "año" + " y ";
  }

  lemma GrammarWholeYears(months: int, years: nat)
    requires months >= 12 && years == months / 12 && years != 1 && months % 12 == 0
    ensures DurationText(months) == Quantity(years, "año", "años")
  {
  }

  lemma GrammarYearsAndMonths(months: int, years: nat, remaining: nat)
    requires months >= 12 && years == months / 12 && years != 1 && remaining == months % 12 && remaining != 0
    ensures DurationText(months) == Quantity(years, "año", "años") + " y " + Quantity(remaining, "mes", "meses")
  {
    var noun := if remaining == 1 then "mes" else "meses";
    assert DurationText(months) == NatToString(years) + " años y " + NatToString(remaining) + " " + noun;
    assert " años y " == " " + "años" + " y ";
  }

  /** The leading decimal number of `s` and what follows it, when `s` starts with a digit. */
  function SplitNumber(s: string): Option<(nat, string)>
  {
    var k := LeadingDigits(s);
    if k == 0 then None else Some((DigitsValue(s[..k]), s[k..]))
  }

  /** Reading a count back from "<n> <one>" or "<n> <many>", such as "3 meses" or "1 elemento". */
  function ParseQuantity(s: string, one: string, many: string): Option<nat>
  {
    match SplitNumber(s)
    case None => None
    case Some((n, rest)) => if rest == " " + one || rest == " " + many then Some(n) else None
  }

  /** Reading the number of months back from a duration text. */
  function ParseDuration(s: string): Option<nat>
  {
    if s == "Menos de 1 mes" then Some(0)
    else match SplitNumber(s)
      case None => None
      case Some((n, rest)) => ParseUnits(n, rest)
  }

  /** The months a text denotes once its leading number `n` is read and `rest` is left. */
  function ParseUnits(n: nat, rest: string): Option<nat>
  {
    if rest == " mes" || rest == " meses" then Some(n)
    else if rest == " año" || rest == " años" then Some(12 * n)
    else if |rest| >= 7 && rest[..7] == " año y " then
      (match ParseQuantity(rest[7..], "mes", "meses") case None => None case Some(r) => Some(12 * n + r))
    else if |rest| >= 8 && rest[..8] == " años y " then
      (match ParseQuantity(rest[8..], "mes", "meses") case None => None case Some(r) => Some(12 * n + r))
    else None
  }

  /** A number's text followed by a space splits back into the number and the rest. */
  lemma SplitNumberOfText(n: nat, rest: string)
    requires |rest| > 0 && rest[0] == ' '
    ensures SplitNumber(NatToString(n) + rest) == Some((n, rest))
  {
    var ds := NatToString(n);
    var s := ds + rest;
    LeadingDigitsOfDigits(ds, rest);
    assert s[..|ds|] == ds && s[|ds|..] == rest;
    NatToStringRoundTrip(n);
  }

  /** A text that starts with a number reads back through its units. */
  lemma ParseNumbered(n: nat, rest: string)
    requires |rest| > 0 && rest[0] == ' '
    ensures ParseDuration(NatToString(n) + rest) == ParseUnits(n, rest)
  {
    var s := NatToString(n) + rest;
    SplitNumberOfText(n, rest);
    assert IsDigit(s[0]);
    assert s != "Menos de 1 mes";
  }

  /** A number and its noun read back as the number, whatever the pair of nouns. */
  lemma QuantityRoundTrip(n: nat, one: string, many: string)
    ensures SplitNumber(Quantity(n, one, many)) == Some((n, " " + (if n == 1 then one else many)))
    ensures ParseQuantity(Quantity(n, one, many), one, many) == Some(n)
  {
    var noun := if n == 1 then one else many;
    SplitNumberOfText(n, " " + noun);
    assert Quantity(n, one, many) == NatToString(n) + (" " + noun);
  }

  lemma ParseUnitsMonths(n: nat, rest: string)
    requires rest == " mes" || rest == " meses"
    ensures ParseUnits(n, rest) == Some(n)
  {
  }

  lemma ParseUnitsYears(n: nat, rest: string)
    requires rest == " año" || rest == " años"
    ensures ParseUnits(n, rest) == Some(12 * n)
  {
    assert rest[1] == 'a';
    assert rest != " mes" && rest != " meses" by { assert " mes"[1] == 'm' && " meses"[1] == 'm'; }
  }

  lemma ParseUnitsYearsAndMonths(n: nat, head: string, tail: string, r: nat)
    requires head == " año" || head == " años"
    requires ParseQuantity(tail, "mes", "meses") == Some(r)
    ensures ParseUnits(n, head + " y " + tail) == Some(12 * n + r)
  {
    var rest := head + " y " + tail;
    assert rest[1] == 'a' && |rest| >= 7;
    assert rest != " mes" && rest != " meses" by { assert " mes"[1] == 'm' && " meses"[1] == 'm'; }
    if head == " año" {
      assert rest[..7] == " año y " && rest[7..] == tail;
    } else {
      assert |rest| > |" año"| && |rest| > |" años"|;
      assert rest[..7] != " año y " by { assert rest[4] == 's'; }
      assert rest[..8] == " años y " && rest[8..] == tail;
    }
  }

  /** "<y> año(s) y <r> mes(es)" reads back as 12y + r. */
  lemma ParseYearsAndMonths(years: nat, remaining: nat)
    ensures ParseDuration(Quantity(years, "año", "años") + " y " + Quantity(remaining, "mes", "meses"))
            == Some(12 * years + remaining)
  {
    var head := if years == 1 then " año" else " años";
    var tail := Quantity(remaining, "mes", "meses");
    var rest := head + " y " + tail;
    assert Quantity(years, "año", "años") + " y " + tail == NatToString(years) + rest;
    ParseNumbered(years, rest);
    QuantityRoundTrip(remaining, "mes", "meses");
    ParseUnitsYearsAndMonths(years, head, tail, remaining);
  }

  /**
   * The text loses nothing from a positive month count: reading it back gives
   * the count, and every count under one month reads back as zero. Different
   * positive counts therefore never share a text.
   */
  lemma DurationRoundTrip(months: int)
    ensures ParseDuration(DurationText(months)) == Some(if months < 1 then 0 else months)
  {
    if 1 <= months < 12 {
      RoundTripUnderYear(months);
    } else if months >= 12 {
      RoundTripYears(months, months / 12, months % 12);
    }
  }

  lemma RoundTripUnderYear(months: int)
    requires 1 <= months < 12
    ensures ParseDuration(DurationText(months)) == Some(months)
  {
    DurationGrammar(months);
    var rest := if months == 1 then " mes" else " meses";
    assert Quantity(months, "mes", "meses") == NatToString(months) + rest;
    ParseNumbered(months, rest);
    ParseUnitsMonths(months, rest);
  }

  lemma RoundTripYears(months: int, years: nat, remaining: nat)
    requires months >= 12 && years == months / 12 && remaining == months % 12
    ensures ParseDuration(DurationText(months)) == Some(months)
  {
    GrammarYears(months, years, remaining);
    var text := DurationText(months);
    if remaining == 0 {
      assert text == Quantity(years, "año", "años");
      ParseWholeYears(years);
    } else {
      assert text == Quantity(years, "año", "años") + " y " + Quantity(remaining, "mes", "meses");
      ParseYearsAndMonths(years, remaining);
    }
  }

  lemma ParseWholeYears(years: nat)
    ensures ParseDuration(Quantity(years, "año", "años")) == Some(12 * years)
  {
    var rest := if years == 1 then " año" else " años";
    assert Quantity(years, "año", "años") == NatToString(years) + rest;
    ParseNumbered(years, rest);
    ParseUnitsYears(years, rest);
  }

  /** Two entries whose durations read the same cover the same number of months, once past a month. */
  lemma DurationTextInjective(m1: int, m2: int)
    requires m1 >= 1 && m2 >= 1
    requires DurationText(m1) == DurationText(m2)
    ensures m1 == m2
  {
    DurationRoundTrip(m1);
    DurationRoundTrip(m2);
  }

  // ------------------------------------------------------------- grouping

  function TypeLabel(t: ExperienceType): string
  {
    match t
    case Education => "Educación"
    case Work => "Experiencia Laboral"
    case Project => "Proyecto"
    case Certification => "Certificación"
  }

  /** One accordion section: a kind, its label and its entries in catalog order. */
  datatype Group = Group(kind: ExperienceType, caption: string, items: seq<ExperienceItem>)

  /** The kinds of the sections, in section order. */
  function Kinds(gs: seq<Group>): (ks: seq<ExperienceType>)
    ensures |ks| == |gs| && forall i :: 0 <= i < |gs| ==> ks[i] == gs[i].kind
  {
    seq(|gs|, i requires 0 <= i < |gs| => gs[i].kind)
  }

  /** The sections for the kinds `ks`, in that order, leaving out every kind without entries. */
  function GroupsFor(items: seq<ExperienceItem>, ks: seq<ExperienceType>): (gs: seq<Group>)
    ensures forall g :: g in gs ==>
      g.kind in ks && g.items == GetExperienceByType(items, g.kind) && g.items != [] && g.caption == TypeLabel(g.kind)
    ensures forall t :: t in ks && (exists x :: x in items && x.kind == t) ==> exists g :: g in gs && g.kind == t
    ensures IsSubsequence(Kinds(gs), ks)
    ensures |gs| <= |ks|
  {
    if ks == [] then []
    else
      var here := GetExperienceByType(items, ks[0]);
      var rest := GroupsFor(items, ks[1..]);
      assert forall t :: t in ks ==> t == ks[0] || t in ks[1..];
      if here == [] then
        assert forall x :: x in items ==> x.kind != ks[0];
        KindsSkip(rest, ks);
        rest
      else
        var g := Group(ks[0], TypeLabel(ks[0]), here);
        KindsCons(g, rest, ks);
        [g] + rest
  }

  /** Leaving out the first kind keeps the sections' kinds in order. */
  lemma KindsSkip(gs: seq<Group>, ks: seq<ExperienceType>)
    requires ks != [] && IsSubsequence(Kinds(gs), ks[1..])
    ensures IsSubsequence(Kinds(gs), ks)
  {
  }

  /** A section for the first kind, in front of sections for later kinds, keeps them in order. */
  lemma KindsCons(g: Group, gs: seq<Group>, ks: seq<ExperienceType>)
    requires ks != [] && g.kind == ks[0] && IsSubsequence(Kinds(gs), ks[1..])
    ensures IsSubsequence(Kinds([g] + gs), ks)
  {
    var all := Kinds([g] + gs);
    assert all == [g.kind] + Kinds(gs);
  }

  /** The accordion: one section per kind that has entries, in the page's kind order. */
  function Groups(items: seq<ExperienceItem>): (gs: seq<Group>)
    ensures forall g :: g in gs ==> g.items == GetExperienceByType(items, g.kind) && g.items != []
    ensures IsSubsequence(Kinds(gs), TypeOrder)
    ensures forall x :: x in items ==> exists g :: g in gs && g.kind == x.kind
    ensures |gs| <= 4
  {
    var gs := GroupsFor(items, TypeOrder);
    forall x | x in items ensures exists g :: g in gs && g.kind == x.kind {
      assert x.kind in TypeOrder;
    }
    gs
  }

  /**
   * The group badge: it reads back as the number of entries, followed by
   * "elemento" exactly when there is one and "elementos" otherwise.
   */
  function CountBadge(n: nat): (text: string)
    ensures ParseQuantity(text, "elemento", "elementos") == Some(n)
    ensures SplitNumber(text) == Some((n, " elemento")) <==> n == 1
    ensures SplitNumber(text) == Some((n, " elementos")) <==> n != 1
  {
    QuantityRoundTrip(n, "elemento", "elementos");
    assert " " + "elemento" == " elemento" && " " + "elementos" == " elementos";
    assert |" elemento"| != |" elementos"|;
    Quantity(n, "elemento", "elementos")
  }

  /** One summary tile: a kind's label and its number of entries. */
  datatype SummaryEntry = SummaryEntry(caption: string, count: nat)

  /** The summary: four tiles in the page's kind order, whose counts add up to the catalog. */
  function Summary(items: seq<ExperienceItem>): (s: seq<SummaryEntry>)
    ensures |s| == 4
    ensures forall k :: 0 <= k < 4 ==>
      s[k] == SummaryEntry(TypeLabel(TypeOrder[k]), |GetExperienceByType(items, TypeOrder[k])|)
    ensures s[0].count + s[1].count + s[2].count + s[3].count == |items|
  {
    KindsPartition(items);
    seq(4, k requires 0 <= k < 4 =>
      SummaryEntry(TypeLabel(TypeOrder[k]), |GetExperienceByType(items, TypeOrder[k])|))
  }

  // ---------------------------------------------------------- order in a group

  /** A month as one number, so that later months are larger. */
  function MonthIndex(d: YearMonth): int
  {
    d.year * 12 + d.month
  }

  /** The sort key of an entry: its end month, or the current month when it has none. */
  function EndKey(item: ExperienceItem, now: YearMonth): int
  {
    MonthIndex(if item.end.Some? then item.end.value else now)
  }

  ghost predicate SortedByEndDesc(s: seq<ExperienceItem>, now: YearMonth)
  {
    forall i, j :: 0 <= i < j < |s| ==> EndKey(s[i], now) >= EndKey(s[j], now)
  }

  /** Places `x` after every entry whose key is at least its own. */
  function InsertByEnd(s: seq<ExperienceItem>, x: ExperienceItem, now: YearMonth): (r: seq<ExperienceItem>)
    ensures multiset(r) == multiset(s) + multiset{x}
  {
    if s == [] then [x]
    else if EndKey(s[0], now) >= EndKey(x, now) then
      assert s == [s[0]] + s[1..];
      [s[0]] + InsertByEnd(s[1..], x, now)
    else
      assert s == [s[0]] + s[1..];
      [x] + s
  }

  lemma InsertByEndMembers(s: seq<ExperienceItem>, x: ExperienceItem, now: YearMonth)
    ensures forall y :: y in InsertByEnd(s, x, now) <==> y == x || y in s
  {
    var r := InsertByEnd(s, x, now);
    forall y ensures y in r <==> y == x || y in s {
      assert y in r <==> y in multiset(r);
      assert y in s <==> y in multiset(s);
    }
  }

  lemma {:induction false} InsertByEndSorted(s: seq<ExperienceItem>, x: ExperienceItem, now: YearMonth)
    requires SortedByEndDesc(s, now)
    ensures SortedByEndDesc(InsertByEnd(s, x, now), now)
    decreases |s|
  {
    var out := InsertByEnd(s, x, now);
    if s != [] && EndKey(s[0], now) >= EndKey(x, now) {
      var rest := InsertByEnd(s[1..], x, now);
      assert out == [s[0]] + rest;
      InsertByEndSorted(s[1..], x, now);
      InsertByEndMembers(s[1..], x, now);
      forall i, j | 0 <= i < j < |out| ensures EndKey(out[i], now) >= EndKey(out[j], now) {
        if i == 0 {
          var y := rest[j - 1];
          assert y in rest && out[j] == y;
          if y != x {
            var k :| 0 <= k < |s| - 1 && s[1..][k] == y;
            assert s[k + 1] == y;
          }
        } else {
          assert out[i] == rest[i - 1] && out[j] == rest[j - 1];
        }
      }
    } else if s != [] {
      assert out == [x] + s;
      forall i, j | 0 <= i < j < |out| ensures EndKey(out[i], now) >= EndKey(out[j], now) {
        if i == 0 {
          assert out[j] == s[j - 1] && EndKey(s[0], now) >= EndKey(s[j - 1], now);
        } else {
          assert out[i] == s[i - 1] && out[j] == s[j - 1];
        }
      }
    }
  }

  /**
   * The group's entries latest end first, with current entries placed at
   * the current month: a reordering of the group, nothing added or lost.
   */
  function SortByEndDesc(s: seq<ExperienceItem>, now: YearMonth): (r: seq<ExperienceItem>)
    ensures multiset(r) == multiset(s)
    ensures SortedByEndDesc(r, now)
  {
    if s == [] then []
    else
      assert s == s[..|s| - 1] + [s[|s| - 1]];
      InsertByEndSorted(SortByEndDesc(s[..|s| - 1], now), s[|s| - 1], now);
      InsertByEnd(SortByEndDesc(s[..|s| - 1], now), s[|s| - 1], now)
  }
}
