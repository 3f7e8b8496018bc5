/**
 * The skills page: the level table (bar colour and percentage), the
 * per-level summary over every skill, and the icon a skill card shows.
 */
module SkillsPage {
  import opened Wrappers
  import opened Seqs
  import opened SkillsData

  /** The levels in the order of the level table and of the summary. */
  const LevelOrder: seq<Level> := [Beginner, Intermediate, Advanced, Expert]

  function LevelName(l: Level): string
  {
    match l
    case Beginner => "Beginner"
    case Intermediate => "Intermediate"
    case Advanced => "Advanced"
    case Expert => "Expert"
  }

  /** The position of a level in `LevelOrder`. */
  function Rank(l: Level): (k: nat)
    ensures k < 4 && LevelOrder[k] == l
  {
    match l
    case Beginner => 0
    case Intermediate => 1
    case Advanced => 2
    case Expert => 3
  }

  datatype LevelStyle = LevelStyle(color: string, percentage: nat)

  /**
   * `levelConfig`: the bar grows by a quarter per level, so a higher level
   * always shows a strictly longer bar and the top level a full one.
   */
  function Style(l: Level): (st: LevelStyle)
    ensures st.percentage == 25 * (Rank(l) + 1)
    ensures st.percentage <= 100
  {
    match l
    case Beginner => LevelStyle("bg-red-500", 25)
    case Intermediate => LevelStyle("bg-yellow-500", 50)
    case Advanced => LevelStyle("bg-blue-500", 75)
    case Expert => LevelStyle("bg-green-500", 100)
  }

  /** A higher level always shows a strictly longer bar. */
  lemma PercentagesIncrease()
    ensures forall i, j :: 0 <= i < j < 4 ==> Style(LevelOrder[i]).percentage < Style(LevelOrder[j]).percentage
  {
    forall i, j | 0 <= i < j < 4
      ensures Style(LevelOrder[i]).percentage < Style(LevelOrder[j]).percentage
    {
      assert Rank(LevelOrder[i]) == i && Rank(LevelOrder[j]) == j by {
        assert forall k :: 0 <= k < 4 ==> Rank(LevelOrder[k]) == k;
      }
    }
  }

  function LevelOf(s: Skill): Level
  {
    s.level
  }

  function AtLevel(l: Level): Skill -> bool
  {
    KeyIs(LevelOf, l)
  }

  /** One line of the summary: a level's name, its number of skills and its colour. */
  datatype SummaryLine = SummaryLine(level: string, count: nat, color: string)

  function LineFor(all: seq<Skill>, l: Level): SummaryLine
  {
    SummaryLine(LevelName(l), |Filter(all, AtLevel(l))|, Style(l).color)
  }

  /**
   * `SkillSummaryChart`: four lines in level order, each counting the skills
   * at its level over the flattened catalog; a skill has exactly one level,
   * so the counts add up to the total shown under the chart.
   */
  function Summary(groups: seq<SkillGroup>): (lines: seq<SummaryLine>)
    ensures |lines| == 4
    ensures forall k :: 0 <= k < 4 ==>
      lines[k].level == LevelName(LevelOrder[k]) && lines[k].color == Style(LevelOrder[k]).color
      && lines[k].count == Count(GetAllSkills(groups), AtLevel(LevelOrder[k]))
    ensures lines[0].count + lines[1].count + lines[2].count + lines[3].count == TotalSize(groups)
  {
    var all := GetAllSkills(groups);
    LevelCountsAddUp(all);
    var lines := [LineFor(all, Beginner), LineFor(all, Intermediate), LineFor(all, Advanced), LineFor(all, Expert)];
    LinesInOrder(all, lines);
    lines
  }

  lemma LinesInOrder(all: seq<Skill>, lines: seq<SummaryLine>)
    requires lines == [LineFor(all, Beginner), LineFor(all, Intermediate), LineFor(all, Advanced), LineFor(all, Expert)]
    ensures forall k :: 0 <= k < 4 ==>
      lines[k].level == LevelName(LevelOrder[k]) && lines[k].color == Style(LevelOrder[k]).color
      && lines[k].count == Count(all, AtLevel(LevelOrder[k]))
  {
    forall k | 0 <= k < 4
      ensures lines[k].level == LevelName(LevelOrder[k]) && lines[k].color == Style(LevelOrder[k]).color
      ensures lines[k].count == Count(all, AtLevel(LevelOrder[k]))
    {
      FilterLength(all, AtLevel(LevelOrder[k]));
    }
  }

  /** The four level counts partition any list of skills. */
  lemma LevelCountsAddUp(all: seq<Skill>)
    ensures Count(all, AtLevel(Beginner)) + Count(all, AtLevel(Intermediate))
          + Count(all, AtLevel(Advanced)) + Count(all, AtLevel(Expert)) == |all|
  {
    assert Distinct(LevelOrder);
    forall s | s in all ensures LevelOf(s) in LevelOrder {
      assert LevelOrder[Rank(LevelOf(s))] == LevelOf(s);
    }
    CountsPartition(all, LevelOf, LevelOrder);
    var k1: seq<Level> := [Intermediate, Advanced, Expert];
    var k2: seq<Level> := [Advanced, Expert];
    var k3: seq<Level> := [Expert];
    assert LevelOrder[0] == Beginner && LevelOrder[1..] == k1;
    assert k1[0] == Intermediate && k1[1..] == k2;
    assert k2[0] == Advanced && k2[1..] == k3;
    assert k3[0] == Expert && k3[1..] == [];
    assert CountPerKey(all, LevelOf, k3) == Count(all, AtLevel(Expert));
    assert CountPerKey(all, LevelOf, k2) == Count(all, AtLevel(Advanced)) + CountPerKey(all, LevelOf, k3);
    assert CountPerKey(all, LevelOf, k1) == Count(all, AtLevel(Intermediate)) + CountPerKey(all, LevelOf, k2);
  }

  /** The names `iconMap` maps to an icon component. */
  const IconNames: set<string> := {
    "SiReact", "SiTypescript", "SiNextdotjs", "SiHtml5", "SiTailwindcss", "SiJavascript",
    "SiSharp", "SiPython", "SiLaravel", "SiNodedotjs", "SiMicrosoftsqlserver", "SiMysql",
    "SiGit", "SiDocker", "Terminal", "SiVisualstudiocode", "SiPostman",
    "SiPandas", "SiNumpy", "BarChart3", "FileSpreadsheet",
    "Puzzle", "BookOpen", "Users", "Clock", "Brain"
  }

  /**
   * The icon of a skill card: the skill's own icon when `iconMap` knows its
   * name, and `Terminal` for a missing or unknown name. Either way the card
   * shows an icon the map knows.
   */
  function CardIcon(icon: Option<string>): (r: string)
    ensures r in IconNames
    ensures icon.Some? && icon.value in IconNames ==> r == icon.value
    ensures (icon.None? || icon.value !in IconNames) ==> r == "Terminal"
  {
    if icon.Some? && icon.value in IconNames then icon.value else "Terminal"
  }
}
