/**
 * The skills catalog: skills grouped under category names, the lookup of a
 * group's skills by name and the flattened list of every skill.
 */
module SkillsData {
  import opened Wrappers
  import opened Seqs

  /** The closed union of skill levels. */
  datatype Level = Beginner | Intermediate | Advanced | Expert

  /** A skill; `icon` names an icon component and may be missing. */
  datatype Skill = Skill(name: string, level: Level, description: string, icon: Option<string>)

  datatype SkillGroup = SkillGroup(category: string, skills: seq<Skill>)

  function InCategory(category: string): SkillGroup -> bool
  {
    (g: SkillGroup) => g.category == category
  }

  /**
   * `getSkillsByCategory`: the skills of the first group named exactly
   * `category`, or the empty list when no group has that name.
   */
  function GetSkillsByCategory(groups: seq<SkillGroup>, category: string): (r: seq<Skill>)
    ensures (forall g :: g in groups ==> g.category != category) ==> r == []
    ensures (exists g :: g in groups && g.category == category) ==>
      exists i :: 0 <= i < |groups| && groups[i].category == category && r == groups[i].skills
        && forall j :: 0 <= j < i ==> groups[j].category != category
  {
    match Find(groups, InCategory(category))
    case None => []
    case Some(g) => g.skills
  }

  /** The total number of skills over the groups. */
  function TotalSize(groups: seq<SkillGroup>): nat
  {
    if groups == [] then 0 else |groups[0].skills| + TotalSize(groups[1..])
  }

  /**
   * `getAllSkills`: the groups' skill lists joined in order. Its length is the
   * sum of the group sizes, and a skill is in it exactly when some group
   * lists it.
   */
  function GetAllSkills(groups: seq<SkillGroup>): (r: seq<Skill>)
    ensures |r| == TotalSize(groups)
    ensures forall s :: s in r <==> exists g :: g in groups && s in g.skills
  {
    if groups == [] then []
    else
      var rest := GetAllSkills(groups[1..]);
      assert forall g :: g in groups <==> g == groups[0] || g in groups[1..] by {
        assert groups == [groups[0]] + groups[1..];
      }
      groups[0].skills + rest
  }

  /** Joining is in order: the skills of two catalogs side by side are the two joins side by side. */
  lemma {:induction false} GetAllSkillsAppend(a: seq<SkillGroup>, b: seq<SkillGroup>)
    ensures GetAllSkills(a + b) == GetAllSkills(a) + GetAllSkills(b)
    decreases |a|
  {
    if a != [] {
      assert (a + b)[0] == a[0] && (a + b)[1..] == a[1..] + b;
      GetAllSkillsAppend(a[1..], b);
    } else {
      assert a + b == b;
    }
  }

  /** Every skill the lookup returns for a name is in the flattened list. */
  lemma CategorySkillsInAll(groups: seq<SkillGroup>, category: string)
    ensures forall s :: s in GetSkillsByCategory(groups, category) ==> s in GetAllSkills(groups)
  {
    forall s | s in GetSkillsByCategory(groups, category) ensures s in GetAllSkills(groups) {
      var i :| 0 <= i < |groups| && groups[i].category == category && GetSkillsByCategory(groups, category) == groups[i].skills;
      assert groups[i] in groups;
    }
  }
}
