/**
 * The profile sidebar's per-project rows: the total of the user's tasks in
 * a project, the completion percentage and its colour, when the badge and
 * the distribution bar appear, and which icon the project gets.
 */
module ProfileSidebar {
  import opened Common
  import opened Percent

  /** `icon_prop`: a named icon with a colour. */
  datatype IconProp = IconProp(name: string, color: string)

  /** One entry of `project_data`: the project and the user's task counts in it. */
  datatype ProjectData = ProjectData(
    id: string, name: string, emoji: Option<string>, iconProp: Option<IconProp>,
    createdIssues: nat, assignedIssues: nat, pendingIssues: nat, completedIssues: nat)

  /** `totalIssues`: created, assigned, pending and completed tasks added up. */
  function TotalIssues(p: ProjectData): (t: nat)
    ensures t >= p.createdIssues && t >= p.assignedIssues && t >= p.pendingIssues && t >= p.completedIssues
    ensures t == 0 <==> p.createdIssues == 0 && p.assignedIssues == 0 && p.pendingIssues == 0 && p.completedIssues == 0
  {
    p.createdIssues + p.assignedIssues + p.pendingIssues + p.completedIssues
  }

  /**
   * `completedIssuePercentage`: 0 with no assigned tasks, otherwise the
   * completed share of the assigned tasks, in percent, rounded half up.
   */
  function CompletedIssuePercentage(p: ProjectData): (pct: nat)
    ensures p.assignedIssues == 0 ==> pct == 0
    ensures p.assignedIssues > 0 ==>
      2 * p.assignedIssues * pct <= 200 * p.completedIssues + p.assignedIssues < 2 * p.assignedIssues * (pct + 1)
    ensures p.completedIssues == 0 ==> pct == 0
    ensures p.completedIssues <= p.assignedIssues ==> pct <= 100
    ensures 0 < p.assignedIssues == p.completedIssues ==> pct == 100
  {
    if p.assignedIssues == 0 then 0 else RoundPercent(p.completedIssues, p.assignedIssues)
  }

  /** The badge's colour. */
  datatype Bucket = Red | Yellow | Green

  function BucketRank(b: Bucket): nat {
    match b
    case Red => 0
    case Yellow => 1
    case Green => 2
  }

  /** The class ternary: red up to 35, yellow up to 70, green above. */
  function ColourBucket(pct: int): (b: Bucket)
    ensures b == Red <==> pct <= 35
    ensures b == Yellow <==> 35 < pct <= 70
    ensures b == Green <==> pct > 70
  {
    if pct <= 35 then Red else if pct <= 70 then Yellow else Green
  }

  /** A higher percentage never gets a lower colour. */
  lemma ColourBucketMonotone(a: int, b: int)
    requires a <= b
    ensures BucketRank(ColourBucket(a)) <= BucketRank(ColourBucket(b))
  {
  }

  /**
   * More completed tasks, with the assigned count fixed, never lower the
   * percentage and never give a lower colour.
   */
  lemma {:induction false} MoreCompletedNeverWorse(p: ProjectData, q: ProjectData)
    requires p.assignedIssues == q.assignedIssues && p.completedIssues <= q.completedIssues
    ensures CompletedIssuePercentage(p) <= CompletedIssuePercentage(q)
    ensures BucketRank(ColourBucket(CompletedIssuePercentage(p))) <= BucketRank(ColourBucket(CompletedIssuePercentage(q)))
  {
    if p.assignedIssues > 0 {
      RoundPercentMonotone(p.completedIssues, q.completedIssues, p.assignedIssues);
    }
    ColourBucketMonotone(CompletedIssuePercentage(p), CompletedIssuePercentage(q));
  }

  /** The icon: the emoji if set, else `icon_prop` if set, else the name's first character. */
  datatype ProjectIcon = EmojiIcon(emoji: string) | PropIcon(prop: IconProp) | Initial(letter: string)

  /** `name.charAt(0)`: the first character, or "" for an empty name. */
  function CharAt0(s: string): (c: string)
    ensures |c| == if s == "" then 0 else 1
    ensures c <= s
  {
    if s == "" then "" else s[..1]
  }

  function Icon(p: ProjectData): (icon: ProjectIcon)
    ensures icon.EmojiIcon? <==> Present(p.emoji)
    ensures icon.EmojiIcon? ==> icon.emoji == p.emoji.value
    ensures icon.PropIcon? <==> !Present(p.emoji) && p.iconProp.Some?
    ensures icon.PropIcon? ==> icon.prop == p.iconProp.value
    ensures icon.Initial? <==> !Present(p.emoji) && p.iconProp.None?
    ensures icon.Initial? ==> icon.letter == CharAt0(p.name)
  {
    if Present(p.emoji) then EmojiIcon(p.emoji.value)
    else if p.iconProp.Some? then PropIcon(p.iconProp.value)
    else Initial(CharAt0(p.name))
  }

  /** What one project row shows. */
  datatype ProjectRow = ProjectRow(
    icon: ProjectIcon, totalIssues: nat,
    badge: Option<(nat, Bucket)>,   // the percentage and its colour, when shown
    distributionBar: bool)

  /**
   * One row of the list: the badge only with assigned tasks (and coloured
   * by its percentage), the distribution bar only with some tasks.
   */
  function Row(p: ProjectData): (r: ProjectRow)
    ensures r.icon == Icon(p) && r.totalIssues == TotalIssues(p)
    ensures r.badge.Some? <==> p.assignedIssues > 0
    ensures r.badge.Some? ==> r.badge.value.0 == CompletedIssuePercentage(p)
    ensures r.badge.Some? ==> r.badge.value.1 == ColourBucket(r.badge.value.0)
    ensures r.distributionBar <==> r.totalIssues > 0
  {
    var pct := CompletedIssuePercentage(p);
    ProjectRow(Icon(p), TotalIssues(p),
               if p.assignedIssues > 0 then Some((pct, ColourBucket(pct))) else None,
               TotalIssues(p) > 0)
  }

  /** A row with a badge always has a distribution bar, and a full completion is green. */
  lemma BadgeImpliesBar(p: ProjectData)
    ensures Row(p).badge.Some? ==> Row(p).distributionBar
    ensures 0 < p.assignedIssues == p.completedIssues ==> Row(p).badge == Some((100, Green))
    ensures p.assignedIssues > 0 && p.completedIssues == 0 ==> Row(p).badge == Some((0, Red))
  {
  }

  /** `project_data.map(...)`: one row per project, in order. */
  function Rows(projects: seq<ProjectData>): (rows: seq<ProjectRow>)
    ensures |rows| == |projects|
    ensures forall i :: 0 <= i < |projects| ==> rows[i] == Row(projects[i])
  {
    if projects == [] then [] else [Row(projects[0])] + Rows(projects[1..])
  }
}
