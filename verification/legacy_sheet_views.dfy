/** The older `view_sheet` (`sheet_views.py` at the package root): a shared
    link shows the owner's projects one by one, each with its technologies and
    phases, without the per-category summary. The other handlers of that file
    (`edit_project`, `create_link`, `invalidate_link`, `delete_project`) are
    the same as in the newer revision and are modelled once, in `SheetViews`. */
module LegacySheetViews {
  import opened Common
  import opened Tables
  import SheetViews

  /** One entry of `project_data`: a project with its technologies and phases. */
  datatype ProjectCard = ProjectCard(project: Project, techs: seq<Technology>, phases: seq<Process>)

  /** `for project in projects: project_data.append({...})`. */
  function ProjectCards(mine: seq<Project>, techs: seq<Technology>, procs: seq<Process>): (r: seq<ProjectCard>)
    ensures |r| == |mine|
    ensures forall i :: 0 <= i < |r| ==> r[i].project == mine[i]
    ensures forall i, t :: 0 <= i < |r| ==> (t in r[i].techs <==> t in techs && t.projectId == mine[i].id)
    ensures forall i, q :: 0 <= i < |r| ==> (q in r[i].phases <==> q in procs && q.projectId == mine[i].id)
  {
    seq(|mine|, i requires 0 <= i < |mine| =>
      ProjectCard(mine[i], TechsOf(techs, mine[i].id), ProcessesOf(procs, mine[i].id)))
  }

  datatype LegacyView = InvalidLink | UserMissing | Shown(owner: nat, cards: seq<ProjectCard>)

  /** The older `view_sheet`: the invalid page unless the code belongs to an
      active link; a 404 when the owner's user row is gone; otherwise the
      resolved owner's projects, one card each in query order, each card with
      all of its own technologies and phases. */
  method ViewSheet(db: Store, code: string) returns (v: LegacyView)
    ensures v == InvalidLink <==> forall l :: l in db.links ==> !(l.code == code && l.active)
    ensures v.UserMissing? <==>
      SheetViews.ResolveLink(db.links, code).Some? && FindUser(db.users, SheetViews.ResolveLink(db.links, code).value).None?
    ensures v.Shown? ==>
      && SheetViews.ResolveLink(db.links, code) == Some(v.owner)
      && v.cards == ProjectCards(ProjectsOf(db.projects, v.owner), db.technologies, db.processes)
      && Link(v.owner, code, true) in db.links
      && FindUser(db.users, v.owner).Some?
      && (forall p :: p in db.projects && p.userId == v.owner <==> exists c :: c in v.cards && c.project == p)
      && (forall c, t :: c in v.cards && t in db.technologies && t.projectId == c.project.id ==> t in c.techs)
      && (forall c, t :: c in v.cards && t in c.techs ==> t in db.technologies && t.projectId == c.project.id)
      && (forall c, q :: c in v.cards && q in c.phases <==> c in v.cards && q in db.processes && q.projectId == c.project.id)
  {
    var owner := SheetViews.ResolveLink(db.links, code);
    if owner.None? {
      return InvalidLink;
    }
    if FindUser(db.users, owner.value).None? {
      return UserMissing;
    }
    var mine := ProjectsOf(db.projects, owner.value);
    var cards := ProjectCards(mine, db.technologies, db.processes);
    forall p | p in db.projects && p.userId == owner.value
      ensures exists c :: c in cards && c.project == p
    {
      var i :| 0 <= i < |mine| && mine[i] == p;
      assert cards[i] in cards;
    }
    v := Shown(owner.value, cards);
  }
}
