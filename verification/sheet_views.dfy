/** The skill-sheet handlers of the newer revision (`views/sheet_views.py`):
    `input`, `sheet`, `edit_project`, the share links (`create_link`,
    `view_sheet`, `invalidate_link`), `delete_project` and `tech_projects`.
    Each handler that writes takes the database `db` and either commits its
    staged tables or leaves `db` as it was. */
module SheetViews {
  import opened Common
  import opened Tables
  import opened FormFields
  import opened SkillSummary
  import opened Reconcile

  // ---- input -----------------------------------------------------------------

  /** `Technology(..., duration_months=int(duration))` for a kept entry, a
      missing `_num` field reading as "0". (Where `int` would raise, the
      handler stops before it builds the row.) */
  function RowOf(pid: nat, kind: string, e: Entry): Technology {
    var m := PyInt(OrZero(e.duration));
    Technology(pid, kind, e.name, if m.Some? then m.value else 0)
  }

  /** Whether `int(duration)` succeeds for every collected entry. */
  predicate DurationsParse(kinds: seq<string>, groups: seq<seq<Entry>>)
    requires |groups| == |kinds|
  {
    forall k, e :: 0 <= k < |kinds| && e in groups[k] ==> PyInt(OrZero(e.duration)).Some?
  }

  function RowsFor(pid: nat, kind: string, es: seq<Entry>): seq<Technology> {
    seq(|es|, k requires 0 <= k < |es| => RowOf(pid, kind, es[k]))
  }

  /** `for tech_type in tech_types: for name, duration in tech_data[tech_type].items()`:
      each category's kept entries as rows, category by category. */
  function InputRows(pid: nat, kinds: seq<string>, groups: seq<seq<Entry>>): seq<Technology>
    requires |groups| == |kinds|
    decreases |kinds|
  {
    if kinds == [] then []
    else
      var n := |kinds| - 1;
      InputRows(pid, kinds[..n], groups[..n]) + RowsFor(pid, kinds[n], groups[n])
  }

  /** `for process in request.form.getlist('process')`: one row per selected name. */
  function ProcessRows(pid: nat, names: seq<string>): (r: seq<Process>)
    ensures |r| == |names|
    ensures forall k :: 0 <= k < |r| ==> r[k].projectId == pid && r[k].name == names[k]
  {
    seq(|names|, k requires 0 <= k < |names| => Process(pid, names[k]))
  }

  /** The stored rows are exactly the rows of the collected entries. */
  lemma {:induction false} InputRowsMembers(pid: nat, kinds: seq<string>, groups: seq<seq<Entry>>)
    requires |groups| == |kinds|
    ensures forall t :: t in InputRows(pid, kinds, groups) ==>
      exists k, e :: 0 <= k < |kinds| && e in groups[k] && t == RowOf(pid, kinds[k], e)
    ensures forall k, e :: 0 <= k < |kinds| && e in groups[k] ==> RowOf(pid, kinds[k], e) in InputRows(pid, kinds, groups)
    decreases |kinds|
  {
    if kinds != [] {
      var n := |kinds| - 1;
      InputRowsMembers(pid, kinds[..n], groups[..n]);
      var rs := RowsFor(pid, kinds[n], groups[n]);
      forall t | t in InputRows(pid, kinds[..n], groups[..n])
        ensures exists k, e :: 0 <= k < |kinds| && e in groups[k] && t == RowOf(pid, kinds[k], e)
      {
        var k, e :| 0 <= k < n && e in groups[..n][k] && t == RowOf(pid, kinds[..n][k], e);
        assert groups[..n][k] == groups[k] && kinds[..n][k] == kinds[k];
      }
      forall t | t in rs
        ensures exists k, e :: 0 <= k < |kinds| && e in groups[k] && t == RowOf(pid, kinds[k], e)
      {
        var j :| 0 <= j < |rs| && rs[j] == t;
        assert groups[n][j] in groups[n];
      }
      forall k, e | 0 <= k < |kinds| && e in groups[k]
        ensures RowOf(pid, kinds[k], e) in InputRows(pid, kinds, groups)
      {
        if k < n {
          assert groups[..n][k] == groups[k] && kinds[..n][k] == kinds[k];
        } else {
          var j :| 0 <= j < |groups[n]| && groups[n][j] == e;
          assert rs[j] == RowOf(pid, kinds[k], e);
        }
      }
    }
  }

  /** What `input` stores: for every category, a row for each kept entry and
      no other row; every row has a non-empty name and, where durations are
      checked, a positive number of months. */
  lemma {:induction false} InputStoresKeptEntries(fields: map<string, string>, kinds: seq<string>, checkDuration: bool, pid: nat)
    requires CollectAll(fields, kinds, checkDuration).Walked?
    ensures var rows := InputRows(pid, kinds, CollectAll(fields, kinds, checkDuration).groups);
      && (forall t :: t in rows ==> t.projectId == pid && t.kind in kinds && t.name != "")
      && (checkDuration ==> forall t :: t in rows ==> t.months > 0)
      && (forall t :: t in rows ==> exists e :: e in KeptIn(fields, t.kind, checkDuration) && t == RowOf(pid, t.kind, e))
      && (forall k, e :: 0 <= k < |kinds| && e in KeptIn(fields, kinds[k], checkDuration) ==>
            RowOf(pid, kinds[k], e) in rows)
  {
    var gs := CollectAll(fields, kinds, checkDuration).groups;
    CollectAllGroups(fields, kinds, checkDuration);
    InputRowsMembers(pid, kinds, gs);
    forall t | t in InputRows(pid, kinds, gs)
      ensures t.projectId == pid && t.kind in kinds && t.name != ""
      ensures checkDuration ==> t.months > 0
      ensures exists e :: e in KeptIn(fields, t.kind, checkDuration) && t == RowOf(pid, t.kind, e)
    {
      var k, e :| 0 <= k < |kinds| && e in gs[k] && t == RowOf(pid, kinds[k], e);
      assert Kept(e, checkDuration);
    }
  }

  /** `input` over the category list `kinds`: read the project columns, walk
      each category's fields, refuse a repeated kept name before anything is
      stored, then add the project, its technologies and its phases. */
  method InputOver(db: Store, uid: nat, form: Form, kinds: seq<string>) returns (resp: Response)
    requires db.Valid()
    modifies db
    ensures db.Valid()
    ensures resp != Saved ==> unchanged(db)
    ensures ReadProjectInfo(form.fields, true).None? ==> resp == BadRequest
    ensures ReadProjectInfo(form.fields, true).Some? && CollectAll(form.fields, kinds, true).Repeated? ==>
      resp == Rejected(CollectAll(form.fields, kinds, true).kind)
    ensures ReadProjectInfo(form.fields, true).Some? && CollectAll(form.fields, kinds, true).Walked? ==>
      var pid := old(db.nextProjectId);
      && resp == Saved
      && db.projects == old(db.projects) + [Project(pid, uid, ReadProjectInfo(form.fields, true).value)]
      && db.technologies == old(db.technologies) + InputRows(pid, kinds, CollectAll(form.fields, kinds, true).groups)
      && db.processes == old(db.processes) + ProcessRows(pid, form.processes)
      && db.nextProjectId == pid + 1
      && unchanged(db`users, db`links, db`developments, db`indTechnologies, db`indProcesses, db`nextDevelopmentId)
  {
    var info := ReadProjectInfo(form.fields, true);
    if info.None? {
      return BadRequest;
    }
    var walked := CollectCategories(form.fields, kinds, true);
    if walked.Repeated? {
      return Rejected(walked.kind);
    }
    AddProject(db, uid, info.value, kinds, walked.groups, form.processes);
    resp := Saved;
  }

  /** The commits of `input`: the project under the next key, then its
      technologies, then its phases. */
  method AddProject(db: Store, uid: nat, info: ProjectInfo, kinds: seq<string>, groups: seq<seq<Entry>>, phases: seq<string>)
    requires db.Valid()
    requires |groups| == |kinds|
    modifies db
    ensures db.Valid()
    ensures var pid := old(db.nextProjectId);
      && db.projects == old(db.projects) + [Project(pid, uid, info)]
      && db.technologies == old(db.technologies) + InputRows(pid, kinds, groups)
      && db.processes == old(db.processes) + ProcessRows(pid, phases)
      && db.nextProjectId == pid + 1
    ensures unchanged(db`users, db`links, db`developments, db`indTechnologies, db`indProcesses, db`nextDevelopmentId)
  {
    var pid := db.nextProjectId;
    ProjectKeysAppend(db.projects, pid, Project(pid, uid, info));
    db.projects := db.projects + [Project(pid, uid, info)];
    db.technologies := db.technologies + InputRows(pid, kinds, groups);
    db.processes := db.processes + ProcessRows(pid, phases);
    db.nextProjectId := pid + 1;
  }

  /** `input`, over the eight technology categories. */
  method Input(db: Store, uid: nat, form: Form) returns (resp: Response)
    requires db.Valid()
    modifies db
    ensures db.Valid()
    ensures resp != Saved ==> unchanged(db)
    ensures ReadProjectInfo(form.fields, true).None? ==> resp == BadRequest
    ensures ReadProjectInfo(form.fields, true).Some? && CollectAll(form.fields, TechTypes, true).Repeated? ==>
      resp == Rejected(CollectAll(form.fields, TechTypes, true).kind)
    ensures ReadProjectInfo(form.fields, true).Some? && CollectAll(form.fields, TechTypes, true).Walked? ==>
      var pid := old(db.nextProjectId);
      && resp == Saved
      && db.projects == old(db.projects) + [Project(pid, uid, ReadProjectInfo(form.fields, true).value)]
      && db.technologies == old(db.technologies) + InputRows(pid, TechTypes, CollectAll(form.fields, TechTypes, true).groups)
      && db.processes == old(db.processes) + ProcessRows(pid, form.processes)
      && db.nextProjectId == pid + 1
      && unchanged(db`users, db`links, db`developments, db`indTechnologies, db`indProcesses, db`nextDevelopmentId)
  {
    resp := InputOver(db, uid, form, TechTypes);
  }

  // ---- sheet -------------------------------------------------------------------

  /** The records the skill sheet of `uid` folds: each of the user's projects'
      technologies, then each of the user's personal projects' technologies. */
  function SheetGroups(projects: seq<Project>, techs: seq<Technology>,
                       devs: seq<IndividualDevelopment>, indTechs: seq<IndividualTechnology>, uid: nat): seq<seq<TechEntry>> {
    ProjectGroups(ProjectsOf(projects, uid), techs) + DevelopmentGroups(DevelopmentsOf(devs, uid), indTechs)
  }

  /** The code of the user's most recent active link, links being kept in
      creation order (`filter_by(user_id=..., is_active=True).order_by(created_at.desc()).first()`). */
  function LatestActiveLink(links: seq<Link>, uid: nat): (r: Option<string>)
    ensures r.None? <==> forall l :: l in links ==> !(l.userId == uid && l.active)
    ensures r.Some? ==> Link(uid, r.value, true) in links
    decreases |links|
  {
    if links == [] then None
    else
      var l := links[|links| - 1];
      if l.userId == uid && l.active then Some(l.code) else LatestActiveLink(links[..|links| - 1], uid)
  }

  /** The link shown is the last active link of the user: no active link of
      theirs comes after it. */
  lemma {:induction false} LatestActiveLinkIsLast(links: seq<Link>, uid: nat) returns (i: nat)
    requires LatestActiveLink(links, uid).Some?
    ensures i < |links| && links[i] == Link(uid, LatestActiveLink(links, uid).value, true)
    ensures forall j :: i < j < |links| ==> !(links[j].userId == uid && links[j].active)
    decreases |links|
  {
    var n := |links| - 1;
    if links[n].userId == uid && links[n].active {
      i := n;
    } else {
      i := LatestActiveLinkIsLast(links[..n], uid);
      assert links[..n][i] == links[i];
      forall j | i < j < |links|
        ensures !(links[j].userId == uid && links[j].active)
      {
        if j < n {
          assert links[..n][j] == links[j];
        }
      }
    }
  }

  /** `sheet`: the category summary of the user's projects and personal
      projects, and the user's latest active link. An unknown category raises
      `KeyError` in the source; the summary is None then. */
  method Sheet(db: Store, uid: nat) returns (skills: Option<Skills>, link: Option<string>)
    ensures var es := Flatten(SheetGroups(db.projects, db.technologies, db.developments, db.indTechnologies, uid));
      && skills == Accumulate(es)
      && (skills.Some? <==> forall k :: 0 <= k < |es| ==> es[k].kind in TechTypes)
      && (skills.Some? ==> Summarizes(skills.value, es))
    ensures link == LatestActiveLink(db.links, uid)
  {
    skills := Summarize(SheetGroups(db.projects, db.technologies, db.developments, db.indTechnologies, uid));
    link := LatestActiveLink(db.links, uid);
  }

  // ---- share links -------------------------------------------------------------

  /** `Link.query.filter_by(link_code=code, is_active=True).first()`: the owner
      of the first active link with that code, links in table order. */
  function ResolveLink(links: seq<Link>, code: string): (r: Option<nat>)
    ensures r.None? <==> forall l :: l in links ==> !(l.code == code && l.active)
    ensures r.Some? ==> Link(r.value, code, true) in links
    decreases |links|
  {
    if links == [] then None
    else
      var l := links[|links| - 1];
      match ResolveLink(links[..|links| - 1], code)
      case Some(owner) => Some(owner)
      case None => if l.code == code && l.active then Some(l.userId) else None
  }

  /** A link added at the end is found only when no earlier link answers the code. */
  lemma {:induction false} ResolveSnoc(links: seq<Link>, l: Link, code: string)
    ensures ResolveLink(links + [l], code) ==
      if ResolveLink(links, code).Some? then ResolveLink(links, code)
      else if l.code == code && l.active then Some(l.userId)
      else None
  {
    assert (links + [l])[..|links|] == links;
  }

  /** What a viewer of `/view_sheet/<code>` gets. */
  datatype SheetView = InvalidLink | UserMissing | Shown(owner: nat, skills: Option<Skills>)

  /** `view_sheet`: the invalid page unless the code belongs to an active link;
      otherwise the owner (404 when the user row is gone) and the summary of
      the owner's projects (personal projects are not shown here). A row whose
      category is not one of the eight raises `KeyError`, a 500, which is
      `Shown(owner, None)`. */
  method ViewSheet(db: Store, code: string) returns (v: SheetView)
    ensures v == InvalidLink <==> forall l :: l in db.links ==> !(l.code == code && l.active)
    ensures v.UserMissing? <==>
      ResolveLink(db.links, code).Some? && FindUser(db.users, ResolveLink(db.links, code).value).None?
    ensures v.Shown? ==>
      && ResolveLink(db.links, code) == Some(v.owner)
      && Link(v.owner, code, true) in db.links
      && FindUser(db.users, v.owner).Some?
      && v.skills == Accumulate(Flatten(ProjectGroups(ProjectsOf(db.projects, v.owner), db.technologies)))
      && (v.skills.Some? ==> Summarizes(v.skills.value, Flatten(ProjectGroups(ProjectsOf(db.projects, v.owner), db.technologies))))
  {
    var owner := ResolveLink(db.links, code);
    if owner.None? {
      return InvalidLink;
    }
    if FindUser(db.users, owner.value).None? {
      return UserMissing;
    }
    var skills := Summarize(ProjectGroups(ProjectsOf(db.projects, owner.value), db.technologies));
    v := Shown(owner.value, skills);
  }

  /** `create_link`: one new active link with a fresh code (`uuid4`, taken as a
      parameter); earlier links, active or not, stay as they are. */
  method CreateLink(db: Store, uid: nat, code: string)
    requires db.Valid()
    requires forall l :: l in db.links ==> l.code != code
    modifies db
    ensures db.Valid()
    ensures db.links == old(db.links) + [Link(uid, code, true)]
    ensures unchanged(db`users, db`projects, db`technologies, db`processes, db`developments,
                      db`indTechnologies, db`indProcesses, db`nextProjectId, db`nextDevelopmentId)
  {
    LinkCodesAppend(db.links, Link(uid, code, true));
    db.links := db.links + [Link(uid, code, true)];
  }

  /** After `create_link` the new code opens the creator's sheet, it is the
      link their sheet shows, and every other code resolves as before. */
  lemma {:induction false} CreatedLinkResolves(links: seq<Link>, uid: nat, code: string, other: string)
    requires forall l :: l in links ==> l.code != code
    ensures ResolveLink(links + [Link(uid, code, true)], code) == Some(uid)
    ensures other != code ==> ResolveLink(links + [Link(uid, code, true)], other) == ResolveLink(links, other)
    ensures LatestActiveLink(links + [Link(uid, code, true)], uid) == Some(code)
  {
    ResolveSnoc(links, Link(uid, code, true), code);
    ResolveSnoc(links, Link(uid, code, true), other);
    assert (links + [Link(uid, code, true)])[..|links|] == links;
  }

  /** The link table without any row of user `uid`. */
  function WithoutUser(links: seq<Link>, uid: nat): (r: seq<Link>)
    ensures forall l :: l in r <==> l in links && l.userId != uid
    decreases |links|
  {
    if links == [] then []
    else
      var l := links[|links| - 1];
      WithoutUser(links[..|links| - 1], uid) + (if l.userId == uid then [] else [l])
  }

  lemma {:induction false} WithoutUserCodes(links: seq<Link>, uid: nat)
    requires LinkCodes(links)
    ensures LinkCodes(WithoutUser(links, uid))
    decreases |links|
  {
    if links != [] {
      var p, l := links[..|links| - 1], links[|links| - 1];
      WithoutUserCodes(p, uid);
      if l.userId != uid {
        forall k | k in WithoutUser(p, uid)
          ensures k.code != l.code
        {
          var i :| 0 <= i < |p| && p[i] == k;
          assert links[i] == k;
        }
        LinkCodesAppend(WithoutUser(p, uid), l);
      }
    }
  }

  /** `Link.query.filter_by(user_id=uid, is_active=True).update({'is_active': False})`:
      every link of the user ends inactive, the other links are as they were. */
  method DeactivateLinks(links: seq<Link>, uid: nat) returns (staged: seq<Link>)
    ensures |staged| == |links|
    ensures forall j :: 0 <= j < |links| ==>
      staged[j] == if links[j].userId == uid then links[j].(active := false) else links[j]
  {
    staged := links;
    var i := 0;
    while i < |staged|
      invariant 0 <= i <= |staged| && |staged| == |links|
      invariant forall j :: 0 <= j < |staged| ==>
        staged[j] == if j < i && links[j].userId == uid then links[j].(active := false) else links[j]
    {
      if staged[i].userId == uid && staged[i].active {
        staged := staged[i := staged[i].(active := false)];
      }
      i := i + 1;
    }
  }

  /** Deleting the user's inactive links, once every link of the user is
      inactive, leaves exactly the other users' links. */
  method DeleteInactive(links: seq<Link>, staged: seq<Link>, uid: nat) returns (kept: seq<Link>)
    requires |staged| == |links|
    requires forall j :: 0 <= j < |links| ==>
      staged[j] == if links[j].userId == uid then links[j].(active := false) else links[j]
    ensures kept == WithoutUser(links, uid)
  {
    kept := [];
    var j := 0;
    while j < |staged|
      invariant 0 <= j <= |staged|
      invariant kept == WithoutUser(links[..j], uid)
    {
      assert links[..j + 1][..j] == links[..j];
      if !(staged[j].userId == uid && !staged[j].active) {
        kept := kept + [staged[j]];
      }
      j := j + 1;
    }
    assert links[..j] == links;
  }

  /** `invalidate_link`: deactivate the user's active links, then delete the
      user's inactive links; together this deletes every link of the user. */
  method InvalidateLink(db: Store, uid: nat)
    requires db.Valid()
    modifies db
    ensures db.Valid()
    ensures db.links == WithoutUser(old(db.links), uid)
    ensures unchanged(db`users, db`projects, db`technologies, db`processes, db`developments,
                      db`indTechnologies, db`indProcesses, db`nextProjectId, db`nextDevelopmentId)
  {
    var staged := DeactivateLinks(db.links, uid);
    var kept := DeleteInactive(db.links, staged, uid);
    WithoutUserCodes(db.links, uid);
    db.links := kept;
  }

  /** After `invalidate_link` every code that opened the user's sheet is
      invalid, and every other code resolves as before. */
  lemma {:induction false} InvalidatedCodesResolveNowhere(links: seq<Link>, uid: nat, code: string)
    requires LinkCodes(links)
    ensures ResolveLink(WithoutUser(links, uid), code) ==
      if ResolveLink(links, code) == Some(uid) then None else ResolveLink(links, code)
    decreases |links|
  {
    if links != [] {
      var p, l := links[..|links| - 1], links[|links| - 1];
      assert LinkCodes(p);
      InvalidatedCodesResolveNowhere(p, uid, code);
      if l.userId != uid {
        ResolveSnoc(WithoutUser(p, uid), l, code);
      }
    }
  }

  // ---- delete_project --------------------------------------------------------

  /** The project table without the row whose key is `pid`. */
  function RemoveProject(projects: seq<Project>, pid: nat): (r: seq<Project>)
    ensures forall p :: p in r <==> p in projects && p.id != pid
    decreases |projects|
  {
    if projects == [] then []
    else
      var p := projects[|projects| - 1];
      RemoveProject(projects[..|projects| - 1], pid) + (if p.id == pid then [] else [p])
  }

  lemma {:induction false} RemoveProjectKeys(projects: seq<Project>, next: nat, pid: nat)
    requires ProjectKeys(projects, next)
    ensures ProjectKeys(RemoveProject(projects, pid), next)
    decreases |projects|
  {
    if projects != [] {
      var p, q := projects[..|projects| - 1], projects[|projects| - 1];
      RemoveProjectKeys(p, next, pid);
      var w := RemoveProject(p, pid);
      forall k | k in w
        ensures k.id != q.id
      {
        var i :| 0 <= i < |p| && p[i] == k;
        assert projects[i] == k;
      }
      if q.id != pid {
        var r := w + [q];
        forall i, j | 0 <= i < j < |r|
          ensures r[i].id != r[j].id
        {
          if j == |w| {
            assert r[i] in w;
          }
        }
        forall i | 0 <= i < |r|
          ensures r[i].id < next
        {
          if i < |w| {
            assert r[i] in w;
          }
        }
      }
    }
  }

  /** The cascade keeps exactly the other projects' technology rows. */
  lemma {:induction false} OtherProjectsMembers(t: seq<Technology>, pid: nat)
    ensures forall r :: r in OtherProjects(t, pid) <==> r in t && r.projectId != pid
    decreases |t|
  {
    if t != [] {
      var p := t[..|t| - 1];
      OtherProjectsMembers(p, pid);
      assert t == p + [t[|t| - 1]];
    }
  }

  /** The cascade keeps exactly the other projects' phase rows. */
  lemma {:induction false} OtherProcessesMembers(ps: seq<Process>, pid: nat)
    ensures forall q :: q in OtherProcesses(ps, pid) <==> q in ps && q.projectId != pid
    decreases |ps|
  {
    if ps != [] {
      var p := ps[..|ps| - 1];
      OtherProcessesMembers(p, pid);
      assert ps == p + [ps[|ps| - 1]];
    }
  }

  /** Every technology and phase row belongs to a stored project (the
      `project_id` columns are non-null foreign keys). */
  ghost predicate RowsAttached(projects: seq<Project>, techs: seq<Technology>, procs: seq<Process>) {
    && (forall t :: t in techs ==> exists p :: p in projects && p.id == t.projectId)
    && (forall q :: q in procs ==> exists p :: p in projects && p.id == q.projectId)
  }

  /** Deleting a project together with its rows keeps every remaining row
      attached to a remaining project. */
  lemma {:induction false} DeleteKeepsRowsAttached(projects: seq<Project>, techs: seq<Technology>, procs: seq<Process>, pid: nat)
    requires RowsAttached(projects, techs, procs)
    ensures RowsAttached(RemoveProject(projects, pid), OtherProjects(techs, pid), OtherProcesses(procs, pid))
  {
    OtherProjectsMembers(techs, pid);
    OtherProcessesMembers(procs, pid);
    var left := RemoveProject(projects, pid);
    forall t | t in OtherProjects(techs, pid)
      ensures exists p :: p in left && p.id == t.projectId
    {
      var p :| p in projects && p.id == t.projectId;
      assert p in left;
    }
    forall q | q in OtherProcesses(procs, pid)
      ensures exists p :: p in left && p.id == q.projectId
    {
      var p :| p in projects && p.id == q.projectId;
      assert p in left;
    }
  }

  /** `delete_project`: 404 when there is no such project; the owner's request
      removes it together with its technology and phase rows; anybody else's
      changes nothing. */
  method DeleteProject(db: Store, uid: nat, pid: nat) returns (resp: Response)
    requires db.Valid()
    modifies db
    ensures db.Valid()
    ensures resp != Saved ==> unchanged(db)
    ensures FindProject(old(db.projects), pid).None? <==> resp == NotFound
    ensures FindProject(old(db.projects), pid).Some? ==>
      if FindProject(old(db.projects), pid).value.userId == uid then resp == Saved else resp == Refused
    ensures resp == Saved ==>
      && db.projects == RemoveProject(old(db.projects), pid)
      && db.technologies == OtherProjects(old(db.technologies), pid)
      && db.processes == OtherProcesses(old(db.processes), pid)
      && unchanged(db`users, db`links, db`developments, db`indTechnologies, db`indProcesses,
                   db`nextProjectId, db`nextDevelopmentId)
  {
    var project := FindProject(db.projects, pid);
    if project.None? {
      return NotFound;
    }
    if project.value.userId != uid {
      return Refused;
    }
    RemoveProjectKeys(db.projects, db.nextProjectId, pid);
    db.projects := RemoveProject(db.projects, pid);
    db.technologies := OtherProjects(db.technologies, pid);
    db.processes := OtherProcesses(db.processes, pid);
    resp := Saved;
  }

  /** Whether project `pid` has any technology or phase row. */
  predicate HasRows(techs: seq<Technology>, procs: seq<Process>, pid: nat) {
    TechsOf(techs, pid) != [] || ProcessesOf(procs, pid) != []
  }

  /** `delete_project` as written: the relationships carry no delete cascade,
      so the flush sets the children's non-null `project_id` to NULL and the
      commit fails (500, rolled back) for a project that has any row. */
  method DeleteProjectAsWritten(db: Store, uid: nat, pid: nat) returns (resp: Response)
    requires db.Valid()
    modifies db
    ensures db.Valid()
    ensures resp != Saved ==> unchanged(db)
    ensures FindProject(old(db.projects), pid).None? <==> resp == NotFound
    ensures FindProject(old(db.projects), pid).Some? ==>
      if FindProject(old(db.projects), pid).value.userId != uid then resp == Refused
      else if HasRows(old(db.technologies), old(db.processes), pid) then resp == ServerError
      else resp == Saved
    ensures resp == Saved ==>
      && db.projects == RemoveProject(old(db.projects), pid)
      && unchanged(db`users, db`technologies, db`processes, db`links, db`developments,
                   db`indTechnologies, db`indProcesses, db`nextProjectId, db`nextDevelopmentId)
  {
    var project := FindProject(db.projects, pid);
    if project.None? {
      return NotFound;
    }
    if project.value.userId != uid {
      return Refused;
    }
    if HasRows(db.technologies, db.processes, pid) {
      return ServerError;
    }
    RemoveProjectKeys(db.projects, db.nextProjectId, pid);
    db.projects := RemoveProject(db.projects, pid);
    resp := Saved;
  }

  /** A project saved from the input page with at least one phase selected
      has rows, so the handler as written can never delete it. */
  lemma {:induction false} SavedPhasesBlockDelete(techs: seq<Technology>, procs: seq<Process>, pid: nat, names: seq<string>)
    requires names != []
    ensures HasRows(techs, procs + ProcessRows(pid, names), pid)
  {
    var q := ProcessRows(pid, names)[0];
    assert q in procs + ProcessRows(pid, names);
    assert q in ProcessesOf(procs + ProcessRows(pid, names), pid);
  }

  /** Only the owner's request removes a project, and it removes exactly that one. */
  lemma {:induction false} DeleteOnlyForOwner(projects: seq<Project>, uid: nat, pid: nat, q: Project)
    requires q in projects
    ensures q in RemoveProject(projects, pid) <==> q.id != pid
  {
  }

  // ---- edit_project ------------------------------------------------------------

  /** The per-category submissions of `edit_project`: names and durations are
      read over indices below `len(request.form)`, skipping missing keys, and
      every duration read is present. */
  function EditSubmissions(fields: map<string, string>, kinds: seq<string>): (subs: seq<Submission>)
    ensures |subs| == |kinds|
    ensures forall k :: 0 <= k < |kinds| ==>
      subs[k] == Submission(kinds[k], ScanNames(fields, kinds[k]), SomeAll(ScanDurations(fields, kinds[k])))
    ensures KindsOf(subs) == kinds
  {
    var subs := seq(|kinds|, k requires 0 <= k < |kinds| =>
      Submission(kinds[k], ScanNames(fields, kinds[k]), SomeAll(ScanDurations(fields, kinds[k]))));
    assert KindsOf(subs) == kinds;
    subs
  }

  /** `edit_project` never reaches a missing duration: it only stops on a repeated name. */
  lemma {:induction false} EditNeverCrashes(t: seq<Technology>, pid: nat, fields: map<string, string>, kinds: seq<string>)
    ensures ReconcileAll(t, pid, EditSubmissions(fields, kinds)) != Crashed
  {
    var subs := EditSubmissions(fields, kinds);
    if !ReconcileAll(t, pid, subs).Staged? {
      var i := ReconcileAllFirstFailure(t, pid, subs);
      PresentDurationsNeverCrash(subs[i].names, ScanDurations(fields, kinds[i]));
    }
  }

  /** The submission is refused exactly when some category repeats a scanned
      name; blank names count, so two blank fields refuse it. */
  lemma {:induction false} EditRejectsRepeats(t: seq<Technology>, pid: nat, fields: map<string, string>, kinds: seq<string>)
    ensures ReconcileAll(t, pid, EditSubmissions(fields, kinds)).DuplicateIn? <==>
      exists k :: 0 <= k < |kinds| && HasDuplicate(ScanNames(fields, kinds[k]))
  {
    var subs := EditSubmissions(fields, kinds);
    EditNeverCrashes(t, pid, fields, kinds);
    if ReconcileAll(t, pid, subs).DuplicateIn? {
      var i := ReconcileAllFirstFailure(t, pid, subs);
      PresentDurationsNeverCrash(subs[i].names, ScanDurations(fields, kinds[i]));
      assert HasDuplicate(ScanNames(fields, kinds[i]));
    } else {
      ReconcileAllCompletes(t, pid, subs);
      forall k | 0 <= k < |kinds|
        ensures !HasDuplicate(ScanNames(fields, kinds[k]))
      {
        assert !Fails(subs[k]);
      }
    }
  }

  /** Two blank `os` fields: `edit_project` counts them as a repeated name. */
  lemma {:induction false} EditTwoBlanksRejected(t: seq<Technology>, pid: nat)
    ensures ReconcileAll(t, pid, EditSubmissions(map["os_0" := "", "os_1" := ""], TechTypes)) == DuplicateIn("os")
  {
    var fields := map["os_0" := "", "os_1" := ""];
    var subs := EditSubmissions(fields, TechTypes);
    assert FieldKey("os", 0) == "os_0" && FieldKey("os", 1) == "os_1";
    assert |fields.Keys| == 2;
    assert ScanNames(fields, "os") == ScanValues(fields, "os", false, 2);
    assert ScanValues(fields, "os", false, 2) == ["", ""];
    assert Elements(["", ""]) == {""};
    assert HasDuplicate(subs[0].names);
    assert subs[..1] == [subs[0]];
    assert ReconcileAll(t, pid, subs[..0]) == Staged(t);
    ReconcileAllSnoc(t, pid, subs, 0);
    ReconcileAllStops(t, pid, subs, 1);
  }

  /** What an accepted edit stores, for every category and name: rows of other
      projects are untouched; a submitted name with a positive digit-string
      duration has its first row set to that duration (or a new row); other
      submitted names keep their rows; names not submitted lose theirs. */
  lemma {:induction false} EditProjectTechnologies(t: seq<Technology>, pid: nat, fields: map<string, string>, kinds: seq<string>, x: string)
    requires Distinct(kinds)
    requires ReconcileAll(t, pid, EditSubmissions(fields, kinds)).Staged?
    ensures var u := ReconcileAll(t, pid, EditSubmissions(fields, kinds)).techs;
      && OtherProjects(u, pid) == OtherProjects(t, pid)
      && (forall kind :: kind !in kinds ==> MonthsNamed(u, pid, kind, x) == MonthsNamed(t, pid, kind, x))
      && (forall k :: 0 <= k < |kinds| ==>
            MonthsNamed(u, pid, kinds[k], x) ==
              Expected(t, pid, kinds[k], ScanNames(fields, kinds[k]), SomeAll(ScanDurations(fields, kinds[k])), x))
  {
    var subs := EditSubmissions(fields, kinds);
    ReconcileAllRows(t, pid, subs, x);
  }

  /** `edit_project` over the category list `kinds`: 404 for an unknown
      project; otherwise store the columns read from the form, reconcile every
      category's technologies and the project's phases, or redirect with
      nothing stored when a category repeats a name. Any signed-in user may
      edit any project. */
  method EditProjectOver(db: Store, pid: nat, form: Form, kinds: seq<string>) returns (resp: Response)
    requires db.Valid()
    modifies db
    ensures db.Valid()
    ensures resp != Saved ==> unchanged(db)
    ensures FindProject(old(db.projects), pid).None? ==> resp == NotFound
    ensures FindProject(old(db.projects), pid).Some? && ReadProjectInfo(form.fields, false).None? ==> resp == BadRequest
    ensures FindProject(old(db.projects), pid).Some? && ReadProjectInfo(form.fields, false).Some? ==>
      match ReconcileAll(old(db.technologies), pid, EditSubmissions(form.fields, kinds))
      case DuplicateIn(kind) => resp == Rejected(kind)
      case Crashed => false
      case Staged(u) =>
        && resp == Saved
        && db.projects == SetProjectInfo(old(db.projects), pid, ReadProjectInfo(form.fields, false).value)
        && db.technologies == u
        && db.processes == EditProcesses(old(db.processes), pid, form.processes)
        && unchanged(db`users, db`links, db`developments, db`indTechnologies, db`indProcesses,
                     db`nextProjectId, db`nextDevelopmentId)
  {
    var project := FindProject(db.projects, pid);
    if project.None? {
      return NotFound;
    }
    var info := ReadProjectInfo(form.fields, false);
    if info.None? {
      return BadRequest;
    }
    var subs := EditSubmissions(form.fields, kinds);
    EditNeverCrashes(db.technologies, pid, form.fields, kinds);
    var staged := ReconcileKinds(db.technologies, pid, subs);
    if staged.DuplicateIn? {
      return Rejected(staged.kind);
    }
    var phases := ReconcileProcesses(db.processes, pid, form.processes);
    StoreEdit(db, pid, info.value, staged.techs, phases);
    resp := Saved;
  }

  /** The commits of `edit_project`: the project's columns and the staged
      technology and phase tables. */
  method StoreEdit(db: Store, pid: nat, info: ProjectInfo, techs: seq<Technology>, phases: seq<Process>)
    requires db.Valid()
    modifies db
    ensures db.Valid()
    ensures db.projects == SetProjectInfo(old(db.projects), pid, info)
    ensures db.technologies == techs && db.processes == phases
    ensures unchanged(db`users, db`links, db`developments, db`indTechnologies, db`indProcesses,
                      db`nextProjectId, db`nextDevelopmentId)
  {
    SetProjectInfoKeys(db.projects, db.nextProjectId, pid, info);
    db.projects := SetProjectInfo(db.projects, pid, info);
    db.technologies := techs;
    db.processes := phases;
  }

  /** `edit_project`, over the eight technology categories. */
  method EditProject(db: Store, pid: nat, form: Form) returns (resp: Response)
    requires db.Valid()
    modifies db
    ensures db.Valid()
    ensures resp != Saved ==> unchanged(db)
    ensures FindProject(old(db.projects), pid).None? ==> resp == NotFound
    ensures FindProject(old(db.projects), pid).Some? && ReadProjectInfo(form.fields, false).None? ==> resp == BadRequest
    ensures FindProject(old(db.projects), pid).Some? && ReadProjectInfo(form.fields, false).Some? ==>
      match ReconcileAll(old(db.technologies), pid, EditSubmissions(form.fields, TechTypes))
      case DuplicateIn(kind) => resp == Rejected(kind)
      case Crashed => false
      case Staged(u) =>
        && resp == Saved
        && db.projects == SetProjectInfo(old(db.projects), pid, ReadProjectInfo(form.fields, false).value)
        && db.technologies == u
        && db.processes == EditProcesses(old(db.processes), pid, form.processes)
        && unchanged(db`users, db`links, db`developments, db`indTechnologies, db`indProcesses,
                     db`nextProjectId, db`nextDevelopmentId)
  {
    resp := EditProjectOver(db, pid, form, TechTypes);
  }

  // ---- tech_projects -----------------------------------------------------------

  /** Whether project `pid` has a technology called `name`. */
  predicate UsesTech(techs: seq<Technology>, pid: nat, name: string) {
    exists t :: t in techs && t.projectId == pid && t.name == name
  }

  /** The joined query: the user's projects that use `name`, in table order. */
  function ProjectsUsing(mine: seq<Project>, techs: seq<Technology>, name: string): seq<Project>
    decreases |mine|
  {
    if mine == [] then []
    else
      var p := mine[|mine| - 1];
      ProjectsUsing(mine[..|mine| - 1], techs, name) + (if UsesTech(techs, p.id, name) then [p] else [])
  }

  /** Exactly the listed projects that use the technology. */
  lemma {:induction false} ProjectsUsingMembers(mine: seq<Project>, techs: seq<Technology>, name: string)
    ensures forall p :: p in ProjectsUsing(mine, techs, name) <==> p in mine && UsesTech(techs, p.id, name)
    decreases |mine|
  {
    if mine != [] {
      var q := mine[..|mine| - 1];
      ProjectsUsingMembers(q, techs, name);
      assert mine == q + [mine[|mine| - 1]];
    }
  }

  /** `[p.id for p in ...]`: the keys of a project list, in list order. */
  function ProjectIds(mine: seq<Project>): (ids: seq<nat>)
    ensures |ids| == |mine|
    ensures forall i :: 0 <= i < |mine| ==> ids[i] == mine[i].id
  {
    seq(|mine|, i requires 0 <= i < |mine| => mine[i].id)
  }

  /** `ids.index(id)`: the first position holding `id`; |ids| where `list.index`
      would raise, which the handler never meets since every hit is listed. */
  function IdIndex(ids: seq<nat>, id: nat): (k: nat)
    ensures k <= |ids|
    ensures k < |ids| ==> ids[k] == id
    ensures forall j :: 0 <= j < k ==> ids[j] != id
    decreases |ids|
  {
    if ids == [] then 0
    else if ids[0] == id then 0
    else 1 + IdIndex(ids[1..], id)
  }

  /** In a list of distinct keys the first position of a key is its position. */
  lemma {:induction false} IdIndexAt(ids: seq<nat>, i: nat)
    requires Distinct(ids) && i < |ids|
    ensures IdIndex(ids, ids[i]) == i
  {
  }

  /** `[{'number': ids.index(p.id) + 1, 'name': p.project_name} for p in hits]`. */
  function ProjectNumbers(ids: seq<nat>, hits: seq<Project>): seq<(nat, string)>
    decreases |hits|
  {
    if hits == [] then []
    else
      var p := hits[|hits| - 1];
      ProjectNumbers(ids, hits[..|hits| - 1]) + [(IdIndex(ids, p.id) + 1, p.info.projectName)]
  }

  /** `tech_projects` for projects. */
  function TechProjects(projects: seq<Project>, techs: seq<Technology>, uid: nat, name: string): seq<(nat, string)> {
    var mine := ProjectsOf(projects, uid);
    ProjectNumbers(ProjectIds(mine), ProjectsUsing(mine, techs, name))
  }

  /** The numbering the page expects: each project of the list that uses
      `name`, once, in list order, under its 1-based position, with its name. */
  function NumberedProjects(mine: seq<Project>, techs: seq<Technology>, name: string): (r: seq<(nat, string)>)
    ensures |r| <= |mine|
    decreases |mine|
  {
    if mine == [] then []
    else
      var n := |mine| - 1;
      NumberedProjects(mine[..n], techs, name)
        + (if UsesTech(techs, mine[n].id, name) then [(n + 1, mine[n].info.projectName)] else [])
  }

  /** Every entry names a project of the list that uses `name`, by its position. */
  lemma {:induction false} NumberedProjectAt(mine: seq<Project>, techs: seq<Technology>, name: string, k: nat)
    requires k < |NumberedProjects(mine, techs, name)|
    ensures var e := NumberedProjects(mine, techs, name)[k];
      1 <= e.0 <= |mine| && UsesTech(techs, mine[e.0 - 1].id, name) && e.1 == mine[e.0 - 1].info.projectName
    decreases |mine|
  {
    var n := |mine| - 1;
    var r, r' := NumberedProjects(mine, techs, name), NumberedProjects(mine[..n], techs, name);
    if k < |r'| {
      NumberedProjectAt(mine[..n], techs, name, k);
      assert r[k] == r'[k];
      assert mine[..n][r[k].0 - 1] == mine[r[k].0 - 1];
    }
  }

  /** Every project of the list that uses `name` has its entry. */
  lemma {:induction false} NumberedProjectFound(mine: seq<Project>, techs: seq<Technology>, name: string, i: nat)
    requires i < |mine| && UsesTech(techs, mine[i].id, name)
    ensures (i + 1, mine[i].info.projectName) in NumberedProjects(mine, techs, name)
    decreases |mine|
  {
    var n := |mine| - 1;
    if i < n {
      assert mine[..n][i] == mine[i];
      NumberedProjectFound(mine[..n], techs, name, i);
    }
  }

  /** The entries come in strictly increasing position order. */
  lemma {:induction false} NumberedProjectsIncrease(mine: seq<Project>, techs: seq<Technology>, name: string, a: nat, b: nat)
    requires a < b < |NumberedProjects(mine, techs, name)|
    ensures NumberedProjects(mine, techs, name)[a].0 < NumberedProjects(mine, techs, name)[b].0
    decreases |mine|
  {
    var n := |mine| - 1;
    var r, r' := NumberedProjects(mine, techs, name), NumberedProjects(mine[..n], techs, name);
    assert r[a] == r'[a];
    if b < |r'| {
      NumberedProjectsIncrease(mine[..n], techs, name, a, b);
      assert r[b] == r'[b];
    } else {
      NumberedProjectAt(mine[..n], techs, name, a);
    }
  }

  /** Numbering one more hit appends its entry. */
  lemma {:induction false} ProjectNumbersSnoc(ids: seq<nat>, hits: seq<Project>, p: Project)
    ensures ProjectNumbers(ids, hits + [p]) == ProjectNumbers(ids, hits) + [(IdIndex(ids, p.id) + 1, p.info.projectName)]
  {
    assert (hits + [p])[..|hits|] == hits;
  }

  /** Over a prefix of the key list, `index` numbering is the reference numbering. */
  lemma {:induction false} ProjectNumbersPrefix(ids: seq<nat>, mine: seq<Project>, techs: seq<Technology>, name: string)
    requires Distinct(ids) && |mine| <= |ids|
    requires forall i :: 0 <= i < |mine| ==> ids[i] == mine[i].id
    ensures ProjectNumbers(ids, ProjectsUsing(mine, techs, name)) == NumberedProjects(mine, techs, name)
    decreases |mine|
  {
    if mine != [] {
      var n := |mine| - 1;
      var p := mine[n];
      var hits' := ProjectsUsing(mine[..n], techs, name);
      assert forall i :: 0 <= i < n ==> mine[..n][i] == mine[i];
      ProjectNumbersPrefix(ids, mine[..n], techs, name);
      if UsesTech(techs, p.id, name) {
        IdIndexAt(ids, n);
        ProjectNumbersSnoc(ids, hits', p);
      } else {
        assert hits' + [] == hits';
      }
    }
  }

  /** The user's projects keep the table's distinct keys. */
  lemma {:induction false} ProjectsOfIds(projects: seq<Project>, uid: nat)
    requires forall i, j :: 0 <= i < j < |projects| ==> projects[i].id != projects[j].id
    ensures Distinct(ProjectIds(ProjectsOf(projects, uid)))
    decreases |projects|
  {
    if projects != [] {
      var n := |projects| - 1;
      var p := projects[n];
      var r' := ProjectsOf(projects[..n], uid);
      ProjectsOfIds(projects[..n], uid);
      if p.userId == uid {
        var r := r' + [p];
        forall i, j | 0 <= i < j < |r|
          ensures r[i].id != r[j].id
        {
          if j == |r'| {
            assert r[i] in projects[..n];
            var a :| 0 <= a < n && projects[..n][a] == r[i];
            assert projects[a] == r[i];
          } else {
            assert ProjectIds(r')[i] == r[i].id && ProjectIds(r')[j] == r[j].id;
          }
        }
      }
    }
  }

  /** With distinct keys, `tech_projects` numbers like the reference. */
  lemma {:induction false} TechProjectsNumbered(projects: seq<Project>, techs: seq<Technology>, uid: nat, name: string)
    requires forall i, j :: 0 <= i < j < |projects| ==> projects[i].id != projects[j].id
    ensures TechProjects(projects, techs, uid, name) == NumberedProjects(ProjectsOf(projects, uid), techs, name)
  {
    var mine := ProjectsOf(projects, uid);
    ProjectsOfIds(projects, uid);
    ProjectNumbersPrefix(ProjectIds(mine), mine, techs, name);
  }


  /** The reference numbering lists exactly the positions of the list's
      projects that use `name`, once each, in increasing order. */
  lemma {:induction false} NumberedProjectsSpec(mine: seq<Project>, techs: seq<Technology>, name: string)
    ensures var r := NumberedProjects(mine, techs, name);
      && (forall k :: 0 <= k < |r| ==>
            1 <= r[k].0 <= |mine| && UsesTech(techs, mine[r[k].0 - 1].id, name) && mine[r[k].0 - 1].info.projectName == r[k].1)
      && (forall i :: 0 <= i < |mine| && UsesTech(techs, mine[i].id, name) ==> (i + 1, mine[i].info.projectName) in r)
      && (forall a, b :: 0 <= a < b < |r| ==> r[a].0 < r[b].0)
  {
    var r := NumberedProjects(mine, techs, name);
    forall k | 0 <= k < |r|
      ensures 1 <= r[k].0 <= |mine| && UsesTech(techs, mine[r[k].0 - 1].id, name) && mine[r[k].0 - 1].info.projectName == r[k].1
    {
      NumberedProjectAt(mine, techs, name, k);
    }
    forall i | 0 <= i < |mine| && UsesTech(techs, mine[i].id, name)
      ensures (i + 1, mine[i].info.projectName) in r
    {
      NumberedProjectFound(mine, techs, name, i);
    }
    forall a, b | 0 <= a < b < |r|
      ensures r[a].0 < r[b].0
    {
      NumberedProjectsIncrease(mine, techs, name, a, b);
    }
  }

  /** With distinct project keys, `tech_projects` is the reference numbering:
      every reported entry is one of the user's projects that uses the
      technology, under its own 1-based position in the user's project list
      and with its name. */
  lemma {:induction false} TechProjectNumbers(projects: seq<Project>, techs: seq<Technology>, uid: nat, name: string)
    requires forall i, j :: 0 <= i < j < |projects| ==> projects[i].id != projects[j].id
    ensures TechProjects(projects, techs, uid, name) == NumberedProjects(ProjectsOf(projects, uid), techs, name)
    ensures var mine, r := ProjectsOf(projects, uid), TechProjects(projects, techs, uid, name);
      && (forall k :: 0 <= k < |r| ==>
            && 1 <= r[k].0 <= |mine|
            && mine[r[k].0 - 1].userId == uid
            && UsesTech(techs, mine[r[k].0 - 1].id, name)
            && mine[r[k].0 - 1].info.projectName == r[k].1)
  {
    var mine, r := ProjectsOf(projects, uid), TechProjects(projects, techs, uid, name);
    TechProjectsNumbered(projects, techs, uid, name);
    forall k | 0 <= k < |r|
      ensures 1 <= r[k].0 <= |mine| && mine[r[k].0 - 1].userId == uid
      ensures UsesTech(techs, mine[r[k].0 - 1].id, name) && mine[r[k].0 - 1].info.projectName == r[k].1
    {
      NumberedProjectAt(mine, techs, name, k);
      assert mine[r[k].0 - 1] in mine;
    }
  }

  /** And none is missed: every one of the user's projects that uses the
      technology is reported under its 1-based position, with its name, and
      the numbers strictly increase, so each is reported once, in list order. */
  lemma {:induction false} TechProjectsComplete(projects: seq<Project>, techs: seq<Technology>, uid: nat, name: string)
    requires forall i, j :: 0 <= i < j < |projects| ==> projects[i].id != projects[j].id
    ensures var mine, r := ProjectsOf(projects, uid), TechProjects(projects, techs, uid, name);
      && (forall i :: 0 <= i < |mine| && UsesTech(techs, mine[i].id, name) ==> (i + 1, mine[i].info.projectName) in r)
      && (forall a, b :: 0 <= a < b < |r| ==> r[a].0 < r[b].0)
  {
    TechProjectsNumbered(projects, techs, uid, name);
    NumberedProjectsSpec(ProjectsOf(projects, uid), techs, name);
  }

  /** Whether personal project `did` has a technology called `name`. */
  predicate DevUsesTech(techs: seq<IndividualTechnology>, did: nat, name: string) {
    exists t :: t in techs && t.developmentId == did && t.name == name
  }

  /** The joined query for personal projects, in table order. */
  function DevelopmentsUsing(mine: seq<IndividualDevelopment>, techs: seq<IndividualTechnology>, name: string): seq<IndividualDevelopment>
    decreases |mine|
  {
    if mine == [] then []
    else
      var d := mine[|mine| - 1];
      DevelopmentsUsing(mine[..|mine| - 1], techs, name) + (if DevUsesTech(techs, d.id, name) then [d] else [])
  }

  /** Exactly the listed personal projects that use the technology. */
  lemma {:induction false} DevelopmentsUsingMembers(mine: seq<IndividualDevelopment>, techs: seq<IndividualTechnology>, name: string)
    ensures forall d :: d in DevelopmentsUsing(mine, techs, name) <==> d in mine && DevUsesTech(techs, d.id, name)
    decreases |mine|
  {
    if mine != [] {
      var q := mine[..|mine| - 1];
      DevelopmentsUsingMembers(q, techs, name);
      assert mine == q + [mine[|mine| - 1]];
    }
  }

  /** `[d.id for d in ...]`: the keys of a personal-project list, in list order. */
  function DevelopmentIds(mine: seq<IndividualDevelopment>): (ids: seq<nat>)
    ensures |ids| == |mine|
    ensures forall i :: 0 <= i < |mine| ==> ids[i] == mine[i].id
  {
    seq(|mine|, i requires 0 <= i < |mine| => mine[i].id)
  }

  /** `[{'number': ids.index(d.id) + 1, 'name': d.name} for d in hits]`. */
  function DevelopmentNumbers(ids: seq<nat>, hits: seq<IndividualDevelopment>): seq<(nat, Option<string>)>
    decreases |hits|
  {
    if hits == [] then []
    else
      var d := hits[|hits| - 1];
      DevelopmentNumbers(ids, hits[..|hits| - 1]) + [(IdIndex(ids, d.id) + 1, d.name)]
  }

  /** `tech_projects` for personal projects, numbered in the user's personal-project list. */
  function TechDevelopments(devs: seq<IndividualDevelopment>, techs: seq<IndividualTechnology>, uid: nat, name: string)
    : seq<(nat, Option<string>)> {
    var mine := DevelopmentsOf(devs, uid);
    DevelopmentNumbers(DevelopmentIds(mine), DevelopmentsUsing(mine, techs, name))
  }

  /** The numbering the page expects for personal projects. */
  function NumberedDevelopments(mine: seq<IndividualDevelopment>, techs: seq<IndividualTechnology>, name: string)
    : (r: seq<(nat, Option<string>)>)
    ensures |r| <= |mine|
    decreases |mine|
  {
    if mine == [] then []
    else
      var n := |mine| - 1;
      NumberedDevelopments(mine[..n], techs, name)
        + (if DevUsesTech(techs, mine[n].id, name) then [(n + 1, mine[n].name)] else [])
  }

  /** Every entry names a listed personal project that uses `name`, by its position. */
  lemma {:induction false} NumberedDevelopmentAt(mine: seq<IndividualDevelopment>, techs: seq<IndividualTechnology>, name: string, k: nat)
    requires k < |NumberedDevelopments(mine, techs, name)|
    ensures var e := NumberedDevelopments(mine, techs, name)[k];
      1 <= e.0 <= |mine| && DevUsesTech(techs, mine[e.0 - 1].id, name) && e.1 == mine[e.0 - 1].name
    decreases |mine|
  {
    var n := |mine| - 1;
    var r, r' := NumberedDevelopments(mine, techs, name), NumberedDevelopments(mine[..n], techs, name);
    if k < |r'| {
      NumberedDevelopmentAt(mine[..n], techs, name, k);
      assert r[k] == r'[k];
      assert mine[..n][r[k].0 - 1] == mine[r[k].0 - 1];
    }
  }

  /** Every listed personal project that uses `name` has its entry. */
  lemma {:induction false} NumberedDevelopmentFound(mine: seq<IndividualDevelopment>, techs: seq<IndividualTechnology>, name: string, i: nat)
    requires i < |mine| && DevUsesTech(techs, mine[i].id, name)
    ensures (i + 1, mine[i].name) in NumberedDevelopments(mine, techs, name)
    decreases |mine|
  {
    var n := |mine| - 1;
    if i < n {
      assert mine[..n][i] == mine[i];
      NumberedDevelopmentFound(mine[..n], techs, name, i);
    }
  }

  /** The entries come in strictly increasing position order. */
  lemma {:induction false} NumberedDevelopmentsIncrease(mine: seq<IndividualDevelopment>, techs: seq<IndividualTechnology>, name: string, a: nat, b: nat)
    requires a < b < |NumberedDevelopments(mine, techs, name)|
    ensures NumberedDevelopments(mine, techs, name)[a].0 < NumberedDevelopments(mine, techs, name)[b].0
    decreases |mine|
  {
    var n := |mine| - 1;
    var r, r' := NumberedDevelopments(mine, techs, name), NumberedDevelopments(mine[..n], techs, name);
    assert r[a] == r'[a];
    if b < |r'| {
      NumberedDevelopmentsIncrease(mine[..n], techs, name, a, b);
      assert r[b] == r'[b];
    } else {
      NumberedDevelopmentAt(mine[..n], techs, name, a);
    }
  }

  /** Numbering one more hit appends its entry. */
  lemma {:induction false} DevelopmentNumbersSnoc(ids: seq<nat>, hits: seq<IndividualDevelopment>, d: IndividualDevelopment)
    ensures DevelopmentNumbers(ids, hits + [d]) == DevelopmentNumbers(ids, hits) + [(IdIndex(ids, d.id) + 1, d.name)]
  {
    assert (hits + [d])[..|hits|] == hits;
  }

  /** Over a prefix of the key list, `index` numbering is the reference numbering. */
  lemma {:induction false} DevelopmentNumbersPrefix(ids: seq<nat>, mine: seq<IndividualDevelopment>, techs: seq<IndividualTechnology>, name: string)
    requires Distinct(ids) && |mine| <= |ids|
    requires forall i :: 0 <= i < |mine| ==> ids[i] == mine[i].id
    ensures DevelopmentNumbers(ids, DevelopmentsUsing(mine, techs, name)) == NumberedDevelopments(mine, techs, name)
    decreases |mine|
  {
    if mine != [] {
      var n := |mine| - 1;
      var d := mine[n];
      var hits' := DevelopmentsUsing(mine[..n], techs, name);
      assert forall i :: 0 <= i < n ==> mine[..n][i] == mine[i];
      DevelopmentNumbersPrefix(ids, mine[..n], techs, name);
      if DevUsesTech(techs, d.id, name) {
        IdIndexAt(ids, n);
        DevelopmentNumbersSnoc(ids, hits', d);
      } else {
        assert hits' + [] == hits';
      }
    }
  }

  /** The user's personal projects keep the table's distinct keys. */
  lemma {:induction false} DevelopmentsOfIds(devs: seq<IndividualDevelopment>, uid: nat)
    requires forall i, j :: 0 <= i < j < |devs| ==> devs[i].id != devs[j].id
    ensures Distinct(DevelopmentIds(DevelopmentsOf(devs, uid)))
    decreases |devs|
  {
    if devs != [] {
      var n := |devs| - 1;
      var d := devs[n];
      var r' := DevelopmentsOf(devs[..n], uid);
      DevelopmentsOfIds(devs[..n], uid);
      if d.userId == uid {
        var r := r' + [d];
        forall i, j | 0 <= i < j < |r|
          ensures r[i].id != r[j].id
        {
          if j == |r'| {
            assert r[i] in devs[..n];
            var a :| 0 <= a < n && devs[..n][a] == r[i];
            assert devs[a] == r[i];
          } else {
            assert DevelopmentIds(r')[i] == r[i].id && DevelopmentIds(r')[j] == r[j].id;
          }
        }
      }
    }
  }

  /** With distinct keys, the personal-project part numbers like the reference. */
  lemma {:induction false} TechDevelopmentsNumbered(devs: seq<IndividualDevelopment>, techs: seq<IndividualTechnology>, uid: nat, name: string)
    requires forall i, j :: 0 <= i < j < |devs| ==> devs[i].id != devs[j].id
    ensures TechDevelopments(devs, techs, uid, name) == NumberedDevelopments(DevelopmentsOf(devs, uid), techs, name)
  {
    var mine := DevelopmentsOf(devs, uid);
    DevelopmentsOfIds(devs, uid);
    DevelopmentNumbersPrefix(DevelopmentIds(mine), mine, techs, name);
  }


  /** The reference numbering lists exactly the positions of the list's
      personal projects that use `name`, once each, in increasing order. */
  lemma {:induction false} NumberedDevelopmentsSpec(mine: seq<IndividualDevelopment>, techs: seq<IndividualTechnology>, name: string)
    ensures var r := NumberedDevelopments(mine, techs, name);
      && (forall k :: 0 <= k < |r| ==>
            1 <= r[k].0 <= |mine| && DevUsesTech(techs, mine[r[k].0 - 1].id, name) && mine[r[k].0 - 1].name == r[k].1)
      && (forall i :: 0 <= i < |mine| && DevUsesTech(techs, mine[i].id, name) ==> (i + 1, mine[i].name) in r)
      && (forall a, b :: 0 <= a < b < |r| ==> r[a].0 < r[b].0)
  {
    var r := NumberedDevelopments(mine, techs, name);
    forall k | 0 <= k < |r|
      ensures 1 <= r[k].0 <= |mine| && DevUsesTech(techs, mine[r[k].0 - 1].id, name) && mine[r[k].0 - 1].name == r[k].1
    {
      NumberedDevelopmentAt(mine, techs, name, k);
    }
    forall i | 0 <= i < |mine| && DevUsesTech(techs, mine[i].id, name)
      ensures (i + 1, mine[i].name) in r
    {
      NumberedDevelopmentFound(mine, techs, name, i);
    }
    forall a, b | 0 <= a < b < |r|
      ensures r[a].0 < r[b].0
    {
      NumberedDevelopmentsIncrease(mine, techs, name, a, b);
    }
  }

  /** The same for personal projects: every reported entry is one of the
      user's personal projects that uses the technology, under its own 1-based
      position in the user's personal-project list and with its name. */
  lemma {:induction false} TechDevelopmentNumbers(devs: seq<IndividualDevelopment>, techs: seq<IndividualTechnology>, uid: nat, name: string)
    requires forall i, j :: 0 <= i < j < |devs| ==> devs[i].id != devs[j].id
    ensures TechDevelopments(devs, techs, uid, name) == NumberedDevelopments(DevelopmentsOf(devs, uid), techs, name)
    ensures var mine, r := DevelopmentsOf(devs, uid), TechDevelopments(devs, techs, uid, name);
      && (forall k :: 0 <= k < |r| ==>
            && 1 <= r[k].0 <= |mine|
            && mine[r[k].0 - 1].userId == uid
            && DevUsesTech(techs, mine[r[k].0 - 1].id, name)
            && mine[r[k].0 - 1].name == r[k].1)
  {
    var mine, r := DevelopmentsOf(devs, uid), TechDevelopments(devs, techs, uid, name);
    TechDevelopmentsNumbered(devs, techs, uid, name);
    forall k | 0 <= k < |r|
      ensures 1 <= r[k].0 <= |mine| && mine[r[k].0 - 1].userId == uid
      ensures DevUsesTech(techs, mine[r[k].0 - 1].id, name) && mine[r[k].0 - 1].name == r[k].1
    {
      NumberedDevelopmentAt(mine, techs, name, k);
      assert mine[r[k].0 - 1] in mine;
    }
  }

  /** And none is missed: every one of the user's personal projects that uses
      the technology is reported under its 1-based position, with its name,
      and the numbers strictly increase. */
  lemma {:induction false} TechDevelopmentsComplete(devs: seq<IndividualDevelopment>, techs: seq<IndividualTechnology>, uid: nat, name: string)
    requires forall i, j :: 0 <= i < j < |devs| ==> devs[i].id != devs[j].id
    ensures var mine, r := DevelopmentsOf(devs, uid), TechDevelopments(devs, techs, uid, name);
      && (forall i :: 0 <= i < |mine| && DevUsesTech(techs, mine[i].id, name) ==> (i + 1, mine[i].name) in r)
      && (forall a, b :: 0 <= a < b < |r| ==> r[a].0 < r[b].0)
  {
    TechDevelopmentsNumbered(devs, techs, uid, name);
    NumberedDevelopmentsSpec(DevelopmentsOf(devs, uid), techs, name);
  }
}
