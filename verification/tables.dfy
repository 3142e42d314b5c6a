/** The SkillCanvas records and the in-memory database that stands for the
    SQL tables (`User`, `Project`, `Technology`, `Process`, `Link` and the
    personal-project tables `IndividualDevelopment`, `IndividualTechnology`,
    `IndividualProcess`). Each table is a sequence of records in table order;
    the ORM session is the local copy a handler stages before it commits. */
module Tables {
  import opened Common

  datatype User = User(id: nat, isAdmin: bool)

  /** The six descriptive columns of a project, read from the form fields
      `start_month`, `end_month`, `industry`, `project_name`,
      `project_summary` and `responsibilities`. */
  datatype ProjectInfo = ProjectInfo(
    startMonth: string, endMonth: string, industry: string,
    projectName: string, summary: string, responsibilities: string)

  datatype Project = Project(id: nat, userId: nat, info: ProjectInfo)

  /** One technology of a project: raw category (`type`), name and months. */
  datatype Technology = Technology(projectId: nat, kind: string, name: string, months: int)

  datatype Process = Process(projectId: nat, name: string)

  datatype Link = Link(userId: nat, code: string, active: bool)

  /** A personal project; its columns are read with `request.form.get`, so each may be missing. */
  datatype IndividualDevelopment = IndividualDevelopment(
    id: nat, userId: nat, startMonth: Option<string>, endMonth: Option<string>,
    name: Option<string>, summary: Option<string>)

  datatype IndividualTechnology = IndividualTechnology(developmentId: nat, kind: string, name: string, months: int)

  datatype IndividualProcess = IndividualProcess(developmentId: nat, name: string)

  /** How a handler answers. An answer other than `Saved` leaves the database
      as it was, unless the handler had committed before an exception. */
  datatype Response =
    | Saved                   // changes committed
    | Rejected(kind: string)  // a technology name repeats in this category: redirect, nothing committed
    | Refused                 // the caller may not do this: redirect with a message
    | BadRequest              // a required form key is missing (400)
    | NotFound                // `get_or_404` found no row (404)
    | Forbidden               // `admin_required` turned the caller away (403)
    | ServerError             // an exception escaped the handler (500); the session is rolled back

  /** The database. Primary keys of projects and personal projects are handed
      out by the counters `nextProjectId` / `nextDevelopmentId`. */
  class Store {
    var users: seq<User>
    var projects: seq<Project>
    var technologies: seq<Technology>
    var processes: seq<Process>
    var links: seq<Link>
    var developments: seq<IndividualDevelopment>
    var indTechnologies: seq<IndividualTechnology>
    var indProcesses: seq<IndividualProcess>
    var nextProjectId: nat
    var nextDevelopmentId: nat

    /** Primary keys are unique and below their counters; link codes are unique
        (the `unique=True` column constraint). */
    ghost predicate Valid()
      reads this
    {
      ProjectKeys(projects, nextProjectId) && DevelopmentKeys(developments, nextDevelopmentId) && LinkCodes(links)
    }

    constructor (users: seq<User>)
      ensures Valid()
      ensures this.users == users
      ensures projects == [] && technologies == [] && processes == [] && links == []
      ensures developments == [] && indTechnologies == [] && indProcesses == []
    {
      this.users := users;
      projects, technologies, processes, links := [], [], [], [];
      developments, indTechnologies, indProcesses := [], [], [];
      nextProjectId, nextDevelopmentId := 1, 1;
    }
  }

  // ---- table invariants --------------------------------------------------------

  /** Project keys are pairwise different and below the next key to hand out. */
  ghost predicate ProjectKeys(projects: seq<Project>, next: nat) {
    && (forall i :: 0 <= i < |projects| ==> projects[i].id < next)
    && (forall i, j :: 0 <= i < j < |projects| ==> projects[i].id != projects[j].id)
  }

  ghost predicate DevelopmentKeys(devs: seq<IndividualDevelopment>, next: nat) {
    && (forall i :: 0 <= i < |devs| ==> devs[i].id < next)
    && (forall i, j :: 0 <= i < j < |devs| ==> devs[i].id != devs[j].id)
  }

  ghost predicate LinkCodes(links: seq<Link>) {
    forall i, j :: 0 <= i < j < |links| ==> links[i].code != links[j].code
  }

  /** A project stored under the next key keeps the keys unique. */
  lemma {:induction false} ProjectKeysAppend(projects: seq<Project>, next: nat, p: Project)
    requires ProjectKeys(projects, next) && p.id == next
    ensures ProjectKeys(projects + [p], next + 1)
  {
  }

  lemma {:induction false} DevelopmentKeysAppend(devs: seq<IndividualDevelopment>, next: nat, d: IndividualDevelopment)
    requires DevelopmentKeys(devs, next) && d.id == next
    ensures DevelopmentKeys(devs + [d], next + 1)
  {
  }

  /** A link with a code no stored link has keeps the codes unique. */
  lemma {:induction false} LinkCodesAppend(links: seq<Link>, l: Link)
    requires LinkCodes(links) && forall k :: k in links ==> k.code != l.code
    ensures LinkCodes(links + [l])
  {
    var r := links + [l];
    forall i, j | 0 <= i < j < |r|
      ensures r[i].code != r[j].code
    {
      if j == |links| {
        assert r[i] in links;
      }
    }
  }

  // ---- queries ---------------------------------------------------------------

  /** `Project.query.filter_by(user_id=uid).all()`. */
  function ProjectsOf(projects: seq<Project>, uid: nat): (r: seq<Project>)
    ensures forall p :: p in r <==> p in projects && p.userId == uid
    decreases |projects|
  {
    if projects == [] then []
    else
      var p := projects[|projects| - 1];
      ProjectsOf(projects[..|projects| - 1], uid) + (if p.userId == uid then [p] else [])
  }

  /** The query keeps table order: filtering a concatenation filters each part. */
  lemma {:induction false} ProjectsOfAppend(a: seq<Project>, b: seq<Project>, uid: nat)
    ensures ProjectsOf(a + b, uid) == ProjectsOf(a, uid) + ProjectsOf(b, uid)
    decreases |b|
  {
    if b == [] {
      assert a + b == a;
    } else {
      var b' := b[..|b| - 1];
      assert (a + b)[..|a + b| - 1] == a + b';
      ProjectsOfAppend(a, b', uid);
    }
  }

  /** `Technology.query.filter_by(project_id=pid).all()`. */
  function TechsOf(techs: seq<Technology>, pid: nat): (r: seq<Technology>)
    ensures forall t :: t in r <==> t in techs && t.projectId == pid
    decreases |techs|
  {
    if techs == [] then []
    else
      var t := techs[|techs| - 1];
      TechsOf(techs[..|techs| - 1], pid) + (if t.projectId == pid then [t] else [])
  }

  /** `Process.query.filter_by(project_id=pid).all()`. */
  function ProcessesOf(procs: seq<Process>, pid: nat): (r: seq<Process>)
    ensures forall q :: q in r <==> q in procs && q.projectId == pid
    decreases |procs|
  {
    if procs == [] then []
    else
      var q := procs[|procs| - 1];
      ProcessesOf(procs[..|procs| - 1], pid) + (if q.projectId == pid then [q] else [])
  }

  /** `IndividualDevelopment.query.filter_by(user_id=uid).all()`. */
  function DevelopmentsOf(devs: seq<IndividualDevelopment>, uid: nat): (r: seq<IndividualDevelopment>)
    ensures forall d :: d in r <==> d in devs && d.userId == uid
    decreases |devs|
  {
    if devs == [] then []
    else
      var d := devs[|devs| - 1];
      DevelopmentsOf(devs[..|devs| - 1], uid) + (if d.userId == uid then [d] else [])
  }

  /** `IndividualTechnology.query.filter_by(individual_development_id=did).all()`. */
  function IndTechsOf(techs: seq<IndividualTechnology>, did: nat): (r: seq<IndividualTechnology>)
    ensures forall t :: t in r <==> t in techs && t.developmentId == did
    decreases |techs|
  {
    if techs == [] then []
    else
      var t := techs[|techs| - 1];
      IndTechsOf(techs[..|techs| - 1], did) + (if t.developmentId == did then [t] else [])
  }

  /** `Project.query.get(pid)`: the project with that primary key, if any. */
  function FindProject(projects: seq<Project>, pid: nat): (r: Option<Project>)
    ensures r.Some? ==> r.value in projects && r.value.id == pid
    ensures r.None? ==> forall p :: p in projects ==> p.id != pid
    decreases |projects|
  {
    if projects == [] then None
    else if projects[0].id == pid then Some(projects[0])
    else FindProject(projects[1..], pid)
  }

  /** `User.query.get(uid)`. */
  function FindUser(users: seq<User>, uid: nat): (r: Option<User>)
    ensures r.Some? ==> r.value in users && r.value.id == uid
    ensures r.None? ==> forall u :: u in users ==> u.id != uid
    decreases |users|
  {
    if users == [] then None
    else if users[0].id == uid then Some(users[0])
    else FindUser(users[1..], uid)
  }

  /** The project table with project `pid`'s descriptive columns replaced. */
  function SetProjectInfo(projects: seq<Project>, pid: nat, info: ProjectInfo): (r: seq<Project>)
    ensures |r| == |projects|
    ensures forall i :: 0 <= i < |r| ==>
      r[i] == if projects[i].id == pid then projects[i].(info := info) else projects[i]
  {
    seq(|projects|, i requires 0 <= i < |projects| =>
      if projects[i].id == pid then projects[i].(info := info) else projects[i])
  }

  lemma {:induction false} SetProjectInfoKeys(projects: seq<Project>, next: nat, pid: nat, info: ProjectInfo)
    requires ProjectKeys(projects, next)
    ensures ProjectKeys(SetProjectInfo(projects, pid, info), next)
  {
    var r := SetProjectInfo(projects, pid, info);
    assert forall i :: 0 <= i < |r| ==> r[i].id == projects[i].id;
  }

  /** The six descriptive columns every project form sends. */
  const ProjectColumns: set<string> :=
    {"start_month", "end_month", "industry", "project_name", "project_summary", "responsibilities"}

  /** Reads the six project columns (`request.form[...]`); None where a key is
      missing, which Flask answers with 400 Bad Request. The `input` handlers
      keep only the first seven characters of both months (`[:7]`). */
  function ReadProjectInfo(fields: map<string, string>, truncateMonths: bool): (r: Option<ProjectInfo>)
    ensures r.Some? <==> forall k :: k in ProjectColumns ==> k in fields
    ensures r.Some? ==>
      && r.value.industry == fields["industry"] && r.value.projectName == fields["project_name"]
      && r.value.summary == fields["project_summary"] && r.value.responsibilities == fields["responsibilities"]
    ensures r.Some? && truncateMonths ==>
      && r.value.startMonth == Prefix(fields["start_month"], 7)
      && r.value.endMonth == Prefix(fields["end_month"], 7)
      && |r.value.startMonth| <= 7 && r.value.startMonth <= fields["start_month"]
      && |r.value.endMonth| <= 7 && r.value.endMonth <= fields["end_month"]
      && (|fields["start_month"]| <= 7 ==> r.value.startMonth == fields["start_month"])
      && (|fields["end_month"]| <= 7 ==> r.value.endMonth == fields["end_month"])
    ensures r.Some? && !truncateMonths ==>
      r.value.startMonth == fields["start_month"] && r.value.endMonth == fields["end_month"]
  {
    if "start_month" in fields && "end_month" in fields && "industry" in fields
       && "project_name" in fields && "project_summary" in fields && "responsibilities" in fields
    then
      var start := if truncateMonths then Prefix(fields["start_month"], 7) else fields["start_month"];
      var end := if truncateMonths then Prefix(fields["end_month"], 7) else fields["end_month"];
      Some(ProjectInfo(start, end, fields["industry"], fields["project_name"],
                       fields["project_summary"], fields["responsibilities"]))
    else None
  }
}
