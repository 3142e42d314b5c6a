/** The administrator's handlers (`admin_views.py`): every one of them sits
    behind `admin_required`, which answers 403 to a caller who is not an
    administrator before the handler runs. Modelled here: the project detail
    edit, the project creation, and the ten-day log view. */
module AdminViews {
  import opened Common
  import opened Tables
  import opened FormFields
  import opened Reconcile

  // ---- admin_project_detail ----------------------------------------------------

  /** One category as the administrator's handler reads it: the contiguous
      walk, keeping the non-blank names and, beside each, its `_num` field as
      `request.form.get` returns it (possibly missing). */
  function AdminSubmission(fields: map<string, string>, kind: string): Submission {
    var kept := KeptIn(fields, kind, false);
    Submission(kind, EntryNames(kept), EntryDurations(kept))
  }

  function AdminSubmissions(fields: map<string, string>, kinds: seq<string>): (subs: seq<Submission>)
    ensures |subs| == |kinds|
    ensures KindsOf(subs) == kinds
  {
    var subs := seq(|kinds|, k requires 0 <= k < |kinds| => AdminSubmission(fields, kinds[k]));
    assert KindsOf(subs) == kinds;
    subs
  }

  /** The `while f'{tech_type}_{i}' in request.form` loop that appends each
      non-blank name and its duration. */
  method ReadAdminCategory(fields: map<string, string>, kind: string) returns (sub: Submission)
    ensures sub == AdminSubmission(fields, kind)
  {
    var es := ReadWalk(fields, kind);
    var kept := KeepNamed(es);
    sub := Submission(kind, EntryNames(kept), EntryDurations(kept));
  }

  /** The `if tech_name` test applied to each visited entry in turn. */
  method KeepNamed(es: seq<Entry>) returns (kept: seq<Entry>)
    ensures kept == KeptEntries(es, false)
  {
    kept := [];
    var i := 0;
    while i < |es|
      invariant i <= |es|
      invariant kept == KeptEntries(es[..i], false)
    {
      KeptSnoc(es, i, false);
      if es[i].name != "" {
        kept := kept + [es[i]];
      }
      i := i + 1;
    }
    assert es[..i] == es;
  }

  /** `for tech_type in tech_types:` reading each category in turn. */
  method ReadAdminCategories(fields: map<string, string>, kinds: seq<string>) returns (subs: seq<Submission>)
    ensures subs == AdminSubmissions(fields, kinds)
  {
    subs := [];
    var i := 0;
    while i < |kinds|
      invariant i <= |kinds|
      invariant |subs| == i
      invariant forall k :: 0 <= k < i ==> subs[k] == AdminSubmission(fields, kinds[k])
    {
      var sub := ReadAdminCategory(fields, kinds[i]);
      subs := subs + [sub];
      i := i + 1;
    }
  }

  /** Every name the walk keeps is non-blank, so a kept entry crashes the
      upsert loop exactly when its `_num` field is missing. */
  lemma {:induction false} AdminCrashMeans(fields: map<string, string>, kind: string)
    ensures var sub := AdminSubmission(fields, kind);
      Crashes(Zip(sub.names, sub.durations)) <==> exists e :: e in KeptIn(fields, kind, false) && e.duration.None?
  {
    var kept := KeptIn(fields, kind, false);
    var sub := AdminSubmission(fields, kind);
    var pairs := Zip(sub.names, sub.durations);
    if Crashes(pairs) {
      var k :| 0 <= k < |pairs| && pairs[k].0 != "" && pairs[k].1.None?;
      assert kept[k] in kept;
    }
    if e :| e in kept && e.duration.None? {
      var k :| 0 <= k < |kept| && kept[k] == e;
      assert pairs[k].0 != "" && pairs[k].1.None?;
    }
  }

  /** The administrator's edit goes through exactly when no category repeats a
      non-blank name and every non-blank name has its `_num` field. */
  lemma {:induction false} AdminDetailCompletes(t: seq<Technology>, pid: nat, fields: map<string, string>, kinds: seq<string>)
    ensures ReconcileAll(t, pid, AdminSubmissions(fields, kinds)).Staged? <==>
      forall k :: 0 <= k < |kinds| ==>
        && Distinct(EntryNames(KeptIn(fields, kinds[k], false)))
        && forall e :: e in KeptIn(fields, kinds[k], false) ==> e.duration.Some?
  {
    var subs := AdminSubmissions(fields, kinds);
    ReconcileAllCompletes(t, pid, subs);
    forall k | 0 <= k < |kinds|
      ensures !Fails(subs[k]) <==>
        && Distinct(EntryNames(KeptIn(fields, kinds[k], false)))
        && forall e :: e in KeptIn(fields, kinds[k], false) ==> e.duration.Some?
    {
      AdminCrashMeans(fields, kinds[k]);
      DistinctIffNoCollapse(subs[k].names);
    }
  }

  /** The form `{os_0: "Linux"}` submits the name "Linux" without a duration. */
  lemma {:induction false} NameWithoutDuration()
    ensures AdminSubmission(map["os_0" := "Linux"], "os") == Submission("os", ["Linux"], [None])
  {
    var fields := map["os_0" := "Linux"];
    assert FieldKey("os", 0) == "os_0";
    assert FieldKey("os", 1) == "os_1";
    WalkCountUnique(fields, "os", 1);
    assert NumKey("os", 0) !in fields by {
      assert NumKey("os", 0) == FieldKey("os", 0) + "_num";
    }
    var e := Entry("Linux", None);
    assert WalkEntries(fields, "os") == [e];
    assert KeptIn(fields, "os", false) == [e] by {
      assert [e][..0] == [];
    }
  }

  /** A name without its `_num` field makes the administrator's handler raise
      (`None.isdigit()`): the form `{os_0: "Linux"}` is a server error. */
  lemma {:induction false} AdminMissingDurationCrashes(t: seq<Technology>, pid: nat)
    ensures ReconcileAll(t, pid, AdminSubmissions(map["os_0" := "Linux"], ["os"])) == Crashed
  {
    var subs := AdminSubmissions(map["os_0" := "Linux"], ["os"]);
    NameWithoutDuration();
    var sub := subs[0];
    assert sub == Submission("os", ["Linux"], [None]);
    assert Crashes(Zip(sub.names, sub.durations)) by {
      assert Zip(sub.names, sub.durations)[0] == ("Linux", None);
    }
    assert !HasDuplicate(sub.names) by {
      assert Elements(["Linux"]) == {"Linux"};
    }
    CategoryCrashes(t, pid, sub);
    assert subs[..1] == subs;
    assert ReconcileAll(t, pid, subs[..0]) == Staged(t);
    ReconcileAllSnoc(t, pid, subs, 0);
  }

  /** What an accepted administrator's edit stores, for every category and
      name: as in the user's edit, but over the non-blank walked names. */
  lemma {:induction false} AdminDetailTechnologies(t: seq<Technology>, pid: nat, fields: map<string, string>, kinds: seq<string>, x: string)
    requires Distinct(kinds)
    requires ReconcileAll(t, pid, AdminSubmissions(fields, kinds)).Staged?
    ensures var u := ReconcileAll(t, pid, AdminSubmissions(fields, kinds)).techs;
      && OtherProjects(u, pid) == OtherProjects(t, pid)
      && (forall kind :: kind !in kinds ==> MonthsNamed(u, pid, kind, x) == MonthsNamed(t, pid, kind, x))
      && (forall k :: 0 <= k < |kinds| ==>
            var kept := KeptIn(fields, kinds[k], false);
            MonthsNamed(u, pid, kinds[k], x) == Expected(t, pid, kinds[k], EntryNames(kept), EntryDurations(kept), x))
  {
    ReconcileAllRows(t, pid, AdminSubmissions(fields, kinds), x);
  }

  /** `admin_project_detail` over the category list `kinds`: 403 for a
      caller who is not an administrator; 404 for an unknown project; else the
      columns, technologies and phases are staged and committed together, or
      nothing is stored when a category repeats a name (redirect) or a name
      lacks its duration (an exception). */
  method AdminProjectDetailOver(db: Store, caller: User, pid: nat, form: Form, kinds: seq<string>) returns (resp: Response)
    requires db.Valid()
    modifies db
    ensures db.Valid()
    ensures resp != Saved ==> unchanged(db)
    ensures !caller.isAdmin ==> resp == Forbidden
    ensures caller.isAdmin && FindProject(old(db.projects), pid).None? ==> resp == NotFound
    ensures caller.isAdmin && FindProject(old(db.projects), pid).Some? && ReadProjectInfo(form.fields, false).None? ==>
      resp == BadRequest
    ensures caller.isAdmin && FindProject(old(db.projects), pid).Some? && ReadProjectInfo(form.fields, false).Some? ==>
      match ReconcileAll(old(db.technologies), pid, AdminSubmissions(form.fields, kinds))
      case DuplicateIn(kind) => resp == Rejected(kind)
      case Crashed => resp == ServerError
      case Staged(u) =>
        && resp == Saved
        && db.projects == SetProjectInfo(old(db.projects), pid, ReadProjectInfo(form.fields, false).value)
        && db.technologies == u
        && db.processes == AdminProcesses(old(db.processes), pid, form.processes)
        && unchanged(db`users, db`links, db`developments, db`indTechnologies, db`indProcesses,
                     db`nextProjectId, db`nextDevelopmentId)
  {
    if !caller.isAdmin {
      return Forbidden;
    }
    var project := FindProject(db.projects, pid);
    if project.None? {
      return NotFound;
    }
    var info := ReadProjectInfo(form.fields, false);
    if info.None? {
      return BadRequest;
    }
    var subs := ReadAdminCategories(form.fields, kinds);
    var staged := ReconcileKinds(db.technologies, pid, subs);
    if staged.DuplicateIn? {
      return Rejected(staged.kind);
    }
    if staged.Crashed? {
      return ServerError;
    }
    var phases := AdminReconcileProcesses(db.processes, pid, form.processes);
    StoreAdminEdit(db, pid, info.value, staged.techs, phases);
    resp := Saved;
  }

  /** The single commit of `admin_project_detail`. */
  method StoreAdminEdit(db: Store, pid: nat, info: ProjectInfo, techs: seq<Technology>, phases: seq<Process>)
    requires db.Valid()
    modifies db
    ensures db.Valid()
    ensures db.projects == SetProjectInfo(old(db.projects), pid, info)
    ensures db.technologies == techs && db.processes == phases
    ensures unchanged(db`users, db`links, db`developments, db`indTechnologies, db`indProcesses,
                      db`nextProjectId, db`nextDevelopmentId)
  {
    SetProjectInfoKeys(db.projects, db.nextProjectId, pid, info);
    db.projects := SetProjectInfo(db.projects, pid, info);
    db.technologies := techs;
    db.processes := phases;
  }

  /** `admin_project_detail`, over the eight technology categories. */
  method AdminProjectDetail(db: Store, caller: User, pid: nat, form: Form) returns (resp: Response)
    requires db.Valid()
    modifies db
    ensures db.Valid()
    ensures resp != Saved ==> unchanged(db)
    ensures !caller.isAdmin ==> resp == Forbidden
    ensures caller.isAdmin && FindProject(old(db.projects), pid).None? ==> resp == NotFound
    ensures caller.isAdmin && FindProject(old(db.projects), pid).Some? && ReadProjectInfo(form.fields, false).None? ==>
      resp == BadRequest
    ensures caller.isAdmin && FindProject(old(db.projects), pid).Some? && ReadProjectInfo(form.fields, false).Some? ==>
      match ReconcileAll(old(db.technologies), pid, AdminSubmissions(form.fields, TechTypes))
      case DuplicateIn(kind) => resp == Rejected(kind)
      case Crashed => resp == ServerError
      case Staged(u) =>
        && resp == Saved
        && db.projects == SetProjectInfo(old(db.projects), pid, ReadProjectInfo(form.fields, false).value)
        && db.technologies == u
        && db.processes == AdminProcesses(old(db.processes), pid, form.processes)
        && unchanged(db`users, db`links, db`developments, db`indTechnologies, db`indProcesses,
                     db`nextProjectId, db`nextDevelopmentId)
  {
    resp := AdminProjectDetailOver(db, caller, pid, form, TechTypes);
  }

  // ---- admin_project_create ----------------------------------------------------

  /** A scanned pair the creation handler stores: a non-blank name and a
      positive digit-string duration. */
  predicate Storable(pair: (string, string)) {
    pair.0 != "" && PositiveDigits(pair.1)
  }

  /** `for name, duration in zip(tech_names, tech_durations): if name: if
      duration.isdigit() and int(duration) > 0: add`. */
  function CreateRows(pid: nat, kind: string, pairs: seq<(string, string)>): (r: seq<Technology>)
    ensures forall t :: t in r <==>
      exists p :: p in pairs && Storable(p) && t == Technology(pid, kind, p.0, DigitsValue(p.1))
    decreases |pairs|
  {
    if pairs == [] then []
    else
      var p := pairs[|pairs| - 1];
      assert forall q :: q in pairs <==> q in pairs[..|pairs| - 1] || q == p by {
        assert pairs == pairs[..|pairs| - 1] + [p];
      }
      CreateRows(pid, kind, pairs[..|pairs| - 1])
        + (if Storable(p) then [Technology(pid, kind, p.0, DigitsValue(p.1))] else [])
  }

  /** Every category's pairs, read by the bounded scan and paired by position. */
  function ScannedPairs(fields: map<string, string>, kind: string): seq<(string, string)> {
    Zip(ScanNames(fields, kind), ScanDurations(fields, kind))
  }

  function CreateTechRows(pid: nat, fields: map<string, string>, kinds: seq<string>): seq<Technology>
    decreases |kinds|
  {
    if kinds == [] then []
    else
      var kind := kinds[|kinds| - 1];
      CreateTechRows(pid, fields, kinds[..|kinds| - 1]) + CreateRows(pid, kind, ScannedPairs(fields, kind))
  }

  /** The creation handler stores exactly the storable scanned pairs of every
      category, each as a row of the new project with its duration in months. */
  lemma {:induction false} CreateTechRowsMembers(pid: nat, fields: map<string, string>, kinds: seq<string>, t: Technology)
    ensures t in CreateTechRows(pid, fields, kinds) <==>
      exists kind, p :: kind in kinds && p in ScannedPairs(fields, kind) && Storable(p)
        && t == Technology(pid, kind, p.0, DigitsValue(p.1))
    decreases |kinds|
  {
    if kinds != [] {
      var ks, kind := kinds[..|kinds| - 1], kinds[|kinds| - 1];
      CreateTechRowsMembers(pid, fields, ks, t);
      assert kinds == ks + [kind];
      if t in CreateRows(pid, kind, ScannedPairs(fields, kind)) {
        var p :| p in ScannedPairs(fields, kind) && Storable(p) && t == Technology(pid, kind, p.0, DigitsValue(p.1));
        assert kind in kinds;
      }
    }
  }

  /** Every stored row has a non-blank name and a positive duration. */
  lemma {:induction false} CreatedRowsPositive(pid: nat, fields: map<string, string>, kinds: seq<string>, t: Technology)
    requires t in CreateTechRows(pid, fields, kinds)
    ensures t.projectId == pid && t.kind in kinds && t.name != "" && t.months > 0
  {
    CreateTechRowsMembers(pid, fields, kinds, t);
  }

  /** `for process_name in [the eight phases]: if process_name in processes: add`. */
  function SelectedPhases(pid: nat, selected: seq<string>, phases: seq<string>): (r: seq<Process>)
    ensures forall q :: q in r <==> q.projectId == pid && q.name in phases && q.name in selected
    decreases |phases|
  {
    if phases == [] then []
    else
      var x := phases[|phases| - 1];
      assert forall m :: m in phases <==> m in phases[..|phases| - 1] || m == x by {
        assert phases == phases[..|phases| - 1] + [x];
      }
      SelectedPhases(pid, selected, phases[..|phases| - 1]) + (if x in selected then [Process(pid, x)] else [])
  }

  /** The last phase adds one row named `x` exactly when it is `x` and selected. */
  lemma {:induction false} SelectedPhasesSnoc(pid: nat, selected: seq<string>, phases: seq<string>, x: string)
    requires phases != []
    ensures var y := phases[|phases| - 1];
      CountNamed(SelectedPhases(pid, selected, phases), pid, x) ==
        CountNamed(SelectedPhases(pid, selected, phases[..|phases| - 1]), pid, x) + (if y == x && y in selected then 1 else 0)
  {
    var ps, y := phases[..|phases| - 1], phases[|phases| - 1];
    var a := SelectedPhases(pid, selected, ps);
    var tail := if y in selected then [Process(pid, y)] else [];
    assert SelectedPhases(pid, selected, phases) == a + tail;
    ProcessConcat(a, tail, pid, x);
    if y in selected {
      ProcessSingle(Process(pid, y), pid, x);
    }
  }

  /** Over distinct phases, the new project holds each selected phase once
      and no other. */
  lemma {:induction false} SelectedPhasesOnce(pid: nat, selected: seq<string>, phases: seq<string>, x: string)
    requires Distinct(phases)
    ensures CountNamed(SelectedPhases(pid, selected, phases), pid, x) == if x in phases && x in selected then 1 else 0
    decreases |phases|
  {
    if phases != [] {
      var ps, y := phases[..|phases| - 1], phases[|phases| - 1];
      DistinctSnoc(phases);
      SelectedPhasesOnce(pid, selected, ps, x);
      SelectedPhasesSnoc(pid, selected, phases, x);
      assert x in phases <==> x in ps || x == y by {
        assert phases == ps + [y];
      }
    }
  }

  method ScanCategoryRows(pid: nat, kind: string, pairs: seq<(string, string)>) returns (rows: seq<Technology>)
    ensures rows == CreateRows(pid, kind, pairs)
  {
    rows := [];
    var i := 0;
    while i < |pairs|
      invariant i <= |pairs|
      invariant rows == CreateRows(pid, kind, pairs[..i])
    {
      assert pairs[..i + 1][..i] == pairs[..i];
      var (name, duration) := pairs[i];
      if name != "" {
        if PositiveDigits(duration) {
          rows := rows + [Technology(pid, kind, name, DigitsValue(duration))];
        }
      }
      i := i + 1;
    }
    assert pairs[..i] == pairs;
  }

  method CreateTechnologies(pid: nat, fields: map<string, string>, kinds: seq<string>) returns (rows: seq<Technology>)
    ensures rows == CreateTechRows(pid, fields, kinds)
  {
    rows := [];
    var i := 0;
    while i < |kinds|
      invariant i <= |kinds|
      invariant rows == CreateTechRows(pid, fields, kinds[..i])
    {
      assert kinds[..i + 1][..i] == kinds[..i];
      var more := ScanCategoryRows(pid, kinds[i], ScannedPairs(fields, kinds[i]));
      rows := rows + more;
      i := i + 1;
    }
    assert kinds[..i] == kinds;
  }

  method PhaseRows(pid: nat, selected: seq<string>) returns (rows: seq<Process>)
    ensures rows == SelectedPhases(pid, selected, Phases)
  {
    rows := [];
    var i := 0;
    while i < |Phases|
      invariant i <= |Phases|
      invariant rows == SelectedPhases(pid, selected, Phases[..i])
    {
      assert Phases[..i + 1][..i] == Phases[..i];
      if Phases[i] in selected {
        rows := rows + [Process(pid, Phases[i])];
      }
      i := i + 1;
    }
    assert Phases[..i] == Phases;
  }

  /** `admin_project_create` over the category list `kinds`: 403 for a caller
      who is not an administrator; 400 when a column is missing; otherwise a
      new project of the caller's, then its storable technologies and its
      selected phases. No step after the first commit can fail. */
  method AdminProjectCreateOver(db: Store, caller: User, form: Form, kinds: seq<string>) returns (resp: Response)
    requires db.Valid()
    modifies db
    ensures db.Valid()
    ensures resp != Saved ==> unchanged(db)
    ensures !caller.isAdmin ==> resp == Forbidden
    ensures caller.isAdmin && ReadProjectInfo(form.fields, false).None? ==> resp == BadRequest
    ensures caller.isAdmin && ReadProjectInfo(form.fields, false).Some? ==>
      var pid := old(db.nextProjectId);
      && resp == Saved
      && db.projects == old(db.projects) + [Project(pid, caller.id, ReadProjectInfo(form.fields, false).value)]
      && db.technologies == old(db.technologies) + CreateTechRows(pid, form.fields, kinds)
      && db.processes == old(db.processes) + SelectedPhases(pid, form.processes, Phases)
      && db.nextProjectId == pid + 1
      && unchanged(db`users, db`links, db`developments, db`indTechnologies, db`indProcesses, db`nextDevelopmentId)
  {
    if !caller.isAdmin {
      return Forbidden;
    }
    var info := ReadProjectInfo(form.fields, false);
    if info.None? {
      return BadRequest;
    }
    var pid := db.nextProjectId;
    var techs := CreateTechnologies(pid, form.fields, kinds);
    var phases := PhaseRows(pid, form.processes);
    StoreCreated(db, caller.id, info.value, techs, phases);
    resp := Saved;
  }

  /** The two commits of `admin_project_create`: the project under the next
      key, then its technology and phase rows. */
  method StoreCreated(db: Store, uid: nat, info: ProjectInfo, techs: seq<Technology>, phases: seq<Process>)
    requires db.Valid()
    modifies db
    ensures db.Valid()
    ensures db.projects == old(db.projects) + [Project(old(db.nextProjectId), uid, info)]
    ensures db.nextProjectId == old(db.nextProjectId) + 1
    ensures db.technologies == old(db.technologies) + techs
    ensures db.processes == old(db.processes) + phases
    ensures unchanged(db`users, db`links, db`developments, db`indTechnologies, db`indProcesses, db`nextDevelopmentId)
  {
    var pid := db.nextProjectId;
    ProjectKeysAppend(db.projects, pid, Project(pid, uid, info));
    db.projects := db.projects + [Project(pid, uid, info)];
    db.nextProjectId := pid + 1;
    db.technologies := db.technologies + techs;
    db.processes := db.processes + phases;
  }

  /** `admin_project_create`, over the eight technology categories. */
  method AdminProjectCreate(db: Store, caller: User, form: Form) returns (resp: Response)
    requires db.Valid()
    modifies db
    ensures db.Valid()
    ensures resp != Saved ==> unchanged(db)
    ensures !caller.isAdmin ==> resp == Forbidden
    ensures caller.isAdmin && ReadProjectInfo(form.fields, false).None? ==> resp == BadRequest
    ensures caller.isAdmin && ReadProjectInfo(form.fields, false).Some? ==>
      var pid := old(db.nextProjectId);
      && resp == Saved
      && db.projects == old(db.projects) + [Project(pid, caller.id, ReadProjectInfo(form.fields, false).value)]
      && db.technologies == old(db.technologies) + CreateTechRows(pid, form.fields, TechTypes)
      && db.processes == old(db.processes) + SelectedPhases(pid, form.processes, Phases)
      && db.nextProjectId == pid + 1
      && unchanged(db`users, db`links, db`developments, db`indTechnologies, db`indProcesses, db`nextDevelopmentId)
  {
    resp := AdminProjectCreateOver(db, caller, form, TechTypes);
  }

  // ---- admin_logs --------------------------------------------------------------

  /** The ASCII characters `str.split()` treats as whitespace. */
  predicate IsSpace(c: char) {
    c == ' ' || c == '\t' || c == '\n' || c == '\r' || c == '\U{B}' || c == '\U{C}'
    || ('\U{1C}' <= c <= '\U{1F}')
  }

  /** The length of the run of non-space characters `s` starts with. */
  function WordLength(s: string): (n: nat)
    ensures n <= |s|
    ensures forall i :: 0 <= i < n ==> !IsSpace(s[i])
    ensures n < |s| ==> IsSpace(s[n])
    decreases |s|
  {
    if s == [] || IsSpace(s[0]) then 0 else 1 + WordLength(s[1..])
  }

  /** `s.split()`: the maximal runs of non-space characters, in order. */
  function Words(s: string): (r: seq<string>)
    ensures forall k :: 0 <= k < |r| ==> r[k] != [] && forall i :: 0 <= i < |r[k]| ==> !IsSpace(r[k][i])
    decreases |s|
  {
    if s == [] then []
    else if IsSpace(s[0]) then Words(s[1..])
    else
      var n := WordLength(s);
      [s[..n]] + Words(s[n..])
  }

  /** The words joined without separators. */
  function Concat(ws: seq<string>): string
    decreases |ws|
  {
    if ws == [] then [] else ws[0] + Concat(ws[1..])
  }

  /** The characters of `s` that are not whitespace, in order. */
  function NonSpace(s: string): (r: string)
    ensures forall i :: 0 <= i < |r| ==> !IsSpace(r[i])
    decreases |s|
  {
    if s == [] then [] else (if IsSpace(s[0]) then [] else [s[0]]) + NonSpace(s[1..])
  }

  lemma {:induction false} NonSpaceAppend(a: string, b: string)
    ensures NonSpace(a + b) == NonSpace(a) + NonSpace(b)
    decreases |a|
  {
    if a != [] {
      assert (a + b)[0] == a[0] && (a + b)[1..] == a[1..] + b;
      NonSpaceAppend(a[1..], b);
    } else {
      assert a + b == b;
    }
  }

  lemma {:induction false} NonSpaceOfWord(w: string)
    requires forall i :: 0 <= i < |w| ==> !IsSpace(w[i])
    ensures NonSpace(w) == w
    decreases |w|
  {
    if w != [] {
      NonSpaceOfWord(w[1..]);
      assert w == [w[0]] + w[1..];
    }
  }

  /** A line has no words exactly when it is all whitespace, so a blank line
      splits into fewer than two words. */
  lemma {:induction false} WordsEmptyIffBlank(s: string)
    ensures Words(s) == [] <==> forall i :: 0 <= i < |s| ==> IsSpace(s[i])
    decreases |s|
  {
    if s != [] && IsSpace(s[0]) {
      WordsEmptyIffBlank(s[1..]);
      assert forall i :: 1 <= i < |s| ==> s[i] == s[1..][i - 1];
    }
  }

  /** The words hold every non-space character of the line, in order, and
      nothing else. */
  lemma {:induction false} WordsConcat(s: string)
    ensures Concat(Words(s)) == NonSpace(s)
    decreases |s|
  {
    if s != [] {
      if IsSpace(s[0]) {
        WordsConcat(s[1..]);
      } else {
        var n := WordLength(s);
        WordsConcat(s[n..]);
        assert s == s[..n] + s[n..];
        NonSpaceAppend(s[..n], s[n..]);
        NonSpaceOfWord(s[..n]);
        assert Words(s)[1..] == Words(s[n..]);
      }
    }
  }

  /** Ten days in microseconds, the resolution of the `%f` field. */
  const TenDays: int := 10 * 24 * 60 * 60 * 1000000

  /** A log line is shown when its first two words parse as a timestamp
      (`parse` stands for `strptime(…, '%Y-%m-%d %H:%M:%S,%f')`, in
      microseconds) that lies in `[now - 10 days, now]`. */
  predicate Recent(line: string, now: int, parse: string -> Option<int>) {
    var w := Words(line);
    |w| >= 2 && var ts := parse(w[0] + " " + w[1]); ts.Some? && now - TenDays <= ts.value <= now
  }

  /** The lines kept, in file order. */
  function RecentLogs(lines: seq<string>, now: int, parse: string -> Option<int>): (r: seq<string>)
    ensures forall l :: l in r <==> l in lines && Recent(l, now, parse)
    ensures |r| <= |lines|
    decreases |lines|
  {
    if lines == [] then []
    else
      var l := lines[|lines| - 1];
      assert forall m :: m in lines <==> m in lines[..|lines| - 1] || m == l by {
        assert lines == lines[..|lines| - 1] + [l];
      }
      RecentLogs(lines[..|lines| - 1], now, parse) + (if Recent(l, now, parse) then [l] else [])
  }

  /** Kept lines keep the file's order: the log split anywhere is filtered
      piece by piece. */
  lemma {:induction false} RecentLogsAppend(a: seq<string>, b: seq<string>, now: int, parse: string -> Option<int>)
    ensures RecentLogs(a + b, now, parse) == RecentLogs(a, now, parse) + RecentLogs(b, now, parse)
    decreases |b|
  {
    if b == [] {
      assert a + b == a;
    } else {
      var b' := b[..|b| - 1];
      assert (a + b)[..|a + b| - 1] == a + b';
      RecentLogsAppend(a, b', now, parse);
    }
  }

  /** The loop as written: `line.split()[1]` on a line with fewer than two
      words raises `IndexError`, which the `except ValueError` around it does
      not catch, so the page fails (None). */
  function RecentLogsAsWritten(lines: seq<string>, now: int, parse: string -> Option<int>): Option<seq<string>>
    decreases |lines|
  {
    if lines == [] then Some([])
    else
      var l := lines[|lines| - 1];
      match RecentLogsAsWritten(lines[..|lines| - 1], now, parse)
      case None => None
      case Some(r) =>
        if |Words(l)| < 2 then None
        else Some(r + (if Recent(l, now, parse) then [l] else []))
  }

  /** As written, the page fails exactly when the log holds a line with
      fewer than two words, and otherwise agrees with the intended filter. */
  lemma {:induction false} AsWrittenFailsOnShortLines(lines: seq<string>, now: int, parse: string -> Option<int>)
    ensures RecentLogsAsWritten(lines, now, parse).None? <==> exists i :: 0 <= i < |lines| && |Words(lines[i])| < 2
    ensures RecentLogsAsWritten(lines, now, parse).Some? ==> RecentLogsAsWritten(lines, now, parse).value == RecentLogs(lines, now, parse)
    decreases |lines|
  {
    if lines != [] {
      var p := lines[..|lines| - 1];
      AsWrittenFailsOnShortLines(p, now, parse);
      assert forall i :: 0 <= i < |p| ==> p[i] == lines[i];
    }
  }

  /** A blank line (`"\n"`, as a file iterator yields it) breaks the page,
      where skipping it leaves nothing to show for it. */
  lemma {:induction false} BlankLineBreaksLogs(now: int, parse: string -> Option<int>)
    ensures RecentLogsAsWritten(["\n"], now, parse) == None
    ensures RecentLogs(["\n"], now, parse) == []
  {
    assert Words("\n") == Words("\n"[1..]) == [];
    assert ["\n"][..0] == [];
  }

  /** `admin_logs` with the short lines skipped: 403 (None) for a caller who
      is not an administrator; a missing log file shows no lines. */
  method AdminLogs(caller: User, file: Option<seq<string>>, now: int, parse: string -> Option<int>) returns (page: Option<seq<string>>)
    ensures !caller.isAdmin <==> page.None?
    ensures caller.isAdmin && file.None? ==> page == Some([])
    ensures caller.isAdmin && file.Some? ==> page == Some(RecentLogs(file.value, now, parse))
  {
    if !caller.isAdmin {
      return None;
    }
    if file.None? {
      return Some([]);
    }
    var lines := file.value;
    var recent: seq<string> := [];
    var i := 0;
    while i < |lines|
      invariant i <= |lines|
      invariant recent == RecentLogs(lines[..i], now, parse)
    {
      assert lines[..i + 1][..i] == lines[..i];
      var w := Words(lines[i]);
      if |w| >= 2 {
        var ts := parse(w[0] + " " + w[1]);
        if ts.Some? && now - TenDays <= ts.value <= now {
          recent := recent + [lines[i]];
        }
      }
      i := i + 1;
    }
    assert lines[..i] == lines;
    page := Some(recent);
  }
}
