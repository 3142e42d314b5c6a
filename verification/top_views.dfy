/** The older `input` and `sheet` handlers (`top_views.py`). Unlike the newer
    revision, `input` keeps every non-blank name whatever its duration, commits
    the project before it converts the durations, and `sheet` summarises the
    user's projects only. */
module TopViews {
  import opened Common
  import opened Tables
  import opened FormFields
  import opened SkillSummary
  import opened SheetViews

  /** `for tech_type in tech_types: for name, duration in ...: int(duration)`:
      whether every collected duration converts, checked in the handler's order. */
  method DurationsConvert(kinds: seq<string>, groups: seq<seq<Entry>>) returns (ok: bool)
    requires |groups| == |kinds|
    ensures ok <==> DurationsParse(kinds, groups)
  {
    var k := 0;
    while k < |kinds|
      invariant 0 <= k <= |kinds|
      invariant forall k', e :: 0 <= k' < k && e in groups[k'] ==> PyInt(OrZero(e.duration)).Some?
    {
      var j := 0;
      while j < |groups[k]|
        invariant 0 <= j <= |groups[k]|
        invariant forall j' :: 0 <= j' < j ==> PyInt(OrZero(groups[k][j'].duration)).Some?
      {
        if PyInt(OrZero(groups[k][j].duration)).None? {
          return false;
        }
        j := j + 1;
      }
      k := k + 1;
    }
    ok := true;
  }

  /** The older `input` over the category list `kinds`: a repeated non-blank
      name refuses the form before the project exists; otherwise the project
      is committed, and then a duration `int` cannot convert raises, leaving
      the project without technologies or phases. */
  method InputOver(db: Store, uid: nat, form: Form, kinds: seq<string>) returns (resp: Response)
    requires db.Valid()
    modifies db
    ensures db.Valid()
    ensures resp != Saved && resp != ServerError ==> unchanged(db)
    ensures ReadProjectInfo(form.fields, true).None? ==> resp == BadRequest
    ensures ReadProjectInfo(form.fields, true).Some? && CollectAll(form.fields, kinds, false).Repeated? ==>
      resp == Rejected(CollectAll(form.fields, kinds, false).kind)
    ensures ReadProjectInfo(form.fields, true).Some? && CollectAll(form.fields, kinds, false).Walked? ==>
      var pid := old(db.nextProjectId);
      var groups := CollectAll(form.fields, kinds, false).groups;
      && db.projects == old(db.projects) + [Project(pid, uid, ReadProjectInfo(form.fields, true).value)]
      && db.nextProjectId == pid + 1
      && unchanged(db`users, db`links, db`developments, db`indTechnologies, db`indProcesses, db`nextDevelopmentId)
      && if DurationsParse(kinds, groups) then
           && resp == Saved
           && db.technologies == old(db.technologies) + InputRows(pid, kinds, groups)
           && db.processes == old(db.processes) + ProcessRows(pid, form.processes)
         else
           && resp == ServerError
           && db.technologies == old(db.technologies)
           && db.processes == old(db.processes)
  {
    var info := ReadProjectInfo(form.fields, true);
    if info.None? {
      return BadRequest;
    }
    var walked := CollectCategories(form.fields, kinds, false);
    if walked.Repeated? {
      return Rejected(walked.kind);
    }
    var ok := DurationsConvert(kinds, walked.groups);
    if !ok {
      AddProject(db, uid, info.value, [], [], []);
      return ServerError;
    }
    AddProject(db, uid, info.value, kinds, walked.groups, form.processes);
    resp := Saved;
  }

  /** The older `input`, over the eight technology categories. */
  method Input(db: Store, uid: nat, form: Form) returns (resp: Response)
    requires db.Valid()
    modifies db
    ensures db.Valid()
    ensures resp != Saved && resp != ServerError ==> unchanged(db)
    ensures ReadProjectInfo(form.fields, true).None? ==> resp == BadRequest
    ensures ReadProjectInfo(form.fields, true).Some? && CollectAll(form.fields, TechTypes, false).Repeated? ==>
      resp == Rejected(CollectAll(form.fields, TechTypes, false).kind)
    ensures ReadProjectInfo(form.fields, true).Some? && CollectAll(form.fields, TechTypes, false).Walked? ==>
      var pid := old(db.nextProjectId);
      var groups := CollectAll(form.fields, TechTypes, false).groups;
      && db.projects == old(db.projects) + [Project(pid, uid, ReadProjectInfo(form.fields, true).value)]
      && db.nextProjectId == pid + 1
      && unchanged(db`users, db`links, db`developments, db`indTechnologies, db`indProcesses, db`nextDevelopmentId)
      && if DurationsParse(TechTypes, groups) then
           && resp == Saved
           && db.technologies == old(db.technologies) + InputRows(pid, TechTypes, groups)
           && db.processes == old(db.processes) + ProcessRows(pid, form.processes)
         else
           && resp == ServerError
           && db.technologies == old(db.technologies)
           && db.processes == old(db.processes)
  {
    resp := InputOver(db, uid, form, TechTypes);
  }

  /** A missing `_num` field is stored as 0 months, and a duration such as
      "3" is stored as 3; "abc" does not convert. */
  lemma {:induction false} LegacyDurations(pid: nat)
    ensures RowOf(pid, "os", Entry("Linux", None)).months == 0
    ensures RowOf(pid, "os", Entry("Linux", Some("3"))).months == 3
    ensures !DurationsParse(["os"], [[Entry("Linux", Some("abc"))]])
  {
    assert IsDigits("0") && DigitsValue("0") == 0;
    assert IsDigits("3") && DigitsValue("3") == 3;
    assert !IsDigitChar("abc"[0]);
    assert PyInt(OrZero(Some("abc"))).None?;
    var groups := [[Entry("Linux", Some("abc"))]];
    assert Entry("Linux", Some("abc")) in groups[0];
  }

  /** The older `sheet`: the category summary of the user's projects (personal
      projects are not read) and the user's latest active link. */
  method Sheet(db: Store, uid: nat) returns (skills: Option<Skills>, link: Option<string>)
    ensures var es := Flatten(ProjectGroups(ProjectsOf(db.projects, uid), db.technologies));
      && skills == Accumulate(es)
      && (skills.Some? <==> forall k :: 0 <= k < |es| ==> es[k].kind in TechTypes)
      && (skills.Some? ==> Summarizes(skills.value, es))
    ensures link == LatestActiveLink(db.links, uid)
  {
    skills := Summarize(ProjectGroups(ProjectsOf(db.projects, uid), db.technologies));
    link := LatestActiveLink(db.links, uid);
  }
}
