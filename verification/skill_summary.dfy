/** The skill summary of the `sheet` and `view_sheet` pages: every technology
    record's raw category is mapped to its display title, and the months are
    summed per (title, name) into a two-level dictionary whose keys keep the
    order in which they were first met. The dictionary is modelled as a
    sequence of categories, each holding a sequence of skills. */
module SkillSummary {
  import opened Common
  import opened Tables

  datatype Skill = Skill(name: string, months: int)

  datatype Category = Category(title: string, skills: seq<Skill>)

  /** `skills_by_category`, which is also its formatted form: a list of
      `{'name', 'duration_months'}` per title. */
  type Skills = seq<Category>

  /** A technology record as the summary reads it. */
  datatype TechEntry = TechEntry(kind: string, name: string, months: int)

  function Labels(s: Skills): seq<string> {
    seq(|s|, i requires 0 <= i < |s| => s[i].title)
  }

  function SkillNames(ks: seq<Skill>): seq<string> {
    seq(|ks|, j requires 0 <= j < |ks| => ks[j].name)
  }

  /** Where `title` sits in the summary; |s| when it is not a key yet. */
  function LabelIndex(s: Skills, title: string): (i: nat)
    ensures i <= |s|
    ensures i < |s| ==> s[i].title == title
    ensures forall j :: 0 <= j < i ==> s[j].title != title
    decreases |s|
  {
    if s == [] then 0
    else
      var i := LabelIndex(s[..|s| - 1], title);
      if i < |s| - 1 || s[|s| - 1].title == title then i else |s|
  }

  /** Where `name` sits among a category's skills; |ks| when it is not a key yet. */
  function NameIndex(ks: seq<Skill>, name: string): (j: nat)
    ensures j <= |ks|
    ensures j < |ks| ==> ks[j].name == name
    ensures forall k :: 0 <= k < j ==> ks[k].name != name
    decreases |ks|
  {
    if ks == [] then 0
    else
      var j := NameIndex(ks[..|ks| - 1], name);
      if j < |ks| - 1 || ks[|ks| - 1].name == name then j else |ks|
  }

  /** `if tech.name not in ...: ... = tech.duration_months else: ... += tech.duration_months`. */
  function AddMonths(ks: seq<Skill>, name: string, months: int): seq<Skill> {
    var j := NameIndex(ks, name);
    if j == |ks| then ks + [Skill(name, months)]
    else ks[j := Skill(name, ks[j].months + months)]
  }

  /** One record folded into the summary, opening the category if needed. */
  function AddSkill(s: Skills, title: string, name: string, months: int): Skills {
    var i := LabelIndex(s, title);
    if i == |s| then s + [Category(title, [Skill(name, months)])]
    else s[i := Category(title, AddMonths(s[i].skills, name, months))]
  }

  /** The summary of the records in visiting order; None where a record's
      category is not one of the eight (the mapping raises KeyError). */
  function Accumulate(es: seq<TechEntry>): Option<Skills>
    decreases |es|
  {
    if es == [] then Some([])
    else
      match Accumulate(es[..|es| - 1])
      case None => None
      case Some(s) =>
        var e := es[|es| - 1];
        match TypeLabel(e.kind)
        case None => None
        case Some(title) => Some(AddSkill(s, title, e.name, e.months))
  }

  // ---- the reference definitions ---------------------------------------------

  /** The sum of `duration_months` over the records whose category maps to
      `title` and whose name is `name`. */
  function Total(es: seq<TechEntry>, title: string, name: string): int
    decreases |es|
  {
    if es == [] then 0
    else
      var e := es[|es| - 1];
      Total(es[..|es| - 1], title, name)
        + (if TypeLabel(e.kind) == Some(title) && e.name == name then e.months else 0)
  }

  /** The labels of the records, in visiting order. */
  function EntryLabels(es: seq<TechEntry>): seq<string>
    decreases |es|
  {
    if es == [] then []
    else
      var e := es[|es| - 1];
      EntryLabels(es[..|es| - 1]) + (if TypeLabel(e.kind).Some? then [TypeLabel(e.kind).value] else [])
  }

  /** The names of the records filed under `title`, in visiting order. */
  function NamesUnder(es: seq<TechEntry>, title: string): seq<string>
    decreases |es|
  {
    if es == [] then []
    else
      var e := es[|es| - 1];
      NamesUnder(es[..|es| - 1], title) + (if TypeLabel(e.kind) == Some(title) then [e.name] else [])
  }

  /** The categories of `s` are the labels of the records, in first-encounter order. */
  ghost predicate LabelsMatch(s: Skills, es: seq<TechEntry>) {
    Labels(s) == Dedup(EntryLabels(es))
  }

  /** Each category lists the names filed under its label, in first-encounter order. */
  ghost predicate NamesMatch(s: Skills, es: seq<TechEntry>) {
    forall i :: 0 <= i < |s| ==> SkillNames(s[i].skills) == Dedup(NamesUnder(es, s[i].title))
  }

  /** Each listed total is the sum over the records sharing its label and name. */
  ghost predicate TotalsMatch(s: Skills, es: seq<TechEntry>) {
    forall i, j :: 0 <= i < |s| && 0 <= j < |s[i].skills| ==>
      s[i].skills[j].months == Total(es, s[i].title, s[i].skills[j].name)
  }

  /** `s` is the summary of `es`. */
  ghost predicate Summarizes(s: Skills, es: seq<TechEntry>) {
    LabelsMatch(s, es) && NamesMatch(s, es) && TotalsMatch(s, es)
  }

  // ---- lemmas ------------------------------------------------------------------

  lemma {:induction false} DedupSnoc<T>(xs: seq<T>, x: T)
    ensures Dedup(xs + [x]) == if x in xs then Dedup(xs) else Dedup(xs) + [x]
  {
    assert (xs + [x])[..|xs|] == xs;
    assert x in Dedup(xs) <==> x in Elements(Dedup(xs));
  }

  lemma {:induction false} EntryLabelsSnoc(p: seq<TechEntry>, e: TechEntry)
    ensures EntryLabels(p + [e]) == EntryLabels(p) + (if TypeLabel(e.kind).Some? then [TypeLabel(e.kind).value] else [])
  {
    assert (p + [e])[..|p|] == p;
  }

  /** A record appended to the records filed under its own label. */
  lemma {:induction false} UnderTitleSnoc(p: seq<TechEntry>, e: TechEntry, title: string)
    requires TypeLabel(e.kind) == Some(title)
    ensures NamesUnder(p + [e], title) == NamesUnder(p, title) + [e.name]
    ensures forall name :: Total(p + [e], title, name) == Total(p, title, name) + (if e.name == name then e.months else 0)
  {
    assert (p + [e])[..|p|] == p;
  }

  /** A record filed under another label leaves a title's names and totals alone. */
  lemma {:induction false} OtherTitleSnoc(p: seq<TechEntry>, e: TechEntry, title: string)
    requires TypeLabel(e.kind) != Some(title)
    ensures NamesUnder(p + [e], title) == NamesUnder(p, title)
    ensures forall name :: Total(p + [e], title, name) == Total(p, title, name)
  {
    assert (p + [e])[..|p|] == p;
  }

  lemma {:induction false} NoLabelNoNames(es: seq<TechEntry>, title: string)
    requires title !in EntryLabels(es)
    ensures NamesUnder(es, title) == []
    decreases |es|
  {
    if es != [] {
      NoLabelNoNames(es[..|es| - 1], title);
    }
  }

  lemma {:induction false} LabelHasNames(es: seq<TechEntry>, title: string)
    requires title in EntryLabels(es)
    ensures NamesUnder(es, title) != []
    decreases |es|
  {
    if es != [] {
      var p, e := es[..|es| - 1], es[|es| - 1];
      if TypeLabel(e.kind) != Some(title) {
        LabelHasNames(p, title);
      }
    }
  }

  lemma {:induction false} NoNameNoTotal(es: seq<TechEntry>, title: string, name: string)
    requires name !in NamesUnder(es, title)
    ensures Total(es, title, name) == 0
    decreases |es|
  {
    if es != [] {
      NoNameNoTotal(es[..|es| - 1], title, name);
    }
  }

  lemma {:induction false} TitlesDistinct(s: Skills, es: seq<TechEntry>)
    requires LabelsMatch(s, es)
    ensures forall a, b :: 0 <= a < |s| && 0 <= b < |s| && a != b ==> s[a].title != s[b].title
  {
    forall a, b | 0 <= a < |s| && 0 <= b < |s| && a != b
      ensures s[a].title != s[b].title
    {
      assert Labels(s)[a] == s[a].title && Labels(s)[b] == s[b].title;
    }
  }

  /** Adding one record to a category (the inner dictionary). */
  lemma {:induction false} AddMonthsStep(ks: seq<Skill>, p: seq<TechEntry>, e: TechEntry, title: string)
    requires TypeLabel(e.kind) == Some(title)
    requires SkillNames(ks) == Dedup(NamesUnder(p, title))
    requires forall j :: 0 <= j < |ks| ==> ks[j].months == Total(p, title, ks[j].name)
    ensures SkillNames(AddMonths(ks, e.name, e.months)) == Dedup(NamesUnder(p + [e], title))
    ensures var ks' := AddMonths(ks, e.name, e.months);
      forall j :: 0 <= j < |ks'| ==> ks'[j].months == Total(p + [e], title, ks'[j].name)
  {
    UnderTitleSnoc(p, e, title);
    if NameIndex(ks, e.name) == |ks| {
      AddMonthsNew(ks, p, e, title);
    } else {
      AddMonthsExisting(ks, p, e, title);
    }
  }

  /** A name the category does not hold yet is appended with its months. */
  lemma {:induction false} AddMonthsNew(ks: seq<Skill>, p: seq<TechEntry>, e: TechEntry, title: string)
    requires NamesUnder(p + [e], title) == NamesUnder(p, title) + [e.name]
    requires forall name :: Total(p + [e], title, name) == Total(p, title, name) + (if e.name == name then e.months else 0)
    requires SkillNames(ks) == Dedup(NamesUnder(p, title))
    requires forall j :: 0 <= j < |ks| ==> ks[j].months == Total(p, title, ks[j].name)
    requires NameIndex(ks, e.name) == |ks|
    ensures SkillNames(AddMonths(ks, e.name, e.months)) == Dedup(NamesUnder(p + [e], title))
    ensures var ks' := AddMonths(ks, e.name, e.months);
      forall j :: 0 <= j < |ks'| ==> ks'[j].months == Total(p + [e], title, ks'[j].name)
  {
    var names := NamesUnder(p, title);
    var ks' := ks + [Skill(e.name, e.months)];
    assert AddMonths(ks, e.name, e.months) == ks';
    assert e.name !in SkillNames(ks);
    assert e.name !in Elements(Dedup(names));
    DedupSnoc(names, e.name);
    NoNameNoTotal(p, title, e.name);
    assert SkillNames(ks') == SkillNames(ks) + [e.name];
  }

  /** A name the category holds already has the months added to its total. */
  lemma {:induction false} AddMonthsExisting(ks: seq<Skill>, p: seq<TechEntry>, e: TechEntry, title: string)
    requires NamesUnder(p + [e], title) == NamesUnder(p, title) + [e.name]
    requires forall name :: Total(p + [e], title, name) == Total(p, title, name) + (if e.name == name then e.months else 0)
    requires SkillNames(ks) == Dedup(NamesUnder(p, title))
    requires forall j :: 0 <= j < |ks| ==> ks[j].months == Total(p, title, ks[j].name)
    requires NameIndex(ks, e.name) < |ks|
    ensures SkillNames(AddMonths(ks, e.name, e.months)) == Dedup(NamesUnder(p + [e], title))
    ensures var ks' := AddMonths(ks, e.name, e.months);
      forall j :: 0 <= j < |ks'| ==> ks'[j].months == Total(p + [e], title, ks'[j].name)
  {
    var j := NameIndex(ks, e.name);
    var ks' := ks[j := Skill(e.name, ks[j].months + e.months)];
    assert AddMonths(ks, e.name, e.months) == ks';
    var names := NamesUnder(p, title);
    assert SkillNames(ks)[j] == e.name;
    assert e.name in Elements(Dedup(names));
    DedupSnoc(names, e.name);
    assert SkillNames(ks') == SkillNames(ks);
    forall k | 0 <= k < |ks'|
      ensures ks'[k].months == Total(p + [e], title, ks'[k].name)
    {
      if k != j {
        assert SkillNames(ks)[k] != SkillNames(ks)[j];
        assert ks'[k] == ks[k];
      }
    }
  }

  // A record whose category is not in the summary yet opens a new category.

  lemma {:induction false} NewCategoryLabels(s: Skills, p: seq<TechEntry>, e: TechEntry)
    requires LabelsMatch(s, p)
    requires TypeLabel(e.kind).Some? && LabelIndex(s, TypeLabel(e.kind).value) == |s|
    ensures TypeLabel(e.kind).value !in EntryLabels(p)
    ensures LabelsMatch(AddSkill(s, TypeLabel(e.kind).value, e.name, e.months), p + [e])
  {
    var title := TypeLabel(e.kind).value;
    EntryLabelsSnoc(p, e);
    DedupSnoc(EntryLabels(p), title);
    assert title !in Labels(s);
    assert title !in Elements(Dedup(EntryLabels(p)));
  }

  lemma {:induction false} NewCategoryNames(s: Skills, p: seq<TechEntry>, e: TechEntry)
    requires NamesMatch(s, p)
    requires TypeLabel(e.kind).Some? && LabelIndex(s, TypeLabel(e.kind).value) == |s|
    requires TypeLabel(e.kind).value !in EntryLabels(p)
    ensures NamesMatch(AddSkill(s, TypeLabel(e.kind).value, e.name, e.months), p + [e])
  {
    var title := TypeLabel(e.kind).value;
    var s' := AddSkill(s, title, e.name, e.months);
    assert s' == s + [Category(title, [Skill(e.name, e.months)])];
    forall k | 0 <= k < |s'|
      ensures SkillNames(s'[k].skills) == Dedup(NamesUnder(p + [e], s'[k].title))
    {
      if k < |s| {
        assert s'[k] == s[k] && s[k].title != title;
        OtherCategoryNames(s[k], p, e);
      } else {
        FirstNameUnder(p, e, title);
        assert SkillNames(s'[k].skills) == [e.name];
      }
    }
  }

  /** A category other than the record's keeps its names. */
  lemma {:induction false} OtherCategoryNames(c: Category, p: seq<TechEntry>, e: TechEntry)
    requires TypeLabel(e.kind) != Some(c.title)
    requires SkillNames(c.skills) == Dedup(NamesUnder(p, c.title))
    ensures SkillNames(c.skills) == Dedup(NamesUnder(p + [e], c.title))
  {
    OtherTitleSnoc(p, e, c.title);
  }

  /** The first record with a label is the only name filed under it. */
  lemma {:induction false} FirstNameUnder(p: seq<TechEntry>, e: TechEntry, title: string)
    requires TypeLabel(e.kind) == Some(title) && title !in EntryLabels(p)
    ensures Dedup(NamesUnder(p + [e], title)) == [e.name]
  {
    UnderTitleSnoc(p, e, title);
    NoLabelNoNames(p, title);
    assert NamesUnder(p + [e], title) == [] + [e.name];
    DedupSnoc([], e.name);
  }

  lemma {:induction false} NewCategoryTotals(s: Skills, p: seq<TechEntry>, e: TechEntry)
    requires TotalsMatch(s, p)
    requires TypeLabel(e.kind).Some? && LabelIndex(s, TypeLabel(e.kind).value) == |s|
    requires TypeLabel(e.kind).value !in EntryLabels(p)
    ensures TotalsMatch(AddSkill(s, TypeLabel(e.kind).value, e.name, e.months), p + [e])
  {
    var title := TypeLabel(e.kind).value;
    var s' := AddSkill(s, title, e.name, e.months);
    assert s' == s + [Category(title, [Skill(e.name, e.months)])];
    forall k | 0 <= k < |s'|
      ensures forall j :: 0 <= j < |s'[k].skills| ==>
        s'[k].skills[j].months == Total(p + [e], s'[k].title, s'[k].skills[j].name)
    {
      if k < |s| {
        assert s'[k] == s[k] && s[k].title != title;
        OtherTitleSnoc(p, e, s[k].title);
      } else {
        UnderTitleSnoc(p, e, title);
        NoLabelNoNames(p, title);
        NoNameNoTotal(p, title, e.name);
      }
    }
  }

  // A record whose category is already in the summary updates that category only.

  lemma {:induction false} OldCategoryLabels(s: Skills, p: seq<TechEntry>, e: TechEntry)
    requires LabelsMatch(s, p)
    requires TypeLabel(e.kind).Some? && LabelIndex(s, TypeLabel(e.kind).value) < |s|
    ensures LabelsMatch(AddSkill(s, TypeLabel(e.kind).value, e.name, e.months), p + [e])
  {
    var title := TypeLabel(e.kind).value;
    var s' := AddSkill(s, title, e.name, e.months);
    EntryLabelsSnoc(p, e);
    DedupSnoc(EntryLabels(p), title);
    assert Labels(s)[LabelIndex(s, title)] == title;
    assert title in Elements(Dedup(EntryLabels(p)));
    assert Labels(s') == Labels(s);
  }

  lemma {:induction false} OldCategoryNamesTotals(s: Skills, p: seq<TechEntry>, e: TechEntry)
    requires Summarizes(s, p)
    requires TypeLabel(e.kind).Some? && LabelIndex(s, TypeLabel(e.kind).value) < |s|
    ensures var s' := AddSkill(s, TypeLabel(e.kind).value, e.name, e.months);
      NamesMatch(s', p + [e]) && TotalsMatch(s', p + [e])
  {
    var title := TypeLabel(e.kind).value;
    var i := LabelIndex(s, title);
    var s' := AddSkill(s, title, e.name, e.months);
    TitlesDistinct(s, p);
    AddMonthsStep(s[i].skills, p, e, title);
    forall k | 0 <= k < |s'|
      ensures SkillNames(s'[k].skills) == Dedup(NamesUnder(p + [e], s'[k].title))
      ensures forall j :: 0 <= j < |s'[k].skills| ==>
        s'[k].skills[j].months == Total(p + [e], s'[k].title, s'[k].skills[j].name)
    {
      if k != i {
        assert s'[k] == s[k] && s[k].title != title;
        OtherTitleSnoc(p, e, s[k].title);
        assert SkillNames(s[k].skills) == Dedup(NamesUnder(p, s[k].title));
      }
    }
  }

  /** The summary exists exactly when every record's category is one of the
      eight, and then it is the summary of the records. */
  lemma {:induction false} AccumulateSummarizes(es: seq<TechEntry>)
    ensures Accumulate(es).Some? <==> forall k :: 0 <= k < |es| ==> es[k].kind in TechTypes
    ensures Accumulate(es).Some? ==> Summarizes(Accumulate(es).value, es)
    decreases |es|
  {
    if es == [] {
      assert Dedup(EntryLabels(es)) == [];
    } else {
      var p, e := es[..|es| - 1], es[|es| - 1];
      assert es == p + [e];
      AccumulateSummarizes(p);
      assert forall k :: 0 <= k < |p| ==> es[k] == p[k];
      if Accumulate(p).Some? && TypeLabel(e.kind).Some? {
        var s := Accumulate(p).value;
        if LabelIndex(s, TypeLabel(e.kind).value) == |s| {
          NewCategoryLabels(s, p, e);
          NewCategoryNames(s, p, e);
          NewCategoryTotals(s, p, e);
        } else {
          OldCategoryLabels(s, p, e);
          OldCategoryNamesTotals(s, p, e);
        }
      }
    }
  }

  /** No category of a summary is empty. */
  lemma {:induction false} SummaryCategoriesNonEmpty(s: Skills, es: seq<TechEntry>, i: nat)
    requires Summarizes(s, es)
    requires i < |s|
    ensures |s[i].skills| > 0
  {
    var title := s[i].title;
    assert title == Labels(s)[i];
    assert title in Elements(Dedup(EntryLabels(es)));
    LabelHasNames(es, title);
    var names := NamesUnder(es, title);
    assert names[0] in Elements(Dedup(names));
    assert SkillNames(s[i].skills) != [];
  }

  /** Every record with a known category is listed under its title and name,
      with the total of all the records sharing that title and name. */
  lemma {:induction false} SummaryListsEveryRecord(s: Skills, es: seq<TechEntry>, k: nat) returns (i: nat, j: nat)
    requires Summarizes(s, es)
    requires k < |es| && TypeLabel(es[k].kind).Some?
    ensures i < |s| && j < |s[i].skills|
    ensures s[i].title == TypeLabel(es[k].kind).value
    ensures s[i].skills[j].name == es[k].name
    ensures s[i].skills[j].months == Total(es, s[i].title, es[k].name)
  {
    var title := TypeLabel(es[k].kind).value;
    LabelOfRecord(es, k);
    assert title in Elements(Dedup(EntryLabels(es)));
    i :| 0 <= i < |s| && Labels(s)[i] == title;
    assert es[k].name in Elements(Dedup(NamesUnder(es, title)));
    j :| 0 <= j < |s[i].skills| && SkillNames(s[i].skills)[j] == es[k].name;
  }

  lemma {:induction false} LabelOfRecord(es: seq<TechEntry>, k: nat)
    requires k < |es| && TypeLabel(es[k].kind).Some?
    ensures TypeLabel(es[k].kind).value in EntryLabels(es)
    ensures es[k].name in NamesUnder(es, TypeLabel(es[k].kind).value)
    decreases |es|
  {
    var p := es[..|es| - 1];
    if k < |es| - 1 {
      assert es[k] == p[k];
      LabelOfRecord(p, k);
    }
  }

  // ---- the loops -------------------------------------------------------------

  function EntryOf(t: Technology): TechEntry {
    TechEntry(t.kind, t.name, t.months)
  }

  function IndEntryOf(t: IndividualTechnology): TechEntry {
    TechEntry(t.kind, t.name, t.months)
  }

  /** Each project's technologies, project by project (`for project in
      projects: technologies = Technology.query.filter_by(project_id=...)`). */
  function ProjectGroups(projects: seq<Project>, techs: seq<Technology>): seq<seq<TechEntry>> {
    seq(|projects|, i requires 0 <= i < |projects| =>
      var ts := TechsOf(techs, projects[i].id);
      seq(|ts|, k requires 0 <= k < |ts| => EntryOf(ts[k])))
  }

  /** Each personal project's technologies, personal project by personal project. */
  function DevelopmentGroups(devs: seq<IndividualDevelopment>, techs: seq<IndividualTechnology>): seq<seq<TechEntry>> {
    seq(|devs|, i requires 0 <= i < |devs| =>
      var ts := IndTechsOf(techs, devs[i].id);
      seq(|ts|, k requires 0 <= k < |ts| => IndEntryOf(ts[k])))
  }

  function Flatten(groups: seq<seq<TechEntry>>): seq<TechEntry>
    decreases |groups|
  {
    if groups == [] then [] else Flatten(groups[..|groups| - 1]) + groups[|groups| - 1]
  }

  lemma {:induction false} SeqAssoc(x: seq<TechEntry>, y: seq<TechEntry>, z: seq<TechEntry>)
    ensures (x + y) + z == x + (y + z)
  {
  }

  lemma {:induction false} FlattenAppend(a: seq<seq<TechEntry>>, b: seq<seq<TechEntry>>)
    ensures Flatten(a + b) == Flatten(a) + Flatten(b)
    decreases |b|
  {
    if b == [] {
      assert a + b == a;
    } else {
      var b', x := b[..|b| - 1], b[|b| - 1];
      var ab := a + b;
      assert ab[..|ab| - 1] == a + b' && ab[|ab| - 1] == x;
      assert Flatten(ab) == Flatten(a + b') + x;
      assert Flatten(b) == Flatten(b') + x;
      FlattenAppend(a, b');
      SeqAssoc(Flatten(a), Flatten(b'), x);
    }
  }

  lemma {:induction false} AccumulateStaysNone(xs: seq<TechEntry>, ys: seq<TechEntry>)
    requires Accumulate(xs).None?
    ensures Accumulate(xs + ys).None?
    decreases |ys|
  {
    if ys == [] {
      assert xs + ys == xs;
    } else {
      var ys' := ys[..|ys| - 1];
      assert (xs + ys)[..|xs + ys| - 1] == xs + ys';
      AccumulateStaysNone(xs, ys');
    }
  }

  lemma {:induction false} AccumulateSnoc(xs: seq<TechEntry>, e: TechEntry)
    ensures Accumulate(xs + [e]) ==
      if Accumulate(xs).Some? && TypeLabel(e.kind).Some?
      then Some(AddSkill(Accumulate(xs).value, TypeLabel(e.kind).value, e.name, e.months))
      else None
  {
    assert (xs + [e])[..|xs|] == xs;
  }

  /** Splitting the records around position `j`. */
  lemma {:induction false} SplitAround(xs: seq<TechEntry>, es: seq<TechEntry>, j: nat)
    requires j < |es|
    ensures xs + es[..j + 1] == (xs + es[..j]) + [es[j]]
    ensures xs + es == (xs + es[..j + 1]) + es[j + 1..]
  {
    assert es[..j + 1] == es[..j] + [es[j]];
    assert es == es[..j + 1] + es[j + 1..];
  }

  /** The inner `for tech in technologies:` loop, continuing a summary. */
  method AddEntries(acc: Skills, ghost seen: seq<TechEntry>, es: seq<TechEntry>) returns (r: Option<Skills>)
    requires Accumulate(seen) == Some(acc)
    ensures r == Accumulate(seen + es)
  {
    var s := acc;
    ghost var done := seen;
    var j := 0;
    assert seen + es[..0] == seen;
    while j < |es|
      invariant 0 <= j <= |es|
      invariant done == seen + es[..j]
      invariant Accumulate(done) == Some(s)
    {
      SplitAround(seen, es, j);
      AccumulateSnoc(done, es[j]);
      var title := TypeLabel(es[j].kind);
      if title.None? {
        AccumulateStaysNone(done + [es[j]], es[j + 1..]);
        return None;
      }
      s := AddSkill(s, title.value, es[j].name, es[j].months);
      done := done + [es[j]];
      j := j + 1;
    }
    assert es[..j] == es;
    r := Some(s);
  }

  /** The outer loops over projects (and personal projects): each group's
      records folded into one summary. */
  method Summarize(groups: seq<seq<TechEntry>>) returns (r: Option<Skills>)
    ensures r == Accumulate(Flatten(groups))
    ensures r.Some? <==> forall k :: 0 <= k < |Flatten(groups)| ==> Flatten(groups)[k].kind in TechTypes
    ensures r.Some? ==> Summarizes(r.value, Flatten(groups))
  {
    var s: Skills := [];
    ghost var done: seq<TechEntry> := [];
    var i := 0;
    while i < |groups|
      invariant 0 <= i <= |groups|
      invariant done == Flatten(groups[..i])
      invariant Accumulate(done) == Some(s)
    {
      var next := AddEntries(s, done, groups[i]);
      assert groups[..i + 1][..i] == groups[..i];
      if next.None? {
        FlattenAppend(groups[..i + 1], groups[i + 1..]);
        assert groups[..i + 1] + groups[i + 1..] == groups;
        AccumulateStaysNone(done + groups[i], Flatten(groups[i + 1..]));
        AccumulateSummarizes(Flatten(groups));
        return None;
      }
      s := next.value;
      done := done + groups[i];
      i := i + 1;
    }
    assert groups[..i] == groups;
    AccumulateSummarizes(Flatten(groups));
    r := Some(s);
  }
}
