/** How the edit handlers bring a project's stored technologies and phases in
    line with a submitted form: per category, update the rows already present,
    insert the new names, delete the rows whose name was not submitted; then
    reconcile the phase (`Process`) rows. Every function here works on the
    staged copy of a table; the handlers commit the result. */
module Reconcile {
  import opened Common
  import opened Tables
  import opened FormFields

  // ---- technology rows of one category -----------------------------------------

  /** The rows `Technology.query.filter_by(project_id=pid, type=kind)` returns. */
  predicate InCategory(r: Technology, pid: nat, kind: string) {
    r.projectId == pid && r.kind == kind
  }

  predicate Named(r: Technology, pid: nat, kind: string, name: string) {
    InCategory(r, pid, kind) && r.name == name
  }

  /** The months of the category's rows called `name`, in table order. */
  function MonthsNamed(t: seq<Technology>, pid: nat, kind: string, name: string): seq<int>
    decreases |t|
  {
    if t == [] then []
    else
      var r := t[|t| - 1];
      MonthsNamed(t[..|t| - 1], pid, kind, name) + (if Named(r, pid, kind, name) then [r.months] else [])
  }

  /** The rows outside the category, in table order. */
  function Others(t: seq<Technology>, pid: nat, kind: string): seq<Technology>
    decreases |t|
  {
    if t == [] then []
    else
      var r := t[|t| - 1];
      Others(t[..|t| - 1], pid, kind) + (if InCategory(r, pid, kind) then [] else [r])
  }

  /** The rows of other projects, in table order. */
  function OtherProjects(t: seq<Technology>, pid: nat): seq<Technology>
    decreases |t|
  {
    if t == [] then []
    else
      var r := t[|t| - 1];
      OtherProjects(t[..|t| - 1], pid) + (if r.projectId == pid then [] else [r])
  }

  /** `{tech.name for tech in existing_techs}`. */
  function ExistingNames(t: seq<Technology>, pid: nat, kind: string): set<string> {
    set r | r in t && InCategory(r, pid, kind) :: r.name
  }

  /** The position of the first row of the category called `name`; |t| if none. */
  function FirstIndex(t: seq<Technology>, pid: nat, kind: string, name: string): (k: nat)
    ensures k <= |t|
    ensures k < |t| ==> Named(t[k], pid, kind, name)
    ensures forall j :: 0 <= j < k ==> !Named(t[j], pid, kind, name)
    decreases |t|
  {
    if t == [] then 0
    else
      var k := FirstIndex(t[..|t| - 1], pid, kind, name);
      if k < |t| - 1 || Named(t[|t| - 1], pid, kind, name) then k else |t|
  }

  /** `tech = next(t for t in existing_techs if t.name == name); tech.duration_months = m`. */
  function UpdateFirst(t: seq<Technology>, pid: nat, kind: string, name: string, m: int): seq<Technology> {
    var k := FirstIndex(t, pid, kind, name);
    if k == |t| then t else t[k := t[k].(months := m)]
  }

  /** A submitted (name, duration) pair; the duration is missing where the
      handler read it with `request.form.get` and the key was absent. */
  type Pair = (string, Option<string>)

  /** One round of `for name, duration in zip(tech_names, tech_durations)`;
      None where `duration.isdigit()` is called on a missing duration. */
  function UpsertOne(t: seq<Technology>, pid: nat, kind: string, existing: set<string>, pair: Pair): Option<seq<Technology>> {
    var (name, duration) := pair;
    if name == "" then Some(t)
    else if duration.None? then None
    else if !PositiveDigits(duration.value) then Some(t)
    else if name in existing then Some(UpdateFirst(t, pid, kind, name, DigitsValue(duration.value)))
    else Some(t + [Technology(pid, kind, name, DigitsValue(duration.value))])
  }

  /** The whole upsert loop; `existing` is the name set taken before it. */
  function UpsertAll(t: seq<Technology>, pid: nat, kind: string, existing: set<string>, pairs: seq<Pair>): Option<seq<Technology>>
    decreases |pairs|
  {
    if pairs == [] then Some(t)
    else
      match UpsertAll(t, pid, kind, existing, pairs[..|pairs| - 1])
      case None => None
      case Some(u) => UpsertOne(u, pid, kind, existing, pairs[|pairs| - 1])
  }

  /** The deletion loop: the category's rows whose name was not submitted go. */
  function DropUnsubmitted(t: seq<Technology>, pid: nat, kind: string, submitted: set<string>): seq<Technology>
    decreases |t|
  {
    if t == [] then []
    else
      var r := t[|t| - 1];
      DropUnsubmitted(t[..|t| - 1], pid, kind, submitted)
        + (if InCategory(r, pid, kind) && r.name !in submitted then [] else [r])
  }

  /** One category reconciled: upsert the positional pairs, then delete the
      rows whose name is not among the submitted names. */
  function ReconcileCategory(t: seq<Technology>, pid: nat, kind: string, names: seq<string>, durations: seq<Option<string>>): Option<seq<Technology>> {
    match UpsertAll(t, pid, kind, ExistingNames(t, pid, kind), Zip(names, durations))
    case None => None
    case Some(u) => Some(DropUnsubmitted(u, pid, kind, Elements(names)))
  }

  // ---- what a reconciled category holds --------------------------------------

  function PairNames(pairs: seq<Pair>): seq<string> {
    seq(|pairs|, k requires 0 <= k < |pairs| => pairs[k].0)
  }

  /** The months the submission sets for `name`: the last pair with that name,
      a non-empty name and a positive digit-string duration. */
  function ValidMonthsFor(pairs: seq<Pair>, name: string): Option<nat>
    decreases |pairs|
  {
    if pairs == [] then None
    else
      var (n, d) := pairs[|pairs| - 1];
      if n == name && n != "" && d.Some? && PositiveDigits(d.value) then Some(DigitsValue(d.value))
      else ValidMonthsFor(pairs[..|pairs| - 1], name)
  }

  /** The first row's months replaced by `m`, or a single new row. */
  function ReplaceHeadOrAppend(ms: seq<int>, m: int): seq<int> {
    if ms == [] then [m] else [m] + ms[1..]
  }

  /** A submitted non-empty name whose duration is missing. */
  predicate Crashes(pairs: seq<Pair>) {
    exists k :: 0 <= k < |pairs| && pairs[k].0 != "" && pairs[k].1.None?
  }

  /** The months the category's rows called `x` hold after reconciliation. */
  function Expected(t: seq<Technology>, pid: nat, kind: string, names: seq<string>, durations: seq<Option<string>>, x: string): seq<int> {
    if x !in names then []
    else
      match ValidMonthsFor(Zip(names, durations), x)
      case None => MonthsNamed(t, pid, kind, x)
      case Some(m) => ReplaceHeadOrAppend(MonthsNamed(t, pid, kind, x), m)
  }

  lemma {:induction false} MonthsConcat(a: seq<Technology>, b: seq<Technology>, pid: nat, kind: string, x: string)
    ensures MonthsNamed(a + b, pid, kind, x) == MonthsNamed(a, pid, kind, x) + MonthsNamed(b, pid, kind, x)
    ensures Others(a + b, pid, kind) == Others(a, pid, kind) + Others(b, pid, kind)
    decreases |b|
  {
    if b == [] {
      assert a + b == a;
    } else {
      var b' := b[..|b| - 1];
      assert (a + b)[..|a + b| - 1] == a + b';
      MonthsConcat(a, b', pid, kind, x);
    }
  }

  lemma {:induction false} NoneNamed(t: seq<Technology>, pid: nat, kind: string, x: string)
    requires forall j :: 0 <= j < |t| ==> !Named(t[j], pid, kind, x)
    ensures MonthsNamed(t, pid, kind, x) == []
    decreases |t|
  {
    if t != [] {
      NoneNamed(t[..|t| - 1], pid, kind, x);
    }
  }

  /** A name is among the existing names exactly when some row carries it. */
  lemma {:induction false} ExistingIffMonths(t: seq<Technology>, pid: nat, kind: string, x: string)
    ensures x in ExistingNames(t, pid, kind) <==> MonthsNamed(t, pid, kind, x) != []
    decreases |t|
  {
    if t != [] {
      var p, r := t[..|t| - 1], t[|t| - 1];
      ExistingIffMonths(p, pid, kind, x);
      assert t == p + [r];
      assert ExistingNames(t, pid, kind) == ExistingNames(p, pid, kind) + (if InCategory(r, pid, kind) then {r.name} else {});
    }
  }

  lemma {:induction false} UpdateFirstEffect(t: seq<Technology>, pid: nat, kind: string, n: string, m: int, x: string)
    ensures var ms := MonthsNamed(t, pid, kind, x);
      MonthsNamed(UpdateFirst(t, pid, kind, n, m), pid, kind, x) == if x == n && ms != [] then [m] + ms[1..] else ms
    ensures Others(UpdateFirst(t, pid, kind, n, m), pid, kind) == Others(t, pid, kind)
  {
    var k := FirstIndex(t, pid, kind, n);
    if k == |t| {
      if x == n {
        NoneNamed(t, pid, kind, n);
      }
    } else {
      var r := t[k];
      var u := UpdateFirst(t, pid, kind, n, m);
      assert t == t[..k] + [r] + t[k + 1..];
      assert u == t[..k] + [r.(months := m)] + t[k + 1..];
      MonthsConcat(t[..k] + [r], t[k + 1..], pid, kind, x);
      MonthsConcat(t[..k], [r], pid, kind, x);
      MonthsConcat(t[..k] + [r.(months := m)], t[k + 1..], pid, kind, x);
      MonthsConcat(t[..k], [r.(months := m)], pid, kind, x);
      assert MonthsNamed([r], pid, kind, x) == (if x == n then [r.months] else []) by {
        assert [r][..0] == [];
      }
      assert MonthsNamed([r.(months := m)], pid, kind, x) == (if x == n then [m] else []) by {
        assert [r.(months := m)][..0] == [];
      }
      assert Others([r], pid, kind) == [] by {
        assert [r][..0] == [];
      }
      assert Others([r.(months := m)], pid, kind) == [] by {
        assert [r.(months := m)][..0] == [];
      }
      if x == n {
        NoneNamed(t[..k], pid, kind, n);
      }
    }
  }

  lemma {:induction false} AppendEffect(t: seq<Technology>, pid: nat, kind: string, n: string, m: int, x: string)
    ensures MonthsNamed(t + [Technology(pid, kind, n, m)], pid, kind, x) == MonthsNamed(t, pid, kind, x) + (if x == n then [m] else [])
    ensures Others(t + [Technology(pid, kind, n, m)], pid, kind) == Others(t, pid, kind)
  {
    assert (t + [Technology(pid, kind, n, m)])[..|t|] == t;
  }

  lemma {:induction false} NotNamedNoMonths(pairs: seq<Pair>, x: string)
    requires x !in PairNames(pairs)
    ensures ValidMonthsFor(pairs, x) == None
    decreases |pairs|
  {
    if pairs != [] {
      var p := pairs[..|pairs| - 1];
      assert PairNames(pairs) == PairNames(p) + [pairs[|pairs| - 1].0];
      NotNamedNoMonths(p, x);
    }
  }

  /** The upsert loop, name by name: a name with a valid duration has its first
      row updated, or gains a row; every other row is as before. */
  lemma {:induction false} UpsertAllEffect(t: seq<Technology>, pid: nat, kind: string, pairs: seq<Pair>, x: string)
    requires Distinct(PairNames(pairs))
    requires UpsertAll(t, pid, kind, ExistingNames(t, pid, kind), pairs).Some?
    ensures var u := UpsertAll(t, pid, kind, ExistingNames(t, pid, kind), pairs).value;
      && Others(u, pid, kind) == Others(t, pid, kind)
      && MonthsNamed(u, pid, kind, x) ==
           match ValidMonthsFor(pairs, x)
           case None => MonthsNamed(t, pid, kind, x)
           case Some(m) => ReplaceHeadOrAppend(MonthsNamed(t, pid, kind, x), m)
    decreases |pairs|
  {
    if pairs != [] {
      var existing := ExistingNames(t, pid, kind);
      var p := pairs[..|pairs| - 1];
      var (n, d) := pairs[|pairs| - 1];
      assert PairNames(p) == PairNames(pairs)[..|pairs| - 1];
      DistinctSnoc(PairNames(pairs));
      UpsertAllEffect(t, pid, kind, p, x);
      UpsertAllEffect(t, pid, kind, p, n);
      NotNamedNoMonths(p, n);
      var u' := UpsertAll(t, pid, kind, existing, p).value;
      if n != "" && d.Some? && PositiveDigits(d.value) {
        var m := DigitsValue(d.value);
        ExistingIffMonths(t, pid, kind, n);
        if n in existing {
          UpdateFirstEffect(u', pid, kind, n, m, x);
        } else {
          AppendEffect(u', pid, kind, n, m, x);
        }
      }
    }
  }

  lemma {:induction false} DropEffect(t: seq<Technology>, pid: nat, kind: string, submitted: set<string>, x: string)
    ensures MonthsNamed(DropUnsubmitted(t, pid, kind, submitted), pid, kind, x) ==
      if x in submitted then MonthsNamed(t, pid, kind, x) else []
    ensures Others(DropUnsubmitted(t, pid, kind, submitted), pid, kind) == Others(t, pid, kind)
    decreases |t|
  {
    if t != [] {
      var p, r := t[..|t| - 1], t[|t| - 1];
      DropEffect(p, pid, kind, submitted, x);
      var dp := DropUnsubmitted(p, pid, kind, submitted);
      var tail := if InCategory(r, pid, kind) && r.name !in submitted then [] else [r];
      assert DropUnsubmitted(t, pid, kind, submitted) == dp + tail;
      MonthsConcat(dp, tail, pid, kind, x);
      if tail == [r] {
        assert (dp + [r])[..|dp|] == dp;
      }
    }
  }

  lemma {:induction false} PrefixNamesDistinct(names: seq<string>, durations: seq<Option<string>>)
    requires Distinct(names)
    ensures Distinct(PairNames(Zip(names, durations)))
    ensures forall x :: x in PairNames(Zip(names, durations)) ==> x in names
  {
    var pn := PairNames(Zip(names, durations));
    assert forall k :: 0 <= k < |pn| ==> pn[k] == names[k];
  }

  /** After one category is reconciled (with no repeated submitted name, which
      the handlers reject beforehand): rows of other categories are untouched;
      a name that was not submitted has no rows left; a submitted name without
      a valid duration keeps its rows; a submitted name with a valid duration
      has its first row updated, or one new row if it had none. */
  lemma {:induction false} ReconcileCategoryRows(t: seq<Technology>, pid: nat, kind: string, names: seq<string>, durations: seq<Option<string>>, x: string)
    requires Distinct(names)
    requires ReconcileCategory(t, pid, kind, names, durations).Some?
    ensures var u := ReconcileCategory(t, pid, kind, names, durations).value;
      && Others(u, pid, kind) == Others(t, pid, kind)
      && MonthsNamed(u, pid, kind, x) == Expected(t, pid, kind, names, durations, x)
  {
    var pairs := Zip(names, durations);
    PrefixNamesDistinct(names, durations);
    var u := UpsertAll(t, pid, kind, ExistingNames(t, pid, kind), pairs).value;
    UpsertAllEffect(t, pid, kind, pairs, x);
    DropEffect(u, pid, kind, Elements(names), x);
    assert x in Elements(names) <==> x in names;
  }

  /** The upsert loop fails exactly when a non-empty name has no duration. */
  lemma {:induction false} UpsertAllCrashes(t: seq<Technology>, pid: nat, kind: string, existing: set<string>, pairs: seq<Pair>)
    ensures UpsertAll(t, pid, kind, existing, pairs).None? <==> Crashes(pairs)
    decreases |pairs|
  {
    if pairs != [] {
      var p := pairs[..|pairs| - 1];
      UpsertAllCrashes(t, pid, kind, existing, p);
      assert forall k :: 0 <= k < |p| ==> pairs[k] == p[k];
      if Crashes(pairs) && !Crashes(p) {
        assert pairs[|pairs| - 1].0 != "" && pairs[|pairs| - 1].1.None?;
      }
    }
  }

  /** The same names and durations read back, when all durations are present, never fail. */
  lemma {:induction false} PresentDurationsNeverCrash(names: seq<string>, durations: seq<string>)
    ensures !Crashes(Zip(names, SomeAll(durations)))
  {
    var pairs := Zip(names, SomeAll(durations));
    forall k | 0 <= k < |pairs|
      ensures pairs[k].1.Some?
    {
      assert pairs[k].1 == SomeAll(durations)[k];
    }
  }

  // ---- the reconciliation loops ---------------------------------------------------

  method FindFirst(t: seq<Technology>, pid: nat, kind: string, name: string) returns (k: nat)
    ensures k <= |t|
    ensures k < |t| ==> Named(t[k], pid, kind, name)
    ensures forall j :: 0 <= j < k ==> !Named(t[j], pid, kind, name)
    ensures k == FirstIndex(t, pid, kind, name)
  {
    k := 0;
    while k < |t| && !Named(t[k], pid, kind, name)
      invariant k <= |t|
      invariant forall j :: 0 <= j < k ==> !Named(t[j], pid, kind, name)
    {
      k := k + 1;
    }
  }

  lemma {:induction false} UpsertAllSnoc(t: seq<Technology>, pid: nat, kind: string, existing: set<string>, pairs: seq<Pair>, i: nat)
    requires i < |pairs|
    ensures UpsertAll(t, pid, kind, existing, pairs[..i + 1]) ==
      match UpsertAll(t, pid, kind, existing, pairs[..i])
      case None => None
      case Some(u) => UpsertOne(u, pid, kind, existing, pairs[i])
  {
    assert pairs[..i + 1][..i] == pairs[..i];
  }

  lemma {:induction false} UpsertAllNoneRest(t: seq<Technology>, pid: nat, kind: string, existing: set<string>, pairs: seq<Pair>, i: nat)
    requires i < |pairs| && pairs[i].0 != "" && pairs[i].1.None?
    ensures UpsertAll(t, pid, kind, existing, pairs).None?
  {
    UpsertAllCrashes(t, pid, kind, existing, pairs);
  }

  lemma {:induction false} DropSnoc(t: seq<Technology>, pid: nat, kind: string, submitted: set<string>, j: nat)
    requires j < |t|
    ensures DropUnsubmitted(t[..j + 1], pid, kind, submitted) ==
      DropUnsubmitted(t[..j], pid, kind, submitted)
        + (if InCategory(t[j], pid, kind) && t[j].name !in submitted then [] else [t[j]])
  {
    assert t[..j + 1][..j] == t[..j];
  }

  /** One category of the edit handlers, as the loops do it: upsert each
      (name, duration) pair against the name set taken beforehand, then drop
      the category's rows whose name was not submitted. */
  method ReconcileTechnologies(t: seq<Technology>, pid: nat, kind: string, names: seq<string>, durations: seq<Option<string>>)
    returns (r: Option<seq<Technology>>)
    ensures r == ReconcileCategory(t, pid, kind, names, durations)
    ensures r.None? <==> Crashes(Zip(names, durations))
  {
    UpsertAllCrashes(t, pid, kind, ExistingNames(t, pid, kind), Zip(names, durations));
    var existing := ExistingNames(t, pid, kind);
    var pairs := Zip(names, durations);
    var cur := t;
    var i := 0;
    while i < |pairs|
      invariant i <= |pairs|
      invariant UpsertAll(t, pid, kind, existing, pairs[..i]) == Some(cur)
    {
      UpsertAllSnoc(t, pid, kind, existing, pairs, i);
      var (name, duration) := pairs[i];
      if name != "" {
        if duration.None? {
          UpsertAllNoneRest(t, pid, kind, existing, pairs, i);
          return None;
        }
        if PositiveDigits(duration.value) {
          var m := DigitsValue(duration.value);
          if name in existing {
            var k := FindFirst(cur, pid, kind, name);
            if k < |cur| {
              cur := cur[k := cur[k].(months := m)];
            }
          } else {
            cur := cur + [Technology(pid, kind, name, m)];
          }
        }
      }
      i := i + 1;
    }
    assert pairs[..i] == pairs;
    var submitted := Elements(names);
    var kept: seq<Technology> := [];
    var j := 0;
    while j < |cur|
      invariant j <= |cur|
      invariant kept == DropUnsubmitted(cur[..j], pid, kind, submitted)
    {
      DropSnoc(cur, pid, kind, submitted, j);
      if !(InCategory(cur[j], pid, kind) && cur[j].name !in submitted) {
        kept := kept + [cur[j]];
      }
      j := j + 1;
    }
    assert cur[..j] == cur;
    r := Some(kept);
  }

  // ---- all categories of one submission ---------------------------------------

  /** What one category of a form submits: raw names and their durations, paired by position. */
  datatype Submission = Submission(kind: string, names: seq<string>, durations: seq<Option<string>>)

  /** The staged technology table, or why the handler stopped: a repeated
      name in a category (redirect) or a missing duration (an exception). */
  datatype Staged = Staged(techs: seq<Technology>) | DuplicateIn(kind: string) | Crashed

  /** `len(tech_names) != len(set(tech_names))`. */
  predicate HasDuplicate(names: seq<string>) {
    |names| != |Elements(names)|
  }

  predicate Fails(sub: Submission) {
    HasDuplicate(sub.names) || Crashes(Zip(sub.names, sub.durations))
  }

  function KindsOf(subs: seq<Submission>): seq<string> {
    seq(|subs|, k requires 0 <= k < |subs| => subs[k].kind)
  }

  /** `for tech_type in tech_types:` check the category for a repeated name,
      then reconcile it; the first failure ends the loop. */
  function ReconcileAll(t: seq<Technology>, pid: nat, subs: seq<Submission>): Staged
    decreases |subs|
  {
    if subs == [] then Staged(t)
    else
      var sub := subs[|subs| - 1];
      match ReconcileAll(t, pid, subs[..|subs| - 1])
      case Staged(u) =>
        if HasDuplicate(sub.names) then DuplicateIn(sub.kind)
        else (match ReconcileCategory(u, pid, sub.kind, sub.names, sub.durations)
              case None => Crashed
              case Some(v) => Staged(v))
      case other => other
  }

  lemma {:induction false} ReconcileAllSnoc(t: seq<Technology>, pid: nat, subs: seq<Submission>, i: nat)
    requires i < |subs|
    ensures ReconcileAll(t, pid, subs[..i + 1]) ==
      match ReconcileAll(t, pid, subs[..i])
      case Staged(u) =>
        if HasDuplicate(subs[i].names) then DuplicateIn(subs[i].kind)
        else (match ReconcileCategory(u, pid, subs[i].kind, subs[i].names, subs[i].durations)
              case None => Crashed
              case Some(v) => Staged(v))
      case other => other
  {
    assert subs[..i + 1][..i] == subs[..i];
  }

  lemma {:induction false} CategoryCrashes(t: seq<Technology>, pid: nat, sub: Submission)
    ensures ReconcileCategory(t, pid, sub.kind, sub.names, sub.durations).None? <==> Crashes(Zip(sub.names, sub.durations))
  {
    UpsertAllCrashes(t, pid, sub.kind, ExistingNames(t, pid, sub.kind), Zip(sub.names, sub.durations));
  }

  /** The loop over categories completes exactly when no category has a
      repeated name or a missing duration. */
  lemma {:induction false} ReconcileAllCompletes(t: seq<Technology>, pid: nat, subs: seq<Submission>)
    ensures ReconcileAll(t, pid, subs).Staged? <==> forall k :: 0 <= k < |subs| ==> !Fails(subs[k])
    decreases |subs|
  {
    if subs != [] {
      var p, sub := subs[..|subs| - 1], subs[|subs| - 1];
      ReconcileAllCompletes(t, pid, p);
      assert forall k :: 0 <= k < |p| ==> subs[k] == p[k];
      var r := ReconcileAll(t, pid, p);
      if r.Staged? {
        CategoryCrashes(r.techs, pid, sub);
      }
    }
  }

  /** When the loop stops early, it reports the first failing category: a
      repeated name there redirects, otherwise the missing duration raises. */
  lemma {:induction false} ReconcileAllFirstFailure(t: seq<Technology>, pid: nat, subs: seq<Submission>) returns (i: nat)
    requires !ReconcileAll(t, pid, subs).Staged?
    ensures i < |subs| && Fails(subs[i])
    ensures forall k :: 0 <= k < i ==> !Fails(subs[k])
    ensures ReconcileAll(t, pid, subs) == if HasDuplicate(subs[i].names) then DuplicateIn(subs[i].kind) else Crashed
    decreases |subs|
  {
    var p, sub := subs[..|subs| - 1], subs[|subs| - 1];
    assert forall k :: 0 <= k < |p| ==> subs[k] == p[k];
    var r := ReconcileAll(t, pid, p);
    if r.Staged? {
      ReconcileAllCompletes(t, pid, p);
      CategoryCrashes(r.techs, pid, sub);
      i := |subs| - 1;
    } else {
      i := ReconcileAllFirstFailure(t, pid, p);
    }
  }

  lemma {:induction false} MonthsThroughOthers(t: seq<Technology>, pid: nat, kind: string, kind': string, x: string)
    requires kind' != kind
    ensures MonthsNamed(Others(t, pid, kind), pid, kind', x) == MonthsNamed(t, pid, kind', x)
    ensures OtherProjects(Others(t, pid, kind), pid) == OtherProjects(t, pid)
    decreases |t|
  {
    if t != [] {
      var p, r := t[..|t| - 1], t[|t| - 1];
      MonthsThroughOthers(p, pid, kind, kind', x);
      var o := Others(p, pid, kind);
      if InCategory(r, pid, kind) {
        assert Others(t, pid, kind) == o;
        assert !Named(r, pid, kind', x);
      } else {
        assert Others(t, pid, kind) == o + [r];
        assert (o + [r])[..|o|] == o;
      }
    }
  }

  /** Reconciling one category leaves the other categories and projects alone. */
  lemma {:induction false} OtherCategoriesKept(t: seq<Technology>, u: seq<Technology>, pid: nat, kind: string, kind': string, x: string)
    requires Others(u, pid, kind) == Others(t, pid, kind)
    requires kind' != kind
    ensures MonthsNamed(u, pid, kind', x) == MonthsNamed(t, pid, kind', x)
  {
    MonthsThroughOthers(t, pid, kind, kind', x);
    MonthsThroughOthers(u, pid, kind, kind', x);
  }

  lemma {:induction false} OtherProjectsKept(t: seq<Technology>, u: seq<Technology>, pid: nat, kind: string)
    requires Others(u, pid, kind) == Others(t, pid, kind)
    ensures OtherProjects(u, pid) == OtherProjects(t, pid)
  {
    MonthsThroughOthers(t, pid, kind, kind + "_", "");
    MonthsThroughOthers(u, pid, kind, kind + "_", "");
  }

  /** Each submitted category holds what reconciling it alone against `t`
      gives; unsubmitted categories and other projects keep their rows. */
  ghost predicate RowsAsExpected(t: seq<Technology>, u: seq<Technology>, pid: nat, subs: seq<Submission>, x: string) {
    && OtherProjects(u, pid) == OtherProjects(t, pid)
    && (forall kind :: kind !in KindsOf(subs) ==> MonthsNamed(u, pid, kind, x) == MonthsNamed(t, pid, kind, x))
    && (forall k :: 0 <= k < |subs| ==>
          MonthsNamed(u, pid, subs[k].kind, x) == Expected(t, pid, subs[k].kind, subs[k].names, subs[k].durations, x))
  }

  lemma {:induction false} RowsAsExpectedStep(t: seq<Technology>, u': seq<Technology>, u: seq<Technology>, pid: nat, subs: seq<Submission>, x: string)
    requires subs != []
    requires RowsAsExpected(t, u', pid, subs[..|subs| - 1], x)
    requires subs[|subs| - 1].kind !in KindsOf(subs[..|subs| - 1])
    requires var sub := subs[|subs| - 1];
      && Others(u, pid, sub.kind) == Others(u', pid, sub.kind)
      && MonthsNamed(u, pid, sub.kind, x) == Expected(u', pid, sub.kind, sub.names, sub.durations, x)
    ensures RowsAsExpected(t, u, pid, subs, x)
  {
    var p, sub := subs[..|subs| - 1], subs[|subs| - 1];
    assert KindsOf(subs) == KindsOf(p) + [sub.kind];
    OtherProjectsKept(u', u, pid, sub.kind);
    forall kind | kind !in KindsOf(subs)
      ensures MonthsNamed(u, pid, kind, x) == MonthsNamed(t, pid, kind, x)
    {
      OtherCategoriesKept(u', u, pid, sub.kind, kind, x);
    }
    forall k | 0 <= k < |subs|
      ensures MonthsNamed(u, pid, subs[k].kind, x) == Expected(t, pid, subs[k].kind, subs[k].names, subs[k].durations, x)
    {
      if k < |p| {
        assert subs[k] == p[k] && KindsOf(p)[k] == p[k].kind;
        OtherCategoriesKept(u', u, pid, sub.kind, subs[k].kind, x);
      } else {
        assert subs[k] == sub;
      }
    }
  }

  /** The last category of a completed loop, against the table the loop had staged before it. */
  lemma {:induction false} LastCategoryRows(t: seq<Technology>, pid: nat, subs: seq<Submission>, x: string)
    requires subs != [] && ReconcileAll(t, pid, subs).Staged?
    ensures ReconcileAll(t, pid, subs[..|subs| - 1]).Staged?
    ensures var u', u, sub := ReconcileAll(t, pid, subs[..|subs| - 1]).techs, ReconcileAll(t, pid, subs).techs, subs[|subs| - 1];
      && Others(u, pid, sub.kind) == Others(u', pid, sub.kind)
      && MonthsNamed(u, pid, sub.kind, x) == Expected(u', pid, sub.kind, sub.names, sub.durations, x)
  {
    var sub := subs[|subs| - 1];
    var u' := ReconcileAll(t, pid, subs[..|subs| - 1]).techs;
    assert !HasDuplicate(sub.names) && ReconcileCategory(u', pid, sub.kind, sub.names, sub.durations) == Some(ReconcileAll(t, pid, subs).techs);
    DistinctIffNoCollapse(sub.names);
    ReconcileCategoryRows(u', pid, sub.kind, sub.names, sub.durations, x);
  }

  /** A completed loop over distinct categories: each submitted category holds
      what reconciling it alone against the original table gives; unsubmitted
      categories and other projects keep their rows. */
  lemma {:induction false} ReconcileAllRows(t: seq<Technology>, pid: nat, subs: seq<Submission>, x: string)
    requires Distinct(KindsOf(subs))
    requires ReconcileAll(t, pid, subs).Staged?
    ensures RowsAsExpected(t, ReconcileAll(t, pid, subs).techs, pid, subs, x)
    decreases |subs|
  {
    if subs != [] {
      var p, sub := subs[..|subs| - 1], subs[|subs| - 1];
      assert Distinct(KindsOf(p)) && sub.kind !in KindsOf(p) by {
        assert KindsOf(p) == KindsOf(subs)[..|subs| - 1];
        DistinctSnoc(KindsOf(subs));
      }
      LastCategoryRows(t, pid, subs, x);
      ReconcileAllRows(t, pid, p, x);
      RowsAsExpectedStep(t, ReconcileAll(t, pid, p).techs, ReconcileAll(t, pid, subs).techs, pid, subs, x);
    }
  }

  /** The categories one after another, as the handlers' outer loop does it. */
  method ReconcileKinds(t: seq<Technology>, pid: nat, subs: seq<Submission>) returns (r: Staged)
    ensures r == ReconcileAll(t, pid, subs)
    ensures r.Staged? <==> forall k :: 0 <= k < |subs| ==> !Fails(subs[k])
  {
    ReconcileAllCompletes(t, pid, subs);
    var cur := t;
    var i := 0;
    while i < |subs|
      invariant i <= |subs|
      invariant ReconcileAll(t, pid, subs[..i]) == Staged(cur)
    {
      ReconcileAllSnoc(t, pid, subs, i);
      var sub := subs[i];
      if |sub.names| != |Elements(sub.names)| {
        ReconcileAllStops(t, pid, subs, i + 1);
        return DuplicateIn(sub.kind);
      }
      var next := ReconcileTechnologies(cur, pid, sub.kind, sub.names, sub.durations);
      if next.None? {
        ReconcileAllStops(t, pid, subs, i + 1);
        return Crashed;
      }
      cur := next.value;
      i := i + 1;
    }
    assert subs[..i] == subs;
    r := Staged(cur);
  }

  /** Once the loop has stopped, later categories do not change the outcome. */
  lemma {:induction false} ReconcileAllStops(t: seq<Technology>, pid: nat, subs: seq<Submission>, i: nat)
    requires i <= |subs|
    requires !ReconcileAll(t, pid, subs[..i]).Staged?
    ensures ReconcileAll(t, pid, subs) == ReconcileAll(t, pid, subs[..i])
    decreases |subs| - i
  {
    if i < |subs| {
      ReconcileAllSnoc(t, pid, subs, i);
      ReconcileAllStops(t, pid, subs, i + 1);
    } else {
      assert subs[..i] == subs;
    }
  }

  // ---- phase rows --------------------------------------------------------------

  /** `{process.name for process in existing_processes}`. */
  function ProcessNames(ps: seq<Process>, pid: nat): set<string> {
    set p | p in ps && p.projectId == pid :: p.name
  }

  /** How many of the project's phase rows are called `x`. */
  function CountNamed(ps: seq<Process>, pid: nat, x: string): nat
    decreases |ps|
  {
    if ps == [] then 0
    else
      var p := ps[|ps| - 1];
      CountNamed(ps[..|ps| - 1], pid, x) + (if p.projectId == pid && p.name == x then 1 else 0)
  }

  /** The phase rows of other projects, in table order. */
  function OtherProcesses(ps: seq<Process>, pid: nat): seq<Process>
    decreases |ps|
  {
    if ps == [] then []
    else
      var p := ps[|ps| - 1];
      OtherProcesses(ps[..|ps| - 1], pid) + (if p.projectId == pid then [] else [p])
  }

  lemma {:induction false} ProcessConcat(a: seq<Process>, b: seq<Process>, pid: nat, x: string)
    ensures CountNamed(a + b, pid, x) == CountNamed(a, pid, x) + CountNamed(b, pid, x)
    ensures OtherProcesses(a + b, pid) == OtherProcesses(a, pid) + OtherProcesses(b, pid)
    decreases |b|
  {
    if b == [] {
      assert a + b == a;
    } else {
      var b' := b[..|b| - 1];
      assert (a + b)[..|a + b| - 1] == a + b';
      ProcessConcat(a, b', pid, x);
    }
  }

  lemma {:induction false} ProcessSingle(p: Process, pid: nat, x: string)
    ensures CountNamed([p], pid, x) == if p.projectId == pid && p.name == x then 1 else 0
    ensures OtherProcesses([p], pid) == if p.projectId == pid then [] else [p]
  {
    assert [p][..0] == [];
  }

  /** A phase is among the existing names exactly when some row carries it. */
  lemma {:induction false} ProcessNamesIffCount(ps: seq<Process>, pid: nat, x: string)
    ensures x in ProcessNames(ps, pid) <==> CountNamed(ps, pid, x) > 0
    decreases |ps|
  {
    if ps != [] {
      var q, p := ps[..|ps| - 1], ps[|ps| - 1];
      ProcessNamesIffCount(q, pid, x);
      assert ps == q + [p];
      assert ProcessNames(ps, pid) == ProcessNames(q, pid) + (if p.projectId == pid then {p.name} else {});
    }
  }

  // ---- edit_project: add the new selections, delete the deselected ----------

  /** `for process_name in selected_processes: if process_name not in
      existing_process_names: add` (a name selected twice is added twice). */
  function AddSelected(ps: seq<Process>, pid: nat, existing: set<string>, selected: seq<string>): seq<Process>
    decreases |selected|
  {
    if selected == [] then ps
    else
      var n := selected[|selected| - 1];
      AddSelected(ps, pid, existing, selected[..|selected| - 1]) + (if n in existing then [] else [Process(pid, n)])
  }

  /** `for process in existing_processes: if process.name not in selected_processes: delete`. */
  function DropDeselected(ps: seq<Process>, pid: nat, selected: seq<string>): seq<Process>
    decreases |ps|
  {
    if ps == [] then []
    else
      var p := ps[|ps| - 1];
      DropDeselected(ps[..|ps| - 1], pid, selected) + (if p.projectId == pid && p.name !in selected then [] else [p])
  }

  /** The phase rows after the user's edit handler. The rows it adds all carry
      selected names, so deleting from the whole table is deleting from the snapshot. */
  function EditProcesses(ps: seq<Process>, pid: nat, selected: seq<string>): seq<Process> {
    DropDeselected(AddSelected(ps, pid, ProcessNames(ps, pid), selected), pid, selected)
  }

  lemma {:induction false} AddSelectedEffect(ps: seq<Process>, pid: nat, existing: set<string>, selected: seq<string>, x: string)
    ensures CountNamed(AddSelected(ps, pid, existing, selected), pid, x) ==
      CountNamed(ps, pid, x) + (if x in existing then 0 else Occurrences(selected, x))
    ensures OtherProcesses(AddSelected(ps, pid, existing, selected), pid) == OtherProcesses(ps, pid)
    decreases |selected|
  {
    if selected != [] {
      var n := selected[|selected| - 1];
      var a := AddSelected(ps, pid, existing, selected[..|selected| - 1]);
      AddSelectedEffect(ps, pid, existing, selected[..|selected| - 1], x);
      var tail := if n in existing then [] else [Process(pid, n)];
      ProcessConcat(a, tail, pid, x);
      if n !in existing {
        ProcessSingle(Process(pid, n), pid, x);
      }
    }
  }

  lemma {:induction false} DropDeselectedEffect(ps: seq<Process>, pid: nat, selected: seq<string>, x: string)
    ensures CountNamed(DropDeselected(ps, pid, selected), pid, x) == if x in selected then CountNamed(ps, pid, x) else 0
    ensures OtherProcesses(DropDeselected(ps, pid, selected), pid) == OtherProcesses(ps, pid)
    decreases |ps|
  {
    if ps != [] {
      var q, p := ps[..|ps| - 1], ps[|ps| - 1];
      DropDeselectedEffect(q, pid, selected, x);
      var d := DropDeselected(q, pid, selected);
      var tail := if p.projectId == pid && p.name !in selected then [] else [p];
      ProcessConcat(d, tail, pid, x);
      if tail == [p] {
        ProcessSingle(p, pid, x);
      }
    }
  }

  /** After the user's edit: a deselected phase has no rows; a selected phase
      keeps its rows if it had any, and otherwise gets one row per time it was
      selected; other projects' rows are untouched. */
  lemma {:induction false} EditProcessCounts(ps: seq<Process>, pid: nat, selected: seq<string>, x: string)
    ensures var c := CountNamed(ps, pid, x);
      CountNamed(EditProcesses(ps, pid, selected), pid, x) ==
        if x !in selected then 0 else if c > 0 then c else Occurrences(selected, x)
    ensures OtherProcesses(EditProcesses(ps, pid, selected), pid) == OtherProcesses(ps, pid)
  {
    var existing := ProcessNames(ps, pid);
    AddSelectedEffect(ps, pid, existing, selected, x);
    DropDeselectedEffect(AddSelected(ps, pid, existing, selected), pid, selected, x);
    ProcessNamesIffCount(ps, pid, x);
  }

  lemma {:induction false} OccursIfIn(s: seq<string>, x: string)
    ensures x in s <==> Occurrences(s, x) > 0
    decreases |s|
  {
    if s != [] {
      var p := s[..|s| - 1];
      OccursIfIn(p, x);
      assert s == p + [s[|s| - 1]];
    }
  }

  /** So the phases the project has afterwards are exactly the selected ones. */
  lemma {:induction false} EditProcessesMatchSelection(ps: seq<Process>, pid: nat, selected: seq<string>, x: string)
    ensures x in ProcessNames(EditProcesses(ps, pid, selected), pid) <==> x in selected
  {
    EditProcessCounts(ps, pid, selected, x);
    ProcessNamesIffCount(EditProcesses(ps, pid, selected), pid, x);
    OccursIfIn(selected, x);
  }

  lemma {:induction false} AddSelectedSnoc(ps: seq<Process>, pid: nat, existing: set<string>, selected: seq<string>, i: nat)
    requires i < |selected|
    ensures AddSelected(ps, pid, existing, selected[..i + 1]) ==
      AddSelected(ps, pid, existing, selected[..i]) + (if selected[i] in existing then [] else [Process(pid, selected[i])])
  {
    assert selected[..i + 1][..i] == selected[..i];
  }

  lemma {:induction false} DropDeselectedSnoc(ps: seq<Process>, pid: nat, selected: seq<string>, j: nat)
    requires j < |ps|
    ensures DropDeselected(ps[..j + 1], pid, selected) ==
      DropDeselected(ps[..j], pid, selected) + (if ps[j].projectId == pid && ps[j].name !in selected then [] else [ps[j]])
  {
    assert ps[..j + 1][..j] == ps[..j];
  }

  /** The user's edit handler's two phase loops. */
  method ReconcileProcesses(ps: seq<Process>, pid: nat, selected: seq<string>) returns (r: seq<Process>)
    ensures r == EditProcesses(ps, pid, selected)
    ensures forall x :: x in ProcessNames(r, pid) <==> x in selected
  {
    var existing := ProcessNames(ps, pid);
    var cur := ps;
    var i := 0;
    while i < |selected|
      invariant i <= |selected|
      invariant cur == AddSelected(ps, pid, existing, selected[..i])
    {
      AddSelectedSnoc(ps, pid, existing, selected, i);
      if selected[i] !in existing {
        cur := cur + [Process(pid, selected[i])];
      }
      i := i + 1;
    }
    assert selected[..i] == selected;
    r := [];
    var j := 0;
    while j < |cur|
      invariant j <= |cur|
      invariant r == DropDeselected(cur[..j], pid, selected)
    {
      DropDeselectedSnoc(cur, pid, selected, j);
      if !(cur[j].projectId == pid && cur[j].name !in selected) {
        r := r + [cur[j]];
      }
      j := j + 1;
    }
    assert cur[..j] == cur;
    forall x
      ensures x in ProcessNames(r, pid) <==> x in selected
    {
      EditProcessesMatchSelection(ps, pid, selected, x);
    }
  }

  // ---- admin_project_detail: walk the fixed phase list ---------------------

  /** The position of the project's first phase row called `x`; |ps| if none. */
  function FirstProcess(ps: seq<Process>, pid: nat, x: string): (k: nat)
    ensures k <= |ps|
    ensures k < |ps| ==> ps[k].projectId == pid && ps[k].name == x
    ensures forall j :: 0 <= j < k ==> !(ps[j].projectId == pid && ps[j].name == x)
    decreases |ps|
  {
    if ps == [] then 0
    else
      var k := FirstProcess(ps[..|ps| - 1], pid, x);
      if k < |ps| - 1 || (ps[|ps| - 1].projectId == pid && ps[|ps| - 1].name == x) then k else |ps|
  }

  /** `db.session.delete(next(p for p in existing_processes if p.name == x))`. */
  function RemoveFirst(ps: seq<Process>, pid: nat, x: string): seq<Process> {
    var k := FirstProcess(ps, pid, x);
    if k == |ps| then ps else ps[..k] + ps[k + 1..]
  }

  /** One phase of the administrator's loop: a selected phase missing from the
      snapshot gains a row; an unselected phase present in it loses its first row. */
  function AdminPhaseStep(ps: seq<Process>, pid: nat, existing: set<string>, selected: seq<string>, phase: string): seq<Process> {
    if phase in selected then
      if phase !in existing then ps + [Process(pid, phase)] else ps
    else if phase in existing then RemoveFirst(ps, pid, phase)
    else ps
  }

  function AdminPhases(ps: seq<Process>, pid: nat, existing: set<string>, selected: seq<string>, phases: seq<string>): seq<Process>
    decreases |phases|
  {
    if phases == [] then ps
    else AdminPhaseStep(AdminPhases(ps, pid, existing, selected, phases[..|phases| - 1]), pid, existing, selected, phases[|phases| - 1])
  }

  /** The phase rows after the administrator's edit handler. */
  function AdminProcesses(ps: seq<Process>, pid: nat, selected: seq<string>): seq<Process> {
    AdminPhases(ps, pid, ProcessNames(ps, pid), selected, Phases)
  }

  lemma {:induction false} RemoveFirstEffect(ps: seq<Process>, pid: nat, n: string, x: string)
    ensures var c := CountNamed(ps, pid, x);
      CountNamed(RemoveFirst(ps, pid, n), pid, x) == if x == n && c > 0 then c - 1 else c
    ensures OtherProcesses(RemoveFirst(ps, pid, n), pid) == OtherProcesses(ps, pid)
  {
    var k := FirstProcess(ps, pid, n);
    if k < |ps| {
      var a, p, b := ps[..k], ps[k], ps[k + 1..];
      assert CountNamed(ps, pid, x) == CountNamed(a, pid, x) + CountNamed([p], pid, x) + CountNamed(b, pid, x)
          && OtherProcesses(ps, pid) == OtherProcesses(a, pid) + OtherProcesses([p], pid) + OtherProcesses(b, pid) by {
        assert ps == a + [p] + b;
        ProcessConcat(a + [p], b, pid, x);
        ProcessConcat(a, [p], pid, x);
      }
      ProcessConcat(a, b, pid, x);
      ProcessSingle(p, pid, x);
    } else if x == n {
      NoProcessNamed(ps, pid, n);
    }
  }

  lemma {:induction false} NoProcessNamed(ps: seq<Process>, pid: nat, x: string)
    requires forall j :: 0 <= j < |ps| ==> !(ps[j].projectId == pid && ps[j].name == x)
    ensures CountNamed(ps, pid, x) == 0
    decreases |ps|
  {
    if ps != [] {
      NoProcessNamed(ps[..|ps| - 1], pid, x);
    }
  }

  lemma {:induction false} AdminPhaseStepEffect(ps: seq<Process>, pid: nat, existing: set<string>, selected: seq<string>, phase: string, x: string)
    ensures var c := CountNamed(ps, pid, x);
      CountNamed(AdminPhaseStep(ps, pid, existing, selected, phase), pid, x) ==
        if x != phase then c
        else if phase in selected then (if phase !in existing then c + 1 else c)
        else if phase in existing && c > 0 then c - 1
        else c
    ensures OtherProcesses(AdminPhaseStep(ps, pid, existing, selected, phase), pid) == OtherProcesses(ps, pid)
  {
    if phase in selected && phase !in existing {
      ProcessConcat(ps, [Process(pid, phase)], pid, x);
      ProcessSingle(Process(pid, phase), pid, x);
    } else if phase !in selected && phase in existing {
      RemoveFirstEffect(ps, pid, phase, x);
    }
  }

  /** The administrator's loop over distinct phases, phase by phase: a phase
      outside the list keeps its rows; a selected phase keeps its rows or gets
      one; an unselected phase loses one row if it had any. */
  lemma {:induction false} AdminPhasesEffect(ps: seq<Process>, pid: nat, selected: seq<string>, phases: seq<string>, x: string)
    requires Distinct(phases)
    ensures var c := CountNamed(ps, pid, x);
      CountNamed(AdminPhases(ps, pid, ProcessNames(ps, pid), selected, phases), pid, x) ==
        if x !in phases then c
        else if x in selected then (if c == 0 then 1 else c)
        else if c == 0 then 0 else c - 1
    ensures OtherProcesses(AdminPhases(ps, pid, ProcessNames(ps, pid), selected, phases), pid) == OtherProcesses(ps, pid)
    decreases |phases|
  {
    if phases != [] {
      var existing := ProcessNames(ps, pid);
      var p, phase := phases[..|phases| - 1], phases[|phases| - 1];
      DistinctSnoc(phases);
      AdminPhasesEffect(ps, pid, selected, p, x);
      ProcessNamesIffCount(ps, pid, x);
      AdminPhaseStepEffect(AdminPhases(ps, pid, existing, selected, p), pid, existing, selected, phase, x);
      assert x in phases <==> x in p || x == phase;
    }
  }

  /** Over the eight phases of the sheet. */
  lemma {:induction false} AdminProcessCounts(ps: seq<Process>, pid: nat, selected: seq<string>, x: string)
    ensures var c := CountNamed(ps, pid, x);
      CountNamed(AdminProcesses(ps, pid, selected), pid, x) ==
        if x !in Phases then c
        else if x in selected then (if c == 0 then 1 else c)
        else if c == 0 then 0 else c - 1
    ensures OtherProcesses(AdminProcesses(ps, pid, selected), pid) == OtherProcesses(ps, pid)
  {
    PhasesDistinct();
    AdminPhasesEffect(ps, pid, selected, Phases, x);
  }

  /** Where the project holds each phase at most once, the administrator's
      edit leaves exactly the selected phases, each at most once. */
  lemma {:induction false} AdminProcessesMatchSelection(ps: seq<Process>, pid: nat, selected: seq<string>, x: string)
    requires x in Phases
    requires CountNamed(ps, pid, x) <= 1
    ensures CountNamed(AdminProcesses(ps, pid, selected), pid, x) <= 1
    ensures x in ProcessNames(AdminProcesses(ps, pid, selected), pid) <==> x in selected
  {
    AdminProcessCounts(ps, pid, selected, x);
    ProcessNamesIffCount(AdminProcesses(ps, pid, selected), pid, x);
  }

  /** Without that condition it fails: a project holding the implementation
      phase twice keeps one of those rows although nothing is selected. */
  lemma {:induction false} AdminKeepsSecondRow()
    ensures var ps := [Process(1, "実装"), Process(1, "実装")];
      "実装" in ProcessNames(AdminProcesses(ps, 1, []), 1)
  {
    var ps := [Process(1, "実装"), Process(1, "実装")];
    assert CountNamed(ps, 1, "実装") == 2 by {
      assert ps[..1] == [Process(1, "実装")];
      assert ps[..1][..0] == [];
    }
    AdminProcessCounts(ps, 1, [], "実装");
    assert "実装" in Phases;
    ProcessNamesIffCount(AdminProcesses(ps, 1, []), 1, "実装");
  }

  lemma {:induction false} AdminPhasesSnoc(ps: seq<Process>, pid: nat, existing: set<string>, selected: seq<string>, phases: seq<string>, i: nat)
    requires i < |phases|
    ensures AdminPhases(ps, pid, existing, selected, phases[..i + 1]) ==
      AdminPhaseStep(AdminPhases(ps, pid, existing, selected, phases[..i]), pid, existing, selected, phases[i])
  {
    assert phases[..i + 1][..i] == phases[..i];
  }

  method FindFirstProcess(ps: seq<Process>, pid: nat, x: string) returns (k: nat)
    ensures k <= |ps|
    ensures k < |ps| ==> ps[k].projectId == pid && ps[k].name == x
    ensures forall j :: 0 <= j < k ==> !(ps[j].projectId == pid && ps[j].name == x)
    ensures k == FirstProcess(ps, pid, x)
  {
    k := 0;
    while k < |ps| && !(ps[k].projectId == pid && ps[k].name == x)
      invariant k <= |ps|
      invariant forall j :: 0 <= j < k ==> !(ps[j].projectId == pid && ps[j].name == x)
    {
      k := k + 1;
    }
  }

  /** The administrator's handler's phase loop. */
  method AdminReconcileProcesses(ps: seq<Process>, pid: nat, selected: seq<string>) returns (r: seq<Process>)
    ensures r == AdminProcesses(ps, pid, selected)
  {
    var existing := ProcessNames(ps, pid);
    r := ps;
    var i := 0;
    while i < |Phases|
      invariant i <= |Phases|
      invariant r == AdminPhases(ps, pid, existing, selected, Phases[..i])
    {
      AdminPhasesSnoc(ps, pid, existing, selected, Phases, i);
      var phase := Phases[i];
      if phase in selected {
        if phase !in existing {
          r := r + [Process(pid, phase)];
        }
      } else if phase in existing {
        var k := FindFirstProcess(r, pid, phase);
        if k < |r| {
          r := r[..k] + r[k + 1..];
        }
      }
      i := i + 1;
    }
    assert Phases[..i] == Phases;
  }
}
