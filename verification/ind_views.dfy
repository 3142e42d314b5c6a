/** The personal-project handler `individual_input` (`ind_views.py`): the
    development is committed first, then one technology row per walked entry
    with a non-blank name and a positive digit-string duration (a missing
    duration reads as "0"), and one phase row per non-blank selected phase.
    Unlike the project handlers there is no duplicate check. */
module IndViews {
  import opened Common
  import opened Tables
  import opened FormFields

  /** The technology row of a kept entry. */
  function IndRow(did: nat, kind: string, e: Entry): IndividualTechnology
    requires Kept(e, true)
  {
    IndividualTechnology(did, kind, e.name, DigitsValue(OrZero(e.duration)))
  }

  function IndRowsFor(did: nat, kind: string, es: seq<Entry>): seq<IndividualTechnology>
    requires forall k :: 0 <= k < |es| ==> Kept(es[k], true)
    decreases |es|
  {
    if es == [] then []
    else IndRowsFor(did, kind, es[..|es| - 1]) + [IndRow(did, kind, es[|es| - 1])]
  }

  /** One row per kept entry, in walk order, repeats included. */
  lemma {:induction false} IndRowsForAt(did: nat, kind: string, es: seq<Entry>)
    requires forall k :: 0 <= k < |es| ==> Kept(es[k], true)
    ensures |IndRowsFor(did, kind, es)| == |es|
    ensures forall k :: 0 <= k < |es| ==> IndRowsFor(did, kind, es)[k] == IndRow(did, kind, es[k])
    decreases |es|
  {
    if es != [] {
      IndRowsForAt(did, kind, es[..|es| - 1]);
    }
  }

  /** `for tech_type in tech_types: while f'{tech_type}_{index}' in request.form: ...`. */
  function IndTechRows(did: nat, fields: map<string, string>, kinds: seq<string>): seq<IndividualTechnology>
    decreases |kinds|
  {
    if kinds == [] then []
    else
      var kind := kinds[|kinds| - 1];
      IndTechRows(did, fields, kinds[..|kinds| - 1]) + IndRowsFor(did, kind, KeptIn(fields, kind, true))
  }

  lemma {:induction false} IndRowsSnoc(did: nat, kind: string, es: seq<Entry>, e: Entry)
    requires forall k :: 0 <= k < |es| ==> Kept(es[k], true)
    requires Kept(e, true)
    ensures IndRowsFor(did, kind, es + [e]) == IndRowsFor(did, kind, es) + [IndRow(did, kind, e)]
  {
    assert (es + [e])[..|es|] == es;
  }

  lemma {:induction false} IndKeptStep(did: nat, kind: string, es: seq<Entry>, i: nat)
    requires i < |es|
    ensures IndRowsFor(did, kind, KeptEntries(es[..i + 1], true)) ==
      IndRowsFor(did, kind, KeptEntries(es[..i], true)) + (if Kept(es[i], true) then [IndRow(did, kind, es[i])] else [])
  {
    var a := KeptEntries(es[..i], true);
    KeptSnoc(es, i, true);
    if Kept(es[i], true) {
      IndRowsSnoc(did, kind, a, es[i]);
    } else {
      assert KeptEntries(es[..i + 1], true) == a + [] == a;
    }
  }

  /** A row of one category comes from one of its kept entries. */
  lemma {:induction false} IndRowsForOrigin(did: nat, kind: string, es: seq<Entry>, t: IndividualTechnology)
    returns (e: Entry)
    requires forall k :: 0 <= k < |es| ==> Kept(es[k], true)
    requires t in IndRowsFor(did, kind, es)
    ensures e in es && Kept(e, true) && t == IndRow(did, kind, e)
  {
    var rows := IndRowsFor(did, kind, es);
    IndRowsForAt(did, kind, es);
    var k :| 0 <= k < |rows| && rows[k] == t;
    e := es[k];
  }

  /** One category's rows are exactly its kept entries' rows. */
  lemma {:induction false} IndRowsForMembers(did: nat, kind: string, es: seq<Entry>, t: IndividualTechnology)
    requires forall k :: 0 <= k < |es| ==> Kept(es[k], true)
    ensures t in IndRowsFor(did, kind, es) <==> exists e :: e in es && Kept(e, true) && t == IndRow(did, kind, e)
  {
    var rows := IndRowsFor(did, kind, es);
    if t in rows {
      var e := IndRowsForOrigin(did, kind, es, t);
    }
    IndRowsForAt(did, kind, es);
    if e :| e in es && Kept(e, true) && t == IndRow(did, kind, e) {
      var k :| 0 <= k < |es| && es[k] == e;
      assert rows[k] == t;
    }
  }

  /** Every stored row is the row of a kept entry of a listed category. */
  lemma {:induction false} IndTechRowOrigin(did: nat, fields: map<string, string>, kinds: seq<string>, t: IndividualTechnology)
    returns (kind: string, e: Entry)
    requires t in IndTechRows(did, fields, kinds)
    ensures kind in kinds && e in KeptIn(fields, kind, true) && Kept(e, true) && t == IndRow(did, kind, e)
    decreases |kinds|
  {
    var ks, k := kinds[..|kinds| - 1], kinds[|kinds| - 1];
    assert kinds == ks + [k];
    if t in IndTechRows(did, fields, ks) {
      kind, e := IndTechRowOrigin(did, fields, ks, t);
    } else {
      kind := k;
      e := IndRowsForOrigin(did, k, KeptIn(fields, k, true), t);
    }
  }

  /** Every kept entry of a listed category is stored. */
  lemma {:induction false} IndTechRowPresent(did: nat, fields: map<string, string>, kinds: seq<string>, kind: string, e: Entry)
    requires kind in kinds && e in KeptIn(fields, kind, true)
    ensures Kept(e, true) && IndRow(did, kind, e) in IndTechRows(did, fields, kinds)
    decreases |kinds|
  {
    var ks, k := kinds[..|kinds| - 1], kinds[|kinds| - 1];
    assert kinds == ks + [k];
    if kind == k {
      IndRowsForMembers(did, k, KeptIn(fields, k, true), IndRow(did, kind, e));
    } else {
      IndTechRowPresent(did, fields, ks, kind, e);
    }
  }

  /** The stored rows are exactly the kept entries of the listed categories. */
  lemma {:induction false} IndTechRowsMembers(did: nat, fields: map<string, string>, kinds: seq<string>, t: IndividualTechnology)
    ensures t in IndTechRows(did, fields, kinds) <==>
      exists kind, e :: kind in kinds && e in KeptIn(fields, kind, true) && Kept(e, true) && t == IndRow(did, kind, e)
  {
    if t in IndTechRows(did, fields, kinds) {
      var kind, e := IndTechRowOrigin(did, fields, kinds, t);
    }
    if exists kind, e :: kind in kinds && e in KeptIn(fields, kind, true) && Kept(e, true) && t == IndRow(did, kind, e) {
      var kind, e :| kind in kinds && e in KeptIn(fields, kind, true) && Kept(e, true) && t == IndRow(did, kind, e);
      IndTechRowPresent(did, fields, kinds, kind, e);
    }
  }

  /** So every stored row has a non-blank name and a positive duration. */
  lemma {:induction false} IndRowsPositive(did: nat, fields: map<string, string>, kinds: seq<string>, t: IndividualTechnology)
    requires t in IndTechRows(did, fields, kinds)
    ensures t.developmentId == did && t.kind in kinds && t.name != "" && t.months > 0
  {
    var kind, e := IndTechRowOrigin(did, fields, kinds, t);
  }

  /** `for process_name in processes: if process_name: add`. */
  function IndProcessRows(did: nat, names: seq<string>): (r: seq<IndividualProcess>)
    ensures forall q :: q in r <==> q.developmentId == did && q.name != "" && q.name in names
    decreases |names|
  {
    if names == [] then []
    else
      var n := names[|names| - 1];
      assert forall m :: m in names <==> m in names[..|names| - 1] || m == n by {
        assert names == names[..|names| - 1] + [n];
      }
      IndProcessRows(did, names[..|names| - 1]) + (if n != "" then [IndividualProcess(did, n)] else [])
  }

  /** Rows follow the order of the submitted list: the rows of a concatenation
      are the rows of each part. */
  lemma {:induction false} IndProcessRowsAppend(did: nat, a: seq<string>, b: seq<string>)
    ensures IndProcessRows(did, a + b) == IndProcessRows(did, a) + IndProcessRows(did, b)
    decreases |b|
  {
    if b == [] {
      assert a + b == a;
    } else {
      var b' := b[..|b| - 1];
      assert (a + b)[..|a + b| - 1] == a + b';
      IndProcessRowsAppend(did, a, b');
    }
  }

  /** How many of the rows carry phase `x`. */
  function PhaseCount(r: seq<IndividualProcess>, x: string): nat
    decreases |r|
  {
    if r == [] then 0
    else PhaseCount(r[..|r| - 1], x) + (if r[|r| - 1].name == x then 1 else 0)
  }

  /** A non-blank phase is stored once per time it was selected; a blank one never. */
  lemma {:induction false} IndProcessCounts(did: nat, names: seq<string>, x: string)
    ensures PhaseCount(IndProcessRows(did, names), x) == if x == "" then 0 else Occurrences(names, x)
    decreases |names|
  {
    if names != [] {
      var p, n := names[..|names| - 1], names[|names| - 1];
      IndProcessCounts(did, p, x);
      var a := IndProcessRows(did, p);
      var tail := if n != "" then [IndividualProcess(did, n)] else [];
      var r := a + tail;
      if tail != [] {
        assert r[..|r| - 1] == a;
      } else {
        assert r == a;
      }
    }
  }

  /** The walk of one category, adding a row for each kept entry. */
  method IndCategoryRows(did: nat, fields: map<string, string>, kind: string) returns (rows: seq<IndividualTechnology>)
    ensures rows == IndRowsFor(did, kind, KeptIn(fields, kind, true))
  {
    var es := ReadWalk(fields, kind);
    rows := IndKeptRows(did, kind, es);
  }

  /** The body of the walk: a row for each entry that passes the test. */
  method IndKeptRows(did: nat, kind: string, es: seq<Entry>) returns (rows: seq<IndividualTechnology>)
    ensures rows == IndRowsFor(did, kind, KeptEntries(es, true))
  {
    rows := [];
    var i := 0;
    while i < |es|
      invariant i <= |es|
      invariant rows == IndRowsFor(did, kind, KeptEntries(es[..i], true))
    {
      IndKeptStep(did, kind, es, i);
      if Kept(es[i], true) {
        rows := rows + [IndRow(did, kind, es[i])];
      }
      i := i + 1;
    }
    assert es[..i] == es;
  }

  method IndTechnologies(did: nat, fields: map<string, string>, kinds: seq<string>) returns (rows: seq<IndividualTechnology>)
    ensures rows == IndTechRows(did, fields, kinds)
  {
    rows := [];
    var i := 0;
    while i < |kinds|
      invariant i <= |kinds|
      invariant rows == IndTechRows(did, fields, kinds[..i])
    {
      assert kinds[..i + 1][..i] == kinds[..i];
      var more := IndCategoryRows(did, fields, kinds[i]);
      rows := rows + more;
      i := i + 1;
    }
    assert kinds[..i] == kinds;
  }

  method IndPhases(did: nat, names: seq<string>) returns (rows: seq<IndividualProcess>)
    ensures rows == IndProcessRows(did, names)
  {
    rows := [];
    var i := 0;
    while i < |names|
      invariant i <= |names|
      invariant rows == IndProcessRows(did, names[..i])
    {
      assert names[..i + 1][..i] == names[..i];
      if names[i] != "" {
        rows := rows + [IndividualProcess(did, names[i])];
      }
      i := i + 1;
    }
    assert names[..i] == names;
  }

  /** The development row: every column read with `request.form.get`. */
  function DevelopmentOf(did: nat, uid: nat, fields: map<string, string>): IndividualDevelopment {
    IndividualDevelopment(did, uid, Lookup(fields, "start_month"), Lookup(fields, "end_month"),
                          Lookup(fields, "development_name"), Lookup(fields, "development_summary"))
  }

  /** `individual_input` over the category list `kinds`: it always stores the
      new development under the next key, then its rows. */
  method IndividualInputOver(db: Store, uid: nat, form: Form, kinds: seq<string>) returns (resp: Response)
    requires db.Valid()
    modifies db
    ensures db.Valid()
    ensures resp == Saved
    ensures var did := old(db.nextDevelopmentId);
      && db.developments == old(db.developments) + [DevelopmentOf(did, uid, form.fields)]
      && db.nextDevelopmentId == did + 1
      && db.indTechnologies == old(db.indTechnologies) + IndTechRows(did, form.fields, kinds)
      && db.indProcesses == old(db.indProcesses) + IndProcessRows(did, form.processes)
    ensures unchanged(db`users, db`projects, db`technologies, db`processes, db`links, db`nextProjectId)
  {
    var did := db.nextDevelopmentId;
    var dev := DevelopmentOf(did, uid, form.fields);
    DevelopmentKeysAppend(db.developments, did, dev);
    db.developments := db.developments + [dev];
    db.nextDevelopmentId := did + 1;
    var techs := IndTechnologies(did, form.fields, kinds);
    var phases := IndPhases(did, form.processes);
    db.indTechnologies := db.indTechnologies + techs;
    db.indProcesses := db.indProcesses + phases;
    resp := Saved;
  }

  /** `individual_input`, over the eight technology categories. */
  method IndividualInput(db: Store, uid: nat, form: Form) returns (resp: Response)
    requires db.Valid()
    modifies db
    ensures db.Valid()
    ensures resp == Saved
    ensures var did := old(db.nextDevelopmentId);
      && db.developments == old(db.developments) + [DevelopmentOf(did, uid, form.fields)]
      && db.nextDevelopmentId == did + 1
      && db.indTechnologies == old(db.indTechnologies) + IndTechRows(did, form.fields, TechTypes)
      && db.indProcesses == old(db.indProcesses) + IndProcessRows(did, form.processes)
    ensures unchanged(db`users, db`projects, db`technologies, db`processes, db`links, db`nextProjectId)
  {
    resp := IndividualInputOver(db, uid, form, TechTypes);
  }
}
