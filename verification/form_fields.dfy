/** How the handlers read the indexed technology fields of a form. Two shapes
    occur in the source: a contiguous walk (`while f'{kind}_{index}' in
    request.form: ... index += 1`) that stops at the first missing index, and a
    bounded scan (`[... for i in range(len(request.form)) if key in
    request.form]`) that skips gaps but never looks past `len(request.form)`. */
module FormFields {
  import opened Common

  /** One visited index: the name field and, if present, its `_num` field. */
  datatype Entry = Entry(name: string, duration: Option<string>)

  // ---- contiguous walk -------------------------------------------------------

  ghost function KeysBelow(kind: string, i: nat): set<string> {
    set j | 0 <= j < i :: FieldKey(kind, j)
  }

  lemma {:induction false} KeysBelowStep(fields: map<string, string>, kind: string, i: nat)
    requires FieldKey(kind, i) in fields
    ensures |fields.Keys - KeysBelow(kind, i + 1)| == |fields.Keys - KeysBelow(kind, i)| - 1
  {
    var k := FieldKey(kind, i);
    assert KeysBelow(kind, i + 1) == KeysBelow(kind, i) + {k};
    assert k !in KeysBelow(kind, i) by {
      if k in KeysBelow(kind, i) {
        var j :| 0 <= j < i && FieldKey(kind, j) == k;
        FieldKeyInjective(kind, i, j);
      }
    }
    assert fields.Keys - KeysBelow(kind, i + 1) == (fields.Keys - KeysBelow(kind, i)) - {k};
  }

  /** The walk continued from index `i`, all of whose predecessors are present. */
  function WalkFrom(fields: map<string, string>, kind: string, i: nat): (n: nat)
    requires forall j :: 0 <= j < i ==> FieldKey(kind, j) in fields
    requires i + |fields.Keys - KeysBelow(kind, i)| == |fields.Keys|
    ensures i <= n <= |fields.Keys|
    ensures forall j :: 0 <= j < n ==> FieldKey(kind, j) in fields
    ensures FieldKey(kind, n) !in fields
    decreases |fields.Keys - KeysBelow(kind, i)|
  {
    if FieldKey(kind, i) !in fields then i
    else
      assert i + 1 + |fields.Keys - KeysBelow(kind, i + 1)| == |fields.Keys| by {
        KeysBelowStep(fields, kind, i);
      }
      WalkFrom(fields, kind, i + 1)
  }

  /** Where the contiguous walk stops: every index below it is present, it is
      the first missing one, and it never exceeds the number of form keys. */
  function WalkCount(fields: map<string, string>, kind: string): (n: nat)
    ensures n <= |fields.Keys|
    ensures forall j :: 0 <= j < n ==> FieldKey(kind, j) in fields
    ensures FieldKey(kind, n) !in fields
  {
    assert KeysBelow(kind, 0) == {};
    WalkFrom(fields, kind, 0)
  }

  /** Any index at which a contiguous run of present keys ends is where the
      walk stops. */
  lemma {:induction false} WalkCountUnique(fields: map<string, string>, kind: string, n: nat)
    requires forall j :: 0 <= j < n ==> FieldKey(kind, j) in fields
    requires FieldKey(kind, n) !in fields
    ensures n == WalkCount(fields, kind)
  {
  }

  /** The entry at index `j`: the name and, if present, its `_num` field. */
  function EntryAt(fields: map<string, string>, kind: string, j: nat): Entry
    requires FieldKey(kind, j) in fields
  {
    Entry(fields[FieldKey(kind, j)], Lookup(fields, NumKey(kind, j)))
  }

  /** The entries the walk visits, index 0 upward. */
  function WalkEntries(fields: map<string, string>, kind: string): (r: seq<Entry>)
    ensures |r| == WalkCount(fields, kind)
  {
    var n := WalkCount(fields, kind);
    seq(n, j requires 0 <= j < n => EntryAt(fields, kind, j))
  }

  // ---- per-entry tests -------------------------------------------------------

  /** `duration.isdigit() and int(duration) > 0`. */
  predicate PositiveDigits(d: string) {
    IsDigits(d) && DigitsValue(d) > 0
  }

  /** `request.form.get(f'{kind}_{i}_num', '0')`. */
  function OrZero(d: Option<string>): string {
    if d.Some? then d.value else "0"
  }

  /** Whether an entry is kept: a non-empty name (`if tech_name`) and, where
      `checkDuration`, a positive digit-string duration, the missing one read
      as "0" (`tech_duration.isdigit() and int(tech_duration) > 0`). */
  predicate Kept(e: Entry, checkDuration: bool) {
    e.name != "" && (checkDuration ==> PositiveDigits(OrZero(e.duration)))
  }

  /** The kept entries, in order: exactly the visited entries that pass. */
  function KeptEntries(es: seq<Entry>, checkDuration: bool): (r: seq<Entry>)
    ensures forall k :: 0 <= k < |r| ==> Kept(r[k], checkDuration)
    ensures forall e :: e in r <==> e in es && Kept(e, checkDuration)
    ensures |r| <= |es|
    decreases |es|
  {
    if es == [] then []
    else
      var p, e := es[..|es| - 1], es[|es| - 1];
      assert es == p + [e];
      KeptEntries(p, checkDuration) + (if Kept(e, checkDuration) then [e] else [])
  }

  /** The kept entries of a longer prefix: one more entry, kept or not. */
  lemma {:induction false} KeptSnoc(es: seq<Entry>, i: nat, checkDuration: bool)
    requires i < |es|
    ensures KeptEntries(es[..i + 1], checkDuration) ==
      KeptEntries(es[..i], checkDuration) + (if Kept(es[i], checkDuration) then [es[i]] else [])
  {
    assert es[..i + 1][..i] == es[..i];
  }

  function EntryNames(es: seq<Entry>): seq<string> {
    seq(|es|, k requires 0 <= k < |es| => es[k].name)
  }

  function EntryDurations(es: seq<Entry>): seq<Option<string>> {
    seq(|es|, k requires 0 <= k < |es| => es[k].duration)
  }

  lemma {:induction false} EntryNamesAppend(a: seq<Entry>, b: seq<Entry>)
    ensures EntryNames(a + b) == EntryNames(a) + EntryNames(b)
  {
    assert forall k :: 0 <= k < |a| ==> (a + b)[k] == a[k];
    assert forall k :: |a| <= k < |a + b| ==> (a + b)[k] == b[k - |a|];
  }

  /** The walk loop of the `input` handlers with `tech_data[tech_type]` as a
      dictionary: a kept entry whose name is already a key stops the handler
      (None); otherwise the kept entries accumulate in order. */
  function Collect(es: seq<Entry>, checkDuration: bool): Option<seq<Entry>>
    decreases |es|
  {
    if es == [] then Some([])
    else
      match Collect(es[..|es| - 1], checkDuration)
      case None => None
      case Some(acc) =>
        var e := es[|es| - 1];
        if !Kept(e, checkDuration) then Some(acc)
        else if e.name in EntryNames(acc) then None
        else Some(acc + [e])
  }

  /** The walk succeeds exactly when the kept names are distinct, and then
      yields the kept entries. */
  lemma {:induction false} CollectSpec(es: seq<Entry>, checkDuration: bool)
    ensures Collect(es, checkDuration) ==
      if Distinct(EntryNames(KeptEntries(es, checkDuration))) then Some(KeptEntries(es, checkDuration)) else None
    decreases |es|
  {
    if es != [] {
      var p, e := es[..|es| - 1], es[|es| - 1];
      CollectSpec(p, checkDuration);
      var kp := KeptEntries(p, checkDuration);
      assert KeptEntries(es, checkDuration) == kp + (if Kept(e, checkDuration) then [e] else []);
      if Kept(e, checkDuration) {
        EntryNamesAppend(kp, [e]);
        assert EntryNames([e]) == [e.name];
        DistinctAppend(EntryNames(kp), e.name);
        if Distinct(EntryNames(kp)) {
          assert Collect(p, checkDuration) == Some(kp);
          assert Collect(es, checkDuration) == if e.name in EntryNames(kp) then None else Some(kp + [e]);
        } else {
          assert Collect(p, checkDuration) == None;
        }
      } else {
        assert KeptEntries(es, checkDuration) == kp;
        assert Collect(es, checkDuration) == Collect(p, checkDuration);
      }
    }
  }

  lemma {:induction false} CollectStops(es: seq<Entry>, checkDuration: bool, i: nat)
    requires i <= |es| && Collect(es[..i], checkDuration).None?
    ensures Collect(es, checkDuration).None?
    decreases |es| - i
  {
    if i < |es| {
      assert es[..i + 1][..i] == es[..i];
      CollectStops(es, checkDuration, i + 1);
    } else {
      assert es[..i] == es;
    }
  }

  /** The entries of any contiguous run of present keys that ends at a
      missing key are the walk's entries. */
  lemma {:induction false} WalkEntriesUnique(fields: map<string, string>, kind: string, es: seq<Entry>)
    requires forall j :: 0 <= j < |es| ==> FieldKey(kind, j) in fields
    requires FieldKey(kind, |es|) !in fields
    requires forall j :: 0 <= j < |es| ==> es[j] == EntryAt(fields, kind, j)
    ensures es == WalkEntries(fields, kind)
  {
    WalkCountUnique(fields, kind, |es|);
  }

  /** The `while f'{kind}_{index}' in request.form` loop: index 0, 1, … up to
      the first missing name key, each name with its `_num` field if present. */
  method ReadWalk(fields: map<string, string>, kind: string) returns (es: seq<Entry>)
    ensures es == WalkEntries(fields, kind)
  {
    es := [];
    var index := 0;
    while FieldKey(kind, index) in fields
      invariant index <= WalkCount(fields, kind)
      invariant forall j :: 0 <= j < index ==> FieldKey(kind, j) in fields
      invariant |es| == index
      invariant forall j :: 0 <= j < index ==> es[j] == EntryAt(fields, kind, j)
      decreases WalkCount(fields, kind) - index
    {
      es := es + [EntryAt(fields, kind, index)];
      index := index + 1;
    }
    WalkEntriesUnique(fields, kind, es);
  }

  lemma {:induction false} CollectSnoc(es: seq<Entry>, checkDuration: bool, i: nat)
    requires i < |es|
    ensures Collect(es[..i + 1], checkDuration) ==
      match Collect(es[..i], checkDuration)
      case None => None
      case Some(acc) =>
        if !Kept(es[i], checkDuration) then Some(acc)
        else if es[i].name in EntryNames(acc) then None
        else Some(acc + [es[i]])
  {
    assert es[..i + 1][..i] == es[..i];
  }

  /** The duplicate check of the `input` walk, entry by entry. */
  method CollectEntries(es: seq<Entry>, checkDuration: bool) returns (r: Option<seq<Entry>>)
    ensures r == Collect(es, checkDuration)
    ensures r.Some? <==> Distinct(EntryNames(KeptEntries(es, checkDuration)))
    ensures r.Some? ==> r.value == KeptEntries(es, checkDuration)
  {
    var acc: seq<Entry> := [];
    var i := 0;
    while i < |es|
      invariant i <= |es|
      invariant Collect(es[..i], checkDuration) == Some(acc)
    {
      CollectSnoc(es, checkDuration, i);
      if Kept(es[i], checkDuration) {
        if es[i].name in EntryNames(acc) {
          CollectStops(es, checkDuration, i + 1);
          CollectSpec(es, checkDuration);
          return None;
        }
        acc := acc + [es[i]];
      }
      i := i + 1;
    }
    assert es[..i] == es;
    CollectSpec(es, checkDuration);
    r := Some(acc);
  }

  /** The `input` walk over all categories: each category's kept entries, or
      the first category in which a kept name repeats. */
  datatype Walked = Walked(groups: seq<seq<Entry>>) | Repeated(kind: string)

  function CollectAll(fields: map<string, string>, kinds: seq<string>, checkDuration: bool): (w: Walked)
    ensures w.Walked? ==> |w.groups| == |kinds|
    decreases |kinds|
  {
    if kinds == [] then Walked([])
    else
      match CollectAll(fields, kinds[..|kinds| - 1], checkDuration)
      case Walked(gs) =>
        var kind := kinds[|kinds| - 1];
        (match Collect(WalkEntries(fields, kind), checkDuration)
         case None => Repeated(kind)
         case Some(es) => Walked(gs + [es]))
      case other => other
  }

  /** The category's entries the `input` handlers keep. */
  function KeptIn(fields: map<string, string>, kind: string, checkDuration: bool): seq<Entry> {
    KeptEntries(WalkEntries(fields, kind), checkDuration)
  }

  lemma {:induction false} CollectKeptIn(fields: map<string, string>, kind: string, checkDuration: bool)
    ensures Collect(WalkEntries(fields, kind), checkDuration) ==
      if Distinct(EntryNames(KeptIn(fields, kind, checkDuration))) then Some(KeptIn(fields, kind, checkDuration)) else None
  {
    CollectSpec(WalkEntries(fields, kind), checkDuration);
  }

  /** The category's walk meets no repeated kept name (see `NoRepeatMeans`). */
  predicate NoRepeat(fields: map<string, string>, kind: string, checkDuration: bool) {
    Collect(WalkEntries(fields, kind), checkDuration).Some?
  }

  /** No repeat means the kept names of the category are pairwise different. */
  lemma {:induction false} NoRepeatMeans(fields: map<string, string>, kind: string, checkDuration: bool)
    ensures NoRepeat(fields, kind, checkDuration) <==> Distinct(EntryNames(KeptIn(fields, kind, checkDuration)))
  {
    CollectKeptIn(fields, kind, checkDuration);
  }

  lemma {:induction false} CollectAllLast(fields: map<string, string>, kinds: seq<string>, checkDuration: bool)
    requires kinds != []
    ensures CollectAll(fields, kinds, checkDuration).Walked? <==>
      CollectAll(fields, kinds[..|kinds| - 1], checkDuration).Walked? && NoRepeat(fields, kinds[|kinds| - 1], checkDuration)
  {
  }

  /** A completed walk met no repeated kept name in any category. */
  lemma {:induction false} CollectAllNoRepeat(fields: map<string, string>, kinds: seq<string>, checkDuration: bool)
    requires CollectAll(fields, kinds, checkDuration).Walked?
    ensures forall k :: 0 <= k < |kinds| ==> NoRepeat(fields, kinds[k], checkDuration)
    decreases |kinds|
  {
    if kinds != [] {
      var p := kinds[..|kinds| - 1];
      CollectAllLast(fields, kinds, checkDuration);
      CollectAllNoRepeat(fields, p, checkDuration);
      forall k | 0 <= k < |kinds|
        ensures NoRepeat(fields, kinds[k], checkDuration)
      {
        if k < |p| {
          assert kinds[k] == p[k];
        }
      }
    }
  }

  /** The walk over all categories completes exactly when no category
      repeats a kept name. */
  lemma {:induction false} CollectAllCompletes(fields: map<string, string>, kinds: seq<string>, checkDuration: bool)
    ensures CollectAll(fields, kinds, checkDuration).Walked? <==>
      forall k :: 0 <= k < |kinds| ==> NoRepeat(fields, kinds[k], checkDuration)
  {
    if CollectAll(fields, kinds, checkDuration).Walked? {
      CollectAllNoRepeat(fields, kinds, checkDuration);
    } else {
      CollectAllRepeated(fields, kinds, checkDuration);
      var kind := CollectAll(fields, kinds, checkDuration).kind;
      var k :| 0 <= k < |kinds| && kinds[k] == kind;
    }
  }

  /** A completed walk yields each category's kept entries. */
  lemma {:induction false} CollectAllGroups(fields: map<string, string>, kinds: seq<string>, checkDuration: bool)
    requires CollectAll(fields, kinds, checkDuration).Walked?
    ensures var gs := CollectAll(fields, kinds, checkDuration).groups;
      |gs| == |kinds| && forall k :: 0 <= k < |kinds| ==> gs[k] == KeptIn(fields, kinds[k], checkDuration)
    decreases |kinds|
  {
    if kinds != [] {
      var p, kind := kinds[..|kinds| - 1], kinds[|kinds| - 1];
      CollectAllGroups(fields, p, checkDuration);
      var gs', gs := CollectAll(fields, p, checkDuration).groups, CollectAll(fields, kinds, checkDuration).groups;
      var c := Collect(WalkEntries(fields, kind), checkDuration);
      assert c.Some? && gs == gs' + [c.value];
      assert c.value == KeptIn(fields, kind, checkDuration) by {
        CollectKeptIn(fields, kind, checkDuration);
      }
      forall k | 0 <= k < |p|
        ensures gs[k] == KeptIn(fields, kinds[k], checkDuration)
      {
        assert kinds[k] == p[k] && gs[k] == gs'[k];
      }
    }
  }

  /** A stopped walk names a category that does repeat a kept name. */
  lemma {:induction false} CollectAllRepeated(fields: map<string, string>, kinds: seq<string>, checkDuration: bool)
    requires CollectAll(fields, kinds, checkDuration).Repeated?
    ensures var kind := CollectAll(fields, kinds, checkDuration).kind;
      kind in kinds && !NoRepeat(fields, kind, checkDuration)
    decreases |kinds|
  {
    var p, kind := kinds[..|kinds| - 1], kinds[|kinds| - 1];
    if CollectAll(fields, p, checkDuration).Repeated? {
      CollectAllRepeated(fields, p, checkDuration);
      assert forall k :: k in p ==> k in kinds;
    }
  }

  lemma {:induction false} CollectAllSnoc(fields: map<string, string>, kinds: seq<string>, checkDuration: bool, i: nat)
    requires i < |kinds|
    ensures CollectAll(fields, kinds[..i + 1], checkDuration) ==
      match CollectAll(fields, kinds[..i], checkDuration)
      case Walked(gs) =>
        (match Collect(WalkEntries(fields, kinds[i]), checkDuration)
         case None => Repeated(kinds[i])
         case Some(es) => Walked(gs + [es]))
      case other => other
  {
    assert kinds[..i + 1][..i] == kinds[..i];
  }

  lemma {:induction false} CollectAllStops(fields: map<string, string>, kinds: seq<string>, checkDuration: bool, i: nat)
    requires i <= |kinds| && CollectAll(fields, kinds[..i], checkDuration).Repeated?
    ensures CollectAll(fields, kinds, checkDuration) == CollectAll(fields, kinds[..i], checkDuration)
    decreases |kinds| - i
  {
    if i < |kinds| {
      CollectAllSnoc(fields, kinds, checkDuration, i);
      CollectAllStops(fields, kinds, checkDuration, i + 1);
    } else {
      assert kinds[..i] == kinds;
    }
  }

  /** One category of the walk: it either stops the whole walk or adds its group. */
  lemma {:induction false} CollectStep(fields: map<string, string>, kinds: seq<string>, checkDuration: bool,
                                       i: nat, gs: seq<seq<Entry>>, c: Option<seq<Entry>>)
    requires i < |kinds| && CollectAll(fields, kinds[..i], checkDuration) == Walked(gs)
    requires c == Collect(WalkEntries(fields, kinds[i]), checkDuration)
    ensures c.None? ==> CollectAll(fields, kinds, checkDuration) == Repeated(kinds[i])
    ensures c.Some? ==> CollectAll(fields, kinds[..i + 1], checkDuration) == Walked(gs + [c.value])
  {
    CollectAllSnoc(fields, kinds, checkDuration, i);
    if c.None? {
      CollectAllStops(fields, kinds, checkDuration, i + 1);
    }
  }

  /** `for tech_type in tech_types:` around the walk, as the `input` handlers run it. */
  method CollectCategories(fields: map<string, string>, kinds: seq<string>, checkDuration: bool) returns (w: Walked)
    ensures w == CollectAll(fields, kinds, checkDuration)
  {
    var gs: seq<seq<Entry>> := [];
    var i := 0;
    while i < |kinds|
      invariant i <= |kinds|
      invariant CollectAll(fields, kinds[..i], checkDuration) == Walked(gs)
    {
      var es := ReadWalk(fields, kinds[i]);
      var kept := CollectEntries(es, checkDuration);
      CollectStep(fields, kinds, checkDuration, i, gs, kept);
      if kept.None? {
        return Repeated(kinds[i]);
      }
      gs := gs + [kept.value];
      i := i + 1;
    }
    assert kinds[..i] == kinds;
    w := Walked(gs);
  }

  // ---- bounded scan ----------------------------------------------------------

  /** The scanned key: `{kind}_{i}` or, with `num`, `{kind}_{i}_num`. */
  function ScanKey(kind: string, num: bool, i: nat): string {
    if num then NumKey(kind, i) else FieldKey(kind, i)
  }

  /** `[request.form.get(key(i)) for i in range(n) if key(i) in request.form]`. */
  function ScanValues(fields: map<string, string>, kind: string, num: bool, n: nat): (r: seq<string>)
    ensures |r| <= n
    decreases n
  {
    if n == 0 then []
    else
      var key := ScanKey(kind, num, n - 1);
      ScanValues(fields, kind, num, n - 1) + (if key in fields then [fields[key]] else [])
  }

  /** The scan returns exactly the values of the keys present among the first
      `n` indices, gaps or not. */
  lemma {:induction false} ScanValuesMembers(fields: map<string, string>, kind: string, num: bool, n: nat, v: string)
    ensures v in ScanValues(fields, kind, num, n) <==>
      exists i :: 0 <= i < n && ScanKey(kind, num, i) in fields && fields[ScanKey(kind, num, i)] == v
    decreases n
  {
    if n > 0 {
      ScanValuesMembers(fields, kind, num, n - 1, v);
      var key := ScanKey(kind, num, n - 1);
      if key in fields && fields[key] == v {
        assert v in ScanValues(fields, kind, num, n);
      }
    }
  }

  function ScanNames(fields: map<string, string>, kind: string): seq<string> {
    ScanValues(fields, kind, false, |fields.Keys|)
  }

  function ScanDurations(fields: map<string, string>, kind: string): seq<string> {
    ScanValues(fields, kind, true, |fields.Keys|)
  }

  lemma {:induction false} ScanValuesPrefix(fields: map<string, string>, kind: string, num: bool, m: nat, n: nat)
    requires m <= n
    ensures ScanValues(fields, kind, num, m) <= ScanValues(fields, kind, num, n)
    decreases n
  {
    if m < n {
      ScanValuesPrefix(fields, kind, num, m, n - 1);
    }
  }

  lemma {:induction false} ScanMatchesWalkBelow(fields: map<string, string>, kind: string, m: nat)
    requires m <= WalkCount(fields, kind)
    ensures ScanValues(fields, kind, false, m) == EntryNames(WalkEntries(fields, kind))[..m]
    decreases m
  {
    if m > 0 {
      ScanMatchesWalkBelow(fields, kind, m - 1);
      var names := EntryNames(WalkEntries(fields, kind));
      assert names[..m] == names[..m - 1] + [names[m - 1]];
    }
  }

  /** Where the names are numbered without gaps the two revisions agree: the
      names the contiguous walk reads are the start of the names the bounded
      scan reads (the scan may read more, past a gap). */
  lemma {:induction false} WalkNamesPrefixOfScan(fields: map<string, string>, kind: string)
    ensures EntryNames(WalkEntries(fields, kind)) <= ScanNames(fields, kind)
  {
    var w := WalkCount(fields, kind);
    ScanMatchesWalkBelow(fields, kind, w);
    ScanValuesPrefix(fields, kind, false, w, |fields.Keys|);
    assert EntryNames(WalkEntries(fields, kind))[..w] == EntryNames(WalkEntries(fields, kind));
  }

  /** The revisions do differ: with `os_0` and `os_2` but no `os_1`, the walk
      reads one name and the scan reads both. */
  lemma {:induction false} GapStopsWalkButNotScan()
    ensures var fields := map["os_0" := "Linux", "os_2" := "Windows", "industry" := "IT"];
      && EntryNames(WalkEntries(fields, "os")) == ["Linux"]
      && ScanNames(fields, "os") == ["Linux", "Windows"]
  {
    var fields := map["os_0" := "Linux", "os_2" := "Windows", "industry" := "IT"];
    assert NatToString(0) == "0" && NatToString(1) == "1" && NatToString(2) == "2";
    assert FieldKey("os", 0) == "os_0" && FieldKey("os", 1) == "os_1" && FieldKey("os", 2) == "os_2";
    WalkCountUnique(fields, "os", 1);
    assert fields.Keys == {"os_0", "os_2", "industry"};
    assert |fields.Keys| == 3;
    assert ScanValues(fields, "os", false, 1) == ["Linux"];
    assert ScanValues(fields, "os", false, 2) == ["Linux"];
  }

  /** `zip(a, b)`: pairs up to the shorter length. */
  function Zip<A, B>(a: seq<A>, b: seq<B>): (r: seq<(A, B)>)
    ensures |r| == if |a| <= |b| then |a| else |b|
    ensures forall k :: 0 <= k < |r| ==> r[k] == (a[k], b[k])
  {
    var n := if |a| <= |b| then |a| else |b|;
    seq(n, k requires 0 <= k < n => (a[k], b[k]))
  }

  function SomeAll(s: seq<string>): seq<Option<string>> {
    seq(|s|, k requires 0 <= k < |s| => Some(s[k]))
  }
}
