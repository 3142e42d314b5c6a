/** Vocabulary shared by the SkillCanvas handlers: optional values, the fixed
    category and phase lists, the Python string tests the handlers use, and
    the indexed form keys `{type}_{i}` / `{type}_{i}_num`. */
module Common {

  datatype Option<+T> = None | Some(value: T)

  /** The raw technology categories, in the order every handler walks them. */
  const TechTypes: seq<string> :=
    ["os", "language", "framework", "database", "containertech", "cicd", "logging", "tools"]

  /** The fixed list of development phases the admin handlers iterate over. */
  const Phases: seq<string> :=
    ["要件定義", "基本設計", "詳細設計", "実装", "単体テスト", "結合テスト", "受入テスト", "運用・保守"]

  predicate Distinct<T(==)>(s: seq<T>) {
    forall i, j :: 0 <= i < j < |s| ==> s[i] != s[j]
  }

  function Elements<T>(s: seq<T>): set<T> {
    set x | x in s
  }

  /** Number of occurrences of `x` in `s`. */
  function Occurrences<T(==)>(s: seq<T>, x: T): nat
    decreases |s|
  {
    if s == [] then 0
    else Occurrences(s[..|s| - 1], x) + (if s[|s| - 1] == x then 1 else 0)
  }

  /** The display label of a raw category (the `tech_type_mapping` dictionary);
      None where the dictionary lookup raises KeyError. */
  function TypeLabel(kind: string): (r: Option<string>)
    ensures r.Some? <==> kind in TechTypes
  {
    if kind == "os" then Some("OS")
    else if kind == "language" then Some("言語")
    else if kind == "framework" then Some("フレームワーク")
    else if kind == "database" then Some("データベース")
    else if kind == "containertech" then Some("コンテナ技術")
    else if kind == "cicd" then Some("CI/CD")
    else if kind == "logging" then Some("ログ")
    else if kind == "tools" then Some("その他ツール")
    else None
  }

  /** Distinct raw categories get distinct labels, so grouping by label is
      grouping by raw category. */
  lemma {:induction false} TypeLabelInjective(a: string, b: string)
    requires TypeLabel(a).Some? && TypeLabel(a) == TypeLabel(b)
    ensures a == b
  {
  }

  lemma {:induction false} TechTypesDistinct()
    ensures Distinct(TechTypes)
  {
  }

  lemma {:induction false} PhasesDistinct()
    ensures Distinct(Phases)
  {
  }

  /** `len(xs) != len(set(xs))` is the handlers' duplicate test: it fails
      exactly when the list has no repeated element. */
  /** Dropping the last element of a repetition-free sequence leaves one
      without repetitions that does not contain that element. */
  lemma {:induction false} DistinctSnoc<T>(s: seq<T>)
    requires Distinct(s) && s != []
    ensures Distinct(s[..|s| - 1]) && s[|s| - 1] !in s[..|s| - 1]
  {
    var p := s[..|s| - 1];
    assert forall k :: 0 <= k < |p| ==> p[k] == s[k];
  }

  /** Appending keeps a sequence free of repetitions exactly when the new
      element is not already in it. */
  lemma {:induction false} DistinctAppend<T>(s: seq<T>, x: T)
    ensures Distinct(s + [x]) <==> Distinct(s) && x !in s
  {
    var t := s + [x];
    if Distinct(t) {
      DistinctSnoc(t);
      assert t[..|t| - 1] == s;
    }
    if Distinct(s) && x !in s {
      forall i, j | 0 <= i < j < |t|
        ensures t[i] != t[j]
      {
        assert t[i] == s[i];
        if j < |s| {
          assert t[j] == s[j];
        }
      }
    }
  }

  lemma {:induction false} DistinctIffNoCollapse<T>(s: seq<T>)
    ensures Distinct(s) <==> |Elements(s)| == |s|
    decreases |s|
  {
    if s != [] {
      var p, x := s[..|s| - 1], s[|s| - 1];
      assert s == p + [x];
      DistinctAppend(p, x);
      assert Elements(s) == Elements(p) + {x};
      DistinctIffNoCollapse(p);
      ElementsBound(p);
      if x in p {
        assert Elements(s) == Elements(p);
      }
    }
  }

  lemma {:induction false} ElementsBound<T>(s: seq<T>)
    ensures |Elements(s)| <= |s|
    decreases |s|
  {
    if s != [] {
      var p := s[..|s| - 1];
      assert s == p + [s[|s| - 1]];
      assert Elements(s) == Elements(p) + {s[|s| - 1]};
      ElementsBound(p);
    }
  }

  /** The list with every repeated element dropped, keeping first occurrences:
      the key order of a Python dict filled in list order. */
  function Dedup<T(==)>(s: seq<T>): (r: seq<T>)
    ensures Distinct(r)
    ensures Elements(r) == Elements(s)
    decreases |s|
  {
    if s == [] then []
    else
      var p := Dedup(s[..|s| - 1]);
      assert s == s[..|s| - 1] + [s[|s| - 1]];
      assert Elements(s) == Elements(s[..|s| - 1]) + {s[|s| - 1]};
      if s[|s| - 1] in p then p else p + [s[|s| - 1]]
  }

  // ---- Python string tests -------------------------------------------------

  predicate IsDigitChar(c: char) {
    '0' <= c <= '9'
  }

  predicate AllDigits(s: string) {
    forall i :: 0 <= i < |s| ==> IsDigitChar(s[i])
  }

  /** `s.isdigit()` for ASCII text: non-empty and made of digits only. */
  predicate IsDigits(s: string) {
    |s| > 0 && AllDigits(s)
  }

  /** The decimal value of a digit string (`int(s)` when `s.isdigit()`). */
  function DigitsValue(s: string): nat
    requires AllDigits(s)
    decreases |s|
  {
    if |s| == 0 then 0
    else DigitsValue(s[..|s| - 1]) * 10 + (s[|s| - 1] as int - '0' as int)
  }

  function Digit(d: nat): (c: char)
    requires d < 10
    ensures IsDigitChar(c) && c as int - '0' as int == d
  {
    ('0' as int + d) as char
  }

  /** `str(n)` / `f'{n}'` for a natural number. */
  function NatToString(n: nat): (s: string)
    ensures IsDigits(s)
    decreases n
  {
    if n < 10 then [Digit(n)] else NatToString(n / 10) + [Digit(n % 10)]
  }

  /** Reading back the decimal rendering of `n` gives `n`. */
  lemma {:induction false} NatToStringRoundTrip(n: nat)
    ensures DigitsValue(NatToString(n)) == n
    decreases n
  {
    var s := NatToString(n);
    if n >= 10 {
      NatToStringRoundTrip(n / 10);
      assert s[..|s| - 1] == NatToString(n / 10);
    } else {
      assert s[..|s| - 1] == [];
    }
  }

  /** `int(s)` on a string: an optional sign followed by ASCII digits; None
      where Python raises ValueError. */
  function PyInt(s: string): Option<int> {
    if IsDigits(s) then Some(DigitsValue(s))
    else if |s| > 1 && s[0] == '-' && IsDigits(s[1..]) then Some(0 - DigitsValue(s[1..]) as int)
    else if |s| > 1 && s[0] == '+' && IsDigits(s[1..]) then Some(DigitsValue(s[1..]))
    else None
  }

  /** Python's `s[:n]`. */
  function Prefix(s: string, n: nat): (r: string)
    ensures |r| <= n && r <= s
    ensures |s| <= n ==> r == s
    ensures |s| > n ==> |r| == n
  {
    if |s| <= n then s else s[..n]
  }

  // ---- form keys -----------------------------------------------------------

  /** The form key `f'{kind}_{i}'`. */
  function FieldKey(kind: string, i: nat): string {
    kind + "_" + NatToString(i)
  }

  /** The form key `f'{kind}_{i}_num'`. */
  function NumKey(kind: string, i: nat): string {
    FieldKey(kind, i) + "_num"
  }

  /** Different indices give different keys, so the index walks visit a new
      key at every step. */
  lemma {:induction false} FieldKeyInjective(kind: string, i: nat, j: nat)
    requires FieldKey(kind, i) == FieldKey(kind, j)
    ensures i == j
  {
    var a, b := FieldKey(kind, i), FieldKey(kind, j);
    assert a[|kind| + 1..] == NatToString(i);
    assert b[|kind| + 1..] == NatToString(j);
    NatToStringRoundTrip(i);
    NatToStringRoundTrip(j);
  }

  /** A submitted form: `fields` maps every key to its (first) value, and
      `processes` is `request.form.getlist('process')`. */
  datatype Form = Form(fields: map<string, string>, processes: seq<string>)

  /** `request.form.get(key)`. */
  function Lookup(fields: map<string, string>, key: string): (r: Option<string>)
    ensures r.Some? <==> key in fields
    ensures r.Some? ==> r.value == fields[key]
  {
    if key in fields then Some(fields[key]) else None
  }
}
