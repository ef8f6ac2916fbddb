/**
 * The categorical frequencies of `showStatsSummary` and `countCategories`:
 * count the truthy values of a column into an object, list its entries, sort
 * them by descending count and keep the first ten.
 *
 * A category is identified by its `Value`; the conversion of that value to a
 * property-key string is not part of this model.
 */
module Categories {
  import opened JsValues

  /** One `[key, count]` pair of `Object.entries(counts)`. */
  datatype Entry = Entry(key: Value, count: nat)

  /** The number of categories kept, `.slice(0, 10)`. */
  const TopLimit: nat := 10

  predicate NoDuplicates<T(==)>(s: seq<T>) {
    forall i, j :: 0 <= i < j < |s| ==> s[i] != s[j]
  }

  // ---------------------------------------------------------------------------
  // What the counting loop computes
  // ---------------------------------------------------------------------------

  /** The elements of `s` without repeats, in order of first appearance: the
      order in which the `counts` object receives its keys. */
  function Distinct(s: seq<Value>): (d: seq<Value>)
    ensures NoDuplicates(d)
  {
    if s == [] then []
    else
      var init := Distinct(s[..|s| - 1]);
      var last := s[|s| - 1];
      assert s == s[..|s| - 1] + [last];
      if last in init then init else init + [last]
  }

  /** Nothing is lost: every element of `s` is listed. */
  lemma {:induction false} DistinctMembers(s: seq<Value>)
    ensures forall x :: x in Distinct(s) <==> x in s
  {
    if s != [] {
      assert s == s[..|s| - 1] + [s[|s| - 1]];
      DistinctMembers(s[..|s| - 1]);
    }
  }

  lemma DistinctSnoc(s: seq<Value>, x: Value)
    ensures Distinct(s + [x]) == if x in Distinct(s) then Distinct(s) else Distinct(s) + [x]
  {
    assert (s + [x])[..|s|] == s;
  }

  /** The values of `col` that pass `if (row[col])`, in row order. */
  function TruthyValues(table: Table, col: string): (t: seq<Value>)
    ensures |t| <= |table|
    ensures forall i :: 0 <= i < |t| ==> Truthy(t[i])
  {
    Filter(Column(table, col), Truthy)
  }

  lemma TruthyValuesSnoc(table: Table, col: string, i: nat)
    requires i < |table|
    ensures TruthyValues(table[..i + 1], col) ==
      TruthyValues(table[..i], col) + if Truthy(Get(table[i], col)) then [Get(table[i], col)] else []
  {
    ColumnSnoc(table, col, i);
    FilterSnoc(Column(table[..i], col), Get(table[i], col), Truthy);
  }

  /** The reference meaning of the counting loop and `Object.entries`: every
      distinct value of `t` in order of first appearance, with the number of
      times it occurs. */
  function Tally(t: seq<Value>): (es: seq<Entry>)
    ensures |es| == |Distinct(t)|
    ensures forall j :: 0 <= j < |es| ==> es[j].key == Distinct(t)[j] && es[j].count == multiset(t)[es[j].key]
  {
    var d := Distinct(t);
    seq(|d|, j requires 0 <= j < |d| => Entry(d[j], multiset(t)[d[j]]))
  }

  /** The `counts` object after counting `seen`: one key per distinct value,
      set to 1 when first met and raised by one on every later occurrence. */
  function Counts(seen: seq<Value>): map<Value, nat> {
    if seen == [] then map[]
    else
      var m := Counts(seen[..|seen| - 1]);
      var v := seen[|seen| - 1];
      m[v := (if v in m then m[v] else 0) + 1]
  }

  /** The object holds exactly the values met, each with its number of
      occurrences. */
  lemma {:induction false} CountsAreMultiplicities(seen: seq<Value>)
    ensures forall x :: x in Counts(seen) <==> x in seen
    ensures forall x :: x in Counts(seen) ==> Counts(seen)[x] == multiset(seen)[x]
  {
    if seen != [] {
      var init, v := seen[..|seen| - 1], seen[|seen| - 1];
      assert seen == init + [v];
      CountsAreMultiplicities(init);
    }
  }

  lemma CountsSnoc(seen: seq<Value>, v: Value)
    ensures Counts(seen + [v]) ==
      Counts(seen)[v := (if v in Counts(seen) then Counts(seen)[v] else 0) + 1]
  {
    assert (seen + [v])[..|seen|] == seen;
  }

  /** A value is already a key of the object exactly when it is already
      listed in the key order. */
  lemma KeyAlreadySet(seen: seq<Value>, v: Value)
    ensures v in Counts(seen) <==> v in Distinct(seen)
  {
    CountsAreMultiplicities(seen);
    DistinctMembers(seen);
  }

  /** `counts[row[col]] = (counts[row[col]] || 0) + 1` over every record,
      followed by `Object.entries(counts)`. The object is a map together with
      the order in which its keys were first set. */
  method TallyColumn(table: Table, col: string) returns (entries: seq<Entry>)
    ensures entries == Tally(TruthyValues(table, col))
  {
    var counts: map<Value, nat> := map[];
    var order: seq<Value> := [];
    ghost var seen: seq<Value> := [];
    for i := 0 to |table|
      invariant seen == TruthyValues(table[..i], col)
      invariant order == Distinct(seen) && counts == Counts(seen)
    {
      var v := Get(table[i], col);
      TruthyValuesSnoc(table, col, i);
      if Truthy(v) {
        DistinctSnoc(seen, v);
        KeyAlreadySet(seen, v);
        CountsSnoc(seen, v);
        if v !in counts {
          order := order + [v];
        }
        counts := counts[v := (if v in counts then counts[v] else 0) + 1];
        seen := seen + [v];
      }
    }
    assert table[..|table|] == table;
    CountsAreMultiplicities(seen);
    DistinctMembers(seen);
    entries := seq(|order|, j requires 0 <= j < |order| => Entry(order[j], counts[order[j]]));
  }

  /** Every category listed is a truthy value that occurs at least once, and
      no category is listed twice. */
  lemma TallyEntries(table: Table, col: string)
    ensures forall e :: e in Tally(TruthyValues(table, col)) ==> Truthy(e.key) && e.count >= 1
    ensures forall j, k :: 0 <= j < k < |Tally(TruthyValues(table, col))| ==>
      Tally(TruthyValues(table, col))[j].key != Tally(TruthyValues(table, col))[k].key
  {
    var t := TruthyValues(table, col);
    DistinctMembers(t);
    forall e | e in Tally(t) ensures Truthy(e.key) && e.count >= 1 {
      assert e.key in Distinct(t);
      assert e.key in t;
    }
  }

  function TotalCount(es: seq<Entry>): nat {
    if es == [] then 0 else TotalCount(es[..|es| - 1]) + es[|es| - 1].count
  }

  /** Raising one count by one raises the total by one. */
  lemma {:induction false} TotalCountBump(a: seq<Entry>, b: seq<Entry>, k: int)
    requires |a| == |b|
    requires forall j :: 0 <= j < |a| ==> b[j].count == a[j].count + if j == k then 1 else 0
    ensures TotalCount(b) == TotalCount(a) + if 0 <= k < |a| then 1 else 0
  {
    if a != [] {
      TotalCountBump(a[..|a| - 1], b[..|b| - 1], k);
    }
  }

  /** A value met again raises its own count by one. */
  lemma TallySnocSeen(init: seq<Value>, v: Value)
    requires v in Distinct(init)
    ensures TotalCount(Tally(init + [v])) == TotalCount(Tally(init)) + 1
  {
    DistinctSnoc(init, v);
    var k :| 0 <= k < |Distinct(init)| && Distinct(init)[k] == v;
    TotalCountBump(Tally(init), Tally(init + [v]), k);
  }

  /** A value met for the first time is appended with count 1. */
  lemma TallySnocNew(init: seq<Value>, v: Value)
    requires v !in Distinct(init)
    ensures Tally(init + [v]) == Tally(init) + [Entry(v, 1)]
  {
    var a, b := Tally(init), Tally(init + [v]);
    DistinctSnoc(init, v);
    assert multiset(init + [v]) == multiset(init) + multiset{v};
    forall j | 0 <= j < |a| ensures b[j] == a[j] {
      assert a[j].key != v;
    }
    assert b[|a|] == Entry(v, 1) by {
      DistinctMembers(init);
    }
  }

  /** The counts add up to the number of truthy values: each one is counted
      exactly once. */
  lemma {:induction false} TallyTotal(t: seq<Value>)
    ensures TotalCount(Tally(t)) == |t|
  {
    if t != [] {
      var init, v := t[..|t| - 1], t[|t| - 1];
      assert t == init + [v];
      TallyTotal(init);
      if v in Distinct(init) {
        TallySnocSeen(init, v);
      } else {
        TallySnocNew(init, v);
        var a := Tally(init);
        assert (a + [Entry(v, 1)])[..|a|] == a;
      }
    }
  }

  // ---------------------------------------------------------------------------
  // Sorting by descending count
  // ---------------------------------------------------------------------------

  predicate NonIncreasing(es: seq<Entry>) {
    forall i, j :: 0 <= i < j < |es| ==> es[i].count >= es[j].count
  }

  /** Prefixing an entry with a count no smaller than the head's keeps the
      counts non-increasing. */
  lemma NonIncreasingCons(h: Entry, t: seq<Entry>)
    requires NonIncreasing(t) && (t != [] ==> h.count >= t[0].count)
    ensures NonIncreasing([h] + t)
  {
    var r := [h] + t;
    forall i, j | 0 <= i < j < |r| ensures r[i].count >= r[j].count {
      assert r[j] == t[j - 1];
      if i > 0 {
        assert r[i] == t[i - 1];
      }
    }
  }

  /** Places `e` in front of the first entry whose count does not exceed its
      own. */
  function InsertByCount(e: Entry, s: seq<Entry>): (r: seq<Entry>)
    requires NonIncreasing(s)
    ensures NonIncreasing(r)
    ensures multiset(r) == multiset(s) + multiset{e}
    ensures r[0] == e || (|s| > 0 && r[0] == s[0])
  {
    if s == [] || s[0].count <= e.count then
      NonIncreasingCons(e, s);
      [e] + s
    else
      assert s == [s[0]] + s[1..];
      var tail := InsertByCount(e, s[1..]);
      NonIncreasingCons(s[0], tail);
      [s[0]] + tail
  }

  /** `.sort((a, b) => b[1] - a[1])`: the entries by descending count. */
  function SortByCount(es: seq<Entry>): (r: seq<Entry>)
    ensures NonIncreasing(r)
    ensures multiset(r) == multiset(es)
    ensures |r| == |es|
  {
    if es == [] then []
    else
      assert es == [es[0]] + es[1..];
      var r := InsertByCount(es[0], SortByCount(es[1..]));
      assert |r| == |multiset(r)|;
      r
  }

  /** The entries with count `c`, in their order in `es`. */
  function WithCount(es: seq<Entry>, c: nat): seq<Entry> {
    Filter(es, (e: Entry) => e.count == c)
  }

  lemma WithCountCons(x: Entry, t: seq<Entry>, c: nat)
    ensures WithCount([x] + t, c) == (if x.count == c then [x] else []) + WithCount(t, c)
  {
    FilterConcat([x], t, (e: Entry) => e.count == c);
    assert [x][..0] == [];
  }

  lemma {:induction false} WithCountInsert(e: Entry, s: seq<Entry>, c: nat)
    requires NonIncreasing(s)
    ensures WithCount(InsertByCount(e, s), c) == (if e.count == c then [e] else []) + WithCount(s, c)
  {
    if s == [] || s[0].count <= e.count {
      WithCountCons(e, s, c);
    } else {
      var tail := InsertByCount(e, s[1..]);
      assert InsertByCount(e, s) == [s[0]] + tail;
      assert s == [s[0]] + s[1..];
      WithCountCons(s[0], s[1..], c);
      WithCountCons(s[0], tail, c);
      WithCountInsert(e, s[1..], c);
      if e.count == c {
        assert s[0].count != c;
      }
    }
  }

  /** The sort is stable, as ECMAScript requires of `Array.prototype.sort`:
      entries with equal counts keep their relative order. */
  lemma {:induction false} SortByCountStable(es: seq<Entry>, c: nat)
    ensures WithCount(SortByCount(es), c) == WithCount(es, c)
  {
    if es != [] {
      assert es == [es[0]] + es[1..];
      WithCountInsert(es[0], SortByCount(es[1..]), c);
      SortByCountStable(es[1..], c);
      WithCountCons(es[0], es[1..], c);
    }
  }

  // ---------------------------------------------------------------------------
  // The first ten
  // ---------------------------------------------------------------------------

  /** `.sort(…).slice(0, 10)` */
  function TopCategories(es: seq<Entry>): (top: seq<Entry>)
    ensures |top| == if |es| < TopLimit then |es| else TopLimit
    ensures NonIncreasing(top)
  {
    var sorted := SortByCount(es);
    sorted[..if |sorted| < TopLimit then |sorted| else TopLimit]
  }

  /** The kept entries are taken from the input, all of them when there are
      at most ten, and none of those left out has a larger count than any kept. */
  lemma TopKeepsLargest(es: seq<Entry>)
    ensures multiset(TopCategories(es)) <= multiset(es)
    ensures |es| <= TopLimit ==> multiset(TopCategories(es)) == multiset(es)
    ensures forall e :: e in multiset(es) - multiset(TopCategories(es)) ==>
      forall i :: 0 <= i < |TopCategories(es)| ==> TopCategories(es)[i].count >= e.count
  {
    var sorted := SortByCount(es);
    var top := TopCategories(es);
    var rest := sorted[|top|..];
    assert sorted == top + rest;
    assert multiset(es) == multiset(top) + multiset(rest);
    forall e | e in multiset(es) - multiset(top)
      ensures forall i :: 0 <= i < |top| ==> top[i].count >= e.count
    {
      assert e in multiset(rest);
      RestBelowTop(sorted, |top|, e);
    }
  }

  /** In a list of non-increasing counts, an entry after position `k` has a
      count no larger than any entry before it. */
  lemma RestBelowTop(sorted: seq<Entry>, k: nat, e: Entry)
    requires NonIncreasing(sorted) && k <= |sorted|
    requires e in multiset(sorted[k..])
    ensures forall i :: 0 <= i < k ==> sorted[i].count >= e.count
  {
    var rest := sorted[k..];
    assert e in rest;
    var j :| 0 <= j < |rest| && rest[j] == e;
    assert sorted[k + j] == e;
  }

  /** Among equal counts the entries that come first in `es` are kept: the kept
      entries with count `c` are a prefix of all entries with count `c`. */
  lemma TopTiesInOrder(es: seq<Entry>, c: nat)
    ensures WithCount(TopCategories(es), c) <= WithCount(es, c)
  {
    var sorted := SortByCount(es);
    var top := TopCategories(es);
    assert sorted == top + sorted[|top|..];
    FilterConcat(top, sorted[|top|..], (e: Entry) => e.count == c);
    SortByCountStable(es, c);
  }

  /** The top list of a column: each listed category is a truthy value listed
      once, with the number of records holding it. */
  lemma TopCategoryCounts(table: Table, col: string)
    ensures forall e :: e in TopCategories(Tally(TruthyValues(table, col))) ==>
      Truthy(e.key) && e.count == multiset(TruthyValues(table, col))[e.key] && e.count >= 1
  {
    var t := TruthyValues(table, col);
    TopKeepsLargest(Tally(t));
    TallyEntries(table, col);
    forall e | e in TopCategories(Tally(t))
      ensures Truthy(e.key) && e.count == multiset(t)[e.key] && e.count >= 1
    {
      assert e in multiset(TopCategories(Tally(t)));
      assert e in Tally(t);
    }
  }

  // ---------------------------------------------------------------------------
  // The actions' loops
  // ---------------------------------------------------------------------------

  /** `countCategories(column)`: the ten most frequent values of a column. */
  method CountCategories(table: Table, column: string) returns (top: seq<Entry>)
    ensures top == TopCategories(Tally(TruthyValues(table, column)))
  {
    var entries := TallyColumn(table, column);
    top := TopCategories(entries);
  }

  /** The `CATEGORICAL_COLS.forEach` loop filling `categoricalStats`: every
      column is present, possibly with an empty list. */
  method CategoricalStats(table: Table, cols: seq<string>) returns (categoricalStats: map<string, seq<Entry>>)
    ensures categoricalStats.Keys == set col | col in cols
    ensures forall col :: col in categoricalStats ==>
      categoricalStats[col] == TopCategories(Tally(TruthyValues(table, col)))
  {
    categoricalStats := map[];
    for i := 0 to |cols|
      invariant categoricalStats.Keys == set col | col in cols[..i]
      invariant forall col :: col in categoricalStats ==>
        categoricalStats[col] == TopCategories(Tally(TruthyValues(table, col)))
    {
      assert cols[..i + 1] == cols[..i] + [cols[i]];
      var top := CountCategories(table, cols[i]);
      categoricalStats := categoricalStats[cols[i] := top];
    }
    assert cols[..|cols|] == cols;
  }
}
