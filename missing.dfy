/**
 * The missing-value analysis behind `showMissingValues`: for every key of the
 * first record, the number of records whose value under that key is null,
 * undefined or the empty string.
 */
module MissingValues {
  import opened JsValues

  /** `table.filter(row => row[col] === null || … === '').length` */
  function MissingCount(table: Table, col: string): (n: nat)
    ensures n <= |table|
    ensures n == |Positions(Column(table, col), IsMissing)|
  {
    FilterLength(Column(table, col), IsMissing);
    |Filter(Column(table, col), IsMissing)|
  }

  /** The count never includes a record whose value is a number, a non-empty
      string or a boolean; in particular numeric 0 is not missing. */
  lemma MissingCountBounds(table: Table, col: string)
    ensures MissingCount(table, col) == 0 <==> forall i :: 0 <= i < |table| ==> !IsMissing(Get(table[i], col))
    ensures MissingCount(table, col) == |table| <==> forall i :: 0 <= i < |table| ==> IsMissing(Get(table[i], col))
    ensures forall i :: 0 <= i < |table| && Get(table[i], col).Num? ==> i !in Positions(Column(table, col), IsMissing)
  {
    var c := Column(table, col);
    var ps := Positions(c, IsMissing);
    if MissingCount(table, col) == 0 {
      assert ps == {};
      forall i | 0 <= i < |table| ensures !IsMissing(Get(table[i], col)) {
        assert i !in ps;
      }
    }
    if forall i :: 0 <= i < |table| ==> !IsMissing(Get(table[i], col)) {
      assert ps == {};
    }
    FilterKeepsAll(c, IsMissing);
  }

  /** The counting loop over `Object.keys(gameData[0])`, filling the
      `missingCounts` object column by column. The caller has already refused
      an empty table. */
  method CountMissing(table: Table) returns (missingCounts: map<string, nat>)
    requires |table| > 0
    ensures missingCounts.Keys == set k | k in Keys(table[0])
    ensures forall col :: col in missingCounts ==>
      missingCounts[col] == |Positions(Column(table, col), IsMissing)| && missingCounts[col] <= |table|
  {
    var cols := Keys(table[0]);
    missingCounts := map[];
    for i := 0 to |cols|
      invariant missingCounts.Keys == set k | k in cols[..i]
      invariant forall col :: col in missingCounts ==> missingCounts[col] == MissingCount(table, col)
    {
      assert cols[..i + 1] == cols[..i] + [cols[i]];
      missingCounts := missingCounts[cols[i] := MissingCount(table, cols[i])];
    }
    assert cols[..|cols|] == cols;
  }
}
