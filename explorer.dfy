/**
 * The explorer page: the dataset held between actions, the guard every action
 * starts with, and what each action computes before it is drawn or
 * downloaded.
 */
module Explorer {
  import opened Wrappers
  import opened JsValues
  import MissingValues
  import NumericStats
  import Categories

  /** `NUMERIC_COLS` */
  const NumericCols: seq<string> := ["Year", "NA_Sales", "EU_Sales", "JP_Sales", "Other_Sales", "Global_Sales"]

  /** `CATEGORICAL_COLS` */
  const CategoricalCols: seq<string> := ["Platform", "Genre", "Publisher"]

  /** The number of records previewed, `gameData.slice(0, 5)`. */
  const PreviewRows: nat := 5

  // ---------------------------------------------------------------------------
  // What the actions compute
  // ---------------------------------------------------------------------------

  /** The dataset shape and the preview of `showOverview`. */
  datatype Overview = Overview(rows: nat, columns: nat, preview: Table)

  function OverviewOf(table: Table): (o: Overview)
    requires |table| > 0
    ensures o.rows == |table| && o.columns == |Keys(table[0])|
    ensures |o.preview| == if |table| < PreviewRows then |table| else PreviewRows
    ensures o.preview <= table
  {
    Overview(|table|, |table[0]|, table[..if |table| < PreviewRows then |table| else PreviewRows])
  }

  /** `gameData.map(row => row.Global_Sales).filter(val => val > 0)`, the
      histogram input. */
  function SalesSeries(table: Table): (r: seq<Value>)
    ensures |r| <= |table|
    ensures forall i :: 0 <= i < |r| ==> IsPositive(r[i])
  {
    Filter(Column(table, "Global_Sales"), IsPositive)
  }

  /** The histogram input holds exactly the positive sales values, each as
      often as it occurs, and no more entries than there are records. */
  lemma SalesSeriesContents(table: Table)
    ensures forall i :: 0 <= i < |SalesSeries(table)| ==> IsPositive(SalesSeries(table)[i])
    ensures forall v :: multiset(SalesSeries(table))[v] == (if IsPositive(v) then multiset(Column(table, "Global_Sales"))[v] else 0)
    ensures |SalesSeries(table)| == |Positions(Column(table, "Global_Sales"), IsPositive)| <= |table|
  {
    FilterMultiset(Column(table, "Global_Sales"), IsPositive);
    FilterLength(Column(table, "Global_Sales"), IsPositive);
  }

  /** The values keep the order of the records: a further record adds its
      sales value at the end when it is positive, and nothing otherwise. */
  lemma SalesSeriesInRowOrder(table: Table, i: nat)
    requires i < |table|
    ensures SalesSeries(table[..i + 1]) == SalesSeries(table[..i]) +
      if IsPositive(Get(table[i], "Global_Sales")) then [Get(table[i], "Global_Sales")] else []
  {
    ColumnSnoc(table, "Global_Sales", i);
    FilterSnoc(Column(table[..i], "Global_Sales"), Get(table[i], "Global_Sales"), IsPositive);
  }

  /** The two tables of `showStatsSummary`. */
  datatype StatsReport = StatsReport(numeric: map<string, NumericStats.Summary>, categorical: map<string, seq<Categories.Entry>>)

  /** The data behind the charts of `createVisualizations`; the correlation
      chart is not part of this model. */
  datatype Charts = Charts(platforms: seq<Categories.Entry>, genres: seq<Categories.Entry>, sales: seq<Value>)

  /** The summary of `exportJSON` without its timestamp. */
  datatype ExportSummary = ExportSummary(records: nat, columns: nat)

  // ---------------------------------------------------------------------------
  // The page
  // ---------------------------------------------------------------------------

  /** The page state: the global `gameData`. Every action answers `None`, the
      "Please load data first" / "No data to export" alert, while it is empty. */
  class Session {
    var gameData: Table

    constructor()
      ensures gameData == []
    {
      gameData := [];
    }

    /** The `complete` callback of the parser: a parse with errors leaves the
        table as it was, otherwise the parsed records replace it. */
    method CompleteLoad(errorCount: nat, data: Table)
      modifies this
      ensures gameData == if errorCount > 0 then old(gameData) else data
    {
      if errorCount == 0 {
        gameData := data;
      }
    }

    /** `showOverview` */
    method ShowOverview() returns (r: Option<Overview>)
      ensures r.None? <==> gameData == []
      ensures r.Some? ==> |gameData| > 0 && r.value == OverviewOf(gameData)
    {
      if |gameData| == 0 {
        return None;
      }
      r := Some(OverviewOf(gameData));
    }

    /** `showMissingValues` */
    method ShowMissingValues() returns (r: Option<map<string, nat>>)
      ensures r.None? <==> gameData == []
      ensures r.Some? ==> |gameData| > 0 && r.value.Keys == set k | k in Keys(gameData[0])
      ensures r.Some? ==> forall col :: col in r.value ==> r.value[col] == MissingValues.MissingCount(gameData, col)
    {
      if |gameData| == 0 {
        return None;
      }
      var missingCounts := MissingValues.CountMissing(gameData);
      r := Some(missingCounts);
    }

    /** `showStatsSummary` */
    method ShowStatsSummary() returns (r: Option<StatsReport>)
      ensures r.None? <==> gameData == []
      ensures r.Some? ==>
        r.value.numeric.Keys == set col | col in NumericCols && |NumericStats.KeptValues(gameData, col)| > 0
      ensures r.Some? ==> forall col :: col in r.value.numeric ==>
        |NumericStats.KeptValues(gameData, col)| > 0 &&
        r.value.numeric[col] == NumericStats.Summarize(NumericStats.KeptValues(gameData, col))
      ensures r.Some? ==> r.value.categorical.Keys == set col | col in CategoricalCols
      ensures r.Some? ==> forall col :: col in r.value.categorical ==>
        r.value.categorical[col] == Categories.TopCategories(Categories.Tally(Categories.TruthyValues(gameData, col)))
    {
      if |gameData| == 0 {
        return None;
      }
      var numericStats := NumericStats.SummarizeNumeric(gameData, NumericCols);
      var categoricalStats := Categories.CategoricalStats(gameData, CategoricalCols);
      r := Some(StatsReport(numericStats, categoricalStats));
    }

    /** `createVisualizations`: the platform and genre top lists and the
        sales histogram input. */
    method CreateVisualizations() returns (r: Option<Charts>)
      ensures r.None? <==> gameData == []
      ensures r.Some? ==>
        && r.value.platforms == Categories.TopCategories(Categories.Tally(Categories.TruthyValues(gameData, "Platform")))
        && r.value.genres == Categories.TopCategories(Categories.Tally(Categories.TruthyValues(gameData, "Genre")))
        && r.value.sales == SalesSeries(gameData)
    {
      if |gameData| == 0 {
        return None;
      }
      var platformCounts := Categories.CountCategories(gameData, "Platform");
      var genreCounts := Categories.CountCategories(gameData, "Genre");
      var sales := SalesSeries(gameData);
      r := Some(Charts(platformCounts, genreCounts, sales));
    }

    /** `exportCSV`: the records handed to the CSV writer, unchanged. */
    method ExportCSV() returns (r: Option<Table>)
      ensures r.None? <==> gameData == []
      ensures r.Some? ==> r.value == gameData
    {
      if |gameData| == 0 {
        return None;
      }
      r := Some(gameData);
    }

    /** `exportJSON`: the record count and the key count of the first record. */
    method ExportJSON() returns (r: Option<ExportSummary>)
      ensures r.None? <==> gameData == []
      ensures r.Some? ==> r.value == ExportSummary(|gameData|, |Keys(gameData[0])|)
    {
      if |gameData| == 0 {
        return None;
      }
      r := Some(ExportSummary(|gameData|, |Keys(gameData[0])|));
    }
  }

  /** After a clean load every action has something to show exactly when the
      file held at least one record. */
  method LoadThenOverview(data: Table) returns (r: Option<Overview>)
    ensures r.None? <==> data == []
    ensures r.Some? ==> r.value.rows == |data|
  {
    var session := new Session();
    session.CompleteLoad(0, data);
    r := session.ShowOverview();
  }

  // ---------------------------------------------------------------------------
  // A worked example
  // ---------------------------------------------------------------------------

  /** Three records, the last with a null sales cell. */
  const ThreeRecords: Table := [
    [Cell("Platform", Str("PS4")), Cell("Global_Sales", Num(1.5))],
    [Cell("Platform", Str("PS4")), Cell("Global_Sales", Num(2.0))],
    [Cell("Platform", Str("Xbox")), Cell("Global_Sales", Null)]]

  /** The null cell is the one missing sales value. */
  lemma ThreeRecordsMissing(table: Table)
    requires table == ThreeRecords
    ensures MissingValues.MissingCount(table, "Global_Sales") == 1
  {
    var sales := Column(table, "Global_Sales");
    assert sales == [Num(1.5), Num(2.0), Null];
    OneSalesMissing(sales);
  }

  lemma OneSalesMissing(sales: seq<Value>)
    requires sales == [Num(1.5), Num(2.0), Null]
    ensures |Filter(sales, IsMissing)| == 1
  {
    FilterSnoc([], Num(1.5), IsMissing);
    FilterSnoc([Num(1.5)], Num(2.0), IsMissing);
    FilterSnoc([Num(1.5), Num(2.0)], Null, IsMissing);
    assert [Num(1.5), Num(2.0)] + [Null] == sales;
  }

  /** The null cell passes `!isNaN` and enters the mean as 0: the mean is
      3.5 / 3, not 1.75. */
  lemma ThreeRecordsMean(table: Table)
    requires table == ThreeRecords
    ensures NumericStats.KeptValues(table, "Global_Sales") == [1.5, 2.0, 0.0]
    ensures NumericStats.Mean(NumericStats.KeptValues(table, "Global_Sales")) == 7.0 / 6.0
  {
    var sales := Column(table, "Global_Sales");
    assert sales == [Num(1.5), Num(2.0), Null];
    KeptSales(sales);
    MeanOfKeptSales(NumericStats.KeptValues(table, "Global_Sales"));
  }

  lemma KeptSales(sales: seq<Value>)
    requires sales == [Num(1.5), Num(2.0), Null]
    ensures NumericStats.Coerce(Filter(sales, NumericStats.NotNaN)) == [1.5, 2.0, 0.0]
  {
    NoSalesDropped(sales);
    SalesCoerced(sales);
  }

  lemma NoSalesDropped(sales: seq<Value>)
    requires sales == [Num(1.5), Num(2.0), Null]
    ensures Filter(sales, NumericStats.NotNaN) == sales
  {
    FilterSnoc([], Num(1.5), NumericStats.NotNaN);
    FilterSnoc([Num(1.5)], Num(2.0), NumericStats.NotNaN);
    FilterSnoc([Num(1.5), Num(2.0)], Null, NumericStats.NotNaN);
    assert [Num(1.5), Num(2.0)] + [Null] == sales;
  }

  lemma SalesCoerced(sales: seq<Value>)
    requires sales == [Num(1.5), Num(2.0), Null]
    ensures forall i :: 0 <= i < |sales| ==> NumericStats.NotNaN(sales[i])
    ensures NumericStats.Coerce(sales) == [1.5, 2.0, 0.0]
  {
    forall i | 0 <= i < |sales| ensures NumericStats.NotNaN(sales[i]) {
      if i == 0 {
        assert sales[i] == Num(1.5);
      } else if i == 1 {
        assert sales[i] == Num(2.0);
      } else {
        assert sales[i] == Null;
      }
    }
    var r := NumericStats.Coerce(sales);
    assert ToNumber(sales[0]) == Some(r[0]) && ToNumber(sales[1]) == Some(r[1]) && ToNumber(sales[2]) == Some(r[2]);
  }

  lemma MeanOfKeptSales(values: seq<real>)
    requires values == [1.5, 2.0, 0.0]
    ensures NumericStats.Mean(values) == 7.0 / 6.0
  {
    NumericStats.SumSnoc([], 1.5);
    NumericStats.SumSnoc([1.5], 2.0);
    NumericStats.SumSnoc([1.5, 2.0], 0.0);
    assert [1.5, 2.0] + [0.0] == values;
    var m := NumericStats.Mean(values);
    assert |values| as real == 3.0;
    assert m * 3.0 == 3.5;
  }

  /** PlayStation 4 twice, then Xbox once. */
  lemma ThreeRecordsTop(table: Table)
    requires table == ThreeRecords
    ensures Categories.TopCategories(Categories.Tally(Categories.TruthyValues(table, "Platform"))) ==
      [Categories.Entry(Str("PS4"), 2), Categories.Entry(Str("Xbox"), 1)]
  {
    var platforms := Column(table, "Platform");
    assert platforms == [Str("PS4"), Str("PS4"), Str("Xbox")];
    var t := Categories.TruthyValues(table, "Platform");
    assert t == platforms by {
      FilterSnoc([], Str("PS4"), Truthy);
      FilterSnoc([Str("PS4")], Str("PS4"), Truthy);
      FilterSnoc([Str("PS4"), Str("PS4")], Str("Xbox"), Truthy);
      assert [Str("PS4"), Str("PS4")] + [Str("Xbox")] == platforms;
    }
    TwoPlatforms(t);
  }

  lemma TwoPlatforms(t: seq<Value>)
    requires t == [Str("PS4"), Str("PS4"), Str("Xbox")]
    ensures Categories.TopCategories(Categories.Tally(t)) ==
      [Categories.Entry(Str("PS4"), 2), Categories.Entry(Str("Xbox"), 1)]
  {
    TwoPlatformsTally(t);
    TwoPlatformsSorted(Categories.Tally(t));
  }

  lemma TwoPlatformsTally(t: seq<Value>)
    requires t == [Str("PS4"), Str("PS4"), Str("Xbox")]
    ensures Categories.Tally(t) == [Categories.Entry(Str("PS4"), 2), Categories.Entry(Str("Xbox"), 1)]
  {
    TwoPlatformsDistinct(t);
    assert multiset(t) == multiset{Str("PS4"), Str("PS4"), Str("Xbox")};
    var es := Categories.Tally(t);
    assert |es| == 2;
    assert es[0] == Categories.Entry(Str("PS4"), 2);
    assert es[1] == Categories.Entry(Str("Xbox"), 1);
  }

  lemma TwoPlatformsDistinct(t: seq<Value>)
    requires t == [Str("PS4"), Str("PS4"), Str("Xbox")]
    ensures Categories.Distinct(t) == [Str("PS4"), Str("Xbox")]
  {
    Categories.DistinctSnoc([], Str("PS4"));
    Categories.DistinctSnoc([Str("PS4")], Str("PS4"));
    Categories.DistinctSnoc([Str("PS4"), Str("PS4")], Str("Xbox"));
    assert [Str("PS4")] + [Str("PS4")] == [Str("PS4"), Str("PS4")];
    assert [Str("PS4"), Str("PS4")] + [Str("Xbox")] == t;
  }

  lemma TwoPlatformsSorted(es: seq<Categories.Entry>)
    requires es == [Categories.Entry(Str("PS4"), 2), Categories.Entry(Str("Xbox"), 1)]
    ensures Categories.TopCategories(es) == es
  {
    assert es[1..] == [Categories.Entry(Str("Xbox"), 1)];
    assert Categories.SortByCount(es[1..]) == es[1..];
  }
}
