/** The carbon statistics panel: the footprint rows the store lets the viewer
    read (the query itself has no user filter), in creation order, become a
    chart series, a total and at most five distinct pieces of advice. Impacts
    are in tenths of a kilogram. */
module CarbonStats {
  import opened Outcomes
  import opened Lists

  const LoadFallback: string := "Failed to load carbon data"

  /** The most pieces of advice shown. */
  const MaxSuggestions: nat := 5

  /** One selected `carbon_footprints` row. */
  datatype FootprintRow = FootprintRow(carbonImpact: int, createdAt: string, reductionSuggestions: seq<string>)

  datatype ChartPoint = ChartPoint(date: string, impact: int)

  /** The chart series: one point per row, in row order. */
  function ChartData(rows: seq<FootprintRow>): (chart: seq<ChartPoint>)
    ensures |chart| == |rows|
    ensures forall i :: 0 <= i < |rows| ==> chart[i] == ChartPoint(rows[i].createdAt, rows[i].carbonImpact)
  {
    if rows == [] then [] else [ChartPoint(rows[0].createdAt, rows[0].carbonImpact)] + ChartData(rows[1..])
  }

  /** The sum of the impacts. */
  function TotalImpact(rows: seq<FootprintRow>): (total: int)
    ensures rows == [] ==> total == 0
    ensures (forall i :: 0 <= i < |rows| ==> rows[i].carbonImpact >= 0) ==> total >= 0
  {
    if rows == [] then 0 else rows[0].carbonImpact + TotalImpact(rows[1..])
  }

  /** The total of two batches of rows is the sum of their totals. */
  lemma {:induction false} TotalAppend(a: seq<FootprintRow>, b: seq<FootprintRow>)
    ensures TotalImpact(a + b) == TotalImpact(a) + TotalImpact(b)
  {
    if a == [] {
      assert a + b == b;
    } else {
      assert (a + b)[1..] == a[1..] + b;
      TotalAppend(a[1..], b);
    }
  }

  /** The sum of the chart's impacts. */
  function ChartTotal(chart: seq<ChartPoint>): int {
    if chart == [] then 0 else chart[0].impact + ChartTotal(chart[1..])
  }

  /** The total is what the chart adds up to. */
  lemma {:induction false} TotalMatchesChart(rows: seq<FootprintRow>)
    ensures TotalImpact(rows) == ChartTotal(ChartData(rows))
  {
    if rows != [] {
      TotalMatchesChart(rows[1..]);
      assert ChartData(rows)[1..] == ChartData(rows[1..]);
    }
  }

  /** Every row's advice, concatenated in row order. */
  function AllSuggestions(rows: seq<FootprintRow>): (all: seq<string>)
    ensures forall s :: s in all <==> exists i :: 0 <= i < |rows| && s in rows[i].reductionSuggestions
  {
    if rows == [] then []
    else
      var rest := AllSuggestions(rows[1..]);
      assert forall s :: s in rest <==> exists i :: 1 <= i < |rows| && s in rows[i].reductionSuggestions by {
        forall s | s in rest ensures exists i :: 1 <= i < |rows| && s in rows[i].reductionSuggestions {
          var k :| 0 <= k < |rows[1..]| && s in rows[1..][k].reductionSuggestions;
          assert rows[k + 1] == rows[1..][k];
        }
        forall s, i | 1 <= i < |rows| && s in rows[i].reductionSuggestions ensures s in rest {
          assert rows[1..][i - 1] == rows[i];
        }
      }
      rows[0].reductionSuggestions + rest
  }

  /** Every piece of advice survives de-duplication. */
  lemma SuggestionKept(rows: seq<FootprintRow>, i: nat, s: string)
    requires i < |rows| && s in rows[i].reductionSuggestions
    ensures s in Dedupe(AllSuggestions(rows))
  {
    var all := AllSuggestions(rows);
    assert s in all;
    var k :| 0 <= k < |all| && all[k] == s;
  }

  /** `[...new Set(all)].slice(0, 5)`: the first five distinct pieces of
      advice, or all of them when there are fewer. */
  function UniqueSuggestions(rows: seq<FootprintRow>): (unique: seq<string>)
    ensures |unique| <= MaxSuggestions
    ensures var distinct := Dedupe(AllSuggestions(rows));
            && |unique| == (if |distinct| < MaxSuggestions then |distinct| else MaxSuggestions)
            && unique == distinct[..|unique|]
  {
    var distinct := Dedupe(AllSuggestions(rows));
    if |distinct| <= MaxSuggestions then distinct else distinct[..MaxSuggestions]
  }

  /** The advice shown has no repeats, comes from the rows, and, when fewer
      than five are shown, includes every piece of advice of every row. */
  lemma UniqueSuggestionsSound(rows: seq<FootprintRow>)
    ensures NoDuplicates(UniqueSuggestions(rows))
    ensures forall s :: s in UniqueSuggestions(rows) ==> exists i :: 0 <= i < |rows| && s in rows[i].reductionSuggestions
    ensures |UniqueSuggestions(rows)| < MaxSuggestions ==>
              forall i, s :: 0 <= i < |rows| && s in rows[i].reductionSuggestions ==> s in UniqueSuggestions(rows)
  {
    var all := AllSuggestions(rows);
    var distinct := Dedupe(all);
    var unique := UniqueSuggestions(rows);
    assert forall k :: 0 <= k < |unique| ==> unique[k] == distinct[k];
    forall s | s in unique ensures exists i :: 0 <= i < |rows| && s in rows[i].reductionSuggestions {
      var k :| 0 <= k < |unique| && unique[k] == s;
      assert distinct[k] in all;
    }
    if |unique| < MaxSuggestions {
      assert unique == distinct;
      forall i, s | 0 <= i < |rows| && s in rows[i].reductionSuggestions ensures s in unique {
        SuggestionKept(rows, i, s);
      }
    }
  }

  /** The rows as the query returns them: an error, no data (`null`), or rows. */
  type Query = Result<Option<seq<FootprintRow>>, Thrown>

  /** The panel's state. */
  datatype View = View(chart: seq<ChartPoint>, total: int, suggestions: seq<string>,
                       loading: bool, error: Option<string>)

  /** The state the panel mounts with. */
  const Initial: View := View([], 0, [], true, None)

  /** The state `fetchCarbonData` leaves: on an error only `error` and
      `loading` change; `null` data reads as no rows. */
  function FetchCarbonData(before: View, query: Query): (after: View)
    ensures !after.loading
    ensures query.Failure? ==>
              after == before.(loading := false, error := Some(MessageOr(query.error, LoadFallback)))
    ensures query.Success? ==>
              var rows := if query.value.Some? then query.value.value else [];
              && after.error == before.error
              && after.chart == ChartData(rows) && after.total == TotalImpact(rows)
              && after.suggestions == UniqueSuggestions(rows)
    ensures query == Success(None) ==> after.chart == [] && after.total == 0 && after.suggestions == []
  {
    match query
    case Failure(e) => before.(loading := false, error := Some(MessageOr(e, LoadFallback)))
    case Success(data) =>
      var rows := if data.Some? then data.value else [];
      before.(chart := ChartData(rows), total := TotalImpact(rows), suggestions := UniqueSuggestions(rows),
              loading := false)
  }

  /** After a failed load the panel shows no data, only the error. */
  lemma FailedLoadShowsNoData(e: Thrown)
    ensures var v := FetchCarbonData(Initial, Failure(e));
            v.chart == [] && v.total == 0 && v.suggestions == [] && v.error.Some?
  {
  }
}
