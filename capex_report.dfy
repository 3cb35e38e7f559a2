/** generate_report: the missing-column check, normalization of the CAPEX
    column, threshold flagging, the overall summary, and either the grouped
    report or the one-row fallback holding the overall totals. */
module CapexReport {
  import opened Normalizer
  import opened Aggregation

  /** An in-memory table, column by column: `height` rows, each column one
      raw cell per row. A group column is grouped by these raw cells. */
  datatype Frame = Frame(height: nat, columns: map<string, seq<Cell>>)

  /** Every column of a frame has one cell per row. */
  predicate WellFormed(df: Frame)
  {
    forall c :: c in df.columns ==> |df.columns[c]| == df.height
  }

  /** The failures of the report: the CAPEX column is absent (KeyError), or
      the group column has the name of a column of the grouped report, which
      `reset_index` cannot insert beside it (ValueError). */
  datatype Error = MissingColumn(column: string) | ColumnExists(column: string)

  /** The value columns of the grouped report. */
  const AggregateColumns: set<string> := {"capex_count", "capex_amount", "total_count"}

  /** The report table: per-group rows under the group column's name, or one
      row holding the overall totals. */
  datatype Report = Grouped(column: string, groups: seq<GroupRow>) | Overall(totals: Summary)

  datatype Outcome = Failed(error: Error) | Reported(summary: Summary, report: Report)

  /** The text the exception carries; both name the offending column at the
      same offset. */
  function Message(e: Error): (m: string)
    ensures e.MissingColumn? ==> |m| == 14 + |e.column| + 24
    ensures e.ColumnExists? ==> |m| == 14 + |e.column| + 16
    ensures m[14..14 + |e.column|] == e.column
  {
    match e
    case MissingColumn(c) => "CAPEX column '" + c + "' not found in input CSV"
    case ColumnExists(c) => "cannot insert " + c + ", already exists"
  }

  /** Whether the report is grouped: a non-empty group column name that is a
      column of the frame. */
  predicate GroupsBy(df: Frame, groupBy: Option<string>)
  {
    groupBy.Some? && groupBy.value != "" && groupBy.value in df.columns
  }

  /** Whether grouping fails because the group column has the name of one of
      the grouped report's value columns. */
  predicate NameClash(df: Frame, groupBy: Option<string>)
  {
    GroupsBy(df, groupBy) && groupBy.value in AggregateColumns
  }

  /** What generate_report returns for a frame, a CAPEX column name, an
      optional group column and a threshold, given the string parser of the
      numeric coercion. */
  function ReportOf(parse: string -> Option<real>, df: Frame, capexCol: string, groupBy: Option<string>, threshold: real): (out: Outcome)
    requires WellFormed(df)
    ensures out.Failed? <==> capexCol !in df.columns || NameClash(df, groupBy)
    ensures out.Failed? ==>
      out.error == if capexCol !in df.columns then MissingColumn(capexCol) else ColumnExists(groupBy.value)
    ensures out.Reported? ==>
      out.summary.totalRows == df.height && out.summary.capexRows <= out.summary.totalRows
    ensures out.Reported? ==> (out.report.Grouped? <==> GroupsBy(df, groupBy))
    ensures out.Reported? && out.report.Grouped? ==> out.report.column == groupBy.value
    ensures out.Reported? && out.report.Overall? ==> out.report.totals == out.summary
  {
    if capexCol !in df.columns then Failed(MissingColumn(capexCol))
    else
      var amounts := NormalizeAll(parse, df.columns[capexCol]);
      var summary := Summarize(amounts, threshold);
      if NameClash(df, groupBy) then Failed(ColumnExists(groupBy.value))
      else if GroupsBy(df, groupBy)
      then Reported(summary, Grouped(groupBy.value, Groups(df.columns[groupBy.value], amounts, threshold)))
      else Reported(summary, Overall(summary))
  }

  /** generate_report: fail before any work when the CAPEX column is absent,
      otherwise normalize it, summarize in one pass, and group in one pass
      when a usable group column is given; the grouped table cannot take a
      group column named like one of its value columns. */
  method GenerateReport(parse: string -> Option<real>, df: Frame, capexCol: string, groupBy: Option<string>, threshold: real)
    returns (out: Outcome)
    requires WellFormed(df)
    ensures out == ReportOf(parse, df, capexCol, groupBy, threshold)
  {
    if capexCol !in df.columns {
      return Failed(MissingColumn(capexCol));
    }
    var amounts := NormalizeCapex(parse, df.columns[capexCol]);
    assert amounts == NormalizeAll(parse, df.columns[capexCol]);
    var summary := SummaryPass(amounts, threshold);
    if groupBy.Some? && groupBy.value != "" && groupBy.value in df.columns {
      var groups := GroupPass(df.columns[groupBy.value], amounts, threshold);
      if groupBy.value in AggregateColumns {
        return Failed(ColumnExists(groupBy.value));
      }
      out := Reported(summary, Grouped(groupBy.value, groups));
    } else {
      out := Reported(summary, Overall(summary));
    }
  }

  // ---------------------------------------------------------------------------
  // Properties of the report

  /** The summary is the count/sum of the normalized CAPEX column, and it
      does not depend on the group column. */
  lemma SummaryIgnoresGroupBy(parse: string -> Option<real>, df: Frame, capexCol: string, g1: Option<string>, g2: Option<string>, threshold: real)
    requires WellFormed(df)
    requires capexCol in df.columns
    ensures var o1, o2 := ReportOf(parse, df, capexCol, g1, threshold), ReportOf(parse, df, capexCol, g2, threshold);
      o1.Reported? && o2.Reported? ==> o1.summary == o2.summary
    ensures var o1 := ReportOf(parse, df, capexCol, g1, threshold);
      o1.Reported? ==>
        o1.summary.capexRows == CapexCount(NormalizeAll(parse, df.columns[capexCol]), threshold)
        && o1.summary.totalCapexAmount == CapexAmount(NormalizeAll(parse, df.columns[capexCol]), threshold)
  {
  }

  /** Every summed amount exceeds the threshold: the total CAPEX amount is at
      least the CAPEX row count times the threshold, so it is non-negative
      when the threshold is. */
  lemma TotalAmountBound(parse: string -> Option<real>, df: Frame, capexCol: string, groupBy: Option<string>, threshold: real)
    requires WellFormed(df)
    requires capexCol in df.columns
    ensures var out := ReportOf(parse, df, capexCol, groupBy, threshold);
      out.Reported? ==>
        out.summary.totalCapexAmount >= out.summary.capexRows as real * threshold
        && (threshold >= 0.0 ==> out.summary.totalCapexAmount >= 0.0)
  {
    var amounts := NormalizeAll(parse, df.columns[capexCol]);
    var out := ReportOf(parse, df, capexCol, groupBy, threshold);
    if out.Reported? {
      assert out.summary == Summarize(amounts, threshold);
      SummaryBounds(amounts, threshold);
    }
  }

  /** In a grouped report the group columns add up to the summary of the
      rows whose group key is present, and to the overall summary itself when
      no group key is missing. */
  lemma GroupedReportAddsUp(parse: string -> Option<real>, df: Frame, capexCol: string, groupBy: Option<string>, threshold: real)
    requires WellFormed(df)
    requires capexCol in df.columns && GroupsBy(df, groupBy)
    ensures var out := ReportOf(parse, df, capexCol, groupBy, threshold);
      var keys := df.columns[groupBy.value];
      var amounts := NormalizeAll(parse, df.columns[capexCol]);
      out.Reported? ==>
      GroupTotals(out.report.groups) == Summarize(Present(keys, amounts), threshold)
      && (Missing !in keys ==> GroupTotals(out.report.groups) == out.summary)
  {
    var keys := df.columns[groupBy.value];
    var amounts := NormalizeAll(parse, df.columns[capexCol]);
    GroupTotalsArePresentSummary(keys, amounts, threshold);
    if Missing !in keys {
      GroupTotalsMatchSummary(keys, amounts, threshold);
    }
  }

  /** A CAPEX column in which no cell coerces to a negative number has a
      non-negative total CAPEX amount, at any threshold. */
  lemma NonNegativeColumnTotal(parse: string -> Option<real>, df: Frame, capexCol: string, groupBy: Option<string>, threshold: real)
    requires WellFormed(df)
    requires capexCol in df.columns
    requires forall i :: 0 <= i < |df.columns[capexCol]| ==>
      ToNumeric(parse, df.columns[capexCol][i]).Finite? ==> ToNumeric(parse, df.columns[capexCol][i]).value >= 0.0
    ensures var out := ReportOf(parse, df, capexCol, groupBy, threshold);
      out.Reported? ==> out.summary.totalCapexAmount >= 0.0
  {
    var col := df.columns[capexCol];
    var amounts := NormalizeAll(parse, col);
    assert forall i :: 0 <= i < |amounts| ==> amounts[i] == Amount(parse, col[i]);
    CapexAmountOfNonNegative(amounts, threshold);
  }

  lemma ExampleAmounts(parse: string -> Option<real>)
    requires parse("yes").None? && parse("0") == Some(0.0) && parse("5.5") == Some(5.5)
    ensures NormalizeAll(parse, [Text("yes"), Text("0"), Text("5.5")]) == [1.0, 0.0, 5.5]
  {
    PaddedUpperYesIsOne(parse);
  }

  lemma ExampleSummary()
    ensures Summarize([1.0, 0.0, 5.5], 0.0) == Summary(3, 2, 6.5)
  {
    var s := [1.0, 0.0, 5.5];
    assert s[..2] == [1.0, 0.0];
    assert s[..2][..1] == [1.0];
    assert [1.0][..0] == [];
    assert CapexCount(s, 0.0) == 2;
    assert CapexAmount(s, 0.0) == 6.5;
  }

  lemma ExampleKeys()
    ensures DistinctKeys([Text("A"), Text("A"), Text("B")]) == [Text("A"), Text("B")]
  {
    var ks := [Text("A"), Text("A"), Text("B")];
    assert ks[..2] == [Text("A"), Text("A")];
    assert ks[..2][..1] == [Text("A")];
    assert [Text("A")][..0] == [];
  }

  lemma ExampleSelect()
    ensures Select([Text("A"), Text("A"), Text("B")], [1.0, 0.0, 5.5], Text("A")) == [1.0, 0.0]
    ensures Select([Text("A"), Text("A"), Text("B")], [1.0, 0.0, 5.5], Text("B")) == [5.5]
  {
    var ks, ams := [Text("A"), Text("A"), Text("B")], [1.0, 0.0, 5.5];
    assert ks[..2] == [Text("A"), Text("A")] && ams[..2] == [1.0, 0.0];
    assert ks[..2][..1] == [Text("A")] && ams[..2][..1] == [1.0];
    assert [Text("A")][..0] == [] && [1.0][..0] == [];
  }

  lemma ExampleGroups()
    ensures Groups([Text("A"), Text("A"), Text("B")], [1.0, 0.0, 5.5], 0.0) ==
            [GroupRow(Text("A"), 1, 1.0, 2), GroupRow(Text("B"), 1, 5.5, 1)]
  {
    ExampleKeys();
    ExampleSelect();
    assert [1.0, 0.0][..1] == [1.0] && [1.0][..0] == [] && [5.5][..0] == [];
    assert CapexCount([1.0, 0.0], 0.0) == 1 && CapexAmount([1.0, 0.0], 0.0) == 1.0;
    assert CapexCount([5.5], 0.0) == 1 && CapexAmount([5.5], 0.0) == 5.5;
  }

  /** Three rows A:"yes", A:"0", B:"5.5" grouped by project at threshold 0.0. */
  lemma ReportExample(parse: string -> Option<real>)
    requires parse("yes").None? && parse("0") == Some(0.0) && parse("5.5") == Some(5.5)
    ensures
      var df := Frame(3, map["project" := [Text("A"), Text("A"), Text("B")],
                             "capex" := [Text("yes"), Text("0"), Text("5.5")]]);
      ReportOf(parse, df, "capex", Some("project"), 0.0) ==
        Reported(Summary(3, 2, 6.5),
                 Grouped("project", [GroupRow(Text("A"), 1, 1.0, 2), GroupRow(Text("B"), 1, 5.5, 1)]))
  {
    ExampleAmounts(parse);
    ExampleSummary();
    ExampleGroups();
  }

  lemma RawKeysDistinct()
    ensures DistinctKeys([Text("5"), Text("5.0")]) == [Text("5"), Text("5.0")]
  {
    var ks := [Text("5"), Text("5.0")];
    assert ks[..1] == [Text("5")];
    assert [Text("5")][..0] == [];
    assert Text("5.0") !in [Text("5")];
  }

  lemma RawKeysSelect()
    ensures Select([Text("5"), Text("5.0")], [5.0, 5.0], Text("5")) == [5.0]
    ensures Select([Text("5"), Text("5.0")], [5.0, 5.0], Text("5.0")) == [5.0]
  {
    var ks, ams := [Text("5"), Text("5.0")], [5.0, 5.0];
    assert ks[..1] == [Text("5")] && ams[..1] == [5.0];
    assert [Text("5")][..0] == [] && [5.0][..0] == [];
    assert Text("5") != Text("5.0");
  }

  lemma RawKeysGroups()
    ensures Groups([Text("5"), Text("5.0")], [5.0, 5.0], 0.0) ==
            [GroupRow(Text("5"), 1, 5.0, 1), GroupRow(Text("5.0"), 1, 5.0, 1)]
  {
    RawKeysDistinct();
    RawKeysSelect();
    assert [5.0][..0] == [];
    assert CapexCount([5.0], 0.0) == 1 && CapexAmount([5.0], 0.0) == 5.0;
  }

  /** Grouping by the CAPEX column itself groups its raw cells: "5" and "5.0"
      coerce to the same amount but stay two groups. */
  lemma GroupByCapexColumnKeepsRawKeys(parse: string -> Option<real>)
    requires parse("5") == Some(5.0) && parse("5.0") == Some(5.0)
    ensures
      var df := Frame(2, map["capex" := [Text("5"), Text("5.0")]]);
      ReportOf(parse, df, "capex", Some("capex"), 0.0) ==
        Reported(Summary(2, 2, 10.0),
                 Grouped("capex", [GroupRow(Text("5"), 1, 5.0, 1), GroupRow(Text("5.0"), 1, 5.0, 1)]))
  {
    var ams := [5.0, 5.0];
    assert NormalizeAll(parse, [Text("5"), Text("5.0")]) == ams;
    assert ams[..1] == [5.0] && [5.0][..0] == [];
    assert Summarize(ams, 0.0) == Summary(2, 2, 10.0);
    RawKeysGroups();
  }

  /** Grouping by a caller column named `total_count` fails: the grouped
      report already has a column of that name. */
  lemma NameClashExample(parse: string -> Option<real>)
    ensures
      var df := Frame(1, map["capex" := [Num(1.0)], "total_count" := [Text("A")]]);
      ReportOf(parse, df, "capex", Some("total_count"), 0.0) == Failed(ColumnExists("total_count"))
  {
  }
}
