/** Threshold classification and the count/sum reductions of the CAPEX report:
    the overall summary and the per-group rows, first as specification
    functions over the normalized amounts, then as single-pass methods with
    accumulators proved equal to them. */
module Aggregation {
  import opened Normalizer

  /** The `summary` record: rows seen, rows flagged as CAPEX, their amount. */
  datatype Summary = Summary(totalRows: nat, capexRows: nat, totalCapexAmount: real)

  /** One row of the grouped report, in its column order. */
  datatype GroupRow = GroupRow(key: Cell, capexCount: nat, capexAmount: real, totalCount: nat)

  /** The `_is_capex` flag: strictly above the threshold. */
  predicate IsCapex(amount: real, threshold: real)
  {
    amount > threshold
  }

  /** Number of flagged amounts. */
  function CapexCount(amounts: seq<real>, threshold: real): (r: nat)
    ensures r <= |amounts|
  {
    if |amounts| == 0 then 0
    else
      var n := |amounts| - 1;
      CapexCount(amounts[..n], threshold) + (if IsCapex(amounts[n], threshold) then 1 else 0)
  }

  /** Sum of the flagged amounts (0.0 when none is flagged). */
  function CapexAmount(amounts: seq<real>, threshold: real): real
  {
    if |amounts| == 0 then 0.0
    else
      var n := |amounts| - 1;
      CapexAmount(amounts[..n], threshold) + (if IsCapex(amounts[n], threshold) then amounts[n] else 0.0)
  }

  /** The overall summary of a column of amounts. */
  function Summarize(amounts: seq<real>, threshold: real): (s: Summary)
    ensures s.totalRows == |amounts| && s.capexRows <= s.totalRows
  {
    Summary(|amounts|, CapexCount(amounts, threshold), CapexAmount(amounts, threshold))
  }

  /** The amounts of the rows whose key is `k`, in row order. */
  function Select(keys: seq<Cell>, amounts: seq<real>, k: Cell): (sel: seq<real>)
    requires |keys| == |amounts|
    ensures |sel| <= |keys|
  {
    if |keys| == 0 then []
    else
      var n := |keys| - 1;
      Select(keys[..n], amounts[..n], k) + (if keys[n] == k then [amounts[n]] else [])
  }

  /** The amounts of the rows whose key is present (grouping drops missing keys). */
  function Present(keys: seq<Cell>, amounts: seq<real>): (sel: seq<real>)
    requires |keys| == |amounts|
    ensures |sel| <= |keys|
  {
    if |keys| == 0 then []
    else
      var n := |keys| - 1;
      Present(keys[..n], amounts[..n]) + (if keys[n].Missing? then [] else [amounts[n]])
  }

  /** The distinct present keys, in order of first appearance. */
  function DistinctKeys(keys: seq<Cell>): (d: seq<Cell>)
    ensures |d| <= |keys|
  {
    if |keys| == 0 then []
    else
      var n := |keys| - 1;
      var d := DistinctKeys(keys[..n]);
      if keys[n].Missing? || keys[n] in d then d else d + [keys[n]]
  }

  /** The report row of group `k`: its flagged count, flagged sum and size. */
  function GroupOf(k: Cell, keys: seq<Cell>, amounts: seq<real>, threshold: real): (g: GroupRow)
    requires |keys| == |amounts|
    ensures g.key == k && g.capexCount <= g.totalCount <= |keys|
  {
    var sel := Select(keys, amounts, k);
    GroupRow(k, CapexCount(sel, threshold), CapexAmount(sel, threshold), |sel|)
  }

  /** The grouped report: one row per distinct present key. */
  function Groups(keys: seq<Cell>, amounts: seq<real>, threshold: real): (gs: seq<GroupRow>)
    requires |keys| == |amounts|
    ensures |gs| == |DistinctKeys(keys)|
  {
    var d := DistinctKeys(keys);
    seq(|d|, i requires 0 <= i < |d| => GroupOf(d[i], keys, amounts, threshold))
  }

  /** One more row added to an accumulator. */
  function AddRow(s: Summary, amount: real, threshold: real): Summary
  {
    if IsCapex(amount, threshold)
    then Summary(s.totalRows + 1, s.capexRows + 1, s.totalCapexAmount + amount)
    else Summary(s.totalRows + 1, s.capexRows, s.totalCapexAmount)
  }

  /** One more row added to a group. */
  function AddToGroup(g: GroupRow, amount: real, threshold: real): GroupRow
  {
    if IsCapex(amount, threshold)
    then GroupRow(g.key, g.capexCount + 1, g.capexAmount + amount, g.totalCount + 1)
    else GroupRow(g.key, g.capexCount, g.capexAmount, g.totalCount + 1)
  }

  /** The group opened by the first row with key `k`. */
  function NewGroup(k: Cell, amount: real, threshold: real): GroupRow
  {
    AddToGroup(GroupRow(k, 0, 0.0, 0), amount, threshold)
  }

  /** The column sums of a grouped report, as a summary record. */
  function GroupTotals(gs: seq<GroupRow>): Summary
  {
    if |gs| == 0 then Summary(0, 0, 0.0)
    else
      var s := GroupTotals(gs[..|gs| - 1]);
      var g := gs[|gs| - 1];
      Summary(s.totalRows + g.totalCount, s.capexRows + g.capexCount, s.totalCapexAmount + g.capexAmount)
  }

  // ---------------------------------------------------------------------------
  // Summary properties

  lemma SummarizeSnoc(amounts: seq<real>, a: real, threshold: real)
    ensures Summarize(amounts + [a], threshold) == AddRow(Summarize(amounts, threshold), a, threshold)
  {
    assert (amounts + [a])[..|amounts|] == amounts;
  }

  /** Every summed amount exceeds the threshold, so the flagged sum is at least
      the flagged count times the threshold. */
  lemma {:induction false} CapexAmountAtLeastCountTimesThreshold(amounts: seq<real>, threshold: real)
    ensures CapexAmount(amounts, threshold) >= CapexCount(amounts, threshold) as real * threshold
  {
    if |amounts| > 0 {
      CapexAmountAtLeastCountTimesThreshold(amounts[..|amounts| - 1], threshold);
    }
  }

  /** With a non-negative threshold the flagged sum is non-negative. */
  lemma {:induction false} CapexAmountNonNegative(amounts: seq<real>, threshold: real)
    requires threshold >= 0.0
    ensures CapexAmount(amounts, threshold) >= 0.0
  {
    CapexAmountAtLeastCountTimesThreshold(amounts, threshold);
  }

  /** The summary's bounds: the flagged sum is at least the flagged count
      times the threshold, and non-negative for a non-negative threshold. */
  lemma SummaryBounds(amounts: seq<real>, threshold: real)
    ensures var s := Summarize(amounts, threshold);
      s.totalCapexAmount >= s.capexRows as real * threshold
      && (threshold >= 0.0 ==> s.totalCapexAmount >= 0.0)
  {
    CapexAmountAtLeastCountTimesThreshold(amounts, threshold);
    if threshold >= 0.0 {
      CapexAmountNonNegative(amounts, threshold);
    }
  }

  /** When no amount is negative the flagged sum is non-negative, whatever the
      threshold. */
  lemma {:induction false} CapexAmountOfNonNegative(amounts: seq<real>, threshold: real)
    requires forall i :: 0 <= i < |amounts| ==> amounts[i] >= 0.0
    ensures CapexAmount(amounts, threshold) >= 0.0
  {
    if |amounts| > 0 {
      var n := |amounts| - 1;
      var prefix := amounts[..n];
      assert forall i :: 0 <= i < n ==> prefix[i] == amounts[i];
      CapexAmountOfNonNegative(prefix, threshold);
    }
  }

  /** No row is flagged exactly when every amount is at most the threshold;
      the flagged sum is then 0.0. */
  lemma {:induction false} NoneFlagged(amounts: seq<real>, threshold: real)
    ensures CapexCount(amounts, threshold) == 0 <==>
            forall i :: 0 <= i < |amounts| ==> amounts[i] <= threshold
    ensures CapexCount(amounts, threshold) == 0 ==> CapexAmount(amounts, threshold) == 0.0
  {
    if |amounts| > 0 {
      var n := |amounts| - 1;
      NoneFlagged(amounts[..n], threshold);
      if CapexCount(amounts, threshold) == 0 {
        forall i | 0 <= i < |amounts| ensures amounts[i] <= threshold {
          if i < n { assert amounts[..n][i] == amounts[i]; }
        }
      }
      if forall i :: 0 <= i < |amounts| ==> amounts[i] <= threshold {
        assert forall i :: 0 <= i < n ==> amounts[..n][i] <= threshold;
      }
    }
  }

  /** Every amount above the threshold is flagged: then all rows count. */
  lemma {:induction false} AllFlagged(amounts: seq<real>, threshold: real)
    ensures CapexCount(amounts, threshold) == |amounts| <==>
            forall i :: 0 <= i < |amounts| ==> amounts[i] > threshold
  {
    if |amounts| > 0 {
      var n := |amounts| - 1;
      AllFlagged(amounts[..n], threshold);
      if CapexCount(amounts, threshold) == |amounts| {
        forall i | 0 <= i < |amounts| ensures amounts[i] > threshold {
          if i < n { assert amounts[..n][i] == amounts[i]; }
        }
      }
      if forall i :: 0 <= i < |amounts| ==> amounts[i] > threshold {
        assert forall i :: 0 <= i < n ==> amounts[..n][i] > threshold;
      }
    }
  }

  /** The boundary is strict: an amount equal to the threshold is not CAPEX,
      any amount above it is. */
  lemma ThresholdIsStrict(threshold: real, epsilon: real)
    requires epsilon > 0.0
    ensures Summarize([threshold], threshold) == Summary(1, 0, 0.0)
    ensures Summarize([threshold + epsilon], threshold) == Summary(1, 1, threshold + epsilon)
  {
    SummarizeSnoc([], threshold, threshold);
    SummarizeSnoc([], threshold + epsilon, threshold);
  }

  // ---------------------------------------------------------------------------
  // Grouping properties

  lemma SelectSnoc(keys: seq<Cell>, amounts: seq<real>, k: Cell, a: real, j: Cell)
    requires |keys| == |amounts|
    ensures Select(keys + [k], amounts + [a], j) ==
            Select(keys, amounts, j) + (if k == j then [a] else [])
  {
    assert (keys + [k])[..|keys|] == keys;
    assert (amounts + [a])[..|amounts|] == amounts;
  }

  lemma DistinctKeysSnoc(keys: seq<Cell>, k: Cell)
    ensures DistinctKeys(keys + [k]) ==
            if k.Missing? || k in DistinctKeys(keys) then DistinctKeys(keys) else DistinctKeys(keys) + [k]
  {
    assert (keys + [k])[..|keys|] == keys;
  }

  /** The grouped keys are exactly the present keys, each listed once. */
  lemma {:induction false} DistinctKeysSound(keys: seq<Cell>)
    ensures forall k :: k in DistinctKeys(keys) <==> k in keys && !k.Missing?
    ensures forall i, j :: 0 <= i < j < |DistinctKeys(keys)| ==> DistinctKeys(keys)[i] != DistinctKeys(keys)[j]
  {
    if |keys| > 0 {
      var n := |keys| - 1;
      DistinctKeysSound(keys[..n]);
      assert keys == keys[..n] + [keys[n]];
    }
  }

  /** A key that never occurs selects nothing. */
  lemma {:induction false} SelectAbsent(keys: seq<Cell>, amounts: seq<real>, k: Cell)
    requires |keys| == |amounts|
    requires k !in keys
    ensures Select(keys, amounts, k) == []
  {
    if |keys| > 0 {
      var n := |keys| - 1;
      assert keys[n] != k;
      assert forall x :: x in keys[..n] ==> x in keys;
      SelectAbsent(keys[..n], amounts[..n], k);
    }
  }

  /** A key that occurs selects at least one row. */
  lemma {:induction false} SelectPresent(keys: seq<Cell>, amounts: seq<real>, k: Cell)
    requires |keys| == |amounts|
    requires k in keys
    ensures |Select(keys, amounts, k)| >= 1
  {
    var n := |keys| - 1;
    if keys[n] != k {
      assert k in keys[..n] by {
        var i :| 0 <= i < |keys| && keys[i] == k;
        assert keys[..n][i] == k;
      }
      SelectPresent(keys[..n], amounts[..n], k);
    }
  }

  /** A new row changes only the group of its own key. */
  lemma GroupOfSnoc(j: Cell, keys: seq<Cell>, amounts: seq<real>, k: Cell, a: real, threshold: real)
    requires |keys| == |amounts|
    ensures GroupOf(j, keys + [k], amounts + [a], threshold) ==
            if k == j then AddToGroup(GroupOf(j, keys, amounts, threshold), a, threshold)
            else GroupOf(j, keys, amounts, threshold)
  {
    var sel, sel' := Select(keys, amounts, j), Select(keys + [k], amounts + [a], j);
    SelectSnoc(keys, amounts, k, a, j);
    if k == j {
      assert sel' == sel + [a];
      SummarizeSnoc(sel, a, threshold);
    } else {
      assert sel' == sel;
    }
  }

  /** A row with a missing key leaves the grouped report unchanged. */
  lemma GroupsSnocMissing(keys: seq<Cell>, amounts: seq<real>, k: Cell, a: real, threshold: real)
    requires |keys| == |amounts|
    requires k.Missing?
    ensures Groups(keys + [k], amounts + [a], threshold) == Groups(keys, amounts, threshold)
  {
    DistinctKeysSnoc(keys, k);
    DistinctKeysSound(keys);
    var d := DistinctKeys(keys);
    var before, after := Groups(keys, amounts, threshold), Groups(keys + [k], amounts + [a], threshold);
    forall i | 0 <= i < |d| ensures after[i] == before[i] {
      assert d[i] in d;
      GroupOfSnoc(d[i], keys, amounts, k, a, threshold);
    }
  }

  /** A row whose key already has group `j` adds itself to that group only. */
  lemma GroupsSnocExisting(keys: seq<Cell>, amounts: seq<real>, k: Cell, a: real, threshold: real, j: nat)
    requires |keys| == |amounts|
    requires j < |DistinctKeys(keys)| && DistinctKeys(keys)[j] == k
    ensures Groups(keys + [k], amounts + [a], threshold) ==
            Groups(keys, amounts, threshold)[j := AddToGroup(Groups(keys, amounts, threshold)[j], a, threshold)]
  {
    DistinctKeysSnoc(keys, k);
    DistinctKeysSound(keys);
    var d := DistinctKeys(keys);
    var before, after := Groups(keys, amounts, threshold), Groups(keys + [k], amounts + [a], threshold);
    var updated := before[j := AddToGroup(before[j], a, threshold)];
    forall i | 0 <= i < |d| ensures after[i] == updated[i] {
      GroupOfSnoc(d[i], keys, amounts, k, a, threshold);
    }
  }

  /** A row with a new present key opens a new last group. */
  lemma GroupsSnocNew(keys: seq<Cell>, amounts: seq<real>, k: Cell, a: real, threshold: real)
    requires |keys| == |amounts|
    requires !k.Missing? && k !in DistinctKeys(keys)
    ensures Groups(keys + [k], amounts + [a], threshold) ==
            Groups(keys, amounts, threshold) + [NewGroup(k, a, threshold)]
  {
    DistinctKeysSnoc(keys, k);
    DistinctKeysSound(keys);
    var d := DistinctKeys(keys);
    var before, after := Groups(keys, amounts, threshold), Groups(keys + [k], amounts + [a], threshold);
    var extended := before + [NewGroup(k, a, threshold)];
    forall i | 0 <= i < |d| ensures after[i] == extended[i] {
      assert d[i] in d;
      GroupOfSnoc(d[i], keys, amounts, k, a, threshold);
    }
    SelectAbsent(keys, amounts, k);
    GroupOfSnoc(k, keys, amounts, k, a, threshold);
    assert after[|d|] == extended[|d|];
  }

  lemma {:induction false} GroupTotalsUpdate(gs: seq<GroupRow>, j: nat, a: real, threshold: real)
    requires j < |gs|
    ensures GroupTotals(gs[j := AddToGroup(gs[j], a, threshold)]) == AddRow(GroupTotals(gs), a, threshold)
  {
    var n := |gs| - 1;
    var gs' := gs[j := AddToGroup(gs[j], a, threshold)];
    assert gs'[..n] == if j < n then gs[..n][j := AddToGroup(gs[j], a, threshold)] else gs[..n];
    if j < n {
      GroupTotalsUpdate(gs[..n], j, a, threshold);
    }
  }

  lemma GroupTotalsSnoc(gs: seq<GroupRow>, g: GroupRow)
    ensures GroupTotals(gs + [g]) ==
            Summary(GroupTotals(gs).totalRows + g.totalCount, GroupTotals(gs).capexRows + g.capexCount,
                    GroupTotals(gs).totalCapexAmount + g.capexAmount)
  {
    assert (gs + [g])[..|gs|] == gs;
  }

  lemma PresentSnoc(keys: seq<Cell>, amounts: seq<real>, k: Cell, a: real)
    requires |keys| == |amounts|
    ensures Present(keys + [k], amounts + [a]) == Present(keys, amounts) + (if k.Missing? then [] else [a])
  {
    assert (keys + [k])[..|keys|] == keys;
    assert (amounts + [a])[..|amounts|] == amounts;
  }

  lemma GroupTotalsStepExisting(keys: seq<Cell>, amounts: seq<real>, k: Cell, a: real, threshold: real)
    requires |keys| == |amounts|
    requires k in DistinctKeys(keys)
    ensures GroupTotals(Groups(keys + [k], amounts + [a], threshold))
            == AddRow(GroupTotals(Groups(keys, amounts, threshold)), a, threshold)
  {
    var j :| 0 <= j < |DistinctKeys(keys)| && DistinctKeys(keys)[j] == k;
    GroupsSnocExisting(keys, amounts, k, a, threshold, j);
    GroupTotalsUpdate(Groups(keys, amounts, threshold), j, a, threshold);
  }

  lemma GroupTotalsStepNew(keys: seq<Cell>, amounts: seq<real>, k: Cell, a: real, threshold: real)
    requires |keys| == |amounts|
    requires !k.Missing? && k !in DistinctKeys(keys)
    ensures GroupTotals(Groups(keys + [k], amounts + [a], threshold))
            == AddRow(GroupTotals(Groups(keys, amounts, threshold)), a, threshold)
  {
    GroupsSnocNew(keys, amounts, k, a, threshold);
    GroupTotalsSnoc(Groups(keys, amounts, threshold), NewGroup(k, a, threshold));
  }

  /** One more row keeps the group columns' sums equal to the summary of the
      rows with a present key. */
  lemma GroupTotalsStep(keys: seq<Cell>, amounts: seq<real>, k: Cell, a: real, threshold: real)
    requires |keys| == |amounts|
    requires GroupTotals(Groups(keys, amounts, threshold)) == Summarize(Present(keys, amounts), threshold)
    ensures GroupTotals(Groups(keys + [k], amounts + [a], threshold))
            == Summarize(Present(keys + [k], amounts + [a]), threshold)
  {
    var p := Present(keys, amounts);
    PresentSnoc(keys, amounts, k, a);
    if k.Missing? {
      GroupsSnocMissing(keys, amounts, k, a, threshold);
      assert p + [] == p;
    } else {
      SummarizeSnoc(p, a, threshold);
      if k in DistinctKeys(keys) {
        GroupTotalsStepExisting(keys, amounts, k, a, threshold);
      } else {
        GroupTotalsStepNew(keys, amounts, k, a, threshold);
      }
    }
  }

  /** Summed over all groups, the grouped columns give the summary of the rows
      whose key is present: total_count adds up to their number, capex_count
      to their flagged count and capex_amount to their flagged sum. */
  lemma {:induction false} GroupTotalsArePresentSummary(keys: seq<Cell>, amounts: seq<real>, threshold: real)
    requires |keys| == |amounts|
    ensures GroupTotals(Groups(keys, amounts, threshold)) == Summarize(Present(keys, amounts), threshold)
  {
    if |keys| > 0 {
      var n := |keys| - 1;
      var ks, ams := keys[..n], amounts[..n];
      assert ks + [keys[n]] == keys;
      assert ams + [amounts[n]] == amounts;
      GroupTotalsArePresentSummary(ks, ams, threshold);
      GroupTotalsStep(ks, ams, keys[n], amounts[n], threshold);
    }
  }

  lemma {:induction false} PresentAll(keys: seq<Cell>, amounts: seq<real>)
    requires |keys| == |amounts|
    requires Missing !in keys
    ensures Present(keys, amounts) == amounts
  {
    if |keys| > 0 {
      var n := |keys| - 1;
      assert forall x :: x in keys[..n] ==> x in keys;
      PresentAll(keys[..n], amounts[..n]);
      assert amounts == amounts[..n] + [amounts[n]];
    }
  }

  /** When every key is present, the group columns add up to the overall summary. */
  lemma GroupTotalsMatchSummary(keys: seq<Cell>, amounts: seq<real>, threshold: real)
    requires |keys| == |amounts|
    requires Missing !in keys
    ensures GroupTotals(Groups(keys, amounts, threshold)) == Summarize(amounts, threshold)
  {
    GroupTotalsArePresentSummary(keys, amounts, threshold);
    PresentAll(keys, amounts);
  }

  /** The row of a key that occurs is non-empty, its flagged count is at most
      its size, and its flagged sum is at least the flagged count times the
      threshold. */
  lemma GroupOfBounded(k: Cell, keys: seq<Cell>, amounts: seq<real>, threshold: real)
    requires |keys| == |amounts|
    requires k in keys
    ensures var g := GroupOf(k, keys, amounts, threshold);
      1 <= g.totalCount && g.capexCount <= g.totalCount
      && g.capexAmount >= g.capexCount as real * threshold
  {
    SelectPresent(keys, amounts, k);
    CapexAmountAtLeastCountTimesThreshold(Select(keys, amounts, k), threshold);
  }

  /** Each group row is about its own rows, with the bounds of GroupOfBounded. */
  lemma GroupRowsBounded(keys: seq<Cell>, amounts: seq<real>, threshold: real)
    requires |keys| == |amounts|
    ensures forall i :: 0 <= i < |Groups(keys, amounts, threshold)| ==>
      var g := Groups(keys, amounts, threshold)[i];
      1 <= g.totalCount && g.capexCount <= g.totalCount
      && g.capexAmount >= g.capexCount as real * threshold
  {
    var d := DistinctKeys(keys);
    DistinctKeysSound(keys);
    forall i | 0 <= i < |d|
      ensures var g := GroupOf(d[i], keys, amounts, threshold);
        1 <= g.totalCount && g.capexCount <= g.totalCount
        && g.capexAmount >= g.capexCount as real * threshold
    {
      assert d[i] in d;
      GroupOfBounded(d[i], keys, amounts, threshold);
    }
  }

  /** The group keys are distinct and are exactly the present keys. */
  lemma GroupKeysExact(keys: seq<Cell>, amounts: seq<real>, threshold: real)
    requires |keys| == |amounts|
    ensures forall k :: (exists i :: 0 <= i < |Groups(keys, amounts, threshold)|
                                     && Groups(keys, amounts, threshold)[i].key == k)
                        <==> k in keys && !k.Missing?
    ensures forall i, j :: 0 <= i < j < |Groups(keys, amounts, threshold)| ==>
      Groups(keys, amounts, threshold)[i].key != Groups(keys, amounts, threshold)[j].key
  {
    var d := DistinctKeys(keys);
    var gs := Groups(keys, amounts, threshold);
    DistinctKeysSound(keys);
    assert forall i :: 0 <= i < |gs| ==> gs[i].key == d[i];
    forall k | k in keys && !k.Missing?
      ensures exists i :: 0 <= i < |gs| && gs[i].key == k
    {
      var i :| 0 <= i < |d| && d[i] == k;
      assert gs[i].key == k;
    }
  }

  // ---------------------------------------------------------------------------
  // Single-pass computation with accumulators

  /** The overall summary in one pass, with a count and a sum accumulator. */
  method SummaryPass(amounts: seq<real>, threshold: real) returns (s: Summary)
    ensures s.totalRows == |amounts|
    ensures s.capexRows == CapexCount(amounts, threshold)
    ensures s.totalCapexAmount == CapexAmount(amounts, threshold)
  {
    var rows, capexRows, capexAmount := 0, 0, 0.0;
    for i := 0 to |amounts|
      invariant Summary(rows, capexRows, capexAmount) == Summarize(amounts[..i], threshold)
    {
      SummarizeSnoc(amounts[..i], amounts[i], threshold);
      assert amounts[..i + 1] == amounts[..i] + [amounts[i]];
      rows := rows + 1;
      if amounts[i] > threshold {
        capexRows := capexRows + 1;
        capexAmount := capexAmount + amounts[i];
      }
    }
    assert amounts[..|amounts|] == amounts;
    s := Summary(rows, capexRows, capexAmount);
  }

  /** The grouped report in one pass: an ordered mapping from key to the
      position of its accumulator, updated row by row; rows with a missing
      key are skipped. */
  method GroupPass(keys: seq<Cell>, amounts: seq<real>, threshold: real) returns (groups: seq<GroupRow>)
    requires |keys| == |amounts|
    ensures groups == Groups(keys, amounts, threshold)
  {
    groups := [];
    var index: map<Cell, nat> := map[];
    for i := 0 to |keys|
      invariant groups == Groups(keys[..i], amounts[..i], threshold)
      invariant forall k :: k in index <==> k in DistinctKeys(keys[..i])
      invariant forall k :: k in index ==> index[k] < |groups| && DistinctKeys(keys[..i])[index[k]] == k
    {
      var k, a := keys[i], amounts[i];
      assert keys[..i + 1] == keys[..i] + [k] && amounts[..i + 1] == amounts[..i] + [a];
      DistinctKeysSnoc(keys[..i], k);
      if k.Missing? {
        GroupsSnocMissing(keys[..i], amounts[..i], k, a, threshold);
      } else if k in index {
        var j := index[k];
        GroupsSnocExisting(keys[..i], amounts[..i], k, a, threshold, j);
        groups := groups[j := AddToGroup(groups[j], a, threshold)];
      } else {
        GroupsSnocNew(keys[..i], amounts[..i], k, a, threshold);
        index := index[k := |groups|];
        groups := groups + [NewGroup(k, a, threshold)];
      }
    }
    assert keys[..|keys|] == keys && amounts[..|amounts|] == amounts;
  }
}
