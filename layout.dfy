/** The grouped row layout both scripts run before drawing: every entry of every
    group gets the next row index, one row is skipped after each group, each group's
    span is recorded before its entries are placed, and the tick positions and tick
    labels are collected in two lists. */
module GroupedLayout {
  import opened Decimal
  import opened TickLabels

  /** One fitted amplitude `[value, err_low, err_up]`; the layout never looks inside. */
  datatype Entry = Entry(value: real, errLow: real, errUp: real)

  /** One key of the `data` dict with its list of entries. */
  datatype Group = Group(name: string, entries: seq<Entry>)

  /** The `{'min': ..., 'max': ...}` record kept per group in `y_groups`. */
  datatype Span = Span(min: int, max: int)

  /** The keys of a Python dict are pairwise different. */
  predicate DistinctNames(gs: seq<Group>)
  {
    forall j, k :: 0 <= j < k < |gs| ==> gs[j].name != gs[k].name
  }

  function TotalEntries(gs: seq<Group>): nat
  {
    if gs == [] then 0 else TotalEntries(gs[..|gs| - 1]) + |gs[|gs| - 1].entries|
  }

  /** The value of `y_index` after the groups `gs`: one row per entry and one
      separator row per group. */
  function RowsUsed(gs: seq<Group>): nat
  {
    TotalEntries(gs) + |gs|
  }

  /** The row of the first entry of group `g` (the value of `y_index` when the
      loop reaches it). */
  function Start(gs: seq<Group>, g: nat): nat
    requires g <= |gs|
  {
    RowsUsed(gs[..g])
  }

  /** The span the loop records for group `g`: `max = min + len(entries) - 1`. */
  function SpanOf(gs: seq<Group>, g: nat): Span
    requires g < |gs|
  {
    Span(Start(gs, g), Start(gs, g) + |gs[g].entries| - 1)
  }

  /** The rows `start, start + 1, ..., start + n - 1`. */
  function RowRange(start: nat, n: nat): seq<int>
  {
    if n == 0 then [] else RowRange(start, n - 1) + [start + n - 1]
  }

  /** The whole `yticks` list: the rows of all entries, group after group. */
  function Ticks(gs: seq<Group>): seq<int>
  {
    if gs == [] then []
    else Ticks(gs[..|gs| - 1]) + RowRange(RowsUsed(gs[..|gs| - 1]), |gs[|gs| - 1].entries|)
  }

  /** The labels appended for the first `n` entries of group `name`. */
  function GroupLabels(rule: LabelRule, name: string, n: nat): seq<string>
  {
    if n == 0 then [] else GroupLabels(rule, name, n - 1) + Appended(rule, name, n - 1)
  }

  /** What the loop appends to `yticklabels` for the entry at position `i`. */
  function Appended(rule: LabelRule, name: string, i: nat): seq<string>
  {
    match LabelFor(rule, name, i)
    case Some(l) => [l]
    case None => []
  }

  /** The whole `yticklabels` list. */
  function Labels(rule: LabelRule, gs: seq<Group>): seq<string>
  {
    if gs == [] then []
    else Labels(rule, gs[..|gs| - 1]) + GroupLabels(rule, gs[|gs| - 1].name, |gs[|gs| - 1].entries|)
  }

  /** The `y_groups` dict, written group after group. */
  function Spans(gs: seq<Group>): map<string, Span>
  {
    if gs == [] then map[]
    else
      var init := gs[..|gs| - 1];
      Spans(init)[gs[|gs| - 1].name := Span(RowsUsed(init), RowsUsed(init) + |gs[|gs| - 1].entries| - 1)]
  }

  /** Laying out one more group extends every output by that group's part. */
  lemma PrefixStep(rule: LabelRule, gs: seq<Group>, g: nat)
    requires g < |gs|
    ensures Ticks(gs[..g + 1]) == Ticks(gs[..g]) + RowRange(RowsUsed(gs[..g]), |gs[g].entries|)
    ensures Labels(rule, gs[..g + 1]) == Labels(rule, gs[..g]) + GroupLabels(rule, gs[g].name, |gs[g].entries|)
    ensures RowsUsed(gs[..g + 1]) == RowsUsed(gs[..g]) + |gs[g].entries| + 1
    ensures Spans(gs[..g + 1]) == Spans(gs[..g])[gs[g].name := SpanOf(gs, g)]
  {
    assert gs[..g + 1][..g] == gs[..g];
  }

  lemma RowsStep(gs: seq<Group>, g: nat)
    requires g < |gs|
    ensures TotalEntries(gs[..g + 1]) == TotalEntries(gs[..g]) + |gs[g].entries|
    ensures Start(gs, g + 1) == Start(gs, g) + |gs[g].entries| + 1
  {
    assert gs[..g + 1][..g] == gs[..g];
  }

  lemma {:induction false} RowRangeAt(start: nat, n: nat)
    ensures |RowRange(start, n)| == n
    ensures forall k :: 0 <= k < n ==> RowRange(start, n)[k] == start + k
  {
    if n > 0 { RowRangeAt(start, n - 1); }
  }

  /** `yticks` has exactly one element per entry. */
  lemma {:induction false} TicksLength(gs: seq<Group>)
    ensures |Ticks(gs)| == TotalEntries(gs)
  {
    if gs != [] {
      TicksLength(gs[..|gs| - 1]);
      RowRangeAt(RowsUsed(gs[..|gs| - 1]), |gs[|gs| - 1].entries|);
    }
  }

  /** The entry at position `i` of group `g` is the `TotalEntries(gs[..g]) + i`-th
      tick overall, and its row is the group's start row plus `i`. */
  lemma {:induction false} TickAt(gs: seq<Group>, g: nat, i: nat)
    requires g < |gs| && i < |gs[g].entries|
    ensures TotalEntries(gs[..g]) + i < |Ticks(gs)|
    ensures Ticks(gs)[TotalEntries(gs[..g]) + i] == Start(gs, g) + i
  {
    var init := gs[..|gs| - 1];
    TicksLength(gs);
    TicksLength(init);
    if g == |gs| - 1 {
      assert init == gs[..g];
      RowRangeAt(RowsUsed(init), |gs[g].entries|);
    } else {
      assert init[..g] == gs[..g];
      TickAt(init, g, i);
    }
  }

  /** Rows are handed out in strictly increasing order, all of them non-negative
      and below the separator row that closes the last group. */
  lemma {:induction false} TicksIncreasing(gs: seq<Group>)
    ensures forall k :: 0 <= k < |Ticks(gs)| ==> 0 <= Ticks(gs)[k] < RowsUsed(gs) - 1
    ensures forall j, k :: 0 <= j < k < |Ticks(gs)| ==> Ticks(gs)[j] < Ticks(gs)[k]
  {
    if gs != [] {
      var init := gs[..|gs| - 1];
      TicksIncreasing(init);
      RowRangeAt(RowsUsed(init), |gs[|gs| - 1].entries|);
    }
  }

  lemma {:induction false} StartMonotone(gs: seq<Group>, g: nat, h: nat)
    requires g <= h <= |gs|
    ensures Start(gs, g) <= Start(gs, h)
    decreases h
  {
    if g < h {
      StartMonotone(gs, g, h - 1);
      RowsStep(gs, h - 1);
    }
  }

  /** The row right after group `g` (its separator) is given to no entry. */
  lemma {:induction false} SeparatorUnused(gs: seq<Group>, g: nat)
    requires g < |gs|
    ensures Start(gs, g) + |gs[g].entries| !in Ticks(gs)
  {
    var n := |gs|;
    var init := gs[..n - 1];
    var sep := Start(gs, g) + |gs[g].entries|;
    TicksIncreasing(init);
    RowRangeAt(RowsUsed(init), |gs[n - 1].entries|);
    if g == n - 1 {
      assert init == gs[..g];
    } else {
      assert init[..g] == gs[..g];
      SeparatorUnused(init, g);
      RowsStep(init, g);
      StartMonotone(init, g + 1, |init|);
      assert init[..|init|] == init;
    }
  }

  /** Between the last entry of one non-empty group and the first entry of the next
      non-empty group exactly one row is left out. */
  lemma GapBetweenGroups(gs: seq<Group>, g: nat)
    requires g + 1 < |gs| && gs[g].entries != [] && gs[g + 1].entries != []
    ensures 0 < TotalEntries(gs[..g + 1]) < |Ticks(gs)|
    ensures Ticks(gs)[TotalEntries(gs[..g + 1])] == Ticks(gs)[TotalEntries(gs[..g + 1]) - 1] + 2
  {
    RowsStep(gs, g);
    TickAt(gs, g, |gs[g].entries| - 1);
    TickAt(gs, g + 1, 0);
  }

  /** A group's span runs from the row of its first entry to the row of its last,
      so its width is its entry count; an empty group gets `max == min - 1`. */
  lemma SpanMatchesTicks(gs: seq<Group>, g: nat)
    requires g < |gs|
    ensures SpanOf(gs, g).max - SpanOf(gs, g).min + 1 == |gs[g].entries|
    ensures gs[g].entries != [] ==>
      TotalEntries(gs[..g]) + |gs[g].entries| <= |Ticks(gs)| &&
      Ticks(gs)[TotalEntries(gs[..g])] == SpanOf(gs, g).min &&
      Ticks(gs)[TotalEntries(gs[..g]) + |gs[g].entries| - 1] == SpanOf(gs, g).max
  {
    if gs[g].entries != [] {
      TickAt(gs, g, 0);
      TickAt(gs, g, |gs[g].entries| - 1);
    }
  }

  /** `y_groups` has one key per group name. */
  lemma {:induction false} SpansKeys(gs: seq<Group>)
    ensures forall k :: k in Spans(gs) <==> exists g :: 0 <= g < |gs| && gs[g].name == k
  {
    if gs != [] {
      var n := |gs|;
      var init := gs[..n - 1];
      SpansKeys(init);
      assert Spans(gs).Keys == Spans(init).Keys + {gs[n - 1].name};
      forall k | k in Spans(gs) ensures exists g :: 0 <= g < n && gs[g].name == k {
        if k != gs[n - 1].name {
          assert k in Spans(init);
          var g :| 0 <= g < |init| && init[g].name == k;
          assert gs[g].name == k;
        }
      }
      forall k | exists g :: 0 <= g < n && gs[g].name == k ensures k in Spans(gs) {
        var g :| 0 <= g < n && gs[g].name == k;
        if g < n - 1 { assert init[g].name == k; }
      }
    }
  }

  /** With distinct group names (as in a dict), the span `y_groups` keeps for
      group `g` is the one recorded when the loop reached it. */
  lemma {:induction false} SpanLookup(gs: seq<Group>, g: nat)
    requires DistinctNames(gs) && g < |gs|
    ensures gs[g].name in Spans(gs) && Spans(gs)[gs[g].name] == SpanOf(gs, g)
  {
    var n := |gs|;
    var init := gs[..n - 1];
    if g == n - 1 {
      assert init == gs[..g];
    } else {
      assert DistinctNames(init) by {
        forall j, k | 0 <= j < k < |init| ensures init[j].name != init[k].name {
          assert init[j] == gs[j] && init[k] == gs[k];
        }
      }
      SpanLookup(init, g);
      assert init[..g] == gs[..g];
      assert gs[g].name != gs[n - 1].name;
    }
  }

  lemma {:induction false} GroupLabelsShape(rule: LabelRule, name: string, n: nat)
    ensures |GroupLabels(rule, name, n)| == if Labelled(rule, name) then n else 0
    ensures Labelled(rule, name) ==>
      forall i :: 0 <= i < n ==> GroupLabels(rule, name, n)[i] == LabelFor(rule, name, i).value
  {
    if n > 0 {
      GroupLabelsShape(rule, name, n - 1);
      var r := LabelFor(rule, name, n - 1);
      if Labelled(rule, name) {
        assert Appended(rule, name, n - 1) == [r.value];
        var prev := GroupLabels(rule, name, n - 1);
        assert GroupLabels(rule, name, n) == prev + [r.value];
        forall i | 0 <= i < n ensures GroupLabels(rule, name, n)[i] == LabelFor(rule, name, i).value {
          if i < n - 1 { assert GroupLabels(rule, name, n)[i] == prev[i]; }
        }
      } else {
        assert Appended(rule, name, n - 1) == [];
      }
    }
  }

  /** Every group that has entries gets tick labels under `rule`. */
  predicate AllLabelled(rule: LabelRule, gs: seq<Group>)
  {
    forall g :: 0 <= g < |gs| && gs[g].entries != [] ==> Labelled(rule, gs[g].name)
  }

  lemma AllLabelledStep(rule: LabelRule, gs: seq<Group>)
    requires gs != []
    ensures AllLabelled(rule, gs) <==>
      AllLabelled(rule, gs[..|gs| - 1]) &&
      (gs[|gs| - 1].entries != [] ==> Labelled(rule, gs[|gs| - 1].name))
  {
    var init := gs[..|gs| - 1];
    if AllLabelled(rule, init) && (gs[|gs| - 1].entries != [] ==> Labelled(rule, gs[|gs| - 1].name)) {
      forall g | 0 <= g < |gs| && gs[g].entries != [] ensures Labelled(rule, gs[g].name) {
        if g < |init| { assert init[g] == gs[g]; }
      }
    }
  }

  /** `yticklabels` never outgrows `yticks`, and the two lists have the same length
      exactly when every group that has entries is labelled by `rule`. */
  lemma {:induction false} LabelsParallel(rule: LabelRule, gs: seq<Group>)
    ensures |Labels(rule, gs)| <= |Ticks(gs)|
    ensures |Labels(rule, gs)| == |Ticks(gs)| <==> AllLabelled(rule, gs)
  {
    TicksLength(gs);
    if gs != [] {
      var init := gs[..|gs| - 1];
      var last := gs[|gs| - 1];
      LabelsParallel(rule, init);
      TicksLength(init);
      GroupLabelsShape(rule, last.name, |last.entries|);
      AllLabelledStep(rule, gs);
    }
  }

  lemma LabelsLength(rule: LabelRule, gs: seq<Group>)
    requires AllLabelled(rule, gs)
    ensures |Labels(rule, gs)| == TotalEntries(gs)
  {
    LabelsParallel(rule, gs);
    TicksLength(gs);
  }

  /** When every group is labelled, the `TotalEntries(gs[..g]) + i`-th tick label is
      the label `rule` gives the entry at position `i` of group `g`, so it sits
      beside that entry's tick. */
  lemma {:induction false} LabelAt(rule: LabelRule, gs: seq<Group>, g: nat, i: nat)
    requires AllLabelled(rule, gs) && g < |gs| && i < |gs[g].entries|
    ensures TotalEntries(gs[..g]) + i < |Labels(rule, gs)|
    ensures Labels(rule, gs)[TotalEntries(gs[..g]) + i] == LabelFor(rule, gs[g].name, i).value
  {
    var init := gs[..|gs| - 1];
    var last := gs[|gs| - 1];
    var idx := TotalEntries(gs[..g]) + i;
    AllLabelledStep(rule, gs);
    LabelsLength(rule, init);
    assert Labels(rule, gs) == Labels(rule, init) + GroupLabels(rule, last.name, |last.entries|);
    if g == |gs| - 1 {
      assert init == gs[..g];
      GroupLabelsShape(rule, last.name, |last.entries|);
      assert Labels(rule, gs)[idx] == GroupLabels(rule, last.name, |last.entries|)[i];
    } else {
      assert init[..g] == gs[..g];
      LabelAt(rule, init, g, i);
      assert Labels(rule, gs)[idx] == Labels(rule, init)[idx];
    }
  }

  /** A group "A" with one entry followed by a group "B" with two: A's entry goes
      to row 0, row 1 is the separator, B's entries go to rows 2 and 3, and the
      spans are (0, 0) and (2, 3). */
  lemma TwoGroupsExample(gs: seq<Group>)
    requires gs == [Group("A", [Entry(1.0, 0.1, 0.1)]), Group("B", [Entry(2.0, 0.2, 0.2), Entry(3.0, 0.1, 0.3)])]
    ensures Ticks(gs) == [0, 2, 3]
    ensures Spans(gs) == map["A" := Span(0, 0), "B" := Span(2, 3)]
    ensures RowsUsed(gs) == 5
  {
    var a := gs[..1];
    assert a[..0] == [] && gs[..|gs| - 1] == a;
    assert Ticks(a) == [0] && RowsUsed(a) == 2;
    assert RowRange(2, 2) == [2, 3];
    assert Spans(a) == map["A" := Span(0, 0)];
    assert Spans(gs) == Spans(a)["B" := Span(2, 3)];
  }

  /** The inner loop over one group's entries: each entry takes the row `yIndex`
      and the counter moves on by one; the label `rule` gives it (if any) is appended. */
  method PlaceEntries(rule: LabelRule, name: string, entries: seq<Entry>,
                      yticks0: seq<int>, yticklabels0: seq<string>, yIndex0: nat)
    returns (yticks: seq<int>, yticklabels: seq<string>, yIndex: nat)
    ensures yticks == yticks0 + RowRange(yIndex0, |entries|)
    ensures yticklabels == yticklabels0 + GroupLabels(rule, name, |entries|)
    ensures yIndex == yIndex0 + |entries|
  {
    yticks, yticklabels, yIndex := yticks0, yticklabels0, yIndex0;
    for i := 0 to |entries|
      invariant yIndex == yIndex0 + i
      invariant yticks == yticks0 + RowRange(yIndex0, i)
      invariant yticklabels == yticklabels0 + GroupLabels(rule, name, i)
    {
      assert yticklabels0 + GroupLabels(rule, name, i + 1) == yticklabels + Appended(rule, name, i);
      match LabelFor(rule, name, i) {
        case Some(l) => yticklabels := yticklabels + [l];
        case None =>
      }
      assert yticks0 + RowRange(yIndex0, i + 1) == yticks + [yIndex];
      yticks := yticks + [yIndex];
      yIndex := yIndex + 1;
    }
  }

  /** The layout loop of both scripts; `rule` chooses which tick labels are appended. */
  method Layout(rule: LabelRule, gs: seq<Group>)
    returns (yticks: seq<int>, yticklabels: seq<string>, yIndex: nat, yGroups: map<string, Span>)
    ensures yticks == Ticks(gs) && yticklabels == Labels(rule, gs) && yGroups == Spans(gs)
    ensures yIndex == RowsUsed(gs) == TotalEntries(gs) + |gs|
  {
    yticks, yticklabels, yIndex, yGroups := [], [], 0, map[];
    for g := 0 to |gs|
      invariant yticks == Ticks(gs[..g]) && yticklabels == Labels(rule, gs[..g])
      invariant yIndex == RowsUsed(gs[..g]) && yGroups == Spans(gs[..g])
    {
      var name, entries := gs[g].name, gs[g].entries;
      PrefixStep(rule, gs, g);
      yGroups := yGroups[name := Span(yIndex, yIndex + |entries| - 1)];
      yticks, yticklabels, yIndex := PlaceEntries(rule, name, entries, yticks, yticklabels, yIndex);
      yIndex := yIndex + 1;
    }
    assert gs[..|gs|] == gs;
  }
}
