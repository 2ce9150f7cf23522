/** amplitudes.py: lays the groups out row by row like amplitudes_union.py, but
    labels entries only in the three groups it knows by name ("1 Node" always
    `$f_1$`, "2 Nodes" and "3 Nodes" by position), and draws a caliper 0.4 rows
    beyond each group at x = -0.15 with the whole label beside it. There is no
    chi^2 in this script. */
module Amplitudes {
  import opened TickLabels
  import opened GroupedLayout
  import opened Brackets

  /** How far the bar reaches beyond the first and last row of a group. */
  const Margin: real := 0.4

  /** The x offset (in axis fractions) of the bar. */
  const BracketX: real := -0.15

  /** The caliper of one group. With the smaller margin, the bar of an empty
      group (`max == min - 1`) is drawn downwards: it is ordered exactly when the
      group has an entry. */
  function Bracket(span: Span): (c: Caliper)
    ensures c.bar.x1 == c.bar.x2 == -0.15
    ensures c.lowTick.x2 == -0.05 && c.highTick.x2 == -0.05
    ensures c.bar.y1 == span.min as real - 0.4 && c.bar.y2 == span.max as real + 0.4
    ensures c.bar.y1 < c.bar.y2 <==> span.min <= span.max
    ensures span.min <= span.max ==> span.min as real <= c.center <= span.max as real
  {
    CaliperOf(span, BracketX, Margin)
  }

  /** The `height` the bracket loop computes for a group: the length of its bar,
      which is at least 0.8 for a group with an entry and -0.2 for an empty one. */
  function Height(span: Span): (h: real)
    ensures h == Bracket(span).bar.y2 - Bracket(span).bar.y1
    ensures span.min <= span.max ==> h >= 0.8
    ensures span.max == span.min - 1 ==> h == -0.2
  {
    (span.max - span.min) as real + 0.8
  }

  /** Every group holding an entry has one of the three known names. */
  predicate KnownGroups(gs: seq<Group>)
  {
    forall g :: 0 <= g < |gs| && gs[g].entries != [] ==> IsKnownNodeGroup(gs[g].name)
  }

  /** `yticks` gains one row per entry, `yticklabels` one label per entry of a
      known group: the labels never outnumber the ticks, and the two lists are
      parallel exactly when no entry sits in a group with another name. */
  lemma LabelsKeepUp(gs: seq<Group>)
    ensures |Labels(KnownNodeGroups, gs)| <= |Ticks(gs)|
    ensures |Labels(KnownNodeGroups, gs)| == |Ticks(gs)| <==> KnownGroups(gs)
  {
    LabelsParallel(KnownNodeGroups, gs);
  }

  /** When the lists are parallel, the label beside the tick of the entry at
      position `i` of group `g` is that of position 0 in "1 Node" and that of
      position `i` in the other two groups. */
  lemma LabelOfEntry(gs: seq<Group>, g: nat, i: nat)
    requires KnownGroups(gs) && g < |gs| && i < |gs[g].entries|
    ensures TotalEntries(gs[..g]) + i < |Labels(KnownNodeGroups, gs)|
    ensures Labels(KnownNodeGroups, gs)[TotalEntries(gs[..g]) + i] ==
      TickLabel(if gs[g].name == "1 Node" then 0 else i)
  {
    LabelAt(KnownNodeGroups, gs, g, i);
    LabelForRules(gs[g].name, i);
  }

  /** Everything the script computes before handing it to the plotting library. */
  datatype Figure = Figure(
    yticks: seq<int>,
    yticklabels: seq<string>,
    groups: map<string, Span>,
    annotations: seq<Annotation>)

  /** The bracket loop over `node_names`: each group's caliper, from the span kept
      in `y_groups`, and its label drawn at the centre. */
  method AnnotateGroups(gs: seq<Group>, yGroups: map<string, Span>) returns (annotations: seq<Annotation>)
    requires DistinctNames(gs) && yGroups == Spans(gs)
    ensures |annotations| == |gs|
    ensures forall g :: 0 <= g < |gs| ==>
      annotations[g] == Annotation(gs[g].name, TextX, Bracket(SpanOf(gs, g)))
  {
    annotations := [];
    for g := 0 to |gs|
      invariant |annotations| == g
      invariant forall h :: 0 <= h < g ==>
        gs[h].name in yGroups && annotations[h] == Annotation(gs[h].name, TextX, Bracket(yGroups[gs[h].name]))
    {
      var name := gs[g].name;
      SpanLookup(gs, g);
      var group := yGroups[name];
      annotations := annotations + [Annotation(name, TextX, Bracket(group))];
    }
    forall g | 0 <= g < |gs|
      ensures annotations[g] == Annotation(gs[g].name, TextX, Bracket(SpanOf(gs, g)))
    {
      SpanLookup(gs, g);
    }
  }

  /** The script from the layout loop to the bracket loop; `gs` is the `data` dict. */
  method Plot(gs: seq<Group>) returns (fig: Figure)
    requires DistinctNames(gs)
    ensures fig.yticks == Ticks(gs)
    ensures fig.yticklabels == Labels(KnownNodeGroups, gs)
    ensures fig.groups == Spans(gs)
    ensures |fig.annotations| == |gs|
    ensures forall g :: 0 <= g < |gs| ==>
      fig.annotations[g] == Annotation(gs[g].name, TextX, Bracket(SpanOf(gs, g)))
  {
    var yticks, yticklabels, yIndex, yGroups := Layout(KnownNodeGroups, gs);
    var annotations := AnnotateGroups(gs, yGroups);
    fig := Figure(yticks, yticklabels, yGroups, annotations);
  }
}
