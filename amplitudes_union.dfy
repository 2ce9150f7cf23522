/** amplitudes_union.py: reads the chi^2 of every group label first (stopping at
    the first label without one), lays the groups out row by row labelling every
    entry `$f_k$`, and draws a caliper 0.6 rows beyond each group at x = -0.2 with
    the label's text before " ($" beside it. */
module AmplitudesUnion {
  import opened Decimal
  import opened TickLabels
  import opened GroupedLayout
  import opened Brackets
  import opened LabelParse

  /** How far the bar reaches beyond the first and last row of a group. */
  const Margin: real := 0.6

  /** The x offset (in axis fractions) of the bar. */
  const BracketX: real := -0.2

  /** The caliper of one group. It is drawn upwards for every span the layout
      records, even the `max == min - 1` of an empty group. */
  function Bracket(span: Span): (c: Caliper)
    ensures c.bar.x1 == c.bar.x2 == -0.2
    ensures c.lowTick.x2 == -0.1 && c.highTick.x2 == -0.1
    ensures c.bar.y1 == span.min as real - 0.6 && c.bar.y2 == span.max as real + 0.6
    ensures span.max >= span.min - 1 ==> c.bar.y1 < c.bar.y2
    ensures span.min <= span.max ==> c.bar.y2 - c.bar.y1 == (span.max - span.min) as real + 1.2
  {
    CaliperOf(span, BracketX, Margin)
  }

  /** Every entry is labelled, so `yticklabels` runs parallel to `yticks`. */
  lemma LabelsMatchTicks(gs: seq<Group>)
    ensures |Labels(EveryGroup, gs)| == |Ticks(gs)| == TotalEntries(gs)
  {
    TicksLength(gs);
    LabelsParallel(EveryGroup, gs);
  }

  /** The label beside the tick of the entry at position `i` of group `g` is
      `$f_{i+1}$`, the same for every group. */
  lemma LabelOfEntry(gs: seq<Group>, g: nat, i: nat)
    requires g < |gs| && i < |gs[g].entries|
    ensures TotalEntries(gs[..g]) + i < |Labels(EveryGroup, gs)|
    ensures Labels(EveryGroup, gs)[TotalEntries(gs[..g]) + i] == "$f_" + NatToString(i + 1) + "$"
  {
    LabelAt(EveryGroup, gs, g, i);
  }

  /** Everything the script computes before handing it to the plotting library. */
  datatype Figure = Figure(
    chi2: map<string, real>,
    yticks: seq<int>,
    yticklabels: seq<string>,
    groups: map<string, Span>,
    annotations: seq<Annotation>)

  function Names(gs: seq<Group>): (names: seq<string>)
    ensures |names| == |gs| && forall g :: 0 <= g < |gs| ==> names[g] == gs[g].name
  {
    seq(|gs|, g requires 0 <= g < |gs| => gs[g].name)
  }

  /** The bracket loop over `node_names`: each group's caliper, from the span kept
      in `y_groups`, and the text drawn at its centre. */
  method AnnotateGroups(gs: seq<Group>, yGroups: map<string, Span>) returns (annotations: seq<Annotation>)
    requires DistinctNames(gs) && yGroups == Spans(gs)
    ensures |annotations| == |gs|
    ensures forall g :: 0 <= g < |gs| ==>
      annotations[g] == Annotation(DisplayName(gs[g].name), TextX, Bracket(SpanOf(gs, g)))
  {
    annotations := [];
    for g := 0 to |gs|
      invariant |annotations| == g
      invariant forall h :: 0 <= h < g ==>
        gs[h].name in yGroups && annotations[h] == Annotation(DisplayName(gs[h].name), TextX, Bracket(yGroups[gs[h].name]))
    {
      var name := gs[g].name;
      SpanLookup(gs, g);
      var group := yGroups[name];
      annotations := annotations + [Annotation(DisplayName(name), TextX, Bracket(group))];
    }
    forall g | 0 <= g < |gs|
      ensures annotations[g] == Annotation(DisplayName(gs[g].name), TextX, Bracket(SpanOf(gs, g)))
    {
      SpanLookup(gs, g);
    }
  }

  /** The script from the chi^2 loop to the bracket loop; `gs` is the `data` dict.
      A label without chi^2 stops it before anything is laid out. */
  method Plot(gs: seq<Group>) returns (r: Result<Figure>)
    requires DistinctNames(gs)
    ensures r.Err? <==> Collect(Names(gs), Chi2Of).Err?
    ensures r.Err? ==> r.error == Collect(Names(gs), Chi2Of).error
    ensures r.Ok? ==>
      r.value.chi2 == Collect(Names(gs), Chi2Of).value &&
      r.value.yticks == Ticks(gs) &&
      r.value.yticklabels == Labels(EveryGroup, gs) &&
      r.value.groups == Spans(gs) &&
      |r.value.annotations| == |gs| &&
      forall g :: 0 <= g < |gs| ==>
        r.value.annotations[g] == Annotation(DisplayName(gs[g].name), TextX, Bracket(SpanOf(gs, g)))
  {
    var chi2 := ExtractChi2(Names(gs));
    if chi2.Err? {
      return Err(chi2.error);
    }
    var yticks, yticklabels, yIndex, yGroups := Layout(EveryGroup, gs);
    var annotations := AnnotateGroups(gs, yGroups);
    return Ok(Figure(chi2.value, yticks, yticklabels, yGroups, annotations));
  }

  /** The label of the two-node group. */
  const TwoNodes: string := "2 Nodes ($\\chi^2 = 47.82$)"

  /** The pattern cannot start before the "chi" at index 11 ... */
  lemma NoMatchBeforeChi(s: string)
    requires s == TwoNodes
    ensures forall k :: 0 <= k < 11 ==> MatchAt(s, k).None?
  {
    forall k | 0 <= k < 11
      ensures MatchAt(s, k).None?
    {
      assert s[k] != 'c';
      if k + |Chi2Token| <= |s| {
        assert s[k..k + |Chi2Token|][0] == s[k];
      }
    }
  }

  /** ... where it matches with `=` at 17 and the group "47.82" at 19 to 24 ... */
  lemma MatchOfTwoNodes(s: string)
    requires s == TwoNodes
    ensures MatchSpan(s, 11, 17, 19, 24) && s[19..24] == "47.82"
  {
    assert |s| == 26;
    assert s[19] == '4' && s[20] == '7' && s[21] == '.' && s[22] == '8' && s[23] == '2' && s[24] == '$';
    assert s[18] == ' ' && NumberSpan(s, 18, 19, 24);
    assert s[16] == ' ' && s[17] == '=' && RestSpan(s, 16, 17, 19, 24);
    assert s[11] == 'c' && s[12] == 'h' && s[13] == 'i' && s[14] == '^' && s[15] == '2';
    assert s[11..16] == Chi2Token;
  }

  /** A two-digit numeral is read as tens and units. */
  lemma TwoDigitsValue(t: string)
    requires |t| == 2 && AllDigits(t)
    ensures DigitsValue(t) == 10 * DigitValue(t[0]) + DigitValue(t[1])
  {
    assert t[..1][..0] == [] && t[..|t| - 1] == t[..1];
    assert DigitsValue(t[..1]) == DigitValue(t[0]);
  }

  /** ... and `float` reads that group as 47.82. */
  lemma ValueOfTwoNodes(t: string)
    requires t == "47.82"
    ensures AllNumberChars(t) && DecimalValue(t) == Some(47.82)
  {
    assert t[0] == '4' && t[1] == '7' && t[2] == '.' && t[3] == '8' && t[4] == '2';
    assert FirstDot(t) == 2;
    TwoDigitsValue(t[..2]);
    TwoDigitsValue(t[3..]);
    assert Pow10(2) == 100;
  }

  /** Its chi^2 is read as 47.82. */
  lemma Chi2OfTwoNodes(s: string)
    requires s == TwoNodes
    ensures Chi2Of(s) == Ok(47.82)
  {
    NoMatchBeforeChi(s);
    MatchOfTwoNodes(s);
    MatchAtComplete(s, 11, 17, 19, 24);
    assert FirstMatch(s, 0) == 11;
    ValueOfTwoNodes(s[19..24]);
  }

  /** The first " ($" of the label is at index 7 ... */
  lemma SeparatorOfTwoNodes(s: string)
    requires s == TwoNodes
    ensures OccursAt(s, NameSeparator, 7)
    ensures forall j :: 0 <= j < 7 ==> !OccursAt(s, NameSeparator, j)
  {
    assert s[7] == ' ' && s[8] == '(' && s[9] == '$';
    forall j | 0 <= j < 7
      ensures !OccursAt(s, NameSeparator, j)
    {
      assert s[j + 1] != '(';
    }
  }

  /** ... so its name is drawn as "2 Nodes". */
  lemma DisplayNameOfTwoNodes(s: string)
    requires s == TwoNodes
    ensures DisplayName(s) == "2 Nodes"
  {
    SeparatorOfTwoNodes(s);
    DisplayNameStops(s, 7);
    assert s[..7] == "2 Nodes";
  }
}
