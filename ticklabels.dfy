/** The y-tick labels the two scripts attach to entries: `$f_k$` where `k` is the
    entry's 1-based position within its group, and the per-script rule deciding
    which label (if any) an entry gets. */
module TickLabels {
  import opened Decimal

  /** `r"$f_{}$".format(i + 1)` for the entry at 0-based position `i`. */
  function TickLabel(i: nat): string
  {
    "$f_" + NatToString(i + 1) + "$"
  }

  /** Reads the ordinal `k` back out of a label of the form `$f_k$`. */
  function TickOrdinal(s: string): (r: Option<nat>)
    ensures r.Some? ==> |s| >= 5 && s[..3] == "$f_" && s[|s| - 1] == '$'
  {
    if |s| >= 5 && s[..3] == "$f_" && s[|s| - 1] == '$' && AllDigits(s[3..|s| - 1])
    then Some(DigitsValue(s[3..|s| - 1]))
    else None
  }

  /** The label of position `i` carries the ordinal `i + 1`, so positions within a
      group get pairwise different labels. */
  lemma TickOrdinalOfTickLabel(i: nat)
    ensures TickOrdinal(TickLabel(i)) == Some(i + 1)
  {
    DigitsValueOfNatToString(i + 1);
  }

  lemma TickLabelInjective(i: nat, j: nat)
    requires TickLabel(i) == TickLabel(j)
    ensures i == j
  {
    TickOrdinalOfTickLabel(i);
    TickOrdinalOfTickLabel(j);
  }

  /** Which labels a script gives: amplitudes_union.py labels every entry by its
      position; amplitudes.py labels only the three node groups it knows by name. */
  datatype LabelRule = EveryGroup | KnownNodeGroups

  predicate IsKnownNodeGroup(name: string)
  {
    name == "1 Node" || name == "2 Nodes" || name == "3 Nodes"
  }

  /** Whether the entries of group `name` get labels at all under `rule`. */
  predicate Labelled(rule: LabelRule, name: string)
  {
    rule == EveryGroup || IsKnownNodeGroup(name)
  }

  /** The label appended for the entry at position `i` of group `name`, or None
      when the rule appends nothing (the if/elif chain falls through). */
  function LabelFor(rule: LabelRule, name: string, i: nat): (r: Option<string>)
    ensures r.Some? <==> Labelled(rule, name)
  {
    match rule
    case EveryGroup => Some(TickLabel(i))
    case KnownNodeGroups =>
      if name == "1 Node" then
        Some("$f_1$")
      else if name == "2 Nodes" then Some(TickLabel(i))
      else if name == "3 Nodes" then Some(TickLabel(i))
      else None
  }

  /** amplitudes_union.py labels every entry by its position; amplitudes.py gives
      every entry of "1 Node" the label `$f_1$` whatever its position, and labels
      "2 Nodes" and "3 Nodes" by position. */
  lemma LabelForRules(name: string, i: nat)
    ensures LabelFor(EveryGroup, name, i) == Some(TickLabel(i))
    ensures name == "1 Node" ==> LabelFor(KnownNodeGroups, name, i) == Some(TickLabel(0))
    ensures name == "2 Nodes" || name == "3 Nodes" ==> LabelFor(KnownNodeGroups, name, i) == Some(TickLabel(i))
  {
    assert DigitChar(1) == '1' && NatToString(1) == "1";
    assert TickLabel(0) == "$f_1$";
  }
}
