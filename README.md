# Amplitude plots of HDENodalRec: layout, brackets and label parsing

HDENodalRec draws its fitted node amplitudes with two matplotlib scripts.
`amplitudes_union.py` covers the CC+DESI+Union3+SH0ES fit and `amplitudes.py` the
PantheonPlus+DESI+SH0ES fit. Both scripts do the same things:

- They lay out the groups of the `data` dict row by row. Each entry gets the next
  row index (`y_index`), and one row is left empty after each group.
- They record each group's span `{min, max}` in `y_groups`.
- They collect the tick positions in `yticks` and the tick labels `$f_k$` in
  `yticklabels`.
- Beside every group they draw a caliper-shaped bracket: a vertical bar reaching a
  margin beyond the group's first and last row, a tick of width 0.10 at each end, and
  the group name at the bar's centre.

`amplitudes_union.py` labels every entry. It uses a bracket margin of 0.6 at
x = -0.2. It first reads the chi^2 figure out of every group label with the regular
expression `chi\^2\s*=\s*([\d.]+)` and stops with an error when a label has none.
It writes each group's name as the text before the first `" ($"`.

`amplitudes.py` labels only the three groups it knows by name. "1 Node" is always
`$f_1$`, and "2 Nodes" and "3 Nodes" are labelled by position. It uses a bracket
margin of 0.4 at x = -0.15 and writes the whole label beside the bracket.

The modules are:

- `Decimal` (decimal.dfy) holds `str` of a non-negative integer, the value of a digit
  string, and the exact value of a digits-and-dots number.
- `TickLabels` (ticklabels.dfy) holds the tick label `$f_k$` and the two label rules.
- `GroupedLayout` (layout.dfy) holds the layout loop shared by both scripts, as a
  method proved against specification functions, and the lemmas about rows, spans
  and labels.
- `Brackets` (brackets.dfy) holds the caliper geometry for a span, an x offset and a
  margin.
- `LabelParse` (labelparse.dfy) holds the chi^2 regular expression, `re.search`,
  the chi^2 loop and the display name.
- `AmplitudesUnion` (amplitudes_union.dfy) and `Amplitudes` (amplitudes.dfy) each
  hold one script: its constants, its bracket loop, and the script from the first
  loop to the last as one method.

The `data` dict is an ordered `seq<Group>` with pairwise different names, because a
dict holds no key twice. Each entry `[value, err_low, err_up]` is an `Entry`, which
the layout never inspects. Bracket coordinates are modelled as exact `real`s: an
integer row plus or minus a decimal constant. The scripts compute them as binary
floating-point numbers instead (see "## Left out").

## Model

| member | source | states |
|---|---|---|
| GroupedLayout.Layout | amplitudes_union.py:41-68 | After the loop, `yticks`, `yticklabels` and `y_groups` are the specification values `Ticks`, `Labels` and `Spans`, and `y_index` is the entry count plus the group count. |
| GroupedLayout.PlaceEntries | amplitudes_union.py:50-66 | The inner loop appends rows `y_index .. y_index + len - 1`, appends the group's labels, and advances `y_index` by the entry count. |
| GroupedLayout.TicksLength | amplitudes_union.py:65 | `yticks` has exactly one element per entry. |
| GroupedLayout.TickAt | amplitudes_union.py:65 | The tick of entry `i` of group `g` sits at position `TotalEntries(gs[..g]) + i`. Its row is the group's start row plus `i`. |
| GroupedLayout.TicksIncreasing | amplitudes_union.py:43-66 | Rows are non-negative, strictly increase across the list, so no two entries share a row, and stay below the final separator row. |
| GroupedLayout.SeparatorUnused | amplitudes_union.py:68 | The row right after each group is given to no entry. |
| GroupedLayout.GapBetweenGroups | amplitudes_union.py:65-68 | Between the last entry of one non-empty group and the first entry of the next, exactly one row is skipped: their rows differ by 2. |
| GroupedLayout.StartMonotone | amplitudes_union.py:66-68 | A later group never starts at an earlier row. |
| GroupedLayout.RowsStep | amplitudes_union.py:66-68 | Each group advances the start row by its entry count plus one. |
| GroupedLayout.SpanMatchesTicks | amplitudes_union.py:48 | `max - min + 1` is the entry count. For a non-empty group, `min` and `max` are the rows of its first and last entries. An empty group gets `max == min - 1`. |
| GroupedLayout.SpansKeys | amplitudes_union.py:48 | `y_groups` has exactly one key per group name. |
| GroupedLayout.SpanLookup | amplitudes_union.py:48 | With distinct names, `y_groups[name]` is the span recorded for that group. |
| GroupedLayout.PrefixStep | amplitudes_union.py:46-68 | One more group extends the ticks, labels, row counter and span dict by exactly that group's part. |
| GroupedLayout.GroupLabelsShape | amplitudes.py:56-61 | A group's labels are one per entry, each `LabelFor` its position, when its name is labelled under the rule. Otherwise there are none. |
| GroupedLayout.LabelsParallel | amplitudes.py:56-63 | There are never more labels than ticks. The two lists have equal length iff every group with entries is labelled under the rule. |
| GroupedLayout.LabelAt | amplitudes_union.py:64-65 | When every group is labelled, the label at the position of entry `i` of group `g` is that entry's `LabelFor` label, so labels stay parallel to ticks. |
| GroupedLayout.TwoGroupsExample | amplitudes_union.py:46-68 | Groups A (one entry) and B (two entries) get rows [0, 2, 3], spans (0, 0) and (2, 3), and 5 rows in all. |
| TickLabels.TickOrdinalOfTickLabel | amplitudes_union.py:64 | The label of 0-based position `i` is `$f_k$` and reads back as `k = i + 1`. |
| TickLabels.TickLabelInjective | amplitudes_union.py:64 | Different positions get different labels. |
| TickLabels.LabelFor | amplitudes.py:56-61 | A label is appended iff the rule labels the group: always in amplitudes_union.py, and only for the three known names in amplitudes.py. |
| TickLabels.LabelForRules | amplitudes.py:56-61 | Under the every-group rule a position's label is `TickLabel(i)`. Under the known-names rule, "1 Node" gives position 0's label whatever `i` is, and "2 Nodes" and "3 Nodes" give `TickLabel(i)`. |
| Decimal.DigitsValueOfNatToString | amplitudes_union.py:64 | The numeral `str(n)` reads back as `n`. |
| Decimal.NatToStringInjective | amplitudes_union.py:64 | Different numbers print differently. |
| Decimal.DecimalValue | amplitudes_union.py:34 | `float` of a digits-and-dots string succeeds iff it has at most one dot and at least one digit. The value is non-negative. |
| Decimal.DecimalValueOfNatToString | amplitudes_union.py:34 | A printed integer reads back, as a decimal, to itself. |
| Brackets.CaliperOf | amplitudes_union.py:71-98 | The bar is vertical at `x0` and spans `min - margin` to `max + margin`. Its length is `(max - min) + 2*margin`, and it is drawn upwards iff that length is positive. The ticks are horizontal, 0.10 long and start at the bar's ends. The centre is halfway along the bar and inside `[min, max]` for a non-empty span. |
| Brackets.CalipersSeparated | amplitudes_union.py:77 | With a margin below one row, the bar of one group ends below where the next group's bar begins. |
| AmplitudesUnion.Bracket | amplitudes_union.py:75-98 | The bar runs at x = -0.2 from `min - 0.6` to `max + 0.6` and the ticks end at -0.1. The bar is ordered even for an empty group. A non-empty group's bar is `(max - min) + 1.2` long. |
| AmplitudesUnion.LabelsMatchTicks | amplitudes_union.py:64-65 | `yticks` and `yticklabels` both have one element per entry. |
| AmplitudesUnion.LabelOfEntry | amplitudes_union.py:64 | The label beside entry `i` of any group is `"$f_" + str(i + 1) + "$"`. |
| AmplitudesUnion.Names | amplitudes_union.py:25 | `node_names` lists the group labels in insertion order. |
| AmplitudesUnion.AnnotateGroups | amplitudes_union.py:72-108 | Each group's annotation is its display name at x = -0.3 with the 0.6-margin caliper of its recorded span. |
| AmplitudesUnion.Plot | amplitudes_union.py:30-108 | The script fails iff some label has no readable chi^2, with the first such label's error. Otherwise the chi^2 dict, ticks, labels, spans and annotations are the specification values. |
| AmplitudesUnion.Chi2OfTwoNodes | amplitudes_union.py:21 | The label `2 Nodes ($\\chi^2 = 47.82$)` yields chi^2 47.82. |
| AmplitudesUnion.DisplayNameOfTwoNodes | amplitudes_union.py:21 | The same label is drawn as "2 Nodes". |
| LabelParse.SkipSpaces | amplitudes_union.py:32 | Greedy `\s*` stops within the string. `SkipSpacesSpec` and `SkipSpacesStops` show that it stops exactly at the first non-space. |
| LabelParse.MatchAt | amplitudes_union.py:32 | An attempt at one position yields a non-empty run of digits and dots. |
| LabelParse.MatchAtSound | amplitudes_union.py:32 | What an attempt yields is the group of a match of the pattern at that position. |
| LabelParse.MatchAtComplete | amplitudes_union.py:32 | Every match of the pattern at a position is the one the attempt yields. Both `\s*` and the greedy group end where they must. |
| LabelParse.FirstMatch | amplitudes_union.py:32 | The position `re.search` settles on is the leftmost position where the pattern matches, or none. |
| LabelParse.Search | amplitudes_union.py:32 | The group found is a non-empty run of digits and dots. |
| LabelParse.Chi2Of | amplitudes_union.py:32-36 | A chi^2 that is read is non-negative. |
| LabelParse.Chi2OfMeaning | amplitudes_union.py:32-36 | A label is rejected for lacking chi^2 iff the pattern matches nowhere in it. Otherwise the value read, or the text `float` rejects, is the group of the leftmost match, the one `re.search` returns. |
| LabelParse.CollectMeaning | amplitudes_union.py:30-36 | The chi^2 loop succeeds iff every label parses. Then the dict maps exactly the labels to their values. Otherwise it reports the first failing label's error and no partial dict. |
| LabelParse.CollectErrorSticks | amplitudes_union.py:35-36 | Once a label fails, later labels change nothing, because the loop has stopped. |
| LabelParse.ExtractChi2 | amplitudes_union.py:30-36 | The loop filling `chi2_values` returns the specification `Collect(names, Chi2Of)`. |
| LabelParse.DisplayName | amplitudes_union.py:101 | `split(' ($')[0]` is a prefix of the label and contains no `" ($"`. When shorter than the label, it is followed by one. |
| LabelParse.DisplayNameStops | amplitudes_union.py:101 | The display name is exactly the text before the first `" ($"`. |
| Amplitudes.Bracket | amplitudes.py:78-105 | The bar runs at x = -0.15 from `min - 0.4` to `max + 0.4` and the ticks end at -0.05. The bar is ordered iff the group has an entry. The centre lies in the span. |
| Amplitudes.Height | amplitudes.py:75 | `height` equals the bar's length. It is at least 0.8 for a non-empty group and -0.2 for an empty one. |
| Amplitudes.LabelsKeepUp | amplitudes.py:56-63 | Labels never outnumber ticks. The two lists have equal length iff every group with entries is "1 Node", "2 Nodes" or "3 Nodes"; otherwise labels fall behind. |
| Amplitudes.LabelOfEntry | amplitudes.py:56-63 | With only known names, the label beside entry `i` is `$f_1$` in "1 Node" and `$f_{i+1}$` in the other two groups. |
| Amplitudes.AnnotateGroups | amplitudes.py:72-117 | Each group's annotation is its whole label at x = -0.3 with the 0.4-margin caliper of its recorded span. |
| Amplitudes.Plot | amplitudes.py:30-117 | Ticks, labels under the known-names rule, spans and annotations are the specification values. |

## Left out

- All matplotlib calls are left out: `rcParams`, `errorbar`, `plot`, `text` styling,
  `axvline`, axis limits and inversion, the minor locators, the grid, the legend, the
  upper chi^2 axis (`twiny`), `savefig` and `show`. The model stops at the numbers
  handed to the library: rows, tick labels, spans, segment coordinates and the text
  anchor.
- Colour assignment through `cm.get_cmap` is library behaviour and is left out.
- The hard-coded `data` dicts and the `chi2_markers` table are static data, not logic.
  The entries' values and error bars are carried along and never computed with.
- The output paths and export options are environment-specific I/O.
- Brackets.CaliperOf, AmplitudesUnion.Bracket, Amplitudes.Bracket, Amplitudes.Height:
  the scripts' binary floating-point rounding of the bracket coordinates is not
  modelled. For example, `-0.15 + bracket_width` evaluates to -0.04999999999999999
  in the script, where the model has exactly -0.05.
- LabelParse.Chi2Of: `float` is read as the exact decimal value, not rounded to the
  nearest IEEE double.
- LabelParse.MatchAt: `\d` is taken as the ASCII digits 0-9. Python's `\d` in a `str`
  pattern also matches other Unicode decimal digits, and `float` accepts them. For a
  run with such digits, the model and the script part ways as follows:
  - If the run after `=` starts with such a digit, the model finds no match there.
    It falls back to a later match, or else reports no chi^2. The script reads the
    whole run.
  - If the run starts with ASCII digits or dots, the model cuts it at the first
    other digit. For `chi^2 = 4٧` the model reads 4 and the script reads 47.
- LabelParse.Chi2Of: the `ValueError` is modelled as an error value carrying the
  label (`NoChi2`) or the rejected text (`NotANumber`), not as the exception's
  message text.
- AmplitudesUnion.Plot and Amplitudes.Plot require distinct group names, because the
  input is a Python dict. The layout functions alone also handle repeated names:
  `Spans` keeps the last write, as the dict would.
- Idempotence of the layout gets no lemma. Every layout result is a function of its
  input, so it holds by construction.
- An empty `data` dict is accepted and gives empty outputs; the scripts never check
  for it.
- A group with no entries still gets a bracket, as in the code. Its bar runs from
  `min - margin` to `min - 1 + margin`, which is inverted for the 0.4 margin.
- `height` in amplitudes.py is computed but never used by the script. It is modelled
  as `Amplitudes.Height` for its relation to the bar.
