/** The caliper-shaped bracket drawn to the left of each group: a vertical bar
    from `min - margin` to `max + margin` at a fixed x offset, a short horizontal
    tick at each end, and the y position `(min + max) / 2` of the group's name.
    Coordinates are modelled as exact `real`s, without the rounding of binary
    floating point. */
module Brackets {
  import opened GroupedLayout

  /** A straight line from `(x1, y1)` to `(x2, y2)`. */
  datatype Segment = Segment(x1: real, y1: real, x2: real, y2: real)

  datatype Caliper = Caliper(bar: Segment, lowTick: Segment, highTick: Segment, center: real)

  /** `bracket_width` in both scripts. */
  const BracketWidth: real := 0.10

  /** The three `ax.plot` calls and the text anchor for one group's span. */
  function CaliperOf(span: Span, x0: real, margin: real): (c: Caliper)
    // the bar is vertical at x0 and reaches `margin` beyond the span on both sides
    ensures c.bar.x1 == x0 && c.bar.x2 == x0
    ensures c.bar.y2 - c.bar.y1 == (span.max - span.min) as real + 2.0 * margin
    ensures c.bar.y1 + margin == span.min as real && c.bar.y2 - margin == span.max as real
    // the bar is drawn upwards exactly when the span plus both margins has positive length
    ensures c.bar.y1 < c.bar.y2 <==> (span.max - span.min) as real + 2.0 * margin > 0.0
    // both ticks are horizontal, `BracketWidth` long, and start at the bar's ends
    ensures c.lowTick.y1 == c.lowTick.y2 == c.bar.y1 && c.highTick.y1 == c.highTick.y2 == c.bar.y2
    ensures c.lowTick.x1 == c.highTick.x1 == x0
    ensures c.lowTick.x2 - c.lowTick.x1 == BracketWidth && c.highTick.x2 - c.highTick.x1 == BracketWidth
    // the name sits halfway along the bar, inside the span
    ensures c.center - c.bar.y1 == c.bar.y2 - c.center
    ensures span.min <= span.max ==> span.min as real <= c.center <= span.max as real
  {
    var low := span.min as real - margin;
    var high := span.max as real + margin;
    Caliper(
      Segment(x0, low, x0, high),
      Segment(x0, low, x0 + BracketWidth, low),
      Segment(x0, high, x0 + BracketWidth, high),
      (span.min + span.max) as real / 2.0)
  }

  /** A group's caliper and the name written beside it, right-aligned at
      `(textX, bracket.center)`. */
  datatype Annotation = Annotation(text: string, textX: real, bracket: Caliper)

  /** The x offset of the group names, the same in both scripts. */
  const TextX: real := -0.3

  /** With a margin below one row, the calipers of consecutive groups never touch:
      the separator row keeps the top of one bar below the bottom of the next. */
  lemma CalipersSeparated(gs: seq<Group>, g: nat, x0: real, margin: real)
    requires g + 1 < |gs| && 0.0 <= margin < 1.0
    ensures CaliperOf(SpanOf(gs, g), x0, margin).bar.y2 < CaliperOf(SpanOf(gs, g + 1), x0, margin).bar.y1
  {
    RowsStep(gs, g);
  }
}
