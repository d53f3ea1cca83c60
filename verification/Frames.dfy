/** Window frames: the two parse actions, the printer, and the offsets they mean. */
module Frames {
  import opened Expressions

  datatype Direction = Preceding | Following

  /** One bound of a frame; the limit of Rows is a signed integer, as the token pattern allows. */
  datatype Bound = CurrentRow | Unbounded(direction: Direction) | Rows(limit: int, direction: Direction)

  /** The two ends of a range in the tree; a missing key is None. */
  datatype Range = Range(min: Option<int>, max: Option<int>)

  /* ---------- parse actions ---------- */

  function ToBound(b: Bound): Range {
    match b
    case CurrentRow => Range(Some(0), Some(0))
    case Unbounded(Preceding) => Range(None, Some(0))
    case Unbounded(Following) => Range(Some(0), None)
    case Rows(n, Preceding) => Range(Some(-n), Some(0))
    case Rows(n, Following) => Range(Some(0), Some(n))
  }

  function ToBetween(minn: Range, maxx: Range): Range {
    if maxx.max == Some(0) then Range(minn.min, maxx.min)
    else if minn.min == Some(0) then Range(minn.max, maxx.max)
    else Range(minn.min, maxx.max)
  }

  /* ---------- what a frame means ---------- */

  /** A row relative to the current one, or past every row on one side. */
  datatype Offset = First | At(row: int) | Last

  function OffsetOf(b: Bound): Offset {
    match b
    case CurrentRow => At(0)
    case Unbounded(Preceding) => First
    case Unbounded(Following) => Last
    case Rows(n, Preceding) => At(-n)
    case Rows(n, Following) => At(n)
  }

  function Lowest(r: Range): Offset {
    if r.min.Some? then At(r.min.value) else First
  }

  function Highest(r: Range): Offset {
    if r.max.Some? then At(r.max.value) else Last
  }

  predicate Before(a: Offset, b: Offset) {
    a == First || b == Last || (a.At? && b.At? && a.row <= b.row)
  }

  predicate InFrame(row: int, low: Offset, high: Offset) {
    Before(low, At(row)) && Before(At(row), high)
  }

  /**
    The zero-anchored ranges of the two bounds give back both offsets exactly when the frame does not
    start at the end or end at the start, and does not start with a non-zero FOLLOWING while ending
    with PRECEDING, CURRENT ROW or zero FOLLOWING.
   */
  lemma BetweenRecoversOffsets(a: Bound, b: Bound)
    ensures var r := ToBetween(ToBound(a), ToBound(b));
      Lowest(r) == OffsetOf(a) && Highest(r) == OffsetOf(b)
      <==>
      && a != Unbounded(Following) && b != Unbounded(Preceding)
      && !(a.Rows? && a.direction == Following && a.limit != 0
           && (b.CurrentRow? || (b.Rows? && (b.direction == Preceding || b.limit == 0))))
  {
  }

  predicate Unsigned(b: Bound) {
    b.Rows? ==> b.limit >= 0
  }

  /** For the frames of standard SQL, the range holds exactly the rows between the two bounds. */
  lemma BetweenMeansRows(a: Bound, b: Bound, row: int)
    requires Unsigned(a) && Unsigned(b) && a != Unbounded(Following) && b != Unbounded(Preceding)
    requires Before(OffsetOf(a), OffsetOf(b))
    ensures var r := ToBetween(ToBound(a), ToBound(b));
      InFrame(row, Lowest(r), Highest(r)) <==> InFrame(row, OffsetOf(a), OffsetOf(b))
  {
    BetweenRecoversOffsets(a, b);
  }

  /** The pattern accepts a signed limit, and then start <= end is not enough. */
  lemma SignedLimitMoves()
    ensures var a, b := Rows(-1, Following), CurrentRow;
      && Before(OffsetOf(a), OffsetOf(b))
      && ToBetween(ToBound(a), ToBound(b)) == Range(Some(0), Some(0))
  {
  }

  /** A single bound means the BETWEEN form with CURRENT ROW at its other end, whatever its sign. */
  lemma SingleBoundIsBetween(b: Bound)
    ensures b.CurrentRow? || b.direction == Preceding ==> ToBound(b) == ToBetween(ToBound(b), ToBound(CurrentRow))
    ensures b.CurrentRow? || b.direction == Following ==> ToBound(b) == ToBetween(ToBound(CurrentRow), ToBound(b))
  {
  }

  /* ---------- text ---------- */

  datatype Token =
    | TRows | TBetween | TAnd | TUnbounded | TCurrentRow
    | TInt(n: int)
    | TDirection(direction: Direction)

  /** `wordy`, which has no answer for 0. */
  function Wordy(v: int): seq<Token>
    requires v != 0
  {
    if v < 0 then [TInt(-v), TDirection(Preceding)] else [TInt(v), TDirection(Following)]
  }

  function FrameText(r: Range): seq<Token> {
    match (r.min, r.max)
    case (None, None) => []
    case (None, Some(max)) =>
      if max == 0 then [TRows, TUnbounded, TDirection(Preceding)]
      else [TRows, TBetween, TUnbounded, TDirection(Preceding), TAnd] + Wordy(max)
    case (Some(min), None) =>
      if min == 0 then [TRows, TUnbounded, TDirection(Following)]
      else [TRows, TBetween] + Wordy(min) + [TAnd, TUnbounded, TDirection(Following)]
    case (Some(min), Some(max)) =>
      if min == 0 && max == 0 then [TRows, TCurrentRow]
      else if min == 0 then [TRows] + Wordy(max)
      else if max == 0 then [TRows] + Wordy(min)
      else [TRows, TBetween] + Wordy(min) + [TAnd] + Wordy(max)
  }

  function ParseBound(ts: seq<Token>): Option<(Bound, seq<Token>)> {
    if ts != [] && ts[0] == TCurrentRow then Some((CurrentRow, ts[1..]))
    else if |ts| >= 2 && ts[1].TDirection? && ts[0] == TUnbounded then Some((Unbounded(ts[1].direction), ts[2..]))
    else if |ts| >= 2 && ts[1].TDirection? && ts[0].TInt? then Some((Rows(ts[0].n, ts[1].direction), ts[2..]))
    else None
  }

  /** The optional ROWS clause: None when there is none, or when the text is not one. */
  function ParseFrame(ts: seq<Token>): Option<Range> {
    if ts == [] || ts[0] != TRows then None
    else if |ts| > 1 && ts[1] == TBetween then
      match ParseBound(ts[2..])
      case None => None
      case Some((a, ts1)) =>
        if ts1 == [] || ts1[0] != TAnd then None
        else
          match ParseBound(ts1[1..])
          case None => None
          case Some((b, ts2)) => if ts2 == [] then Some(ToBetween(ToBound(a), ToBound(b))) else None
    else
      match ParseBound(ts[1..])
      case None => None
      case Some((b, ts1)) => if ts1 == [] then Some(ToBound(b)) else None
  }

  /* ---------- reading a frame as written ---------- */

  /** The words of a bound. */
  function Words(b: Bound): seq<Token> {
    match b
    case CurrentRow => [TCurrentRow]
    case Unbounded(direction) => [TUnbounded, TDirection(direction)]
    case Rows(n, direction) => [TInt(n), TDirection(direction)]
  }

  function BetweenText(a: Bound, b: Bound): seq<Token> {
    [TRows, TBetween] + Words(a) + [TAnd] + Words(b)
  }

  /** A bound is read as far as it goes. */
  lemma BoundIsRead(b: Bound, rest: seq<Token>)
    ensures ParseBound(Words(b) + rest) == Some((b, rest))
  {
    assert Words(b) + rest == [Words(b)[0]] + (Words(b)[1..] + rest);
  }

  lemma BetweenIsRead(a: Bound, b: Bound)
    ensures ParseFrame(BetweenText(a, b)) == Some(ToBetween(ToBound(a), ToBound(b)))
  {
    hide ParseBound, ToBetween, ToBound, Words;
    var ts := BetweenText(a, b);
    BoundIsRead(a, [TAnd] + Words(b));
    BoundIsRead(b, []);
    assert ts[2..] == Words(a) + ([TAnd] + Words(b));
    assert ([TAnd] + Words(b))[1..] == Words(b) + [];
  }

  lemma ReadBound(ts: seq<Token>)
    ensures ParseBound(ts).Some? ==> var (b, rest) := ParseBound(ts).value; ts == Words(b) + rest
  {
  }

  /** Only frames are read as one. */
  lemma ReadIsFrame(ts: seq<Token>)
    ensures ParseFrame(ts).Some? <==> (exists b :: ts == [TRows] + Words(b)) || exists a, b :: ts == BetweenText(a, b)
  {
    hide ParseBound, ToBetween, ToBound, Words;
    if ParseFrame(ts).Some? {
      if |ts| > 1 && ts[1] == TBetween {
        ReadBound(ts[2..]);
        var (a, ts1) := ParseBound(ts[2..]).value;
        ReadBound(ts1[1..]);
        var (b, ts2) := ParseBound(ts1[1..]).value;
        assert ts == [TRows, TBetween] + ts[2..] && ts1 == [TAnd] + ts1[1..];
        assert ts == BetweenText(a, b);
      } else {
        ReadBound(ts[1..]);
        var (b, ts1) := ParseBound(ts[1..]).value;
        assert ts == [TRows] + ts[1..];
        assert ts == [TRows] + Words(b);
      }
    }
    if b :| ts == [TRows] + Words(b) {
      SingleIsRead(b);
    }
    if a, b :| ts == BetweenText(a, b) {
      BetweenIsRead(a, b);
    }
  }

  lemma SingleIsRead(b: Bound)
    ensures ParseFrame([TRows] + Words(b)) == Some(ToBound(b))
  {
    BoundIsRead(b, []);
    assert ([TRows] + Words(b))[1..] == Words(b) + [];
  }

  /** Reading BETWEEN gives the two offsets as written, in just the cases in which the parse actions keep them. */
  lemma BetweenTextOffsets(a: Bound, b: Bound)
    ensures ParseFrame(BetweenText(a, b)).Some?
    ensures var r := ParseFrame(BetweenText(a, b)).value;
      Lowest(r) == OffsetOf(a) && Highest(r) == OffsetOf(b)
      <==>
      && a != Unbounded(Following) && b != Unbounded(Preceding)
      && !(a.Rows? && a.direction == Following && a.limit != 0
           && (b.CurrentRow? || (b.Rows? && (b.direction == Preceding || b.limit == 0))))
  {
    BetweenIsRead(a, b);
    BetweenRecoversOffsets(a, b);
  }

  /** The text of a standard frame, both ends written, is read as exactly the rows between them. */
  lemma BetweenTextMeansRows(a: Bound, b: Bound, row: int)
    requires Unsigned(a) && Unsigned(b) && a != Unbounded(Following) && b != Unbounded(Preceding)
    requires Before(OffsetOf(a), OffsetOf(b))
    ensures var r := ParseFrame(BetweenText(a, b));
      r.Some? && (InFrame(row, Lowest(r.value), Highest(r.value)) <==> InFrame(row, OffsetOf(a), OffsetOf(b)))
  {
    BetweenIsRead(a, b);
    BetweenMeansRows(a, b, row);
  }

  /** With one bound written the current row is the other end, before it or after it. */
  lemma SingleTextMeansRows(b: Bound, row: int)
    requires Unsigned(b)
    ensures var r := ParseFrame([TRows] + Words(b));
      && r.Some?
      && (InFrame(row, Lowest(r.value), Highest(r.value))
          <==> if b.CurrentRow? then row == 0
               else if b.direction == Preceding then InFrame(row, OffsetOf(b), At(0))
               else InFrame(row, At(0), OffsetOf(b)))
  {
    SingleIsRead(b);
  }

  /** Some bound is present, and where both are, the frame is not an inverted one around the current row. */
  predicate Upright(r: Range) {
    && (r.min.Some? || r.max.Some?)
    && (r.min.Some? && r.max.Some? && r.max.value <= 0 <= r.min.value ==> r.min.value == 0 && r.max.value == 0)
  }

  /** What an inverted frame around the current row comes back as: its bounds folded onto one side. */
  function Mirrored(r: Range): Range
    requires r.min.Some? && r.max.Some?
  {
    if r.min.value == 0 then Range(r.max, Some(0))
    else if r.max.value == 0 then Range(Some(0), r.min)
    else Range(Some(0), r.max)
  }

  /**
    What the text of a range is read as: the range itself exactly if it is upright; nothing, the text
    being empty, if no bound is present; and else the mirrored frame.
   */
  lemma FrameRoundTrip(r: Range)
    ensures ParseFrame(FrameText(r)) == Some(r) <==> Upright(r)
    ensures ParseFrame(FrameText(r))
      == if r.min.None? && r.max.None? then None else if Upright(r) then Some(r) else Some(Mirrored(r))
  {
    hide ParseFrame, FrameText;
    match (r.min, r.max)
    case (Some(min), Some(max)) =>
      if min == 0 || max == 0 {
        SingleRoundTrip(min, max);
      } else {
        PairRoundTrip(min, max);
      }
    case _ => HalfRoundTrip(r);
  }

  lemma HalfRoundTrip(r: Range)
    requires r.min.None? || r.max.None?
    ensures ParseFrame(FrameText(r)) == if r.min.None? && r.max.None? then None else Some(r)
  {
  }

  lemma SingleRoundTrip(min: int, max: int)
    requires min == 0 || max == 0
    ensures var limit := if min == 0 then max else min;
      ParseFrame(FrameText(Range(Some(min), Some(max))))
      == Some(if limit <= 0 then Range(Some(limit), Some(0)) else Range(Some(0), Some(limit)))
  {
  }

  lemma PairRoundTrip(min: int, max: int)
    requires min != 0 && max != 0
    ensures ParseFrame(FrameText(Range(Some(min), Some(max))))
      == Some(Range(Some(if max < 0 < min then 0 else min), Some(max)))
  {
  }

  /** A frame from one row after the current one back to it is read as the one row after. */
  lemma MirroredFrame()
    ensures ParseFrame(FrameText(Range(Some(1), Some(0)))) == Some(Range(Some(0), Some(1)))
  {
    FrameRoundTrip(Range(Some(1), Some(0)));
  }

  /**
    The part of `value` that prints a frame; `wordy` is never reached with 0. Its text is empty without
    bounds, and otherwise is read as the range, or as its mirror image if the range is not upright.
   */
  method PrintFrame(range: Range) returns (window: seq<Token>)
    ensures window == [] <==> range.min.None? && range.max.None?
    ensures window != [] ==> ParseFrame(window) == Some(if Upright(range) then range else Mirrored(range))
    ensures window == FrameText(range)
  {
    hide ParseFrame, Upright, Mirrored;
    window := [TRows];
    var min, max := range.min, range.max;
    if min.None? {
      if max.None? {
        window := window[..|window| - 1];
      } else if max.value == 0 {
        window := window + [TUnbounded, TDirection(Preceding)];
      } else {
        window := window + [TBetween];
        window := window + [TUnbounded, TDirection(Preceding)];
        window := window + [TAnd];
        window := window + Wordy(max.value);
      }
    } else if min.value == 0 {
      if max.None? {
        window := window + [TUnbounded, TDirection(Following)];
      } else if max.value == 0 {
        window := window + [TCurrentRow];
      } else {
        window := window + Wordy(max.value);
      }
    } else {
      if max.None? {
        window := window + [TBetween];
        window := window + Wordy(min.value);
        window := window + [TAnd];
        window := window + [TUnbounded, TDirection(Following)];
      } else if max.value == 0 {
        window := window + Wordy(min.value);
      } else {
        window := window + [TBetween];
        window := window + Wordy(min.value);
        window := window + [TAnd];
        window := window + Wordy(max.value);
      }
    }
    assert window == FrameText(range);
    FrameRoundTrip(range);
  }

  lemma OrderedFrameRoundTrip(r: Range)
    requires r.min.Some? || r.max.Some?
    requires r.min.Some? && r.max.Some? ==> r.min.value <= r.max.value
    ensures ParseFrame(FrameText(r)) == Some(r)
  {
    FrameRoundTrip(r);
  }

  /** The range of a standard frame, if not unbounded on both sides, survives printing and parsing. */
  lemma ParsedFrameRoundTrip(a: Bound, b: Bound)
    requires Unsigned(a) && Unsigned(b) && a != Unbounded(Following) && b != Unbounded(Preceding)
    requires Before(OffsetOf(a), OffsetOf(b)) && !(a.Unbounded? && b.Unbounded?)
    ensures var r := ToBetween(ToBound(a), ToBound(b)); ParseFrame(FrameText(r)) == Some(r)
  {
    BetweenRecoversOffsets(a, b);
    FrameRoundTrip(ToBetween(ToBound(a), ToBound(b)));
  }
}
