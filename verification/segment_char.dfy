/** One seven-segment character (`SevenSegmentChar`): its sizes, the seven
    hexagons it paints and which of them are lit. Pixels are not modelled;
    painting is the list of (colour, hexagon) fills it would issue. */
module SegmentChar {
  import opened Results
  import opened Segments
  import opened Glyphs

  /** An (R, G, B) colour. */
  datatype Colour = Colour(r: int, g: int, b: int)

  const COLOUR_ON: Colour := Colour(255, 0, 0)
  const COLOUR_OFF: Colour := Colour(30, 0, 0)
  const BGCOLOUR: Colour := Colour(0, 0, 0)

  /** Default character width in pixels. */
  const WIDTH: real := 20.0

  datatype Point = Point(x: real, y: real)

  /** A character's state. `segmentLength` and `height` are derived when the
      character is built and are stored, as the source stores them. */
  datatype SsdChar = SsdChar(
    ch: char,
    width: real,
    colourOn: Colour,
    colourOff: Colour,
    bgColour: Colour,
    segmentWidth: real,
    segmentPadding: real,
    frameWidth: real,
    segmentLength: real,
    height: real)

  /** One entry of `_get_segment_points`: the on/off flag (1/0 in the source)
      and the segment's hexagon. */
  datatype Segment = Segment(on: bool, hexagon: seq<Point>)

  /** One fill the character issues: `draw.polygon` and `draw.aalines` of the
      same hexagon in the same colour. */
  datatype Fill = Fill(colour: Colour, hexagon: seq<Point>)

  /** What drawing the character produces: a surface of the character's size
      cleared to the background colour, then the seven fills in order A..G. */
  datatype Picture = Picture(width: real, height: real, background: Colour, fills: seq<Fill>)

  /** The figure-8 fits the frame exactly: across, a frame margin, one segment
      thickness, one segment length and another margin make the width; down,
      the same with two segment lengths make the height. These are the two
      asserts of `_get_segment_points`. */
  predicate FrameFits(c: SsdChar) {
    && c.frameWidth + c.segmentWidth + c.segmentLength + c.frameWidth == c.width
    && c.frameWidth + c.segmentWidth + 2.0 * c.segmentLength + c.frameWidth == c.height
  }

  /** `SevenSegmentChar.__init__`: rejects a character missing from the table,
      fills in a falsy thickness, padding or frame with width/5, width/10 and
      width/15, and derives segment length and height. The constructor ends
      by drawing; that draw is `Draw` of the result, and
      `ConstructedCharDraws` shows it always succeeds. */
  function NewChar(ch: char, width: real, colourOn: Colour, colourOff: Colour, bgColour: Colour,
                   segmentWidth: Option<real>, segmentPadding: Option<real>, frameWidth: Option<real>): (r: Result<SsdChar>)
    ensures r.Ok? <==> Known(ch)
    ensures r.Err? ==> r.error == UnknownGlyph(ch)
    ensures r.Ok? ==> r.value.ch == ch && r.value.width == width
    ensures r.Ok? ==> r.value.colourOn == colourOn && r.value.colourOff == colourOff && r.value.bgColour == bgColour
    ensures r.Ok? ==> r.value.segmentWidth == (if Falsy(segmentWidth) then width / 5.0 else segmentWidth.value)
    ensures r.Ok? ==> r.value.segmentPadding == (if Falsy(segmentPadding) then width / 10.0 else segmentPadding.value)
    ensures r.Ok? ==> r.value.frameWidth == (if Falsy(frameWidth) then width / 15.0 else frameWidth.value)
    ensures r.Ok? ==> FrameFits(r.value)
  {
    if !Known(ch) then Err(UnknownGlyph(ch))
    else
      Ok(Sized(SsdChar(ch, width, colourOn, colourOff, bgColour,
                       Pick(segmentWidth, width / 5.0), Pick(segmentPadding, width / 10.0),
                       Pick(frameWidth, width / 15.0), 0.0, 0.0)))
  }

  /** The constructor's derived sizes: segment length is what is left of the
      width after one thickness and two frames, and height stacks two
      lengths, one thickness and two frames. Only these two fields change. */
  function Sized(c: SsdChar): (r: SsdChar)
    ensures r == c.(segmentLength := r.segmentLength, height := r.height)
    ensures FrameFits(r)
  {
    var l := c.width - c.segmentWidth - 2.0 * c.frameWidth;
    c.(segmentLength := l, height := 2.0 * l + c.segmentWidth + 2.0 * c.frameWidth)
  }

  /** The anchor columns x0..x5 of `_get_segment_points`. */
  datatype Columns = Columns(x0: real, x1: real, x2: real, x3: real, x4: real, x5: real)

  /** The anchor rows y0..y8 of `_get_segment_points`. */
  datatype Rows = Rows(y0: real, y1: real, y2: real, y3: real, y4: real, y5: real, y6: real, y7: real, y8: real)

  /** Across: the frame, then half and a whole thickness, then the same three
      again one segment length further right. */
  function ColumnsOf(c: SsdChar): (x: Columns)
    ensures x.x0 == c.frameWidth && x.x5 == c.frameWidth + c.segmentWidth + c.segmentLength
  {
    var x0 := c.frameWidth;
    var x1 := x0 + 0.5 * c.segmentWidth;
    var x2 := x0 + c.segmentWidth;
    Columns(x0, x1, x2, x0 + c.segmentLength, x1 + c.segmentLength, x2 + c.segmentLength)
  }

  /** Down: the same three rows repeated at zero, one and two segment lengths. */
  function RowsOf(c: SsdChar): (y: Rows)
    ensures y.y0 == c.frameWidth && y.y8 == c.frameWidth + c.segmentWidth + 2.0 * c.segmentLength
  {
    var y0 := c.frameWidth;
    var y1 := y0 + 0.5 * c.segmentWidth;
    var y2 := y0 + c.segmentWidth;
    var y3 := y0 + c.segmentLength;
    var y4 := y1 + c.segmentLength;
    var y5 := y2 + c.segmentLength;
    Rows(y0, y1, y2, y3, y4, y5, y3 + c.segmentLength, y4 + c.segmentLength, y5 + c.segmentLength)
  }

  /** The hexagon of segment `i` (0 = A .. 6 = G) in the `positions` table.
      Each is cut in by half the padding at its two pointed ends. */
  function Hexagon(c: SsdChar, i: nat): (h: seq<Point>)
    requires i < 7
    ensures |h| == 6
  {
    var x := ColumnsOf(c);
    var y := RowsOf(c);
    var p := c.segmentPadding / 2.0;
    if i == 0 then
      [Point(x.x1 + p, y.y1), Point(x.x2 + p, y.y0), Point(x.x3 - p, y.y0),
       Point(x.x4 - p, y.y1), Point(x.x3 - p, y.y2), Point(x.x2 + p, y.y2)]
    else if i == 1 then
      [Point(x.x4, y.y1 + p), Point(x.x5, y.y2 + p), Point(x.x5, y.y3 - p),
       Point(x.x4, y.y4 - p), Point(x.x3, y.y3 - p), Point(x.x3, y.y2 + p)]
    else if i == 2 then
      [Point(x.x4, y.y4 + p), Point(x.x5, y.y5 + p), Point(x.x5, y.y6 - p),
       Point(x.x4, y.y7 - p), Point(x.x3, y.y6 - p), Point(x.x3, y.y5 + p)]
    else if i == 3 then
      [Point(x.x1 + p, y.y7), Point(x.x2 + p, y.y6), Point(x.x3 - p, y.y6),
       Point(x.x4 - p, y.y7), Point(x.x3 - p, y.y8), Point(x.x2 + p, y.y8)]
    else if i == 4 then
      [Point(x.x1, y.y4 + p), Point(x.x2, y.y5 + p), Point(x.x2, y.y6 - p),
       Point(x.x1, y.y7 - p), Point(x.x0, y.y6 - p), Point(x.x0, y.y5 + p)]
    else if i == 5 then
      [Point(x.x1, y.y1 + p), Point(x.x2, y.y2 + p), Point(x.x2, y.y3 - p),
       Point(x.x1, y.y4 - p), Point(x.x0, y.y3 - p), Point(x.x0, y.y2 + p)]
    else
      [Point(x.x1 + p, y.y4), Point(x.x2 + p, y.y3), Point(x.x3 - p, y.y3),
       Point(x.x4 - p, y.y4), Point(x.x3 - p, y.y5), Point(x.x2 + p, y.y5)]
  }

  /** The two asserts of `_get_segment_points`, stated on the anchor columns
      and rows as the source states them. */
  predicate AssertsPass(c: SsdChar)
    ensures AssertsPass(c) <==> FrameFits(c)
  {
    ColumnsOf(c).x5 + c.frameWidth == c.width && RowsOf(c).y8 + c.frameWidth == c.height
  }

  /** The segments A..G in order, each paired with its hexagon and whether
      `ssd` lights it. */
  function Pair(c: SsdChar, ssd: bv8): (r: seq<Segment>)
    ensures |r| == 7
  {
    [Segment(A & ssd != 0, Hexagon(c, 0)), Segment(B & ssd != 0, Hexagon(c, 1)),
     Segment(C & ssd != 0, Hexagon(c, 2)), Segment(D & ssd != 0, Hexagon(c, 3)),
     Segment(E & ssd != 0, Hexagon(c, 4)), Segment(F & ssd != 0, Hexagon(c, 5)),
     Segment(G & ssd != 0, Hexagon(c, 6))]
  }

  /** `_get_segment_points`: the two frame asserts come first, then the
      character's mask is looked up and each segment paired with its hexagon. */
  function GetSegmentPoints(c: SsdChar): (r: Result<seq<Segment>>)
    ensures r.Ok? <==> FrameFits(c) && Known(c.ch)
    ensures r.Err? ==> r.error == (if FrameFits(c) then UnknownGlyph(c.ch) else GeometryAssertion)
    ensures r.Ok? ==> |r.value| == 7
  {
    if !AssertsPass(c) then Err(GeometryAssertion)
    else
      match Lookup(c.ch)
      case Err(e) => Err(e)
      case Ok(ssd) => Ok(Pair(c, ssd))
  }

  /** The fill of one segment: its hexagon in the on colour when lit, the off
      colour otherwise. */
  function Paint(c: SsdChar, s: Segment): (f: Fill)
    ensures f.hexagon == s.hexagon
    ensures f.colour == (if s.on then c.colourOn else c.colourOff)
  {
    Fill(if s.on then c.colourOn else c.colourOff, s.hexagon)
  }

  /** `draw_ssd_segments` on a freshly cleared surface: one fill per segment,
      in order A..G. */
  function Draw(c: SsdChar): (r: Result<Picture>)
    ensures r.Ok? <==> FrameFits(c) && Known(c.ch)
    ensures r.Err? ==> r.error == (if FrameFits(c) then UnknownGlyph(c.ch) else GeometryAssertion)
    ensures r.Ok? ==> r.value.width == c.width && r.value.height == c.height
    ensures r.Ok? ==> r.value.background == c.bgColour && |r.value.fills| == 7
  {
    match GetSegmentPoints(c)
    case Err(e) => Err(e)
    case Ok(segments) =>
      Ok(Picture(c.width, c.height, c.bgColour, PaintAll(c, segments)))
  }

  /** The fills of a list of segments, in the same order. */
  function PaintAll(c: SsdChar, segments: seq<Segment>): (fs: seq<Fill>)
    ensures |fs| == |segments|
    ensures forall i :: 0 <= i < |segments| ==> fs[i] == Paint(c, segments[i])
  {
    seq(|segments|, i requires 0 <= i < |segments| => Paint(c, segments[i]))
  }

  /** Entry i of the pairing is segment i's hexagon, lit exactly when bit i of
      the mask is set. */
  lemma PairFollowsMask(c: SsdChar, ssd: bv8)
    ensures forall i :: 0 <= i < 7 ==> Pair(c, ssd)[i] == Segment(Bit(ssd, i), Hexagon(c, i))
  {
    forall i | 0 <= i < 7
      ensures Pair(c, ssd)[i] == Segment(Bit(ssd, i), Hexagon(c, i))
    {
      SegmentTestIsBit(ssd, i);
    }
  }

  /** When the frame fits and the character is in the table, the segment
      points pair A..G with the character's own mask. */
  lemma SegmentPointsUseMask(c: SsdChar)
    requires FrameFits(c) && Known(c.ch)
    ensures GetSegmentPoints(c) == Ok(Pair(c, Lookup(c.ch).value))
  {
  }

  /** `_get_segment_points` returns seven entries in order A..G: entry i is
      segment i's hexagon, flagged on exactly when bit i of the character's
      mask is set. */
  lemma SegmentPointsFollowMask(c: SsdChar)
    requires FrameFits(c) && Known(c.ch)
    ensures GetSegmentPoints(c).Ok? && |GetSegmentPoints(c).value| == 7
    ensures forall i :: 0 <= i < 7 ==>
      GetSegmentPoints(c).value[i] == Segment(Bit(Lookup(c.ch).value, i), Hexagon(c, i))
  {
    SegmentPointsUseMask(c);
    PairFollowsMask(c, Lookup(c.ch).value);
  }

  /** Drawing paints segment i's hexagon in the on colour exactly when bit i
      of the mask the segment points were paired with is set. */
  lemma DrawFollowsMask(c: SsdChar, ssd: bv8)
    requires GetSegmentPoints(c) == Ok(Pair(c, ssd))
    ensures Draw(c).Ok?
    ensures forall i :: 0 <= i < 7 ==>
      Draw(c).value.fills[i] == Fill(if Bit(ssd, i) then c.colourOn else c.colourOff, Hexagon(c, i))
  {
    PairFollowsMask(c, ssd);
  }

  /** Each fill of a drawn character is segment i's hexagon, in the on colour
      exactly when bit i of the character's mask is set. */
  lemma FillsFollowMask(c: SsdChar)
    requires FrameFits(c) && Known(c.ch)
    ensures forall i :: 0 <= i < 7 ==>
      Draw(c).value.fills[i] == Fill(if Bit(Lookup(c.ch).value, i) then c.colourOn else c.colourOff, Hexagon(c, i))
  {
    SegmentPointsUseMask(c);
    DrawFollowsMask(c, Lookup(c.ch).value);
  }

  /** The draw that ends the constructor succeeds: a constructed character
      never fails the two asserts, whatever its width, thickness and frame. */
  lemma ConstructedCharDraws(ch: char, width: real, colourOn: Colour, colourOff: Colour, bgColour: Colour,
                             segmentWidth: Option<real>, segmentPadding: Option<real>, frameWidth: Option<real>)
    requires Known(ch)
    ensures NewChar(ch, width, colourOn, colourOff, bgColour, segmentWidth, segmentPadding, frameWidth).Ok?
    ensures Draw(NewChar(ch, width, colourOn, colourOff, bgColour, segmentWidth, segmentPadding, frameWidth).value).Ok?
  {
  }

  /** With every optional size left falsy, a character's segment is two
      thirds of its width and its height five thirds. */
  lemma DefaultProportions(ch: char, width: real, colourOn: Colour, colourOff: Colour, bgColour: Colour)
    requires Known(ch)
    ensures NewChar(ch, width, colourOn, colourOff, bgColour, None, None, None).Ok?
    ensures NewChar(ch, width, colourOn, colourOff, bgColour, None, None, None).value.segmentLength == 2.0 * width / 3.0
    ensures NewChar(ch, width, colourOn, colourOff, bgColour, None, None, None).value.height == 5.0 * width / 3.0
  {
    var c := NewChar(ch, width, colourOn, colourOff, bgColour, None, None, None).value;
    assert c.segmentWidth == width / 5.0 && c.frameWidth == width / 15.0;
    DefaultFractions(width);
  }

  /** Width minus a fifth and two fifteenths is two thirds; two of those plus
      a fifth and two fifteenths is five thirds. */
  lemma DefaultFractions(w: real)
    ensures w - w / 5.0 - 2.0 * (w / 15.0) == 2.0 * w / 3.0
    ensures 2.0 * (2.0 * w / 3.0) + w / 5.0 + 2.0 * (w / 15.0) == 5.0 * w / 3.0
  {
  }

  /** Inside the frame: no closer than one frame width to any edge. */
  predicate InsideFrame(c: SsdChar, q: Point) {
    c.frameWidth <= q.x <= c.width - c.frameWidth && c.frameWidth <= q.y <= c.height - c.frameWidth
  }

  /** The sizes a character is drawn with are sensible: the frame fits, the
      thickness is not negative, and the padding is not negative and at most
      twice the segment length. */
  predicate Proportioned(c: SsdChar) {
    FrameFits(c) && 0.0 <= c.segmentWidth && 0.0 <= c.segmentPadding <= 2.0 * c.segmentLength
  }

  /** Each horizontal bar (A, D or G) lies inside the frame. */
  lemma BarInsideFrame(c: SsdChar, i: nat)
    requires i == 0 || i == 3 || i == 6
    requires Proportioned(c)
    ensures forall j :: 0 <= j < 6 ==> InsideFrame(c, Hexagon(c, i)[j])
  {
    var h := Hexagon(c, i);
    forall j | 0 <= j < 6
      ensures InsideFrame(c, h[j])
    {
      if i == 0 {
      } else if i == 3 {
      } else {
      }
    }
  }

  /** Each vertical post (B, C, E or F) lies inside the frame. */
  lemma PostInsideFrame(c: SsdChar, i: nat)
    requires i == 1 || i == 2 || i == 4 || i == 5
    requires Proportioned(c)
    ensures forall j :: 0 <= j < 6 ==> InsideFrame(c, Hexagon(c, i)[j])
  {
    var h := Hexagon(c, i);
    forall j | 0 <= j < 6
      ensures InsideFrame(c, h[j])
    {
      if i == 1 {
      } else if i == 2 {
      } else if i == 4 {
      } else {
      }
    }
  }

  /** A character built with the default sizes and a width that is not
      negative is proportioned, so its hexagons stay inside its frame. */
  lemma DefaultCharProportioned(ch: char, width: real, colourOn: Colour, colourOff: Colour, bgColour: Colour)
    requires Known(ch) && 0.0 <= width
    ensures Proportioned(NewChar(ch, width, colourOn, colourOff, bgColour, None, None, None).value)
  {
    DefaultProportions(ch, width, colourOn, colourOff, bgColour);
  }

  /** Every point of every hexagon lies inside the frame. */
  lemma HexagonsInsideFrame(c: SsdChar)
    requires Proportioned(c)
    ensures forall i, j :: 0 <= i < 7 && 0 <= j < 6 ==> InsideFrame(c, Hexagon(c, i)[j])
  {
    forall i | 0 <= i < 7
      ensures forall j :: 0 <= j < 6 ==> InsideFrame(c, Hexagon(c, i)[j])
    {
      if i == 0 || i == 3 || i == 6 {
        BarInsideFrame(c, i);
      } else {
        PostInsideFrame(c, i);
      }
    }
  }

  /** A hexagon moved by (dx, dy). */
  function Shift(h: seq<Point>, dx: real, dy: real): (r: seq<Point>)
    ensures |r| == |h|
    ensures forall j :: 0 <= j < |h| ==> r[j] == Point(h[j].x + dx, h[j].y + dy)
  {
    seq(|h|, j requires 0 <= j < |h| => Point(h[j].x + dx, h[j].y + dy))
  }

  /** The horizontal bars are one shape: G and D are A moved down by one and
      by two segment lengths. */
  lemma BarsAreTranslates(c: SsdChar)
    ensures Hexagon(c, 6) == Shift(Hexagon(c, 0), 0.0, c.segmentLength)
    ensures Hexagon(c, 3) == Shift(Hexagon(c, 0), 0.0, 2.0 * c.segmentLength)
  {
  }

  /** The vertical posts are one shape: B, C and E are F moved right, right
      and down, and down by one segment length. */
  lemma PostsAreTranslates(c: SsdChar)
    ensures Hexagon(c, 1) == Shift(Hexagon(c, 5), c.segmentLength, 0.0)
    ensures Hexagon(c, 2) == Shift(Hexagon(c, 5), c.segmentLength, c.segmentLength)
    ensures Hexagon(c, 4) == Shift(Hexagon(c, 5), 0.0, c.segmentLength)
  {
  }

  /** The sizes `SevenSegmentChar.update` leaves behind: the segment length
      recomputed as width minus two thicknesses, every other field, the
      height included, as it was. */
  function Relength(c: SsdChar): (r: SsdChar)
    ensures r == c.(segmentLength := r.segmentLength)
    ensures r.segmentLength + 2.0 * c.segmentWidth == c.width
  {
    c.(segmentLength := c.width - 2.0 * c.segmentWidth)
  }

  /** `SevenSegmentChar.update` as written: the sizes are relengthened and the
      character redrawn, so the two asserts run on the new length and the
      old height. */
  function Update(c: SsdChar): (r: Result<SsdChar>)
    ensures r.Ok? <==> Known(c.ch) && FrameFits(Relength(c))
    ensures r.Ok? ==> r.value == Relength(c)
    ensures r.Err? ==> r.error == (if FrameFits(Relength(c)) then UnknownGlyph(c.ch) else GeometryAssertion)
  {
    var u := Relength(c);
    match Draw(u)
    case Err(e) => Err(e)
    case Ok(_) => Ok(u)
  }

  /** From a fitting frame, the relengthened sizes fit exactly when the
      thickness is twice the frame width, and then nothing has changed. */
  lemma RelengthFitsIff(c: SsdChar)
    requires FrameFits(c)
    ensures FrameFits(Relength(c)) <==> c.segmentWidth == 2.0 * c.frameWidth
    ensures FrameFits(Relength(c)) ==> Relength(c) == c
  {
  }

  /** The `char` setter: rejects a character missing from the table, then
      stores it and runs `update`. */
  function SetChar(c: SsdChar, next: char): (r: Result<SsdChar>)
    ensures !Known(next) ==> r == Err(UnknownGlyph(next))
    ensures r.Ok? <==> Known(next) && FrameFits(Relength(c.(ch := next)))
    ensures r.Ok? ==> r.value == Relength(c.(ch := next))
    ensures Known(next) && r.Err? ==> r.error == GeometryAssertion
  {
    match Lookup(next)
    case Err(e) => Err(e)
    case Ok(_) => Update(c.(ch := next))
  }

  /** Starting from a fitting frame, `update` keeps it exactly when the
      thickness is twice the frame width; otherwise it fails its assert. */
  lemma UpdateFitsIff(c: SsdChar)
    requires FrameFits(c) && Known(c.ch)
    ensures Update(c).Ok? <==> c.segmentWidth == 2.0 * c.frameWidth
    ensures Update(c).Err? ==> Update(c).error == GeometryAssertion
    ensures Update(c).Ok? ==> Update(c).value == c
  {
    RelengthFitsIff(c);
  }

  /** A default character cannot change: the default thickness is three times
      the default frame, not twice, so setting any valid character fails. */
  lemma DefaultCharCannotChange(ch: char, width: real, colourOn: Colour, colourOff: Colour, bgColour: Colour, next: char)
    requires Known(ch) && Known(next) && width != 0.0
    ensures SetChar(NewChar(ch, width, colourOn, colourOff, bgColour, None, None, None).value, next)
         == Err(GeometryAssertion)
  {
    var c := NewChar(ch, width, colourOn, colourOff, bgColour, None, None, None).value;
    assert c.segmentWidth != 2.0 * c.frameWidth by {
      assert c.segmentWidth == width / 5.0 && c.frameWidth == width / 15.0;
    }
    UpdateFitsIff(c.(ch := next));
  }

  /** A default '8' of the module's standard width `WIDTH` (20) cannot be set
      to '0'. */
  lemma EightToZeroFails()
    ensures NewChar('8', WIDTH, COLOUR_ON, COLOUR_OFF, BGCOLOUR, None, None, None).Ok?
    ensures SetChar(NewChar('8', WIDTH, COLOUR_ON, COLOUR_OFF, BGCOLOUR, None, None, None).value, '0')
         == Err(GeometryAssertion)
  {
    EightEntry();
    ZeroEntry();
    DefaultCharCannotChange('8', WIDTH, COLOUR_ON, COLOUR_OFF, BGCOLOUR, '0');
  }

  /** `update` as evidently intended: the length and the height are derived
      again exactly as the constructor derives them, then the character is
      redrawn. */
  function UpdateIntended(c: SsdChar): (r: Result<SsdChar>)
    ensures r.Ok? <==> Known(c.ch)
    ensures r.Err? ==> r.error == UnknownGlyph(c.ch)
    ensures r.Ok? ==> FrameFits(r.value)
    ensures r.Ok? ==> r.value == c.(segmentLength := r.value.segmentLength, height := r.value.height)
  {
    var u := Sized(c);
    match Draw(u)
    case Err(e) => Err(e)
    case Ok(_) => Ok(u)
  }

  /** Deriving the sizes of a character whose frame already fits changes
      nothing. */
  lemma SizedFixesFitting(c: SsdChar)
    requires FrameFits(c)
    ensures Sized(c) == c
  {
  }

  /** The `char` setter over the intended `update`: any character in the
      table can be set, whatever the sizes. */
  function SetCharIntended(c: SsdChar, next: char): (r: Result<SsdChar>)
    ensures r.Ok? <==> Known(next)
    ensures r.Err? ==> r.error == UnknownGlyph(next)
    ensures r.Ok? ==> r.value.ch == next && FrameFits(r.value)
    ensures r.Ok? ==> r.value == c.(ch := next, segmentLength := r.value.segmentLength, height := r.value.height)
  {
    match Lookup(next)
    case Err(e) => Err(e)
    case Ok(_) => UpdateIntended(c.(ch := next))
  }

  /** The intended `update` changes nothing on a constructed character: it
      derives the sizes the constructor derived. */
  lemma UpdateIntendedIsIdentity(ch: char, width: real, colourOn: Colour, colourOff: Colour, bgColour: Colour,
                                 segmentWidth: Option<real>, segmentPadding: Option<real>, frameWidth: Option<real>)
    requires Known(ch)
    ensures UpdateIntended(NewChar(ch, width, colourOn, colourOff, bgColour, segmentWidth, segmentPadding, frameWidth).value)
         == NewChar(ch, width, colourOn, colourOff, bgColour, segmentWidth, segmentPadding, frameWidth)
  {
    var c := NewChar(ch, width, colourOn, colourOff, bgColour, segmentWidth, segmentPadding, frameWidth).value;
    SizedFixesFitting(c);
  }
}
