/** A row of seven-segment characters (`SevenSegmentDisplay`): the checks its
    constructor makes, the characters it builds, where it places each of them
    on the panel, and what setting new content keeps. */
module Display {
  import opened Results
  import opened Glyphs
  import opened SegmentChar

  /** A panel's state. `contentWidth`, `segmentLength` and `height` are
      derived in the constructor and stored; `numChars` is refreshed by every
      `update`, `contentWidth` never is. */
  datatype Panel = Panel(
    content: string,
    charWidth: real,
    displayWidth: real,
    colourOn: Colour,
    colourOff: Colour,
    bgColour: Colour,
    segmentWidth: real,
    segmentPadding: real,
    charFrameWidth: real,
    contentWidth: real,
    segmentLength: real,
    height: real,
    rightJustified: bool,
    numChars: nat,
    chars: seq<SsdChar>)

  /** One `blit`: a character's surface copied with its left edge at `x`
      (the top edge is always 0). */
  datatype Blit = Blit(x: real, ch: SsdChar)

  /** Every character of `s` has a glyph. */
  predicate Displayable(s: string) {
    forall i :: 0 <= i < |s| ==> Known(s[i])
  }

  /** Python's `s[-n:]` for a count `n >= 0`: the last `n` items, or all of
      them when there are fewer, and ALSO all of them when `n` is 0, because
      `-0` is `0`. */
  function PyTail<T>(s: seq<T>, n: nat): (r: seq<T>)
    ensures |r| == if n == 0 || n >= |s| then |s| else n
    ensures r == s[|s| - |r|..]
  {
    if n == 0 || n >= |s| then s else s[|s| - n..]
  }

  /** The character the panel builds for `ch`: the panel's width, colours and
      (already defaulted) sizes are handed on. */
  function CharOf(p: Panel, ch: char): (r: Result<SsdChar>)
    ensures r.Ok? <==> Known(ch)
    ensures r.Err? ==> r.error == UnknownGlyph(ch)
    ensures r.Ok? ==> r.value.ch == ch && r.value.width == p.charWidth
    ensures r.Ok? ==> r.value.colourOn == p.colourOn && r.value.colourOff == p.colourOff
                      && r.value.bgColour == p.bgColour
    ensures r.Ok? ==> r.value.segmentWidth == Pick(Some(p.segmentWidth), p.charWidth / 5.0)
    ensures r.Ok? ==> r.value.segmentPadding == Pick(Some(p.segmentPadding), p.charWidth / 10.0)
    ensures r.Ok? ==> r.value.frameWidth == Pick(Some(p.charFrameWidth), p.charWidth / 15.0)
    ensures r.Ok? ==> FrameFits(r.value)
  {
    NewChar(ch, p.charWidth, p.colourOn, p.colourOff, p.bgColour,
            Some(p.segmentWidth), Some(p.segmentPadding), Some(p.charFrameWidth))
  }

  /** The loop of `update`: one character per content character, in order;
      the first character without a glyph stops it. */
  function BuildChars(p: Panel, s: string): (r: Result<seq<SsdChar>>)
    ensures r.Ok? <==> Displayable(s)
    ensures r.Ok? ==> |r.value| == |s|
    ensures r.Ok? ==> forall i :: 0 <= i < |s| ==> r.value[i] == CharOf(p, s[i]).value
    ensures r.Err? ==> exists i :: 0 <= i < |s| && !Known(s[i]) && r.error == UnknownGlyph(s[i])
                                    && Displayable(s[..i])
    decreases |s|
  {
    if |s| == 0 then Ok([])
    else
      match CharOf(p, s[0])
      case Err(e) => Err(e)
      case Ok(c) =>
        match BuildChars(p, s[1..])
        case Err(e) =>
          FirstUnknownShifts(s, e);
          Err(e)
        case Ok(cs) => Ok([c] + cs)
  }

  /** Prepending a character with a glyph keeps "the first character without
      a glyph" the same character, one place further on. */
  lemma FirstUnknownShifts(s: string, e: Error)
    requires |s| > 0 && Known(s[0])
    requires exists i :: 0 <= i < |s[1..]| && !Known(s[1..][i]) && e == UnknownGlyph(s[1..][i]) && Displayable(s[1..][..i])
    ensures exists i :: 0 <= i < |s| && !Known(s[i]) && e == UnknownGlyph(s[i]) && Displayable(s[..i])
  {
    var i :| 0 <= i < |s[1..]| && !Known(s[1..][i]) && e == UnknownGlyph(s[1..][i]) && Displayable(s[1..][..i]);
    assert s[..i + 1] == [s[0]] + s[1..][..i];
    assert Displayable(s[..i + 1]);
  }

  /** `SevenSegmentDisplay.update`: the character count is refreshed and the
      characters rebuilt from the content. */
  function Update(p: Panel): (r: Result<Panel>)
    ensures r.Ok? <==> Displayable(p.content)
    ensures r.Ok? ==> r.value == p.(numChars := |p.content|, chars := r.value.chars)
    ensures r.Ok? ==> |r.value.chars| == |p.content|
    ensures r.Ok? ==> forall i :: 0 <= i < |p.content| ==> r.value.chars[i] == CharOf(p, p.content[i]).value
    ensures r.Ok? ==> forall i :: 0 <= i < |p.content| ==> r.value.chars[i].ch == p.content[i]
    ensures r.Err? ==> exists i :: 0 <= i < |p.content| && !Known(p.content[i]) && r.error == UnknownGlyph(p.content[i])
                                    && Displayable(p.content[..i])
  {
    match BuildChars(p, p.content)
    case Err(e) => Err(e)
    case Ok(cs) => Ok(p.(numChars := |p.content|, chars := cs))
  }

  /** `SevenSegmentDisplay.__init__`: empty content is refused; a falsy display
      width becomes the content's width and a smaller one is refused; falsy
      sizes default to a fifth, a tenth and a fifteenth of the character
      width; then `update` builds the characters. */
  function NewDisplay(content: string, charWidth: real, displayWidth: Option<real>,
                      colourOn: Colour, colourOff: Colour, bgColour: Colour,
                      segmentWidth: Option<real>, segmentPadding: Option<real>, charFrameWidth: Option<real>,
                      rightJustify: bool): (r: Result<Panel>)
    ensures |content| == 0 ==> r == Err(EmptyContent)
    ensures |content| > 0 && !Falsy(displayWidth) && displayWidth.value < Span(|content|, charWidth)
            ==> r == Err(DisplayTooSmall)
    ensures |content| > 0 && (Falsy(displayWidth) || displayWidth.value >= Span(|content|, charWidth))
            ==> (r.Ok? <==> Displayable(content))
    ensures |content| > 0 && (Falsy(displayWidth) || displayWidth.value >= Span(|content|, charWidth)) && r.Err?
            ==> exists i :: 0 <= i < |content| && !Known(content[i]) && r.error == UnknownGlyph(content[i])
                            && Displayable(content[..i])
    ensures r.Ok? ==> |content| > 0 && Displayable(content)
    ensures r.Ok? ==> r.value.content == content && r.value.charWidth == charWidth
    ensures r.Ok? ==> r.value.displayWidth == Pick(displayWidth, Span(|content|, charWidth))
    ensures r.Ok? ==> r.value.displayWidth >= r.value.contentWidth == Span(|content|, charWidth)
    ensures r.Ok? ==> r.value.numChars == |content| == |r.value.chars|
    ensures r.Ok? ==> forall i :: 0 <= i < |content| ==> r.value.chars[i].ch == content[i]
    ensures r.Ok? ==> r.value.rightJustified == rightJustify
    ensures r.Ok? ==> r.value.colourOn == colourOn && r.value.colourOff == colourOff && r.value.bgColour == bgColour
    ensures r.Ok? ==> r.value.segmentWidth == Pick(segmentWidth, charWidth / 5.0)
    ensures r.Ok? ==> r.value.segmentPadding == Pick(segmentPadding, charWidth / 10.0)
    ensures r.Ok? ==> r.value.charFrameWidth == Pick(charFrameWidth, charWidth / 15.0)
    ensures r.Ok? ==> r.value.segmentLength == charWidth - r.value.segmentWidth - 2.0 * r.value.charFrameWidth
    ensures r.Ok? ==> r.value.height == 2.0 * r.value.segmentLength + r.value.segmentWidth + 2.0 * r.value.charFrameWidth
    ensures r.Ok? ==> forall i :: 0 <= i < |content| ==> r.value.chars[i] == CharOf(r.value, content[i]).value
  {
    if |content| == 0 then Err(EmptyContent)
    else
      var contentWidth := Span(|content|, charWidth);
      var width := Pick(displayWidth, contentWidth);
      if width < contentWidth then Err(DisplayTooSmall)
      else
        var t := Pick(segmentWidth, charWidth / 5.0);
        var pad := Pick(segmentPadding, charWidth / 10.0);
        var f := Pick(charFrameWidth, charWidth / 15.0);
        var l := charWidth - t - 2.0 * f;
        Update(Panel(content, charWidth, width, colourOn, colourOff, bgColour, t, pad, f,
                     contentWidth, l, 2.0 * l + t + 2.0 * f, rightJustify, |content|, []))
  }

  /** Where the first blit goes: right justification moves it right by the
      room the (stored) content width leaves. */
  function Start(p: Panel): real {
    if p.rightJustified then p.displayWidth - p.contentWidth else 0.0
  }

  /** The blits of `update_surface` in closed form: the last `numChars`
      characters (all of them when `numChars` is 0), the i-th at
      `Start + i * charWidth`. */
  function Layout(p: Panel): (r: seq<Blit>)
    ensures |r| == |PyTail(p.chars, p.numChars)|
  {
    var shown := PyTail(p.chars, p.numChars);
    seq(|shown|, i requires 0 <= i < |shown| => Blit(Column(p, i), shown[i]))
  }

  /** The left edge of the i-th blit. */
  function Column(p: Panel, i: nat): real {
    Start(p) + Span(i, p.charWidth)
  }

  /** The width of `n` characters of width `w`. */
  function Span(n: nat, w: real): real {
    n as real * w
  }

  /** Blit i of the layout is the i-th shown character at `Start + i * charWidth`. */
  lemma LayoutAt(p: Panel, i: nat)
    requires i < |Layout(p)|
    ensures Layout(p)[i] == Blit(Column(p, i), PyTail(p.chars, p.numChars)[i])
  {
  }

  /** `update_surface`: the rectangle starts at the justification offset and
      moves one character width right after every blit. */
  method UpdateSurface(p: Panel) returns (blits: seq<Blit>)
    ensures blits == Layout(p)
  {
    var shown := PyTail(p.chars, p.numChars);
    var x := if p.rightJustified then p.displayWidth - p.contentWidth else 0.0;
    blits := [];
    var i := 0;
    while i < |shown|
      invariant 0 <= i <= |shown|
      invariant x == Column(p, i)
      invariant blits == Layout(p)[..i]
    {
      LayoutAt(p, i);
      assert Layout(p)[..i + 1] == Layout(p)[..i] + [Blit(x, shown[i])];
      blits := blits + [Blit(x, shown[i])];
      NextColumn(p, i);
      x := x + p.charWidth;
      i := i + 1;
    }
  }

  /** One more character width along is the next column. */
  lemma NextColumn(p: Panel, i: nat)
    ensures Column(p, i) + p.charWidth == Column(p, i + 1)
  {
    assert Span(i + 1, p.charWidth) == Span(i, p.charWidth) + p.charWidth;
  }

  /** The `content` setter as written: keeps `new[-numChars:]` and runs
      `update`; the stored content width is not recomputed. */
  function SetContent(p: Panel, next: string): (r: Result<Panel>)
    ensures r.Ok? <==> Displayable(PyTail(next, p.numChars))
    ensures r.Ok? ==> r.value.content == PyTail(next, p.numChars)
    ensures r.Ok? ==> r.value.numChars == |r.value.content| == |r.value.chars|
    ensures r.Ok? ==> r.value.contentWidth == p.contentWidth && r.value.displayWidth == p.displayWidth
    ensures r.Ok? ==> r.value == p.(content := r.value.content, numChars := r.value.numChars, chars := r.value.chars)
    ensures r.Ok? ==> forall i :: 0 <= i < |r.value.chars| ==> r.value.chars[i] == CharOf(p, r.value.content[i]).value
    ensures r.Err? ==> var kept := PyTail(next, p.numChars);
                       exists i :: 0 <= i < |kept| && !Known(kept[i]) && r.error == UnknownGlyph(kept[i])
                                   && Displayable(kept[..i])
  {
    var q := p.(content := PyTail(next, p.numChars));
    assert q.content == PyTail(next, p.numChars);
    Update(q)
  }

  /** The content setter as evidently intended: `new[-numChars:]` is meant to
      keep the last `numChars` characters, which for 0 is none at all. */
  function SetContentIntended(p: Panel, next: string): (r: Result<Panel>)
    ensures r.Ok? <==> Displayable(Last(next, p.numChars))
    ensures r.Ok? ==> r.value.content == Last(next, p.numChars)
    ensures r.Ok? ==> r.value.numChars == |r.value.content| == |r.value.chars| <= p.numChars
    ensures r.Ok? ==> r.value.contentWidth == p.contentWidth && r.value.displayWidth == p.displayWidth
    ensures r.Ok? ==> r.value == p.(content := r.value.content, numChars := r.value.numChars, chars := r.value.chars)
    ensures r.Ok? ==> forall i :: 0 <= i < |r.value.chars| ==> r.value.chars[i] == CharOf(p, r.value.content[i]).value
    ensures r.Err? ==> var kept := Last(next, p.numChars);
                       exists i :: 0 <= i < |kept| && !Known(kept[i]) && r.error == UnknownGlyph(kept[i])
                                   && Displayable(kept[..i])
  {
    var q := p.(content := Last(next, p.numChars));
    assert q.content == Last(next, p.numChars);
    Update(q)
  }

  /** The last `n` items of `s`, or all of them when there are fewer. */
  function Last<T>(s: seq<T>, n: nat): (r: seq<T>)
    ensures |r| == if n <= |s| then n else |s|
    ensures r == s[|s| - |r|..]
  {
    if n <= |s| then s[|s| - n..] else s
  }

  /** Python's slice and the intended one differ only when the count is 0. */
  lemma TailsAgreeUnlessZero<T>(s: seq<T>, n: nat)
    ensures n > 0 ==> PyTail(s, n) == Last(s, n)
    ensures n == 0 ==> PyTail(s, n) == s && Last(s, n) == []
  {
  }

  /** The panel's layout fits: the character width is not negative, the
      stored content width fits the display, every built character is
      shown, and all of them fit within the stored content width. */
  predicate Fits(p: Panel) {
    && 0.0 <= p.charWidth
    && p.contentWidth <= p.displayWidth
    && p.numChars == |p.chars|
    && Span(|p.chars|, p.charWidth) <= p.contentWidth
  }

  /** i character widths are no more than n of them when i <= n. */
  lemma WidthsGrow(i: nat, n: nat, w: real)
    requires i <= n && 0.0 <= w
    ensures 0.0 <= Span(i, w) <= Span(n, w)
  {
    assert Span(n, w) - Span(i, w) == (n - i) as real * w;
  }

  /** Every blit of a panel that fits lies within the display: its left edge
      at or after 0 and its right edge at or before the display width. */
  lemma LayoutInside(p: Panel)
    requires Fits(p)
    ensures forall i :: 0 <= i < |Layout(p)| ==>
      0.0 <= Layout(p)[i].x && Layout(p)[i].x + p.charWidth <= p.displayWidth
  {
    var n := |p.chars|;
    assert PyTail(p.chars, p.numChars) == p.chars;
    assert 0.0 <= Start(p) && Start(p) + Span(n, p.charWidth) <= p.displayWidth;
    forall i | 0 <= i < |Layout(p)|
      ensures 0.0 <= Layout(p)[i].x && Layout(p)[i].x + p.charWidth <= p.displayWidth
    {
      LayoutAt(p, i);
      WidthsGrow(0, i, p.charWidth);
      WidthsGrow(i + 1, n, p.charWidth);
      NextColumn(p, i);
    }
  }

  /** A constructed panel fits, provided its character width is not negative. */
  lemma NewDisplayFits(content: string, charWidth: real, displayWidth: Option<real>,
                       colourOn: Colour, colourOff: Colour, bgColour: Colour,
                       segmentWidth: Option<real>, segmentPadding: Option<real>, charFrameWidth: Option<real>,
                       rightJustify: bool)
    requires 0.0 <= charWidth
    requires NewDisplay(content, charWidth, displayWidth, colourOn, colourOff, bgColour,
                        segmentWidth, segmentPadding, charFrameWidth, rightJustify).Ok?
    ensures Fits(NewDisplay(content, charWidth, displayWidth, colourOn, colourOff, bgColour,
                            segmentWidth, segmentPadding, charFrameWidth, rightJustify).value)
  {
  }

  /** Right-justified, a constructed panel's last character ends exactly at
      the display's right edge; left-justified, its first starts at 0. */
  lemma NewDisplayJustified(p: Panel)
    requires p.numChars == |p.content| == |p.chars| > 0
    requires p.contentWidth == Span(|p.content|, p.charWidth)
    ensures p.rightJustified ==> Layout(p)[|p.chars| - 1].x + p.charWidth == p.displayWidth
    ensures !p.rightJustified ==> Layout(p)[0].x == 0.0
  {
    var n := |p.chars|;
    assert PyTail(p.chars, p.numChars) == p.chars;
    LayoutAt(p, 0);
    LayoutAt(p, n - 1);
    NextColumn(p, n - 1);
  }

  /** Every character a panel builds has the panel's segment length and
      height: both derive them from the same sizes by the same formula. */
  lemma CharsMatchPanelHeight(p: Panel, ch: char)
    requires Known(ch)
    requires p.segmentLength == p.charWidth - p.segmentWidth - 2.0 * p.charFrameWidth
    requires p.height == 2.0 * p.segmentLength + p.segmentWidth + 2.0 * p.charFrameWidth
    requires p.segmentWidth == 0.0 ==> p.charWidth == 0.0
    requires p.segmentPadding == 0.0 ==> p.charWidth == 0.0
    requires p.charFrameWidth == 0.0 ==> p.charWidth == 0.0
    ensures CharOf(p, ch).value.segmentLength == p.segmentLength
    ensures CharOf(p, ch).value.height == p.height
  {
  }

  /** The characters of a constructed panel are exactly as tall as the panel. */
  lemma NewDisplayCharHeights(content: string, charWidth: real, displayWidth: Option<real>,
                              colourOn: Colour, colourOff: Colour, bgColour: Colour,
                              segmentWidth: Option<real>, segmentPadding: Option<real>, charFrameWidth: Option<real>,
                              rightJustify: bool)
    requires NewDisplay(content, charWidth, displayWidth, colourOn, colourOff, bgColour,
                        segmentWidth, segmentPadding, charFrameWidth, rightJustify).Ok?
    ensures var p := NewDisplay(content, charWidth, displayWidth, colourOn, colourOff, bgColour,
                                segmentWidth, segmentPadding, charFrameWidth, rightJustify).value;
            forall i :: 0 <= i < |p.chars| ==> p.chars[i].height == p.height
  {
    var p := NewDisplay(content, charWidth, displayWidth, colourOn, colourOff, bgColour,
                        segmentWidth, segmentPadding, charFrameWidth, rightJustify).value;
    forall i | 0 <= i < |p.chars|
      ensures p.chars[i].height == p.height
    {
      CharsMatchPanelHeight(p, content[i]);
    }
  }

  /** While the panel shows at least one character, the content setter as
      written keeps the layout fitting: it keeps at most that many. */
  lemma SetContentFitsWhileShowing(p: Panel, next: string)
    requires Fits(p) && p.numChars > 0
    requires SetContent(p, next).Ok?
    ensures Fits(SetContent(p, next).value)
  {
    var q := SetContent(p, next).value;
    assert q.charWidth == p.charWidth && q.contentWidth == p.contentWidth && q.displayWidth == p.displayWidth;
    assert q.numChars == |q.chars| <= |p.chars|;
    WidthsGrow(|q.chars|, |p.chars|, p.charWidth);
  }

  /** The intended setter always keeps the layout fitting. */
  lemma SetContentIntendedFits(p: Panel, next: string)
    requires Fits(p)
    requires SetContentIntended(p, next).Ok?
    ensures Fits(SetContentIntended(p, next).value)
  {
    var q := SetContentIntended(p, next).value;
    assert q.charWidth == p.charWidth && q.contentWidth == p.contentWidth && q.displayWidth == p.displayWidth;
    assert q.numChars == |q.chars| <= |p.chars|;
    WidthsGrow(|q.chars|, |p.chars|, p.charWidth);
  }

  /** Emptying a three-character panel and then setting five characters
      keeps all five: the fifth is drawn from x = 80 on a 60-wide display. */
  lemma EmptiedPanelOverflows()
    ensures var p := NewDisplay("888", WIDTH, None, COLOUR_ON, COLOUR_OFF, BGCOLOUR, None, None, None, true);
            && p.Ok?
            && SetContent(p.value, "").Ok?
            && SetContent(SetContent(p.value, "").value, "88888").Ok?
            && var q := SetContent(SetContent(p.value, "").value, "88888").value;
            && |Layout(q)| == 5
            && q.displayWidth == 60.0
            && Layout(q)[4].x == 80.0
  {
    var p := NewDisplay("888", WIDTH, None, COLOUR_ON, COLOUR_OFF, BGCOLOUR, None, None, None, true).value;
    var e := SetContent(p, "").value;
    assert e.numChars == 0;
    var q := SetContent(e, "88888").value;
    assert q.chars == PyTail(q.chars, q.numChars);
    assert Start(q) == 0.0;
    LayoutAt(q, 4);
  }

  /** The intended setter on the same panel keeps nothing once it is empty,
      so nothing is drawn. */
  lemma EmptiedPanelStaysEmpty()
    ensures var p := NewDisplay("888", WIDTH, None, COLOUR_ON, COLOUR_OFF, BGCOLOUR, None, None, None, true);
            && p.Ok?
            && SetContentIntended(p.value, "").Ok?
            && SetContentIntended(SetContentIntended(p.value, "").value, "88888").Ok?
            && var q := SetContentIntended(SetContentIntended(p.value, "").value, "88888").value;
            && q.content == ""
            && |Layout(q)| == 0
  {
  }
}
