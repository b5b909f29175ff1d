# Seven-segment display model

A Dafny model of `sevensegment.py`, a pygame widget that draws text as
seven-segment (SSD) characters. The model covers three layers:

- **Segments** (`segments.dfy`): the seven one-bit segment codes A..G,
  `on_segments`, `off_segments` and `ALL`. Masks are `bv8`, so "no bit outside
  `ALL`" is a property and not a typing fact.
- **Glyphs** (`glyphs.dfy`): the `SSD_CHAR_MAP` table and the loop that copies
  every uppercase key to its lowercase form. The table is written as recipes
  (`On`/`Off` plus a segment list), exactly as the source writes it. `Lookup`
  is a closed form of "is this character a key, and what is its mask".
  `LookupIsTable` proves it agrees with the map the loop builds.
- **SegmentChar** (`segment_char.dfy`): `SevenSegmentChar`. This covers
  construction with falsy defaults, the derived segment length and height, the
  anchor columns and rows of `_get_segment_points` with its two assertions,
  the seven hexagons A..G, the mask test per segment, and the on/off colour
  choice of `draw_ssd_segments`. It also covers `update` and the `char` setter.
- **Display** (`display.dfy`): `SevenSegmentDisplay`. This covers the
  constructor's checks and defaults, `update` building one char per content
  character, the x offsets that `update_surface` blits at (with the
  right-justify deficit), and the `content` setter.

Python exceptions become `Err` values of `Results.Result`:

| Python exception | Error value |
|---|---|
| assertion `char in SSD_CHAR_MAP` | `UnknownGlyph(c)` |
| `ValueError` for empty content | `EmptyContent` |
| `ValueError` for a display that is too small | `DisplayTooSmall` |
| failed geometry assertions at lines 181 and 194 | `GeometryAssertion` |

A Python "falsy" optional argument (`None` or `0`) is an `Option<real>` for
which `Results.Falsy` holds.

Geometry uses exact `real` arithmetic. `_content_width` is computed once, in
the constructor. The `content` setter does not refresh it, and the model
reproduces this: `Display.SetContent` keeps `contentWidth` unchanged.

## Model

| member | source | states |
|---|---|---|
| Results.Pick | sevensegment.py:447-452 | A falsy argument (None or 0) yields the default. Any other argument is kept, and is then nonzero. |
| Segments.AllIsLowSevenBits | sevensegment.py:24-41 | `ALL`, the OR of the seven segment codes, is 0x7F. |
| Segments.OnSegments | sevensegment.py:33-38 | Every code passed in is contained in the result. |
| Segments.FoldOr | sevensegment.py:33-38 | The `reduce` of `on_segments` from a start mask: the start mask and every code are contained in the result. `FoldOrLeast` and `FoldOrHas` prove it is the least such mask and lights exactly the start's segments plus the listed ones. |
| Segments.OnSegmentsLeast | sevensegment.py:33-38 | The result is the least such mask: it lies within any mask that contains every argument. |
| Segments.OnSegmentsWithinAll | sevensegment.py:33-41 | OR-ing segment codes never sets a bit outside `ALL`. |
| Segments.OffSegments | sevensegment.py:44-48 | The result lies within `ALL` and shares no bit with any code passed in. |
| Segments.OnOffPartition | sevensegment.py:38-48 | For segment codes xs: `on & off == 0` and `on \| off == ALL`. |
| Segments.OnSegmentsHas | sevensegment.py:33-38 | A segment is lit by `on_segments(xs)` iff it is listed in xs. |
| Segments.OffSegmentsHas | sevensegment.py:44-48 | A segment is lit by `off_segments(xs)` iff it is not listed in xs. |
| Segments.SegmentTestIsBit | sevensegment.py:250-253 | The test `segment & ssd` is nonzero iff bit i of the mask is set, for the i-th segment of A..G. |
| Segments.SameSegments | sevensegment.py:24-41 | Two masks within `ALL` that agree on all seven segments are equal. |
| Glyphs.WithLowercase | sevensegment.py:97-100 | Keys are the originals plus their lowercase forms. Each uppercase key's lowercase form gets that key's mask. Every non-lowercase original keeps its mask. No new mask values appear. |
| Glyphs.Lower | sevensegment.py:99-100 | `key.lower()` on the table's keys: a capital letter maps to its lowercase letter, 32 code points up; every other character maps to itself. |
| Glyphs.AddLowercase | sevensegment.py:97-100 | The loop over a snapshot of the keys, in any order, produces exactly `WithLowercase` of the table. |
| Glyphs.BuildCharMap | sevensegment.py:52-100 | Running the loop over the written table's keys yields exactly `CharMap`, the finished table. |
| Glyphs.OriginalsUnchanged | sevensegment.py:52-100 | No entry written in the table changes its mask after the lowercase loop. |
| Glyphs.CaseMirror | sevensegment.py:97-100 | For every uppercase key K of the finished table, `map[lower(K)] == map[K]`. |
| Glyphs.MaskLights | sevensegment.py:33-48 | A recipe's mask lights a segment iff an `on_segments` recipe lists it, or an `off_segments` recipe does not; the mask lies within `ALL`. |
| Glyphs.MasksWithinAll | sevensegment.py:52-100 | Every mask in the finished table has no bit outside `ALL`. |
| Glyphs.WrittenKeysListed | sevensegment.py:52-95 | The table's keys are exactly the digits, space, and the uppercase letters other than M, W and X. |
| Glyphs.Lookup | sevensegment.py:148 | Lookup succeeds iff the character is a key; otherwise it reports `UnknownGlyph` for that character. |
| Glyphs.LookupIsTable | sevensegment.py:52-100 | Lookup gives exactly the finished table's mask for keys, and an error for every other character. |
| Glyphs.LookupWritten | sevensegment.py:52-95 | A key written in the table looks up to the mask of its recipe. |
| Glyphs.ZeroEntry | sevensegment.py:53 | '0' has mask {A,B,C,D,E,F} = 0x3F. |
| Glyphs.EightEntry | sevensegment.py:61 | '8' has mask `ALL` = 0x7F. |
| Glyphs.SpaceEntry | sevensegment.py:65 | ' ' has mask 0. |
| Glyphs.LetterIEntry | sevensegment.py:54-75 | 'I' and 'i' have the same mask as '1'. |
| Glyphs.MissingGlyphs | sevensegment.py:80-95 | 'M', 'W', 'X', 'x' and '!' are not keys, and lookup reports them. |
| SegmentChar.NewChar | sevensegment.py:148-158 | Construction succeeds iff the character is a key (the `pygame.Surface` size check at line 160 is left out, see below). It fills the falsy defaults W/5, W/10 and W/15. The derived length and height make the frame fit. |
| SegmentChar.Sized | sevensegment.py:157-159 | For all W, T and F, the derived L and H close the frame: F+T+L+F = W and F+T+2L+F = H. Only L and H change. |
| SegmentChar.ColumnsOf | sevensegment.py:168-181 | The anchor columns x0..x5: x0 is the frame width and x5 is F + T + L, the left side of the assertion at line 181. |
| SegmentChar.RowsOf | sevensegment.py:183-194 | The anchor rows y0..y8: y0 is the frame width and y8 is F + T + 2L, the left side of the assertion at line 194. |
| SegmentChar.AssertsPass | sevensegment.py:174-194 | Both assertions (`x5 + F == W` at 181, `y8 + F == H` at 194) hold iff the frame fits. |
| SegmentChar.Hexagon | sevensegment.py:196-244 | The six vertices of segment i's outline in `positions`. The contract states only that there are six vertices. What the outlines mean is stated by `BarsAreTranslates`, `PostsAreTranslates` and `HexagonsInsideFrame`. |
| SegmentChar.Pair | sevensegment.py:246-253 | The loop over A..G yields seven (on/off, outline) entries. `PairFollowsMask` pins entry i to (bit i of the mask, hexagon i). |
| SegmentChar.GetSegmentPoints | sevensegment.py:164-255 | Success iff the frame fits and the character is a key; otherwise the assertion error or the unknown glyph. Exactly seven entries. |
| SegmentChar.PairFollowsMask | sevensegment.py:196-255 | Entry i is (bit i of the mask, hexagon i), in order A..G. |
| SegmentChar.SegmentPointsFollowMask | sevensegment.py:246-255 | For a fitting char, entry i of the result is (bit i of the char's mask, hexagon i). |
| SegmentChar.Draw | sevensegment.py:262-280 | Drawing fails exactly as `_get_segment_points` does. On success: the char's size, its background colour and seven fills. |
| SegmentChar.FillsFollowMask | sevensegment.py:262-280 | Fill i uses `colour_on` iff bit i of the char's mask is set, else `colour_off`, over hexagon i. |
| SegmentChar.ConstructedCharDraws | sevensegment.py:148-162 | The constructor's own draw never fails its assertions, whatever the sizes. |
| SegmentChar.DefaultProportions | sevensegment.py:153-159 | With all defaults, L = 2W/3 and H = 5W/3. |
| SegmentChar.DefaultCharProportioned | sevensegment.py:153-159 | A default char of non-negative width has non-negative segment width and padding at most twice the segment length. |
| SegmentChar.HexagonsInsideFrame | sevensegment.py:196-244 | For a proportioned char, every vertex of the seven hexagons lies inside the frame margin. |
| SegmentChar.BarsAreTranslates | sevensegment.py:196-244 | G is A moved down by L; D is A moved down by 2L. |
| SegmentChar.PostsAreTranslates | sevensegment.py:204-237 | B is F moved right by L; C is F moved by (L, L); E is F moved down by L. |
| SegmentChar.Relength | sevensegment.py:258 | Only the segment length changes, to `width - 2*segment_width`. |
| SegmentChar.Update | sevensegment.py:257-260 | As written: success iff the char is a key and the relengthened char still fits. The result is the relengthened char; otherwise the assertion error. |
| SegmentChar.RelengthFitsIff | sevensegment.py:157-159 | For a fitting char, the relengthened char fits iff T = 2F. It is then unchanged. |
| SegmentChar.UpdateFitsIff | sevensegment.py:257-260 | For a fitting char, `update` succeeds iff T = 2F. Otherwise it raises the geometry assertion. |
| SegmentChar.SetChar | sevensegment.py:322-326 | An unknown character is rejected with `UnknownGlyph`. A key succeeds iff the char with the new character and the relengthened segments still fits; otherwise the geometry assertion. The result is the relengthened char with the new character, everything else unchanged. |
| SegmentChar.DefaultCharCannotChange | sevensegment.py:322-326 | As written, every default char of nonzero width fails the geometry assertion when its character is set. |
| SegmentChar.EightToZeroFails | sevensegment.py:257-260 | Concretely: a default '8' of width 20 cannot be set to '0'. |
| SegmentChar.UpdateIntended | sevensegment.py:257-260 | Corrected: succeeds iff the char is a key. The frame fits afterwards, and only L and H change. |
| SegmentChar.SizedFixesFitting | sevensegment.py:157-159 | Re-deriving L and H of a fitting char changes nothing. |
| SegmentChar.SetCharIntended | sevensegment.py:322-326 | Corrected: succeeds iff the new character is a key. The result fits, and only the character, L and H change. |
| SegmentChar.UpdateIntendedIsIdentity | sevensegment.py:148-159 | The corrected update of a freshly constructed char is that char. |
| Display.PyTail | sevensegment.py:514 | Python `s[-n:]` keeps the last n elements in order, and everything when n is 0 or at least the length. |
| Display.CharOf | sevensegment.py:468-475 | The char built for a content character is that character, with the panel's width, three colours and three (already defaulted) segment sizes. Its length and height are derived, so its frame fits. An unknown character is an error. |
| Display.BuildChars | sevensegment.py:464-476 | Succeeds iff every character is a key. Char i is the char for content[i]. Otherwise it reports the first unknown character. |
| Display.Update | sevensegment.py:464-476 | Succeeds iff every content character is a key. On success it sets `numchars` to the content length and builds one char per character, in order; nothing else changes. Otherwise the error is `UnknownGlyph` of the first unknown character. |
| Display.NewDisplay | sevensegment.py:434-462 | Rejects empty content and a too-small explicit width. Otherwise (leaving out the `pygame.Surface` size check at line 460, see below) succeeds iff every character is a key, and reports the first character that is not. On success: the width defaults to len*char_width, and content width = len*char_width <= display width. Colours are stored, sizes default to W/5, W/10 and W/15, and length and height are derived as in lines 454-457. Char i is the char the panel builds for content[i]. |
| Display.LayoutAt | sevensegment.py:478-486 | Blit i is at x = start + i*char_width. Start is the deficit `display_width - content_width` when right-justified, else 0. |
| Display.UpdateSurface | sevensegment.py:478-486 | The loop that moves the rectangle by `char_width` per char yields exactly the layout. |
| Display.NextColumn | sevensegment.py:485-486 | Consecutive blit positions differ by `char_width`. |
| Display.LayoutInside | sevensegment.py:478-486 | When the content fits the display, every blitted char lies within [0, display_width]. |
| Display.NewDisplayFits | sevensegment.py:434-462 | A freshly constructed panel with non-negative char width fits its display. |
| Display.NewDisplayJustified | sevensegment.py:478-486 | Right-justified content ends exactly at the display's right edge; left-justified content starts at 0. |
| Display.CharsMatchPanelHeight | sevensegment.py:453-475 | A char built from the panel's sizes has the panel's segment length and height. |
| Display.NewDisplayCharHeights | sevensegment.py:447-475 | Every char of a new panel is as tall as the panel's surface. |
| Display.SetContent | sevensegment.py:512-515 | As written: the new content is `new[-numchars:]`, and char i is built from its character i. Only content, numchars and chars change; the content width and display width stay as they were. The error is `UnknownGlyph` of the first unknown character kept. |
| Display.SetContentFitsWhileShowing | sevensegment.py:512-515 | While at least one char is shown, the setter keeps a fitting panel fitting. |
| Display.EmptiedPanelOverflows | sevensegment.py:514 | After content "" then "88888", a 3-wide panel holds five chars, and the fifth is blitted at x = 80 on a 60-wide display. |
| Display.Last | sevensegment.py:514 | The last n elements in order, none when n is 0. |
| Display.TailsAgreeUnlessZero | sevensegment.py:514 | `new[-n:]` and "the last n" agree except when n is 0. |
| Display.SetContentIntended | sevensegment.py:512-515 | Corrected: keeps the last `numchars` characters (none when it is 0), so never more than before. Char i is built from its character i, and only content, numchars and chars change. The error is `UnknownGlyph` of the first unknown character kept. |
| Display.SetContentIntendedFits | sevensegment.py:512-515 | The corrected setter keeps a fitting panel fitting in every case. |
| Display.EmptiedPanelStaysEmpty | sevensegment.py:514 | With the corrected setter, an emptied panel stays empty and blits nothing. |

## Left out

- pygame drawing is not modelled: surfaces, `fill`, `draw.polygon`, `draw.aalines`, `blit` and `Rect`. Only the coordinates, on/off flags, colours and blit positions are modelled.
- `pygame.Rect` truncates coordinates to integers. The model keeps positions as exact reals.
- Python's `/` is floating point. All geometry here is exact `real` arithmetic, so the assertions at lines 181 and 194 are proved exactly.
- `test.py` is a demo driver with a window and an event loop. It is not part of this model.
- Trivial getters are not modelled, and neither are the other setters:
  - The char's setters for surface, colours, width, height and segment sizes (sevensegment.py:286-373) store a value and run the as-written `update`, so `SegmentChar.Update` and the first Finding describe them.
  - The panel's setters for colours and segment sizes (sevensegment.py:520-581) set the same value on every char, each running that char's `update`, and then call `update_surface`. On chars with default sizes they hit the first Finding.
  - The panel's `char_width`, `right_justified` and `surface` setters (sevensegment.py:587-610) store values and run `update`.
  - The panel's `display_width` and `height` setters (sevensegment.py:492-506) first build a `pygame.Surface` with two positional arguments instead of one size pair.
- `SevenSegmentDisplay.__init__` builds `pygame.Surface((display_width, height))`. The surface is not modelled.
- Python mutates the object before an exception escapes. For example, the `char` setter stores the new char before `update` fails. The model returns `Err` and drops the half-updated object.
- SegmentChar.NewChar: does not model the failure of `pygame.Surface((width, height))` at line 160. pygame truncates each size to an int and raises for a negative one, for example a width of 20 with segment width 40, where the height is -8/3. The model returns `Ok` there. This carries through `Display.CharOf`, `Display.BuildChars`, `Display.Update` and `Display.SetContent`, whose success conditions speak only of glyphs.
- Display.NewDisplay: does not model the failure of `pygame.Surface((display_width, height))` at line 460. A negative display width or height makes the source raise, for example a char width of -20 with no display width; the model returns `Ok`.
- The model assumes CPython's default mode, in which `assert` runs. Under `python -O` the assertions at lines 148, 181, 194 and 324 do nothing: `GeometryAssertion` never arises, so the first Finding does not show, and an unknown character fails later with `KeyError` at line 246.
- SegmentChar.NewChar: returns the char without running `draw_ssd_segments`. `ConstructedCharDraws` proves that this draw always succeeds for a constructed char.
- Glyphs.Lookup: the source raises `AssertionError` in the constructor and setter, but `KeyError` if a char reaches `SSD_CHAR_MAP[...]` some other way. Both are `UnknownGlyph` here.
- Glyphs.Lower: covers only ASCII letters. Every key in the table is ASCII, so `str.lower` on any other character adds no key.
- Display.UpdateSurface: returns the list of blit positions instead of painting a surface.

## Findings

| source | as written | input that shows it | evidently intended | confidence | as-written member | corrected member |
|---|---|---|---|---|---|---|
| sevensegment.py:257-260 | `update` sets the segment length to `width - 2*segment_width` and leaves the height unchanged | A default char '8' of width 20 (T = 4, F = 4/3) set to '0': the length becomes 12 instead of the constructor's 40/3, so x5 + F = 56/3 instead of 20 and the assertion at line 181 fails | Re-derive length and height as the constructor does (lines 157-159) | high, not executed | SegmentChar.Update, SegmentChar.EightToZeroFails, SegmentChar.DefaultCharCannotChange | SegmentChar.UpdateIntended, SegmentChar.SetCharIntended, SegmentChar.UpdateIntendedIsIdentity |
| sevensegment.py:514 | `new[-self._numchars:]` keeps the whole string when `_numchars` is 0 | A right-justified panel "888" of char width 20 has display width 60. Setting content "" and then "88888" gives five chars, the last blitted at x = 80. | Never show more characters than the panel currently holds: keep at most the last `_numchars` characters, none when it is 0 | medium, not executed | Display.SetContent, Display.EmptiedPanelOverflows | Display.SetContentIntended, Display.SetContentIntendedFits, Display.EmptiedPanelStaysEmpty |

The corrected content setter keeps the count the panel was last updated with, so an emptied panel stays blank (`Display.EmptiedPanelStaysEmpty`). A count recomputed from the panel's capacity is not modelled: it would also need the stored content width refreshed, and the source refreshes it nowhere.
