# soryu in Dafny

A model of the pixel-effect core of **soryu**, a Go tool that "glitches" a
still image or the frames of a GIF. The model has three parts.

- **The effect library.** `soryu/soryu.go` holds an `Img` with a read-only
  source `In` and an output raster `Out`. Each effect rewrites `Out` in place
  inside nested loops: Split, VerticalSplit, ShiftChannel, ColorBoost, Burst,
  Streak, BigLines, CopyChannelBigLines, CopyChannel and RandomCorruptions.
- **The colour helpers** of `soryu/helpers.go`: hex colour parsing, the
  channel rotation `shiftColor`, the random channel choice and `minInt`.
- **The command-line program** `main.go`:
  - how `CreateGlitchedImage` turns the comma-separated effect list and a
    frame index into effect calls;
  - its own `Split`, whose wrap test differs from the library's;
  - `maxInt`;
  - the order in which a GIF run reads its frame files back.

## Conventions

- **Pixels.** Pixels follow Go's `image.RGBA`:
  - 8-bit channels, where `RGBA()` widens `v` to `v*0x101`;
  - storing a 16-bit colour keeps the high byte;
  - a `uint8` conversion keeps the low byte;
  - reading outside the bounds gives the zero colour;
  - writing outside the bounds does nothing.
- **Images.** `In` is a sequence of rows (`In[y][x]`). `Out` is an `array2`
  (`Out[x, y]`). Both have their origin at (0, 0), and `W`, `H` stand for
  `Bounds.Max.X` and `Bounds.Max.Y`. Unsigned 32- and 16-bit arithmetic is
  written out with explicit wrap (`U32`, `U16`).
- **Randomness.** `math/rand` is the class `Random.Rand`. It holds a fixed
  stream of raw draws and a position `Pos`. `Intn(n)` takes the next draw
  modulo `n`, and `Float32()` takes one of the 2^24 evenly spaced values of
  `[0, 1)`. Contracts say how many draws an effect takes and where each one
  lands. A draw is one call of `Intn` or `Float32`, not one read of the
  generator's source: Go's `Int31n` may reject a value and read again, and
  `Float32` retries when it rounds to 1. Seeding from the wall clock is
  outside the model: the stream is a parameter.
- **Float conversion.** The float conversion `c()` used by Streak is a
  parameter `conv`; the streak colours are stated in terms of it.
- **Strings.** A Go string is modelled as the sequence of its bytes, each
  byte written as the character with that code. So `|s|` is Go's `len(s)`,
  a multi-byte rune such as U+00A0 appears as its UTF-8 bytes (C2 A0), and
  string order is byte-wise.
- **Ghost band records.** BigLines and CopyChannelBigLines return the bands
  they copied as a ghost sequence, so their contracts can say which rows
  changed and how.
- **main.go copies.** `main.go`'s copies of Streak, Burst, ShiftChannel,
  ColorBoost, VerticalSplit, `c`, minInt and ParseHexColor behave as the
  library's do (main.go:123-195, main.go:222-246, main.go:282-306,
  main.go:338-369, main.go:379-400); ShiftChannel inlines the rotation that
  the library writes as `shiftColor`. The program's steps therefore call the
  library members. Its `Split` wraps differently and is modelled separately
  as `Glitch.Split`.

## Model

| member | source | states |
|---|---|---|
| Pixel.Wide | soryu/soryu.go:332 | `RGBA()` widens a byte to 16 bits whose high and low byte are both the byte |
| Pixel.ExpandRoundTrip | soryu/soryu.go:342-348 | storing the 16-bit expansion of an 8-bit colour gives the colour back, and so does taking the low byte of each widened channel |
| Random.Draw | soryu/soryu.go:250 | `rand.Intn(n)` lies in `[0, n)`, and a raw draw below `n` is returned unchanged |
| Random.Unit | soryu/helpers.go:10 | `rand.Float32()` lies in `[0, 1)` |
| Random.Rand.Intn | soryu/soryu.go:250 | advances the draw position by one call and returns `Draw` of the value there; requires `n > 0`, as Go panics otherwise |
| Random.Rand.Float32 | soryu/helpers.go:10 | advances the draw position by one call and returns `Unit` of the value there |
| Scan.Utf8 | soryu/helpers.go:34 | a rune below U+10000 encodes to one to three bytes |
| Scan.SpaceWidth | soryu/helpers.go:34 | what is skipped before a verb stays in the string and holds neither a newline nor a hex digit or underscore |
| Scan.SpaceRuneSkipped | soryu/helpers.go:34 | every rune of fmt's white-space table except the newline is skipped whole |
| Scan.SkippedIsSpaceRune | soryu/helpers.go:34 | whatever is skipped is the encoding of a white-space rune of fmt's table other than the newline |
| Scan.SkipSpaces | soryu/helpers.go:34 | the scan position moves past white space only, never past a newline or a token character, and stops where no more white space starts |
| Scan.TokenEnd | soryu/helpers.go:34 | the token is the longest run of at most `width` hex digits and underscores |
| Scan.HexValue | soryu/helpers.go:34 | one hex digit is below 16 and two are below 256 |
| Scan.HexChar | soryu/helpers.go:34 | the lower-case digit of a value below 16 reads back as that value |
| Scan.ScanHex | soryu/helpers.go:34-36 | a verb that succeeds consumes at least one character; one consumed character is a hex digit giving its own value; width 2 gives a byte, width 1 a nibble |
| Scan.ScanHexTriple | soryu/helpers.go:34-36 | three scanned values fit a byte each, and a nibble each for width 1 |
| Helpers.RandomChannel | soryu/helpers.go:9-17 | never Alpha; Green iff the draw is below 0.33, Red iff it is in `[0.33, 0.66)`, Blue iff it is at least 0.66 |
| Helpers.RandomChannelOnto | soryu/helpers.go:9-17 | a channel is the result for some draw in `[0, 1)` iff it is not Alpha |
| Helpers.MinInt | soryu/helpers.go:23-28 | the result is at most both arguments and equals one of them |
| Helpers.MaxInt | main.go:371-377 | the result is at least both arguments and equals one of them |
| Helpers.ParseHexColor | soryu/helpers.go:30-44 | any length other than 4 or 7 is an error; a parsed colour has alpha 0xFF; in the 4-character form every channel is a multiple of 17 |
| Helpers.Widen4 | soryu/helpers.go:37-39 | a nibble times 17 fits a byte without wrapping and is a multiple of 17 |
| Helpers.Hex2 | soryu/helpers.go:34 | two hex digits whose value is the byte |
| Helpers.ScanHexPair | soryu/helpers.go:34 | a `%02x` verb at two hex digits reads exactly their value |
| Helpers.ParseFormatRoundTrip | soryu/helpers.go:34 | `#` plus the two-digit hex of r, g and b parses back to (r, g, b, 0xFF) |
| Helpers.ParseLongForm | soryu/helpers.go:31-34 | a 7-character `#` plus six hex digits of either case parses to the value of each two-digit pair, with alpha 0xFF |
| Helpers.ParseShortForm | soryu/helpers.go:35-39 | a 4-character string parses iff it is `#` and three hex digits, and then each channel is its digit times 17 |
| Helpers.ScanHexDigit | soryu/helpers.go:36 | a `%1x` verb at a hex digit reads that digit |
| Helpers.ParseShortGreen | soryu/helpers.go:35-39 | "#0f0" parses to (0, 255, 0, 255) |
| Helpers.ParseShortFinalField | soryu/helpers.go:34 | "#12345g" parses to (0x12, 0x34, 0x05, 0xFF): the last `%02x` stops at the non-hex character |
| Helpers.ParseNoBreakSpace | soryu/helpers.go:34 | a no-break space (bytes C2 A0) before a verb is skipped: `#f`, the space, `fff` parses to (0x0f, 0xff, 0x0f, 0xFF) |
| Helpers.ShiftColor | soryu/helpers.go:46-67 | `left == 1` gives (g, b, r, a), any other value gives (b, r, g, a); alpha is kept |
| Helpers.ShiftColorInverse | soryu/helpers.go:46-67 | the two directions undo each other, and three shifts in one direction are the identity |
| Helpers.PercentIsShare | soryu/soryu.go:250-251 | the band share is the Go expression `n * d / 100`, and a share of at most 100 percent does not exceed the side |
| Effects.StreakEnd | soryu/soryu.go:83-96 | leftward the end is at or left of column 0 for any length; rightward it is past the start for a non-zero length and equals the start for length 0 |
| Effects.StreakMix | soryu/soryu.go:99-107 | one streak step: each 16-bit channel is a quarter of the pixel's plus three quarters of the carried colour's (both quotients truncated first), brought back to 8 bits by `c` |
| Effects.StreakCarry | soryu/soryu.go:96-110 | the colour a leftward streak carries into column `i`: the start pixel at the start, then what it left one column to the right, mixed with the pixel there |
| Effects.StreakOnce | soryu/soryu.go:98-115 | a leftward streak from `x0` leaves at each column up to `x0` the colour it carries there, mixed with the pixel under it, and keeps the columns right of `x0` |
| Effects.StreakCarryLocal | soryu/soryu.go:98-109 | what a streak leaves at a column depends only on the pixels from that column to the start |
| Effects.BurstWeight | soryu/soryu.go:136 | the weight `MAXC - sa*alpha/MAXC` lies in `[MAXC - alpha, MAXC]` and is `MAXC - alpha` for an opaque pixel |
| Effects.BurstChannel | soryu/soryu.go:136-141 | one blended channel `(d*a + s*alpha)/MAXC`, the products and sum wrapping at 2^32 and the quotient truncated to `uint16` |
| Effects.BurstPixel | soryu/soryu.go:129-143 | the pixel Burst stores: red, green, blue and alpha each blended with a different diagonal neighbour's channel, weighted by the pixel's own alpha, and stored back at 8 bits |
| Effects.BurstChannelExact | soryu/soryu.go:136-141 | for an opaque pixel the uint32 blend does not wrap and is `(d*(MAXC-alpha) + s*alpha)/MAXC` |
| Effects.BurstChannelBetween | soryu/soryu.go:136-141 | for an opaque pixel each blended 16-bit channel lies between the neighbour's and the pixel's own |
| Effects.BurstPixelBetween | soryu/soryu.go:129-143 | for an opaque pixel each stored channel of the blended pixel lies between the neighbour's and the pixel's own |
| Effects.BoostWeight | soryu/soryu.go:333 | the weight is at most MAXC and is `MAXC - r` for an opaque pixel, whatever channel is boosted |
| Effects.BoostPixel | soryu/soryu.go:332-347 | only the channel named "red", "green" or "blue" can change; any other name keeps the pixel; alpha is always kept |
| Effects.BoostChannel | soryu/soryu.go:336-345 | one boosted channel `(v*na + v*a)/MAXC` with `uint32` wrap-around and the `uint16` truncation |
| Effects.BoostOpaqueRedChannel | soryu/soryu.go:333-336 | for an opaque pixel the red boost is `r*(2*MAXC - r)/MAXC`, which lies in `[r, MAXC]` |
| Effects.BoostRedOpaque | soryu/soryu.go:327-350 | for an opaque pixel a red boost never lowers red |
| Effects.BoostGreenWraps | soryu/soryu.go:333-338 | a green boost of opaque (0, 200, 0) gives green 145: the weight comes from red, and the uint32 sum wraps |
| Effects.CopyChannelColor | soryu/soryu.go:283-307 | the chosen channel comes from the source pixel and the other three from the target |
| Effects.CopyChannelTwice | soryu/soryu.go:283-307 | copying the same channel twice into a pixel equals copying the second source once |
| Effects.WrapCoord | soryu/soryu.go:366 | the wrapped coordinate is the input or the input minus the extent; the `>=` test always lands in range for inputs below twice the extent; the `>` test misses exactly the input equal to the extent |
| Effects.InCopyBand | soryu/soryu.go:353-410 | a row (or column) is copied by a split iff its band index `pos/size` is even exactly when `split` holds and its band ends within the extent; main.go:308-365 uses the same test |
| Effects.FirstBandSkipped | soryu/soryu.go:353-381 | with `split = false` no row of the first band is copied |
| Effects.BandsAlternate | soryu/soryu.go:353-381 | moving one band along flips copy and skip while the later band still fits |
| Effects.LastWriter | soryu/soryu.go:264-271 | the last column of a walk sent to a target, if any; no later column goes there |
| Effects.LastWriterIs | soryu/soryu.go:264-271 | a column that reaches the target with no later column reaching it is the last writer |
| Effects.ShiftMapWriters | soryu/soryu.go:265-270 | in a row walk over `0 .. Max.X` with offset below `Max.X`, the last writer of each column is the one that rotation predicts, except that column `offset` is written last by the extra column `Max.X` |
| Soryu.ChainedOrdered | soryu/soryu.go:255-280 | when each band starts a positive number of rows past the end of the one before, every band lies wholly above the later ones |
| Soryu.ChainedCoverOnce | soryu/soryu.go:255-280 | with such a layout a row lies in at most one band |
| Soryu.Img.constructor | main.go:87-94 | the output is a fresh all-zero raster of the source's extent |
| Soryu.Img.Copy | soryu/soryu.go:58-61 | every output pixel becomes the source pixel |
| Soryu.Img.MapPixels | soryu/soryu.go:185-190 | every output pixel becomes `f` of its old value |
| Soryu.Img.ShiftChannel | soryu/soryu.go:178-191 | every pixel becomes `shiftColor` of its old value in the chosen direction; alpha is never altered |
| Soryu.Img.ShiftChannelRoundTrip | soryu/soryu.go:178-191 | `ShiftChannel(false)` followed by `ShiftChannel(true)` leaves the output unchanged |
| Soryu.Img.ColorBoost | soryu/soryu.go:327-350 | every pixel becomes its boosted value; any name other than the three channel names leaves every pixel unchanged |
| Soryu.Img.CopyRow | soryu/soryu.go:364-371 | one row takes the source row shifted by `width` and wrapped; no other row changes |
| Soryu.Img.SplitBands | soryu/soryu.go:353-381 | rows in copy bands take the shifted source row, reading only `In`; rows in skipped bands and from the first overrunning copy band on keep their value; the walk ends for any positive band height |
| Soryu.Img.Split | soryu/soryu.go:353-381 | the banded copy with the wrap firing at `x + width >= Max.X` |
| Soryu.Img.CopyColumn | soryu/soryu.go:394-401 | one column takes the source column shifted by `height` rows, wrapped only past `Max.Y`; no other column changes |
| Soryu.Img.VerticalSplit | soryu/soryu.go:383-410 | columns in copy bands take the shifted source column, reading only `In`; a sample row equal to `Max.Y` gives the zero colour; other columns keep their value |
| Soryu.Img.BurstAt | soryu/soryu.go:127-143 | the new pixel mixes the old pixels below with the already-updated pixels above, in raster order |
| Soryu.Img.Burst | soryu/soryu.go:120-146 | exactly two draws; the offset lies in `[25, 25 + Max.Y/10)`; every pixel becomes its raster-order blend; requires `Max.Y >= 10` |
| Soryu.Img.StreakPic | soryu/soryu.go:74-118 | the picture after the first `n` leftward streaks: each drawn row is replaced by itself streaked from the drawn column, in draw order; it keeps the image's extent |
| Soryu.Img.StreakUntouched | soryu/soryu.go:74-118 | a pixel that no streak reaches (no drawn row with the start at or right of it) keeps its colour |
| Soryu.Img.StreakWalk | soryu/soryu.go:83-115 | leftward, every column from the start down to 0 takes the colour the streak carries there and nothing else changes; rightward nothing changes |
| Soryu.Img.StreakStep | soryu/soryu.go:99-109 | one column of the walk: the pixel becomes the three-to-one mix of the carried colour over it, that is the colour the streak carries at that column, and no other pixel changes |
| Soryu.Img.StreakRound | soryu/soryu.go:79-116 | two draws, a column then a row; leftward the drawn row becomes itself streaked from the drawn column |
| Soryu.Img.Streak | soryu/soryu.go:74-118 | exactly two draws per streak; leftward the output is the old one streaked by each drawn streak in turn; a pixel changes only in a drawn row at or left of that streak's start; rightward nothing changes |
| Soryu.Img.CopyChannel | soryu/soryu.go:283-307 | exactly the target pixel changes: the chosen channel comes from the source pixel and the other three stay; a target out of bounds changes nothing |
| Soryu.Img.ChannelRowAt | soryu/soryu.go:264-271 | a pixel after a CopyChannelBigLines row walk keeps every channel but the copied one |
| Soryu.Img.ChannelRowNext | soryu/soryu.go:265-271 | one more column of a row walk overwrites the channel of its target column only |
| Soryu.Img.CopyChannelRow | soryu/soryu.go:265-271 | one row walk over `0 .. Max.X` leaves each column with the channel of its last writer; other rows do not change |
| Soryu.Img.CopyChannelBand | soryu/soryu.go:264-273 | the rows `first .. last` of a band, inclusive, get their row walk; other rows do not change |
| Soryu.Img.ChannelDrawsAt | soryu/soryu.go:255-280 | band `j` of the walk is the one round `j` draws: its rows, its `RandomChannel` channel and its shift `width + Intn(30)` |
| Soryu.Img.ChannelDrawsAppend | soryu/soryu.go:264-274 | a band placed by the next copy round keeps the walk's draws |
| Soryu.Img.ChannelDrawsShape | soryu/soryu.go:255-280 | bands placed by the walk's draws start `height + jitter` rows apart, end before `Max.Y`, never copy alpha and are shifted by `width` plus less than 30 |
| Soryu.Img.BandsAt | soryu/soryu.go:255-280 | the pixel after the bands of a walk ran in order: each band covering the row applies its row walk to what the bands before it left |
| Soryu.Img.BandsOutside | soryu/soryu.go:255-280 | a row outside every band keeps its pixels |
| Soryu.Img.BandsOnly | soryu/soryu.go:255-280 | a row that exactly one band covers holds that band's row walk over its old pixels |
| Soryu.Img.BandsChained | soryu/soryu.go:255-280 | with a positive step every row of a band holds that band's row walk alone |
| Soryu.Img.HeldOutside | soryu/soryu.go:255-280 | after the walk, rows outside every band hold their pixels from before it |
| Soryu.Img.HeldChained | soryu/soryu.go:255-280 | after a walk with a positive step, each row of a band holds that band's row walk over its pixels from before it |
| Soryu.Img.ChannelRound | soryu/soryu.go:264-274 | one copied band applies its row walk over what the earlier bands left |
| Soryu.Img.ChannelCopyRound | soryu/soryu.go:257-277 | the copy round's jitter draws decide its band; a band that would reach `Max.Y` ends the walk with four draws taken for the round pair and nothing copied |
| Soryu.Img.ChannelWalkRound | soryu/soryu.go:256-279 | one round keeps the walk's layout, draws and pixels; skip and copy rounds alternate; the walk stops exactly where the next band would reach `Max.Y` |
| Soryu.Img.ChannelWalk | soryu/soryu.go:255-280 | bands are exactly those the draws place, `height + jitter` rows apart, each ending before `Max.Y`; every draw taken is counted; every pixel holds the bands applied in order to its old value |
| Soryu.Img.CopyChannelBigLines | soryu/soryu.go:246-281 | three opening draws give height, offset and skip jitter; the bands, the draws taken and every pixel follow the walk; rows outside the bands keep their value; each band row is its own row walk over the old pixels |
| Soryu.Img.ChannelWalkGrows | soryu/soryu.go:255-262 | each copied band moves the CopyChannelBigLines walk at least `height` rows further on |
| Soryu.Img.ChannelPositiveEnds | soryu/soryu.go:255-262 | with a positive band height, some copied band reaches `Max.Y`, so the walk ends |
| Soryu.Img.CopyChannelBigLinesEnds | soryu/soryu.go:250-262 | a positive drawn height `Max.Y*Intn(25)/100` meets CopyChannelBigLines' precondition, whatever the other draws |
| Soryu.Img.LineRow | soryu/soryu.go:437-448 | `Max.X + 1` jitter draws; each column ends with the colour of the last source column sent to it; other rows do not change |
| Soryu.Img.LineColumn | soryu/soryu.go:438-447 | one draw; the colour of column `x` lands on its jittered, wrapped target |
| Soryu.Img.LineRowAt | soryu/soryu.go:437-448 | the pixel at a column after a BigLines row walk: the (channel-shifted on every third round) colour of the last source column whose jittered, wrapped target it is, or the old pixel |
| Soryu.Img.LineRowStep | soryu/soryu.go:437-448 | one more column of the walk decides exactly the column it lands on |
| Soryu.Img.LineRowSourced | soryu/soryu.go:437-448 | after a row walk every column holds its old value or a colour of the same source row |
| Soryu.Img.LineRowPosNext | soryu/soryu.go:436-449 | each row of a band takes `Max.X + 1` draws |
| Soryu.Img.LineBandRows | soryu/soryu.go:436-450 | each row of a band gets its own row walk, drawing from where the row above stopped; other rows do not change |
| Soryu.Img.LineDrawsAt | soryu/soryu.go:429-457 | band `j` of the walk is the one round `j` draws: its rows, its round number `2j + 1` and its draw position |
| Soryu.Img.LineDrawsAppend | soryu/soryu.go:430-451 | a band placed by the next copy round keeps the walk's draws |
| Soryu.Img.LineDrawsShape | soryu/soryu.go:429-457 | bands placed by the walk's draws start `height` rows apart, end before `Max.Y` and are copied on odd rounds |
| Soryu.Img.LineRound | soryu/soryu.go:436-450 | one copied band applies its row walks over what the earlier bands left, drawing `Max.X + 1` per row |
| Soryu.Img.LineCopyRound | soryu/soryu.go:430-451 | the jitter draw decides the band; a band that would reach `Max.Y` ends the walk after that one draw with nothing copied |
| Soryu.Img.LineWalkRound | soryu/soryu.go:429-457 | one round keeps the walk's layout, draws and pixels; skip and copy rounds alternate; the walk stops exactly where the next band would reach `Max.Y` |
| Soryu.Img.LineWalk | soryu/soryu.go:429-457 | bands are exactly those the draws place, `height` rows apart, on odd rounds, each ending before `Max.Y`; every draw taken is counted; every pixel holds the bands applied in order to its old value |
| Soryu.Img.BigLines | soryu/soryu.go:421-458 | two opening draws give height and offset; the bands, the draws taken and every pixel follow the walk; rows outside the bands keep their value; each band row is its own row walk over the old pixels, channel-shifted on every third round |
| Soryu.Img.LineWalkGrows | soryu/soryu.go:429-435 | each copied band moves the BigLines walk at least `2 * height` rows further on |
| Soryu.Img.LinePositiveEnds | soryu/soryu.go:429-435 | with a positive band height, some copied band reaches `Max.Y`, so the walk ends |
| Soryu.Img.BigLinesEnds | soryu/soryu.go:425-435 | a positive drawn height `Max.Y*Intn(25)/100` meets BigLines' precondition, whatever the offset draw |
| Soryu.Img.FillRect | soryu/soryu.go:242 | `draw.Draw` with `Src` and a uniform colour sets exactly the pixels inside the clipped rectangle |
| Soryu.Img.CorruptRect | soryu/soryu.go:228-235 | the corner lies inside the image; the rectangle is less than `Max.X/100` wide and `Max.Y/100` high |
| Soryu.Img.CorruptColor | soryu/soryu.go:236-240 | a corruption's fill: (0, 200, 0, 100), or with `uniform` the source pixel at the rectangle's corner rotated left |
| Soryu.Img.CorruptAt | soryu/soryu.go:227-243 | the pixel after the first `n` corruptions: the fill of the last rectangle covering it, or its old value |
| Soryu.Img.RandomCorruptions | soryu/soryu.go:225-244 | exactly four draws per round over `iterations + 1` rounds; each pixel ends with the colour of the last rectangle covering it, or keeps its value; requires both extents to be at least 100 |
| Soryu.Img.CorruptRound | soryu/soryu.go:227-243 | one round takes four draws and fills its rectangle |
| Soryu.Img.CorruptStep | soryu/soryu.go:227-243 | one more rectangle decides exactly the pixels it covers |
| Soryu.Img.CorruptUntouched | soryu/soryu.go:225-244 | a pixel that no rectangle covers keeps its value |
| Soryu.Img.CorruptGreen | soryu/soryu.go:236-242 | without `uniform` a pixel is either unchanged or (0, 200, 0, 100) |
| Soryu.Img.CorruptLocal | soryu/soryu.go:236-242 | with `uniform` a changed pixel is the rotated source pixel at most `Max.X/100 - 1` columns left of it and `Max.Y/100 - 1` rows above it |
| Glitch.Split | main.go:308-336 | the program's banded copy, with the wrap firing only at `x + width > Max.X` |
| Glitch.SplitWrapDiffers | main.go:319-325 | the program's `Split` and the library's sample different columns exactly when `x + width == Max.X` in a non-empty image |
| Glitch.SplitOn | main.go:408 | `strings.Split` gives at least one piece, and no piece holds the separator |
| Glitch.SplitJoin | main.go:408 | joining the pieces with the separator gives the effect list back |
| Glitch.JoinSplit | main.go:408 | splitting a join of separator-free pieces gives the pieces back |
| Glitch.SplitConcat | main.go:408 | splitting at a separator splits each side on its own |
| Glitch.PushAppend | main.go:408 | a character in front of split pieces only extends the first piece, so the pieces after it can be appended before or after |
| Glitch.Steps | main.go:408-411 | the steps of an effect list on a frame: one per comma-separated piece, in order, each that piece's plan |
| Glitch.Plan | main.go:411-450 | Streak runs on every frame and bumps exactly on even frames; Burst runs exactly on odd frames; the splits run exactly when `index % 5 != 0` and widen exactly on frames 1 and 3; ShiftChannel and ColorBoost run on every frame; Ghost, GhostStretch and Noise are the unmodelled plans; every other name, and Burst or a split on a frame that does not run it, is skipped |
| Glitch.UnknownTokenInert | main.go:409-451 | a name outside the switch changes nothing and takes no draw |
| Glitch.StepsOfJoin | main.go:408-411 | a list joined from comma-free names runs one step per name, in order, each the name's plan |
| Glitch.StepsConcat | main.go:408-411 | two lists joined by a comma run the steps of the first, then those of the second |
| Glitch.ActiveConcat | main.go:409-451 | the steps that do something in a joined list are those of each part, in order |
| Glitch.UnknownTokenDropped | main.go:408-451 | an unknown name at the front, between two lists or at the end leaves the same effects in the same order, and the same streak amount and draws, as the list without it |
| Glitch.SkipDropped | main.go:408-451 | a skipped step between, before or after modelled steps changes neither the active steps nor the streak amount and draws |
| Glitch.StepAfter | main.go:412-447 | a step never moves the draw position back, and a skipped step changes neither the streak amount nor the draws |
| Glitch.After | main.go:409-451 | running the steps in order never moves the draw position back |
| Glitch.AfterConcat | main.go:409-451 | running a joined list is running its second part from where the first left the streak amount and the draws |
| Glitch.AfterActive | main.go:409-451 | skipped steps drop out: the streak amount and the draws depend only on the steps that do something |
| Glitch.AmountGrowth | main.go:412-416 | each bump grows `streakAmount` by 5 to 24, and nothing else changes it |
| Glitch.OddFrameKeepsAmount | main.go:412-416 | on odd frames `streakAmount` comes out as it went in |
| Glitch.Frames | main.go:462-471 | a single image is frame 1, an odd frame not divisible by 5 and one that widens; a GIF run uses frames `0 .. gifFrames - 1` |
| Glitch.Settings.constructor | main.go:28-46 | the flags as given |
| Glitch.Settings.Apply | main.go:411-450 | the streak amount and draws move as `StepAfter` says; a skipped step changes no pixel; every other step's pixels are those of the effect it runs with the drawn parameters: the streaked picture from the draws after any bump, the raster-order burst, the banded split with the widened band, the rotated or boosted pixel |
| Glitch.Settings.ApplyStreak | main.go:412-416 | on even frames the streak amount grows by `Intn(100)/5 + 5` first; leftward the picture is the one streaked by the draws after that bump, rightward no pixel changes |
| Glitch.Settings.Widened | main.go:434-437 | the band size is `splitWidth`, plus one `Intn(10)` draw when the step is widened (frames 1 and 3, as `Plan` decides) and no draw otherwise |
| Glitch.Settings.CreateGlitchedImage | main.go:402-460 | the output starts as a copy of the source; the steps run in list order with the streak amount and draws following `After`; a list that runs nothing on the frame leaves the plain copy |
| Glitch.Digit | main.go:469 | a digit character |
| Glitch.Decimal | main.go:469 | `%d` gives one or more decimal digits, exactly one for numbers below 10 |
| Glitch.DecimalRoundTrip | main.go:469 | reading the digits back gives the number, so every frame file name is distinct |
| Glitch.FrameName | main.go:469 | the name is "temp", the digits, then ".png" |
| Glitch.StringLess | main.go:481 | Go's `<` on strings as `sort.Strings` uses it: byte-wise lexicographic order, a proper prefix first |
| Glitch.LessAfterPrefix | main.go:481 | a shared prefix does not decide the string order |
| Glitch.FramesSortInOrder | main.go:469-481 | `sort.Strings` lists the frame files in frame order iff there are at most 10 of them |

## Left out

- Ghost, GhostTint, GhostStretch, GaussianNoise, Noise and OverlayImage are not modelled. They are JPEG round trips, `draw.DrawMask` compositing, noise and blend libraries, Lab colour blending and file I/O with image scaling. `main.go`'s own Ghost (main.go:248-262) also differs from the library's: it draws `Intn(10)` and draws at the zero point.
- Scanlines is not modelled: it delegates line drawing to a library. Only every third row (`y % 3 == 0`) would get a line.
- `c()`, the float conversion in Streak, is the parameter `conv`. `conv` stands in for three steps that are not modelled: the float64 division by `MAXC`, the float64 product with 255, and the truncating `uint8` conversion.
- Codec and file plumbing are not modelled: `NewImage` content sniffing and decoding, `Write` encoding, the output file of `CreateGlitchedImage`, and the console messages.
- `Run`'s loop over frames is not modelled. Neither are its reseeding from the wall clock, the globbing, the GIF assembly and the CLI flag setup in `main`. What is modelled are the frame indices it passes (`Frames`) and the order of the sorted frame files (`FramesSortInOrder`).
- The vertical-split flags are read by the CLI but never used. The program's steps pass `splitWidth` and `splitLength` to both splits, so `Settings` has no vertical-split fields.
- Images are assumed to have their origin at (0, 0), as the program's own images do.
- The source `In` is assumed to be an 8-bit `image.RGBA`, whose `RGBA()` channels are a byte times 0x101 and which reads (0, 0, 0, 0) outside its bounds. A decoded JPEG (`image.YCbCr`) or an `image.NRGBA` gives other 16-bit values, reads (0, 135, 0, 255) outside the bounds in the JPEG case, and `uint8()` in `shiftColor` and `CopyChannel` would then keep their low byte. The members that read `In` (ChannelWalk, CopyChannelBigLines, LineBandRows, BigLines, VerticalSplit, Glitch.Split, CorruptLocal) state the 8-bit case only.
- `Random.Unit` models `Float32` as 2^24 evenly spaced values. The generator's own algorithm is not modelled. Draw positions count calls of `Intn` and `Float32`, not reads of the generator's source.
- Soryu.Img.Streak: requires `left`, a non-zero length or no streaks. A rightward streak of length 0 never ends in the source. The leftward colours are stated through `conv`.
- Soryu.Img.BigLines: requires that some copied band of the walk would reach `Max.Y`. That is exactly the runs that end; a run whose height and jitter draws are all 0 loops forever in the source, and such runs are not modelled. A positive drawn height always meets the requirement (`BigLinesEnds`).
- Soryu.Img.CopyChannelBigLines: requires that some copied band of the walk would reach `Max.Y`. That is exactly the runs that end; the others are not modelled. A positive drawn height always meets the requirement (`CopyChannelBigLinesEnds`).
- Soryu.Img.RandomCorruptions: takes the iteration count `int(Max.Y * Max.X * 0.03)` as the parameter `iterations`, because the float64 product is not modelled. The rectangle size bounds `int(Max.Y * 0.01)` and `int(Max.X * 0.01)` are written `Max.Y / 100` and `Max.X / 100`, which they equal for every extent below 2^40.
- Glitch.Settings.CreateGlitchedImage: requires that no listed effect name plans Ghost, GhostStretch or Noise, whose effects are not modelled. It also requires every step to be runnable:
  - a Streak step needs a non-empty image and, rightward, a non-zero length, whatever the streak amount;
  - a split step needs `splitWidth > 0`, although a frame that widens a non-positive width by a positive draw would also end;
  - a Burst step needs `Max.Y >= 10`.
- Glitch.Settings.CreateGlitchedImage: the ensures give the streak amount, the draws and the all-skipped case, not the composed image of a general effect list. That an unknown name leaves the final image unchanged is stated one level down: the same active steps and draws (`UnknownTokenDropped`), and a skipped step changes no pixel (`Apply`).
- Glitch.StepAfter, Glitch.After: require the steps to be modelled, since Ghost, GhostStretch and Noise draw in ways the model leaves out.
