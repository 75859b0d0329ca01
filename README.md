# Not Tetris 2: zone detection and piece construction, in Dafny

Not Tetris 2 is a browser game. Its falling pieces are rigid bodies in a 2-D
physics world. A piece is pushed around while it falls and settles wherever
the physics leaves it. There is no grid of cells, so a "line" is a horizontal
band of the play area. A band counts as full when the bodies resting in it
cover enough of its area. Clearing a full band removes every body the scan
listed for it: a movable, non-sensor body other than the falling piece whose
estimated area in the band is positive. Static bodies, the background
stripes, the falling piece and bodies that only touch the band's edge stay.
Each removed body is replaced by plain rectangular remnants for the parts that
stick out above and below the band.

This project models and proves two parts of the game:

- **Zone detection** (`ZoneDetection.dfy`):
  - the band geometry and the background stripe bodies;
  - the bottom-to-top fill scan `checkDetectionZones`, with its two helpers:
    - `isBodyInZone`, the membership test;
    - `calculateBodyAreaInZone`, the bounding-box area estimate;
  - `clearZone` and `createBodySlice`, which remove bodies and build remnants;
  - the per-band indicator state: stored ratios and displayed percentages.

  Bodies are records (`Physics.Body`). The physics world is a class,
  `Physics.World`: a list of bodies plus the counter the library takes body
  identities from.

  The scan is a method; so are clearing and the indicator updates. Each is
  proved against specification functions: `Measure`, `ZoneStep`, `Scan`,
  `Cleared` and `Updated`. Lemmas then prove what the game relies on about
  those functions. One of them: the body list is read again for every band,
  so the top remnant of every cleared body that reached above the band is a
  candidate of the band above it in the same pass, passes that band's
  membership test and adds to its covered area. It adds its whole area when
  the body's top lay within that next band.
- **Piece construction** (`Tetromino.dfy`):
  - the table of the seven shapes;
  - the colour helpers `getLighterColor` and `getDarkerColor`. They read the
    channels of a `#rrggbb` string with `parseInt(…, 16)`, shift each channel
    with clamping, and print it back with `toString(16).padStart(2, '0')`;
  - the render options `createBlock` gives a block;
  - the layout `createRandomTetromino` gives a piece, with the shape type as a
    parameter.

  The JavaScript primitives the helpers use are modelled with the semantics
  they have in the language:
  - `substring` clamps and orders its indices;
  - `parseInt` skips white space, reads a sign and a `0x` prefix, then the
    longest run of hex digits, and gives NaN when there is none;
  - `Math.min` and `Math.max` propagate NaN;
  - `toString(16)` writes lowercase digits;
  - `padStart` pads on the left.

  So the helpers are defined on every string, well formed or not. The proofs
  are about well-formed colours: a well-formed input gives a canonical
  lowercase colour, each of whose channels is the clamped shift of the
  input's.

`Extent.dfy` holds the minimum and maximum of a non-empty list (the
`Math.min(...)` / `Math.max(...)` over vertex coordinates).

`Physics.dfy` holds the part of the physics library the game uses:
- body records;
- the axis-aligned `Bodies.rectangle`;
- `World.add` and `World.remove`.

`clearZone` does not touch the indicator, so a cleared band keeps the ratio
the scan reported before clearing.

The effects of the scan's two callbacks are modelled by two flags:
- `reportProgress`: the progress callback is this object's `updateProgressBar`;
- `clearFull`: the clear callback is `clearZone` on the same world.

The method returns the list of reports it passed to the callbacks.

## Model

| member | source | states |
|---|---|---|
| Extent.MinOfIsLeast | src/ZoneDetection.js:248 | the minimum of a non-empty list is one of its elements and no element is smaller |
| Extent.MaxOfIsGreatest | src/ZoneDetection.js:249 | the maximum of a non-empty list is one of its elements and no element is larger |
| Extent.MinAtMostMax | src/ZoneDetection.js:264-265 | a body's highest y never exceeds its lowest y |
| Physics.ExtremesAreVertices | src/ZoneDetection.js:248-249 | some vertex lies at the highest y and some at the lowest y of the outline |
| Physics.RectangleExtent | src/ZoneDetection.js:338 | a rectangle of non-negative size spans exactly width × height around its centre, with area width·height |
| Physics.Without | src/ZoneDetection.js:303 | removal keeps exactly the bodies whose identity is not removed, and never lengthens the list |
| Physics.WithoutNothing | src/ZoneDetection.js:297-316 | removing no identity leaves the world's list unchanged (the state before the first removal) |
| Physics.WithoutTwice | src/ZoneDetection.js:297-316 | removing one body after others is removing all of them at once |
| Physics.WithoutAppend | src/ZoneDetection.js:303 | removal from a concatenation is removal from each part, so the remaining bodies keep their order |
| Physics.WithoutCons | src/ZoneDetection.js:303 | removing from a list that starts with one body keeps that body at the front exactly when its identity is not among those removed, and removes from the rest |
| Physics.Ids | src/ZoneDetection.js:297-303 | the identities removed are exactly those of the listed bodies: each listed body's is among them and each of them is a listed body's |
| Physics.WithoutKeepsDistinct | src/ZoneDetection.js:303 | removal keeps the world's identities pairwise distinct |
| Physics.ConsKeepsDistinct | src/ZoneDetection.js:303 | putting a body in front of a list of distinct identities, none equal to its own, keeps all identities distinct |
| Physics.AppendKeepsDistinct | src/ZoneDetection.js:77 | appending bodies with distinct identities, none already in the world, keeps all identities pairwise distinct |
| Physics.World.constructor | src/Game.js:57-58 | a new world holds no bodies and its counter starts at 0 |
| Physics.World.NewId | src/ZoneDetection.js:338 | a created body takes the counter's value and the counter moves on; the bodies are unchanged |
| Physics.World.Add | src/ZoneDetection.js:77 | `World.add` appends the bodies in order, leaves the counter alone, and keeps every identity below the counter and all identities distinct |
| Physics.World.Remove | src/ZoneDetection.js:303 | `World.remove` drops the body with that identity and nothing else |
| ZoneDetection.DimensionGetters | src/ZoneDetection.js:26-29 | play-area width 300, height 600, offset 0 and band height 30 are the getters' products and quotient; a band's area is width × band height |
| ZoneDetection.ZonesTileThePlayArea | src/ZoneDetection.js:183-185 | every band has positive height and lies in the play area; consecutive bands meet; band 0 is at the top and the last band at the bottom |
| ZoneDetection.DecimalString | src/ZoneDetection.js:64 | the index in a stripe's label is printed as a non-empty run of decimal digits |
| ZoneDetection.DecimalRoundTrip | src/ZoneDetection.js:64 | the digits printed for an index spell that index, so distinct indices print differently |
| ZoneDetection.StripeLabelsDistinct | src/ZoneDetection.js:64 | two different stripes carry different labels `stripe-zone-<i>` |
| ZoneDetection.Stripes | src/ZoneDetection.js:48-81 | exactly DETECTION_ZONES_COUNT stripes, stripe i made for band i with the i-th new identity, all static sensors |
| ZoneDetection.StripeCoversItsZone | src/ZoneDetection.js:49-74 | stripe i is a static sensor centred on band i, spanning exactly the band vertically and the canvas horizontally, coloured STRIPE_COLOR_1 for even i and STRIPE_COLOR_2 for odd i |
| ZoneDetection.Candidates | src/ZoneDetection.js:190-193 | the scanned bodies are exactly the world's non-static, non-sensor bodies |
| ZoneDetection.NoCandidates | src/ZoneDetection.js:190-193 | a list of static bodies contributes no candidate |
| ZoneDetection.CandidatesAppend | src/ZoneDetection.js:190-193 | filtering a concatenation is concatenating the filtered parts, so candidates keep the world's order |
| ZoneDetection.CandidatesCons | src/ZoneDetection.js:190-193 | the first body of a list is kept at the front exactly when it is neither static nor a sensor, and the rest is filtered the same way |
| ZoneDetection.StripesNeverMeasured | src/ZoneDetection.js:53-55 | adding the stripes anywhere in the world does not change what the scan measures |
| ZoneDetection.IsBodyInZone | src/ZoneDetection.js:239-256 | the vertex search followed by the straddling test returns exactly the membership predicate `InZone` |
| ZoneDetection.Scaled | src/ZoneDetection.js:281 | scaling a non-negative area by a share in [0, 1] gives a value between 0 and the area |
| ZoneDetection.AreaInZoneBounds | src/ZoneDetection.js:259-285 | for a non-negative area, the estimate lies in [0, area]: the whole area for a body within the band, 0 for a body that at most touches the band's edge from outside |
| ZoneDetection.AreaImpliesInZone | src/ZoneDetection.js:206-212 | a body with a non-zero estimate always passes `isBodyInZone` |
| ZoneDetection.ListedExactly | src/ZoneDetection.js:199-216 | a body is listed exactly when it is a candidate, is not the current block, and its estimate is positive |
| ZoneDetection.CoveredNonNegative | src/ZoneDetection.js:196-209 | with non-negative areas the covered area is non-negative |
| ZoneDetection.CoveredAtLeastMember | src/ZoneDetection.js:196-209 | with non-negative areas the covered area is at least any one candidate's contribution |
| ZoneDetection.CoveredListedStep | src/ZoneDetection.js:199-216 | taking one more body grows the covered area by exactly that body's contribution and the listed bodies by exactly that body when it is listed |
| ZoneDetection.MeasureZone | src/ZoneDetection.js:190-216 | the inner loop's covered area and list are the specification folds `Covered` and `Listed` over the candidates |
| ZoneDetection.CreateBodySlice | src/ZoneDetection.js:327-350 | a remnant is a movable non-sensor body with the given identity, under the original's x at the middle of [topY, bottomY], with the original's render, label and pattern marker and no piece type |
| ZoneDetection.SliceSpansItsRange | src/ZoneDetection.js:331-338 | a remnant spans exactly [topY, bottomY] vertically and is exactly as wide as the original's outline |
| ZoneDetection.BodySlicesCases | src/ZoneDetection.js:297-316 | a body yields a top remnant iff it reaches above the band, covering [highest y, band top], and a bottom remnant iff it reaches below, covering [band bottom, lowest y]; remnants keep the original's dressing and take consecutive identities |
| ZoneDetection.SlicesOfStep | src/ZoneDetection.js:297-316 | the remnants of the first i + 1 listed bodies are those of the first i followed by body i's, numbered from where the first i left the counter |
| ZoneDetection.SlicesNumbered | src/ZoneDetection.js:306-315 | the k-th remnant made in one clearing takes the k-th identity after the counter's starting value |
| ZoneDetection.SlicesDistinct | src/ZoneDetection.js:306-315 | the remnants of one clearing have pairwise distinct identities |
| ZoneDetection.SlicesOfFacts | src/ZoneDetection.js:294-323 | at most two remnants per listed body, with consecutive fresh identities, non-negative areas, movable and not sensors |
| ZoneDetection.TopSliceAmongSlices | src/ZoneDetection.js:306-309 | the top remnant of every listed body that reaches above the band is among the remnants returned |
| ZoneDetection.ClearedRemovesExactlyListed | src/ZoneDetection.js:288-324 | clearing removes exactly the listed bodies, keeps every other body, adds only fresh bodies, and moves the counter by at most two per listed body |
| ZoneDetection.CutBody | src/ZoneDetection.js:299-315 | one iteration: the body is removed and its remnants are made with the next identities |
| ZoneDetection.CutAll | src/ZoneDetection.js:297-316 | the loop over the listed bodies removes exactly them and returns the specification's remnants, moving the counter by their number |
| ZoneDetection.ClearZone | src/ZoneDetection.js:288-324 | the returned remnants and the new world are those of the specification `Cleared` |
| ZoneDetection.ScanVisitsEveryZoneOnce | src/ZoneDetection.js:182-227 | the scan reports every band exactly once, from the bottom band up; a report says full iff its ratio reaches 0.8; identities stay below the counter |
| ZoneDetection.ScanStep | src/ZoneDetection.js:182-227 | scanning one more band appends that band's report to the reports of the bands below it and continues from the world they left |
| ZoneDetection.ZoneStepKeepsIds | src/ZoneDetection.js:183-234 | one band's step reports that band, calls it full exactly when its ratio reaches the threshold, keeps every identity below the counter and never lowers the counter |
| ZoneDetection.ReportsAppend | src/ZoneDetection.js:182-219 | appending the next band's report to reports numbered from the bottom band upward keeps them numbered in that order, each full exactly when its ratio reaches the threshold |
| ZoneDetection.ClearedKeepsAreas | src/ZoneDetection.js:319-321 | clearing keeps every body area non-negative |
| ZoneDetection.ScanRatiosNonNegative | src/ZoneDetection.js:219 | with non-negative body areas every reported fill ratio is non-negative, also after clears earlier in the pass |
| ZoneDetection.TopSliceCountedInZoneAbove | src/ZoneDetection.js:190-212 | when band z > 0 clears, the top remnant of every listed body reaching above it is a candidate of band z - 1's measurement (movable, not a sensor, not the falling piece), spans from the body's top to the band's top, passes `isBodyInZone` for band z - 1 and its estimate there is part of the covered area; when the body's top lies within band z - 1 the estimate is the remnant's whole area |
| ZoneDetection.Percentage | src/ZoneDetection.js:134 | the displayed width is the ratio as a percentage clamped to [0, 100] |
| ZoneDetection.Updated | src/ZoneDetection.js:127-136 | an index outside the bars changes nothing; otherwise only that band's stored ratio (unclamped) and displayed width (clamped) change |
| ZoneDetection.AfterReports | src/ZoneDetection.js:222-224 | the indicator state after a run of progress callbacks keeps one ratio and one width per bar |
| ZoneDetection.AfterReportsStep | src/ZoneDetection.js:222-224 | one more report changes the indicator exactly as one `updateProgressBar` call for that band with that ratio |
| ZoneDetection.ProgressAfterScan | src/ZoneDetection.js:222-224 | after a scan with the progress callback, each band's stored ratio is the one measured for it in that scan and its width that ratio's clamped percentage |
| ZoneDetection.ZoneDetector.constructor | src/ZoneDetection.js:21-23 | the object starts without stripes, bars or ratios |
| ZoneDetection.ZoneDetector.InitEnvironment | src/ZoneDetection.js:32-38 | the stripes, made with the next DETECTION_ZONES_COUNT identities, are added to the world and remembered, the counter moves on by DETECTION_ZONES_COUNT, then every ratio and width is reset to 0 |
| ZoneDetection.ZoneDetector.CreateBackgroundStripes | src/ZoneDetection.js:41-84 | the stripe list is replaced by the DETECTION_ZONES_COUNT stripes, which are appended to the world in order |
| ZoneDetection.ZoneDetector.CreateProgressBars | src/ZoneDetection.js:87-124 | every ratio and displayed width is reset to 0, one per band |
| ZoneDetection.ZoneDetector.UpdateProgressBar | src/ZoneDetection.js:127-136 | the indicator state becomes `Updated` of the old one |
| ZoneDetection.MeasureBand | src/ZoneDetection.js:183-219 | one band's edges, covered area, list and ratio are the specification's `Measure` of the current world |
| ZoneDetection.ZoneDetector.CheckZone | src/ZoneDetection.js:183-234 | one band: the report and the new world are `ZoneStep`; the indicator is updated iff there is a progress callback |
| ZoneDetection.ZoneDetector.ScanNext | src/ZoneDetection.js:182-234 | one loop iteration advances the world and the reports from the scan of the bands below to the scan including this band, updates the indicator by the new report when asked, and keeps the stripes |
| ZoneDetection.ZoneDetector.CheckDetectionZones | src/ZoneDetection.js:180-236 | the reports and final world are `Scan` over all bands from the bottom up; with the progress callback the indicator is updated once per report, in order |
| Tetromino.ShapeTable | src/Tetromino.js:9-67 | seven distinct shape keys with distinct names, every shape type among them, each with four offsets |
| Tetromino.OffsetsFormAGrid | src/Tetromino.js:9-65 | two offsets of a shape differ by whole block sizes in x and y; distinct ones are distinct points at least one block size apart |
| Tetromino.DigitValue | src/Tetromino.js:120 | a hex digit's value is below 16 |
| Tetromino.LowerDigit | src/Tetromino.js:130 | `toString(16)` writes digits 0-9 and a-f |
| Tetromino.DigitRoundTrip | src/Tetromino.js:120-130 | writing a value and reading it back gives the value; reading a digit and writing it lowercases it |
| Tetromino.TrimStartDropsLeadingSpace | src/Tetromino.js:120 | `parseInt` drops exactly the leading white space |
| Tetromino.HexPrefix | src/Tetromino.js:120 | the digits `parseInt` reads are all hex digits |
| Tetromino.HexPrefixIsLongest | src/Tetromino.js:120 | `parseInt` reads the longest run of hex digits at the start |
| Tetromino.Substring | src/Tetromino.js:120-122 | with indices inside the string, `substring` is the slice between them |
| Tetromino.ToHex | src/Tetromino.js:130 | `toString(16)` of a non-negative integer is a non-empty run of lowercase hex digits |
| Tetromino.PadStartFills | src/Tetromino.js:130 | `padStart(2, '0')` puts zeros in front until the string has two characters and never shortens it |
| Tetromino.ToHexReadsBack | src/Tetromino.js:120-130 | the printed digits have the printed number's value and no leading zero |
| Tetromino.ParsesDigits | src/Tetromino.js:120 | `parseInt(·, 16)` of a non-empty run of hex digits is the value the digits spell |
| Tetromino.ParsesPlain | src/Tetromino.js:120 | text without leading space, sign or `0x` prefix parses to the value of its longest hexadecimal prefix, and to nothing when that prefix is empty |
| Tetromino.ToHexRoundTrip | src/Tetromino.js:120-130 | printing a non-negative integer in base 16 and parsing it back gives the integer |
| Tetromino.HexPrefixOfDigits | src/Tetromino.js:120 | a run of hex digits is read whole |
| Tetromino.PairParses | src/Tetromino.js:120-122 | two hex digits parse as the two-digit number they write |
| Tetromino.PairPrints | src/Tetromino.js:130 | a value below 256 prints, padded, as its two lowercase digits |
| Tetromino.HexPairReadsBack | src/Tetromino.js:130 | those two digits are lowercase and read back as the value |
| Tetromino.ChannelParses | src/Tetromino.js:120-122 | each channel of a `#rrggbb` colour is read exactly |
| Tetromino.ChannelsOfWellFormed | src/Tetromino.js:120-122 | all three channels of a `#rrggbb` colour are read exactly |
| Tetromino.FormatsChannels | src/Tetromino.js:130 | three channel values below 256 print as `#` and their three lowercase pairs, a canonical colour |
| Tetromino.LighterChannels | src/Tetromino.js:118-131 | the lighter colour is the formatting of the three channels each raised by the percentage and capped at 255 |
| Tetromino.LighterColor | src/Tetromino.js:118-131 | for a `#rrggbb` input, the lighter colour is `#` and six lowercase hex digits, each channel min(255, c + percent) |
| Tetromino.DarkerColor | src/Tetromino.js:134-147 | for a `#rrggbb` input, the darker colour is `#` and six lowercase hex digits, each channel max(0, c - percent) |
| Tetromino.FormattedChannels | src/Tetromino.js:130 | `#` and three pairs form a well-formed colour whose channels are the three values |
| Tetromino.LighterChannelsReadBack | src/Tetromino.js:118-131 | the lighter colour is well formed and each of its channels reads back as the input's raised and capped |
| Tetromino.DarkerChannelsReadBack | src/Tetromino.js:134-147 | the darker colour is well formed and each of its channels reads back as the input's lowered and floored |
| Tetromino.ChannelReprints | src/Tetromino.js:120-130 | a channel printed again is the two digits it was read from, lowercased |
| Tetromino.ReprintedColor | src/Tetromino.js:120-130 | re-printing the three channels lowercases the colour's digits |
| Tetromino.ZeroShift | src/Tetromino.js:118-147 | with percent 0 both helpers return the input colour with its digits lowercased |
| Tetromino.ShapeColorsWellFormed | src/Game.js:24-32 | every shape colour is a well-formed `#rrggbb` colour |
| Tetromino.LighterCyan | src/Tetromino.js:76 | cyan lightened by 40 is `#28ffff`: the border of the even-index blocks of an I piece, while the odd-index blocks keep `#00FFFF` |
| Tetromino.DarkerCyan | src/Tetromino.js:88 | cyan darkened by 30 is `#00e1e1`, the fill of every block of an I piece |
| Tetromino.LighterPurple | src/Tetromino.js:76 | purple lightened by 40 is `#a828a8`, the border of every block of a T piece |
| Tetromino.CyanPurpleChannels | src/Game.js:25-27 | the channel arithmetic for cyan and purple shifted by 40 and 30 |
| Tetromino.EffectsByType | src/Tetromino.js:166-181 | I alone gets the gradient, O alone a chamfer of radius 6 (a fifth of a block), T alone the internal pattern |
| Tetromino.BlockShape | src/Tetromino.js:70-115 | a block is a movable square of one block size centred on (x, y), with a 2-pixel border, fill and border chosen by the gradient effect and the index's parity, marked with the pattern only when the effect asks |
| Tetromino.PieceLayout | src/Tetromino.js:184-211 | block k sits at the spawn point plus the k-th offset with index k, the piece's label, colour and effects; the piece is labelled `tetromino-<type>` and records its type |
| Tetromino.IPieceRender | src/Tetromino.js:76-91 | every block of an I piece is filled `#00e1e1` with a 2-pixel border; the border is `#28ffff` on blocks 0 and 2 and `#00FFFF` on blocks 1 and 3 |
| Tetromino.TPieceRender | src/Tetromino.js:76-85 | every block of a T piece is filled `#800080` with a 2-pixel `#a828a8` border |
| Tetromino.BlockPosition | src/Tetromino.js:184-195 | a piece has four blocks, and block k sits at the spawn point moved by the shape's k-th offset |
| Tetromino.Translated | src/Tetromino.js:184-195 | two different offsets of one shape, moved by the same spawn point, stay at least one block size apart and on one grid |
| Tetromino.PieceBlocksDisjoint | src/Tetromino.js:184-195 | two blocks of a piece are at least one block size apart and on one grid |

## Left out

- Page elements: the progress-bar `div`s, their container and styles are not modelled (`createProgressBars`, `updateProgressBar`). Only the stored ratios and the displayed widths, as numbers, are kept.
- `console.log` output is not modelled.
- `addClearingVisualEffect` is not modelled: it is a timer-driven, cosmetic flash of a stripe's opacity.
- `Math.random` in `createRandomTetromino` is not modelled: the shape type is a parameter of `CreateTetromino`.
- The default spawn arguments of `createRandomTetromino` are not modelled. They would be the functions `SPAWN_X`/`SPAWN_Y` themselves, and `Game.js` always passes both coordinates.
- Physics simulation is not modelled: gravity, collisions, friction and restitution as forces, mass and inertia. The world is a list of bodies, and friction and restitution are only recorded on blocks and pieces.
- Collision filters and the stripes' `opacity` are not modelled: they are render and collision options with no effect on the scan.
- Compound bodies: `CreateTetromino` returns the blocks as parts with the piece's label and type. The compound body's own outline, area, position and its self-part at `parts[0]` are computed by the physics library, and are not modelled. The scan measures whatever bodies the world holds.
- Chamfered corners: an O block records the chamfer radius. Its rounded outline and the smaller area it gives are not modelled: the block is a square.
- Render options the game leaves unset are `None`, standing for the library's own defaults (a random fill colour for a movable body).
- Body identity (`===`, `World.remove`) is an identity number. The world hands these out in creation order from its counter; the library does the same with its own id counter.
- `Physics.World.Add`: requires that the added bodies' identities are below the counter, pairwise distinct and not already in the world, which holds for bodies the world created and has not yet added; the library itself checks nothing.
- Floating point: coordinates, areas, ratios and percentages are mathematical reals, without IEEE rounding, infinities or negative zero.
- Colour helpers, the `percent` argument: modelled as an integer. The game only passes 40 and 30, and a fractional `percent` would make `toString(16)` print a fraction.
- `Tetromino.Substring`: indices count code points; JavaScript counts UTF-16 code units. They agree on the `#rrggbb` strings the game uses.
- `Game.js`'s own zone constants (10 zones, 2 extra rows) are not used. The zone code reads its own: 20 zones, 0 extra rows.
- `src/Controls.js` (keyboard handlers applying forces) is not part of this model.
- Scoring, difficulty and game over are not part of this model: the game only declares the fields.
