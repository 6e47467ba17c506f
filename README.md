# stars — a verified model of the particle animation core

This project models the core of *stars*, a browser animation in which
particles ("stars") spawn at the pointer on a timer. Each star accelerates
in a random direction with its speed capped, grows, and is retired once it
leaves the view or outlives its lifespan. The model covers these parts:

- **Vectors** (`vector.dfy`, src/vector.js): immutable 2-D vectors with
  scale, add, distance, magnitude and `clamp`. `Math.sqrt` is a parameter
  `sqrt`. The lemmas assume it returns the exact non-negative square root.
- **Boxes** (`box.dfy`, src/box.js): axis-aligned boxes normalised from two
  corners, with containment and an inclusive overlap test.
- **Stars** (`star.dfy`, src/star.js): the star record and the class that
  `tick` updates in place, with the id counter and `getShape`.
- **Simulation** (`state.dfy`, src/state.js): the `State` class. It holds
  two generations ("buckets") of stars, a live count `size`, soft deletion
  through `living`, and the lifespan accumulator that rotates the buckets.
  `Tick` is proved against `StepAll`, a function on star values. `Removals`
  states how far `size` drops.
- **Control** (`controller.dfy`, src/controller.js): the fixed-timestep
  scheduler. `HandleTick` feeds elapsed time into two accumulators. It runs
  one `state.tick` per `TIMESTEP` and spawns one star per `SPAWN_INTERVAL`
  while there is room. A ghost `trace` records every call made on the
  state, in order.
- **Colors** (`color.dfy`, src/color.js): parsing of `#rgb`, `#rrggbb`,
  `rgb(...)` and `rgba(...)`, and printing as `rgba(r, g, b, a)`. The two
  regular expressions are written as token sequences. `MatchAt` matches them
  greedily and `Exec` searches for the leftmost match, as `RegExp.exec`
  does.
- **KonamiCode** (`konami.dfy`, src/konami.js): the key-sequence recogniser,
  as a transition function and as the class whose `handleKeypress` updates
  its index.

The tunable `Variables` table (src/variables.js) becomes the `Settings`
value passed to each operation that reads it (`variables.dfy`).
`MAX_STAR_COUNT` and `LIFESPAN` are read by src/state.js but are missing
from the table. The model makes them fields of `Settings` as well, so it
models the code with the table completed; "## Left out" says what the code
does without them.

Numbers are exact: `real` for JavaScript's floating-point values, `int`
for colour channels and counts.

## Model

| member | source | states |
|---|---|---|
| Vectors.Zero | src/vector.js:19-21 | both components are 0 |
| Vectors.Square | src/vector.js:27-29 | both components equal the argument |
| Vectors.Clone | src/vector.js:34-36 | the copy equals the original |
| Vectors.Floor | src/vector.js:42-44 | each component becomes an integer no greater than the original and within 1 of it |
| Vectors.Scale | src/vector.js:51-53 | no contract of its own: `ScaleLaws`, `ScaleOfZero` and `MagnitudeOfScale` state its properties |
| Vectors.Add | src/vector.js:60-62 | taking the second vector off the sum gives back the first |
| Vectors.Distance | src/vector.js:68-72 | no contract of its own: `DistanceZero`, `DistanceSymmetric` and `DistanceIsMagnitudeOfDifference` state its properties |
| Vectors.Magnitude | src/vector.js:77-79 | no contract of its own: `MagnitudeZero` and `MagnitudeOfScale` state its properties |
| Vectors.Clamp | src/vector.js:86-95 | no contract of its own: `ClampOfZero`, `ClampWithinBounds`, `ClampAboveMax`, `ClampBelowMin` and `ClampBounded` state its cases and bounds |
| Vectors.AddCommutes | src/vector.js:60-62 | vector addition is commutative |
| Vectors.AddZero | src/vector.js:60-62 | the zero vector is the identity of addition on both sides |
| Vectors.ScaleOfZero | src/vector.js:51-53 | scaling the zero vector gives the zero vector |
| Vectors.ScaleLaws | src/vector.js:51-53 | scaling by 1 changes nothing; scaling twice is scaling by the product; each component is multiplied |
| Vectors.MagnitudeZero | src/vector.js:77-79 | magnitude is non-negative, is 0 exactly for the zero vector, and its square is the sum of the squared components |
| Vectors.MagnitudeOfScale | src/vector.js:77-79 | scaling by k multiplies the magnitude by abs(k) |
| Vectors.DistanceIsMagnitudeOfDifference | src/vector.js:68-72 | the distance is the magnitude of the difference vector |
| Vectors.DistanceSymmetric | src/vector.js:68-72 | distance does not depend on the order of the two points |
| Vectors.DistanceZero | src/vector.js:68-72 | distance is non-negative, and 0 exactly between equal points |
| Vectors.ClampOfZero | src/vector.js:86-90 | a zero vector comes back as the zero vector, whatever `sqrt` gives at 0 |
| Vectors.ClampWithinBounds | src/vector.js:91-94 | a vector whose magnitude is within [min, max] is returned unchanged |
| Vectors.ClampAboveMax | src/vector.js:91-94 | a vector longer than max is scaled by max/m, a positive factor when max > 0; the result has magnitude max |
| Vectors.ClampBelowMin | src/vector.js:91-94 | a non-zero vector shorter than min (and within max) is scaled up by min/m > 1; the result has magnitude min |
| Vectors.ClampBounded | src/vector.js:86-95 | with 0 <= max and no min above max, the result is never longer than max, and a non-zero input never comes out shorter than min |
| Vectors.ClampExamples | src/__tests__/vector.test.js:75-93 | the three unit-test cases: (0,6) clamped to 7 is unchanged; to 5 gives (0,5); (0,3) with min 4 gives (0,4) |
| Boxes.MakeBox | src/box.js:11-16 | the start lies at or below the end on each axis, and each axis's pair of coordinates is the two corners' values in some order |
| Boxes.TopLeft | src/box.js:19-21 | the least corner: in a well-formed box it lies in the box, and no point of the box lies left of or above it |
| Boxes.BottomRight | src/box.js:24-26 | the greatest corner: in a well-formed box it lies in the box, and no point of the box lies right of or below it |
| Boxes.Contains | src/box.js:32-35 | containment is inclusive on all four edges; a box that contains a point is well formed |
| Boxes.Overlaps | src/box.js:42-54 | no contract of its own: `OverlapsSymmetric`, `OverlapsReflexive` and `OverlapsIffCommonPoint` state its properties |
| Boxes.MakeBoxSymmetric | src/box.js:11-16 | the order in which the two corners are given does not matter |
| Boxes.CornersContained | src/box.js:19-35 | top-left, bottom-right and both original corners lie in the box (containment is inclusive) |
| Boxes.OverlapsSymmetric | src/box.js:42-54 | overlap does not depend on argument order |
| Boxes.OverlapsReflexive | src/box.js:42-54 | a well-formed box overlaps itself |
| Boxes.OverlapsIffCommonPoint | src/box.js:42-54 | two well-formed boxes overlap exactly when some point lies in both (touching edges count) |
| Boxes.OverlapExamples | src/__tests__/box.test.js:5-41 | the three unit-test cases: overlapping, touching, separate |
| Stars.GetShape | src/star.js:30-37 | never `random`; the configured shape unless it is `random`, else square exactly when the roll is below 1/2 |
| Stars.Footprint | src/star.js:49-53 | the square of side abs(size) centred on the position; it contains the position |
| Stars.Advance | src/star.js:59-63 | no contract of its own: `AdvanceSpec` states what one tick does, including the age correction |
| Stars.AdvanceSpec | src/star.js:59-63 | one tick grows size by elapsed*EXPANSION_RATE; the new velocity is the accelerated one clamped to magnitude at most MAX_VELOCITY; the position moves by the new velocity; acceleration, colour, shape, id and liveness stay. It also states that age grows by elapsed, which is the correction of the second finding and not in those lines |
| Stars.RestingStarStays | src/star.js:59-63 | a star with zero velocity and acceleration keeps its position and zero velocity |
| Stars.IdCounter.constructor | src/star.js:5 | numbering starts at 0 |
| Stars.Star.constructor | src/star.js:16-24 | zero velocity, STAR_SIZE, the counter's next id (the counter advances by 1), the shape `getShape` picks, living, age 0 |
| Stars.AdvanceKeeps | src/star.js:59-63 | a tick keeps the acceleration and liveness, and advances the age by `elapsed` (the age part is the correction of the second finding) |
| Stars.Star.Tick | src/star.js:59-63 | the star's new value is `Advance` of its old value: velocity, position and size as `tick` updates them, and the age advanced by the corrected model |
| Stars.TwoStars | src/star.js:22 | two stars made in a row from one counter get consecutive, distinct ids (a client of the constructor; the controller's invariant `IdsIssued` covers every star it holds) |
| Simulation.ShouldRemoveStar | src/state.js:101-104 | only a living star is ever removed; a living star younger than the lifespan whose position is in the bounds is kept |
| Simulation.StepStar | src/state.js:84-88 | no contract of its own: `StepAll`, `KeptStep`, `StepKeepsLivingUnlessRemoved` and `RestingStarSurvives` state what one visit does |
| Simulation.RemovedBy | src/state.js:85-86 | only a living star is removed in a step, so `size` is never decremented twice for one star |
| Simulation.StepAll | src/state.js:83-89 | each visited star becomes its advanced value, marked not living if it should be removed; the length is kept |
| Simulation.StepAllAppend | src/state.js:55-59 | stepping two buckets in sequence is stepping their concatenation |
| Simulation.Removals | src/state.js:83-89 | a tick removes at most one star per visited star |
| Simulation.RemovalsAppend | src/state.js:55-59 | removals over two buckets add up |
| Simulation.Deaths | src/state.js:31-34 | no more stars die than there are |
| Simulation.RemovedIffDies | src/state.js:83-89 | a step removes a star exactly when it takes it from living to not living |
| Simulation.DeathsAreRemovals | src/state.js:83-89 | the stars a step leaves dead are exactly those `removeStar` was called on |
| Simulation.BucketsAreDistinct | src/state.js:20-23 | under the state's invariant, each bucket holds no star twice and the two share none |
| Simulation.DroppedAreNotKept | src/state.js:64-67 | the bucket a rotation drops shares no star with the one it keeps |
| Simulation.StepKeepsLivingUnlessRemoved | src/state.js:83-89 | a star leaves a step living exactly when it entered living and was not removed; a survivor overlaps the bounds and is younger than the lifespan |
| Simulation.DeadStarIsNeverRemoved | src/state.js:101-104 | a star no longer living is never removed again, over any sequence of ticks |
| Simulation.RemovedAtMostOnce | src/state.js:83-89 | over any sequence of ticks, `removeStar` (and the decrement of `size`) happens at most once per star |
| Simulation.KeptStep | src/state.js:83-89 | a step that does not remove a star only advances it |
| Simulation.RestingStarIsKept | src/state.js:101-104 | a living star at rest inside the bounds and still younger than the lifespan after the step is not removed |
| Simulation.RestingStarSurvives | src/state.js:83-89 | such a star comes out of the step living, at the same position |
| Simulation.RestingStepStaysAtRest | src/state.js:83-89 | such a star also keeps a zero velocity |
| Simulation.StepAdvancesAge | src/state.js:84 | a visit ages the star by the elapsed time in seconds and keeps its acceleration |
| Simulation.LiveCountAppend | src/state.js:55-59 | the living stars of two buckets add up |
| Simulation.LiveAfterStep | src/state.js:83-89 | after a tick, the living stars among those visited are the living ones before it less those `removeStar` was called on |
| Simulation.TickLiveCount | src/state.js:76-89 | over one tick, living stars after plus removals plus, on a rotation, the living stars of the dropped bucket equal the living stars before: the rotation's drop is the only count `removeStar` misses |
| Simulation.AddStarCounts | src/state.js:20-23 | adding a living star keeps `size` equal to the living stars held plus `leaked` |
| Simulation.RotationDropsLivingStar | src/state.js:76-89 | with a one-second lifespan and 400 ms ticks, a star added when the accumulator is at 0.8 s is still living, at age 0.8 s, when the second rotation after it drops its bucket |
| Simulation.ShouldRemoveStarAsWritten | src/state.js:101-104 | with `living` never assigned, the as-written test never removes a star |
| Simulation.AsWrittenAgreesWhenAssigned | src/state.js:101-104 | once `living` and `age` are assigned, the as-written test and `ShouldRemoveStar` agree |
| Simulation.StrayStarIsNeverRemovedAsWritten | src/state.js:101-104 | a new star outside the view is removed by the corrected test but never by the as-written one |
| Simulation.State.Visits | src/state.js:55-59 | `eachStar` visits the older bucket, then the newer one, each in insertion order |
| Simulation.State.constructor | src/state.js:8-15 | two empty buckets, count 0, accumulator 0; the count invariant `Counted` holds with nothing leaked |
| Simulation.State.AddStar | src/state.js:20-23 | the star is appended to the newer bucket and counted; the older bucket, the accumulator and `leaked` are unchanged |
| Simulation.State.RemoveStar | src/state.js:31-34 | the star is marked not living and nothing else about it changes; the count drops by 1; the buckets keep the star |
| Simulation.State.HasRoom | src/state.js:47-49 | true exactly when the count is below MAX_STAR_COUNT |
| Simulation.State.CountStars | src/state.js:39-41 | no contract of its own: it returns the live count `size`, which `HasRoom` compares with MAX_STAR_COUNT |
| Simulation.State.ShiftStars | src/state.js:64-67 | the newer bucket becomes the older one and a new empty bucket follows; count and accumulator are unchanged, so the living stars of the dropped bucket stay counted and `leaked` grows by their number |
| Simulation.State.VisitStar | src/state.js:84-88 | the star's new value is `StepStar` of its old value; the count drops by 1 exactly when the star went from living to not living |
| Simulation.State.VisitAt | src/state.js:83-89 | pass i of the bucket loop: star i takes its stepped value; every other star keeps its value |
| Simulation.State.TickBucket | src/state.js:83-89 | after one bucket's pass, its stars hold `StepAll` of their old values, and the count has dropped by `Removals` of them |
| Simulation.State.Age | src/state.js:77-82 | the accumulator gains elapsed/1000; once it reaches LIFESPAN the buckets rotate once and LIFESPAN is taken off; the count is unchanged, and `leaked` grows by the living stars of a dropped bucket |
| Simulation.State.TickAll | src/state.js:83-89 | both buckets hold `StepAll` of the values in visiting order; the count drops by `Removals` of them |
| Simulation.State.Tick | src/state.js:76-91 | the kept stars (the newer bucket alone after a rotation) hold `StepAll` of their old values; the count drops by their `Removals` and never grows; `leaked` grows by the living stars a rotation drops, and `Counted` (`size` is the living stars held plus `leaked`) is kept |
| Simulation.State.TickShrinks | src/state.js:76-91 | one tick never increases the count, and leaves the buckets either as they were or rotated |
| Control.Steps | src/controller.js:63-66 | the number of passes of `while (t >= step) t -= step`: none below one step, otherwise the n with n*step <= t < (n+1)*step |
| Control.DrainedIs | src/controller.js:63-66 | taking the step off n times takes off n*step |
| Control.StepsExact | src/controller.js:63-66 | a count that leaves less than one step, and nothing negative, is the number of whole steps |
| Control.StepsLeaveRemainder | src/controller.js:63-66 | from a non-negative accumulator the loop leaves a remainder in [0, step) |
| Control.CreateStar | src/controller.js:144-156 | a new star at the position with the sampled acceleration and colour and the next id |
| Control.IssueNext | src/star.js:22 | appending a star whose id is the counter's next value keeps the ids distinct and below the advanced counter |
| Control.IssuedAfterTick | src/state.js:64-67 | a tick, which keeps the buckets or drops the older one, keeps the held stars' ids distinct and below the counter |
| Control.IdsIssuedMeans | src/star.js:22 | the recursive id invariant holds exactly when every id is below the counter and the ids increase strictly in visiting order, so no two held stars share an id |
| Control.IssuedSuffix | src/state.js:64-67 | dropping the older bucket keeps the id invariant of the stars that remain |
| Control.NumberedFromMeans | src/star.js:22 | stars numbered from a first id by the recursive predicate are exactly those whose i-th id is that first id plus i |
| Control.Controller.constructor | src/controller.js:23-40 | the draw position is the centre of the view; not running; last time, delta and star timer are 0; the given state's stars must have distinct ids already issued by the counter |
| Control.Controller.UpdateDrawPosition | src/controller.js:45-47 | the draw position becomes the new one |
| Control.Controller.Step | src/controller.js:63-66 | one `tick(TIMESTEP)` is recorded and TIMESTEP is taken off delta; the count never grows and no star joins the buckets; the held stars keep distinct ids below the counter |
| Control.Controller.Simulate | src/controller.js:63-66 | runs exactly `Steps(delta, TIMESTEP)` ticks, in order, each with TIMESTEP and the bounds; a non-negative delta ends in [0, TIMESTEP); the count never grows |
| Control.Controller.AddNewStar | src/controller.js:69-72 | a new star with the next id is appended to the newer bucket and counted; the held stars keep distinct ids below the counter |
| Control.Controller.SpawnOne | src/controller.js:68-77 | a star is added exactly when there is room; otherwise state and ids are unchanged; SPAWN_INTERVAL is taken off the timer either way |
| Control.Controller.Spawn | src/controller.js:68-77 | `Steps(starTimer, SPAWN_INTERVAL)` passes; the stars added are min(passes, room), appended to the newer bucket, the i-th of them with id `ids.next + i`, the trace records their spawns and then the skips; the timer ends in [0, SPAWN_INTERVAL) from a non-negative start; the held ids stay distinct |
| Control.Controller.HandleTick | src/controller.js:49-80 | both accumulators gain the time since the last call; the trace is all ticks, then all spawns, then skips; the new stars end the newer bucket, the i-th of them with id `ids.next + i`; both remainders are below one interval; the held ids stay distinct |
| Control.Controller.FillStars | src/controller.js:85-92 | adds max(0, MAX_STAR_COUNT - count) stars to the newer bucket, the i-th of them with id `ids.next + i`, and then has no room; the held ids stay distinct |
| Control.Controller.Start | src/controller.js:97-111 | running afterwards; the last time is reset to `now` only if it was not running |
| Control.Controller.Stop | src/controller.js:116-119 | not running afterwards |
| Control.Controller.Toggle | src/controller.js:121-127 | flips `running`; starting resets the last time |
| Colors.Opacity | src/color.js:106-108 | the same channels with the new alpha |
| Colors.FromString | src/color.js:36-47 | only a string starting `#`, `rgb(` or `rgba(` can give a colour; each prefix dispatches to its parser, in that order |
| Colors.UpperCase | src/color.js:55 | lower-case ASCII letters move to upper case; every other character is unchanged |
| Colors.Upper | src/color.js:55 | `toUpperCase` applied character by character, keeping the length |
| Colors.IndexOf | src/color.js:61-63 | the position in the hex digit string, between -1 and 15 |
| Colors.IndexOfSearches | src/color.js:54 | `IndexOf` finds a character exactly when it is in `0123456789ABCDEF`, at its position there |
| Colors.DigitAt | src/color.js:61-63 | reading past the end finds nothing (-1); a digit found is the hex digit at that position |
| Colors.Expand | src/color.js:56-60 | a 4-character string has each digit doubled; other lengths are unchanged |
| Colors.FromHexStringAsWritten | src/color.js:53-66 | never fails; alpha 1; channels between -17 and 255 |
| Colors.HexAsWrittenAcceptsBadDigits | src/color.js:61-63 | `#GG0000` yields red -17 as written, while the corrected parser rejects it |
| Colors.FromHexString | src/color.js:53-66 | succeeds exactly on `#rgb`/`#rrggbb` with hex digits of either case; then every channel is in 0..255, alpha is 1, and the result is what the source computes |
| Colors.HexLong | src/color.js:61-63 | for `#rrggbb`, each channel is 16 times its first digit plus its second |
| Colors.HexShort | src/color.js:56-63 | for `#rgb`, each channel is 17 times its digit |
| Colors.HexCaseInsensitive | src/color.js:55 | letter case does not change the result |
| Colors.DigitSpan | src/color.js:73 | `\d+` is greedy: the longest all-digit prefix, followed by no digit |
| Colors.SpaceSpan | src/color.js:73 | `\s*` is greedy: the longest white-space prefix |
| Colors.RgbGroups | src/color.js:73 | the `rgb` pattern has 3 capturing groups |
| Colors.RgbaGroups | src/color.js:86 | the `rgba` pattern has 4 capturing groups |
| Colors.MatchAt | src/color.js:86 | a match captures one valid numeral per group and consumes part of the text |
| Colors.FirstMatch | src/color.js:73 | the leftmost position at which the pattern matches, or none exactly when it matches nowhere |
| Colors.Exec | src/color.js:73 | a match gives one valid numeral per capturing group |
| Colors.ParseFloat | src/color.js:91 | non-negative; a numeral without a point is its integer value |
| Colors.ParseInt | src/color.js:6-8 | the integer part: `parseFloat` of the same numeral truncated, and equal to it when there is no fraction |
| Colors.FromRgbString | src/color.js:72-79 | `None` exactly when the pattern matches nowhere in the string; otherwise non-negative channels and alpha 1 |
| Colors.FromRgbaString | src/color.js:85-92 | `None` exactly when the pattern matches nowhere in the string; otherwise non-negative channels and alpha |
| Colors.NatText | src/color.js:99 | the decimal text of a number is non-empty and all digits |
| Colors.NatTextValue | src/color.js:99 | reading the decimal text of a number back gives the number |
| Colors.IntText | src/color.js:99 | a minus sign exactly for a negative number, then digits that read back as its size |
| Colors.ToString | src/color.js:98-100 | the text starts with `rgba(` and ends with `)`; `RoundTrip` states that it reads back as the colour |
| Colors.LitStep | src/color.js:86 | a literal token consumes exactly its text |
| Colors.SpacesStep | src/color.js:73 | `\s*` consumes exactly a run of white space followed by something else |
| Colors.IntStep | src/color.js:86 | `(\d+)` captures exactly a digit run followed by a non-digit |
| Colors.DecimalStep | src/color.js:86 | `(\d+(?:\.\d+)?)` captures exactly a numeral followed by a character that is neither a digit nor a point |
| Colors.CommaStep | src/color.js:86 | `,\s*` consumes a comma and the white space after it |
| Colors.NumberStep | src/color.js:86 | `(\d+)\s*` captures a digit run and consumes the white space up to the comma |
| Colors.SpacedFieldStep | src/color.js:73 | `(\d+)\s*,\s*` captures the number of a field whatever white space surrounds its comma |
| Colors.FieldStep | src/color.js:86 | `(\d+)\s*,\s*` captures the number in a printed field `d, ` |
| Colors.NonDigitThirdField | src/color.js:73 | two fields followed by a character that is neither a digit nor a space do not match `rgb` |
| Colors.MatchRedField | src/color.js:86 | the `rgba` pattern matches the text after `rgba(` field by field, capturing the four numbers, whatever white space surrounds the commas |
| Colors.ReadRgba | src/color.js:85-92 | `rgba(` then three decimal integers and a decimal alpha, with any white space around the commas, reads as those channels and the alpha's value |
| Colors.ReadPrintedRgba | src/color.js:85-92 | `fromRGBAString` reads printed fields back as the channels and the alpha's value |
| Colors.RoundTrip | src/color.js:98-100 | printing a colour with non-negative channels and parsing the text gives the colour back, when the alpha's text is a decimal numeral denoting it |
| Colors.RoundTripOpaque | src/color.js:98-100 | the same round trip for an opaque colour, whose alpha prints as `1` |
| Colors.ReadRgb | src/color.js:72-79 | `rgb(r, g, b)` in the printed layout reads as the opaque colour (r, g, b) |
| Colors.MatchSpacedRgb | src/color.js:73 | the `rgb` pattern matches three decimal integers with any white space around the commas, capturing the three numbers |
| Colors.ReadSpacedRgb | src/color.js:72-79 | `rgb(` then three decimal integers, with any white space around the commas, reads as the opaque colour they denote |
| Colors.RgbaDispatch | src/color.js:40-45 | a string starting with `rgba(` goes to `fromRGBAString` (it does not start with `rgb(`) |
| Colors.HexLongExamples | src/__tests__/color.test.js:5-13 | `#1234AB` and `#1234ab` give (18, 52, 171) |
| Colors.HexShortExamples | src/__tests__/color.test.js:15-23 | `#AB2` and `#ab2` give (170, 187, 34) |
| Colors.RgbExample | src/__tests__/color.test.js:25-28 | `rgb(18, 52, 171)` gives (18, 52, 171) |
| Colors.SpacedRgbExample | src/color.js:73 | `rgb(18,52 ,  171)` gives (18, 52, 171): the white space around the commas is optional and of any length |
| Colors.RgbaExample | src/__tests__/color.test.js:30-33 | `rgba(18, 52, 171, 0.2)` gives (18, 52, 171, 0.2) |
| Colors.UnknownPrefixExamples | src/__tests__/color.test.js:36-37 | `abc` and `invalid` are not colours |
| Colors.EmptyRgbExample | src/__tests__/color.test.js:38 | `rgb()` is not a colour |
| Colors.NonDigitRgbExample | src/__tests__/color.test.js:39 | `rgb(1, 2, E)` is not a colour |
| KonamiCode.Advance | src/konami.js:32-39 | the index goes up by 1 exactly on the expected key; otherwise it drops to 1 in the second state and to 0 elsewhere |
| KonamiCode.Next | src/konami.js:62-69 | after a keypress the index is still a valid state: 0, 1 or one more than before |
| KonamiCode.FiresExactly | src/konami.js:42-54 | the action fires exactly on ENTER in the last state |
| KonamiCode.Run | src/konami.js:62-70 | over a key sequence the index stays valid and the action fires at most once per key |
| KonamiCode.RunAppend | src/konami.js:62-70 | feeding two key sequences one after the other is feeding their concatenation |
| KonamiCode.PrefixAdvances | src/konami.js:42-54 | any proper prefix of the code, typed from the start, reaches its length without firing |
| KonamiCode.FullCodeFiresOnce | src/konami.js:42-54 | the whole code typed from the start fires exactly once and returns to the start |
| KonamiCode.ExtraUpIsMissed | src/konami.js:44 | an extra leading UP sends the recogniser back to 0, so the code that follows does not fire |
| KonamiCode.NoStartNoFire | src/konami.js:43 | from the start, keys with no UP never fire |
| KonamiCode.Konami.constructor | src/konami.js:20-24 | the index starts at 0 |
| KonamiCode.Konami.HandleKeypress | src/konami.js:62-70 | the index moves as `Next` says; the action runs exactly when the code completes |

## Left out

- Rendering, the DOM, `requestAnimationFrame`, event bindings (`installBindings`), the debug overlay and logging are not modelled. `Start` only sets the flag and the last time; scheduling the next frame is not modelled.
- `calculateCursorVelocity` and the velocity-biased branch of `createStar` (normalise, rotate by a random angle, rescale) are not modelled. `HandleTick` and `FillStars` use the unbiased branch, so a star keeps its sampled acceleration.
- `Math.sqrt` is the parameter `sqrt`. Results that depend on its value assume an exact square root (`IsSqrt`).
- Randomness (`Math.random`, `getRandomVector`, `getColor`) comes in as inputs: the shape roll and the `draw` sequence of samples. src/utils.js is not part of this model.
- JavaScript numbers are exact reals. Rounding in floating-point arithmetic, and in `parseInt`/`parseFloat`, is not modelled.
- How JavaScript prints a non-integer number is the parameter `numberText` of `ToString`.
- Colors.UpperCase, Colors.Upper: `toUpperCase` is modelled for ASCII letters only, and always keeps the length. JavaScript's full Unicode mapping can lengthen a string ('ß' becomes 'SS'), which changes what `Expand` and `FromHexStringAsWritten` see for such input.
- The regular expressions are matched greedily without backtracking. This equals `RegExp.exec` for these two patterns only, since no repeated class can consume a character the next token needs.
- `toString` of vectors and stars (debug output) is not modelled.
- `Konami.activate` runs a callback the model cannot see; the model counts its calls in `activations`.
- Control.Controller.Spawn: requires a positive `SPAWN_INTERVAL`. With a non-positive one the source's loop never ends.
- Control.Controller.HandleTick: requires a positive `SPAWN_INTERVAL`, for the same reason.
- Control.Controller.Spawn: states the count, order and id of the stars added, but not the rest of each star's value (position, acceleration, colour, shape). `Control.Controller.SpawnOne` and `Control.Controller.AddNewStar` state those per call.
- Control.Controller.FillStars: states the count, order and id of the stars added, not the rest of each star's value. `Control.Controller.AddNewStar` states that per call.
- Control.Controller.Step: states only that the count does not grow and that the buckets stay or rotate. The full effect of one tick is `Simulation.State.Tick`.
- Control.Controller.Simulate: states the number and order of ticks and that the count does not grow, not the star values after them.
- Control.Controller.HandleTick: states that the count grows by at most the stars added, not its exact value after the ticks.
- `MAX_STAR_COUNT` and `LIFESPAN` are absent from the table in src/variables.js:15-26, so as written both read as `undefined`. Then `countStars() < undefined` is false, so `hasRoom` never holds (src/state.js:48): `handleTick` spawns no star (src/controller.js:69) and `fillStars` adds none (src/controller.js:87). And `this.delta >= undefined` is false, so the buckets never rotate (src/state.js:79) and no star reaches the lifespan. The model takes both values as fields of `Settings` and does not model these consequences.
- Simulation.State.Tick: does not promise that `size` is the number of living stars held, because the code breaks it. The rotation runs before the stars are ticked (src/state.js:79-89), so a star the rotation drops while still living never goes through `removeStar` and stays counted; `hasRoom` then sees a count that only drifts upwards. The model follows the code and states the drift exactly: the ghost count `leaked` of such stars, and `Counted` (`size` is the living stars held plus `leaked`), which holds from the constructor and is kept by `Tick` and, through `AddStarCounts`, by `AddStar`. `RotationDropsLivingStar` shows a case where `leaked` grows. The controller's invariant does not carry `Counted`.
- Colors.IntText, Colors.RoundTrip: `IntText` always prints digits. JavaScript prints integers of 1e21 and more in exponent form (`1e+21`), which the rgba pattern does not read back, so in JavaScript the round trip holds only for channels below 1e21.
- Stars.Star.Tick: also advances `age` by `elapsed`, which src/star.js:59-63 does not do; this is the correction of the second finding, without which no star ever reaches the lifespan.
- Stars.AdvanceSpec: states the age increment of the corrected `Advance`, not of src/star.js:59-63, which leaves `age` unassigned.
- Vectors.Scale, Vectors.Distance, Vectors.Magnitude, Vectors.Clamp, Boxes.Overlaps, Stars.Advance, Simulation.StepStar and Simulation.State.CountStars carry no contract of their own: a contract there would be repeated at every use in the heavier proofs, so their properties are lemmas beside them, named in their rows.

The system's design allows eager removal of retired stars. The code instead
marks a removed star as not living and keeps it in its bucket until a
rotation drops it, and the model follows the code. Everywhere else the model
also follows the code, except for the two defects listed under Findings and
the two settings that src/variables.js lacks, described under "## Left out".

## Findings

| source | as written | input that shows it | evidently intended | confidence | as-written member | corrected member |
|---|---|---|---|---|---|---|
| src/color.js:61-65 | `fromHexString` never returns null. A character outside the hex digits, or a missing one, counts as -1 from `indexOf`. | `#GG0000` gives the colour (-17, 0, 0) | return null for a string that is not `#rgb` or `#rrggbb`, as the documented `Color\|null` result says | high (not executed) | Colors.HexAsWrittenAcceptsBadDigits | Colors.FromHexString |
| src/state.js:101-104 | `shouldRemoveStar` reads `living` and `age`, but src/star.js never assigns either. `!undefined` is true, so every star is kept forever. | a new star at (100, 100) with a 10x10 view | a new star is living with age 0, and `tick` advances its age, so a star outside the view is removed | high (not executed) | Simulation.StrayStarIsNeverRemovedAsWritten | Stars.Star.constructor |
