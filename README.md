# Last War monitor — screen verification and tap sequencing in Dafny

This project models the core of the Last War game monitor. The monitor is a
desktop tool that watches an Android phone over adb. It finds a target text
on the screen, by OCR or from the UI dump. When it finds one, it plays a
five-step tap sequence:

1. tap the found text;
2. tap the centre;
3. verify a "step3" pixel pattern and tap it;
4. verify "step4" and tap it;
5. wait for "step5" and tap repeatedly.

It resets the game with a burst of four "back" taps when a step fails and
after step 5. A stop flag, raised by another thread, interrupts the
sequence.

The model covers two builds of `GameMonitor`, the `_internal` build and the
`.app` build. They differ in many details:

- a missing pattern fails in `_internal` and passes in `.app`;
- `_internal` stops the pixel scan early;
- `.app` reads OCR at half scale;
- `_internal` adds an adaptive re-verification policy;
- `.app` runs step 5 single-threaded, with polling and a click burst.

The model also covers three small tools that share the same rules:

- the step-5 tester (`test_step5.py`);
- the pixel-colour tool (`get_pixel_colors.py`), which prints pattern configurations;
- the simple text monitor (`monitor_game_simple_gui.py`), with its notification throttle.

How the device and the outside world are represented:

- A screenshot is a `Frame`, a function from a point to an optional RGB colour. `None` means that reading the pixel raises.
- The device is an `Env`. It holds the screenshots by capture number, the pattern table, the tolerance and ratio, and the stop flag as seen at each poll.
- The device state is a `World`: the append-only tap log, the number of captures, the cached screenshot, and the number of stop polls.
- OCR output is given as a `Recognised` record of words, boxes and confidences.
- Clocks become counts. These are the rounds and taps that step 5's time limits allow, and the observation times of the simple monitor.
- Exceptions the source lets escape become explicit outcomes: `Raised`, `Crashed(step)`, `Raises`.

Each build's `GameMonitor` is a `class`. Its methods change the tap log, the
capture count, the cache, the stop flag, `target_text` and
`last_found_coords`. Each method is proved against a specification function
on `World`. The properties, such as which taps are issued, how many checks
run and when the game is reset, are stated on those functions and in lemmas.

## Model

Source paths are relative to the repository root.

| member | source | states |
|---|---|---|
| Dimension.ParseDimension | dist/LastWarMonitor/_internal/monitor_game.py:79-113 | `None` gives no value, and no other non-string does. A number always gives pixels. A string raises only when it ends in `%` after stripping, or when `float()` reads it as an infinity, whose `int()` raises `OverflowError` outside the `except ValueError`. The `.app` build (lines 63-97) is the same code. |
| Dimension.WholeNumberString | dist/LastWarMonitor/_internal/monitor_game.py:106-111 | The string `"n"` gives `n` pixels, except `"1"`, which falls in the `0 ≤ v ≤ 1` branch and gives the whole `total`. |
| Dimension.FractionWithinTotal | dist/LastWarMonitor/_internal/monitor_game.py:92-96 | A number `0 ≤ v ≤ 1` with a non-negative total gives pixels between 0 and `total`. |
| Dimension.PercentOfFraction | dist/LastWarMonitor/_internal/monitor_game.py:92-104 | For `0 ≤ p ≤ 100`, the percentage `p` gives the same pixels as the number `p/100`. |
| Dimension.PercentIsFraction | dist/LastWarMonitor/_internal/monitor_game.py:92-104 | For `N ≤ 100`, the string `"N%"` is read exactly like the number `N/100`. |
| Dimension.PercentAboveHundred | dist/LastWarMonitor/_internal/monitor_game.py:92-104 | For `N > 100` and a total of at least 2, `"N%"` and the number `N/100` give different pixels. The number is taken as pixels, but the percentage scales the total. |
| Dimension.ScaledPastOne | dist/LastWarMonitor/_internal/monitor_game.py:92-104 | For `x > 1` and a total of at least 2, the percentage `100·x` gives more pixels than the number `x`. |
| Dimension.MalformedPercentRaises | dist/LastWarMonitor/_internal/monitor_game.py:101-104 | A string ending in `%` whose number does not parse raises, because the conversion is outside the `try`. |
| Dimension.NonNumericString | dist/LastWarMonitor/_internal/monitor_game.py:106-113 | A stripped string that has no `%` and does not parse as a number gives no value. |
| Dimension.NumericString | dist/LastWarMonitor/_internal/monitor_game.py:106-111 | A string without `%` that `float()` reads as a finite number is read exactly like that number. |
| Dimension.NonFiniteString | dist/LastWarMonitor/_internal/monitor_game.py:106-113 | A string `float()` reads as NaN gives no value, because `int(nan)` raises the caught `ValueError`. One it reads as an infinity raises, because `int(inf)` raises `OverflowError`. |
| Dimension.PercentNotFloat | dist/LastWarMonitor/_internal/monitor_game.py:102-108 | `float()` accepts no string ending in `%`, so the two branches never overlap. |
| Dimension.NonFinitePercentRaises | dist/LastWarMonitor/_internal/monitor_game.py:102-104 | A percentage whose number is an infinity or NaN raises for every total, since `int()` of the scaled value raises outside any `try`. |
| Dimension.DigitsStringStrip | dist/LastWarMonitor/_internal/monitor_game.py:99 | A digit string, with or without a trailing `%`, is unchanged by `strip()`. |
| Dimension.TruncOfInt | dist/LastWarMonitor/_internal/monitor_game.py:96 | `int()` of a whole number is that number. |
| OcrRegion.CropBox | dist/LastWarMonitor/_internal/monitor_game.py:179-211 | Without a region, the crop is the full frame. Otherwise the far edges are clamped to the frame (`right ≤ width`, `bottom ≤ height`); a negative `left`/`top` is kept, as PIL's `crop` allows. A box with `right < left` or `bottom < top`, which PIL's `crop` refuses, gives no crop. A missing width or height runs to the frame's edge. |
| OcrRegion.CropStartsAtOffset | dist/LastWarMonitor/_internal/monitor_game.py:180-201 | When `left` and `top` parse to `l` and `t`, the crop starts at `(l, t)`, which is the offset added to found coordinates. |
| OcrRegion.FractionalRegionInsideFrame | dist/LastWarMonitor/_internal/monitor_game.py:179-201 | A region given in fractions of the frame yields a crop inside the frame. |
| OcrLocator.LocateWords | dist/LastWarMonitor/_internal/monitor_game.py:328-361 | A run is found exactly when some index qualifies: the words match the target's words case-insensitively and the first word's confidence is positive. The centre is that of the first qualifying run, spanning from its first word's box to its last word's box. An empty target whose confidences are all ≤ 0 gives the `IndexError` outcome. |
| OcrLocator.FirstRun | dist/LastWarMonitor/_internal/monitor_game.py:336-346 | Returns the least qualifying index, or none exactly when no index qualifies. |
| OcrLocator.NoRunMeans | dist/LastWarMonitor/_internal/monitor_game.py:336-361 | When no run is found, no index qualifies. For an empty target, every confidence is then ≤ 0. |
| OcrLocator.RunMeans | dist/LastWarMonitor/_internal/monitor_game.py:336-356 | A found run qualifies and is not the all-≤ 0 empty case. Its last index is `i + k − 1`. |
| OcrLocator.FirstRunAgrees | dist/LastWarMonitor/_internal/monitor_game.py:336-346 | Two recognitions whose indices qualify alike have the same first run. |
| OcrLocator.SingleWordCentreInsideBox | dist/LastWarMonitor/_internal/monitor_game.py:348-359 | For a one-word target found in boxes of non-negative size, the centre lies inside the first qualifying word's box. |
| OcrLocator.CaseOfRecognisedTextIgnored | dist/LastWarMonitor/_internal/monitor_game.py:340-346 | Lower-casing the recognised words does not change the result. |
| OcrLocator.EmptyWordsQualify | dist/LastWarMonitor/_internal/monitor_game.py:336-346 | An empty target qualifies exactly at the indices whose confidence is positive. |
| OcrLocator.LowerIdempotent | dist/LastWarMonitor/_internal/monitor_game.py:341 | Lower-casing twice is lower-casing once. |
| OcrLocator.FirstRunFrom | dist/LastWarMonitor/_internal/monitor_game.py:336-346 | From `i` on: the least qualifying index, or none exactly when none qualifies. |
| OcrLocator.LowerAll | dist/LastWarMonitor/_internal/monitor_game.py:341 | One lower-cased word per word, in order. |
| Geometry.MapBack | dist/LastWarMonitor.app/Contents/Resources/monitor_game.py:218-224 | A mapped-back point minus the crop offset is `scale ·` the OCR point. The scale is 2 in `.app` and 1 in `_internal` (lines 301-305). |
| Geometry.DownscaleMapBack | dist/LastWarMonitor.app/Contents/Resources/monitor_game.py:198-224 | For a positive scale, downscaling a mapped-back point gives the OCR point back, so mapping back loses nothing. |
| Geometry.MapBackInside | dist/LastWarMonitor.app/Contents/Resources/monitor_game.py:198-224 | At scale 1 or 2, a point inside the resized crop maps back inside the crop box. |
| Geometry.MapBackDownscale | dist/LastWarMonitor.app/Contents/Resources/monitor_game.py:198-224 | Downscaling and mapping back loses less than `scale` pixels per axis, and nothing at scale 1. |
| Geometry.Midpoint | dist/LastWarMonitor/_internal/monitor_game.py:356-357 | The floor midpoint lies between the two ends. |
| UiLocator.FindTextCoordinatesUi | dist/LastWarMonitor.app/Contents/Resources/monitor_game.py:280-292 | There is no result exactly when the pattern `text="…" … bounds="[x1,y1][x2,y2]"` matches nowhere. Otherwise the result is the centre of the bounds of a match that no match starting further left precedes, and that no longer `[^>]*` stretch from the same start extends (leftmost, greedy). The `_internal` build (lines 363-375) is the same code. |
| UiLocator.UiMatch | dist/LastWarMonitor.app/Contents/Resources/monitor_game.py:283-289 | `re.search`: the leftmost start that matches, its longest (greedy) end, or none exactly when nothing matches. |
| UiLocator.UiMatchFrom | dist/LastWarMonitor.app/Contents/Resources/monitor_game.py:283-289 | The leftmost match from a start position, with its greedy end. |
| UiLocator.MatchStartingAt | dist/LastWarMonitor.app/Contents/Resources/monitor_game.py:283-289 | From a fixed start, the longest end that matches, or none exactly when none does. |
| UiLocator.GreedyIsLast | dist/LastWarMonitor.app/Contents/Resources/monitor_game.py:283-289 | The last bounds mark before the first `>` is a match, and no later end matches. |
| UiLocator.NoMatchWithoutGreedy | dist/LastWarMonitor.app/Contents/Resources/monitor_game.py:283-289 | With no bounds mark before the first `>`, nothing matches from that start. |
| UiLocator.NoGtUpTo | dist/LastWarMonitor.app/Contents/Resources/monitor_game.py:283-289 | `[^>]*` reaches exactly up to the first `>`. |
| UiLocator.LastMark | dist/LastWarMonitor.app/Contents/Resources/monitor_game.py:283-289 | The last marked position in a window, or none when no position is marked. |
| UiLocator.BoundsMarks | dist/LastWarMonitor.app/Contents/Resources/monitor_game.py:283-289 | Marks exactly the positions where `bounds="[x1,y1][x2,y2]"` parses. |
| UiLocator.DigitRun | dist/LastWarMonitor.app/Contents/Resources/monitor_game.py:283-289 | `\d+` takes the maximal run of ASCII digits. |
| UiLocator.NumAt | dist/LastWarMonitor.app/Contents/Resources/monitor_game.py:283-289 | A number is read only over a non-empty run of ASCII digits. |
| UiLocator.Groups | dist/LastWarMonitor.app/Contents/Resources/monitor_game.py:283-289 | The four numbers of the bounds, each read between its separators. |
| UiLocator.Centre | dist/LastWarMonitor.app/Contents/Resources/monitor_game.py:288-289 | The floor centre lies inside well-ordered bounds. |
| UiLocator.LocateRenderedNode | dist/LastWarMonitor.app/Contents/Resources/monitor_game.py:280-292 | A dump whose node reads `text="target" bounds="[x1,y1][x2,y2]">…` yields the centre of those bounds. The dump may go on with anything, since the match stops at the first `>`. |
| UiLocator.NodeMatches | dist/LastWarMonitor.app/Contents/Resources/monitor_game.py:283-289 | Such a node matches from its start, at the end of its bounds. |
| UiLocator.NoLaterBounds | dist/LastWarMonitor.app/Contents/Resources/monitor_game.py:283-289 | Nothing after the node's `>` can extend the match. |
| UiLocator.BoundsAtRendered | dist/LastWarMonitor.app/Contents/Resources/monitor_game.py:283-289 | Printed bounds parse back to themselves. |
| UiLocator.GroupsOfPieces | dist/LastWarMonitor.app/Contents/Resources/monitor_game.py:283-289 | Printed numbers and separators read back as the same numbers. |
| UiLocator.PrintedPieces | dist/LastWarMonitor.app/Contents/Resources/monitor_game.py:283-289 | A printed bounds string splits into its number and separator pieces. |
| UiLocator.GroupsStep | dist/LastWarMonitor.app/Contents/Resources/monitor_game.py:283-289 | Reading one number and its separator, then the rest, reads the whole list. |
| UiLocator.NumAtPrinted | dist/LastWarMonitor.app/Contents/Resources/monitor_game.py:283-289 | A printed number followed by a non-digit reads back as itself. |
| UiLocator.NumSepPrinted | dist/LastWarMonitor.app/Contents/Resources/monitor_game.py:283-289 | A printed number followed by its separator reads back, with the separator after it. |
| UiLocator.DigitRunOfDigits | dist/LastWarMonitor.app/Contents/Resources/monitor_game.py:283-289 | The digit run over a printed number is that number's length. |
| UiLocator.SplitLiteral | dist/LastWarMonitor.app/Contents/Resources/monitor_game.py:283-289 | A literal `u + v` at `i` is `u` at `i` followed by `v`. |
| UiLocator.MarkedBounds | dist/LastWarMonitor.app/Contents/Resources/monitor_game.py:283-289 | A position where bounds parse is marked. |
| UiLocator.BoundsStartWithB | dist/LastWarMonitor.app/Contents/Resources/monitor_game.py:283-289 | Bounds never parse where there is no `b`. |
| UiLocator.NoBInPrinted | dist/LastWarMonitor.app/Contents/Resources/monitor_game.py:283-289 | Printed bounds numbers contain no `b`. |
| UiLocator.NoBInDigits | dist/LastWarMonitor.app/Contents/Resources/monitor_game.py:283-289 | A printed number contains no `b`. |
| UiLocator.NoBAfterOpen | dist/LastWarMonitor.app/Contents/Resources/monitor_game.py:283-289 | After its opening `b`, a printed bounds attribute contains no `b`. |
| UiLocator.KeyOpensNode | dist/LastWarMonitor.app/Contents/Resources/monitor_game.py:283-289 | The `text="…"` key occurs at the start of the node. |
| ScreenSearch.TargetTexts | dist/LastWarMonitor/_internal/monitor_game.py:53-56 | A single target becomes a one-element list, and a list is kept as it is. The `.app` build (lines 40-43) is the same code. |
| ScreenSearch.SearchSpec | dist/LastWarMonitor.app/Contents/Resources/monitor_game.py:294-309 | Found exactly when some target is a substring of the content. The first such target in list order is stored. UI coordinates are computed only when OCR is off. Nothing changes when no target matches. The `_internal` build (lines 377-392) is the same code. |
| ScreenSearch.SearchTargets | dist/LastWarMonitor.app/Contents/Resources/monitor_game.py:298-309 | The target loop computes `SearchSpec`. |
| ScreenSearch.LocateTargets | dist/LastWarMonitor/_internal/monitor_game.py:295-307 | The OCR target loop computes the located pass. |
| ScreenSearch.LocateFromBelongs | dist/LastWarMonitor/_internal/monitor_game.py:295-307 | A stored target is contained in the recognised text. Stored coordinates are the mapped centre of a located target. |
| ScreenSearch.LocateKeepsPairing | dist/LastWarMonitor/_internal/monitor_game.py:295-307 | Coordinates change only together with a newly stored target. |
| ScreenSearch.FirstFoundWins | dist/LastWarMonitor/_internal/monitor_game.py:295-307 | The first contained target whose words are located decides the pass. |
| ScreenSearch.UnplacedKeepsCoords | dist/LastWarMonitor/_internal/monitor_game.py:295-307 | A target that is contained but cannot be placed keeps the previous `last_found_coords`. |
| ScreenSearch.OcrSearchMixesTargets | dist/LastWarMonitor/_internal/monitor_game.py:295-307 | The OCR pass can store one target's coordinates while the search stores another target's text. |
| ScreenSearch.OcrSearchAgrees | dist/LastWarMonitor/_internal/monitor_game.py:295-307 | When no earlier target is contained, the OCR pass and the search store the same target. |
| ScreenSearch.PlacedInsideCrop | dist/LastWarMonitor/_internal/monitor_game.py:295-307 | At scale 1, coordinates placed by the pass lie inside the crop box. |
| ScreenSearch.SkipUncontained | dist/LastWarMonitor/_internal/monitor_game.py:295-307 | Targets that are not contained are passed over. |
| ScreenSearch.SkipOne | dist/LastWarMonitor/_internal/monitor_game.py:295-307 | A single target that is not contained is passed over. |
| ScreenSearch.CropPass | dist/LastWarMonitor/_internal/monitor_game.py:295-320 | The content is the recognised text when the screenshot is kept, and empty otherwise. Coordinates change only when the screenshot is kept. A new target is one of the targets contained in the text. No crop gives an empty pass with nothing changed. |
| ScreenSearch.OcrPassSpec | dist/LastWarMonitor/_internal/monitor_game.py:162-320 | A crop that cannot be formed gives empty content and changes nothing. Otherwise it is the crop pass on that box. |
| HexColor.FormatHex | get_pixel_colors.py:42 | `#` followed by six upper-case hex digits. |
| HexColor.Hex2 | get_pixel_colors.py:42 | `{:02x}` upper-cased: two upper-case digits whose values are `c / 16` and `c % 16`. |
| HexColor.UpperDigit | get_pixel_colors.py:42 | An upper-case hex digit whose value is `d`. |
| HexColor.PySlice | test_step5.py:94-96 | A Python slice clipped to the string: never longer than `j − i`. |
| HexColor.ParseHexSlice | test_step5.py:94-96 | `int(t, 16)` gives a value only when the slice has a hex digit. Two characters without a blank or sign parse exactly when both are hex digits. |
| HexColor.ParseFormatHex | test_step5.py:94-96 | Parsing the `[1:3]`, `[3:5]`, `[5:7]` slices of a formatted colour recovers the colour. |
| HexColor.FormatParseHex | get_pixel_colors.py:42 | A canonical `#RRGGBB` string parses, and formats back to itself. |
| HexColor.Hex2RoundTrip | test_step5.py:94-96 | Two formatted digits parse back to the channel. |
| HexColor.Hex2OfParsedPair | get_pixel_colors.py:42 | Two upper-case digits parse to a channel that formats back to them. |
| HexColor.UpperDigitOfValue | get_pixel_colors.py:42 | An upper-case hex digit is the digit of its own value. |
| Pixels.ColorDiff | dist/LastWarMonitor/_internal/monitor_game.py:497-501 | The summed channel difference is 0 exactly when the colours are equal, and never above 765. |
| Pixels.ChannelwiseTolerance | dist/LastWarMonitor/_internal/monitor_game.py:497-503 | Channels each within `tolerance` match under the bound `3 · tolerance`. A negative tolerance matches nothing. A colour matches itself when `tolerance ≥ 0`. |
| Pixels.ParseSamples | dist/LastWarMonitor/_internal/monitor_game.py:455-466 | The expected colours, one per sample and in order. There are none exactly when some colour does not parse, which raises in the source. |
| Pixels.Collect | dist/LastWarMonitor/_internal/monitor_game.py:457-466 | Collecting parsed colours fails exactly when one of them failed, and otherwise keeps every one in order. |
| Pixels.Hits | dist/LastWarMonitor/_internal/monitor_game.py:492-524 | One flag per sample. A flag is true exactly when the pixel reads and is within `3 · tolerance`. |
| Pixels.CountTrue | dist/LastWarMonitor/_internal/monitor_game.py:474-524 | The number of matched samples is at most the number of samples. |
| Pixels.CountTrueExtremes | dist/LastWarMonitor/_internal/monitor_game.py:568-569 | The count is the total exactly when every sample matched, and 0 exactly when none did. |
| Pixels.CountTrueAppend | dist/LastWarMonitor/_internal/monitor_game.py:481-524 | The count over two runs of samples is the sum of their counts. |
| Pixels.CountTruePrefix | dist/LastWarMonitor/_internal/monitor_game.py:481-524 | A prefix counts no more than the whole, and at most the rest fewer. |
| Pixels.StopIndex | dist/LastWarMonitor/_internal/monitor_game.py:477-490 | Where the early stop halts: no earlier prefix has more than `total − int(total · ratio)` failures, and a halt before the end has more. |
| Pixels.StopFrom | dist/LastWarMonitor/_internal/monitor_game.py:477-490 | The same, scanning on from a position the stop has not yet reached. |
| Pixels.StopIndexUnique | dist/LastWarMonitor/_internal/monitor_game.py:477-490 | The halting position is the only position with that property. |
| Pixels.ScanEarlyStop | dist/LastWarMonitor/_internal/monitor_game.py:474-524 | The pixel loop's `matched` and `failed` are the counts over the prefix up to where the early stop halts, and `matched + failed ≤ total`. |
| Pixels.NoStopExtend | dist/LastWarMonitor/_internal/monitor_game.py:485-490 | While the budget holds, the scan goes on past one more sample. |
| Pixels.CountTrueStep | dist/LastWarMonitor/_internal/monitor_game.py:503-513 | One more sample adds one to the count exactly when it matches. |
| Pixels.MatchRatio | dist/LastWarMonitor/_internal/monitor_game.py:568 | `matched / total` lies between 0 and 1. |
| Pixels.FractionBelow | dist/LastWarMonitor/_internal/monitor_game.py:568-569 | Fewer than `total · ratio` matches give a ratio below `ratio`. |
| Pixels.TruncAtMost | dist/LastWarMonitor/_internal/monitor_game.py:477 | `int(total · ratio) ≤ total` when `ratio ≤ 1`. |
| Pixels.BelowRatio | dist/LastWarMonitor/_internal/monitor_game.py:477-490 | Failures beyond the budget leave fewer than `total · ratio` matches. |
| Pixels.StoppedEarlyFails | dist/LastWarMonitor/_internal/monitor_game.py:477-569 | A scan that halts early fails the ratio, and the full scan fails it too. |
| Pixels.NoStopWithoutFailure | dist/LastWarMonitor/_internal/monitor_game.py:477-490 | When every sample matches and `ratio ≤ 1`, the scan never halts early. |
| Pixels.EarlyStopVerdict | dist/LastWarMonitor/_internal/monitor_game.py:477-569 | The verdict after the early stop equals the verdict of a full scan. |
| Pixels.AppHits | dist/LastWarMonitor.app/Contents/Resources/monitor_game.py:371-408 | The `.app` flags, one per sample. A sample whose pixel read or colour parse raises is not matched. |
| Pixels.ScanFull | dist/LastWarMonitor.app/Contents/Resources/monitor_game.py:368-411 | The full-scan loop's `matched` is the number of `.app` hits, at most the total. |
| Pixels.AppHitsAgree | dist/LastWarMonitor.app/Contents/Resources/monitor_game.py:371-408 | When every colour parses, the `.app` flags are the `_internal` flags. |
| Pixels.BuildsAgree | dist/LastWarMonitor.app/Contents/Resources/monitor_game.py:371-411 | On parsable colours, the `_internal` early-stop verdict equals the `.app` full-scan verdict. |
| Pixels.Abs | dist/LastWarMonitor/_internal/monitor_game.py:497-501 | `abs`: the number or its negation, never negative. |
| InternalSpec.FrameCheck | dist/LastWarMonitor/_internal/monitor_game.py:422-576 | A missing pattern gives `(False, 0.0)`. The check raises exactly for an empty pattern or a malformed colour. The ratio lies in `[0, 1]`, and a match holds exactly when `ratio ≥ pattern_match_ratio`. |
| InternalSpec.FrameCheckIsFullScan | dist/LastWarMonitor/_internal/monitor_game.py:477-569 | The early-stopped verdict is the verdict of the full count. |
| InternalSpec.CheckSpec | dist/LastWarMonitor/_internal/monitor_game.py:432-452 | The check taps nothing and does not poll. A missing pattern takes no screenshot. Otherwise it judges the cached screenshot, capturing one only when none is cached. |
| InternalSpec.Rechecks | dist/LastWarMonitor/_internal/monitor_game.py:642-663 | The re-checks up to `n`, each on a fresh capture. Every check before the last passed. The result is the last check's verdict, and success means all `n` checks ran. |
| InternalSpec.SmartVerifyWith | dist/LastWarMonitor/_internal/monitor_game.py:599-663 | The policy makes 1 to 3 checks, each on a fresh capture. Every check but the last passed, and the verdict is the last check's. |
| InternalSpec.SmartVerifyCounts | dist/LastWarMonitor/_internal/monitor_game.py:608-663 | A failed first check gives `False` after 1 check. A first ratio `≥ 0.95` gives `True` after 1 check. `0.80 ≤ r < 0.95` gives exactly 2 checks. Below 0.80 gives up to 3 checks, ending at the first failing re-check. |
| InternalSpec.MissingPatternFails | dist/LastWarMonitor/_internal/monitor_game.py:600-613 | A missing pattern fails after exactly one capture. |
| InternalSpec.Step3Choice | dist/LastWarMonitor/_internal/monitor_game.py:708-716 | `"Test Flight"` selects `step3_test`. Otherwise any of `"Wondrous"`, `"Christmas"` or `"Party"` selects `step3_tiec`. Anything else selects `step3_dig`. Each holds in both directions. |
| InternalSpec.Step3Pattern | dist/LastWarMonitor/_internal/monitor_game.py:718-728 | The chosen pattern when it is configured, else the fallback. There is none exactly when both are missing. |
| InternalSpec.Step3PatternKnown | dist/LastWarMonitor/_internal/monitor_game.py:718-728 | The fallback is `step3_dig` for `step3_test` and `step3_test` otherwise, and never the choice itself. |
| InternalSpec.Step3Spec | dist/LastWarMonitor/_internal/monitor_game.py:703-738 | (550, 1136) is tapped only when verification passes. With neither pattern configured, the step fails with nothing done. |
| InternalSpec.Step4From | dist/LastWarMonitor/_internal/monitor_game.py:740-761 | At most 2 attempts. The stop flag is polled before each attempt, and a raised flag fails the step. (538, 1470) is tapped only on a pass. |
| InternalSpec.Step4Attempts | dist/LastWarMonitor/_internal/monitor_game.py:744-761 | A first attempt that passes taps at once. A failed first attempt leads to a second. |
| InternalSpec.SeqFrom5 | dist/LastWarMonitor/_internal/monitor_game.py:939-950 | After the stop check, step 5's taps are followed by exactly one reset, unless step 5 raises. |
| InternalSpec.SeqFrom4 | dist/LastWarMonitor/_internal/monitor_game.py:927-950 | A stop after step 3 returns with no taps. Step 4 failing resets once. Each outcome's taps are spelled out. |
| InternalSpec.SeqFrom3 | dist/LastWarMonitor/_internal/monitor_game.py:923-950 | Step 3 failing resets once. Each outcome's taps from step 3 on are spelled out. |
| InternalSpec.SequenceSpec | dist/LastWarMonitor/_internal/monitor_game.py:903-950 | No coordinates: nothing happens. A stop after steps 1 to 4 issues no reset. Step 3 or 4 failing resets exactly once. Step 5 done resets exactly once. Each outcome's tap log is spelled out. |
| InternalSpec.TapsAfterStep3 | dist/LastWarMonitor/_internal/monitor_game.py:933-950 | Tap logs compose across step 4. |
| InternalSpec.TapsAfter | dist/LastWarMonitor/_internal/monitor_game.py:903-950 | Tap logs compose across steps 1 and 2. |
| InternalSpec.StopBeforeStart | dist/LastWarMonitor/_internal/monitor_game.py:908-912 | A stop raised before the first poll ends the sequence after step 1, without a reset. |
| InternalSpec.NoStopNoEarlyReturn | dist/LastWarMonitor/_internal/monitor_game.py:903-950 | Without a stop request, the sequence never returns at a stop check. |
| InternalSpec.NoStopFrom4 | dist/LastWarMonitor/_internal/monitor_game.py:927-950 | Without a stop request, the sequence from step 4 on never returns at a stop check. |
| InternalSpec.NoStopInStep4 | dist/LastWarMonitor/_internal/monitor_game.py:740-761 | Without a stop request, step 4 leaves the flag down. |
| InternalMonitor.GameMonitor.constructor | dist/LastWarMonitor/_internal/monitor_game.py:35-77 | Targets normalised to a list. No target found, no coordinates, an empty tap log and no screenshot. |
| InternalMonitor.GameMonitor.TakeScreenshot | dist/LastWarMonitor/_internal/monitor_game.py:445-450 | One capture, which becomes the cached screenshot. |
| InternalMonitor.GameMonitor.ClickAt | dist/LastWarMonitor/_internal/monitor_game.py:578-582 | One tap is appended. |
| InternalMonitor.GameMonitor.ReadStop | dist/LastWarMonitor/_internal/monitor_game.py:910-912 | One poll of the stop flag. |
| InternalMonitor.GameMonitor.Stop | dist/LastWarMonitor/_internal/monitor_game.py:665-667 | Raises the flag and changes nothing else. |
| InternalMonitor.GameMonitor.GetScreenContentOcr | dist/LastWarMonitor/_internal/monitor_game.py:162-320 | One capture. The content and the new `target_text`/`last_found_coords` are those of the OCR pass at scale 1. |
| InternalMonitor.GameMonitor.RecogniseCrop | dist/LastWarMonitor/_internal/monitor_game.py:295-320 | The crop pass on a given box. |
| InternalMonitor.GameMonitor.SearchTextInScreen | dist/LastWarMonitor/_internal/monitor_game.py:377-392 | With OCR: the OCR pass, then the search on its content. Without OCR: the UI search. No taps. |
| InternalMonitor.GameMonitor.CheckPixelPattern | dist/LastWarMonitor/_internal/monitor_game.py:422-576 | The result and new state are those of `CheckSpec`. |
| InternalMonitor.GameMonitor.FreshCheck | dist/LastWarMonitor/_internal/monitor_game.py:600-608 | Clearing the cache and checking gives the verdict on the next capture. |
| InternalMonitor.GameMonitor.SmartVerifyPattern | dist/LastWarMonitor/_internal/monitor_game.py:584-663 | The result and new state are those of the verification policy. |
| InternalMonitor.GameMonitor.ClickBackAndRestart | dist/LastWarMonitor/_internal/monitor_game.py:669-680 | Exactly 4 taps at (537, 1910). |
| InternalMonitor.GameMonitor.Step1 | dist/LastWarMonitor/_internal/monitor_game.py:682-693 | Succeeds exactly when coordinates exist, and then taps them. |
| InternalMonitor.GameMonitor.Step2 | dist/LastWarMonitor/_internal/monitor_game.py:695-701 | Taps (514, 819) and succeeds. |
| InternalMonitor.GameMonitor.Step3 | dist/LastWarMonitor/_internal/monitor_game.py:703-738 | Computes `Step3Spec`. |
| InternalMonitor.GameMonitor.Step4 | dist/LastWarMonitor/_internal/monitor_game.py:740-761 | Computes `Step4Spec`. |
| InternalMonitor.GameMonitor.Step5 | dist/LastWarMonitor/_internal/monitor_game.py:763-901 | Applies the step-5 report: its taps, captures and polls. |
| InternalMonitor.GameMonitor.ExecuteClickSequence | dist/LastWarMonitor/_internal/monitor_game.py:903-950 | Computes `SequenceSpec`. |
| AppSpec.AppFrameCheck | dist/LastWarMonitor.app/Contents/Resources/monitor_game.py:349-418 | A missing pattern passes. The check raises exactly for an empty pattern. Otherwise it matches exactly when the full-scan count reaches the ratio. |
| AppSpec.BuildsJudgeAlike | dist/LastWarMonitor.app/Contents/Resources/monitor_game.py:349-411 | On a configured pattern whose colours parse, both builds judge alike. A missing pattern passes in `.app` and fails in `_internal`. A malformed colour is skipped in `.app` and raises in `_internal`. |
| AppSpec.AppCheckSpec | dist/LastWarMonitor.app/Contents/Resources/monitor_game.py:349-367 | No taps and no polls. A missing pattern takes no screenshot. Otherwise it judges the cached screenshot. |
| AppSpec.FreshAppCheck | dist/LastWarMonitor.app/Contents/Resources/monitor_game.py:477-485 | Clearing the cache, capturing and checking gives the verdict on that capture. |
| AppSpec.AppStep4From | dist/LastWarMonitor.app/Contents/Resources/monitor_game.py:505-540 | Each of 2 attempts polls the stop flag, and a raised flag returns without a reset. (538, 1470) is tapped only on a pass. Failing both attempts takes two captures. |
| AppSpec.Burst | dist/LastWarMonitor.app/Contents/Resources/monitor_game.py:588-603 | The burst taps (544, 876) up to its allowance. It stops short only on a raised stop flag, and takes no screenshot. |
| AppSpec.AppStep5From | dist/LastWarMonitor.app/Contents/Resources/monitor_game.py:549-627 | A pass runs the burst and then one reset. A timeout resets once. A stop returns without a reset. A raising check leaves no further taps. |
| AppSpec.AppFrom3 | dist/LastWarMonitor.app/Contents/Resources/monitor_game.py:474-627 | The exact taps of every outcome from step 3 on. |
| AppSpec.AppSequenceSpec | dist/LastWarMonitor.app/Contents/Resources/monitor_game.py:443-627 | Step 1 taps only when there are coordinates, and the sequence goes on either way. The stop checks return without a reset. The game is reset exactly once when step 3 fails, when step 4 fails twice, after the burst, or on a step-5 timeout. Each outcome's tap log is spelled out. |
| AppSpec.AppTapsAfter3 | dist/LastWarMonitor.app/Contents/Resources/monitor_game.py:505-627 | Tap logs compose across step 4. |
| AppSpec.AppTapsAfter2 | dist/LastWarMonitor.app/Contents/Resources/monitor_game.py:461-627 | Tap logs compose across step 2. |
| AppSpec.MissingPatternsTapThrough | dist/LastWarMonitor.app/Contents/Resources/monitor_game.py:349-352 | With no step patterns and no stop request, the sequence taps through to the end of the burst. |
| AppSpec.NoStopBurst | dist/LastWarMonitor.app/Contents/Resources/monitor_game.py:593-603 | Without a stop request, the burst makes every tap its time allows. |
| AppMonitor.GameMonitor.constructor | dist/LastWarMonitor.app/Contents/Resources/monitor_game.py:24-62 | Targets normalised to a list. Nothing found, no taps, no screenshot. |
| AppMonitor.GameMonitor.TakeScreenshot | dist/LastWarMonitor.app/Contents/Resources/monitor_game.py:360-365 | One capture, which becomes the cached screenshot. |
| AppMonitor.GameMonitor.ClickAt | dist/LastWarMonitor.app/Contents/Resources/monitor_game.py:420-424 | One tap is appended. |
| AppMonitor.GameMonitor.ReadStop | dist/LastWarMonitor.app/Contents/Resources/monitor_game.py:457-459 | One poll of the stop flag. |
| AppMonitor.GameMonitor.Stop | dist/LastWarMonitor.app/Contents/Resources/monitor_game.py:426-428 | Raises the flag and changes nothing else. |
| AppMonitor.GameMonitor.GetScreenContentOcr | dist/LastWarMonitor.app/Contents/Resources/monitor_game.py:146-237 | One capture. The content and found coordinates are those of the OCR pass at scale 2. |
| AppMonitor.GameMonitor.RecogniseCrop | dist/LastWarMonitor.app/Contents/Resources/monitor_game.py:198-237 | The half-scale crop pass on a given box. |
| AppMonitor.GameMonitor.SearchTextInScreen | dist/LastWarMonitor.app/Contents/Resources/monitor_game.py:294-309 | With OCR: the OCR pass, then the search. Without OCR: the UI search. No taps. |
| AppMonitor.GameMonitor.CheckPixelPattern | dist/LastWarMonitor.app/Contents/Resources/monitor_game.py:339-418 | Computes `AppCheckSpec`. |
| AppMonitor.GameMonitor.FreshCheck | dist/LastWarMonitor.app/Contents/Resources/monitor_game.py:477-485 | Computes `FreshAppCheck`. |
| AppMonitor.GameMonitor.ClickBackAndRestart | dist/LastWarMonitor.app/Contents/Resources/monitor_game.py:430-441 | Exactly 4 taps at (537, 1910). |
| AppMonitor.GameMonitor.Step4Attempts | dist/LastWarMonitor.app/Contents/Resources/monitor_game.py:505-540 | The attempt loop computes `AppStep4From`. |
| AppMonitor.GameMonitor.BurstClicks | dist/LastWarMonitor.app/Contents/Resources/monitor_game.py:588-603 | The click loop computes `Burst`. |
| AppMonitor.GameMonitor.Step5Rounds | dist/LastWarMonitor.app/Contents/Resources/monitor_game.py:549-627 | The polling loop computes `AppStep5From`. |
| AppMonitor.GameMonitor.ExecuteClickSequence | dist/LastWarMonitor.app/Contents/Resources/monitor_game.py:443-627 | Computes `AppSequenceSpec`. |
| Device.ResetTaps | dist/LastWarMonitor/_internal/monitor_game.py:669-680 | Exactly four taps, all at (537, 1910). |
| Device.Repeat | dist/LastWarMonitor.app/Contents/Resources/monitor_game.py:593-603 | `n` copies of the tap point. |
| Device.DevicesListedNeedsTwoLines | test_step5.py:266-269 | The tools' gate holds exactly when the output mentions `"device"` and its stripped form has a line break. |
| Device.SplitOnParts | test_step5.py:266-269 | `split` gives two or more parts exactly when the separator occurs. |
| Step5Test.DetailRecord | test_step5.py:82-136 | A readable pixel with a parsable colour records its coordinate, expected colour, actual colour and difference, and matches exactly when the difference is within `3 · tolerance`. An unreadable pixel or colour records `"ERROR"`, 999 and no match. |
| Step5Test.Matches | test_step5.py:105-110 | The match flags of the details, in order. |
| Step5Test.CountMatchesAppend | test_step5.py:105-136 | A record adds one to `matched` exactly when it matches. |
| Step5Test.TesterSpec | test_step5.py:58-151 | No image gives `(False, 0, 0, [])`. It raises exactly for an empty pattern. Otherwise there is one detail per pixel in order, `matched` is the number of matching details, and the check passes exactly when `matched/total ≥ match_ratio`. |
| Step5Test.DetailsExtend | test_step5.py:82-136 | The details loop keeps the per-pixel records. |
| Step5Test.TesterSpecOfDetails | test_step5.py:82-151 | Details built pixel by pixel give the reported result. |
| Step5Test.TesterAgreesWithApp | test_step5.py:58-151 | The tester's match flags and verdict equal the `.app` build's check on the same frame. |
| Step5Test.Step5Tester.constructor | test_step5.py:15-30 | Stores the pattern, click point, tolerance and ratio. No screenshot, no taps. |
| Step5Test.Step5Tester.JudgePixel | test_step5.py:83-136 | One detail record. |
| Step5Test.Step5Tester.CheckPixelPattern | test_step5.py:58-151 | Computes `TesterSpec` on the given image, or on the cached one. |
| Step5Test.Step5Tester.AutoClick | test_step5.py:223-251 | `clicks` taps at the click point, and nothing else. |
| Step5Test.Step5Tester.RunTest | test_step5.py:253-300 | No device or no screenshot returns `False`. Otherwise it returns `is_pass`, auto-clicking only when `is_pass` and `auto_click`. A raising check escapes. |
| PixelColors.GetPixelColor | get_pixel_colors.py:38-45 | A readable pixel gives a canonical `#RRGGBB` string that parses back to its colour. An unreadable one gives `"ERROR: "` and the message. |
| PixelColors.ErrorTextIsNoColor | get_pixel_colors.py:44-45 | An error string never parses as a colour. |
| PixelColors.PositionOf | get_pixel_colors.py:82-92 | Indices 0 to 4 have a position label, and later ones have none. |
| PixelColors.Neighbourhood | get_pixel_colors.py:203-211 | Five points at the offset: centre, left, right, up, down. |
| PixelColors.PredefinedCoords | get_pixel_colors.py:48-72 | Exactly the keys `step3`, `step4`, `step5`. |
| PixelColors.PredefinedAreNeighbourhoods | get_pixel_colors.py:48-72 | Each predefined list is the offset-5 neighbourhood of its first entry. |
| PixelColors.ParseManual | get_pixel_colors.py:195-201 | `"x,y"` parses exactly when there are two comma-separated integers, and the point is those two integers in order. |
| PixelColors.ManualRoundTrip | get_pixel_colors.py:195-201 | The text `"x,y"` parses back to `(x, y)`. |
| PixelColors.ColorsOf | get_pixel_colors.py:136-140 | One colour string per coordinate, in order. |
| PixelColors.CollectColors | get_pixel_colors.py:136-140 | The colour loop computes `ColorsOf`. |
| PixelColors.PatternConfig | get_pixel_colors.py:75-96 | One entry per `zip` pair, labelled by its index. |
| PixelColors.PrintPatternConfig | get_pixel_colors.py:75-96 | The enumerate loop computes `PatternConfig`. |
| PixelColors.LabelsMatchPositions | get_pixel_colors.py:75-96 | For a neighbourhood, each of the five entries is labelled with the position it lies at. |
| PixelColors.Samples | get_pixel_colors.py:94 | The pattern samples a printed configuration stands for. |
| PixelColors.PrintedEntryParses | get_pixel_colors.py:94 | A printed entry whose read succeeded holds its own pixel's colour. |
| PixelColors.SelfPatternAppHits | dist/LastWarMonitor.app/Contents/Resources/monitor_game.py:371-408 | A pattern of the frame's own colours matches in full in `.app`. |
| PixelColors.SelfHit | dist/LastWarMonitor/_internal/monitor_game.py:497-503 | A sample carrying its pixel's own colour is a hit. |
| PixelColors.SelfPatternHits | dist/LastWarMonitor/_internal/monitor_game.py:455-524 | The same in `_internal`: the colours parse and every sample hits. |
| PixelColors.PrintedPatternMatches | get_pixel_colors.py:75-96 | A configuration printed from a readable frame matches that frame in full in both builds. |
| PixelColors.RunTool | get_pixel_colors.py:99-243 | No device ends with no screenshot taken. No screenshot ends the run. Choices 1 to 4 print the predefined steps. Choice 5 prints the manual neighbourhood, or ends on malformed input. Any other choice is rejected. |
| PixelColors.PrintStep | get_pixel_colors.py:129-142 | Prints the configuration of one step's coordinates. |
| PixelColors.PrintAllSteps | get_pixel_colors.py:174-188 | Prints steps 3, 4 and 5, in order. |
| PixelColors.StripIdempotent | get_pixel_colors.py:195 | Stripping twice is stripping once. |
| SimpleMonitor.FindTarget | monitor_game_simple_gui.py:110-119 | Returns a target contained in the text, with no earlier one contained. Returns none exactly when no target is contained. |
| SimpleMonitor.FindTargetAgrees | monitor_game_simple_gui.py:110-119 | Finds what the game monitor's search stores. |
| SimpleMonitor.DeviceEntries | monitor_game_simple_gui.py:50-57 | The kept lines are non-blank and mention `"device"`. |
| SimpleMonitor.DeviceEntriesNonEmpty | monitor_game_simple_gui.py:50-57 | Some line is kept exactly when some line passes the filter. |
| SimpleMonitor.DeviceConnectedIff | monitor_game_simple_gui.py:50-57 | Connected exactly when some line after the first mentions `"device"`. The `_internal` build (lines 126-133) is the same code. |
| SimpleMonitor.MentionIsNotBlank | monitor_game_simple_gui.py:54 | A line mentioning `"device"` is never blank. |
| SimpleMonitor.OfflineDevicePassesToolGateOnly | test_step5.py:266-269 | For a listing with only an offline device, the tools' gate passes and `check_device_connected` fails. |
| SimpleMonitor.OfflineListingLines | monitor_game_simple_gui.py:52 | That listing splits into the header and the device line. |
| SimpleMonitor.OfflineLineFacts | monitor_game_simple_gui.py:54 | The offline line does not mention `"device"`. |
| SimpleMonitor.HeaderHasNoBreak | monitor_game_simple_gui.py:52 | The header is one line. |
| SimpleMonitor.LacksFirstChar | monitor_game_simple_gui.py:54 | A string lacking the first character of `sub` does not contain `sub`. |
| SimpleMonitor.Truthy | monitor_game_simple_gui.py:178 | `if result:` treats an empty target as nothing found. |
| SimpleMonitor.Round | monitor_game_simple_gui.py:168-191 | One pass counts a check. `found_text` is the found target, or nothing when the app is not running or nothing is found. A notification is sent exactly when something is found and the interval has elapsed. `last_notification_time` changes only when one is sent. |
| SimpleMonitor.RoundKeepsSpaced | monitor_game_simple_gui.py:168-191 | One pass keeps the notifications at least `interval` apart. |
| SimpleMonitor.Run | monitor_game_simple_gui.py:166-191 | Notifications are only appended, each stamped with one of the observations' times. |
| SimpleMonitor.RunKeepsSpaced | monitor_game_simple_gui.py:166-191 | However long it runs, the monitor never notifies twice within `interval`. |
| SimpleMonitor.EmptyTargetHidesOthers | monitor_game_simple_gui.py:110-119 | An empty first target is always "found" but falsy, so it hides every later target and nothing is notified. |
| SimpleMonitor.SimpleTextMonitor.constructor | monitor_game_simple_gui.py:29-37 | A single target becomes a one-element list. No stop request. |
| SimpleMonitor.SimpleTextMonitor.SearchTextInScreen | monitor_game_simple_gui.py:110-119 | The first contained target, or none. |
| SimpleMonitor.SimpleTextMonitor.Stop | monitor_game_simple_gui.py:135-137 | Raises the stop flag. |
| SimpleMonitor.SimpleTextMonitor.Monitor | monitor_game_simple_gui.py:139-193 | No device returns at once. Otherwise the loop ends in the state `Run` describes. |
| Numbers.ParseIntOfNatToString | get_pixel_colors.py:198 | `int()` of a printed number gives the number back. |
| Numbers.ParseFloatOfNatToString | dist/LastWarMonitor/_internal/monitor_game.py:108 | `float()` of a printed number gives the number back. |
| Numbers.ParseFloat | dist/LastWarMonitor/_internal/monitor_game.py:103-108 | `float()` accepts only a non-blank string, and a finite result is negative only after a leading `-` and never positive after one. |
| Numbers.IntStringIsFloatString | dist/LastWarMonitor/_internal/monitor_game.py:108 | Every string `int()` accepts, `float()` accepts with the same value. |
| Numbers.ExponentForm | dist/LastWarMonitor/_internal/monitor_game.py:108 | `float("<m>e<k>")` is `m · 10^k`. |
| Numbers.UnderscoreBetweenDigits | get_pixel_colors.py:198 | An underscore between two runs of digits is accepted by `int()` and changes nothing. |
| Numbers.DecimalEnd | dist/LastWarMonitor/_internal/monitor_game.py:108 | A decimal literal `float()` accepts ends in a digit or in its decimal point. |
| Numbers.DigitsValueOfNatToString | get_pixel_colors.py:198 | The digits of a printed number have its value. |
| Numbers.DigitsStrip | get_pixel_colors.py:198 | A digit string is unchanged by `strip`. |
| Numbers.Trunc | dist/LastWarMonitor/_internal/monitor_game.py:95-96 | Python's `int()` on a float truncates toward zero: within one below a non-negative value, within one above a negative value. |
| Numbers.ParseInt | get_pixel_colors.py:198 | `int()` accepts, after stripping blanks and an optional sign, only digits with single underscores between digits. The result is negative only after a leading `-`. |
| Text.SplitWords | dist/LastWarMonitor/_internal/monitor_game.py:334-336 | `split()` gives non-empty words without blanks. |
| Text.JoinSplitOn | get_pixel_colors.py:198 | Joining the parts of `split(sep)` with `sep` gives the string back. |
| Text.SplitJoined | get_pixel_colors.py:198 | Splitting two parts joined by a separator that neither contains gives the two parts. |
| Text.StripUnchanged | get_pixel_colors.py:195 | A string without surrounding blanks is unchanged by `strip`. |
| Text.FirstContained | monitor_game_simple_gui.py:115-119 | The first target contained in the text, or none exactly when none is contained. |
| Text.Strip | dist/LastWarMonitor/_internal/monitor_game.py:99 | `strip()` leaves no blank at either end. |
| Text.TrimStart | dist/LastWarMonitor/_internal/monitor_game.py:99 | It removes exactly the leading blanks. |
| Text.TrimEnd | dist/LastWarMonitor/_internal/monitor_game.py:99 | It removes exactly the trailing blanks. |
| Text.Lower | dist/LastWarMonitor/_internal/monitor_game.py:341 | Lower-casing, character by character. |
| Text.SplitOn | get_pixel_colors.py:198 | `split(sep)` gives at least one part, and no part contains the separator. |
| Text.IndexOf | get_pixel_colors.py:198 | The first position of the character, or the length when it does not occur. |
| Text.WordLength | dist/LastWarMonitor/_internal/monitor_game.py:334 | A word runs up to the first blank. |
| Text.FirstContainedFrom | monitor_game_simple_gui.py:115-119 | From index `k` on: the first target contained in the text, or none exactly when no target from `k` is contained. |

## Left out

- The PSM-mode retry loop and the image preprocessing in `_internal` OCR (contrast, sharpening) are left out. They are calls into tesseract and PIL. The recognised words are given as input, and the resize by 2 in `.app` is the `scale` parameter.
- The `_internal` step-5 race between the click thread and the check thread, with its dict flags and wall-clock timeouts, is left out. Step 5 is a `Step5Report` of outcome, clicks, captures and polls. The sequence only relies on what follows it: a reset unless step 5 raised.
- Clocks and sleeps are not modelled. `time.sleep` is a no-op. The `.app` step-5 rounds and burst taps are counts the caller gives. The simple monitor's times are part of its observations.
- Floating-point rounding is not modelled. Ratios and dimensions are `real`, and Python's `int()` on floats is truncation toward zero.
- Text.Lower: lower-cases the ASCII letters only; Unicode case mapping is left out. Blank-stripping and `split()` follow Python's `str.isspace()` in full.
- Numbers.ParseFloat: reads the decimal literal as an exact real. A literal too large for a double (`"1e400"`), which Python turns into an infinity, stays finite here, and rounding is not modelled.
- Numbers.ParseInt: does not accept non-ASCII decimal digits, which Python's `int()` and `float()` also read. PixelColors.ParseManual inherits this.
- HexColor.ParseHexSlice: a minus sign before a non-zero digit (`"-f"`) gives a negative number, which `int(t, 16)` returns but a channel cannot hold; it is read as raising. Non-ASCII digits are left out as for `int()`.
- Dimension.ParseDimension: a `Number` is a finite value. A non-finite float in the configuration, such as JSON `Infinity`, is not modelled.
- Failures of `Image.open`, adb and screenshots on disk are left out. A failed screenshot is `None` where the tools check it.
- The `_pattern_rgb_cache` memoisation is left out. It is keyed by name and never invalidated, so it never changes a verdict while the pattern table stays fixed, and the table is fixed in this model.
- The numpy-versus-PIL split in `check_pixel_pattern` is left out. Only the PIL rule is modelled, since both paths apply the same rule.
- `send_notification`, the sound and osascript calls, the `input` thread and the `monitor` polling loops of both dist builds are left out. They are I/O and interactive plumbing.
- `monitor_game_gui.py`, `SimpleMonitorGUI` and `test_ocr_improvement.py` are left out as UI and library exercise scripts.
- The `main()` configuration literals are parameters. This includes `OCR_REGION`, which `main()` passes as a tuple where a dict is expected.
- Simple monitor: `check_app_running` is part of each observation. Its OCR crop and resize are left out, since the recognised text is given. Its infinite loop is cut to the observations given. `cached_screenshot` is never read there, so it is not modelled.
- `draw_markers_on_screenshot` in the step-5 tester is left out. It only draws on an image.
- `find_text_coordinates` is left out. It is an unused wrapper over `find_text_coordinates_for_target`.
- `run_adb_command` and `capture_screenshot` are left out. They are subprocess and file I/O.
- `get_screen_content_ui` is left out. The UI dump is an input string.
- UiLocator.DigitRun: `\d` is read as an ASCII digit, where a str pattern in Python also matches other Unicode decimal digits that `int()` then reads. UiLocator.NumAt and UiLocator.FindTextCoordinatesUi inherit this. uiautomator prints bounds in ASCII digits.
- Step5Test.Step5Tester.AutoClick: taps once per click the 10 seconds allow. The number of clicks is a parameter.

## Notes on the code

Where the documented behaviour and the code disagree, the model follows the
code:

- In `_internal`, a stop seen inside step 4 or step 5 makes the step return `False`. The sequence then resets the game (`SequenceSpec`, step 4 failing). A stop therefore suppresses the reset only when it is seen after steps 1 to 3, or after step 4 has passed.
- The `_internal` early stop uses `int(total · ratio)`, truncation, not a ceiling. `EarlyStopVerdict` shows that the early stop still never changes the verdict.
- A target that OCR finds but cannot place keeps the previous `last_found_coords` (`UnplacedKeepsCoords`). The OCR pass and the substring search can settle on different targets (`OcrSearchMixesTargets`).
- The test tools gate on `"device" in output` and two lines. The header `List of devices attached` already contains `"device"`, so a listing with only an offline device passes their gate but not `check_device_connected` (`OfflineDevicePassesToolGateOnly`).
- In the simple monitor, an empty target string is always found but is falsy, so it hides every later target (`EmptyTargetHidesOthers`).
